// The link()-based lock on the mount table, taken by any number of processes.

module MtabLock {
  import opened Prelude

  /** Where a process is; `dying` when unlock_mtab runs as the exit handler of a caught signal. */
  datatype Place =
    | Idle                      // outside lock_mtab, which has not returned 0 since the last unlock
    | Loop                      // at the test of lock_mtab's loop
    | Linked                    // link() succeeded; the flag is not yet set
    | Opening(mine: bool)       // about to open the lock file
    | Claiming                  // own lock open: about to remove the link target
    | Waiting                   // somebody else's lock open: about to wait
    | Failing                   // about to remove the link target and fail
    | Held                      // lock_mtab returned 0
    | Unlinking(dying: bool)    // unlock_mtab: about to unlink the lock
    | Clearing(dying: bool)     // unlock_mtab: about to clear the flag
    | Dead

  /** `created` is we_created_lockfile; `reentered` records a call of lock_mtab made with it set. */
  datatype Process = Process(at: Place, created: bool, target: bool, reentered: bool)

  datatype LinkResult = Made | Exists | LinkError
  datatype OpenResult = Opened | Missing | OpenError

  /** One system call with its result, one change of the flag, or the end of a process. */
  datatype Event =
    | OpenTarget(ok: bool)
    | Link(made: LinkResult)
    | SetFlag
    | OpenLock(found: OpenResult, inTime: bool)
    | RemoveTarget
    | Wait(ok: bool)
    | Return
    | Unlock
    | UnlinkLock
    | ClearFlag
    | Signal
    | Kill

  predicate Dying(at: Place) {
    at.Dead? || (at.Unlinking? && at.dying) || (at.Clearing? && at.dying)
  }

  /** What the event does to its process, None when the process cannot do it there. */
  function Local(q: Process, e: Event): Option<Process> {
    match e
    case OpenTarget(ok) =>
      if q.at != Idle && q.at != Held then None
      else
        var again := q.reentered || q.created;
        Some(if ok then q.(at := Loop, target := true, reentered := again) else q.(at := Idle, reentered := again))
    case Link(made) =>
      if q.at != Loop || q.created then None
      else Some(q.(at := if made == Made then Linked else if made == Exists then Opening(false) else Failing))
    case SetFlag => if q.at != Linked then None else Some(q.(at := Opening(true), created := true))
    case OpenLock(found, inTime) =>
      if !q.at.Opening? then None
      else if found == Opened then Some(q.(at := if q.at.mine then Claiming else Waiting))
      else if found == Missing && inTime then Some(q.(at := Loop, created := false))
      else Some(q.(at := Failing))
    case RemoveTarget =>
      if q.at == Claiming then Some(q.(at := Loop, target := false))
      else if q.at == Failing then Some(q.(at := Idle, target := false))
      else None
    case Wait(ok) => if q.at != Waiting then None else Some(q.(at := if ok then Loop else Failing))
    case Return => if q.at != Loop || !q.created then None else Some(q.(at := Held))
    case Unlock =>
      if q.at != Idle && q.at != Held then None
      else Some(q.(at := if q.created then Unlinking(false) else Idle))
    case UnlinkLock => if !q.at.Unlinking? then None else Some(q.(at := Clearing(q.at.dying)))
    case ClearFlag =>
      if !q.at.Clearing? then None else Some(q.(at := if q.at.dying then Dead else Idle, created := false))
    case Signal =>
      if Dying(q.at) then None else Some(q.(at := if q.created then Unlinking(true) else Dead))
    case Kill => if q.at.Dead? then None else Some(q.(at := Dead))
  }

  /** The lock file, made by a process's link or absent, and the processes. */
  datatype System = System(lock: Option<nat>, procs: seq<Process>)

  /** What the file system answers: only a missing lock can be made, only a present one opened. */
  predicate Answers(s: System, p: nat, e: Event)
    requires p < |s.procs|
  {
    match e
    case Link(made) =>
      (made == Made ==> s.lock == None && s.procs[p].target) && (made == Exists ==> s.lock != None)
    case OpenLock(found, _) => (found == Opened ==> s.lock != None) && (found == Missing ==> s.lock == None)
    case _ => true
  }

  /** Unlinking removes the lock whoever made it. */
  function Step(s: System, p: nat, e: Event): Option<System> {
    if p >= |s.procs| || !Answers(s, p, e) then None
    else
      match Local(s.procs[p], e)
      case None => None
      case Some(q) =>
        var lock := if e == Link(Made) then Some(p) else if e == UnlinkLock then None else s.lock;
        Some(System(lock, s.procs[p := q]))
  }

  /** The system after an interleaving, None when some event of it cannot happen. */
  function Run(s: System, run: seq<(nat, Event)>): Option<System>
    decreases run
  {
    if run == [] then Some(s)
    else
      match Step(s, run[0].0, run[0].1)
      case None => None
      case Some(s') => Run(s', run[1..])
  }

  const FRESH := Process(Idle, false, false, false)

  function Initial(n: nat): System {
    System(None, seq(n, _ => FRESH))
  }

  // ---------- What every interleaving keeps ----------

  /** What holds of process `p`. */
  predicate Sound(lock: Option<nat>, p: nat, q: Process) {
    && (q.created && !q.at.Clearing? && !q.at.Dead? ==> lock == Some(p))
    && (q.at.Clearing? ==> lock != Some(p))
    && (q.at == Linked ==> lock == Some(p))
    && (q.at in {Linked, Opening(false), Waiting} ==> !q.created)
    && (q.at.Held? || q.at.Unlinking? || q.at.Clearing? || q.at == Opening(true) || q.at == Claiming ==> q.created)
    && (q.at == Loop && !q.created ==> q.target)
    && (q.at.Linked? || q.at.Opening? || q.at.Claiming? || q.at.Waiting? || q.at.Failing? ==> q.target)
    && (q.at in {Idle, Held, Unlinking(false), Clearing(false)} && q.target ==> q.reentered)
    && (q.at == Loop && q.created && q.target ==> q.reentered)
  }

  /** A lock file has a maker that has not let go of it, or that died. */
  predicate Accounted(s: System) {
    s.lock != None ==>
      && s.lock.value < |s.procs|
      && var q := s.procs[s.lock.value];
         q.at == Linked || q.at == Dead || q.created
  }

  ghost predicate Inv(s: System) {
    Accounted(s) && forall p :: 0 <= p < |s.procs| ==> Sound(s.lock, p, s.procs[p])
  }

  /** The one event the lock does not survive: a signal after unlock_mtab's unlink, its flag still set. */
  predicate CutsUnlock(s: System, p: nat, e: Event) {
    p < |s.procs| && e == Signal && s.procs[p].at == Clearing(false)
  }

  /** The process that moves: it stays sound exactly when its unlock is not cut short. */
  lemma {:induction false} MoverSound(s: System, p: nat, e: Event)
    requires Inv(s) && Step(s, p, e) != None
    ensures var s' := Step(s, p, e).value; Sound(s'.lock, p, s'.procs[p]) <==> !CutsUnlock(s, p, e)
  {
    assert Sound(s.lock, p, s.procs[p]);
  }

  lemma {:induction false} OtherSound(s: System, p: nat, e: Event, r: nat)
    requires Inv(s) && Step(s, p, e) != None && !CutsUnlock(s, p, e) && r < |s.procs| && r != p
    ensures Sound(Step(s, p, e).value.lock, r, s.procs[r])
  {
    assert Sound(s.lock, p, s.procs[p]) && Sound(s.lock, r, s.procs[r]);
  }

  lemma {:induction false} StepAccounted(s: System, p: nat, e: Event)
    requires Inv(s) && Step(s, p, e) != None
    ensures Accounted(Step(s, p, e).value)
  {
    assert Sound(s.lock, p, s.procs[p]);
  }

  lemma {:induction false} StepKeepsInv(s: System, p: nat, e: Event)
    requires Inv(s) && Step(s, p, e) != None
    ensures Inv(Step(s, p, e).value) <==> !CutsUnlock(s, p, e)
  {
    var s' := Step(s, p, e).value;
    MoverSound(s, p, e);
    StepAccounted(s, p, e);
    assert |s'.procs| == |s.procs| && forall r :: 0 <= r < |s.procs| && r != p ==> s'.procs[r] == s.procs[r];
    if !CutsUnlock(s, p, e) {
      forall r | 0 <= r < |s.procs| ensures Sound(s'.lock, r, s'.procs[r]) {
        if r != p { OtherSound(s, p, e, r); }
      }
    } else {
      assert !Sound(s'.lock, p, s'.procs[p]);
    }
  }

  ghost predicate Uncut(s: System, run: seq<(nat, Event)>)
    decreases run
  {
    run != [] ==>
      && !CutsUnlock(s, run[0].0, run[0].1)
      && (Step(s, run[0].0, run[0].1) != None ==> Uncut(Step(s, run[0].0, run[0].1).value, run[1..]))
  }

  lemma {:induction false} RunKeepsInv(s: System, run: seq<(nat, Event)>)
    requires Inv(s) && Uncut(s, run) && Run(s, run) != None
    ensures Inv(Run(s, run).value) && |Run(s, run).value.procs| == |s.procs|
    decreases run
  {
    if run == [] {
    } else {
      StepKeepsInv(s, run[0].0, run[0].1);
      RunKeepsInv(Step(s, run[0].0, run[0].1).value, run[1..]);
    }
  }

  /** `s` is what some interleaving of n processes, none of them cut short in unlock_mtab, leads to. */
  ghost predicate Reached(n: nat, run: seq<(nat, Event)>, s: System) {
    Uncut(Initial(n), run) && Run(Initial(n), run) == Some(s)
  }

  lemma {:induction false} ReachedInv(n: nat, run: seq<(nat, Event)>, s: System)
    requires Reached(n, run, s)
    ensures Inv(s) && |s.procs| == n
  {
    RunKeepsInv(Initial(n), run);
  }

  /** Between lock_mtab returning 0 and the unlink. */
  predicate InSection(q: Process) {
    q.at.Held? || q.at.Unlinking? || (q.at == Loop && q.created)
  }

  /** No two processes are in the section at once, and the lock file of the one that is exists. */
  lemma {:induction false} MutualExclusion(n: nat, run: seq<(nat, Event)>, s: System, p: nat, r: nat)
    requires Reached(n, run, s) && p < n && r < n
    requires |s.procs| == n && InSection(s.procs[p])
    ensures s.lock == Some(p) && (InSection(s.procs[r]) ==> p == r)
  {
    ReachedInv(n, run, s);
    assert Sound(s.lock, p, s.procs[p]) && Sound(s.lock, r, s.procs[r]);
  }

  /** A process that made the lock cannot find it missing: the loop never retries after its own link. */
  lemma {:induction false} OwnLinkFound(n: nat, run: seq<(nat, Event)>, s: System, p: nat, inTime: bool)
    requires Reached(n, run, s) && p < |s.procs| && s.procs[p].at == Opening(true)
    ensures Step(s, p, OpenLock(Missing, inTime)) == None
    ensures Step(s, p, OpenLock(Opened, inTime)) != None
  {
    ReachedInv(n, run, s);
    assert Sound(s.lock, p, s.procs[p]);
  }

  /**
   * Outside lock_mtab a live process has no link target left, unless it once called lock_mtab with the
   * lock already its own.
   */
  lemma {:induction false} NoTargetLeft(n: nat, run: seq<(nat, Event)>, s: System, p: nat)
    requires Reached(n, run, s) && p < |s.procs| && !s.procs[p].reentered
    requires s.procs[p].at == Idle || s.procs[p].at == Held
    ensures !s.procs[p].target
  {
    ReachedInv(n, run, s);
    assert Sound(s.lock, p, s.procs[p]);
  }

  lemma {:induction false} RunPair(s: System, p: nat, e: Event, f: Event)
    requires Step(s, p, e) != None
    ensures Run(s, [(p, e), (p, f)]) == Step(Step(s, p, e).value, p, f)
  {
    hide Step;
    var run := [(p, e), (p, f)];
    assert run[1..] == [(p, f)];
    assert [(p, f)][1..] == run[2..];
    assert Run(s, run) == Run(Step(s, p, e).value, [(p, f)]);
  }

  /** Such a second call, also after one that failed, returns 0 at once and leaves its link target behind. */
  lemma {:induction false} SecondCallLeavesTarget(s: System, p: nat)
    requires p < |s.procs| && (s.procs[p].at == Held || s.procs[p].at == Idle) && s.procs[p].created
    ensures Run(s, [(p, OpenTarget(true)), (p, Return)])
            == Some(s.(procs := s.procs[p := s.procs[p].(at := Held, target := true, reentered := true)]))
  {
    var s1 := Step(s, p, OpenTarget(true)).value;
    RunPair(s, p, OpenTarget(true), Return);
    var q := s.procs[p].(at := Held, target := true, reentered := true);
    assert s1.procs[p := q] == s.procs[p := q];
  }

  /** The rest of unlock_mtab as the exit handler. */
  lemma {:induction false} ExitRuns(s: System, p: nat)
    requires p < |s.procs| && s.procs[p].at == Unlinking(true)
    ensures Run(s, [(p, UnlinkLock), (p, ClearFlag)])
            == Some(System(None, s.procs[p := s.procs[p].(at := Dead, created := false)]))
  {
    var q := s.procs[p].(at := Dead, created := false);
    RunPair(s, p, UnlinkLock, ClearFlag);
    hide Run;
    assert Step(Step(s, p, UnlinkLock).value, p, ClearFlag).value.procs == s.procs[p := q];
  }

  /** A caught signal, and what the exit handler then does. */
  function Dies(q: Process, p: nat): seq<(nat, Event)> {
    [(p, Signal)] + if q.created then [(p, UnlinkLock), (p, ClearFlag)] else []
  }

  /** A process killed by a caught signal leaves its lock behind exactly when that came between link() and the flag. */
  lemma {:induction false} SignalLeavesLockIff(n: nat, run: seq<(nat, Event)>, s: System, p: nat)
    requires Reached(n, run, s) && p < |s.procs| && Step(s, p, Signal) != None
    ensures var r := Run(s, Dies(s.procs[p], p));
            && r != None && |r.value.procs| == |s.procs| && r.value.procs[p].at == Dead
            && (r.value.lock == Some(p) <==> s.procs[p].at == Linked)
  {
    ReachedInv(n, run, s);
    assert Sound(s.lock, p, s.procs[p]);
    assert Accounted(s);
    var s1 := Step(s, p, Signal).value;
    RunStep(s, p, Signal, Dies(s.procs[p], p)[1..]);
    assert Dies(s.procs[p], p) == [(p, Signal)] + Dies(s.procs[p], p)[1..];
    if s.procs[p].created {
      ExitRuns(s1, p);
      assert Dies(s.procs[p], p)[1..] == [(p, UnlinkLock), (p, ClearFlag)];
    } else {
      RunNone(s1);
    }
  }

  lemma {:induction false} RunStep(s: System, p: nat, e: Event, rest: seq<(nat, Event)>)
    requires Step(s, p, e) != None
    ensures Run(s, [(p, e)] + rest) == Run(Step(s, p, e).value, rest)
  {
    assert ([(p, e)] + rest)[1..] == rest;
  }

  // ---------- What a signal inside unlock_mtab can do ----------

  /** The events of a lock_mtab call that finds no lock. */
  function Taking(p: nat): seq<(nat, Event)> {
    [(p, OpenTarget(true))] + ([(p, Link(Made))] + ([(p, SetFlag)] + Confirming(p)))
  }

  function Confirming(p: nat): seq<(nat, Event)> {
    [(p, OpenLock(Opened, true))] + ([(p, RemoveTarget)] + ([(p, Return)] + []))
  }

  lemma {:induction false} RunSplit(s: System, a: seq<(nat, Event)>, b: seq<(nat, Event)>)
    requires Run(s, a) != None
    ensures Run(s, a + b) == Run(Run(s, a).value, b)
    decreases a
  {
    if a == [] {
      AppendNone(b);
    } else {
      assert (a + b)[1..] == a[1..] + b;
      RunSplit(Step(s, a[0].0, a[0].1).value, a[1..], b);
    }
  }

  /** `s` with the lock and process `p` as given. */
  function Put(s: System, p: nat, lock: Option<nat>, q: Process): System
    requires p < |s.procs|
  {
    System(lock, s.procs[p := q])
  }

  lemma {:induction false} PutStep(s: System, p: nat, lock: Option<nat>, q: Process, e: Event, rest: seq<(nat, Event)>)
    requires p < |s.procs| && Step(Put(s, p, lock, q), p, e) != None
    ensures var s' := Put(s, p, Step(Put(s, p, lock, q), p, e).value.lock, Local(q, e).value);
            Run(Put(s, p, lock, q), [(p, e)] + rest) == Run(s', rest)
  {
    var s1 := Put(s, p, lock, q);
    var s' := Put(s, p, Step(s1, p, e).value.lock, Local(q, e).value);
    assert s1.procs[p := Local(q, e).value] == s'.procs;
    assert ([(p, e)] + rest)[1..] == rest;
  }

  lemma {:induction false} PutSame(s: System, p: nat)
    requires p < |s.procs|
    ensures Put(s, p, s.lock, s.procs[p]) == s
  {
  }

  lemma {:induction false} ConfirmRuns(s: System, p: nat)
    requires p < |s.procs|
    ensures Run(Put(s, p, Some(p), Process(Opening(true), true, true, false)), Confirming(p))
            == Some(Put(s, p, Some(p), Process(Held, true, false, false)))
  {
    hide Run;
    PutStep(s, p, Some(p), Process(Opening(true), true, true, false), OpenLock(Opened, true),
            [(p, RemoveTarget)] + ([(p, Return)] + []));
    PutStep(s, p, Some(p), Process(Claiming, true, true, false), RemoveTarget, [(p, Return)] + []);
    PutStep(s, p, Some(p), Process(Loop, true, false, false), Return, []);
    RunNone(Put(s, p, Some(p), Process(Held, true, false, false)));
  }

  /** Up to the flag a call that finds no lock goes the same way, whatever comes then. */
  lemma {:induction false} MakesFreeLock(s: System, p: nat, rest: seq<(nat, Event)>)
    requires p < |s.procs| && s.procs[p] == FRESH && s.lock == None
    ensures Run(s, [(p, OpenTarget(true))] + ([(p, Link(Made))] + ([(p, SetFlag)] + rest)))
            == Run(Put(s, p, Some(p), Process(Opening(true), true, true, false)), rest)
  {
    PutSame(s, p);
    hide Run;
    PutStep(s, p, None, FRESH, OpenTarget(true), [(p, Link(Made))] + ([(p, SetFlag)] + rest));
    PutStep(s, p, None, Process(Loop, false, true, false), Link(Made), [(p, SetFlag)] + rest);
    PutStep(s, p, Some(p), Process(Linked, false, true, false), SetFlag, rest);
  }

  /** A free lock can be taken by an idle process. */
  lemma {:induction false} TakesFreeLock(s: System, p: nat)
    requires p < |s.procs| && s.procs[p] == FRESH && s.lock == None
    ensures Run(s, Taking(p)) == Some(Put(s, p, Some(p), Process(Held, true, false, false)))
  {
    hide Run, Confirming, Put;
    MakesFreeLock(s, p, Confirming(p));
    ConfirmRuns(s, p);
  }

  /** The events of a lock_mtab call that makes the lock and then cannot open it. */
  function FailingToOpen(p: nat): seq<(nat, Event)> {
    [(p, OpenTarget(true))] + ([(p, Link(Made))] + ([(p, SetFlag)] + NotOpening(p)))
  }

  function NotOpening(p: nat): seq<(nat, Event)> {
    [(p, OpenLock(OpenError, true))] + ([(p, RemoveTarget)] + [])
  }

  lemma {:induction false} NotOpeningRuns(s: System, p: nat)
    requires p < |s.procs|
    ensures Run(Put(s, p, Some(p), Process(Opening(true), true, true, false)), NotOpening(p))
            == Some(Put(s, p, Some(p), Process(Idle, true, false, false)))
  {
    hide Run;
    PutStep(s, p, Some(p), Process(Opening(true), true, true, false), OpenLock(OpenError, true), [(p, RemoveTarget)] + []);
    PutStep(s, p, Some(p), Process(Failing, true, true, false), RemoveTarget, []);
    RunNone(Put(s, p, Some(p), Process(Idle, true, false, false)));
  }

  /** Such a call fails, with the lock made and still there. */
  lemma {:induction false} FailedCallKeepsLock(s: System, p: nat)
    requires p < |s.procs| && s.procs[p] == FRESH && s.lock == None
    ensures Run(s, FailingToOpen(p)) == Some(Put(s, p, Some(p), Process(Idle, true, false, false)))
  {
    hide Run, NotOpening, Put;
    MakesFreeLock(s, p, NotOpening(p));
    NotOpeningRuns(s, p);
  }

  /**
   * Outside the section a process owns the lock file exactly when its flag is set, as such a call leaves it,
   * and then nobody is in the section.
   */
  lemma {:induction false} IdleOwnsLockIff(n: nat, run: seq<(nat, Event)>, s: System, p: nat, r: nat)
    requires Reached(n, run, s) && p < n && r < n && |s.procs| == n && s.procs[p].at == Idle
    ensures s.lock == Some(p) <==> s.procs[p].created
    ensures s.procs[p].created ==> !InSection(s.procs[r])
  {
    ReachedInv(n, run, s);
    assert Sound(s.lock, p, s.procs[p]) && Sound(s.lock, r, s.procs[r]);
  }

  lemma {:induction false} RunNone(s: System)
    ensures Run(s, []) == Some(s)
  {
  }

  /** Unlocking, or dying of a signal, up to the unlink. */
  lemma {:induction false} Stops(s: System, p: nat, e: Event)
    requires p < |s.procs| && e in {Unlock, Signal}
    requires s.procs[p].created && (s.procs[p].at == Held || (e == Signal && s.procs[p].at == Clearing(false)))
    ensures Run(s, [(p, e), (p, UnlinkLock)]) == Some(Put(s, p, None, s.procs[p].(at := Clearing(e == Signal))))
  {
    var s1 := Step(s, p, e).value;
    var s' := Step(s1, p, UnlinkLock).value;
    RunPair(s, p, e, UnlinkLock);
    hide Run;
    assert s'.procs == s.procs[p := s.procs[p].(at := Clearing(e == Signal))];
  }

  /** The two events by which process `p`, cut in unlock_mtab after its unlink, unlinks again. */
  function UnlinksAgain(p: nat): seq<(nat, Event)> {
    [(p, Signal), (p, UnlinkLock)]
  }

  lemma {:induction false} LetsAnotherIn(s: System, p: nat, q: nat, t: nat)
    requires p < |s.procs| && q < |s.procs| && t < |s.procs| && p != q
    requires s.procs[p].at == Clearing(false) && s.procs[p].created && InSection(s.procs[q]) && s.procs[t] == FRESH
    ensures var r := Run(s, UnlinksAgain(p) + Taking(t));
            && r != None && |r.value.procs| == |s.procs|
            && InSection(r.value.procs[q]) && InSection(r.value.procs[t])
  {
    hide Run, Taking;
    var s' := Put(s, p, None, s.procs[p].(at := Clearing(true)));
    Stops(s, p, Signal);
    TakesFreeLock(s', t);
    RunSplit(s, UnlinksAgain(p), Taking(t));
  }

  /**
   * In any state that can be reached, a process stopped by a signal after its unlink removes the lock of
   * the process then in the section, and any fresh process joins that one.
   */
  lemma {:induction false} CutUnlockBreaksExclusion(n: nat, run: seq<(nat, Event)>, s: System, p: nat, q: nat, t: nat)
    requires Reached(n, run, s) && p < n && q < n && t < n && |s.procs| == n
    requires s.procs[p].at == Clearing(false) && InSection(s.procs[q]) && s.procs[t] == FRESH
    ensures var r := Run(s, UnlinksAgain(p) + Taking(t));
            && q != t && r != None && |r.value.procs| == n
            && InSection(r.value.procs[q]) && InSection(r.value.procs[t])
  {
    ReachedInv(n, run, s);
    assert Sound(s.lock, p, s.procs[p]);
    LetsAnotherIn(s, p, q, t);
  }

  /** With the lock free at that moment, any two fresh processes can come to be in the section together. */
  lemma {:induction false} CutUnlockLetsTwoIn(n: nat, run: seq<(nat, Event)>, s: System, p: nat, q: nat, t: nat)
    requires Reached(n, run, s) && p < n && q < n && t < n && |s.procs| == n
    requires s.procs[p].at == Clearing(false) && s.lock == None
    requires s.procs[q] == FRESH && s.procs[t] == FRESH && q != t
    ensures var r := Run(s, Taking(q) + (UnlinksAgain(p) + Taking(t)));
            && r != None && |r.value.procs| == n && InSection(r.value.procs[q]) && InSection(r.value.procs[t])
  {
    ReachedInv(n, run, s);
    assert Sound(s.lock, p, s.procs[p]);
    var s' := Put(s, q, Some(q), Process(Held, true, false, false));
    hide Run, Taking;
    TakesFreeLock(s, q);
    LetsAnotherIn(s', p, q, t);
    RunSplit(s, Taking(q), UnlinksAgain(p) + Taking(t));
  }

  lemma {:induction false} UncutWithoutSignal(s: System, run: seq<(nat, Event)>)
    requires forall i :: 0 <= i < |run| ==> run[i].1 != Signal
    ensures Uncut(s, run)
    decreases run
  {
    hide Step;
    if run == [] {
    } else if Step(s, run[0].0, run[0].1) != None {
      UncutWithoutSignal(Step(s, run[0].0, run[0].1).value, run[1..]);
    }
  }

  lemma {:induction false} UnlocksToClearing(s: System, p: nat)
    requires p < |s.procs|
    ensures Run(Put(s, p, Some(p), Process(Held, true, false, false)), [(p, Unlock), (p, UnlinkLock)])
            == Some(Put(s, p, None, Process(Clearing(false), true, false, false)))
  {
    var s1 := Put(s, p, Some(p), Process(Held, true, false, false));
    var q := Process(Clearing(false), true, false, false);
    Stops(s1, p, Unlock);
    hide Run;
    assert s1.procs[p := q] == s.procs[p := q];
  }

  lemma {:induction false} NoSignalThere()
    ensures var run := Taking(0) + [(0, Unlock), (0, UnlinkLock)];
            forall i :: 0 <= i < |run| ==> run[i].1 != Signal
  {
    assert forall i :: 0 <= i < |Confirming(0)| ==> Confirming(0)[i].1 != Signal;
    hide Confirming;
    assert forall i :: 0 <= i < |Taking(0)| ==> Taking(0)[i].1 != Signal;
  }

  /** Such a moment comes in every unlock. */
  lemma {:induction false} ClearingReached(n: nat)
    requires n > 0
    ensures var run := Taking(0) + [(0, Unlock), (0, UnlinkLock)];
            Reached(n, run, Put(Initial(n), 0, None, Process(Clearing(false), true, false, false)))
  {
    TakesFreeLock(Initial(n), 0);
    UnlocksToClearing(Initial(n), 0);
    NoSignalThere();
    hide Run, Taking, Put, Step, Uncut;
    UncutWithoutSignal(Initial(n), Taking(0) + [(0, Unlock), (0, UnlinkLock)]);
    RunSplit(Initial(n), Taking(0), [(0, Unlock), (0, UnlinkLock)]);
  }

  // ---------- The calls themselves ----------

  /** One process's own events, in order. */
  function LocalRun(q: Process, events: seq<Event>): Option<Process>
    decreases events
  {
    if events == [] then Some(q)
    else
      match Local(q, events[0])
      case None => None
      case Some(q') => LocalRun(q', events[1..])
  }

  function Own(p: nat, run: seq<(nat, Event)>): seq<Event>
    decreases run
  {
    if run == [] then []
    else if run[0].0 == p then [run[0].1] + Own(p, run[1..])
    else Own(p, run[1..])
  }

  /** In an interleaving each process goes through its own events as if alone. */
  lemma {:induction false} OwnEvents(s: System, p: nat, run: seq<(nat, Event)>)
    requires p < |s.procs| && Run(s, run) != None
    ensures p < |Run(s, run).value.procs|
    ensures LocalRun(s.procs[p], Own(p, run)) == Some(Run(s, run).value.procs[p])
    decreases run
  {
    if run == [] {
    } else {
      var s' := Step(s, run[0].0, run[0].1).value;
      OwnEvents(s', p, run[1..]);
      if run[0].0 == p {
        assert ([run[0].1] + Own(p, run[1..]))[1..] == Own(p, run[1..]);
      }
    }
  }

  lemma {:induction false} LocalRunNext(q: Process, events: seq<Event>, e: Event)
    requires LocalRun(q, events) != None
    ensures LocalRun(q, events + [e]) == Local(LocalRun(q, events).value, e)
    decreases events
  {
    if events == [] {
      assert ([] + [e])[1..] == [];
    } else {
      assert (events + [e])[1..] == events[1..] + [e];
      LocalRunNext(Local(q, events[0]).value, events[1..], e);
    }
  }

  const EX_FILEIO := 16

  /** What the file system and the clock answer in each round of the loop; time runs out after `rounds`. */
  datatype World = World(target: bool, link: nat -> LinkResult, open: nat -> OpenResult, wait: nat -> bool, rounds: nat)

  /** The lock is not had in round `k` and the loop goes round again. */
  predicate GoesRound(w: World, k: nat) {
    && w.link(k) != LinkError && k < w.rounds
    && (w.open(k) == Missing || (w.link(k) == Exists && w.open(k) == Opened && w.wait(k)))
  }

  class Mounter {
    var created: bool
    ghost var self: Process     // where the process is
    ghost var log: seq<Event>   // all it did

    ghost predicate Valid()
      reads this
    {
      LocalRun(FRESH, log) == Some(self) && self.created == created
    }

    constructor ()
      ensures Valid() && log == []
    {
      created, self, log := false, FRESH, [];
    }

    /** The process does `e`, which must be possible where it is. */
    ghost method Do(e: Event)
      requires LocalRun(FRESH, log) == Some(self) && Local(self, e) != None
      modifies this`self, this`log
      ensures Some(self) == Local(old(self), e) && log == old(log) + [e]
      ensures LocalRun(FRESH, log) == Some(self)
    {
      LocalRunNext(FRESH, log, e);
      self, log := Local(self, e).value, log + [e];
    }

    /**
     * Leaves a link target behind only when the lock was its own already. All is decided in the last round:
     * the lock is made when link() succeeds there, and the call fails all the same when open() then does.
     */
    method LockMtab(w: World) returns (code: nat, ghost last: nat)
      requires Valid() && (self.at == Idle || self.at == Held)
      modifies this
      ensures Valid() && code in {0, EX_FILEIO}
      ensures self.at == if code == 0 then Held else Idle
      ensures w.target ==> self.target == old(created)
      ensures old(created) || !w.target ==> created == old(created) && (code == 0 <==> w.target)
      ensures old(created) || !w.target ==> log == old(log) + [OpenTarget(w.target)] + if w.target then [Return] else []
      ensures !old(created) && w.target ==>
                && (forall k: nat :: k < last ==> GoesRound(w, k)) && !GoesRound(w, last)
                && (created <==> w.link(last) == Made)
                && (code == 0 <==> w.link(last) == Made && w.open(last) == Opened)
    {
      hide LocalRun;
      last := 0;
      Do(OpenTarget(w.target));
      if !w.target { return EX_FILEIO, last; }
      var k := 0;
      while !created
        invariant Valid() && self.at == Loop
        invariant old(created) ==> created && self.target && log == old(log) + [OpenTarget(true)]
        invariant !old(created) ==> self.target == !created && forall i: nat :: i < last ==> GoesRound(w, i)
        invariant !old(created) && !created ==> last == k
        invariant !old(created) && created ==> !GoesRound(w, last) && w.link(last) == Made && w.open(last) == Opened
        decreases !created, w.rounds - k
      {
        var failed := Round(w, k);
        if failed { return EX_FILEIO, last; }
        if !created { last := k + 1; }
        k := k + 1;
      }
      Do(Return);
      code := 0;
    }

    /** One round of the loop: the lock was made, or the call fails, or another round is in time. */
    method Round(w: World, k: nat) returns (failed: bool)
      requires Valid() && self.at == Loop && !created && self.target
      modifies this
      ensures Valid()
      ensures failed ==> self.at == Idle && !self.target && (created <==> w.link(k) == Made) && !GoesRound(w, k)
      ensures failed ==> !(w.link(k) == Made && w.open(k) == Opened)
      ensures !failed ==> self.at == Loop && self.target == !created && (!created <==> GoesRound(w, k))
      ensures !failed && created ==> w.link(k) == Made && w.open(k) == Opened
    {
      hide LocalRun;
      var inTime := k < w.rounds;
      var j := w.link(k);
      Do(Link(j));
      if j == Made {
        created := true;
        Do(SetFlag);
      }
      if j == LinkError {
        Do(RemoveTarget);
        return true;
      }
      var fd := w.open(k);
      Do(OpenLock(fd, inTime));
      if fd != Opened {
        if fd == Missing && inTime {
          created := false;
          return false;
        }
        Do(RemoveTarget);
        return true;
      }
      if j == Made {
        Do(RemoveTarget);
      } else {
        var waited := inTime && w.wait(k);
        Do(Wait(waited));
        if !waited {
          Do(RemoveTarget);
          return true;
        }
      }
      return false;
    }

    method UnlockMtab()
      requires Valid() && (self.at == Idle || self.at == Held)
      modifies this
      ensures Valid() && !created && self.at == Idle
      ensures log == old(log) + [Unlock] + if old(created) then [UnlinkLock, ClearFlag] else []
    {
      Do(Unlock);
      if created {
        Do(UnlinkLock);
        created := false;
        Do(ClearFlag);
      }
    }
  }
}

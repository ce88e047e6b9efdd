// The engine that runs the out-of-band functions at each GDB prompt, with a trace of its calls.

module OobEngine {
  import opened Prelude

  /** Calls of the functions of the table, and the start and end of each cycle. */
  datatype Event =
    | Start
    | Cmd(i: nat, sent: bool)
    | Collect(i: nat)
    | Complete(i: nat, keep: bool)
    | End(interrupted: bool)

  /** idx is -1 outside a cycle; the flags are OS_CMD, OS_INTR and OS_QUIT. */
  datatype Engine = Engine(idx: int, cmd: bool, intr: bool, quit: bool)

  const IDLE := Engine(-1, false, false, false)

  /** What can happen to the engine. The functions' answers come with the prompt that asks for them. */
  datatype Action =
    | Prompt(keep: bool, answers: nat -> bool)    // OOB_COMPLETE's answer, then OOB_CMD's of each entry
    | Output(chunk: bool, prompting: bool)        // GDB output; not collected while a prompt is parsed
    | Command(interrupt: bool)                    // the user's command
    | Quit                                        // a quit annotation
    | Query                                       // a query or commands annotation

  /** From entry `i`: ask each for a command until one sends one; stop there, at the end or on an interrupt. */
  function Scan(n: nat, s: Engine, i: nat, answers: nat -> bool): (Engine, seq<Event>)
    requires i <= n
    decreases n - i
  {
    if i == n || s.intr then (s.(idx := -1, cmd := false, quit := false), [End(s.intr)])
    else if answers(i) then (s.(idx := i), [Cmd(i, true)])
    else
      var (s', evs) := Scan(n, s, i + 1, answers);
      (s', [Cmd(i, false)] + evs)
  }

  function Step(n: nat, s: Engine, a: Action): (Engine, seq<Event>)
    requires s.idx < n
  {
    match a
    case Prompt(keep, answers) =>
      if s.idx < 0 then
        var s1 := s.(intr := false);
        if s.quit then (s1.(cmd := false, quit := false), [])
        else var (s2, evs) := Scan(n, s1, 0, answers); (s2, [Start] + evs)
      else if s.quit then (s.(cmd := false, quit := false), [Complete(s.idx, keep)])
      else
        var (s2, evs) := Scan(n, s, if keep then s.idx else s.idx + 1, answers);
        (s2, [Complete(s.idx, keep)] + evs)
    case Output(chunk, prompting) =>
      (s, if s.idx >= 0 && !s.intr && chunk && !prompting then [Collect(s.idx)] else [])
    case Command(interrupt) =>
      if interrupt then (s.(intr := true, cmd := true), [])
      else if s.cmd then (s, [])
      else (s.(idx := -1, cmd := true), [])
    case Quit => (s.(quit := true), [])
    case Query => (s.(cmd := false), [])
  }

  lemma {:induction false} ScanInTable(n: nat, s: Engine, i: nat, answers: nat -> bool)
    requires i <= n
    ensures -1 <= Scan(n, s, i, answers).0.idx < n
    decreases n - i
  {
    if i == n || s.intr || answers(i) {
    } else {
      ScanInTable(n, s, i + 1, answers);
    }
  }

  lemma {:induction false} StepInTable(n: nat, s: Engine, a: Action)
    requires -1 <= s.idx < n
    ensures -1 <= Step(n, s, a).0.idx < n
  {
    if a.Prompt? {
      ScanInTable(n, s.(intr := false), 0, a.answers);
      if s.idx >= 0 { ScanInTable(n, s, if a.keep then s.idx else s.idx + 1, a.answers); }
    }
  }

  /** A whole run from the idle engine. */
  function Run(n: nat, actions: seq<Action>): (r: (Engine, seq<Event>))
    ensures -1 <= r.0.idx < n
  {
    if actions == [] then (IDLE, [])
    else
      var k := |actions| - 1;
      var (s, trace) := Run(n, actions[..k]);
      var (s', evs) := Step(n, s, actions[k]);
      StepInTable(n, s, actions[k]);
      (s', trace + evs)
  }

  /**
   * What loses an outstanding reply: a prompt after a quit annotation, which completes the entry but leaves
   * idx set, and a command accepted because OS_CMD is clear, which resets idx.
   */
  predicate Upsets(s: Engine, a: Action) {
    s.idx >= 0 && ((a.Prompt? && s.quit) || (a == Command(false) && !s.cmd))
  }

  ghost predicate CalmRun(n: nat, actions: seq<Action>) {
    forall k :: 0 <= k < |actions| ==> !Upsets(Run(n, actions[..k]).0, actions[k])
  }

  /**
   * No quit or query annotation comes inside a cycle, and no ordinary command while OS_CMD is clear there.
   * It is clear in a cycle that no command started, as the one of GDB's first prompt.
   */
  predicate Timely(s: Engine, a: Action) {
    match a
    case Quit => s.idx < 0
    case Query => s.idx < 0
    case Command(interrupt) => interrupt || s.idx < 0 || s.cmd
    case _ => true
  }

  ghost predicate TimelyRun(n: nat, actions: seq<Action>) {
    forall k :: 0 <= k < |actions| ==> Timely(Run(n, actions[..k]).0, actions[k])
  }

  // ---------- The protocol the functions see ----------

  /** Outside a cycle; about to ask entry `at`; or waiting for the reply to entry `at`. */
  datatype Mode = Idle | Asking(at: nat) | Waiting(at: nat)

  function Next(n: nat, m: Mode, e: Event): Option<Mode> {
    match (m, e)
    case (Idle, Start) => Some(Asking(0))
    case (Asking(i), Cmd(j, sent)) =>
      if i == j && i < n then Some(if sent then Waiting(i) else Asking(i + 1)) else None
    case (Asking(i), End(interrupted)) => if i == n || interrupted then Some(Idle) else None
    case (Waiting(i), Collect(j)) => if i == j then Some(m) else None
    case (Waiting(i), Complete(j, keep)) => if i == j then Some(Asking(if keep then i else i + 1)) else None
    case _ => None
  }

  /** The mode after a trace, None when the trace breaks the protocol. */
  function Follow(n: nat, m: Mode, trace: seq<Event>): Option<Mode>
    decreases trace
  {
    if trace == [] then Some(m)
    else
      match Next(n, m, trace[0])
      case None => None
      case Some(m') => Follow(n, m', trace[1..])
  }

  function ModeOf(s: Engine): Mode {
    if s.idx < 0 then Idle else Waiting(s.idx)
  }

  lemma {:induction false} FollowAppend(n: nat, m: Mode, a: seq<Event>, b: seq<Event>)
    requires Follow(n, m, a) != None
    ensures Follow(n, m, a + b) == Follow(n, Follow(n, m, a).value, b)
    decreases a
  {
    if a == [] {
      assert a + b == b;
    } else {
      assert (a + b)[1..] == a[1..] + b;
      FollowAppend(n, Next(n, m, a[0]).value, a[1..], b);
    }
  }

  lemma {:induction false} ScanFollows(n: nat, s: Engine, i: nat, answers: nat -> bool)
    requires i <= n
    ensures var (s', evs) := Scan(n, s, i, answers);
            && Follow(n, Asking(i), evs) == Some(ModeOf(s'))
            && (s'.idx < 0 ==> !s'.cmd && !s'.quit)
            && (s'.idx >= 0 ==> s' == s.(idx := s'.idx))
    decreases n - i
  {
    if i == n || s.intr || answers(i) {
    } else {
      ScanFollows(n, s, i + 1, answers);
      var evs := Scan(n, s, i + 1, answers).1;
      assert ([Cmd(i, false)] + evs)[1..] == evs;
    }
  }

  /** One action keeps the protocol and leaves idx telling the mode exactly when it does not upset it. */
  lemma {:induction false} StepFollows(n: nat, s: Engine, a: Action)
    requires -1 <= s.idx < n
    ensures var (s', evs) := Step(n, s, a);
            && (Follow(n, ModeOf(s), evs) == Some(ModeOf(s')) <==> !Upsets(s, a))
            && (a.Prompt? && s'.idx < 0 ==> !s'.cmd && !s'.quit)
  {
    if a.Prompt? {
      if s.idx < 0 {
        ScanFollows(n, s.(intr := false), 0, a.answers);
        var evs := Scan(n, s.(intr := false), 0, a.answers).1;
        assert ([Start] + evs)[1..] == evs;
      } else {
        var i := if a.keep then s.idx else s.idx + 1;
        ScanFollows(n, s, i, a.answers);
        var evs := Scan(n, s, i, a.answers).1;
        assert ([Complete(s.idx, a.keep)] + evs)[1..] == evs;
      }
    }
  }

  /** idx no longer tells the mode, or the trace has broken the protocol. */
  predicate Astray(m: Option<Mode>, s: Engine) {
    m == None || m.value.Asking? || (m.value.Waiting? && s.idx < 0)
  }

  function FollowOn(n: nat, m: Option<Mode>, trace: seq<Event>): Option<Mode> {
    if m == None then None else Follow(n, m.value, trace)
  }

  lemma {:induction false} FirstRefused(n: nat, m: Mode, e: Event, rest: seq<Event>)
    requires Next(n, m, e) == None
    ensures Follow(n, m, [e] + rest) == None
  {
  }

  /** Whatever comes then, it stays so. */
  lemma {:induction false} StaysAstray(n: nat, m: Option<Mode>, s: Engine, a: Action)
    requires -1 <= s.idx < n && Astray(m, s)
    ensures Astray(FollowOn(n, m, Step(n, s, a).1), Step(n, s, a).0)
  {
    hide Scan;
    var evs := Step(n, s, a).1;
    if m != None && evs != [] {
      assert evs == [evs[0]] + evs[1..];
      FirstRefused(n, m.value, evs[0], evs[1..]);
    }
  }

  lemma {:induction false} FollowBoth(n: nat, a: seq<Event>, b: seq<Event>)
    ensures Follow(n, Idle, a + b) == FollowOn(n, Follow(n, Idle, a), b)
  {
    if Follow(n, Idle, a) == None {
      Broken(n, Idle, a, b);
    } else {
      FollowAppend(n, Idle, a, b);
    }
  }

  lemma {:induction false} Broken(n: nat, m: Mode, a: seq<Event>, b: seq<Event>)
    requires Follow(n, m, a) == None
    ensures Follow(n, m, a + b) == None
    decreases a
  {
    assert a != [] && (a + b)[1..] == a[1..] + b;
    if Next(n, m, a[0]) != None {
      Broken(n, Next(n, m, a[0]).value, a[1..], b);
    }
  }

  lemma {:induction false} UpsetLeadsAstray(n: nat, s: Engine, a: Action)
    requires -1 <= s.idx < n && Upsets(s, a)
    ensures Astray(Follow(n, ModeOf(s), Step(n, s, a).1), Step(n, s, a).0)
  {
    if a.Prompt? {
      var e := Complete(s.idx, a.keep);
      assert Step(n, s, a).1 == [e];
      assert [e][1..] == [];
      assert Follow(n, ModeOf(s), [e]) == Follow(n, Next(n, ModeOf(s), e).value, []);
    }
  }

  lemma {:induction false} CalmNext(n: nat, actions: seq<Action>, a: Action)
    ensures CalmRun(n, actions + [a]) <==> CalmRun(n, actions) && !Upsets(Run(n, actions).0, a)
  {
    hide Run, Upsets;
    var all, k := actions + [a], |actions|;
    assert all[..k] == actions && all[k] == a;
    assert forall j :: 0 <= j < k ==> all[..j] == actions[..j] && all[j] == actions[j];
  }

  /**
   * A run keeps the protocol, with a reply outstanding exactly while idx >= 0, if and only if nothing in it
   * upsets the engine; interrupts never do. A run that was upset once does not come right again.
   */
  lemma {:induction false} RunFollows(n: nat, actions: seq<Action>)
    ensures Follow(n, Idle, Run(n, actions).1) == Some(ModeOf(Run(n, actions).0)) <==> CalmRun(n, actions)
    ensures !CalmRun(n, actions) ==> Astray(Follow(n, Idle, Run(n, actions).1), Run(n, actions).0)
    decreases actions
  {
    if actions == [] {
      assert Run(n, []) == (IDLE, []);
    } else {
      var before, a := actions[..|actions| - 1], actions[|actions| - 1];
      assert actions == before + [a];
      var (s, trace) := Run(n, before);
      hide Run, Step, Follow, CalmRun, Upsets;
      RunFollows(n, before);
      CalmNext(n, before, a);
      RunNext(n, before, a);
      FollowBoth(n, trace, Step(n, s, a).1);
      if CalmRun(n, before) {
        StepFollows(n, s, a);
        if Upsets(s, a) { UpsetLeadsAstray(n, s, a); }
      } else {
        StaysAstray(n, Follow(n, Idle, trace), s, a);
      }
    }
  }

  /** A prompt that ends a cycle, or starts none, leaves OS_CMD clear. */
  lemma {:induction false} CommandClearAtEnd(n: nat, actions: seq<Action>)
    requires actions != [] && actions[|actions| - 1].Prompt? && Run(n, actions).0.idx < 0
    ensures !Run(n, actions).0.cmd
  {
    StepFollows(n, Run(n, actions[..|actions| - 1]).0, actions[|actions| - 1]);
  }

  lemma {:induction false} TimelyStep(n: nat, s: Engine, a: Action)
    requires -1 <= s.idx < n && (s.idx >= 0 ==> !s.quit) && Timely(s, a)
    ensures !Upsets(s, a)
    ensures var s' := Step(n, s, a).0; s'.idx >= 0 ==> !s'.quit
  {
    if a.Prompt? {
      ScanFollows(n, s.(intr := false), 0, a.answers);
      if s.idx >= 0 { ScanFollows(n, s, if a.keep then s.idx else s.idx + 1, a.answers); }
    }
  }

  lemma {:induction false} TimelyBefore(n: nat, actions: seq<Action>, a: Action)
    requires TimelyRun(n, actions + [a])
    ensures TimelyRun(n, actions) && Timely(Run(n, actions).0, a)
  {
    hide Run, Timely;
    var all, k := actions + [a], |actions|;
    assert all[..k] == actions && all[k] == a;
    assert forall j :: 0 <= j < k ==> all[..j] == actions[..j] && all[j] == actions[j];
  }

  /** Inside a cycle of a timely run no quit is pending, so the run is calm. */
  lemma {:induction false} TimelyIsCalm(n: nat, actions: seq<Action>)
    requires TimelyRun(n, actions)
    ensures CalmRun(n, actions)
    ensures Run(n, actions).0.idx >= 0 ==> !Run(n, actions).0.quit
    decreases actions
  {
    if actions == [] {
    } else {
      var k := |actions| - 1;
      var a := actions[k];
      hide Run, Step, Timely, Upsets, TimelyRun, CalmRun;
      assert actions[..k] + [a] == actions;
      TimelyBefore(n, actions[..k], a);
      TimelyIsCalm(n, actions[..k]);
      TimelyStep(n, Run(n, actions[..k]).0, a);
      RunNext(n, actions[..k], a);
      CalmNext(n, actions[..k], a);
    }
  }

  lemma {:induction false} RunNext(n: nat, actions: seq<Action>, a: Action)
    ensures var (s, trace) := Run(n, actions);
            Run(n, actions + [a]) == (Step(n, s, a).0, trace + Step(n, s, a).1)
  {
    hide Step;
    assert (actions + [a])[..|actions|] == actions;
  }

  lemma {:induction false} RunTo(n: nat, actions: seq<Action>, a: Action, next: seq<Action>, s: Engine, trace: seq<Event>)
    requires next == actions + [a]
    requires Run(n, actions).0.idx < n && s == Step(n, Run(n, actions).0, a).0
    requires trace == Run(n, actions).1 + Step(n, Run(n, actions).0, a).1
    ensures Run(n, next) == (s, trace)
  {
    RunNext(n, actions, a);
  }

  /** A quit annotation inside a cycle: the same reply is completed at a later prompt too. */
  lemma {:induction false} QuitCompletesTwice(n: nat, answers: nat -> bool, keep: bool)
    requires n > 0 && answers(0)
    ensures var p := Prompt(keep, answers);
            Run(n, [Command(false), p, Quit, p, Quit, p]).1
            == [Start, Cmd(0, true), Complete(0, keep), Complete(0, keep)]
  {
    var p := Prompt(keep, answers);
    var s, q := Engine(0, true, false, false), Engine(0, false, false, true);
    var t := [Start, Cmd(0, true), Complete(0, keep)];
    assert Run(n, []) == (IDLE, []);
    hide Run;
    RunTo(n, [], Command(false), [Command(false)], IDLE.(cmd := true), []);
    RunTo(n, [Command(false)], p, [Command(false), p], s, t[..2]);
    RunTo(n, [Command(false), p], Quit, [Command(false), p, Quit], s.(quit := true), t[..2]);
    RunTo(n, [Command(false), p, Quit], p, [Command(false), p, Quit, p], q.(quit := false), t);
    RunTo(n, [Command(false), p, Quit, p], Quit, [Command(false), p, Quit, p, Quit], q, t);
    RunTo(n, [Command(false), p, Quit, p, Quit], p, [Command(false), p, Quit, p, Quit, p],
          q.(quit := false), t + [Complete(0, keep)]);
  }

  /** A query inside a cycle lets the next command through, and the outstanding reply is never completed. */
  lemma {:induction false} QueryLosesReply(n: nat, answers: nat -> bool, keep: bool)
    requires n > 0 && answers(0)
    ensures var p := Prompt(keep, answers);
            Run(n, [Command(false), p, Query, Command(false), p]).1 == [Start, Cmd(0, true), Start, Cmd(0, true)]
  {
    var p := Prompt(keep, answers);
    var s := Engine(0, true, false, false);
    var t := [Start, Cmd(0, true)];
    assert Run(n, []) == (IDLE, []);
    hide Run;
    RunTo(n, [], Command(false), [Command(false)], IDLE.(cmd := true), []);
    RunTo(n, [Command(false)], p, [Command(false), p], s, t);
    RunTo(n, [Command(false), p], Query, [Command(false), p, Query], s.(cmd := false), t);
    RunTo(n, [Command(false), p, Query], Command(false), [Command(false), p, Query, Command(false)],
          IDLE.(cmd := true), t);
    RunTo(n, [Command(false), p, Query, Command(false)], p, [Command(false), p, Query, Command(false), p], s, t + t);
  }

  lemma {:induction false} FirstPrompt(n: nat, s: Engine, answers: nat -> bool, keep: bool)
    requires n > 0 && answers(0) && s.idx < 0 && !s.quit
    ensures Step(n, s, Prompt(keep, answers)) == (s.(idx := 0, intr := false), [Start, Cmd(0, true)])
  {
    assert [Start] + [Cmd(0, true)] == [Start, Cmd(0, true)];
  }

  /**
   * GDB's first prompt starts a cycle although no command is in progress: the user's first command then
   * drops the outstanding reply.
   */
  lemma {:induction false} StartUpLosesReply(n: nat, answers: nat -> bool, keep: bool)
    requires n > 0 && answers(0)
    ensures var p := Prompt(keep, answers);
            Run(n, [p, Command(false), p]).1 == [Start, Cmd(0, true), Start, Cmd(0, true)]
  {
    var p := Prompt(keep, answers);
    var s := IDLE.(idx := 0);
    var t := [Start, Cmd(0, true)];
    assert Run(n, []) == (IDLE, []);
    FirstPrompt(n, IDLE, answers, keep);
    FirstPrompt(n, IDLE.(cmd := true), answers, keep);
    hide Run, Scan;
    RunTo(n, [], p, [p], s, t);
    RunTo(n, [p], Command(false), [p, Command(false)], IDLE.(cmd := true), t);
    RunTo(n, [p, Command(false)], p, [p, Command(false), p], s.(cmd := true), t + t);
  }

  // ---------- What the protocol means for a trace ----------

  /** The call at `p` answers the command entry `i` sent at `q`: only its output was collected since. */
  ghost predicate Answers(trace: seq<Event>, q: nat, p: nat, i: nat) {
    && q < p < |trace| && trace[q] == Cmd(i, true)
    && forall r :: q < r < p ==> trace[r] == Collect(i)
  }

  lemma {:induction false} WaitingSince(n: nat, trace: seq<Event>, p: nat)
    requires p <= |trace| && Follow(n, Idle, trace[..p]) != None && Follow(n, Idle, trace[..p]).value.Waiting?
    ensures exists q :: 0 <= q < p && trace[q] == Cmd(Follow(n, Idle, trace[..p]).value.at, true)
                        && forall r :: q < r < p ==> trace[r] == Collect(Follow(n, Idle, trace[..p]).value.at)
    decreases p
  {
    if p == 0 {
    } else {
      PrefixFollows(n, trace, p);
      var m := Follow(n, Idle, trace[..p - 1]).value;
      if m.Waiting? {
        WaitingSince(n, trace, p - 1);
      }
    }
  }

  /** A trace that keeps the protocol keeps it up to each point, and its last event is allowed there. */
  lemma {:induction false} PrefixFollows(n: nat, trace: seq<Event>, p: nat)
    requires 0 < p <= |trace| && Follow(n, Idle, trace[..p]) != None
    ensures Follow(n, Idle, trace[..p - 1]) != None
    ensures Next(n, Follow(n, Idle, trace[..p - 1]).value, trace[p - 1]) == Follow(n, Idle, trace[..p])
  {
    FollowLast(n, Idle, trace[..p]);
    assert trace[..p][..p - 1] == trace[..p - 1];
  }

  lemma {:induction false} FollowLast(n: nat, m: Mode, t: seq<Event>)
    requires t != [] && Follow(n, m, t) != None
    ensures Follow(n, m, t[..|t| - 1]) != None
    ensures Next(n, Follow(n, m, t[..|t| - 1]).value, t[|t| - 1]) == Follow(n, m, t)
    decreases t
  {
    if |t| == 1 {
    } else {
      FollowLast(n, Next(n, m, t[0]).value, t[1..]);
      assert t[..|t| - 1][1..] == t[1..][..|t| - 2];
    }
  }

  lemma {:induction false} FollowPrefix(n: nat, m: Mode, t: seq<Event>, p: nat)
    requires p <= |t| && Follow(n, m, t) != None
    ensures Follow(n, m, t[..p]) != None
    decreases |t| - p
  {
    if p < |t| {
      FollowPrefix(n, m, t, p + 1);
      FollowLast(n, m, t[..p + 1]);
      assert t[..p + 1][..p] == t[..p];
    } else {
      assert t[..p] == t;
    }
  }

  /** Output is collected for, and completion told to, the entry whose command is outstanding, and only once. */
  lemma {:induction false} WellBracketed(n: nat, actions: seq<Action>, p: nat)
    requires CalmRun(n, actions)
    requires p < |Run(n, actions).1| && (Run(n, actions).1[p].Collect? || Run(n, actions).1[p].Complete?)
    ensures exists q :: Answers(Run(n, actions).1, q, p, Run(n, actions).1[p].i)
  {
    var trace := Run(n, actions).1;
    RunFollows(n, actions);
    FollowPrefix(n, Idle, trace, p + 1);
    PrefixFollows(n, trace, p + 1);
    WaitingSince(n, trace, p);
    var q :| 0 <= q < p && trace[q] == Cmd(trace[p].i, true) && forall r :: q < r < p ==> trace[r] == Collect(trace[p].i);
    assert Answers(trace, q, p, trace[p].i);
  }

  /** Entries are asked in table order; an entry is asked again only when its completion said so. */
  lemma {:induction false} AskedInOrder(n: nat, actions: seq<Action>, p: nat)
    requires CalmRun(n, actions)
    requires p < |Run(n, actions).1| && Run(n, actions).1[p].Cmd?
    ensures var trace := Run(n, actions).1;
            var j := trace[p].i;
            && j < n && 0 < p
            && (|| (trace[p - 1] == Start && j == 0)
                || (j > 0 && (trace[p - 1] == Cmd(j - 1, false) || trace[p - 1] == Complete(j - 1, false)))
                || trace[p - 1] == Complete(j, true))
  {
    var trace := Run(n, actions).1;
    RunFollows(n, actions);
    FollowPrefix(n, Idle, trace, p + 1);
    PrefixFollows(n, trace, p + 1);
    if p > 0 {
      PrefixFollows(n, trace, p);
    }
  }

  // ---------- Every reply is collected ----------

  ghost predicate Interrupted(acts: seq<Action>) {
    exists k :: 0 <= k < |acts| && acts[k].Command? && acts[k].interrupt
  }

  ghost predicate NoPrompt(acts: seq<Action>) {
    forall k :: 0 <= k < |acts| ==> !acts[k].Prompt?
  }

  /** Chunks of output that come while no prompt is parsed and before any interrupt. */
  ghost function Due(acts: seq<Action>): nat
    decreases acts
  {
    if acts == [] then 0
    else
      var k := |acts| - 1;
      var a := acts[k];
      Due(acts[..k]) + if a.Output? && a.chunk && !a.prompting && !Interrupted(acts[..k]) then 1 else 0
  }

  function Collects(i: nat, m: nat): seq<Event> {
    seq(m, _ => Collect(i))
  }

  lemma {:induction false} InterruptedNext(acts: seq<Action>, a: Action)
    ensures Interrupted(acts + [a]) <==> Interrupted(acts) || a == Command(true)
  {
    var all := acts + [a];
    assert all[|acts|] == a;
    if Interrupted(acts) {
      var k :| 0 <= k < |acts| && acts[k].Command? && acts[k].interrupt;
      assert all[k] == acts[k];
    }
  }

  lemma {:induction false} CollectsNext(i: nat, m: nat)
    ensures Collects(i, m) + [Collect(i)] == Collects(i, m + 1) && Collects(i, 0) == []
  {
  }

  /** One action other than a prompt, while a reply is outstanding. */
  lemma {:induction false} WhileWaiting(n: nat, s: Engine, a: Action)
    requires 0 <= s.idx < n && !a.Prompt? && !Upsets(s, a)
    ensures var (s', evs) := Step(n, s, a);
            && s'.idx == s.idx && (s'.intr <==> s.intr || a == Command(true))
            && evs == if a.Output? && a.chunk && !a.prompting && !s.intr then [Collect(s.idx)] else []
  {
  }

  /** Up to the next prompt exactly the chunks that are due are collected, all for the waiting entry. */
  lemma {:induction false} Meanwhile(n: nat, actions: seq<Action>, rest: seq<Action>)
    requires CalmRun(n, actions + rest) && NoPrompt(rest)
    requires Run(n, actions).0.idx >= 0 && !Run(n, actions).0.intr
    ensures var (s, s') := (Run(n, actions).0, Run(n, actions + rest).0);
            s'.idx == s.idx && (s'.intr <==> Interrupted(rest))
    ensures Run(n, actions + rest).1 == Run(n, actions).1 + Collects(Run(n, actions).0.idx, Due(rest))
    decreases rest
  {
    hide Run, Step, CalmRun, Upsets, Interrupted;
    var i := Run(n, actions).0.idx;
    if rest == [] {
      assert actions + rest == actions;
      NeverInterrupted();
      CollectsNext(i, 0);
      AppendNone(Run(n, actions).1);
    } else {
      var init, a := rest[..|rest| - 1], rest[|rest| - 1];
      assert rest == init + [a] && actions + rest == actions + init + [a];
      CalmNext(n, actions + init, a);
      Meanwhile(n, actions, init);
      WhileWaiting(n, Run(n, actions + init).0, a);
      RunNext(n, actions + init, a);
      InterruptedNext(init, a);
      CollectsNext(i, Due(init));
      Regroup(Run(n, actions).1, Collects(i, Due(init)), Step(n, Run(n, actions + init).0, a).1);
      AppendNone(Run(n, actions + init).1);
    }
  }

  lemma {:induction false} NeverInterrupted()
    ensures !Interrupted([])
  {
  }

  /** Outside a cycle nothing is called until a prompt comes. */
  lemma {:induction false} NothingOutside(n: nat, actions: seq<Action>, rest: seq<Action>)
    requires NoPrompt(rest) && Run(n, actions).0.idx < 0
    ensures Run(n, actions + rest).1 == Run(n, actions).1 && Run(n, actions + rest).0.idx < 0
    decreases rest
  {
    hide Run;
    if rest == [] {
      assert actions + rest == actions;
    } else {
      var init, a := rest[..|rest| - 1], rest[|rest| - 1];
      assert actions + rest == actions + init + [a];
      NothingOutside(n, actions, init);
      RunNext(n, actions + init, a);
    }
  }

  /** What the scan asks: each entry in turn as it answers, up to the first that sends a command. */
  lemma {:induction false} ScanAsks(n: nat, s: Engine, i: nat, answers: nat -> bool)
    requires i <= n
    ensures var (s', evs) := Scan(n, s, i, answers);
            && evs != []
            && (s'.idx >= 0 ==> !s.intr && i <= s'.idx && answers(s'.idx) && evs[|evs| - 1] == Cmd(s'.idx, true))
            && (s'.idx < 0 ==> evs[|evs| - 1] == End(s.intr) && (s.intr ==> evs == [End(true)]))
            && (!s.intr ==> forall j :: i <= j < (if s'.idx < 0 then n else s'.idx) ==> !answers(j))
    decreases n - i
  {
    if i == n || s.intr || answers(i) {
    } else {
      ScanAsks(n, s, i + 1, answers);
    }
  }

  /**
   * A prompt completes the outstanding entry and asks on from it, or from the one behind it; outside a
   * cycle it asks from the first. The next to wait is the first that answers, none after an interrupt.
   */
  lemma {:induction false} PromptAsks(n: nat, s: Engine, keep: bool, answers: nat -> bool)
    requires -1 <= s.idx < n && !s.quit
    ensures var (s', evs) := Step(n, s, Prompt(keep, answers));
            var first := if s.idx < 0 then 0 else if keep then s.idx else s.idx + 1;
            var intr := s.idx >= 0 && s.intr;
            && |evs| >= 2 && evs[0] == (if s.idx < 0 then Start else Complete(s.idx, keep)) && s'.intr == intr
            && (s'.idx >= 0 ==> !intr && first <= s'.idx && answers(s'.idx) && evs[|evs| - 1] == Cmd(s'.idx, true))
            && (s'.idx < 0 ==> evs[|evs| - 1] == End(intr) && (intr ==> evs == [evs[0], End(true)]))
            && (!intr ==> forall j :: first <= j < (if s'.idx < 0 then n else s'.idx) ==> !answers(j))
  {
    var s1 := if s.idx < 0 then s.(intr := false) else s;
    var first := if s.idx < 0 then 0 else if keep then s.idx else s.idx + 1;
    ScanAsks(n, s1, first, answers);
    ScanKeepsIntr(n, s1, first, answers);
    hide Scan;
  }

  lemma {:induction false} ScanKeepsIntr(n: nat, s: Engine, i: nat, answers: nat -> bool)
    requires i <= n
    ensures Scan(n, s, i, answers).0.intr == s.intr
    decreases n - i
  {
    if i == n || s.intr || answers(i) {
    } else {
      ScanKeepsIntr(n, s, i + 1, answers);
    }
  }

  lemma {:induction false} CalmBefore(n: nat, actions: seq<Action>, k: nat)
    requires CalmRun(n, actions) && k <= |actions|
    ensures CalmRun(n, actions[..k]) && (k < |actions| ==> !Upsets(Run(n, actions[..k]).0, actions[k]))
  {
    hide Run, Upsets;
    assert forall j :: 0 <= j < k ==> actions[..k][..j] == actions[..j] && actions[..k][j] == actions[j];
  }

  /** After the call that sent a command its entry is the one that waits. */
  lemma {:induction false} SentWaits(n: nat, actions: seq<Action>, i: nat)
    requires CalmRun(n, actions)
    requires var t := Run(n, actions).1; t != [] && t[|t| - 1] == Cmd(i, true)
    ensures Run(n, actions).0.idx == i
  {
    RunFollows(n, actions);
    FollowLast(n, Idle, Run(n, actions).1);
    hide Run, CalmRun, Follow;
  }

  /**
   * In a calm run, from the prompt `p` at which entry `i` sent a command to the next prompt `q`, the entry is
   * given exactly the chunks that came in between, outside prompts and before an interrupt; then it is
   * completed, and the cycle ends at once if and only if there was an interrupt or no entry sends a command.
   */
  lemma {:induction false} ReplyCollected(n: nat, actions: seq<Action>, p: nat, q: nat, i: nat)
    requires CalmRun(n, actions) && p < q < |actions|
    requires actions[p].Prompt? && actions[q].Prompt? && NoPrompt(actions[p + 1..q])
    requires var t := Run(n, actions[..p + 1]).1; t != [] && t[|t| - 1] == Cmd(i, true)
    ensures Run(n, actions[..q]).1 == Run(n, actions[..p + 1]).1 + Collects(i, Due(actions[p + 1..q]))
    ensures var (was, t) := (Run(n, actions[..q]).1, Run(n, actions[..q + 1]).1);
            && was < t && t[|was|] == Complete(i, actions[q].keep)
            && (Interrupted(actions[p + 1..q]) ==> t == was + [Complete(i, actions[q].keep), End(true)])
            && (!Interrupted(actions[p + 1..q]) ==> t[|t| - 1] != End(true))
  {
    hide *;
    var rest := actions[p + 1..q];
    Cut(actions, p, q);
    CalmBefore(n, actions, p);
    CalmBefore(n, actions, p + 1);
    CalmBefore(n, actions, q);
    SentWaits(n, actions[..p + 1], i);
    NotInterruptedYet(n, actions[..p], actions[p]);
    Meanwhile(n, actions[..p + 1], rest);
    ThenCompletes(n, actions[..q], actions[q]);
  }

  lemma {:induction false} Cut<T>(s: seq<T>, p: nat, q: nat)
    requires p < q < |s|
    ensures s[..p + 1] + s[p + 1..q] == s[..q] && s[..p] + [s[p]] == s[..p + 1] && s[..q] + [s[q]] == s[..q + 1]
  {
  }

  lemma {:induction false} ThenCompletes(n: nat, actions: seq<Action>, a: Action)
    requires a.Prompt? && Run(n, actions).0.idx >= 0 && !Upsets(Run(n, actions).0, a)
    ensures var (s, was) := Run(n, actions);
            var t := Run(n, actions + [a]).1;
            && was < t && t[|was|] == Complete(s.idx, a.keep)
            && (s.intr ==> t == was + [Complete(s.idx, a.keep), End(true)])
            && (!s.intr ==> t[|t| - 1] != End(true))
  {
    var s := Run(n, actions).0;
    RunNext(n, actions, a);
    PromptAsks(n, s, a.keep, a.answers);
    hide Run, Step;
    assert Prompt(a.keep, a.answers) == a;
  }

  lemma {:induction false} NotInterruptedYet(n: nat, actions: seq<Action>, a: Action)
    requires a.Prompt? && !Upsets(Run(n, actions).0, a) && Run(n, actions + [a]).0.idx >= 0
    ensures !Run(n, actions + [a]).0.intr
  {
    RunNext(n, actions, a);
    var s := Run(n, actions).0;
    hide Run;
    if !s.quit { PromptAsks(n, s, a.keep, a.answers); }
  }

  lemma {:induction false} RunTwo(n: nat, actions: seq<Action>, a: Action, b: Action)
    ensures Run(n, actions).0.idx < n && Step(n, Run(n, actions).0, a).0.idx < n
    ensures var (s, trace) := Run(n, actions);
            var (s1, evs1) := Step(n, s, a);
            var (s2, evs2) := Step(n, s1, b);
            Run(n, actions + [a, b]) == (s2, trace + evs1 + evs2)
  {
    hide Run, Step;
    RunNext(n, actions, a);
    RunNext(n, actions + [a], b);
    assert actions + [a] + [b] == actions + [a, b];
  }

  /** After a quit annotation outside a cycle the next prompt starts none, and both are forgotten. */
  lemma {:induction false} QuitSkipsPrompt(n: nat, actions: seq<Action>, keep: bool, answers: nat -> bool)
    requires Run(n, actions).0.idx < 0
    ensures Run(n, actions + [Quit, Prompt(keep, answers)]) == (IDLE, Run(n, actions).1)
  {
    RunTwo(n, actions, Quit, Prompt(keep, answers));
    hide Run;
    AppendNone(Run(n, actions).1);
  }

  /** After a query annotation the next command is accepted, whatever is outstanding, and ends the cycle. */
  lemma {:induction false} QueryLetsCommandIn(n: nat, actions: seq<Action>)
    ensures Run(n, actions + [Query, Command(false)])
            == (Run(n, actions).0.(idx := -1, cmd := true), Run(n, actions).1)
  {
    RunTwo(n, actions, Query, Command(false));
    hide Run;
    AppendNone(Run(n, actions).1);
  }

  /** A command is in progress until a prompt or a query comes: no other one is accepted. */
  lemma {:induction false} BusyUntilPrompt(n: nat, actions: seq<Action>, interrupt: bool, rest: seq<Action>)
    requires NoPrompt(rest) && Query !in rest
    ensures Run(n, actions + [Command(interrupt)] + rest).0.cmd
    decreases rest
  {
    hide Run;
    if rest == [] {
      RunNext(n, actions, Command(interrupt));
      AppendNone(actions + [Command(interrupt)]);
    } else {
      var init, a := rest[..|rest| - 1], rest[|rest| - 1];
      assert actions + [Command(interrupt)] + rest == actions + [Command(interrupt)] + init + [a];
      BusyUntilPrompt(n, actions, interrupt, init);
      RunNext(n, actions + [Command(interrupt)] + init, a);
    }
  }

  // ---------- The engine itself ----------

  /** The chunks collected since the last command was sent. */
  function Collected(trace: seq<Event>): nat {
    if trace == [] then 0
    else
      match trace[|trace| - 1]
      case Cmd(_, sent) => if sent then 0 else Collected(trace[..|trace| - 1])
      case Collect(_) => Collected(trace[..|trace| - 1]) + 1
      case _ => Collected(trace[..|trace| - 1])
  }

  lemma {:induction false} CollectedNext(trace: seq<Event>, e: Event)
    ensures Collected(trace + [e]) == match e
                                      case Cmd(_, sent) => if sent then 0 else Collected(trace)
                                      case Collect(_) => Collected(trace) + 1
                                      case _ => Collected(trace)
  {
    assert (trace + [e])[..|trace|] == trace;
  }

  /** Where the scan goes does not depend on where idx was. */
  lemma {:induction false} ScanFromAnywhere(n: nat, s: Engine, idx: int, i: nat, answers: nat -> bool)
    requires i <= n
    ensures Scan(n, s.(idx := idx), i, answers) == Scan(n, s, i, answers)
    decreases n - i
  {
    if i == n || s.intr || answers(i) {
    } else {
      ScanFromAnywhere(n, s, idx, i + 1, answers);
    }
  }

  /** One round of the scan's loop, after the trace so far. */
  lemma {:induction false} ScanAt(n: nat, s: Engine, i: nat, answers: nat -> bool, trace: seq<Event>)
    requires i <= n
    ensures var (s', evs) := Scan(n, s, i, answers);
            if i == n || s.intr then
              s' == s.(idx := -1, cmd := false, quit := false) && trace + evs == trace + [End(s.intr)]
            else if answers(i) then s' == s.(idx := i) && trace + evs == trace + [Cmd(i, true)]
            else s' == Scan(n, s, i + 1, answers).0
                 && trace + evs == trace + [Cmd(i, false)] + Scan(n, s, i + 1, answers).1
  {
    if i < n && !s.intr && !answers(i) { Regroup(trace, [Cmd(i, false)], Scan(n, s, i + 1, answers).1); }
  }

  class Oob {
    const n: nat          // entries in the function table
    var idx: int
    var cnt: nat
    var cmd: bool
    var intr: bool
    var quit: bool
    ghost var trace: seq<Event>

    ghost predicate Valid()
      reads this
    {
      -1 <= idx < n && cnt == Collected(trace)
    }

    ghost function State(): Engine
      reads this
    {
      Engine(idx, cmd, intr, quit)
    }

    constructor (entries: nat)
      ensures Valid() && n == entries && State() == IDLE && trace == []
    {
      n, idx, cnt, cmd, intr, quit, trace := entries, -1, 0, false, false, false, [];
    }

    ghost method Note(e: Event)
      modifies this`trace
      ensures trace == old(trace) + [e]
      ensures Collected(trace) == match e
                                  case Cmd(_, sent) => if sent then 0 else Collected(old(trace))
                                  case Collect(_) => Collected(old(trace)) + 1
                                  case _ => Collected(old(trace))
    {
      CollectedNext(trace, e);
      trace := trace + [e];
    }

    /** The user's command, accepted one at a time; an interrupt always is. */
    method DoCmd(interrupt: bool)
      requires Valid()
      modifies this
      ensures Valid() && State() == Step(n, old(State()), Command(interrupt)).0 && trace == old(trace)
    {
      if interrupt {
        intr := true;
      } else if cmd {
        return;
      } else {
        idx := -1;
      }
      cmd := true;
    }

    method Annotation(quitting: bool)
      requires Valid()
      modifies this`cmd, this`quit
      ensures Valid() && State() == Step(n, old(State()), if quitting then Quit else Query).0
    {
      if quitting { quit := true; } else { cmd := false; }
    }

    method Receive(chunk: bool, prompting: bool)
      requires Valid()
      modifies this
      ensures Valid()
      ensures State() == Step(n, old(State()), Output(chunk, prompting)).0
      ensures trace == old(trace) + Step(n, old(State()), Output(chunk, prompting)).1
    {
      if idx >= 0 && !intr && chunk && !prompting {
        cnt := cnt + 1;
        Note(Collect(idx));
      }
    }

    /** Complete the entry whose reply ended, then ask the entries in turn until one sends a command. */
    method Send(keep: bool, answers: nat -> bool)
      requires Valid()
      modifies this
      ensures Valid()
      ensures State() == Step(n, old(State()), Prompt(keep, answers)).0
      ensures trace == old(trace) + Step(n, old(State()), Prompt(keep, answers)).1
    {
      hide Collected, Scan;
      ghost var before := trace;
      if idx == -1 {
        intr := false;
        if quit {
          cmd, quit := false, false;
          return;
        }
        Note(Start);
        idx := 0;
      } else {
        Note(Complete(idx, keep));
        if quit {
          cmd, quit := false, false;
          return;
        }
        if !keep { idx := idx + 1; }
      }
      ghost var evs := Scan(n, State(), idx, answers).1;
      ScanFromAnywhere(n, State(), old(idx), idx, answers);
      Regroup(before, [if old(idx) == -1 then Start else Complete(old(idx), keep)], evs);
      Ask(answers);
    }

    method Ask(answers: nat -> bool)
      requires 0 <= idx <= n && cnt == Collected(trace)
      modifies this
      ensures Valid()
      ensures State() == Scan(n, old(State()), old(idx), answers).0
      ensures trace == old(trace) + Scan(n, old(State()), old(idx), answers).1
    {
      hide Collected, Scan;
      ghost var s := State();
      ghost var (after, evs) := Scan(n, s, idx, answers);
      ghost var whole := trace + evs;
      while idx < n && !intr
        invariant 0 <= idx <= n && cnt == Collected(trace) && State() == s.(idx := idx)
        invariant after == Scan(n, s, idx, answers).0
        invariant whole == trace + Scan(n, s, idx, answers).1
        decreases n - idx
      {
        ScanAt(n, s, idx, answers, trace);
        var sent := answers(idx);
        Note(Cmd(idx, sent));
        if sent {
          cnt := 0;
          return;
        }
        idx := idx + 1;
      }
      ScanAt(n, s, idx, answers, trace);
      Note(End(intr));
      idx := -1;
      cmd, quit := false, false;
    }
  }
}

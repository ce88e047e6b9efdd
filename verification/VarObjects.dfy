// The variable-object machine: one GDB command at a time, walking a list that shrinks under it.

module VarObjects {
  import opened Prelude
  import opened VarTalk

  class VarObj {
    var name: Option<string>
    var children: bool
    var format: Option<string>
    var error: bool
    var next: VarObj?

    function Fields(): Item
      reads `name, `children, `format
    {
      Item(name, children, format)
    }
  }

  ghost predicate Distinct(ns: seq<VarObj>) {
    forall i, j :: 0 <= i < j < |ns| ==> ns[i] != ns[j]
  }

  ghost predicate Within(ns: seq<VarObj>, repr: set<VarObj>) {
    forall i :: 0 <= i < |ns| ==> ns[i] in repr
  }

  /** The chain from `first` is `ns`. */
  ghost predicate Linked(first: VarObj?, ns: seq<VarObj>)
    reads ns`next
  {
    && (ns == [] ==> first == null)
    && (ns != [] ==> first == ns[0] && ns[|ns| - 1].next == null)
    && forall i {:trigger ns[i].next} :: 0 <= i < |ns| - 1 ==> ns[i].next == ns[i + 1]
  }

  lemma {:induction false} Unlinked(first: VarObj?, ns: seq<VarObj>, k: nat, repr: set<VarObj>)
    requires Distinct(ns) && k < |ns| && Within(ns, repr)
    requires if k == 0 then first == ns[0].next else first == ns[0] && ns[k - 1].next == ns[k].next
    requires k == |ns| - 1 || ns[|ns| - 1].next == null
    requires k == |ns| - 1 ==> ns[k].next == null
    requires forall i {:trigger ns[i].next} :: 0 <= i < |ns| - 1 && i != k - 1 ==> ns[i].next == ns[i + 1]
    ensures var ns' := Without(ns, k); Distinct(ns') && Linked(first, ns') && Within(ns', repr)
  {
  }

  lemma {:induction false} ReadyFirst(named: bool)
    ensures Ready([], INIT, named)
  {
  }

  lemma {:induction false} NotAmong(o: VarObj, ns: seq<VarObj>, repr: set<VarObj>)
    requires Within(ns, repr) && o !in repr
    ensures o !in ns
  {
  }

  lemma {:induction false} NothingDone(ns: seq<VarObj>)
    ensures Objects([]) + ns[0..] == ns && AllLegal([])
  {
  }

  lemma {:induction false} HeadOf(first: VarObj?, ns: seq<VarObj>)
    requires Linked(first, ns)
    ensures first == if ns == [] then null else ns[0]
  {
  }

  lemma {:induction false} Pushed(o: VarObj, ns: seq<VarObj>, repr: set<VarObj>)
    requires Distinct(ns) && Linked(o.next, ns) && Within(ns, repr) && o !in ns
    ensures Distinct([o] + ns) && Linked(o, [o] + ns) && Within([o] + ns, repr + {o})
  {
  }

  // ---------- The commands one object may see ----------

  ghost predicate Started(log: seq<Cmd>) {
    log == [CREATE] || log == [CREATE, FORMAT] || log == [UPDATE] || log == [CHILDREN, UPDATE]
  }

  /** Before a command: what was sent for the object, when `next` is the stage it is at. */
  ghost predicate Ready(log: seq<Cmd>, next: Cmd, named: bool) {
    match next
    case INIT => log == []
    case FORMAT => named && log == [CREATE]
    case UPDATE => named && log == [CHILDREN]
    case PRINT => named && Started(log)
    case EVALUATE => named && |log| > 0 && Started(log[..|log| - 1]) && log[|log| - 1] == PRINT
    case _ => false
  }

  /** After a command: `cmd` was sent last, and `next` is the stage that follows a good answer. */
  ghost predicate Waiting(log: seq<Cmd>, cmd: Cmd, next: Cmd, named: bool) {
    match cmd
    case CREATE => !named && log == [CREATE] && (next == FORMAT || next == PRINT)
    case DELETE => named && log == [DELETE] && next == INIT
    case CHILDREN => named && log == [CHILDREN] && next == UPDATE
    case FORMAT => named && log == [CREATE, FORMAT] && next == PRINT
    case UPDATE => named && (log == [UPDATE] || log == [CHILDREN, UPDATE]) && next == PRINT
    case PRINT => named && |log| > 0 && Started(log[..|log| - 1]) && log[|log| - 1] == PRINT && next == PRINT
    case EVALUATE =>
      && named && |log| > 1 && Started(log[..|log| - 2]) && log[|log| - 2] == PRINT && log[|log| - 1] == EVALUATE
      && next == EVALUATE
    case INIT => false
  }

  /** All the commands an object saw in a pass. */
  ghost predicate Legal(log: seq<Cmd>) {
    || log == [] || log == [DELETE] || Started(log)
    || (|log| > 0 && Started(log[..|log| - 1]) && log[|log| - 1] == PRINT)
    || (|log| > 1 && Started(log[..|log| - 2]) && log[|log| - 2] == PRINT && log[|log| - 1] == EVALUATE)
  }

  lemma {:induction false} AtMostFour(log: seq<Cmd>)
    requires Legal(log)
    ensures |log| <= 4
  {
  }

  /** What was sent so far is legal, and a good answer makes the object ready for the next stage. */
  lemma {:induction false} Answered(log: seq<Cmd>, cmd: Cmd, next: Cmd, named: bool)
    requires Waiting(log, cmd, next, named)
    ensures cmd != INIT && |log| <= 4 && (cmd != CHILDREN ==> Legal(log))
    ensures cmd == CHILDREN || cmd == FORMAT || cmd == UPDATE ==> Ready(log, next, named)
    ensures cmd == PRINT ==> Ready(log, EVALUATE, named)
  {
  }

  /** An object dealt with: its fields when its turn came, and the commands sent for it. */
  datatype Done = Done(obj: VarObj, item: Item, log: seq<Cmd>)

  ghost predicate AllLegal(done: seq<Done>) {
    forall i :: 0 <= i < |done| ==> Legal(done[i].log)
  }

  ghost function Objects(done: seq<Done>): seq<VarObj> {
    if done == [] then [] else Objects(done[..|done| - 1]) + [done[|done| - 1].obj]
  }

  ghost function Sent(done: seq<Done>): nat {
    if done == [] then 0 else Sent(done[..|done| - 1]) + |done[|done| - 1].log|
  }

  /** Each object was told what its fields, the window and the answers call for, from its turn on. */
  ghost predicate Told(done: seq<Done>, items: seq<Item>, w: World) {
    |done| <= |items|
    && forall j :: 0 <= j < |done| ==>
         done[j].item == items[j] && done[j].log == Talk(items[j], w, Sent(done[..j]))
  }

  /** The objects that did not leave, in order, and their fields after their turn. */
  ghost function Staying(done: seq<Done>, w: World): seq<VarObj>
    decreases done
  {
    if done == [] then []
    else
      var d, before := done[|done| - 1], done[..|done| - 1];
      Staying(before, w) + if Goes(d.item, w, Sent(before)) then [] else [d.obj]
  }

  ghost function StayingItems(done: seq<Done>, w: World): seq<Item>
    decreases done
  {
    if done == [] then []
    else
      var d, before := done[|done| - 1], done[..|done| - 1];
      StayingItems(before, w) + if Goes(d.item, w, Sent(before)) then [] else [Final(d.item, w, Sent(before))]
  }

  lemma {:induction false} ToldNext(done: seq<Done>, items: seq<Item>, w: World, d: Done)
    requires Told(done, items, w) && |done| < |items|
    requires d.item == items[|done|] && d.log == Talk(d.item, w, Sent(done))
    ensures Told(done + [d], items, w)
  {
    hide Sent, Talk;
    var all := done + [d];
    assert all[..|done|] == done && forall j :: 0 <= j < |done| ==> all[..j] == done[..j];
  }

  lemma {:induction false} StayingNext(done: seq<Done>, w: World, d: Done)
    ensures Staying(done + [d], w) == Staying(done, w) + if Goes(d.item, w, Sent(done)) then [] else [d.obj]
    ensures StayingItems(done + [d], w)
            == StayingItems(done, w) + if Goes(d.item, w, Sent(done)) then [] else [Final(d.item, w, Sent(done))]
    ensures Sent(done + [d]) == Sent(done) + |d.log|
  {
    hide Goes, Final;
    assert (done + [d])[..|done|] == done;
  }

  lemma {:induction false} StayingAligned(done: seq<Done>, w: World)
    ensures |Staying(done, w)| == |StayingItems(done, w)|
    decreases done
  {
    if done == [] {
    } else {
      StayingAligned(done[..|done| - 1], w);
    }
  }

  /** What was dealt with, what is left of it in front of place `pos` of the list, and what is to come. */
  ghost predicate Walked(done: seq<Done>, items: seq<Item>, nodes: seq<VarObj>, shown: seq<Item>,
                         added: seq<VarObj>, pos: nat, w: World)
  {
    && Told(done, items, w) && |added| <= pos <= |nodes| == |shown| && |done| + |nodes| - pos == |items|
    && nodes[..pos] == added + Staying(done, w) && shown[|added|..pos] == StayingItems(done, w)
  }

  lemma {:induction false} WalkedKept(done: seq<Done>, items: seq<Item>, nodes: seq<VarObj>, shown: seq<Item>,
                                      added: seq<VarObj>, pos: nat, w: World, d: Done)
    requires Walked(done, items, nodes, shown, added, pos, w) && pos < |nodes|
    requires shown[pos + 1..] == items[|done| + 1..] && d.obj == nodes[pos] && d.item == items[|done|]
    requires d.log == Talk(d.item, w, Sent(done)) && !Goes(d.item, w, Sent(done))
    requires shown[pos] == Final(d.item, w, Sent(done))
    ensures Walked(done + [d], items, nodes, shown, added, pos + 1, w)
  {
    hide Told, Staying, StayingItems, Talk, Goes, Final, Sent;
    ToldNext(done, items, w, d);
    StayingNext(done, w, d);
    assert nodes[..pos + 1] == nodes[..pos] + [nodes[pos]];
    assert shown[|added|..pos + 1] == shown[|added|..pos] + [shown[pos]];
    Regroup(added, Staying(done, w), [d.obj]);
  }

  lemma {:induction false} WalkedGone(done: seq<Done>, items: seq<Item>, nodes: seq<VarObj>, shown: seq<Item>,
                                      added: seq<VarObj>, pos: nat, w: World, d: Done)
    requires Walked(done, items, nodes, shown, added, pos, w) && pos < |nodes|
    requires shown[pos + 1..] == items[|done| + 1..] && d.item == items[|done|]
    requires d.log == Talk(d.item, w, Sent(done)) && Goes(d.item, w, Sent(done))
    ensures Walked(done + [d], items, Without(nodes, pos), Without(shown, pos), added, pos, w)
    ensures Without(shown, pos)[pos..] == items[|done| + 1..]
  {
    hide Told, Staying, StayingItems, Talk, Goes, Final, Sent;
    ToldNext(done, items, w, d);
    StayingNext(done, w, d);
    assert Without(nodes, pos)[..pos] == nodes[..pos];
    assert Without(shown, pos)[|added|..pos] == shown[|added|..pos];
    AppendNone(Staying(done, w));
    AppendNone(StayingItems(done, w));
  }

  /** The fields of the nodes. */
  ghost predicate Mirror(ns: seq<VarObj>, vs: seq<Item>)
    reads ns`name, ns`children, ns`format
  {
    |vs| == |ns| && forall k {:trigger ns[k]} {:trigger vs[k]} :: 0 <= k < |ns| ==> ns[k].Fields() == vs[k]
  }

  lemma {:induction false} MirrorLength(ns: seq<VarObj>, vs: seq<Item>)
    requires Mirror(ns, vs)
    ensures |vs| == |ns|
  {
  }

  lemma {:induction false} MirrorWithout(ns: seq<VarObj>, vs: seq<Item>, k: nat)
    requires Mirror(ns, vs) && k < |ns|
    ensures |vs| == |ns| && Mirror(Without(ns, k), Without(vs, k))
  {
  }

  lemma {:induction false} MirrorFirst(o: VarObj, ns: seq<VarObj>, vs: seq<Item>)
    requires Mirror(ns, vs)
    ensures Mirror([o] + ns, [o.Fields()] + vs)
  {
  }

  // ---------- The walk over the list, as a value ----------

  /**
   * The list and the place in it, the command sent last and the stage that follows, the commands sent for the
   * object at hand, and the objects dealt with; `items` are the fields at the start, `shown` those of the list
   * as it is now, and `added` the objects that joined it since, newest first.
   */
  datatype Walk = Walk(nodes: seq<VarObj>, shown: seq<Item>, pos: nat, varcmd: Cmd, varnext: Cmd, log: seq<Cmd>,
                       pending: bool, done: seq<Done>, items: seq<Item>, added: seq<VarObj>)
  {
    ghost function Total(): nat {
      Sent(done) + |log|
    }

    predicate HasObject() {
      pos < |nodes| == |shown| && |done| < |items|
    }
  }

  ghost function Start(s: Walk): Walk {
    Walk(s.nodes, s.shown, 0, s.varcmd, INIT, [], s.pending, [], s.shown, [])
  }

  ghost function Send(s: Walk, cmd: Cmd, next: Cmd): Walk {
    Walk(s.nodes, s.shown, s.pos, cmd, next, s.log + [cmd], true, s.done, s.items, s.added)
  }

  ghost function Stay(s: Walk, next: Cmd): Walk {
    Walk(s.nodes, s.shown, s.pos, s.varcmd, next, s.log, false, s.done, s.items, s.added)
  }

  /** The object at hand is recorded as dealt with. */
  ghost function Settled(s: Walk): seq<Done>
    requires s.HasObject()
  {
    s.done + [Done(s.nodes[s.pos], s.items[|s.done|], s.log)]
  }

  ghost function GoOn(s: Walk): Walk
    requires s.HasObject()
  {
    Walk(s.nodes, s.shown, s.pos + 1, s.varcmd, INIT, [], false, Settled(s), s.items, s.added)
  }

  ghost function TakeOut(s: Walk): Walk
    requires s.HasObject()
  {
    Walk(Without(s.nodes, s.pos), Without(s.shown, s.pos), s.pos, s.varcmd, INIT, [], false, Settled(s), s.items, s.added)
  }

  ghost function GiveName(s: Walk, reply: Reply): Walk
    requires s.HasObject()
  {
    Walk(s.nodes, s.shown[s.pos := Item(reply.name, reply.children, s.shown[s.pos].format)], s.pos, s.varcmd, s.varnext,
         s.log, false, s.done, s.items, s.added)
  }

  ghost function Join(s: Walk, o: VarObj, item: Item): Walk {
    Walk([o] + s.nodes, [item] + s.shown, s.pos + 1, s.varcmd, s.varnext, s.log, s.pending, s.done, s.items,
         [o] + s.added)
  }

  /** The command the code chooses at stage `next` and the stage to follow, None when there is nothing to send. */
  function Choice(o: Item, next: Cmd, varBuf: bool, found: string -> bool): Option<(Cmd, Cmd)> {
    if next == INIT then
      if o.name == None then
        if varBuf then Some((CREATE, if o.format != None then FORMAT else PRINT)) else None
      else if !varBuf || !found(o.name.value) then Some((DELETE, INIT))
      else if o.children then Some((CHILDREN, UPDATE))
      else Some((UPDATE, PRINT))
    else if next == FORMAT && (o.format == None || |o.format.value| != 2) then None
    else Some((next, if next == UPDATE || next == FORMAT then PRINT else next))
  }

  /** One turn of the code's loop for the object at hand. */
  ghost function Turn(s: Walk, varBuf: bool, found: string -> bool): Walk
    requires s.HasObject()
  {
    match Choice(s.shown[s.pos], s.varnext, varBuf, found)
    case Some(c) => Send(s, c.0, c.1)
    case None => if s.varnext == INIT then TakeOut(s) else GoOn(s)
  }

  /** The answer to the command sent last. */
  ghost function Answer(s: Walk, reply: Reply, error: bool): Walk
    requires s.HasObject()
  {
    match s.varcmd
    case CREATE => if reply.name != None then GiveName(s, reply) else TakeOut(s)
    case DELETE => TakeOut(s)
    case UPDATE => if reply.scope == InScope then Stay(s, s.varnext) else GoOn(s)
    case PRINT => if error || reply.error then Stay(s, EVALUATE) else GoOn(s)
    case EVALUATE => GoOn(s)
    case _ => Stay(s, s.varnext)
  }

  // ---------- The walk follows the conversation ----------

  ghost function ToSay(s: Walk, w: World): seq<Cmd>
    requires s.HasObject()
  {
    if !s.pending then Rest(s.varnext, s.items[|s.done|], w, s.Total())
    else if s.Total() == 0 then [] else Left(s.varcmd, s.items[|s.done|], w, s.Total() - 1)
  }

  /** The object still has the fields it had when its turn came. */
  predicate Fresh(s: Walk) {
    if s.pending then s.varcmd == CREATE else s.varnext == INIT
  }

  /** What is known of an object once command `cmd` was sent for it, with stage `next` to follow. */
  predicate Decided(o: Item, w: World, k: nat, cmd: Cmd, next: Cmd) {
    if cmd == CREATE then o.name == None && w.varBuf(k) && next == (if o.format == None then PRINT else FORMAT)
    else
      && (cmd == DELETE <==> Goes(o, w, k))
      && (cmd == CHILDREN || cmd == FORMAT || cmd == UPDATE ==> next == StageAfter(cmd))
  }

  /**
   * Of the object at hand: the fields it has by now, that it was sent what it calls for so far, and that it
   * is known to stay or go once its first command is chosen and, when it is a creation, answered.
   */
  ghost predicate InTalk(s: Walk, w: World)
    requires s.HasObject()
  {
    var o, k := s.items[|s.done|], Sent(s.done);
    && s.shown[s.pos] == (if Fresh(s) then o else Final(o, w, k))
    && Talk(o, w, k) == s.log + ToSay(s, w)
    && (if !s.pending then (s.varnext == INIT ==> s.log == []) && (s.varnext != INIT ==> !Goes(o, w, k))
        else s.log != [] && Decided(o, w, k, s.varcmd, s.varnext) && (s.varcmd == CREATE ==> s.log == [CREATE]))
  }

  predicate IsStage(next: Cmd) {
    next == INIT || next == FORMAT || next == UPDATE || next == PRINT || next == EVALUATE
  }

  function StageAfter(cmd: Cmd): Cmd {
    if cmd == CHILDREN then UPDATE else PRINT
  }

  /** The pass went so far as `w` calls for. */
  ghost predicate Follows(s: Walk, w: World) {
    && Walked(s.done, s.items, s.nodes, s.shown, s.added, s.pos, w)
    && (s.pos < |s.nodes| ==> s.shown[s.pos + 1..] == s.items[|s.done| + 1..] && InTalk(s, w))
  }

  lemma {:induction false} StartFollows(s: Walk, w: World)
    requires |s.nodes| == |s.shown| && !s.pending
    ensures Follows(Start(s), w) && Start(s).Total() == 0
  {
    hide Talk;
    assert s.nodes[..0] == [] && s.shown[0..0] == [];
    if s.nodes != [] { AppendNone(Talk(s.shown[0], w, 0)); }
  }

  lemma {:induction false} JoinFollows(s: Walk, o: VarObj, item: Item, w: World)
    requires Follows(s, w)
    ensures Follows(Join(s, o, item), w)
  {
    hide Talk, Sent, Told, Staying, StayingItems, Rest, Left, Final, Goes;
    var s' := Join(s, o, item);
    assert s'.nodes[..s'.pos] == [o] + s.nodes[..s.pos];
    Regroup([o], s.added, Staying(s.done, w));
    assert s'.shown[|s'.added|..s'.pos] == s.shown[|s.added|..s.pos];
    if s.pos < |s.nodes| {
      assert s'.shown[s'.pos + 1..] == s.shown[s.pos + 1..];
    }
  }

  lemma {:induction false} TurnEnds(s: Walk, w: World)
    requires Follows(s, w) && s.HasObject() && ToSay(s, w) == []
    ensures Walked(s.done, s.items, s.nodes, s.shown, s.added, s.pos, w)
    ensures s.shown[s.pos + 1..] == s.items[|s.done| + 1..] && Talk(s.items[|s.done|], w, Sent(s.done)) == s.log
    ensures !Fresh(s) ==> s.shown[s.pos] == Final(s.items[|s.done|], w, Sent(s.done))
    ensures Settled(s) == s.done + [Done(s.nodes[s.pos], s.items[|s.done|], s.log)]
  {
    AppendNone(s.log);
    hide Walked, Talk, Final, Goes, Sent;
  }

  /** The turn of the object at hand is over. */
  lemma {:induction false} GoOnFollows(s: Walk, w: World)
    requires Follows(s, w) && s.HasObject() && ToSay(s, w) == []
    requires !Goes(s.items[|s.done|], w, Sent(s.done)) && !Fresh(s)
    ensures Follows(GoOn(s), w) && GoOn(s).Total() == s.Total()
  {
    hide Follows, Talk, Goes, Final, Sent, Told, Staying, StayingItems, Walked, ToSay, Fresh, Rest, Left, Without;
    TurnEnds(s, w);
    var d := Done(s.nodes[s.pos], s.items[|s.done|], s.log);
    WalkedKept(s.done, s.items, s.nodes, s.shown, s.added, s.pos, w, d);
    StayingNext(s.done, w, d);
    FreshFollows(GoOn(s), w);
  }

  lemma {:induction false} TakeOutFollows(s: Walk, w: World)
    requires Follows(s, w) && s.HasObject() && ToSay(s, w) == [] && Goes(s.items[|s.done|], w, Sent(s.done))
    ensures Follows(TakeOut(s), w) && TakeOut(s).Total() == s.Total()
  {
    hide Follows, Talk, Goes, Final, Sent, Told, Staying, StayingItems, Walked, ToSay, Fresh, Rest, Left, Without;
    TurnEnds(s, w);
    var d := Done(s.nodes[s.pos], s.items[|s.done|], s.log);
    WalkedGone(s.done, s.items, s.nodes, s.shown, s.added, s.pos, w, d);
    StayingNext(s.done, w, d);
    FreshFollows(TakeOut(s), w);
  }

  lemma {:induction false} FreshFollows(s: Walk, w: World)
    requires Walked(s.done, s.items, s.nodes, s.shown, s.added, s.pos, w)
    requires s.shown[s.pos..] == s.items[|s.done|..] && s.varnext == INIT && s.log == [] && !s.pending
    ensures Follows(s, w)
  {
    hide Talk, Sent, Told, Staying, StayingItems, Goes, Final;
    if s.pos < |s.nodes| {
      AppendNone(Talk(s.items[|s.done|], w, Sent(s.done)));
      assert s.shown[s.pos] == s.shown[s.pos..][0] && s.shown[s.pos + 1..] == s.shown[s.pos..][1..];
      assert s.items[|s.done| + 1..] == s.items[|s.done|..][1..];
    }
  }

  /** What is chosen for the object at hand is what it calls for. */
  lemma {:induction false} TurnFollows(s: Walk, varBuf: bool, found: string -> bool, w: World)
    requires Follows(s, w) && s.HasObject() && !s.pending
    requires IsStage(s.varnext)
    requires varBuf == w.varBuf(s.Total()) && found == w.found(s.Total())
    ensures Follows(Turn(s, varBuf, found), w)
    ensures var s' := Turn(s, varBuf, found); s'.Total() == s.Total() + if s'.pending then 1 else 0
  {
    hide Follows, ToSay, Sent, Settled, Left, Final, Goes, Choice, Decided, Fresh, Walked, Without;
    var o, k := s.items[|s.done|], Sent(s.done);
    var c := Choice(s.shown[s.pos], s.varnext, varBuf, found);
    InTalkAt(s, w);
    AtStage(s, w);
    if s.varnext == INIT {
      FirstChoice(o, varBuf, found, w, k);
      if c != None { SendFollows(s, c.value.0, c.value.1, w); } else { TakeOutFollows(s, w); }
    } else {
      LaterChoice(o, s.varnext, varBuf, found, w, k);
      NotFresh(s);
      if c != None { SendFollows(s, c.value.0, c.value.1, w); } else { GoOnFollows(s, w); }
    }
  }

  lemma {:induction false} InTalkAt(s: Walk, w: World)
    requires Follows(s, w) && s.HasObject()
    ensures InTalk(s, w)
  {
  }

  lemma {:induction false} NotFresh(s: Walk)
    ensures !Fresh(s) <==> if s.pending then s.varcmd != CREATE else s.varnext != INIT
  {
  }

  lemma {:induction false} SendFollows(s: Walk, cmd: Cmd, next: Cmd, w: World)
    requires Follows(s, w) && s.HasObject() && !s.pending
    requires var o, k := s.items[|s.done|], Sent(s.done);
             && ToSay(s, w) == [cmd] + Left(cmd, o, w, s.Total())
             && s.shown[s.pos] == (if cmd == CREATE then o else Final(o, w, k))
             && Decided(o, w, k, cmd, next) && (cmd == CREATE ==> s.log == [])
    ensures Follows(Send(s, cmd, next), w) && Send(s, cmd, next).Total() == s.Total() + 1
  {
    hide Walked, Talk, Rest, Left, Goes, Final, Sent, Decided;
    Regroup(s.log, [cmd], Left(cmd, s.items[|s.done|], w, s.Total()));
    AppendNone([cmd]);
  }

  /** The object at hand before its first command, and at a later stage. */
  lemma {:induction false} AtStage(s: Walk, w: World)
    requires s.HasObject() && InTalk(s, w) && !s.pending && IsStage(s.varnext)
    ensures var o, k := s.items[|s.done|], Sent(s.done);
            if s.varnext == INIT then
              && s.shown[s.pos] == o && s.log == [] && s.Total() == k
              && (if o.name == None && !w.varBuf(k) then ToSay(s, w) == [] && Goes(o, w, k)
                  else ToSay(s, w) == [FirstCmd(o, w, k)] + Left(FirstCmd(o, w, k), o, w, k))
              && (o.name != None ==> Final(o, w, k) == o)
            else
              && s.shown[s.pos] == Final(o, w, k) && !Goes(o, w, k)
              && if s.varnext == FORMAT && (o.format == None || |o.format.value| != 2) then ToSay(s, w) == []
                 else ToSay(s, w) == [s.varnext] + Left(s.varnext, o, w, s.Total())
  {
    hide Left, Talk, Final, Sent, Goes, FirstCmd, Formatting, Updating, Printing;
    var o, k := s.items[|s.done|], Sent(s.done);
    if s.varnext == INIT {
      TalkStarts(o, w, k);
    } else {
      RestStarts(s.varnext, o, w, s.Total());
    }
  }

  /** The code's choice is what the object calls for. */
  lemma {:induction false} FirstChoice(o: Item, varBuf: bool, found: string -> bool, w: World, k: nat)
    requires varBuf == w.varBuf(k) && found == w.found(k)
    ensures var c := Choice(o, INIT, varBuf, found);
            && (c == None <==> o.name == None && !w.varBuf(k))
            && (c != None ==> c.value.0 == FirstCmd(o, w, k) && Decided(o, w, k, c.value.0, c.value.1))
  {
  }

  lemma {:induction false} LaterChoice(o: Item, next: Cmd, varBuf: bool, found: string -> bool, w: World, k: nat)
    requires IsStage(next) && next != INIT && !Goes(o, w, k)
    ensures var c := Choice(Final(o, w, k), next, varBuf, found);
            && (c == None <==> next == FORMAT && (o.format == None || |o.format.value| != 2))
            && (c != None ==> c.value.0 == next && Decided(o, w, k, next, c.value.1))
  {
    hide Goes;
  }

  /** What an answer leads to is what it calls for. */
  lemma {:induction false} AnswerFollows(s: Walk, reply: Reply, error: bool, w: World)
    requires Follows(s, w) && s.HasObject() && s.pending && s.varcmd != INIT && (s.varcmd == PRINT ==> !error)
    requires s.Total() > 0 && reply == w.reply(s.Total() - 1)
    ensures Follows(Answer(s, reply, error), w) && Answer(s, reply, error).Total() == s.Total()
  {
    hide Follows, ToSay, Goes, Fresh, Sent, Settled, Left, Final, Rest, Walked, Talk, InTalk;
    InTalkAt(s, w);
    AnswerSays(s, reply, error, w);
    match s.varcmd
    case CREATE => if reply.name != None { NamedFollows(s, reply, w); } else { TakeOutFollows(s, w); }
    case DELETE => TakeOutFollows(s, w);
    case UPDATE => if reply.scope == InScope { StayFollows(s, s.varnext, w); } else { GoOnFollows(s, w); }
    case PRINT => if reply.error { StayFollows(s, EVALUATE, w); } else { GoOnFollows(s, w); }
    case EVALUATE => GoOnFollows(s, w);
    case _ => StayFollows(s, s.varnext, w);
  }

  lemma {:induction false} AnswerSays(s: Walk, reply: Reply, error: bool, w: World)
    requires s.HasObject() && InTalk(s, w) && s.pending && s.varcmd != INIT
    requires s.Total() > 0 && reply == w.reply(s.Total() - 1)
    ensures var o, k, t := s.items[|s.done|], Sent(s.done), s.Total();
            match s.varcmd
            case CREATE => reply.name == None ==> ToSay(s, w) == [] && Goes(o, w, k)
            case DELETE => ToSay(s, w) == [] && Goes(o, w, k)
            case UPDATE =>
              && !Goes(o, w, k) && s.varnext == PRINT
              && if reply.scope == InScope then ToSay(s, w) == Rest(PRINT, o, w, t) else ToSay(s, w) == []
            case PRINT =>
              !Goes(o, w, k) && if reply.error then ToSay(s, w) == Rest(EVALUATE, o, w, t) else ToSay(s, w) == []
            case EVALUATE => !Goes(o, w, k) && ToSay(s, w) == []
            case _ => !Goes(o, w, k) && (s.varnext == UPDATE || s.varnext == PRINT)
                      && ToSay(s, w) == Rest(s.varnext, o, w, t)
    ensures s.varcmd != CREATE ==> !Fresh(s)
  {
    hide Printing, Formatting, Talk;
  }

  lemma {:induction false} StayFollows(s: Walk, next: Cmd, w: World)
    requires Follows(s, w) && s.HasObject() && s.pending && !Fresh(s) && next != INIT
    requires !Goes(s.items[|s.done|], w, Sent(s.done)) && ToSay(s, w) == Rest(next, s.items[|s.done|], w, s.Total())
    ensures Follows(Stay(s, next), w) && Stay(s, next).Total() == s.Total()
  {
    hide Walked, Talk, Rest, Left, Goes, Final, Sent;
  }

  lemma {:induction false} NamedFollows(s: Walk, reply: Reply, w: World)
    requires Follows(s, w) && s.HasObject() && s.pending && s.varcmd == CREATE && reply.name != None
    requires s.Total() > 0 && reply == w.reply(s.Total() - 1)
    ensures Follows(GiveName(s, reply), w)
  {
    hide Told, Staying, StayingItems, Printing, Formatting, Sent;
    var s' := GiveName(s, reply);
    assert s'.shown[|s.added|..s.pos] == s.shown[|s.added|..s.pos];
    assert s'.shown[s.pos + 1..] == s.shown[s.pos + 1..];
  }

  // ---------- The walk ends ----------

  predicate NotFarther(s: Walk, was: Walk) {
    s == was || |s.nodes| - s.pos < |was.nodes| - was.pos
  }

  /** Fewer objects are left, or one more command was sent for the same one. */
  predicate Closer(s: Walk, was: Walk) {
    |s.nodes| - s.pos < |was.nodes| - was.pos
    || (s.nodes == was.nodes && s.pos == was.pos && |s.log| == |was.log| + 1)
  }

  lemma {:induction false} TurnMoves(s: Walk, varBuf: bool, found: string -> bool)
    requires s.HasObject() && !s.pending
    ensures var s' := Turn(s, varBuf, found);
            && (if s'.pending then s'.nodes == s.nodes && s'.pos == s.pos && |s'.log| == |s.log| + 1
                else |s'.nodes| - s'.pos < |s.nodes| - s.pos)
            && s'.items == s.items && s'.added == s.added
  {
  }

  lemma {:induction false} AnswerMoves(s: Walk, reply: Reply, error: bool)
    requires s.HasObject() && s.pending
    ensures var s' := Answer(s, reply, error);
            && !s'.pending && s'.items == s.items && s'.added == s.added
            && ((s'.nodes == s.nodes && s'.pos == s.pos && s'.log == s.log) || |s'.nodes| - s'.pos < |s.nodes| - s.pos)
  {
  }

  /** What may be sent first, and that an object without more to send saw a legal series of commands. */
  lemma {:induction false} FirstWaits(log: seq<Cmd>, next: Cmd, named: bool)
    requires Ready(log, next, named)
    ensures next == INIT && !named ==> Waiting(log + [CREATE], CREATE, FORMAT, false)
                                       && Waiting(log + [CREATE], CREATE, PRINT, false)
    ensures next == INIT && named ==> Waiting(log + [DELETE], DELETE, INIT, true)
                                      && Waiting(log + [CHILDREN], CHILDREN, UPDATE, true)
    ensures (next == INIT || next == FORMAT ==> Legal(log)) && (next != INIT ==> named)
  {
    if next == INIT { assert log + [CREATE] == [CREATE] && log + [DELETE] == [DELETE]
        && log + [CHILDREN] == [CHILDREN]; }
  }

  /** Before a command the object is at a stage that has one. */
  lemma {:induction false} ReadyStage(log: seq<Cmd>, next: Cmd, named: bool)
    requires Ready(log, next, named)
    ensures IsStage(next)
  {
  }

  class Machine {
    var varlist: VarObj?
    var varitem: VarObj?
    var varcmd: Cmd
    var varnext: Cmd
    ghost var nodes: seq<VarObj>
    ghost var pos: nat              // position of varitem; |nodes| when it is null
    ghost var log: seq<Cmd>         // commands sent for varitem
    ghost var done: seq<Done>       // objects dealt with in this pass
    ghost var start: seq<VarObj>    // the list at the start of the pass
    ghost var pending: bool         // a command was sent and not answered yet
    ghost var items: seq<Item>      // the fields of the objects at the start of the pass
    ghost var shown: seq<Item>      // the fields of the objects of the list
    ghost var added: seq<VarObj>    // the objects that joined the list in this pass
    ghost var repr: set<VarObj>

    ghost function S(): Walk
      reads `nodes, `shown, `pos, `varcmd, `varnext, `log, `pending, `done, `items, `added
    {
      Walk(nodes, shown, pos, varcmd, varnext, log, pending, done, items, added)
    }

    /** varitem is null or a member of the list, and its commands came in order. */
    ghost predicate Valid()
      reads `varlist, `varitem, `varcmd, `varnext, `nodes, `pos, `log, `done, `start, `pending, `repr
      reads `items, `shown, repr`next, repr`name, repr`children, repr`format
    {
      && Within(nodes, repr) && Distinct(nodes) && Linked(varlist, nodes) && Mirror(nodes, shown)
      && pos <= |nodes| && varitem == (if pos < |nodes| then nodes[pos] else null)
      && AllLegal(done) && Objects(done) + nodes[pos..] == start && |items| == |done| + |nodes| - pos
      && (varitem == null ==> !pending && log == [])
      && (varitem != null ==>
            if pending then Waiting(log, varcmd, varnext, varitem.name.Some?)
            else Ready(log, varnext, varitem.name.Some?))
    }

    /** What is known of the object at hand. */
    lemma AtHand()
      requires Valid() && varitem != null
      ensures varitem in repr && S().HasObject() && varitem == nodes[pos] && varitem.Fields() == shown[pos]
      ensures pending ==> Waiting(log, varcmd, varnext, varitem.name.Some?)
      ensures !pending ==> Ready(log, varnext, varitem.name.Some?)
    {
    }

    lemma Inside()
      requires Valid()
      ensures pos <= |nodes| == |shown| && (varitem == null <==> pos == |nodes|)
    {
    }

    lemma Recorded()
      requires Valid()
      ensures AllLegal(done) && start == Objects(done) + nodes[pos..] && |items| == |done| + |nodes| - pos
    {
    }

    lemma LinkBehind()
      requires Valid() && varitem != null
      ensures varitem.next == (if pos + 1 < |nodes| then nodes[pos + 1] else null)
    {
      hide Waiting, Ready, AllLegal, Objects, Distinct, Mirror;
    }

    /** Only an object at hand can be waited for. */
    lemma Pending()
      requires Valid() && pending
      ensures varitem != null
    {
    }

    constructor ()
      ensures Valid() && nodes == [] && repr == {} && !pending
    {
      varlist, varitem, varcmd, varnext := null, null, INIT, INIT;
      nodes, pos, log, done, start, pending, repr := [], 0, [], [], [], false, {};
      items, shown, added := [], [], [];
    }

    /** The object at hand is dealt with and stays in the list: on to the next. */
    method NextObject()
      requires Valid() && varitem != null && Legal(log)
      modifies `varitem, `varnext, `pos, `log, `done, `pending
      ensures Valid() && old(S().HasObject()) && S() == GoOn(old(S()))
    {
      hide AllLegal, Objects, Sent, Legal, Linked, Within, Distinct, Waiting, Ready, Mirror;
      AtHand();
      LinkBehind();
      ghost var d := Done(varitem, items[|done|], log);
      ObjectDone(done, d, nodes, pos);
      pos := pos + 1;
      Advance(varitem.next, d);
    }

    /** Go on with the object at `pos`; the one dealt with is recorded. */
    method Advance(next: VarObj?, ghost d: Done)
      requires Within(nodes, repr) && Distinct(nodes) && Linked(varlist, nodes) && Mirror(nodes, shown)
      requires pos <= |nodes| && next == (if pos < |nodes| then nodes[pos] else null)
      requires AllLegal(done + [d]) && Objects(done + [d]) + nodes[pos..] == start && |items| == |done| + 1 + |nodes| - pos
      modifies `varitem, `varnext, `log, `done, `pending
      ensures Valid() && !pending && varnext == INIT && log == [] && done == old(done) + [d]
    {
      hide Linked, Within, Distinct, AllLegal, Objects, Mirror;
      varitem, varnext := next, INIT;
      done, log, pending := done + [d], [], false;
    }

    /** The object in front of the one at hand, found from the start of the list. */
    method FindLink() returns (prev: VarObj?)
      requires Valid() && varitem != null
      ensures prev == (if pos == 0 then null else nodes[pos - 1])
    {
      var pt := varlist;
      prev := null;
      ghost var k := 0;
      while pt != varitem
        invariant k <= pos && pt == nodes[k] && prev == (if k == 0 then null else nodes[k - 1])
        decreases pos - k
      {
        prev, pt, k := pt, pt.next, k + 1;
      }
    }

    /** Remove the object at hand; the walk goes on with the one behind it. */
    method RemoveObject()
      requires Valid() && varitem != null && Legal(log)
      modifies `varlist, `varitem, `varnext, `nodes, `shown, `log, `done, `pending, repr`next
      ensures Valid() && old(S().HasObject()) && S() == TakeOut(old(S()))
    {
      hide Legal, AllLegal, Objects, Sent, Waiting, Started, Ready, Linked, Within, Distinct, Without, Mirror, Valid;
      AtHand();
      Recorded();
      ghost var d, ns := Done(varitem, items[|done|], log), nodes;
      var next := RemoveItem();
      ObjectRemoved(done, done + [d], d, ns, nodes, pos, start);
      Advance(next, d);
    }

    method RemoveItem() returns (next: VarObj?)
      requires Valid() && varitem != null
      modifies `varlist, `nodes, `shown, repr`next
      ensures Within(nodes, repr) && Distinct(nodes) && Linked(varlist, nodes) && Mirror(nodes, shown)
      ensures nodes == Without(old(nodes), pos) && |old(shown)| == |old(nodes)| && shown == Without(old(shown), pos)
      ensures next == (if pos < |nodes| then nodes[pos] else null)
    {
      hide Waiting, Ready, AllLegal, Objects, Linked, Within, Distinct, Mirror;
      LinkBehind();
      next := varitem.next;
      MirrorWithout(nodes, shown, pos);
      var prev := FindLink();
      UnlinkItem(prev, varitem);
      shown := Without(shown, pos);
    }

    method UnlinkItem(prev: VarObj?, item: VarObj)
      requires Within(nodes, repr) && Distinct(nodes) && Linked(varlist, nodes)
      requires pos < |nodes| && item == nodes[pos] && prev == (if pos == 0 then null else nodes[pos - 1])
      modifies `varlist, `nodes, repr`next
      ensures Within(nodes, repr) && Distinct(nodes) && Linked(varlist, nodes)
      ensures nodes == Without(old(nodes), pos)
    {
      ghost var ns := nodes;
      if prev == null {
        varlist := item.next;
      } else {
        prev.next := item.next;
      }
      nodes := Without(ns, pos);
      Unlinked(varlist, ns, pos, repr);
    }

    /** A new object goes to the head of the list, also in the middle of a pass. */
    method AddObject(o: VarObj)
      requires Valid() && o !in repr
      modifies `varlist, `nodes, `shown, `added, `pos, `repr, o`next
      ensures Valid() && repr == old(repr) + {o} && S() == Join(old(S()), o, o.Fields())
      ensures varitem == old(varitem)
    {
      hide Waiting, Ready, AllLegal, Objects, Linked, Distinct, Mirror, Within;
      NotAmong(o, nodes, repr);
      ghost var ns, k := nodes, pos;
      assert ([o] + ns)[k + 1..] == ns[k..];
      LinkFirst(o);
      MirrorFirst(o, nodes, shown);
      nodes, pos, repr := [o] + ns, k + 1, repr + {o};
      shown, added := [o.Fields()] + shown, [o] + added;
    }

    method LinkFirst(o: VarObj)
      requires Within(nodes, repr) && Distinct(nodes) && Linked(varlist, nodes) && o !in nodes
      modifies `varlist, o`next
      ensures Within([o] + nodes, repr + {o}) && Distinct([o] + nodes) && Linked(varlist, [o] + nodes)
    {
      o.next := varlist;
      varlist := o;
      assert Linked(o.next, nodes);
      Pushed(o, nodes, repr);
    }

    method SendCmd(cmd: Cmd, next: Cmd)
      requires Valid() && varitem != null && !pending
      requires Waiting(log + [cmd], cmd, next, varitem.name.Some?)
      modifies `varcmd, `varnext, `log, `pending
      ensures Valid() && S() == Send(old(S()), cmd, next)
    {
      hide Linked, Within, Distinct, Mirror, AllLegal, Objects;
      varcmd, varnext := cmd, next;
      log, pending := log + [cmd], true;
    }

    /** The command of a stage that always sends one. */
    method SendNamed(obj: VarObj)
      requires Valid() && !pending && obj == varitem && obj.name != None
      modifies obj`error, `varcmd, `varnext, `log, `pending
      ensures Valid() && (varcmd == PRINT ==> !obj.error)
      ensures S() == if old(varnext) == FORMAT then Send(old(S()), FORMAT, PRINT)
                     else if old(varnext) == INIT || old(varnext) == UPDATE then Send(old(S()), UPDATE, PRINT)
                     else if old(varnext) == PRINT then Send(old(S()), PRINT, PRINT)
                     else Send(old(S()), EVALUATE, EVALUATE)
    {
      hide Valid;
      AtHand();
      if varnext == FORMAT {
        SendCmd(FORMAT, PRINT);
      } else if varnext == INIT || varnext == UPDATE {
        SendCmd(UPDATE, PRINT);
      } else if varnext == PRINT {
        obj.error := false;
        SendCmd(PRINT, PRINT);
      } else {
        SendCmd(EVALUATE, EVALUATE);
      }
    }

    /**
     * Send the next command of the object at hand, or go on to the next one when it has none. Without a
     * variables buffer, an object not created yet is removed.
     */
    method ForObject(varBuf: bool, found: string -> bool) returns (cmd: Option<Cmd>)
      requires Valid() && !pending && varitem != null
      modifies this, repr`next, repr`error
      ensures Valid() && repr == old(repr) && start == old(start)
      ensures old(S().HasObject()) && S() == Turn(old(S()), varBuf, found)
      ensures cmd == if pending then Some(varcmd) else None
      ensures cmd == Some(PRINT) ==> varitem != null && !varitem.error
    {
      hide Valid, Without, Settled, Waiting, Ready, Started, Legal;
      AtHand();
      FirstWaits(log, varnext, varitem.name.Some?);
      var obj := varitem;
      if varnext == INIT && obj.name == None {
        if varBuf {
          SendCmd(CREATE, if obj.format != None then FORMAT else PRINT);
          return Some(CREATE);
        }
        RemoveObject();
        return None;
      }
      assert obj.name != None;  // the sanity check of the code never fires
      if varnext == INIT && (!varBuf || !found(obj.name.value)) {
        SendCmd(DELETE, INIT);
        return Some(DELETE);
      }
      if varnext == INIT && obj.children {
        SendCmd(CHILDREN, UPDATE);
        return Some(CHILDREN);
      }
      if varnext == FORMAT && (obj.format == None || |obj.format.value| != 2) {
        NextObject();
        return None;
      }
      SendNamed(obj);
      cmd := Some(varcmd);
    }

    /** Choose the next command: objects without anything to send are passed over; None at the end of the list. */
    method Choose(varBuf: bool, found: string -> bool, ghost w: World) returns (cmd: Option<Cmd>)
      requires Valid() && !pending && Follows(S(), w)
      requires varBuf == w.varBuf(S().Total()) && found == w.found(S().Total())
      modifies this, repr`next, repr`error
      ensures Valid() && Follows(S(), w) && repr == old(repr) && start == old(start)
      ensures items == old(items) && added == old(added)
      ensures cmd == None <==> varitem == null
      ensures cmd != None ==> pending && varcmd == cmd.value && varcmd != INIT
      ensures cmd == Some(PRINT) ==> !varitem.error
      ensures cmd != None ==> Closer(S(), old(S()))
      ensures S().Total() == old(S().Total()) + (if cmd == None then 0 else 1)
    {
      hide Valid, Follows, Turn, Sent, Waiting, Ready, Legal;
      Inside();
      cmd := None;
      while varitem != null && cmd == None
        invariant Valid() && Follows(S(), w) && pos <= |nodes| && repr == old(repr) && start == old(start)
        invariant items == old(items) && added == old(added)
        invariant cmd == None ==> !pending && S().Total() == old(S().Total()) && NotFarther(S(), old(S()))
        invariant cmd != None ==> varitem != null && pending && varcmd == cmd.value && varcmd != INIT
        invariant cmd != None ==> S().Total() == old(S().Total()) + 1 && Closer(S(), old(S()))
        invariant cmd == Some(PRINT) ==> !varitem.error
        decreases |nodes| - pos, cmd == None
      {
        AtHand();
        ReadyStage(log, varnext, varitem.name.Some?);
        TurnFollows(S(), varBuf, found, w);
        TurnMoves(S(), varBuf, found);
        cmd := ForObject(varBuf, found);
        Inside();
        if pending { Pending(); AtHand(); Answered(log, varcmd, varnext, varitem.name.Some?); }
      }
    }

    /** OOB_CMD: with no object at hand, a pass starts with the first of the list. */
    method OobCmd(varBuf: bool, found: string -> bool, ghost w: World) returns (cmd: Option<Cmd>)
      requires Valid() && !pending
      requires if varitem == null then varBuf == w.varBuf(0) && found == w.found(0)
               else Follows(S(), w) && varBuf == w.varBuf(S().Total()) && found == w.found(S().Total())
      modifies this, repr`next, repr`error
      ensures Valid() && Follows(S(), w) && repr == old(repr)
      ensures start == if old(varitem) == null then old(nodes) else old(start)
      ensures items == if old(varitem) == null then old(shown) else old(items)
      ensures added == if old(varitem) == null then [] else old(added)
      ensures cmd == None <==> varitem == null
      ensures cmd != None ==> pending && varcmd == cmd.value && varcmd != INIT
      ensures cmd == Some(PRINT) ==> !varitem.error
      ensures cmd != None && old(varitem) != null ==> Closer(S(), old(S()))
      ensures S().Total() == (if old(varitem) == null then 0 else old(S().Total())) + (if cmd == None then 0 else 1)
    {
      hide Valid, Follows, Sent;
      Inside();
      if varitem == null {
        StartFollows(S(), w);
        StartPass();
      }
      cmd := Choose(varBuf, found, w);
    }

    /** The first object of the list is at hand, and nothing was sent yet. */
    method StartPass()
      requires Valid() && !pending
      modifies `varitem, `varnext, `pos, `log, `done, `start, `items, `added
      ensures Valid() && pos == 0 && varnext == INIT && log == [] && done == []
      ensures start == nodes && items == shown && added == []
    {
      hide Linked, Within, Distinct, Mirror, Waiting, Ready, AllLegal, Objects, Started;
      MirrorLength(nodes, shown);
      HeadOf(varlist, nodes);
      NothingDone(nodes);
      varitem, varnext := varlist, INIT;
      pos, log, done, start, items, added := 0, [], [], nodes, shown, [];
      if varitem != null { ReadyFirst(varitem.name.Some?); }
    }

    method SetError(error: bool)
      requires Valid() && varitem != null
      modifies varitem`error
      ensures Valid() && varitem.error == error
    {
      varitem.error := error;
    }

    /** The object was created: it has a name, and waits for its next command. */
    method Created(reply: Reply)
      requires Valid() && pending && varcmd == CREATE && reply.name != None
      modifies varitem`name, varitem`children, `shown, `pending
      ensures Valid() && old(S().HasObject()) && S() == GiveName(old(S()), reply)
    {
      hide Linked, AllLegal, Objects;
      AtHand();
      ghost var vs := shown;
      varitem.name, varitem.children := reply.name, reply.children;
      shown := vs[pos := Item(reply.name, reply.children, vs[pos].format)];
      pending := false;
    }

    /**
     * OOB_COMPLETE: the answer to the command. Afterwards the same object waits for its next command,
     * or it was dealt with: removed after a deletion or a failed creation, left in the list otherwise.
     */
    method OobComplete(reply: Reply) returns (more: bool)
      requires Valid() && pending
      modifies `varlist, `varitem, `varnext, `nodes, `shown, `pos, `log, `done, `pending, repr
      ensures Valid() && !pending && more == (varitem != null)
      ensures old(S().HasObject()) && old(varitem) != null && S() == Answer(old(S()), reply, old(varitem.error))
    {
      hide Valid, Waiting, Ready, Started, Legal, Without, Settled;
      Pending();
      AtHand();
      var obj := varitem;
      if reply.error {
        SetError(true);
      }
      Answered(log, varcmd, varnext, obj.name.Some?);
      match varcmd {
        case CREATE =>
          if reply.name != None {
            Created(reply);
          } else {
            RemoveObject();
          }
        case DELETE =>
          RemoveObject();
        case CHILDREN =>
          StayAt(varnext);
        case FORMAT =>
          StayAt(varnext);
        case UPDATE =>
          CompleteUpdate(reply.scope);
        case PRINT =>
          CompletePrint(obj);
        case EVALUATE =>
          NextObject();
      }
      more := varitem != null;
    }

    /** The value was printed, or else GDB is asked to evaluate it. */
    method CompletePrint(obj: VarObj)
      requires Valid() && pending && varcmd == PRINT && obj == varitem && obj in repr
      modifies `varitem, `varnext, `pos, `log, `done, `pending, obj`error
      ensures Valid() && old(S().HasObject())
      ensures S() == if old(obj.error) then Stay(old(S()), EVALUATE) else GoOn(old(S()))
    {
      hide Valid, Waiting, Ready, Started, Legal, Settled;
      AtHand();
      Answered(log, varcmd, varnext, obj.name.Some?);
      if obj.error {
        SetError(false);
        StayAt(EVALUATE);
      } else {
        NextObject();
      }
    }

    method CompleteUpdate(scope: Scope)
      requires Valid() && pending && varcmd == UPDATE
      modifies `varitem, `varnext, `pos, `log, `done, `pending
      ensures Valid() && old(S().HasObject())
      ensures S() == if scope == InScope then Stay(old(S()), old(varnext)) else GoOn(old(S()))
    {
      hide Valid, Waiting, Ready, Started, Legal, Settled;
      Pending();
      AtHand();
      Answered(log, varcmd, varnext, varitem.name.Some?);
      if scope == InScope {
        StayAt(varnext);
      } else {
        NextObject();
      }
    }

    /** The same object waits for its next command. */
    method StayAt(next: Cmd)
      requires Valid() && pending && Ready(log, next, varitem.name.Some?)
      modifies `varnext, `pending
      ensures Valid() && S() == Stay(old(S()), next)
    {
      hide Linked, Within, Distinct, Mirror, AllLegal, Objects;
      varnext, pending := next, false;
    }

    /**
     * One pass over the list, whatever GDB answers and whatever the variables window shows. It ends. Every
     * object of the list was dealt with once, in order; each was sent exactly the commands that its fields,
     * the window and the answers call for, at most four. The list is left with exactly the objects neither
     * deleted nor refused, in order, and the new ones have the names that GDB gave them.
     */
    method Pass(varBuf: nat -> bool, found: nat -> string -> bool, reply: nat -> Reply) returns (sent: nat)
      requires Valid() && varitem == null
      modifies this, repr
      ensures Valid() && varitem == null
      ensures Objects(done) == old(nodes) && Told(done, old(shown), World(varBuf, found, reply)) && |done| == |old(nodes)|
      ensures nodes == Staying(done, World(varBuf, found, reply))
      ensures shown == StayingItems(done, World(varBuf, found, reply))
      ensures AllLegal(done) && sent == Sent(done) <= 4 * |old(nodes)|
    {
      hide Valid, Follows, Sent, AllLegal, Objects, Answer, Told, Staying, StayingItems;
      ghost var w := World(varBuf, found, reply);
      NothingPending();
      sent := 0;
      var cmd := OobCmd(varBuf(0), found(0), w);
      LogIsShort();
      while cmd != None
        invariant Valid() && Follows(S(), w) && repr == old(repr)
        invariant start == old(nodes) && items == old(shown) && added == []
        invariant if cmd == None then varitem == null else InExchange()
        invariant sent + (if cmd != None then 1 else 0) == S().Total()
        decreases |nodes| - pos, 5 - |log|
      {
        cmd := Exchange(reply(sent), varBuf(sent + 1), found(sent + 1), w);
        sent := sent + 1;
      }
      AtTheEnd(w);
      FourForEach(done);
    }

    /** A command was sent for the object at hand, and the error flag is clear when its value is printed. */
    ghost predicate InExchange()
      reads this, repr`error
    {
      && pending && varitem != null && pos < |nodes| && |log| <= 4
      && (varcmd == PRINT ==> varitem in repr && !varitem.error)
    }

    lemma LogIsShort()
      requires Valid()
      ensures pos <= |nodes| && |log| <= 4 && (varitem != null ==> pos < |nodes| && varitem in repr)
    {
      if pending {
        Answered(log, varcmd, varnext, varitem.name.Some?);
      }
    }

    /** The answer to a command, and the next one. */
    method Exchange(reply: Reply, varBuf: bool, found: string -> bool, ghost w: World) returns (cmd: Option<Cmd>)
      requires Valid() && Follows(S(), w) && InExchange()
      requires S().Total() > 0 && reply == w.reply(S().Total() - 1)
      requires varBuf == w.varBuf(S().Total()) && found == w.found(S().Total())
      modifies this, repr
      ensures Valid() && Follows(S(), w) && repr == old(repr)
      ensures start == old(start) && items == old(items) && added == old(added)
      ensures if cmd == None then varitem == null else InExchange()
      ensures S().Total() == old(S().Total()) + (if cmd != None then 1 else 0)
      ensures pos <= |nodes| && |log| <= 4
      ensures Closer(S(), old(S()))
    {
      hide Valid, Follows, Sent, Answer, Waiting, Ready, Legal, Started;
      AtHand();
      Answered(log, varcmd, varnext, varitem.name.Some?);
      AnswerFollows(S(), reply, varitem.error, w);
      AnswerMoves(S(), reply, varitem.error);
      var more := OobComplete(reply);
      Inside();
      cmd := None;
      if more {
        cmd := OobCmd(varBuf, found, w);
      }
      Inside();
      LogIsShort();
    }

    lemma NothingPending()
      requires Valid() && varitem == null
      ensures !pending
    {
    }

    lemma AtTheEnd(w: World)
      requires Valid() && Follows(S(), w) && varitem == null
      ensures Objects(done) == start && AllLegal(done) && Told(done, items, w) && |done| == |items| && log == []
      ensures nodes == added + Staying(done, w) && |added| <= |shown| && shown[|added|..] == StayingItems(done, w)
    {
      hide Told, Staying, StayingItems, Linked, Distinct, Within, AllLegal, Mirror;
      assert nodes[..pos] == nodes && nodes[pos..] == [] && shown[|added|..pos] == shown[|added|..];
      AppendNone(Objects(done));
    }
  }

  lemma {:induction false} FourForEach(done: seq<Done>)
    requires AllLegal(done)
    ensures Sent(done) <= 4 * |done| && |Objects(done)| == |done|
  {
    if done == [] {
    } else {
      FourForEach(done[..|done| - 1]);
      AtMostFour(done[|done| - 1].log);
    }
  }

  lemma {:induction false} ObjectRemoved(done: seq<Done>, done': seq<Done>, d: Done, ns: seq<VarObj>, ns': seq<VarObj>,
                                         pos: nat, start: seq<VarObj>)
    requires AllLegal(done) && Legal(d.log) && pos < |ns| && d.obj == ns[pos]
    requires done' == done + [d] && ns' == Without(ns, pos) && start == Objects(done) + ns[pos..]
    ensures AllLegal(done') && Objects(done') + ns'[pos..] == start
    ensures Sent(done') == Sent(done) + |d.log|
    ensures pos <= |ns'| && (if pos < |ns'| then ns'[pos] else null) == (if pos + 1 < |ns| then ns[pos + 1] else null)
  {
    ObjectDone(done, d, ns, pos);
  }

  lemma {:induction false} ObjectDone(done: seq<Done>, d: Done, ns: seq<VarObj>, pos: nat)
    requires AllLegal(done) && Legal(d.log) && pos < |ns| && d.obj == ns[pos]
    ensures AllLegal(done + [d]) && Objects(done + [d]) + ns[pos + 1..] == Objects(done) + ns[pos..]
    ensures (ns[..pos] + ns[pos + 1..])[pos..] == ns[pos + 1..]
    ensures Sent(done + [d]) == Sent(done) + |d.log|
  {
    assert (done + [d])[..|done|] == done;
  }
}

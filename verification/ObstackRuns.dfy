// Whole runs of an object stack, against a stack of byte strings.

module ObstackRuns {
  import opened Prelude
  import opened ObstackModel
  import opened ObstackAllocator

  /** Blank takes bytes off the object when `n` is negative. */
  datatype Op =
    | Grow(data: seq<byte>)
    | Grow0(data: seq<byte>)
    | Grow1(c: byte)
    | Blank(n: int)
    | MakeRoom(room: nat)
    | Finish
    | Free(k: nat)

  /** What a caller may think of: the strings finished so far, the one being built, and its largest size. */
  datatype Strings = Strings(finished: seq<seq<byte>>, growing: seq<byte>, peak: nat)

  function Grown(s: Strings, data: seq<byte>): Strings {
    s.(growing := s.growing + data, peak := Max(s.peak, |s.growing + data|))
  }

  /** Bytes left as they are come as a Grow; nobody takes off more than there is, or frees what is not there. */
  function Step(s: Strings, op: Op): Strings {
    match op
    case Grow(data) => Grown(s, data)
    case Grow0(data) => Grown(s, data + [0])
    case Grow1(c) => Grown(s, [c])
    case Blank(n) => if -|s.growing| <= n < 0 then s.(growing := s.growing[..|s.growing| + n]) else s
    case MakeRoom(room) => s.(peak := Max(s.peak, |s.growing| + room))
    case Finish => Strings(s.finished + [s.growing], [], 0)
    case Free(k) => if k < |s.finished| then Strings(s.finished[..k], [], 0) else s
  }

  /** The operation with the bytes that were found in memory, when it left them as they were. */
  predicate FilledIn(op: Op, done: Op) {
    if op.Blank? && op.n >= 0 then done.Grow? && |done.data| == op.n else done == op
  }

  function Exec(s: Strings, ops: seq<Op>): Strings
    decreases ops
  {
    if ops == [] then s else Step(Exec(s, ops[..|ops| - 1]), ops[|ops| - 1])
  }

  /** The stack holds these strings, the finished ones at these addresses. */
  ghost predicate Shows(objs: seq<Obj>, growing: seq<byte>, s: Strings, addrs: seq<int>) {
    && growing == s.growing
    && |objs| == |s.finished| == |addrs|
    && forall n :: 0 <= n < |objs| ==> objs[n] == Obj(addrs[n], s.finished[n])
  }

  /** Finished object `n` is object `k` of some chunk `i`. */
  lemma {:induction false} FindObject(live: seq<seq<Obj>>, n: nat) returns (i: nat, k: nat)
    requires n < |Flat(live)|
    ensures i < |live| && k < |live[i]| && live[i][k] == Flat(live)[n]
    ensures |Flat(live[i + 1..])| + k == n
  {
    if n >= |Flat(live[1..])| {
      i, k := 0, n - |Flat(live[1..])|;
    } else {
      i, k := FindObject(live[1..], n);
      assert live[1..][i + 1..] == live[i + 2..];
      i := i + 1;
    }
  }

  /** Every finished object has its bytes where its address says. */
  lemma {:induction false} ObjectsHold(mem: Memory, chunks: seq<Chunk>, live: seq<seq<Obj>>, mask: nat, n: nat)
    requires ChunksValid(mem, chunks, live, mask) && n < |Flat(live)|
    ensures Holds(mem, Flat(live)[n].addr, Flat(live)[n].data)
  {
    var i, k := FindObject(live, n);
    assert Placed(mem, chunks[i], live[i][k], mask);
  }

  lemma {:induction false} InItsChunk(mem: Memory, chunks: seq<Chunk>, live: seq<seq<Obj>>, mask: nat, i: nat, k: nat)
    requires ChunksValid(mem, chunks, live, mask) && i < |live| && k < |live[i]|
    ensures chunks[i].addr <= live[i][k].addr && live[i][k].End() <= chunks[i].limit
  {
    hide Align, Holds, Apart;
    assert Placed(mem, chunks[i], live[i][k], mask);
    AlignProperties(chunks[i].addr + HEADER, mask);
  }

  /** Two finished objects share no byte. */
  lemma {:induction false} ObjectsApart(mem: Memory, chunks: seq<Chunk>, live: seq<seq<Obj>>, mask: nat, m: nat, n: nat)
    requires ChunksValid(mem, chunks, live, mask) && m < n < |Flat(live)|
    ensures var o, p := Flat(live)[m], Flat(live)[n]; o.End() <= p.addr || p.End() <= o.addr
  {
    var i, k := FindObject(live, m);
    var j, l := FindObject(live, n);
    InItsChunk(mem, chunks, live, mask, i, k);
    InItsChunk(mem, chunks, live, mask, j, l);
    if i == j {
      assert ChunkValid(mem, chunks[i], live[i], mask);
    } else if i < j {
      assert Apart(chunks[i], chunks[j]);
    } else {
      assert Apart(chunks[j], chunks[i]);
    }
  }

  /** Where no bytes are taken off and no room is made, the largest size is the size. */
  lemma {:induction false} PeakIsSize(ops: seq<Op>)
    requires forall k :: 0 <= k < |ops| ==> !ops[k].Blank? && !ops[k].MakeRoom?
    ensures Exec(NO_STRINGS, ops).peak == |Exec(NO_STRINGS, ops).growing|
    decreases ops
  {
    if ops == [] {
    } else {
      PeakIsSize(ops[..|ops| - 1]);
    }
  }

  /** What malloc answers at each step, apart from every chunk not yet released. */
  ghost predicate Sane(malloc: (nat, seq<Chunk>, int) -> Grant) {
    forall n: nat, chunks, size :: Grants(chunks, malloc(n, chunks, size), size)
  }

  ghost predicate Follows(h: Obstack, s: Strings, addrs: seq<int>)
    reads h
  {
    h.Valid() && h.Amortised() && h.peak == s.peak && Shows(Flat(h.live), h.growing, s, addrs)
  }

  /** What malloc answers when room for `n` more bytes is asked for. */
  method Ask(h: Obstack, n: nat, malloc: (nat, seq<Chunk>, int) -> Grant, step: nat) returns (g: Grant)
    requires Sane(malloc) && h.Valid()
    ensures h.Granted(g, n)
  {
    hide ChunksValid, Exact, Holds, Align, NewSize;
    g := malloc(step, h.chunks, NewSize(h.nextFree - h.objectBase, n, h.mask, h.chunkSize));
  }

  /** Carry out one operation; `addrs` are the addresses the caller was given so far. */
  method Do(h: Obstack, op: Op, malloc: (nat, seq<Chunk>, int) -> Grant, step: nat, addrs: seq<int>, ghost s: Strings)
    returns (addrs': seq<int>, ghost done: Op)
    requires Sane(malloc) && Follows(h, s, addrs)
    modifies h
    ensures Follows(h, Step(s, done), addrs') && FilledIn(op, done)
    ensures addrs <= addrs' || addrs' <= addrs
    ensures !op.Free? && old(h.NoneWasted()) ==> h.NoneWasted()
  {
    hide Sane, Flat, Max, Obstack.Valid, Obstack.Amortised, Obstack.Granted;
    addrs', done := addrs, op;
    match op
    case Grow(data) =>
      var g := Ask(h, |data|, malloc, step);
      h.Grow(data, g);
    case Grow0(data) =>
      var g := Ask(h, |data| + 1, malloc, step);
      h.Grow0(data, g);
    case Grow1(c) =>
      var g := Ask(h, 1, malloc, step);
      h.Grow1(c, g);
    case Blank(n) =>
      done := DoBlank(h, n, malloc, step, addrs, s);
    case MakeRoom(room) =>
      var g := Ask(h, room, malloc, step);
      h.MakeRoom(room, g);
    case Finish =>
      var value := h.Finish();
      addrs' := addrs + [value];
    case Free(k) =>
      if k < |addrs| {
        ghost var i, j := FindObject(h.live, k);
        h.Free(addrs[k], i, j);
        addrs' := addrs[..k];
      }
  }

  method DoBlank(h: Obstack, n: int, malloc: (nat, seq<Chunk>, int) -> Grant,
                 step: nat, ghost addrs: seq<int>, ghost s: Strings)
    returns (ghost done: Op)
    requires Sane(malloc) && Follows(h, s, addrs)
    modifies h
    ensures Follows(h, Step(s, done), addrs) && FilledIn(Blank(n), done)
    ensures old(h.NoneWasted()) ==> h.NoneWasted()
  {
    done := Blank(n);
    if h.objectBase - h.nextFree <= n {
      var g := Ask(h, if n < 0 then 0 else n, malloc, step);
      ghost var data := h.Blank(n, g);
      if n >= 0 { done := Grow(data); }
    }
  }

  /** Every finished string is in memory at its address. */
  ghost predicate AllHold(mem: Memory, addrs: seq<int>, s: Strings) {
    && |addrs| == |s.finished|
    && forall n :: 0 <= n < |addrs| ==> Holds(mem, addrs[n], s.finished[n])
  }

  /** From one moment of a run to the next some addresses are added or some taken away, and none changes. */
  ghost predicate Steady(history: seq<seq<int>>) {
    forall k :: 0 <= k < |history| - 1 ==> history[k] <= history[k + 1] || history[k + 1] <= history[k]
  }

  /** A finished object does not move while it lives. */
  lemma {:induction false} StaysPut(history: seq<seq<int>>, n: nat, i: nat, j: nat)
    requires Steady(history) && i <= j < |history|
    requires forall k :: i <= k <= j ==> n < |history[k]|
    ensures history[i][n] == history[j][n]
    decreases j - i
  {
    if i == j {
    } else {
      assert n < |history[j - 1]| && (history[j - 1] <= history[j - 1 + 1] || history[j - 1 + 1] <= history[j - 1]);
      StaysPut(history, n, i, j - 1);
    }
  }

  const NO_STRINGS := Strings([], [], 0)

  /** What the stack holds is in memory, and what moving the object being built has cost. */
  lemma {:induction false} FollowedHolds(h: Obstack, s: Strings, addrs: seq<int>)
    requires Follows(h, s, addrs)
    ensures AllHold(h.mem, addrs, s) && Holds(h.mem, h.objectBase, h.growing) && h.copied <= 9 * s.peak
  {
    forall n | 0 <= n < |addrs| ensures Holds(h.mem, addrs[n], s.finished[n]) {
      ObjectsHold(h.mem, h.chunks, h.live, h.mask, n);
    }
  }

  /** What is known after the operations `done`, and of each moment before. */
  ghost predicate Recorded(done: seq<Op>, history: seq<seq<int>>, mems: seq<Memory>) {
    && |history| == |mems| == |done| + 1 && Steady(history)
    && forall k :: 0 <= k <= |done| ==> AllHold(mems[k], history[k], Exec(NO_STRINGS, done[..k]))
  }

  lemma {:induction false} OneMoreMoment(done: seq<Op>, op: Op, history: seq<seq<int>>, mems: seq<Memory>,
                                         addrs: seq<int>, mem: Memory)
    requires Recorded(done, history, mems)
    requires history[|done|] <= addrs || addrs <= history[|done|]
    requires AllHold(mem, addrs, Exec(NO_STRINGS, done + [op]))
    ensures Recorded(done + [op], history + [addrs], mems + [mem])
  {
    hide AllHold, Exec;
    assert (done + [op])[..|done| + 1] == done + [op];
    assert forall k :: 0 <= k <= |done| ==> (done + [op])[..k] == done[..k];
  }

  lemma {:induction false} ExecNext(done: seq<Op>, op: Op)
    ensures Exec(NO_STRINGS, done + [op]) == Step(Exec(NO_STRINGS, done), op)
  {
    assert (done + [op])[..|done|] == done;
  }

  /**
   * After any run of operations on a new object stack it holds exactly the strings that the run built. At
   * every moment of the run the finished ones were in memory at the addresses handed out, and these never
   * changed. Moving the object being built has cost at most 9 times the largest size it had. When nothing
   * was freed every chunk but the newest holds a finished object: none was left behind by a growing one.
   */
  method Run(ops: seq<Op>, size: int, alignment: nat, malloc: (nat, seq<Chunk>, int) -> Grant)
    returns (h: Obstack, history: seq<seq<int>>, ghost mems: seq<Memory>, ghost done: seq<Op>)
    requires Sane(malloc)
    requires HEADER + DefaultAlignment(alignment) - 1 <= DefaultSize(size)
    ensures |done| == |ops| && forall i :: 0 <= i < |ops| ==> FilledIn(ops[i], done[i])
    ensures Recorded(done, history, mems) && |history| == |mems| == |done| + 1 && mems[|done|] == h.mem
    ensures Follows(h, Exec(NO_STRINGS, done), history[|done|])
    ensures Holds(h.mem, h.objectBase, h.growing)
    ensures h.copied <= 9 * Exec(NO_STRINGS, done).peak
    ensures (forall k :: 0 <= k < |ops| ==> !ops[k].Free?) ==> forall j :: 1 <= j < |h.live| ==> h.live[j] != []
  {
    hide Follows, Sane, Recorded, Exec, FilledIn;
    h := Opened(size, alignment, malloc);
    history, mems, done := [[]], [h.mem], [];
    NothingRecorded(h.mem);
    NothingExecuted();
    var i := 0;
    while i < |ops|
      invariant i <= |ops| && |done| == i && fresh(h)
      invariant forall k :: 0 <= k < i ==> FilledIn(ops[k], done[k])
      invariant Recorded(done, history, mems) && |history| == |mems| == i + 1 && mems[i] == h.mem
      invariant Follows(h, Exec(NO_STRINGS, done), history[i])
      invariant (forall k :: 0 <= k < i ==> !ops[k].Free?) ==> h.NoneWasted()
    {
      ghost var op: Op;
      var addrs;
      addrs, op := Do(h, ops[i], malloc, i + 1, history[i], Exec(NO_STRINGS, done));
      ExecNext(done, op);
      FollowedHolds(h, Exec(NO_STRINGS, done + [op]), addrs);
      RecordedSize(done, history, mems);
      OneMoreMoment(done, op, history, mems, addrs, h.mem);
      history, mems, done := history + [addrs], mems + [h.mem], done + [op];
      i := i + 1;
    }
    RecordedSize(done, history, mems);
    FollowedHolds(h, Exec(NO_STRINGS, done), history[|done|]);
  }

  lemma {:induction false} NothingExecuted()
    ensures Exec(NO_STRINGS, []) == NO_STRINGS
  {
  }

  lemma {:induction false} RecordedSize(done: seq<Op>, history: seq<seq<int>>, mems: seq<Memory>)
    requires Recorded(done, history, mems)
    ensures |history| == |mems| == |done| + 1
  {
  }

  lemma {:induction false} NothingRecorded(mem: Memory)
    ensures Recorded([], [[]], [mem])
  {
  }

  /** A new, empty stack. */
  method Opened(size: int, alignment: nat, malloc: (nat, seq<Chunk>, int) -> Grant) returns (h: Obstack)
    requires Sane(malloc) && HEADER + DefaultAlignment(alignment) - 1 <= DefaultSize(size)
    ensures fresh(h) && Follows(h, NO_STRINGS, []) && h.NoneWasted()
  {
    var g := malloc(0, [], DefaultSize(size));
    assert Grants([], g, DefaultSize(size));
    h := new Obstack.Begin(size, alignment, g);
  }
}

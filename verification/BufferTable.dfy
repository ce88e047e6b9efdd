// The table of editor buffers: numbers from 1 up, given out once, and names looked up from a rotating start.

module BufferTable {
  import opened Prelude

  const BUFF_ALLOC_INCREMENT := 20

  datatype Buf = Buf(name: Option<string>, killed: bool)

  const BLANK := Buf(None, false)

  /** The buffers created so far, number n at n - 1, and where the last lookup ended. */
  datatype Table = Table(bufs: seq<Buf>, lastUsed: nat)

  predicate Live(b: Buf, name: string) {
    !b.killed && b.name == Some(name)
  }

  ghost predicate Unique(t: Table) {
    && (forall i :: 0 <= i < |t.bufs| ==> t.bufs[i].killed || t.bufs[i].name != None)
    && forall i, j :: 0 <= i < j < |t.bufs| && !t.bufs[i].killed && !t.bufs[j].killed ==> t.bufs[i].name != t.bufs[j].name
  }

  /** The first of `bufs` from `i` on that is live under the name, or their number. */
  function First(bufs: seq<Buf>, name: string, i: nat): (k: nat)
    requires i <= |bufs|
    ensures i <= k <= |bufs|
    ensures k < |bufs| ==> Live(bufs[k], name)
    ensures forall j :: i <= j < k ==> !Live(bufs[j], name)
    decreases |bufs| - i
  {
    if i == |bufs| || Live(bufs[i], name) then i else First(bufs, name, i + 1)
  }

  function Create(t: Table, name: string): (Table, int) {
    var k := First(t.bufs, name, 0);
    if k < |t.bufs| then (t, k + 1)
    else (t.(bufs := t.bufs + [Buf(Some(name), false)]), |t.bufs| + 1)
  }

  /** Killed for good; `wiped` also forgets the name. */
  function Kill(t: Table, number: int, wiped: bool): Table {
    if 0 < number <= |t.bufs| && !t.bufs[number - 1].killed then
      t.(bufs := t.bufs[number - 1 := Buf(if wiped then None else t.bufs[number - 1].name, true)])
    else t
  }

  /** The `j`-th place looked at. */
  function Place(n: nat, lastUsed: nat, j: nat): (i: nat)
    requires n > 0
    ensures i < n
  {
    (j + lastUsed) % n
  }

  /** Looking on from the `j`-th place, once round. */
  function LookFrom(t: Table, name: string, j: nat): (Table, int)
    requires j <= |t.bufs|
    decreases |t.bufs| - j
  {
    if j == |t.bufs| then (t, -1)
    else
      var i := Place(|t.bufs|, t.lastUsed, j);
      if Live(t.bufs[i], name) then (t.(lastUsed := i), i + 1) else LookFrom(t, name, j + 1)
  }

  function Lookup(t: Table, name: string): (Table, int) {
    LookFrom(t, name, 0)
  }

  // ---------- The rotating start makes no difference ----------

  /** Every place is looked at, wherever the last lookup ended. */
  lemma {:induction false} EveryPlace(n: nat, lastUsed: nat, i: nat) returns (j: nat)
    requires i < n
    ensures j < n && Place(n, lastUsed, j) == i
  {
    var q, r := lastUsed / n, lastUsed % n;
    j := if i >= r then i - r else i - r + n;
    var turns := if i >= r then q else q + 1;
    assert j + lastUsed == n * turns + i;
    DivisionOf(n, turns, i);
  }

  lemma {:induction false} LookFromFinds(t: Table, name: string, j: nat)
    requires j <= |t.bufs|
    ensures var (t', number) := LookFrom(t, name, j);
            && (number == -1 || (0 < number <= |t.bufs| && Live(t.bufs[number - 1], name)))
            && t' == t.(lastUsed := if number == -1 then t.lastUsed else number - 1)
            && (number == -1 ==> forall k :: j <= k < |t.bufs| ==> !Live(t.bufs[Place(|t.bufs|, t.lastUsed, k)], name))
    decreases |t.bufs| - j
  {
    if j == |t.bufs| || Live(t.bufs[Place(|t.bufs|, t.lastUsed, j)], name) {
    } else {
      LookFromFinds(t, name, j + 1);
    }
  }

  lemma {:induction false} LookupMisses(t: Table, name: string, i: nat)
    requires i < |t.bufs| && Live(t.bufs[i], name)
    ensures Lookup(t, name).1 != -1
  {
    LookFromFinds(t, name, 0);
    var j := EveryPlace(|t.bufs|, t.lastUsed, i);
    hide Place;
    assert t.bufs[Place(|t.bufs|, t.lastUsed, j)] == t.bufs[i];
  }

  /** From every start, lookup answers what create would for a live name, and -1 exactly when none is live. */
  lemma {:induction false} LookupAgrees(t: Table, name: string)
    requires Unique(t)
    ensures var k := First(t.bufs, name, 0);
            && (k < |t.bufs| ==> Lookup(t, name).1 == Create(t, name).1 == k + 1)
            && (k == |t.bufs| ==> Lookup(t, name).1 == -1)
            && Lookup(t, name).0 == t.(lastUsed := if k < |t.bufs| then k else t.lastUsed)
  {
    var k := First(t.bufs, name, 0);
    LookFromFinds(t, name, 0);
    if k < |t.bufs| {
      LookupMisses(t, name, k);
      var i := Lookup(t, name).1 - 1;
      assert Live(t.bufs[i], name) && Live(t.bufs[k], name);
    }
  }

  // ---------- Runs ----------

  datatype Op = Make(name: string) | Remove(number: int, wiped: bool) | Find(name: string)

  /** One operation and the number it answers. */
  function Do(t: Table, op: Op): (Table, int) {
    match op
    case Make(name) => Create(t, name)
    case Remove(number, wiped) => (Kill(t, number, wiped), 0)
    case Find(name) => Lookup(t, name)
  }

  function Run(t: Table, ops: seq<Op>): Table
    decreases ops
  {
    if ops == [] then t else Run(Do(t, ops[0]).0, ops[1..])
  }

  lemma {:induction false} DoKeepsUnique(t: Table, op: Op)
    requires Unique(t)
    ensures Unique(Do(t, op).0)
  {
    if op.Find? { LookupAgrees(t, op.name); }
  }

  /** At most one live buffer has a given name, after any run. */
  lemma {:induction false} RunKeepsUnique(t: Table, ops: seq<Op>)
    requires Unique(t)
    ensures Unique(Run(t, ops))
    decreases ops
  {
    if ops == [] {
    } else {
      DoKeepsUnique(t, ops[0]);
      RunKeepsUnique(Do(t, ops[0]).0, ops[1..]);
    }
  }

  /** `u` came later than `t`: a number keeps its buffer until it is killed, and stays killed. */
  predicate Later(t: Table, u: Table) {
    && |t.bufs| <= |u.bufs|
    && forall i :: 0 <= i < |t.bufs| ==> u.bufs[i] == t.bufs[i] || u.bufs[i].killed
  }

  lemma {:induction false} DoIsLater(t: Table, op: Op)
    requires Unique(t)
    ensures Later(t, Do(t, op).0)
  {
    if op.Find? { LookupAgrees(t, op.name); }
  }

  lemma {:induction false} RunIsLater(t: Table, ops: seq<Op>)
    requires Unique(t)
    ensures Later(t, Run(t, ops))
    decreases ops
  {
    if ops == [] {
    } else {
      DoKeepsUnique(t, ops[0]);
      DoIsLater(t, ops[0]);
      RunIsLater(Do(t, ops[0]).0, ops[1..]);
    }
  }

  /**
   * Numbers are never reused: whatever runs between, a number answered for one name is not answered for
   * another, and once killed it is not answered at all.
   */
  lemma {:induction false} NeverReused(t: Table, op: Op, between: seq<Op>, again: Op)
    requires Unique(t) && !op.Remove? && !again.Remove?
    requires Do(t, op).1 != -1
    ensures var t1 := Do(t, op).0;
            var t2 := Run(t1, between);
            var number := Do(t, op).1;
            && 0 < number <= |t1.bufs| <= |t2.bufs|
            && (Do(t2, again).1 == number ==> again.name == op.name && !t2.bufs[number - 1].killed)
  {
    var t1 := Do(t, op).0;
    var t2 := Run(t1, between);
    var number := Do(t, op).1;
    DoKeepsUnique(t, op);
    RunKeepsUnique(t1, between);
    RunIsLater(t1, between);
    Answered(t, op);
    Answered(t2, again);
    hide Do, Run;
  }

  // ---------- What each operation does ----------

  /** A live buffer is killed, for good and whatever its name; nothing else changes, and no other number kills. */
  lemma {:induction false} RemoveKills(t: Table, number: int, wiped: bool)
    ensures var u := Do(t, Remove(number, wiped)).0;
            && |u.bufs| == |t.bufs| && u.lastUsed == t.lastUsed
            && (forall i :: 0 <= i < |t.bufs| ==> (u.bufs[i].killed <==> t.bufs[i].killed || i == number - 1))
            && (forall i :: 0 <= i < |t.bufs| && (i != number - 1 || t.bufs[i].killed) ==> u.bufs[i] == t.bufs[i])
            && (0 < number <= |t.bufs| && wiped && !t.bufs[number - 1].killed ==> u.bufs[number - 1].name == None)
  {
  }

  /** Creating keeps every buffer; it adds one under the name exactly when none of the name is live. */
  lemma {:induction false} MakeAdds(t: Table, name: string)
    ensures var (u, number) := Do(t, Make(name));
            && u.lastUsed == t.lastUsed && t.bufs <= u.bufs
            && 0 < number <= |u.bufs| && Live(u.bufs[number - 1], name)
            && (|u.bufs| == if exists i :: 0 <= i < |t.bufs| && Live(t.bufs[i], name) then |t.bufs| else |t.bufs| + 1)
            && (|u.bufs| > |t.bufs| ==> number == |u.bufs|)
  {
  }

  /** A killed buffer is never answered again, whatever runs between. */
  lemma {:induction false} KilledNeverAnswers(t: Table, number: int, wiped: bool, between: seq<Op>, again: Op)
    requires Unique(t) && 0 < number <= |t.bufs| && !again.Remove?
    ensures Do(Run(Do(t, Remove(number, wiped)).0, between), again).1 != number
  {
    var t1 := Do(t, Remove(number, wiped)).0;
    var t2 := Run(t1, between);
    RemoveKills(t, number, wiped);
    DoKeepsUnique(t, Remove(number, wiped));
    RunKeepsUnique(t1, between);
    RunIsLater(t1, between);
    Answered(t2, again);
    assert t1.bufs[number - 1].killed && t2.bufs[number - 1].killed;
    hide Do, Run;
  }

  /** The name of a killed buffer is not found, and creating it again gives the next number. */
  lemma {:induction false} KilledNameIsFree(t: Table, number: int, wiped: bool, name: string)
    requires Unique(t) && 0 < number <= |t.bufs| && Live(t.bufs[number - 1], name)
    ensures var u := Do(t, Remove(number, wiped)).0;
            Do(u, Find(name)).1 == -1 && Do(u, Make(name)).1 == |t.bufs| + 1
  {
    var u := Do(t, Remove(number, wiped)).0;
    RemoveKills(t, number, wiped);
    DoKeepsUnique(t, Remove(number, wiped));
    LookupAgrees(u, name);
    assert forall i :: 0 <= i < |u.bufs| ==> !Live(u.bufs[i], name);
  }

  /** An answer is a live buffer of the name; a new number is the next one. */
  lemma {:induction false} Answered(t: Table, op: Op)
    requires Unique(t) && !op.Remove?
    ensures var (t', number) := Do(t, op);
            && (number != -1 ==> 0 < number <= |t'.bufs| && Live(t'.bufs[number - 1], op.name))
            && (number > |t.bufs| ==> number == |t.bufs| + 1 == |t'.bufs|)
            && (op.Make? ==> number != -1)
            && (0 < number <= |t.bufs| ==> t'.bufs == t.bufs)
  {
    if op.Find? { LookFromFinds(t, op.name, 0); }
  }

  // ---------- The table in memory ----------

  class Buffers {
    var cnbuf: array<Buf>
    var lastbuf: nat
    var lastUsed: nat

    ghost predicate Valid()
      reads this, cnbuf
    {
      && lastbuf <= cnbuf.Length
      && (forall i :: lastbuf <= i < cnbuf.Length ==> cnbuf[i] == BLANK)
      && Unique(State())
    }

    ghost function State(): Table
      requires lastbuf <= cnbuf.Length
      reads this, cnbuf
    {
      Table(cnbuf[..lastbuf], lastUsed)
    }

    /** The start of lookups is static: it outlives a connection. */
    constructor (start: nat)
      ensures Valid() && fresh(cnbuf) && State() == Table([], start)
    {
      cnbuf, lastbuf, lastUsed := new Buf[0], 0, start;
    }

    /** Makes room for buffer `number`, and tells if it can be used. */
    method LowLevelBuf(number: int) returns (usable: bool)
      requires Valid() && number <= lastbuf + 1
      modifies this`cnbuf
      ensures Valid() && State() == old(State())
      ensures cnbuf == old(cnbuf) || fresh(cnbuf)
      ensures usable <==> 0 < number && (number <= lastbuf ==> !State().bufs[number - 1].killed)
      ensures usable ==> number <= cnbuf.Length
    {
      if number <= 0 { return false; }
      ghost var bufs := cnbuf[..lastbuf];
      if number > cnbuf.Length {
        Grow();
      }
      assert number <= lastbuf ==> cnbuf[..lastbuf][number - 1] == cnbuf[number - 1];
      usable := !cnbuf[number - 1].killed;
    }

    method Grow()
      requires Valid()
      modifies this`cnbuf
      ensures Valid() && State() == old(State()) && fresh(cnbuf)
      ensures cnbuf.Length == old(cnbuf.Length) + BUFF_ALLOC_INCREMENT
    {
      var was := cnbuf;
      var grown := new Buf[was.Length + BUFF_ALLOC_INCREMENT](_ => BLANK);
      for i := 0 to was.Length
        invariant grown[..i] == was[..i]
        invariant forall j :: i <= j < grown.Length ==> grown[j] == BLANK
      {
        grown[i] := was[i];
      }
      assert grown[..lastbuf] == was[..lastbuf];
      cnbuf := grown;
    }

    method CreateBuf(name: string) returns (number: int)
      requires Valid()
      modifies this, cnbuf
      ensures Valid() && (cnbuf == old(cnbuf) || fresh(cnbuf))
      ensures (State(), number) == Create(old(State()), name)
    {
      ghost var before := State();
      var j := 0;
      while j < lastbuf
        invariant j <= lastbuf && First(before.bufs, name, 0) == First(before.bufs, name, j)
      {
        if Live(cnbuf[j], name) { return j + 1; }
        j := j + 1;
      }
      var usable := LowLevelBuf(lastbuf + 1);
      DoKeepsUnique(before, Make(name));
      cnbuf[lastbuf] := Buf(Some(name), false);
      lastbuf := lastbuf + 1;
      assert cnbuf[..lastbuf] == before.bufs + [Buf(Some(name), false)];
      number := lastbuf;
    }

    /** cnb_kill and the editor's killed event wipe the name; an error reply leaves it. */
    method KillBuf(number: int, wiped: bool)
      requires Valid()
      modifies this, cnbuf
      ensures Valid() && cnbuf == old(cnbuf)
      ensures State() == Kill(old(State()), number, wiped)
    {
      if 0 < number <= lastbuf && !cnbuf[number - 1].killed {
        DoKeepsUnique(State(), Remove(number, wiped));
        ghost var bufs := cnbuf[..lastbuf];
        cnbuf[number - 1] := Buf(if wiped then None else cnbuf[number - 1].name, true);
        assert cnbuf[..lastbuf] == bufs[number - 1 := cnbuf[number - 1]];
      }
    }

    method LookupBuf(name: string) returns (number: int)
      requires Valid()
      modifies this`lastUsed
      ensures Valid() && (State(), number) == Lookup(old(State()), name)
    {
      var j := 0;
      while j < lastbuf
        invariant j <= lastbuf && LookFrom(State(), name, 0) == LookFrom(State(), name, j)
        invariant lastUsed == old(lastUsed)
      {
        var i := (j + lastUsed) % lastbuf;
        if Live(cnbuf[i], name) {
          lastUsed := i;
          return i + 1;
        }
        j := j + 1;
      }
      number := -1;
    }
  }
}

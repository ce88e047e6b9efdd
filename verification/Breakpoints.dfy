// The two linked lists of breakpoint records, changed in place while GDB's table is processed.

module Breakpoints {
  import opened Prelude
  import opened BreakpointSpec
  import opened BreakpointSigns
  import opened BreakpointTheorems

  class Bp {
    var rec: Rec
    var next: Bp?

    constructor (rec: Rec)
      ensures this.rec == rec && next == null
    {
      this.rec, next := rec, null;
    }
  }

  ghost predicate Distinct(ns: seq<Bp>) {
    forall i, j :: 0 <= i < j < |ns| ==> ns[i] != ns[j]
  }

  ghost predicate Disjoint(ns: seq<Bp>, ms: seq<Bp>) {
    forall i, j :: 0 <= i < |ns| && 0 <= j < |ms| ==> ns[i] != ms[j]
  }

  ghost predicate Within(ns: seq<Bp>, repr: set<Bp>) {
    forall i :: 0 <= i < |ns| ==> ns[i] in repr
  }

  function Head(ns: seq<Bp>): Bp? {
    if ns == [] then null else ns[0]
  }

  /** The chain from `first` is `ns`. */
  ghost predicate Linked(first: Bp?, ns: seq<Bp>)
    reads ns`next
  {
    && first == Head(ns)
    && (ns != [] ==> ns[|ns| - 1].next == null)
    && forall i {:trigger ns[i].next} :: 0 <= i < |ns| - 1 ==> ns[i].next == ns[i + 1]
  }

  ghost predicate Recs(ns: seq<Bp>, rs: seq<Rec>)
    reads ns`rec
  {
    |ns| == |rs| && forall i {:trigger ns[i]} {:trigger rs[i]} :: 0 <= i < |ns| ==> ns[i].rec == rs[i]
  }

  /** A list of distinct nodes that hold these records. */
  ghost predicate Chain(first: Bp?, ns: seq<Bp>, rs: seq<Rec>)
    reads ns`rec, ns`next
  {
    Distinct(ns) && Linked(first, ns) && Recs(ns, rs)
  }

  lemma {:induction false} Unlinked(first: Bp?, ns: seq<Bp>, rs: seq<Rec>, k: nat)
    requires Distinct(ns) && k < |ns| && Recs(ns, rs)
    requires if k == 0 then first == ns[0].next else first == ns[0] && ns[k - 1].next == ns[k].next
    requires k == |ns| - 1 || ns[|ns| - 1].next == null
    requires k == |ns| - 1 ==> ns[k].next == null
    requires forall i {:trigger ns[i].next} :: 0 <= i < |ns| - 1 && i != k - 1 ==> ns[i].next == ns[i + 1]
    ensures Chain(first, Without(ns, k), Without(rs, k))
  {
  }

  lemma {:induction false} Pushed(n: Bp, ns: seq<Bp>, rs: seq<Rec>, repr: set<Bp>)
    requires Chain(n.next, ns, rs) && n !in ns && n in repr && Within(ns, repr)
    ensures Chain(n, [n] + ns, [n.rec] + rs) && Within([n] + ns, repr)
  {
  }

  lemma {:induction false} WithoutDisjoint(ns: seq<Bp>, ms: seq<Bp>, k: nat)
    requires Disjoint(ns, ms) && k < |ns|
    ensures Disjoint(Without(ns, k), ms) && forall i :: 0 <= i < |ns| ==> ns[i] !in ms
  {
  }

  lemma {:induction false} WithoutWithin(ns: seq<Bp>, repr: set<Bp>, k: nat)
    requires Within(ns, repr) && k < |ns|
    ensures Within(Without(ns, k), repr) && ns[k] in repr
  {
  }

  lemma {:induction false} TakenOnce(first: Bp?, ns: seq<Bp>, rs: seq<Rec>, k: nat)
    requires Chain(first, ns, rs) && k < |ns|
    ensures |ns| == |rs| && ns[k] !in Without(ns, k)
  {
  }

  /** What a chain says about its links. */
  lemma {:induction false} LinksOf(first: Bp?, ns: seq<Bp>, rs: seq<Rec>, repr: set<Bp>)
    requires Chain(first, ns, rs) && Within(ns, repr) && ns != []
    ensures Distinct(ns) && Recs(ns, rs) && |ns| == |rs| && first == ns[0]
    ensures ns[|ns| - 1].next == null
    ensures forall i {:trigger ns[i].next} :: 0 <= i < |ns| - 1 ==> ns[i].next == ns[i + 1]
    ensures forall i, j :: 0 <= i < j < |ns| ==> ns[i] != ns[j]
    ensures forall i :: 0 <= i < |ns| ==> ns[i] in repr
  {
  }

  lemma {:induction false} WithoutUpdated(rs: seq<Rec>, k: nat, r: Rec)
    requires k < |rs|
    ensures Without(rs[k := r], k) == Without(rs, k)
  {
  }

  lemma {:induction false} ProcessedSoFar(st: State, reps: seq<Report>, i: nat)
    requires i <= |reps|
    ensures ProcessAll(st, reps[..0]) == st
    ensures i < |reps| ==> ProcessAll(st, reps[..i + 1]) == Process(ProcessAll(st, reps[..i]), reps[i])
  {
    if i < |reps| { assert reps[..i + 1][..i] == reps[..i]; }
  }

  class Table {
    var bpinfo: Bp?
    var tmplist: Bp?
    var spare: Bp?  // the record being filled, reused until it is linked
    var e: Editor
    ghost var olds: seq<Bp>
    ghost var news: seq<Bp>
    ghost var oldRecs: seq<Rec>
    ghost var newRecs: seq<Rec>
    ghost var repr: set<Bp>

    /** Two lists without a node in common, holding the two tables. */
    ghost predicate Valid()
      reads `bpinfo, `tmplist, `spare, `olds, `news, `oldRecs, `newRecs, `repr, repr
    {
      && Within(olds, repr) && Within(news, repr)
      && Chain(bpinfo, olds, oldRecs) && Chain(tmplist, news, newRecs)
      && Disjoint(olds, news)
      && (spare != null ==> spare in repr && spare !in olds && spare !in news)
    }

    ghost function St(): State
      reads this
    {
      State(oldRecs, newRecs, e)
    }

    constructor (e: Editor)
      ensures Valid() && St() == State([], [], e) && olds == news == [] && repr == {}
    {
      bpinfo, tmplist, spare, this.e := null, null, null, e;
      olds, news, oldRecs, newRecs, repr := [], [], [], [], {};
    }

    /** The old record of a breakpoint, and the one in front of it. */
    method FindOld(id: int) returns (prev: Bp?, p: Bp?, ghost k: nat)
      requires Valid()
      ensures k == Find(oldRecs, id)
      ensures p == if Find(oldRecs, id) < |olds| then olds[Find(oldRecs, id)] else null
      ensures prev == if Find(oldRecs, id) == 0 then null else olds[Find(oldRecs, id) - 1]
    {
      prev, p, k := null, bpinfo, 0;
      assert oldRecs[0..] == oldRecs;
      while p != null && p.rec.id != id
        invariant k <= |olds| && p == (if k < |olds| then olds[k] else null)
        invariant prev == (if k == 0 then null else olds[k - 1])
        invariant k + Find(oldRecs[k..], id) == Find(oldRecs, id)
        decreases |olds| - k
      {
        assert oldRecs[k..][1..] == oldRecs[k + 1..];
        prev, p, k := p, p.next, k + 1;
      }
    }

    /** Set the fields of the old record `k`. */
    method SetOld(p: Bp, rec: Rec, ghost k: nat)
      requires Valid() && k < |olds| && p == olds[k]
      modifies p, `oldRecs
      ensures Valid() && oldRecs == old(oldRecs)[k := rec] && p.rec == rec
    {
      p.rec := rec;
      oldRecs := oldRecs[k := rec];
    }

    /** Let the link to the old record `k` lead to the one behind it. */
    method Bypass(prev: Bp?, p: Bp, ghost k: nat)
      requires Valid() && k < |olds| && p == olds[k] && prev == (if k == 0 then null else olds[k - 1])
      modifies `bpinfo, repr`next
      ensures Chain(bpinfo, Without(olds, k), Without(oldRecs, k)) && Chain(tmplist, news, newRecs)
    {
      LinksOf(bpinfo, olds, oldRecs, repr);
      WithoutDisjoint(olds, news, k);
      hide Within, Linked, Distinct, Recs, Chain, Without, Disjoint;
      if prev == null {
        bpinfo := p.next;
      } else {
        prev.next := p.next;
      }
      Unlinked(bpinfo, olds, oldRecs, k);
    }

    /** Unlink the old record `k`. */
    method Unlink(prev: Bp?, p: Bp, ghost k: nat)
      requires Valid() && k < |olds| && p == olds[k] && prev == (if k == 0 then null else olds[k - 1])
      modifies `bpinfo, `olds, `oldRecs, repr`next
      ensures Valid()
      ensures olds == Without(old(olds), k) && oldRecs == Without(old(oldRecs), k)
      ensures p in repr && p !in olds && p !in news && p != spare
    {
      WithoutDisjoint(olds, news, k);
      WithoutMembers(olds, k);
      WithoutWithin(olds, repr, k);
      TakenOnce(bpinfo, olds, oldRecs, k);
      hide Chain, Without, Disjoint, Within;
      Bypass(prev, p, k);
      olds, oldRecs := Without(olds, k), Without(oldRecs, k);
    }

    /** Link a record to the head of the new table. */
    method Push(p: Bp)
      requires Valid() && p in repr && p !in olds && p !in news
      modifies `tmplist, `spare, `news, `newRecs, p
      ensures Valid()
      ensures spare == (if p == old(spare) then null else old(spare))
      ensures news == [p] + old(news) && newRecs == [old(p.rec)] + old(newRecs)
    {
      hide Within, Linked, Distinct, Recs, Chain;
      ghost var ns, rs := news, newRecs;
      p.next := tmplist;
      tmplist := p;
      if p == spare {
        spare := null;  // forget the record
      }
      news, newRecs := [p] + ns, [p.rec] + rs;
      Pushed(p, ns, rs, repr);
    }

    /** No old node is lost: it is still in the old list or in the new one. */
    twostate predicate NodesKept()
      reads this
    {
      && (forall n :: n in olds ==> n in old(olds))
      && (forall n :: n in old(olds) ==> n in olds || n in news)
      && (forall n :: n in old(news) ==> n in news)
    }

    /** Update the flags of an old record, and its sign when it was enabled or disabled. */
    method UpdateOld(p: Bp, rep: Report, ghost k: nat)
      requires Valid() && k < |olds| && p == olds[k]
      modifies p, `oldRecs, `e
      ensures Valid() && e == Update(old(e), old(oldRecs)[k], rep).0
      ensures oldRecs == old(oldRecs)[k := Update(old(e), old(oldRecs)[k], rep).1] && p.rec == oldRecs[k]
    {
      assert p.rec == oldRecs[k] && |oldRecs| == |olds|;
      hide Valid, DelSign, AddSign, DefineSign;
      var r := p.rec;
      if rep.enabled != r.enabled {
        var (ed, rd) := DefineSign(e, r.(enabled := rep.enabled));
        e, r := ed, rd;
        if r.typenr != -1 {
          e := DelSign(e, r);
          e := AddSign(e, r);
        }
      }
      SetOld(p, r.(disposition := rep.disposition, cont := rep.cont), k);
    }

    /** A known breakpoint: update it and move it to the new table. */
    method MoveOld(prev: Bp?, p: Bp, rep: Report, ghost k: nat)
      requires Valid() && k == Find(oldRecs, rep.id) && k < |olds| && p == olds[k]
      requires prev == (if k == 0 then null else olds[k - 1])
      requires rep.id > 0 && rep.isBreakpoint
      modifies `bpinfo, `tmplist, `spare, `e, `olds, `news, `oldRecs, `newRecs, repr
      ensures Valid() && St() == Process(old(St()), rep) && NodesKept()
    {
      assert |oldRecs| == |olds| && p in repr;
      hide Update, Find, Valid, Without;
      WithoutMembers(olds, k);
      UpdateOld(p, rep, k);
      WithoutUpdated(old(oldRecs), k, oldRecs[k]);
      assert |oldRecs| == |olds|;
      Move(prev, p, k);
    }

    /** Move the old record `k` to the head of the new table. */
    method Move(prev: Bp?, p: Bp, ghost k: nat)
      requires Valid() && k < |olds| == |oldRecs| && p == olds[k] && prev == (if k == 0 then null else olds[k - 1])
      modifies `bpinfo, `tmplist, `spare, `olds, `news, `oldRecs, `newRecs, repr
      ensures Valid() && olds == Without(old(olds), k) && news == [p] + old(news)
      ensures oldRecs == Without(old(oldRecs), k) && newRecs == [old(oldRecs)[k]] + old(newRecs)
    {
      assert p.rec == oldRecs[k];
      hide Chain, Within, Disjoint, Without;
      Unlink(prev, p, k);
      Push(p);
    }

    /** The record to fill: a new one, or the one that was not linked last time. */
    method FillSpare(rep: Report)
      requires Valid()
      modifies this, repr
      ensures Valid() && St() == old(St()) && spare != null
      ensures olds == old(olds) && news == old(news) && fresh(repr - old(repr))
    {
      var blank := Rec(rep.id, rep.enabled, rep.disposition, rep.cont, -1, 0, -1, -1, 0);
      if spare == null {
        spare := new Bp(blank);
        repr := repr + {spare};
      } else {
        spare.rec := blank;
      }
    }

    /** Process one record of GDB's table. */
    method ProcessRecord(rep: Report)
      requires Valid()
      modifies this, repr
      ensures Valid() && St() == Process(old(St()), rep)
      ensures fresh(repr - old(repr)) && NodesKept()
    {
      FillSpare(rep);
      if rep.id <= 0 || !rep.isBreakpoint {
        return;
      }
      var prev, p, k := FindOld(rep.id);
      if p != null {
        MoveOld(prev, p, rep, k);
      } else if rep.lnum > 0 && rep.opens > 0 {
        LinkSpare(rep);
      }
    }

    /** Set the fields of the record being filled. */
    method SetSpare(rec: Rec)
      requires Valid() && spare != null
      modifies spare`rec
      ensures Valid() && spare.rec == rec
    {
      hide Distinct, Linked, Disjoint;
      spare.rec := rec;
    }

    /** A new breakpoint: define and show its sign, and link the record. */
    method LinkSpare(rep: Report)
      requires Valid() && spare != null && Find(oldRecs, rep.id) == |oldRecs|
      requires rep.id > 0 && rep.isBreakpoint && rep.lnum > 0 && rep.opens > 0
      modifies this, repr
      ensures Valid() && St() == Process(old(St()), rep)
      ensures repr == old(repr) && NodesKept()
    {
      assert spare in repr && spare !in olds && spare !in news;
      hide Valid, DefineSign, AddSign, Find;
      var r := Rec(rep.id, rep.enabled, rep.disposition, rep.cont, rep.opens, 0, -1, -1, rep.lnum);
      var (ed, rd) := DefineSign(e.(live := e.live + {rep.opens}), r);
      e := if rd.typenr != -1 then AddSign(ed, rd) else ed;
      SetSpare(rd);
      Push(spare);
    }

    /** Take down the sign of each record left in the old table. */
    method UnliteOlds()
      requires Valid() && DistinctIds(oldRecs)
      modifies `e
      ensures Valid() && e == Unlite(old(e), oldRecs)
    {
      var p := bpinfo;
      ghost var k := 0;
      assert oldRecs[0..] == oldRecs;
      while p != null
        invariant k <= |olds| && p == (if k < |olds| then olds[k] else null)
        invariant Unlite(e, oldRecs[k..]) == Unlite(old(e), oldRecs)
        decreases |olds| - k
      {
        var prev, q, j := FindOld(p.rec.id);  // gdb_unlite looks the id up again
        FindDistinct(oldRecs, k);
        assert oldRecs[k..][1..] == oldRecs[k + 1..];
        e := DelSign(e, q.rec);
        p, k := p.next, k + 1;
      }
    }

    /**
     * All of GDB's table has been received. The new table replaces the old one; every node of the old
     * table is in the new one or is freed, and not both.
     */
    method GetBpComplete(reps: seq<Report>) returns (ghost freed: seq<Bp>)
      requires Valid() && newRecs == [] && DistinctIds(oldRecs)
      modifies this, repr
      ensures Valid() && newRecs == [] && fresh(repr - old(repr))
      ensures (oldRecs, e) == Reconcile(old(oldRecs), old(e), reps)
      ensures forall n :: n in old(olds) ==> (n in olds <==> n !in freed)
      ensures InStep(old(oldRecs), old(e)) ==> (InStep(oldRecs, e) <==> NoRepeats(old(oldRecs), reps))
      ensures InStep(old(oldRecs), old(e)) && NoRepeats(old(oldRecs), reps)
              ==> Shapes(oldRecs) == ExpectedAll(old(oldRecs), reps)
      ensures TypesApart(old(oldRecs), old(e)) ==> TypesApart(oldRecs, e)
    {
      hide InStep, NoRepeats, Shapes, ExpectedAll, ProcessAll, Unlite, TypesApart;
      ghost var st := St();
      ProcessReports(reps);
      OldsStayDistinct(st, reps);
      UnliteOlds();
      freed := ReplaceTable();
      if InStep(st.olds, st.e) {
        Reconciled(st.olds, st.e, reps);
      }
      if TypesApart(st.olds, st.e) {
        ReconciledTypes(st.olds, st.e, reps);
      }
    }

    /** Free the nodes of the old list, one after the other. */
    method FreeBpList() returns (ghost freed: seq<Bp>)
      requires Valid()
      modifies `bpinfo, `olds, `oldRecs
      ensures Valid() && bpinfo == null && olds == [] && oldRecs == [] && freed == old(olds)
    {
      freed := [];
      var p := bpinfo;
      while p != null
        invariant |freed| <= |olds| && freed == olds[..|freed|]
        invariant p == if |freed| < |olds| then olds[|freed|] else null
        decreases |olds| - |freed|
      {
        var next := p.next;
        freed := freed + [p];
        p := next;
      }
      bpinfo, olds, oldRecs := null, [], [];
    }

    /** Free the old table and put the new one in its place. */
    method ReplaceTable() returns (ghost freed: seq<Bp>)
      requires Valid()
      modifies `spare, `bpinfo, `tmplist, `olds, `oldRecs, `news, `newRecs
      ensures Valid()
      ensures olds == old(news) && oldRecs == old(newRecs) && newRecs == [] && freed == old(olds)
    {
      hide Within, Chain;
      spare := null;
      freed := FreeBpList();
      bpinfo, tmplist := tmplist, null;
      olds, oldRecs, news, newRecs := news, newRecs, [], [];
    }

    method ProcessReports(reps: seq<Report>)
      requires Valid()
      modifies this, repr
      ensures Valid() && St() == ProcessAll(old(St()), reps)
      ensures fresh(repr - old(repr)) && NodesKept()
    {
      hide Valid, Process, ProcessAll;
      var i := 0;
      ProcessedSoFar(St(), reps, 0);
      while i < |reps|
        invariant i <= |reps| && Valid() && fresh(repr - old(repr))
        invariant St() == ProcessAll(old(St()), reps[..i])
        invariant NodesKept()
      {
        ProcessedSoFar(old(St()), reps, i);
        ProcessRecord(reps[i]);
        i := i + 1;
      }
      assert reps[..i] == reps;
    }

    /** Unlink and free the records of a buffer that was wiped out. */
    method FreeRecords(buf: int)
      requires Valid()
      modifies this, repr
      ensures Valid() && e == old(e) && newRecs == old(newRecs) && repr == old(repr)
      ensures oldRecs == WithoutBuffer(old(oldRecs), buf)
    {
      hide WithoutBuffer, Without;
      var prev: Bp?, p := null, bpinfo;
      ghost var k := 0;
      RestAtEnds(oldRecs, buf);
      while p != null
        invariant Valid() && e == old(e) && newRecs == old(newRecs) && repr == old(repr)
        invariant k <= |olds| && p == (if k < |olds| then olds[k] else null)
        invariant prev == (if k == 0 then null else olds[k - 1])
        invariant oldRecs[..k] + WithoutBuffer(oldRecs[k..], buf) == WithoutBuffer(old(oldRecs), buf)
        decreases |olds| - k
      {
        ghost var ns, rs := olds, oldRecs;
        var next := p.next;
        if p.rec.buf == buf {
          Unlink(prev, p, k);
          WithoutAround(ns, k);
          RemovedFromRest(rs, k, buf);
        } else {
          KeptFromRest(rs, k, buf);
          prev, k := p, k + 1;
        }
        p := next;
      }
      RestAtEnds(oldRecs, buf);
    }

    /** The editor has wiped out a buffer. */
    method Killed(buf: int)
      requires Valid() && newRecs == []
      modifies this, repr
      ensures Valid() && newRecs == []
      ensures (oldRecs, e) == if buf in old(e.live) then (WithoutBuffer(old(oldRecs), buf), Kill(old(e), buf))
          else old((oldRecs, e))
      ensures InStep(old(oldRecs), old(e)) ==> InStep(oldRecs, e)
    {
      if InStep(oldRecs, e) {
        KillKeepsInStep(oldRecs, e, buf);
      }
      if buf in e.live {
        e := Kill(e, buf);
        FreeRecords(buf);
      }
    }
  }

  lemma {:induction false} FindDistinct(rs: seq<Rec>, k: nat)
    requires DistinctIds(rs) && k < |rs|
    ensures Find(rs, rs[k].id) == k
  {
    if k == 0 {
    } else {
      FindDistinct(rs[1..], k - 1);
    }
  }

  lemma {:induction false} OldsStayDistinct(st: State, reps: seq<Report>)
    requires DistinctIds(st.olds)
    ensures DistinctIds(ProcessAll(st, reps).olds)
    decreases |reps|
  {
    if reps == [] {
    } else {
      OldsStayDistinct(st, reps[..|reps| - 1]);
    }
  }

  lemma {:induction false} RestAtEnds(rs: seq<Rec>, buf: int)
    ensures rs[..0] + WithoutBuffer(rs[0..], buf) == WithoutBuffer(rs, buf)
    ensures rs[..|rs|] + WithoutBuffer(rs[|rs|..], buf) == rs
  {
    assert rs[0..] == rs;
  }

  lemma {:induction false} RemovedFromRest(rs: seq<Rec>, k: nat, buf: int)
    requires k < |rs| && rs[k].buf == buf
    ensures var rest := Without(rs, k);
            rest[..k] + WithoutBuffer(rest[k..], buf) == rs[..k] + WithoutBuffer(rs[k..], buf)
  {
    var rest := Without(rs, k);
    assert rest[..k] == rs[..k] && rest[k..] == rs[k + 1..] && rs[k..][1..] == rs[k + 1..];
  }

  lemma {:induction false} KeptFromRest(rs: seq<Rec>, k: nat, buf: int)
    requires k < |rs| && rs[k].buf != buf
    ensures rs[..k + 1] + WithoutBuffer(rs[k + 1..], buf) == rs[..k] + WithoutBuffer(rs[k..], buf)
  {
    assert rs[k..][1..] == rs[k + 1..] && rs[..k + 1] == rs[..k] + [rs[k]];
  }
}

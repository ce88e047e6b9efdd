// Sign types: each breakpoint of a buffer has its own, one for each of its two states.

module BreakpointSigns {
  import opened Prelude
  import opened BreakpointSpec
  import opened BreakpointTheorems

  /** The types of a record were defined in its buffer, and are two. */
  predicate OwnTypes(r: Rec, e: Editor) {
    && r.typenrEn <= LastSign(e, r.buf) && r.typenrDis <= LastSign(e, r.buf)
    && (r.typenrEn > 0 ==> r.typenrEn != r.typenrDis)
  }

  /** No type is that of two records. */
  predicate NoneShared(r: Rec, q: Rec) {
    r.buf == q.buf ==>
      && (r.typenrEn > 0 ==> r.typenrEn != q.typenrEn && r.typenrEn != q.typenrDis)
      && (r.typenrDis > 0 ==> r.typenrDis != q.typenrEn && r.typenrDis != q.typenrDis)
  }

  ghost predicate AllOwn(rs: seq<Rec>, e: Editor) {
    forall i :: 0 <= i < |rs| ==> OwnTypes(rs[i], e)
  }

  ghost predicate Pairwise(rs: seq<Rec>) {
    forall i, j :: 0 <= i < j < |rs| ==> NoneShared(rs[i], rs[j])
  }

  ghost predicate Across(rs: seq<Rec>, qs: seq<Rec>) {
    forall i, j :: 0 <= i < |rs| && 0 <= j < |qs| ==> NoneShared(rs[i], qs[j])
  }

  /** In every buffer the types of all records are different, and at most the last one defined. */
  ghost predicate TypesApart(rs: seq<Rec>, e: Editor) {
    AllOwn(rs, e) && Pairwise(rs)
  }

  ghost predicate TypesApartTwo(st: State) {
    TypesApart(st.olds, st.e) && TypesApart(st.news, st.e) && Across(st.olds, st.news)
  }

  // ---------- One record ----------

  ghost predicate Grows(e: Editor, e': Editor) {
    forall b :: LastSign(e, b) <= LastSign(e', b)
  }

  /** Each type of `r'` is that of `r` for the same state, or was not defined in the buffer before. */
  predicate KeptOrNew(r: Rec, r': Rec, e: Editor) {
    && r'.buf == r.buf
    && (r'.typenrEn == r.typenrEn || r'.typenrEn > LastSign(e, r.buf))
    && (r'.typenrDis == r.typenrDis || r'.typenrDis > LastSign(e, r.buf))
  }

  lemma {:induction false} DefineSignNumbers(e: Editor, r: Rec)
    requires OwnTypes(r, e)
    ensures var (e', r') := DefineSign(e, r); OwnTypes(r', e') && KeptOrNew(r, r', e) && Grows(e, e')
  {
  }

  lemma {:induction false} UpdateNumbers(e: Editor, p: Rec, rep: Report)
    requires OwnTypes(p, e)
    ensures var (e', p') := Update(e, p, rep); OwnTypes(p', e') && KeptOrNew(p, p', e) && Grows(e, e')
  {
    hide AddSign, DelSign;
    DefineSignNumbers(e, p.(enabled := rep.enabled));
    SignsDefineNone(e, p);
    var (ed, pd) := DefineSign(e, p.(enabled := rep.enabled));
    SignsDefineNone(ed, pd);
    hide DefineSign, KeptOrNew;
  }

  lemma {:induction false} SignsDefineNone(e: Editor, r: Rec)
    ensures AddSign(DelSign(e, r), r).lastSign == e.lastSign
  {
  }

  lemma {:induction false} CreateNumbers(e: Editor, rep: Report)
    ensures var (e', r) := Create(e, rep);
            && OwnTypes(r, e') && Grows(e, e') && r.buf == rep.opens
            && (r.typenrEn <= 0 || r.typenrEn > LastSign(e, r.buf))
            && (r.typenrDis <= 0 || r.typenrDis > LastSign(e, r.buf))
  {
    var r := Rec(rep.id, rep.enabled, rep.disposition, rep.cont, rep.opens, 0, -1, -1, rep.lnum);
    DefineSignNumbers(e.(live := e.live + {rep.opens}), r);
  }

  /** A record with kept or new types shares none where it shared none before. */
  lemma {:induction false} StillNoneShared(r: Rec, r': Rec, q: Rec, e: Editor)
    requires NoneShared(r, q) && OwnTypes(q, e) && KeptOrNew(r, r', e)
    ensures NoneShared(r', q) && NoneShared(q, r')
  {
  }

  lemma {:induction false} Symmetric(r: Rec, q: Rec)
    ensures NoneShared(r, q) <==> NoneShared(q, r)
  {
  }

  lemma {:induction false} AllOwnLater(rs: seq<Rec>, e: Editor, e': Editor)
    requires AllOwn(rs, e) && Grows(e, e')
    ensures AllOwn(rs, e')
  {
    forall i | 0 <= i < |rs| ensures OwnTypes(rs[i], e') {
      assert OwnTypes(rs[i], e) && LastSign(e, rs[i].buf) <= LastSign(e', rs[i].buf);
    }
  }

  lemma {:induction false} FirstOfAll(r: Rec, rs: seq<Rec>, e: Editor)
    requires TypesApart(rs, e) && OwnTypes(r, e) && forall j :: 0 <= j < |rs| ==> NoneShared(r, rs[j])
    ensures TypesApart([r] + rs, e)
  {
    hide OwnTypes, NoneShared;
  }

  // ---------- The whole table ----------

  lemma {:induction false} KnownTypes(st: State, rep: Report)
    requires TypesApartTwo(st) && rep.id > 0 && rep.isBreakpoint && Find(st.olds, rep.id) < |st.olds|
    ensures TypesApartTwo(Process(st, rep))
  {
    hide OwnTypes, NoneShared, Update, KeptOrNew, Grows, LastSign, Find, Without, TypesApart, Across;
    var k := Find(st.olds, rep.id);
    var p, rest := st.olds[k], Without(st.olds, k);
    var (e', p') := Update(st.e, p, rep);
    TakenOutTypes(st, k);
    UpdateNumbers(st.e, p, rep);
    TypesLater(rest, st.e, e');
    TypesLater(st.news, st.e, e');
    SharesNone(p, p', rest, st.e);
    SharesNone(p, p', st.news, st.e);
    FirstOfAll(p', st.news, e');
    AcrossFirst(rest, p', st.news);
  }

  lemma {:induction false} TakenOutTypes(st: State, k: nat)
    requires TypesApartTwo(st) && k < |st.olds|
    ensures var p, rest := st.olds[k], Without(st.olds, k);
            && OwnTypes(p, st.e) && TypesApart(rest, st.e) && Across(rest, st.news)
            && (forall i :: 0 <= i < |rest| ==> NoneShared(p, rest[i]))
            && forall j :: 0 <= j < |st.news| ==> NoneShared(p, st.news[j])
  {
    hide OwnTypes, NoneShared;
    var p, rest := st.olds[k], Without(st.olds, k);
    assert forall i :: 0 <= i < |rest| ==> rest[i] == if i < k then st.olds[i] else st.olds[i + 1];
    forall i | 0 <= i < |rest| ensures NoneShared(p, rest[i]) {
      Symmetric(p, rest[i]);
    }
  }

  lemma {:induction false} TypesLater(rs: seq<Rec>, e: Editor, e': Editor)
    requires TypesApart(rs, e) && Grows(e, e')
    ensures TypesApart(rs, e')
  {
    hide OwnTypes, NoneShared, Grows;
    AllOwnLater(rs, e, e');
  }

  lemma {:induction false} SharesNone(p: Rec, p': Rec, rs: seq<Rec>, e: Editor)
    requires TypesApart(rs, e) && KeptOrNew(p, p', e) && forall i :: 0 <= i < |rs| ==> NoneShared(p, rs[i])
    ensures forall i :: 0 <= i < |rs| ==> NoneShared(p', rs[i]) && NoneShared(rs[i], p')
  {
    hide OwnTypes, NoneShared, KeptOrNew;
    forall i | 0 <= i < |rs| ensures NoneShared(p', rs[i]) && NoneShared(rs[i], p') {
      StillNoneShared(p, p', rs[i], e);
    }
  }

  lemma {:induction false} AcrossFirst(rs: seq<Rec>, r: Rec, qs: seq<Rec>)
    requires Across(rs, qs) && forall i :: 0 <= i < |rs| ==> NoneShared(rs[i], r)
    ensures Across(rs, [r] + qs)
  {
    hide NoneShared;
  }

  lemma {:induction false} NewTypes(st: State, rep: Report)
    requires TypesApartTwo(st) && rep.id > 0 && rep.isBreakpoint && Find(st.olds, rep.id) == |st.olds|
    requires rep.lnum > 0 && rep.opens > 0
    ensures TypesApartTwo(Process(st, rep))
  {
    var (e', r) := Create(st.e, rep);
    hide Create, Grows, LastSign, Find;
    CreateNumbers(st.e, rep);
    AllOwnLater(st.olds, st.e, e');
    AllOwnLater(st.news, st.e, e');
    forall j | 0 <= j < |st.news| ensures NoneShared(r, st.news[j]) {
      assert OwnTypes(st.news[j], st.e);
    }
    FirstOfAll(r, st.news, e');
    forall i | 0 <= i < |st.olds| ensures NoneShared(st.olds[i], r) {
      assert OwnTypes(st.olds[i], st.e);
    }
  }

  lemma {:induction false} ProcessTypes(st: State, rep: Report)
    requires TypesApartTwo(st)
    ensures TypesApartTwo(Process(st, rep))
  {
    hide TypesApartTwo;
    if rep.id > 0 && rep.isBreakpoint {
      if Find(st.olds, rep.id) < |st.olds| {
        KnownTypes(st, rep);
      } else if rep.lnum > 0 && rep.opens > 0 {
        NewTypes(st, rep);
      }
    }
  }

  lemma {:induction false} AllProcessedTypes(st: State, reps: seq<Report>)
    requires TypesApartTwo(st)
    ensures TypesApartTwo(ProcessAll(st, reps))
  {
    hide TypesApartTwo, Process;
    if reps == [] {
    } else {
      AllProcessedTypes(st, reps[..|reps| - 1]);
      ProcessTypes(ProcessAll(st, reps[..|reps| - 1]), reps[|reps| - 1]);
    }
  }

  lemma {:induction false} UnliteDefinesNone(e: Editor, rs: seq<Rec>)
    ensures Unlite(e, rs).lastSign == e.lastSign
    decreases rs
  {
    if rs == [] {
    } else {
      UnliteDefinesNone(DelSign(e, rs[0]), rs[1..]);
    }
  }

  /**
   * Reconciling keeps all sign types of a buffer apart, whatever is reported: every type ever defined for a
   * record is its own, and its two states have two.
   */
  lemma {:induction false} ReconciledTypes(table: seq<Rec>, e: Editor, reps: seq<Report>)
    requires TypesApart(table, e)
    ensures var (table', e') := Reconcile(table, e, reps); TypesApart(table', e')
  {
    var st := ProcessAll(State(table, [], e), reps);
    AllProcessedTypes(State(table, [], e), reps);
    UnliteDefinesNone(st.e, st.olds);
    hide ProcessAll, Unlite;
    AllOwnLater(st.news, st.e, Unlite(st.e, st.olds));
  }

  lemma {:induction false} KillKeepsTypes(rs: seq<Rec>, e: Editor, buf: int)
    requires TypesApart(rs, e)
    ensures TypesApart(WithoutBuffer(rs, buf), Kill(e, buf))
  {
    hide OwnTypes, NoneShared;
    LeftTypes(rs, e, buf);
    AllOwnLater(WithoutBuffer(rs, buf), e, Kill(e, buf));
  }

  lemma {:induction false} LeftTypes(rs: seq<Rec>, e: Editor, buf: int)
    requires TypesApart(rs, e)
    ensures TypesApart(WithoutBuffer(rs, buf), e)
    ensures forall r :: r in WithoutBuffer(rs, buf) ==> r in rs
    decreases rs
  {
    hide OwnTypes, NoneShared;
    if rs == [] {
    } else {
      LeftTypes(rs[1..], e, buf);
      if rs[0].buf != buf {
        var left := WithoutBuffer(rs[1..], buf);
        forall j | 0 <= j < |left| ensures NoneShared(rs[0], left[j]) {
          assert left[j] in left && left[j] in rs[1..];
          var k :| 0 <= k < |rs[1..]| && rs[1..][k] == left[j];
          assert rs[1..][k] == rs[k + 1];
        }
        FirstOfAll(rs[0], left, e);
      }
    }
  }

  // ---------- What the editor shows ----------

  /** The type a record has for the state it is in. */
  function TypeNow(r: Rec): int {
    if r.enabled then r.typenrEn else r.typenrDis
  }

  /**
   * A sign type is refused exactly where none is known for the state and no new one can be made, in a buffer
   * that is not open or for no breakpoint; a new one is the next of its buffer, and no other buffer's count moves.
   */
  lemma {:induction false} DefinedOrRefused(e: Editor, r: Rec)
    ensures var (e', r') := DefineSign(e, r);
            var open := r.buf in e.live && r.id > 0;
            && (r'.typenr == -1 <==> TypeNow(r) <= 0 && !open)
            && (r'.typenr != -1 ==> r'.typenr == TypeNow(r') > 0)
            && (TypeNow(r) <= 0 && open ==> r'.typenr == LastSign(e', r.buf) == LastSign(e, r.buf) + 1)
            && (TypeNow(r) > 0 || !open ==> e' == e)
            && forall b :: b != r.buf ==> LastSign(e', b) == LastSign(e, b)
  {
  }

  /** A wiped buffer shows no breakpoint and takes no more signs; the other buffers keep theirs. */
  lemma {:induction false} WipedShowsNone(e: Editor, buf: int, r: Rec)
    requires r.buf == buf
    ensures var e' := Kill(e, buf);
            && AddSign(e', r) == e' && DelSign(e', r) == e' && !Shown(r, e')
            && (forall key :: key in e'.signs <==> key in e.signs && key.0 != buf)
            && (forall key :: key in e'.signs ==> e'.signs[key] == e.signs[key])
            && forall b :: b != buf ==> (b in e'.live <==> b in e.live)
  {
  }

  /** Two breakpoints shown in one buffer never show the same sign type. */
  lemma {:induction false} ShownTypesDiffer(table: seq<Rec>, e: Editor, i: nat, j: nat)
    requires InStep(table, e) && TypesApart(table, e) && i < j < |table| && table[i].buf == table[j].buf
    ensures e.signs[Key(table[i])].typenr != e.signs[Key(table[j])].typenr
  {
    assert Shown(table[i], e) && Shown(table[j], e) && NoneShared(table[i], table[j]);
  }

  /**
   * A breakpoint that was enabled or disabled shows another type
   * than before, and the first one again when switched back.
   */
  lemma {:induction false} SwitchedTypes(e: Editor, p: Rec, rep: Report, back: Report)
    requires Shown(p, e) && OwnTypes(p, e)
    requires rep.enabled != p.enabled && back.enabled == p.enabled
    ensures var (e1, p1) := Update(e, p, rep);
            var (e2, p2) := Update(e1, p1, back);
            && Key(p) in e.signs && Key(p) in e1.signs && Key(p) in e2.signs
            && e1.signs[Key(p)].typenr != e.signs[Key(p)].typenr
            && e2.signs[Key(p)] == e.signs[Key(p)]
  {
  }
}

// Breakpoint records and the editor's signs, as values; reconciling them with GDB's breakpoint table.

module BreakpointSpec {
  import opened Prelude

  datatype Rec = Rec(id: int, enabled: bool, disposition: bool, cont: bool,
                     buf: int, typenr: int, typenrEn: int, typenrDis: int, lnum: int)

  datatype Sign = Sign(typenr: int, lnum: int)

  /** Live buffers, the last sign type defined in each, and the breakpoint signs shown. */
  datatype Editor = Editor(live: set<int>, lastSign: map<int, nat>, signs: map<(int, int), Sign>)

  /** One record of GDB's table. `opens` is the buffer its source file opens in, -1 when it cannot be opened. */
  datatype Report = Report(id: int, isBreakpoint: bool, enabled: bool, disposition: bool, cont: bool, lnum: int, opens: int)

  function SignId(id: int): int { id + 1 }

  function Key(r: Rec): (int, int) { (r.buf, SignId(r.id)) }

  // ---------- The editor's side ----------

  function LastSign(e: Editor, buf: int): nat {
    if buf in e.lastSign then e.lastSign[buf] else 0
  }

  function AddSign(e: Editor, r: Rec): Editor {
    if r.buf in e.live && SignId(r.id) > 0 && r.typenr > 0 && r.lnum > 0
    then e.(signs := e.signs[Key(r) := Sign(r.typenr, r.lnum)]) else e
  }

  function DelSign(e: Editor, r: Rec): Editor {
    if r.buf in e.live && SignId(r.id) > 0 then e.(signs := e.signs - {Key(r)}) else e
  }

  /** A sign type for the record's state: the one defined before for this state, or a new one; -1 on failure. */
  function DefineSign(e: Editor, r: Rec): (Editor, Rec) {
    if r.enabled && r.typenrEn > 0 then (e, r.(typenr := r.typenrEn))
    else if !r.enabled && r.typenrDis > 0 then (e, r.(typenr := r.typenrDis))
    else if r.buf !in e.live || r.id <= 0 then (e, r.(typenr := -1))
    else
      var n := LastSign(e, r.buf) + 1;
      (e.(lastSign := e.lastSign[r.buf := n]),
       if r.enabled then r.(typenr := n, typenrEn := n) else r.(typenr := n, typenrDis := n))
  }

  // ---------- Processing the table ----------

  /** The old records not reported yet, the new table so far (newest first), and the editor. */
  datatype State = State(olds: seq<Rec>, news: seq<Rec>, e: Editor)

  function Find(rs: seq<Rec>, id: int): (k: nat)
    ensures k <= |rs|
    ensures k < |rs| ==> rs[k].id == id
  {
    if rs == [] || rs[0].id == id then 0 else Find(rs[1..], id) + 1
  }

  /** A known breakpoint: its flags are updated, and its sign too when it was enabled or disabled. */
  function Update(e: Editor, p: Rec, rep: Report): (Editor, Rec) {
    var (e1, p1) :=
      if rep.enabled == p.enabled then (e, p)
      else
        var (ed, pd) := DefineSign(e, p.(enabled := rep.enabled));
        if pd.typenr == -1 then (ed, pd) else (AddSign(DelSign(ed, pd), pd), pd);
    (e1, p1.(disposition := rep.disposition, cont := rep.cont))
  }

  /** A new breakpoint whose source file opened. */
  function Create(e: Editor, rep: Report): (Editor, Rec) {
    var r := Rec(rep.id, rep.enabled, rep.disposition, rep.cont, rep.opens, 0, -1, -1, rep.lnum);
    var (ed, rd) := DefineSign(e.(live := e.live + {rep.opens}), r);
    (if rd.typenr == -1 then ed else AddSign(ed, rd), rd)
  }

  function Process(st: State, rep: Report): State {
    var k := Find(st.olds, rep.id);
    if rep.id <= 0 || !rep.isBreakpoint then st
    else if k < |st.olds| then
      var (e, p) := Update(st.e, st.olds[k], rep);
      State(Without(st.olds, k), [p] + st.news, e)
    else if rep.lnum > 0 && rep.opens > 0 then
      var (e, r) := Create(st.e, rep);
      State(st.olds, [r] + st.news, e)
    else st
  }

  function ProcessAll(st: State, reps: seq<Report>): State {
    if reps == [] then st else Process(ProcessAll(st, reps[..|reps| - 1]), reps[|reps| - 1])
  }

  /** Signs of the records GDB did not report any more. */
  function Unlite(e: Editor, rs: seq<Rec>): Editor
    decreases rs
  {
    if rs == [] then e else Unlite(DelSign(e, rs[0]), rs[1..])
  }

  function Reconcile(table: seq<Rec>, e: Editor, reps: seq<Report>): (seq<Rec>, Editor) {
    var st := ProcessAll(State(table, [], e), reps);
    (st.news, Unlite(st.e, st.olds))
  }

  /** A buffer is wiped out: Vim drops its signs, and its records go. */
  function WithoutBuffer(rs: seq<Rec>, buf: int): seq<Rec> {
    if rs == [] then []
    else if rs[0].buf == buf then WithoutBuffer(rs[1..], buf)
    else [rs[0]] + WithoutBuffer(rs[1..], buf)
  }

  function Kill(e: Editor, buf: int): Editor {
    e.(live := e.live - {buf}, signs := map k | k in e.signs && k.0 != buf :: e.signs[k])
  }

  // ---------- The table and the editor are in step ----------

  /** The record's sign is the one for its state, and the editor shows it. */
  ghost predicate Shown(r: Rec, e: Editor) {
    && 0 < r.id && 0 < r.lnum && r.buf in e.live
    && 0 < r.typenr == (if r.enabled then r.typenrEn else r.typenrDis)
    && Key(r) in e.signs && e.signs[Key(r)] == Sign(r.typenr, r.lnum)
  }

  ghost predicate AllShown(rs: seq<Rec>, e: Editor) {
    forall i :: 0 <= i < |rs| ==> Shown(rs[i], e)
  }

  ghost predicate DistinctIds(rs: seq<Rec>) {
    forall i, j :: 0 <= i < j < |rs| ==> rs[i].id != rs[j].id
  }

  ghost predicate Owns(rs: seq<Rec>, key: (int, int)) {
    exists i :: 0 <= i < |rs| && Key(rs[i]) == key
  }

  /** One sign for each record, and no other breakpoint sign. */
  ghost predicate InStep(rs: seq<Rec>, e: Editor) {
    && DistinctIds(rs) && AllShown(rs, e)
    && forall key :: key in e.signs ==> Owns(rs, key)
  }

  /** The same while the old table is being emptied. */
  ghost predicate InStepTwo(st: State) {
    && DistinctIds(st.olds) && DistinctIds(st.news)
    && (forall i, j :: 0 <= i < |st.olds| && 0 <= j < |st.news| ==> st.olds[i].id != st.news[j].id)
    && AllShown(st.olds, st.e) && AllShown(st.news, st.e)
    && forall key :: key in st.e.signs ==> Owns(st.olds, key) || Owns(st.news, key)
  }

  // ---------- What the new table must be ----------

  datatype Shape = Shape(id: int, enabled: bool, disposition: bool, cont: bool, buf: int, lnum: int)

  function ShapeOf(r: Rec): Shape {
    Shape(r.id, r.enabled, r.disposition, r.cont, r.buf, r.lnum)
  }

  function Shapes(rs: seq<Rec>): seq<Shape> {
    seq(|rs|, i requires 0 <= i < |rs| => ShapeOf(rs[i]))
  }

  function Lookup(rs: seq<Rec>, id: int): Option<Rec> {
    var k := Find(rs, id);
    if k < |rs| then Some(rs[k]) else None
  }

  /** A report makes a record when its breakpoint was known before or its file opens. */
  function Expected(table: seq<Rec>, rep: Report): Option<Shape> {
    if rep.id <= 0 || !rep.isBreakpoint then None
    else
      match Lookup(table, rep.id)
      case Some(p) => Some(Shape(rep.id, rep.enabled, rep.disposition, rep.cont, p.buf, p.lnum))
      case None =>
        if rep.lnum > 0 && rep.opens > 0
        then Some(Shape(rep.id, rep.enabled, rep.disposition, rep.cont, rep.opens, rep.lnum)) else None
  }

  /** Some report of breakpoint `id` makes a record. */
  predicate Made(table: seq<Rec>, reps: seq<Report>, id: int)
    decreases reps
  {
    reps != []
    && var n := |reps| - 1;
       (reps[n].id == id && Expected(table, reps[n]) != None) || Made(table, reps[..n], id)
  }

  /** One record for each breakpoint, from its first such report; the last one first. */
  function ExpectedAll(table: seq<Rec>, reps: seq<Report>): seq<Shape>
    decreases reps
  {
    if reps == [] then []
    else
      var n := |reps| - 1;
      var shape := Expected(table, reps[n]);
      (if shape == None || Made(table, reps[..n], reps[n].id) then [] else [shape.value]) + ExpectedAll(table, reps[..n])
  }

  /** The file of the report opens though an earlier report made a record of the breakpoint. */
  predicate Repeats(table: seq<Rec>, before: seq<Report>, rep: Report) {
    rep.id > 0 && rep.isBreakpoint && rep.lnum > 0 && rep.opens > 0 && Made(table, before, rep.id)
  }

  predicate NoRepeats(table: seq<Rec>, reps: seq<Report>)
    decreases reps
  {
    reps == []
    || var n := |reps| - 1; NoRepeats(table, reps[..n]) && !Repeats(table, reps[..n], reps[n])
  }

  ghost predicate DistinctReports(reps: seq<Report>) {
    forall i, j :: 0 <= i < j < |reps| && reps[i].isBreakpoint && reps[j].isBreakpoint ==> reps[i].id != reps[j].id
  }
}

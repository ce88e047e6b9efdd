// Reconciling keeps the signs in step and makes exactly the table that was reported.

module BreakpointTheorems {
  import opened Prelude
  import opened BreakpointSpec

  // ---------- One record and its sign ----------

  /** Signs other than one key, and live buffers, are as before. */
  ghost predicate OnlyKey(e: Editor, e': Editor, key: (int, int)) {
    && e.live <= e'.live
    && (forall k :: k in e'.signs ==> k in e.signs || k == key)
    && (forall k {:trigger k in e'.signs} :: k in e.signs && k != key ==> k in e'.signs && e'.signs[k] == e.signs[k])
  }

  lemma {:induction false} UpdateShows(e: Editor, p: Rec, rep: Report)
    requires Shown(p, e) && rep.id == p.id
    ensures var (e', p') := Update(e, p, rep);
            && Shown(p', e') && OnlyKey(e, e', Key(p))
            && ShapeOf(p') == Shape(rep.id, rep.enabled, rep.disposition, rep.cont, p.buf, p.lnum)
  {
    if rep.enabled != p.enabled {
      SwitchShows(e, p);
      var (ed, pd) := DefineSign(e, p.(enabled := !p.enabled));
      var e', p' := AddSign(DelSign(ed, pd), pd), pd.(disposition := rep.disposition, cont := rep.cont);
      assert Update(e, p, rep) == (e', p');
      hide AddSign, DelSign, DefineSign;
    }
  }

  /** The sign of a record that is enabled or disabled. */
  lemma {:induction false} SwitchShows(e: Editor, p: Rec)
    requires Shown(p, e)
    ensures var (ed, pd) := DefineSign(e, p.(enabled := !p.enabled));
            && pd.typenr != -1 && Shown(pd, AddSign(DelSign(ed, pd), pd))
            && OnlyKey(e, AddSign(DelSign(ed, pd), pd), Key(p))
            && ShapeOf(pd) == ShapeOf(p).(enabled := !p.enabled)
  {
    var (ed, pd) := DefineSign(e, p.(enabled := !p.enabled));
    assert ed.live == e.live && ed.signs == e.signs && Key(pd) == Key(p) && pd.typenr > 0;
    hide DefineSign;
    var signs := e.signs - {Key(p)};
    assert AddSign(DelSign(ed, pd), pd).signs == signs[Key(p) := Sign(pd.typenr, pd.lnum)];
  }

  lemma {:induction false} CreateShows(e: Editor, rep: Report)
    requires 0 < rep.id && 0 < rep.lnum
    ensures var (e', r) := Create(e, rep);
            && Shown(r, e') && OnlyKey(e, e', (rep.opens, SignId(rep.id)))
            && ShapeOf(r) == Shape(rep.id, rep.enabled, rep.disposition, rep.cont, rep.opens, rep.lnum)
  {
  }

  lemma {:induction false} OthersShown(rs: seq<Rec>, e: Editor, e': Editor, key: (int, int))
    requires AllShown(rs, e) && OnlyKey(e, e', key)
    requires forall i :: 0 <= i < |rs| ==> Key(rs[i]) != key
    ensures AllShown(rs, e')
  {
    forall i | 0 <= i < |rs|
      ensures Shown(rs[i], e')
    {
      assert Shown(rs[i], e);
      assert Key(rs[i]) in e'.signs;
    }
  }

  lemma {:induction false} FindNone(rs: seq<Rec>, id: int)
    ensures Find(rs, id) == |rs| <==> forall i :: 0 <= i < |rs| ==> rs[i].id != id
  {
    if rs == [] || rs[0].id == id {
    } else {
      FindNone(rs[1..], id);
      assert forall i :: 0 < i < |rs| ==> rs[i] == rs[1..][i - 1];
    }
  }

  /** A record taken out of a list: the others keep their ids and their signs. */
  lemma {:induction false} TakenOut(rs: seq<Rec>, k: nat, e: Editor)
    requires k < |rs| && DistinctIds(rs) && AllShown(rs, e)
    ensures var rest := Without(rs, k);
            && DistinctIds(rest) && AllShown(rest, e)
            && (forall i :: 0 <= i < |rest| ==> rest[i].id != rs[k].id && rest[i] in rs)
            && (forall key :: Owns(rs, key) && key != Key(rs[k]) ==> Owns(rest, key))
  {
    var rest := Without(rs, k);
    assert forall i :: 0 <= i < |rest| ==> rest[i] == if i < k then rs[i] else rs[i + 1];
    forall key | Owns(rs, key) && key != Key(rs[k])
      ensures Owns(rest, key)
    {
      var i :| 0 <= i < |rs| && Key(rs[i]) == key;
      assert Key(rest[if i < k then i else i - 1]) == key;
    }
  }

  lemma {:induction false} PutFirst(r: Rec, rs: seq<Rec>, e: Editor)
    requires DistinctIds(rs) && AllShown(rs, e) && Shown(r, e)
    requires forall i :: 0 <= i < |rs| ==> rs[i].id != r.id
    ensures DistinctIds([r] + rs) && AllShown([r] + rs, e)
    ensures Owns([r] + rs, Key(r))
    ensures forall key :: Owns(rs, key) ==> Owns([r] + rs, key)
  {
    assert ([r] + rs)[0] == r;
    forall key | Owns(rs, key)
      ensures Owns([r] + rs, key)
    {
      var i :| 0 <= i < |rs| && Key(rs[i]) == key;
      assert Key(([r] + rs)[i + 1]) == key;
    }
  }

  // ---------- One report ----------

  ghost predicate ApartIds(rs: seq<Rec>, qs: seq<Rec>) {
    forall i, j :: 0 <= i < |rs| && 0 <= j < |qs| ==> rs[i].id != qs[j].id
  }

  lemma {:induction false} MovedIds(rs: seq<Rec>, k: nat, r: Rec, qs: seq<Rec>)
    requires ApartIds(rs, qs) && DistinctIds(rs) && k < |rs| && r.id == rs[k].id
    ensures ApartIds(Without(rs, k), [r] + qs) && forall j :: 0 <= j < |qs| ==> qs[j].id != r.id
  {
    var rest := Without(rs, k);
    assert forall i :: 0 <= i < |rest| ==> rest[i] == if i < k then rs[i] else rs[i + 1];
  }

  lemma {:induction false} OtherKeys(rs: seq<Rec>, k: nat)
    requires k < |rs| && DistinctIds(rs)
    ensures forall i :: 0 <= i < |Without(rs, k)| ==> Key(Without(rs, k)[i]) != Key(rs[k])
  {
  }

  lemma {:induction false} ApartKeys(rs: seq<Rec>, r: Rec)
    requires forall i :: 0 <= i < |rs| ==> rs[i].id != r.id
    ensures forall i :: 0 <= i < |rs| ==> Key(rs[i]) != Key(r)
  {
  }

  lemma {:induction false} ProcessKnown(st: State, rep: Report)
    requires InStepTwo(st) && rep.id > 0 && rep.isBreakpoint && Find(st.olds, rep.id) < |st.olds|
    ensures InStepTwo(Process(st, rep))
  {
    var k := Find(st.olds, rep.id);
    var p := st.olds[k];
    var (e', p') := Update(st.e, p, rep);
    var rest := Without(st.olds, k);
    assert Shown(p, st.e) && ApartIds(st.olds, st.news);
    assert Process(st, rep) == State(rest, [p'] + st.news, e');
    UpdateShows(st.e, p, rep);
    hide Update, AllShown, Shown, DistinctIds, Owns, Find, Without, Process, ApartIds, OnlyKey;
    TakenOut(st.olds, k, st.e);
    MovedIds(st.olds, k, p', st.news);
    OtherKeys(st.olds, k);
    ApartKeys(st.news, p');
    OthersShown(rest, st.e, e', Key(p));
    OthersShown(st.news, st.e, e', Key(p));
    PutFirst(p', st.news, e');
    KeysOwned(st, e', p', rest);
    InStepAgain(rest, [p'] + st.news, e');
  }

  lemma {:induction false} InStepAgain(olds: seq<Rec>, news: seq<Rec>, e: Editor)
    requires DistinctIds(olds) && DistinctIds(news) && ApartIds(olds, news) && AllShown(olds, e) && AllShown(news, e)
    requires forall key :: key in e.signs ==> Owns(olds, key) || Owns(news, key)
    ensures InStepTwo(State(olds, news, e))
  {
    hide DistinctIds, AllShown, Owns;
  }

  lemma {:induction false} KeysOwned(st: State, e': Editor, r: Rec, rest: seq<Rec>)
    requires forall key :: key in st.e.signs ==> Owns(st.olds, key) || Owns(st.news, key)
    requires OnlyKey(st.e, e', Key(r))
    requires forall key :: Owns(st.olds, key) && key != Key(r) ==> Owns(rest, key)
    requires Owns([r] + st.news, Key(r)) && forall key :: Owns(st.news, key) ==> Owns([r] + st.news, key)
    ensures forall key :: key in e'.signs ==> Owns(rest, key) || Owns([r] + st.news, key)
  {
    hide Owns;
  }

  lemma {:induction false} ProcessNew(st: State, rep: Report)
    requires InStepTwo(st) && rep.id > 0 && rep.isBreakpoint && Find(st.olds, rep.id) == |st.olds|
    requires rep.lnum > 0 && rep.opens > 0
    requires forall j :: 0 <= j < |st.news| ==> st.news[j].id != rep.id
    ensures InStepTwo(Process(st, rep))
  {
    FindNone(st.olds, rep.id);
    CreateShows(st.e, rep);
    var (e', r) := Create(st.e, rep);
    assert Process(st, rep) == State(st.olds, [r] + st.news, e');
    hide Create, Process, AllShown, Shown, DistinctIds, Owns, Find;
    OthersShown(st.olds, st.e, e', Key(r));
    OthersShown(st.news, st.e, e', Key(r));
    PutFirst(r, st.news, e');
    KeysOwned(st, e', r, st.olds);
  }

  /** Every report keeps the two tables and the signs in step, if its breakpoint was not reported before. */
  lemma {:induction false} ProcessKeepsInStep(st: State, rep: Report)
    requires InStepTwo(st)
    requires rep.isBreakpoint ==> forall j :: 0 <= j < |st.news| ==> st.news[j].id != rep.id
    ensures InStepTwo(Process(st, rep))
  {
    if rep.id > 0 && rep.isBreakpoint {
      if Find(st.olds, rep.id) < |st.olds| {
        ProcessKnown(st, rep);
      } else if rep.lnum > 0 && rep.opens > 0 {
        ProcessNew(st, rep);
      }
    }
  }

  // ---------- The whole table ----------

  lemma {:induction false} LookupOther(rs: seq<Rec>, k: nat, id: int)
    requires k < |rs| && rs[k].id != id
    ensures Lookup(Without(rs, k), id) == Lookup(rs, id)
  {
    if k == 0 {
      assert rs[..0] + rs[1..] == rs[1..];
    } else if rs[0].id != id {
      LookupOther(rs[1..], k - 1, id);
      assert (Without(rs, k))[1..] == rs[1..][..k - 1] + rs[1..][k..];
    }
  }

  /** What is known after some reports without a repetition. */
  ghost predicate SoFar(table: seq<Rec>, reps: seq<Report>, st: State) {
    && InStepTwo(st)
    && (forall id :: Made(table, reps, id) <==> HasId(st.news, id))
    && (forall id :: !Made(table, reps, id) ==> Lookup(st.olds, id) == Lookup(table, id))
    && (forall i :: 0 <= i < |st.olds| ==> !Made(table, reps, st.olds[i].id))
    && Shapes(st.news) == ExpectedAll(table, reps)
  }

  ghost predicate HasId(rs: seq<Rec>, id: int) {
    exists i :: 0 <= i < |rs| && rs[i].id == id
  }

  lemma {:induction false} HasIdFirst(r: Rec, rs: seq<Rec>, id: int)
    ensures HasId([r] + rs, id) <==> r.id == id || HasId(rs, id)
  {
    assert ([r] + rs)[0] == r;
    if HasId(rs, id) {
      var i :| 0 <= i < |rs| && rs[i].id == id;
      assert ([r] + rs)[i + 1].id == id;
    }
  }

  lemma {:induction false} ShapesOfFirst(r: Rec, rs: seq<Rec>)
    ensures Shapes([r] + rs) == [ShapeOf(r)] + Shapes(rs)
  {
  }

  lemma {:induction false} MadeMore(table: seq<Rec>, reps: seq<Report>, n: nat)
    requires |reps| == n + 1
    ensures forall id :: Made(table, reps, id)
                         <==> Made(table, reps[..n], id) || (reps[n].id == id && Expected(table, reps[n]) != None)
  {
  }

  // A report of a breakpoint in the old table.

  lemma {:induction false} StepKnown(table: seq<Rec>, reps: seq<Report>, n: nat, st: State, k: nat)
    requires |reps| == n + 1 && SoFar(table, reps[..n], st)
    requires reps[n].id > 0 && reps[n].isBreakpoint && k == Find(st.olds, reps[n].id) && k < |st.olds|
    ensures SoFar(table, reps, Process(st, reps[n]))
  {
    hide Update, InStepTwo, ExpectedAll, Shapes;
    ProcessKnown(st, reps[n]);
    StepKnownShapes(table, reps, n, st, k);
    StepKnownIds(table, reps, n, st, k, Update(st.e, st.olds[k], reps[n]).1);
  }

  lemma {:induction false} KnownIsExpected(table: seq<Rec>, reps: seq<Report>, n: nat, st: State, k: nat)
    requires |reps| == n + 1 && SoFar(table, reps[..n], st)
    requires reps[n].id > 0 && reps[n].isBreakpoint && k == Find(st.olds, reps[n].id) && k < |st.olds|
    ensures !Made(table, reps[..n], reps[n].id) && Lookup(table, reps[n].id) == Some(st.olds[k])
    ensures Expected(table, reps[n]) != None
  {
    hide Made, InStepTwo, ExpectedAll, Shapes;
    assert st.olds[k].id == reps[n].id;
  }

  lemma {:induction false} StepKnownIds(table: seq<Rec>, reps: seq<Report>, n: nat, st: State, k: nat, p: Rec)
    requires |reps| == n + 1 && SoFar(table, reps[..n], st) && p.id == reps[n].id
    requires reps[n].id > 0 && reps[n].isBreakpoint && k == Find(st.olds, reps[n].id) && k < |st.olds|
    ensures var rest, news := Without(st.olds, k), [p] + st.news;
            && (forall id :: Made(table, reps, id) <==> HasId(news, id))
            && (forall id :: !Made(table, reps, id) ==> Lookup(rest, id) == Lookup(table, id))
            && (forall i :: 0 <= i < |rest| ==> !Made(table, reps, rest[i].id))
  {
    KnownIsExpected(table, reps, n, st, k);
    KnownMade(table, reps, n, st, p);
    KnownLeft(table, reps, n, st, k);
  }

  lemma {:induction false} KnownMade(table: seq<Rec>, reps: seq<Report>, n: nat, st: State, p: Rec)
    requires |reps| == n + 1 && SoFar(table, reps[..n], st) && p.id == reps[n].id
    requires Expected(table, reps[n]) != None
    ensures forall id :: Made(table, reps, id) <==> HasId([p] + st.news, id)
  {
    MadeMore(table, reps, n);
    hide ExpectedAll, Shapes, InStepTwo, Lookup, Made, HasId, Expected;
    forall id ensures Made(table, reps, id) <==> HasId([p] + st.news, id) {
      HasIdFirst(p, st.news, id);
    }
  }

  lemma {:induction false} KnownLeft(table: seq<Rec>, reps: seq<Report>, n: nat, st: State, k: nat)
    requires |reps| == n + 1 && SoFar(table, reps[..n], st) && Expected(table, reps[n]) != None
    requires k < |st.olds| && st.olds[k].id == reps[n].id
    ensures var rest := Without(st.olds, k);
            && (forall id :: !Made(table, reps, id) ==> Lookup(rest, id) == Lookup(table, id))
            && (forall i :: 0 <= i < |rest| ==> !Made(table, reps, rest[i].id))
  {
    var rest := Without(st.olds, k);
    MadeMore(table, reps, n);
    RestOf(st, k);
    hide ExpectedAll, Shapes, InStepTwo, Lookup, Made, HasId, Expected, Without;
    forall id | !Made(table, reps, id)
      ensures Lookup(rest, id) == Lookup(table, id)
    {
      LookupOther(st.olds, k, id);
    }
  }

  lemma {:induction false} RestOf(st: State, k: nat)
    requires InStepTwo(st) && k < |st.olds|
    ensures var rest := Without(st.olds, k);
            forall i :: 0 <= i < |rest| ==> rest[i].id != st.olds[k].id
                                            && rest[i] == if i < k then st.olds[i] else st.olds[i + 1]
  {
    hide AllShown, Owns;
  }

  lemma {:induction false} StepKnownShapes(table: seq<Rec>, reps: seq<Report>, n: nat, st: State, k: nat)
    requires |reps| == n + 1 && SoFar(table, reps[..n], st)
    requires reps[n].id > 0 && reps[n].isBreakpoint && k == Find(st.olds, reps[n].id) && k < |st.olds|
    ensures Shapes(Process(st, reps[n]).news) == ExpectedAll(table, reps)
    ensures Update(st.e, st.olds[k], reps[n]).1.id == reps[n].id
  {
    var rep := reps[n];
    KnownIsExpected(table, reps, n, st, k);
    assert Shown(st.olds[k], st.e);
    hide Update, Made;
    UpdateShows(st.e, st.olds[k], rep);
    ShapesOfFirst(Update(st.e, st.olds[k], rep).1, st.news);
  }

  // A report of a breakpoint that no record was made of.

  lemma {:induction false} UnmadeIsNew(table: seq<Rec>, reps: seq<Report>, n: nat, st: State)
    requires |reps| == n + 1 && SoFar(table, reps[..n], st)
    requires Find(st.olds, reps[n].id) == |st.olds| && !Made(table, reps[..n], reps[n].id)
    ensures Lookup(table, reps[n].id) == None
    ensures forall i :: 0 <= i < |st.olds| ==> st.olds[i].id != reps[n].id
    ensures forall j :: 0 <= j < |st.news| ==> st.news[j].id != reps[n].id
    ensures Create(st.e, reps[n]).1.id == reps[n].id
  {
    hide Made, InStepTwo, ExpectedAll, Shapes;
    FindNone(st.olds, reps[n].id);
    assert !HasId(st.news, reps[n].id);
  }

  lemma {:induction false} StepNew(table: seq<Rec>, reps: seq<Report>, n: nat, st: State)
    requires |reps| == n + 1 && SoFar(table, reps[..n], st)
    requires reps[n].id > 0 && reps[n].isBreakpoint && reps[n].lnum > 0 && reps[n].opens > 0
    requires Find(st.olds, reps[n].id) == |st.olds| && !Made(table, reps[..n], reps[n].id)
    ensures SoFar(table, reps, Process(st, reps[n]))
  {
    var rep := reps[n];
    UnmadeIsNew(table, reps, n, st);
    assert Expected(table, rep) != None;
    StepNewShapes(table, reps, n, st);
    MadeMore(table, reps, n);
    hide Create, InStepTwo, Shapes, Lookup, Find, Without, ExpectedAll, Made, HasId, Expected;
    ProcessNew(st, rep);
    forall id ensures Made(table, reps, id) <==> HasId(Process(st, rep).news, id) {
      HasIdFirst(Create(st.e, rep).1, st.news, id);
    }
  }

  lemma {:induction false} StepNewShapes(table: seq<Rec>, reps: seq<Report>, n: nat, st: State)
    requires |reps| == n + 1 && Shapes(st.news) == ExpectedAll(table, reps[..n])
    requires reps[n].id > 0 && reps[n].isBreakpoint && reps[n].lnum > 0 && reps[n].opens > 0
    requires Find(st.olds, reps[n].id) == |st.olds| && !Made(table, reps[..n], reps[n].id)
    requires Lookup(table, reps[n].id) == None
    ensures Shapes(Process(st, reps[n]).news) == ExpectedAll(table, reps)
  {
    CreateShows(st.e, reps[n]);
    hide Made;
    ShapesOfFirst(Create(st.e, reps[n]).1, st.news);
  }

  // A report that changes nothing.

  lemma {:induction false} StepNothing(table: seq<Rec>, reps: seq<Report>, n: nat, st: State)
    requires |reps| == n + 1 && SoFar(table, reps[..n], st) && Process(st, reps[n]) == st
    requires Expected(table, reps[n]) == None || Made(table, reps[..n], reps[n].id)
    ensures SoFar(table, reps, st)
  {
    MadeMore(table, reps, n);
    AppendNone(ExpectedAll(table, reps[..n]));
    assert ExpectedAll(table, reps) == ExpectedAll(table, reps[..n]);
    hide InStepTwo, Made, ExpectedAll, Shapes, Lookup, HasId, Expected;
  }

  lemma {:induction false} StepSoFar(table: seq<Rec>, reps: seq<Report>, n: nat, st: State)
    requires |reps| == n + 1 && SoFar(table, reps[..n], st) && !Repeats(table, reps[..n], reps[n])
    ensures SoFar(table, reps, Process(st, reps[n]))
  {
    hide SoFar, Made, Update, Create, Without;
    var rep := reps[n];
    if rep.id > 0 && rep.isBreakpoint && Find(st.olds, rep.id) < |st.olds| {
      StepKnown(table, reps, n, st, Find(st.olds, rep.id));
    } else if rep.id > 0 && rep.isBreakpoint && rep.lnum > 0 && rep.opens > 0 {
      StepNew(table, reps, n, st);
    } else {
      if rep.id > 0 && rep.isBreakpoint && !Made(table, reps[..n], rep.id) {
        UnmadeIsNew(table, reps, n, st);
      }
      StepNothing(table, reps, n, st);
    }
  }

  lemma {:induction false} AllSoFar(table: seq<Rec>, e: Editor, reps: seq<Report>)
    requires InStep(table, e) && NoRepeats(table, reps)
    ensures SoFar(table, reps, ProcessAll(State(table, [], e), reps))
    decreases reps
  {
    if reps == [] {
    } else {
      var n := |reps| - 1;
      AllSoFar(table, e, reps[..n]);
      StepSoFar(table, reps, n, ProcessAll(State(table, [], e), reps[..n]));
    }
  }

  // A repetition.

  /** A second record of the same breakpoint is made. */
  lemma {:induction false} StepRepeats(table: seq<Rec>, reps: seq<Report>, n: nat, st: State)
    requires |reps| == n + 1 && SoFar(table, reps[..n], st) && Repeats(table, reps[..n], reps[n])
    ensures !DistinctIds(Process(st, reps[n]).news)
  {
    var rep := reps[n];
    FindNone(st.olds, rep.id);
    CreatedId(st.e, rep);
    assert HasId(st.news, rep.id);
    hide Made, Create, Update, InStepTwo, Shapes, Lookup;
    SecondId(Create(st.e, rep).1, st.news);
  }

  lemma {:induction false} CreatedId(e: Editor, rep: Report)
    ensures Create(e, rep).1.id == rep.id
  {
  }

  lemma {:induction false} SecondId(r: Rec, rs: seq<Rec>)
    requires HasId(rs, r.id)
    ensures !DistinctIds([r] + rs)
  {
    var j :| 0 <= j < |rs| && rs[j].id == r.id;
    assert ([r] + rs)[0] == r && ([r] + rs)[j + 1] == rs[j];
  }

  lemma {:induction false} StaysRepeated(st: State, rep: Report)
    requires !DistinctIds(st.news)
    ensures !DistinctIds(Process(st, rep).news)
  {
    var news := Process(st, rep).news;
    var i, j :| 0 <= i < j < |st.news| && st.news[i].id == st.news[j].id;
    if news != st.news {
      assert news[i + 1] == st.news[i] && news[j + 1] == st.news[j];
    }
  }

  lemma {:induction false} Repeated(table: seq<Rec>, e: Editor, reps: seq<Report>)
    requires InStep(table, e) && !NoRepeats(table, reps)
    ensures !DistinctIds(ProcessAll(State(table, [], e), reps).news)
    decreases reps
  {
    var n := |reps| - 1;
    var st := ProcessAll(State(table, [], e), reps[..n]);
    hide Process, DistinctIds, SoFar, Repeats, InStep;
    if NoRepeats(table, reps[..n]) {
      AllSoFar(table, e, reps[..n]);
      StepRepeats(table, reps, n, st);
    } else {
      Repeated(table, e, reps[..n]);
      StaysRepeated(st, reps[n]);
    }
  }

  lemma {:induction false} MadeIsReported(table: seq<Rec>, reps: seq<Report>, id: int)
    requires Made(table, reps, id)
    ensures exists i :: 0 <= i < |reps| && reps[i].isBreakpoint && reps[i].id == id
    decreases reps
  {
    var n := |reps| - 1;
    if reps[n].id == id && Expected(table, reps[n]) != None {
      assert reps[n].isBreakpoint;
    } else {
      MadeIsReported(table, reps[..n], id);
      var i :| 0 <= i < n && reps[..n][i].isBreakpoint && reps[..n][i].id == id;
      assert reps[i].isBreakpoint;
    }
  }

  /** Reports of distinct breakpoints repeat nothing. */
  lemma {:induction false} DistinctDoNotRepeat(table: seq<Rec>, reps: seq<Report>)
    requires DistinctReports(reps)
    ensures NoRepeats(table, reps)
    decreases reps
  {
    if reps == [] {
    } else {
      var n := |reps| - 1;
      hide Made;
      assert forall i :: 0 <= i < n ==> reps[..n][i] == reps[i];
      DistinctDoNotRepeat(table, reps[..n]);
      if Repeats(table, reps[..n], reps[n]) {
        MadeIsReported(table, reps[..n], reps[n].id);
      }
    }
  }

  /** Taking down the sign of an old record leaves the others as they are. */
  lemma {:induction false} UnliteOne(st: State)
    requires InStepTwo(st) && st.olds != []
    ensures InStepTwo(State(st.olds[1..], st.news, DelSign(st.e, st.olds[0])))
  {
    var e' := DelSign(st.e, st.olds[0]);
    assert Shown(st.olds[0], st.e);
    assert st.olds[..0] + st.olds[1..] == st.olds[1..];
    TakenOut(st.olds, 0, st.e);
    OthersShown(st.olds[1..], st.e, e', Key(st.olds[0]));
    OthersShown(st.news, st.e, e', Key(st.olds[0]));
  }

  lemma {:induction false} UnliteAll(st: State)
    requires InStepTwo(st)
    ensures InStep(st.news, Unlite(st.e, st.olds))
    decreases |st.olds|
  {
    if st.olds == [] {
    } else {
      UnliteOne(st);
      UnliteAll(State(st.olds[1..], st.news, DelSign(st.e, st.olds[0])));
    }
  }

  /**
   * Reconciling leaves ids distinct and exactly the signs of the new table in the editor if and only if no
   * file opens for a breakpoint that an earlier report made a record of. Then the table has exactly one
   * record for each reported breakpoint that was known or whose file opened, with the reported flags.
   */
  lemma {:induction false} Reconciled(table: seq<Rec>, e: Editor, reps: seq<Report>)
    requires InStep(table, e)
    ensures var (table', e') := Reconcile(table, e, reps);
            && (InStep(table', e') <==> NoRepeats(table, reps))
            && (NoRepeats(table, reps) ==> Shapes(table') == ExpectedAll(table, reps))
  {
    hide ProcessAll, Made, NoRepeats, Shapes, ExpectedAll, Unlite;
    if NoRepeats(table, reps) {
      AllSoFar(table, e, reps);
      UnliteAll(ProcessAll(State(table, [], e), reps));
    } else {
      Repeated(table, e, reps);
    }
  }

  /** A breakpoint reported twice, when it was not known, gets two records. */
  lemma {:induction false} RepeatedReport(e: Editor, rep: Report)
    requires rep.isBreakpoint && rep.id > 0 && rep.lnum > 0 && rep.opens > 0
    ensures Shapes(Reconcile([], e, [rep, rep]).0) == [ShapeOf(Create(e, rep).1), ShapeOf(Create(e, rep).1)]
    ensures !InStep(Reconcile([], e, [rep, rep]).0, Reconcile([], e, [rep, rep]).1)
  {
    CreateShows(e, rep);
    var st0 := State([], [], e);
    assert [rep, rep][..1] == [rep] && [rep][..0] == [];
    var st1 := Process(st0, rep);
    assert ProcessAll(st0, [rep]) == Process(ProcessAll(st0, []), rep) == st1;
    CreateShows(st1.e, rep);
    var st2 := Process(st1, rep);
    assert ProcessAll(st0, [rep, rep]) == st2;
    assert st2.news[0].id == st2.news[1].id;
  }

  /** Wiping out a buffer takes away its records and its signs together. */
  lemma {:induction false} KillKeepsInStep(rs: seq<Rec>, e: Editor, buf: int)
    requires InStep(rs, e)
    ensures InStep(WithoutBuffer(rs, buf), Kill(e, buf))
  {
    var kept := WithoutBuffer(rs, buf);
    WithoutKeepsRest(rs, buf);
    forall i | 0 <= i < |kept|
      ensures Shown(kept[i], Kill(e, buf))
    {
      assert kept[i] in rs;
    }
    forall key | key in Kill(e, buf).signs
      ensures Owns(kept, key)
    {
      assert Owns(rs, key);
      var i :| 0 <= i < |rs| && Key(rs[i]) == key;
      assert rs[i] in kept;
    }
  }

  lemma {:induction false} WithoutKeepsRest(rs: seq<Rec>, buf: int)
    ensures forall r :: r in WithoutBuffer(rs, buf) <==> r in rs && r.buf != buf
    ensures DistinctIds(rs) ==> DistinctIds(WithoutBuffer(rs, buf))
  {
    if rs == [] {
    } else {
      WithoutKeepsRest(rs[1..], buf);
      assert forall r :: r in rs <==> r == rs[0] || r in rs[1..];
    }
  }
}

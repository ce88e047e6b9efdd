// Whole runs of the commands that clewn gives itself, from the moment the buffer is opened.

module MirrorRuns {
  import opened Prelude
  import opened LineSpec
  import opened LineList
  import opened EditorLink
  import opened MirrorSync
  import opened MirrorCommands
  import opened Quoting

  /** Clewn's own commands, and the editor's events: what its user types and erases. */
  datatype Op =
    | Append(line: string)
    | Replace(line: string, lnum: int)
    | Clear
    | Typed(at: nat, text: string)
    | Erased(at: nat, nb: nat)

  /** The mirror's lines, and the editor's text. */
  datatype Session = Session(lines: seq<string>, text: string)

  const OPENED := Session([""], "\n")

  function Lines(ls: seq<string>, op: Op): seq<string> {
    match op
    case Append(line) => AppendLines(ls, FirstLine(line))
    case Replace(line, lnum) => if 1 <= lnum <= |ls| then ls[lnum - 1 := FirstLine(line)] else ls
    case Clear => []
    case Typed(at, text) => InsertLines(ls, at, text)
    case Erased(at, nb) => RemoveLines(ls, at, nb)
  }

  /** What the mirror tells the editor. */
  function Messages(ls: seq<string>, op: Op): seq<Function> {
    match op
    case Append(line) => Send(AppendMessage(ls, FirstLine(line)))
    case Replace(line, lnum) => if 1 <= lnum <= |ls| then ReplaceMessages(ls, FirstLine(line), lnum - 1) else []
    case Clear => ClearMessages(ls)
    case _ => []
  }

  /** What an event says was done to the editor's text. */
  function OwnChange(text: string, op: Op): string {
    match op
    case Typed(at, t) => if at <= |text| then Ins(text, at, t) else text
    case Erased(at, nb) => if at + nb <= |text| then Del(text, at, nb) else text
    case _ => text
  }

  function Step(s: Session, op: Op): Session {
    Session(Lines(s.lines, op), ApplyAll(OwnChange(s.text, op), Messages(s.lines, op)))
  }

  function Run(ops: seq<Op>): Session
    decreases ops
  {
    if ops == [] then OPENED else Step(Run(ops[..|ops| - 1]), ops[|ops| - 1])
  }

  predicate InStep(s: Session) {
    s.text == EditorText(s.lines)
  }

  /** The insertion of the command is short enough to be sent. */
  predicate IsSent(ls: seq<string>, op: Op) {
    match op
    case Append(line) => Fits(AppendMessage(ls, FirstLine(line)))
    case Replace(line, lnum) =>
      1 <= lnum <= |ls| ==> Fits(Insert(Start(ls, lnum - 1), Quote(FirstLine(line) + "\n\n")))
    case _ => true
  }

  /**
   * What can be typed: at the end of the text only a newline, into a cleared buffer no newline, and
   * elsewhere what the mirror does not refuse.
   */
  predicate TypedInStep(ls: seq<string>, at: nat, text: string) {
    || text == ""
    || (ls == [] && at == 0 && '\n' !in text)
    || (ls != [] && at < |Flatten(ls)| && !Refused(ls, at, text))
    || (ls != [] && at == |Flatten(ls)| && text == "\n")
  }

  /** What can be erased: part of a line, or a line with its newline when it is not the only one. */
  predicate ErasedInStep(ls: seq<string>, at: nat, nb: nat) {
    nb == 0 || (OneLineRange(ls, at, nb) && !(|ls| == 1 && nb == |ls[0]| + 1))
  }

  /** What keeps an editor in step. */
  predicate Good(ls: seq<string>, op: Op) {
    match op
    case Append(line) => IsSent(ls, op) && AppendsInStep(ls, FirstLine(line))
    case Replace(_, _) => IsSent(ls, op)
    case Clear => true
    case Typed(at, text) => TypedInStep(ls, at, text)
    case Erased(at, nb) => ErasedInStep(ls, at, nb)
  }

  /** The offsets of a command can be printed from an int; those of an event are in the editor's text. */
  predicate Possible(s: Session, op: Op) {
    match op
    case Append(_) => true
    case Replace(line, _) => IntSized(s.lines, FirstLine(line))
    case Clear => |Flatten(s.lines)| < INT_LIMIT
    case Typed(at, _) => at <= |s.text|
    case Erased(at, nb) => at + nb <= |s.text|
  }

  ghost predicate PossibleRun(ops: seq<Op>) {
    forall k :: 0 <= k < |ops| ==> Possible(Run(ops[..k]), ops[k])
  }

  lemma {:induction false} RunNext(ops: seq<Op>, op: Op)
    ensures Run(ops + [op]) == Step(Run(ops), op)
  {
    assert (ops + [op])[..|ops|] == ops;
  }

  lemma {:induction false} RunNewlineFree(ops: seq<Op>)
    ensures NewlineFree(Run(ops).lines)
    decreases ops
  {
    if ops == [] {
    } else {
      hide NewlineFree, Step;
      RunNewlineFree(ops[..|ops| - 1]);
      StepNewlineFree(Run(ops[..|ops| - 1]), ops[|ops| - 1]);
    }
  }

  lemma {:induction false} StepNewlineFree(s: Session, op: Op)
    requires NewlineFree(s.lines)
    ensures NewlineFree(Step(s, op).lines)
  {
    hide ApplyAll, Messages, Locate, Column, OwnChange;
  }

  // ---------- In step ----------

  /** An insertion reported by the editor, at any offset of its text and at its end. */
  lemma {:induction false} TypedKeepsInStep(ls: seq<string>, at: nat, text: string)
    requires at <= |EditorText(ls)|
    ensures Ins(EditorText(ls), at, text) == EditorText(InsertLines(ls, at, text)) <==> TypedInStep(ls, at, text)
  {
    if text == "" {
      assert Ins(EditorText(ls), at, "") == EditorText(ls);
      NothingTyped(ls, at);
    } else if ls == [] {
      TypedIntoCleared(at, text);
    } else if at < |Flatten(ls)| {
      InsertRefinesText(ls, at, text);
      StillLines(ls, at, text);
    } else {
      TypedAtEnd(ls, at, text);
      StillLines(ls, at, text);
    }
    hide InsertLines, Flatten, Refused, Ins;
  }

  lemma {:induction false} NothingTyped(ls: seq<string>, at: nat)
    ensures InsertLines(ls, at, "") == ls
  {
  }

  lemma {:induction false} StillLines(ls: seq<string>, at: nat, text: string)
    requires ls != []
    ensures InsertLines(ls, at, text) != []
  {
  }

  lemma {:induction false} TypedIntoCleared(at: nat, text: string)
    requires at <= 1 && text != ""
    ensures Ins("\n", at, text) == EditorText(InsertLines([], at, text)) <==> at == 0 && '\n' !in text
  {
    if '\n' in text && text != "\n" {
      assert |Ins("\n", at, text)| == |text| + 1;
    } else if text == "\n" {
      FlattenOne("");
      assert InsertLines([], at, "\n") == [""] && text[0] in text;
      assert |Ins("\n", at, "\n")| == 2;
    } else {
      FlattenOne(text);
      assert InsertLines([], at, text) == [text];
      hide InsertLines, Flatten;
      if at == 0 {
        assert Ins("\n", 0, text) == text + "\n";
      } else {
        assert Ins("\n", 1, text)[0] == '\n' && (text + "\n")[0] == text[0] && text[0] in text;
      }
    }
  }

  lemma {:induction false} TypedAtEnd(ls: seq<string>, at: nat, text: string)
    requires ls != [] && at == |Flatten(ls)| && text != ""
    ensures Ins(Flatten(ls), at, text) == Flatten(InsertLines(ls, at, text)) <==> text == "\n"
  {
    assert Ins(Flatten(ls), at, text) == Flatten(ls) + text;
    if '\n' in text && text != "\n" {
      assert |Flatten(ls) + text| > |Flatten(ls)|;
    } else {
      InsertOutside(ls, at, text);
    }
  }

  /** A deletion reported by the editor. */
  lemma {:induction false} ErasedKeepsInStep(ls: seq<string>, at: nat, nb: nat)
    requires at + nb <= |EditorText(ls)|
    ensures Del(EditorText(ls), at, nb) == EditorText(RemoveLines(ls, at, nb)) <==> ErasedInStep(ls, at, nb)
  {
    NothingDeleted(EditorText(ls), at);
    if ls != [] {
      RemoveRefinesText(ls, at, nb);
      OnlyLineErased(ls, at, nb);
    }
  }

  /** Only erasing a single line with its newline leaves the mirror without lines. */
  lemma {:induction false} OnlyLineErased(ls: seq<string>, at: nat, nb: nat)
    requires ls != [] && at + nb <= |Flatten(ls)|
    ensures RemoveLines(ls, at, nb) == [] <==> |ls| == 1 && nb == |ls[0]| + 1
    ensures RemoveLines(ls, at, nb) == [] ==> Del(Flatten(ls), at, nb) == ""
  {
    if |ls| == 1 {
      FlattenOne(ls[0]);
      assert ls == [ls[0]];
      LocateInside(ls, at);
    }
  }

  lemma {:induction false} StepInStep(s: Session, op: Op)
    requires InStep(s) && NewlineFree(s.lines) && Possible(s, op)
    ensures InStep(Step(s, op)) <==> Good(s.lines, op)
  {
    hide Flatten, AppendLines, AppendMessage, ReplaceMessages, ClearMessages, Fits, FirstLine, ApplyAll;
    hide InsertLines, RemoveLines, TypedInStep, ErasedInStep, Ins, Del, EditorText;
    var ls := s.lines;
    match op
    case Append(line) =>
      AppendKeepsInStep(ls, FirstLine(line));
    case Replace(line, lnum) =>
      if 1 <= lnum <= |ls| {
        ReplaceStep(s, FirstLine(line), lnum - 1);
      } else {
        NoMessages(s.text);
      }
    case Clear =>
      TextSize(ls);
      ClearMends(s.text, ls);
    case Typed(at, text) =>
      NoMessages(Ins(s.text, at, text));
      TypedKeepsInStep(ls, at, text);
    case Erased(at, nb) =>
      NoMessages(Del(s.text, at, nb));
      ErasedKeepsInStep(ls, at, nb);
  }

  lemma {:induction false} ReplaceStep(s: Session, row: string, k: nat)
    requires InStep(s) && NewlineFree(s.lines) && k < |s.lines| && IntSized(s.lines, row)
    ensures ApplyAll(s.text, ReplaceMessages(s.lines, row, k)) == EditorText(s.lines[k := row])
            <==> Fits(Insert(Start(s.lines, k), Quote(row + "\n\n")))
  {
    hide Flatten, ReplaceMessages, Fits, ApplyAll;
    ReplaceKeepsInStep(s.lines, row, k);
  }

  lemma {:induction false} NoMessages(text: string)
    ensures ApplyAll(text, []) == text
  {
  }

  /**
   * A new last line comes from the editor in two events, its text and then its newline. In between the
   * mirror is one newline ahead; the second newline, which it ignores, brings both in step.
   */
  lemma {:induction false} LineTypedAtEnd(s: Session, text: string)
    requires InStep(s) && s.lines != [] && text != "" && '\n' !in text
    ensures var s1 := Step(s, Typed(|s.text|, text));
            !InStep(s1) && InStep(Step(s1, Typed(|s.text| + |text|, "\n")))
  {
    var n, ls := |s.text|, s.lines;
    assert s.text == Flatten(ls);
    hide InsertLines, Flatten, Step, Ins;
    InsertOutside(ls, n, text);
    IgnoredAtEnd(ls, text);
    StepTyped(s, n, text);
    StepTyped(Session(ls + [text], s.text + text), n + |text|, "\n");
    InsAtEnd(s.text, text);
    InsAtEnd(s.text + text, "\n");
    Regroup(s.text, text, "\n");
  }

  lemma {:induction false} StepTyped(s: Session, at: nat, text: string)
    requires at <= |s.text|
    ensures Step(s, Typed(at, text)) == Session(InsertLines(s.lines, at, text), Ins(s.text, at, text))
  {
    hide InsertLines, Ins;
    NoMessages(Ins(s.text, at, text));
  }

  lemma {:induction false} InsAtEnd(s: string, t: string)
    ensures Ins(s, |s|, t) == s + t
  {
  }

  /** A newline at the end of a last line is ignored. */
  lemma {:induction false} IgnoredAtEnd(ls: seq<string>, text: string)
    requires text != ""
    ensures InsertLines(ls + [text], |Flatten(ls)| + |text|, "\n") == ls + [text]
  {
    var ls1 := ls + [text];
    FlattenAt(ls1, |ls|);
    assert ls1[..|ls|] == ls;
    LocateUnique(ls1, |ls|, |Flatten(ls)| + |text|);
    NewlineIgnored(ls1, |Flatten(ls)| + |text|);
  }

  ghost predicate AlwaysInStep(ops: seq<Op>) {
    forall k :: 0 <= k <= |ops| ==> InStep(Run(ops[..k]))
  }

  ghost predicate AllGood(ops: seq<Op>) {
    forall k :: 0 <= k < |ops| ==> Good(Run(ops[..k]).lines, ops[k])
  }

  lemma {:induction false} OneMore(ops: seq<Op>, op: Op)
    ensures AlwaysInStep(ops + [op]) <==> AlwaysInStep(ops) && InStep(Run(ops + [op]))
    ensures AllGood(ops + [op]) <==> AllGood(ops) && Good(Run(ops).lines, op)
    ensures PossibleRun(ops + [op]) <==> PossibleRun(ops) && Possible(Run(ops), op)
    ensures AlwaysInStep(ops) ==> InStep(Run(ops))
  {
    hide Run, InStep, Good, Possible;
    var all, n := ops + [op], |ops|;
    Prefixes(all, n);
    assert all[..n] == ops && all[..n + 1] == all && all[n] == op && ops[..n] == ops;
    assert forall k :: 0 <= k < n ==> all[k] == ops[k];
  }

  /**
   * From the opened buffer, over any run of commands and events, an editor stays in step exactly when every
   * insertion of a command was short enough to be sent, no row was appended to a single non-empty line of
   * other text and no empty row to a cleared buffer, and the events were of the kinds the mirror follows.
   */
  lemma {:induction false} RunInStep(ops: seq<Op>)
    requires PossibleRun(ops)
    ensures AlwaysInStep(ops) <==> AllGood(ops)
    decreases ops
  {
    hide *;
    if ops == [] {
      AtTheStart();
    } else {
      var before, op := ops[..|ops| - 1], ops[|ops| - 1];
      assert ops == before + [op];
      OneMore(before, op);
      RunInStep(before);
      if AlwaysInStep(before) {
        RunNewlineFree(before);
        StepInStep(Run(before), op);
        RunNext(before, op);
      }
    }
  }

  lemma {:induction false} AtTheStart()
    ensures AlwaysInStep([]) && AllGood([])
  {
    TextOfOpened();
  }

  lemma {:induction false} Prefixes(ops: seq<Op>, n: nat)
    requires n <= |ops|
    ensures forall k :: 0 <= k <= n ==> ops[..n][..k] == ops[..k]
  {
  }

  lemma {:induction false} TextOfOpened()
    ensures InStep(OPENED)
  {
    FlattenOne("");
  }

  // ---------- Of the right length ----------

  /**
   * What keeps an editor's text of the mirror's length: all is sent, no empty row opens the buffer, and
   * what is typed and erased would keep an editor in step, the last newline not being erased.
   */
  predicate KeepsSize(ls: seq<string>, op: Op) {
    match op
    case Append(line) => IsSent(ls, op) && (ls == [] ==> FirstLine(line) != "")
    case Typed(at, text) => TypedInStep(ls, at, text)
    case Erased(at, nb) => ErasedInStep(ls, at, nb) && (nb == 0 || at + nb < |EditorText(ls)|)
    case _ => IsSent(ls, op)
  }

  lemma {:induction false} LastAfterIns(text: string, at: nat, t: string)
    requires at <= |text| && text != "" && (at == |text| && t != "" ==> t[|t| - 1] == '\n') && text[|text| - 1] == '\n'
    ensures |Ins(text, at, t)| == |text| + |t| && Ins(text, at, t)[|text| + |t| - 1] == '\n'
  {
    if at < |text| {
      assert Ins(text, at, t)[|text| + |t| - 1] == text[at..][|text| - at - 1];
    } else {
      assert Ins(text, at, t) == text + t;
    }
  }

  lemma {:induction false} TypedSize(text: string, ls: seq<string>, at: nat, t: string)
    requires SameSize(text, ls) && at <= |text| && TypedInStep(ls, at, t)
    ensures SameSize(Ins(text, at, t), InsertLines(ls, at, t))
  {
    TypedKeepsInStep(ls, at, t);
    TextSize(ls);
    LastAfterIns(text, at, t);
    LastAfterIns(EditorText(ls), at, t);
    hide InsertLines, EditorText, Refused, Ins, TypedInStep;
  }

  lemma {:induction false} LastAfterDel(text: string, at: nat, nb: nat)
    requires at + nb < |text|
    ensures |Del(text, at, nb)| == |text| - nb && Del(text, at, nb)[|text| - nb - 1] == text[|text| - 1]
  {
    assert Del(text, at, nb)[|text| - nb - 1] == text[at + nb..][|text| - at - nb - 1];
  }

  lemma {:induction false} ErasedSize(text: string, ls: seq<string>, at: nat, nb: nat)
    requires SameSize(text, ls) && ErasedInStep(ls, at, nb) && (nb == 0 || at + nb < |text|) && at + nb <= |text|
    ensures SameSize(Del(text, at, nb), RemoveLines(ls, at, nb))
  {
    hide RemoveLines, EditorText, ErasedInStep, Del;
    ErasedKeepsInStep(ls, at, nb);
    if nb == 0 {
      NothingDeleted(text, at);
      NothingDeleted(EditorText(ls), at);
    } else {
      LastAfterDel(text, at, nb);
      LastAfterDel(EditorText(ls), at, nb);
    }
  }

  lemma {:induction false} AppendedText(text: string, ls: seq<string>, row: string)
    requires SameSize(text, ls) && Fits(AppendMessage(ls, row))
    ensures var t := ApplyAll(text, Send(AppendMessage(ls, row)));
            |t| == |text| + |row| + 1 && t[|t| - 1] == '\n'
  {
    hide Fits, Quote;
    var m := AppendMessage(ls, row);
    if ls != [] { FlattenAt(ls, |ls| - 1); }
    ApplyOne(text, m);
    ApplyQuoted(text, m.offset, row + "\n");
  }

  lemma {:induction false} AppendedLines(ls: seq<string>, row: string)
    requires ls == [] ==> row != ""
    ensures |EditorText(AppendLines(ls, row))| == |EditorText(ls)| + |row| + 1
  {
    if ls == [] {
      FlattenTwo(row, "");
    } else {
      AppendLength(ls, row);
    }
  }

  lemma {:induction false} ReplaceSize(text: string, ls: seq<string>, row: string, k: nat)
    requires k < |ls| && IntSized(ls, row) && SameSize(text, ls)
    requires Fits(Insert(Start(ls, k), Quote(row + "\n\n")))
    ensures SameSize(ApplyAll(text, ReplaceMessages(ls, row, k)), ls[k := row])
  {
    var offset := Start(ls, k);
    FlattenAt(ls, k);
    FlattenReplaced(ls, k, row);
    var t1 := Del(text, offset, |ls[k]|);
    var t2 := Ins(t1, offset, row + "\n\n");
    ReplaceOnText(text, ls, row, k);
    SizeAfter(text, t1, t2, offset, |ls[k]|, row);
  }

  lemma {:induction false} SizeAfter(text: string, t1: string, t2: string, offset: nat, len: nat, row: string)
    requires offset + len < |text| && text[|text| - 1] == '\n'
    requires t1 == Del(text, offset, len) && t2 == Ins(t1, offset, row + "\n\n")
    ensures |t2| == |text| - len + |row| + 2 && offset + |row| + 3 <= |t2|
    ensures var t3 := Del(t2, offset + |row| + 1, 2); t3[|t3| - 1] == '\n'
  {
    assert t1[|t1| - 1] == text[|text| - 1];
    assert t2[|t2| - 1] == t1[|t1| - 1];
    assert t2[offset + |row|] == (row + "\n\n")[|row|];
  }

  lemma {:induction false} ReplaceOnText(text: string, ls: seq<string>, row: string, k: nat)
    requires k < |ls| && IntSized(ls, row) && |text| == |Flatten(ls)|
    requires Fits(Insert(Start(ls, k), Quote(row + "\n\n")))
    ensures Start(ls, k) + |ls[k]| < |text|
    ensures ApplyAll(text, ReplaceMessages(ls, row, k))
            == Del(Ins(Del(text, Start(ls, k), |ls[k]|), Start(ls, k), row + "\n\n"), Start(ls, k) + |row| + 1, 2)
  {
    hide Flatten, Quote, Fits, ApplyAll;
    var offset := Start(ls, k);
    var insert, last := Insert(offset, Quote(row + "\n\n")), Remove(offset + |row| + 1, 2);
    FlattenAt(ls, k);
    NoMessages(text);
    var t1 := Del(text, offset, |ls[k]|);
    if ls[k] == "" {
      assert text[..offset] + text[offset..] == text;
    } else {
      RemoveFits(offset, |ls[k]|);
      ApplyOne(text, Remove(offset, |ls[k]|));
    }
    ApplyQuoted(t1, offset, row + "\n\n");
    RemoveFits(last.offset, 2);
    ApplyAppend(text, FirstMessage(ls, k) + Send(insert), Send(last));
    ApplyAppend(text, FirstMessage(ls, k), Send(insert));
    ApplyOne(t1, insert);
    ApplyOne(Apply(t1, insert), last);
  }

  lemma {:induction false} StepSize(s: Session, op: Op)
    requires SameSize(s.text, s.lines) && KeepsSize(s.lines, op) && Possible(s, op)
    ensures SameSize(Step(s, op).text, Step(s, op).lines)
  {
    hide Flatten, AppendLines, AppendMessage, ReplaceMessages, ClearMessages, Fits, FirstLine, ApplyAll;
    hide InsertLines, RemoveLines, TypedInStep, ErasedInStep, Ins, Del;
    match op
    case Append(line) =>
      AppendedText(s.text, s.lines, FirstLine(line));
      AppendedLines(s.lines, FirstLine(line));
    case Replace(line, lnum) =>
      if 1 <= lnum <= |s.lines| {
        ReplaceSize(s.text, s.lines, FirstLine(line), lnum - 1);
      } else {
        NoMessages(s.text);
      }
    case Clear =>
      ClearMends(s.text, s.lines);
    case Typed(at, text) =>
      NoMessages(Ins(s.text, at, text));
      TypedSize(s.text, s.lines, at, text);
    case Erased(at, nb) =>
      NoMessages(Del(s.text, at, nb));
      ErasedSize(s.text, s.lines, at, nb);
  }

  lemma {:induction false} RunSize(ops: seq<Op>)
    requires PossibleRun(ops)
    requires forall k :: 0 <= k < |ops| ==> KeepsSize(Run(ops[..k]).lines, ops[k])
    ensures SameSize(Run(ops).text, Run(ops).lines)
    decreases ops
  {
    if ops == [] {
      TextOfOpened();
      TextSize([""]);
    } else {
      hide Step, KeepsSize, Possible, SameSize;
      var n := |ops| - 1;
      Prefixes(ops, n);
      RunSize(ops[..n]);
      StepSize(Run(ops[..n]), ops[n]);
    }
  }

  /**
   * A clear mends what bad appends before it did: as long as all was sent and the buffer was not opened
   * with an empty row, the editor is in step right behind it.
   */
  lemma {:induction false} ClearMendsRun(ops: seq<Op>)
    requires PossibleRun(ops + [Clear])
    requires forall k :: 0 <= k < |ops| ==> KeepsSize(Run(ops[..k]).lines, ops[k])
    ensures InStep(Run(ops + [Clear]))
  {
    var n := |ops|;
    var all := ops + [Clear];
    hide Step, KeepsSize, Flatten;
    assert all[..n] == ops && forall k :: 0 <= k < n ==> all[..k] == ops[..k];
    assert Possible(Run(all[..n]), all[n]);
    RunSize(ops);
    RunNext(ops, Clear);
    ClearMends(Run(ops).text, Run(ops).lines);
    StepOfClear(Run(ops));
  }

  lemma {:induction false} StepOfClear(s: Session)
    ensures Step(s, Clear) == Session([], ApplyAll(s.text, ClearMessages(s.lines)))
  {
  }

  lemma {:induction false} ShortRowFits(s: string)
    requires |s| <= 1000
    ensures Fits(Insert(0, Quote(s)))
  {
    Int32Length(0);
    QuotedLength(s);
  }

  lemma {:induction false} OneLetter(c: char)
    requires c != '\n'
    ensures FirstLine([c]) == [c]
  {
    assert [c][1..] == "";
  }

  lemma {:induction false} RunOfTwo(a: Op, b: Op)
    ensures Run([a]) == Step(OPENED, a) && Run([a, b]) == Step(Step(OPENED, a), b)
    ensures [a, b][..0] == [] && [a, b][..1] == [a] && Run([]) == OPENED
  {
    hide Step;
    assert [a][..0] == [] && [a, b][..1] == [a];
  }

  /** A line of one letter is written into the opened buffer, and another one behind it. */
  lemma {:induction false} TwoLetters(s: Session)
    requires s.lines == ["a"]
    ensures Lines(OPENED.lines, Replace("a", 1)) == ["a"] && Good(OPENED.lines, Replace("a", 1))
    ensures Lines(s.lines, Append("b")) == ["a", "b"] && !Good(s.lines, Append("b")) && IsSent(s.lines, Append("b"))
  {
    OneLetter('a');
    OneLetter('b');
    ShortRowFits("a" + "\n\n");
    ShortRowFits("b" + "\n");
    hide Fits, Quote, FirstLine;
  }

  lemma {:induction false} ShortTexts()
    ensures |Flatten([""])| == 1 && |Flatten(["a"])| == 2 && |Flatten(["a", "b"])| == 4
    ensures IntSized([""], FirstLine("a"))
  {
    FlattenOne("");
    FlattenOne("a");
    FlattenTwo("a", "b");
    OneLetter('a');
  }

  /** What is known of the run of these two commands. */
  lemma {:induction false} BadAppend()
    ensures var a, b := Replace("a", 1), Append("b");
            var s := Step(OPENED, a);
            && Run([a]) == s && Run([a, b]) == Step(s, b) && s.lines == ["a"] && Step(s, b).lines == ["a", "b"]
            && Possible(OPENED, a) && Good(OPENED.lines, a) && IsSent(OPENED.lines, a)
            && Possible(s, b) && !Good(s.lines, b) && IsSent(s.lines, b)
  {
    var a, b := Replace("a", 1), Append("b");
    var s := Step(OPENED, a);
    RunOfTwo(a, b);
    ShortTexts();
    assert Possible(OPENED, a) && Possible(s, b);
    assert s.lines == Lines(OPENED.lines, a) && Step(s, b).lines == Lines(s.lines, b);
    hide Step, Lines, Run, Flatten, Good, IsSent, Possible;
    TwoLetters(s.(lines := ["a"]));
    TwoLetters(s);
  }

  lemma {:induction false} BadAppendSize()
    ensures var ops := [Replace("a", 1), Append("b")];
            PossibleRun(ops + [Clear]) && forall k :: 0 <= k < 2 ==> KeepsSize(Run(ops[..k]).lines, ops[k])
  {
    var a, b := Replace("a", 1), Append("b");
    var all := [a, b] + [Clear];
    BadAppend();
    RunOfTwo(a, b);
    ShortTexts();
    assert all[..0] == [] && all[..1] == [a] && all[..2] == [a, b] && all[2] == Clear;
    assert Possible(Run([a, b]), Clear);
    hide Run, Step, IsSent, Flatten, Possible;
  }

  /** So out of step once is not out of step for ever: a bad append, and a clear that hides it. */
  lemma {:induction false} ClearHidesBadAppend()
    ensures var ops := [Replace("a", 1), Append("b")];
            !InStep(Run(ops)) && InStep(Run(ops + [Clear]))
  {
    var a, b := Replace("a", 1), Append("b");
    var s := Step(OPENED, a);
    BadAppend();
    BadAppendSize();
    assert NewlineFree([""]) && NewlineFree(["a"]);
    hide Step, Lines, Run, Flatten, Good, IsSent, InStep, KeepsSize, Possible, PossibleRun;
    TextOfOpened();
    StepInStep(OPENED, a);
    StepInStep(s, b);
    ClearMendsRun([a, b]);
  }

  // ---------- The run on the linked list ----------

  /** The editor's text when it does what the events say it did and carries out what it is told. */
  function Watch(ops: seq<Op>, told: seq<seq<Function>>): string
    requires |told| == |ops|
    decreases ops
  {
    if ops == [] then "\n"
    else
      var n := |ops| - 1;
      ApplyAll(OwnChange(Watch(ops[..n], told[..n]), ops[n]), told[n])
  }

  lemma {:induction false} WatchNext(ops: seq<Op>, told: seq<seq<Function>>, op: Op, sent: seq<Function>)
    requires |told| == |ops|
    ensures Watch(ops + [op], told + [sent]) == ApplyAll(OwnChange(Watch(ops, told), op), sent)
  {
    assert (ops + [op])[..|ops|] == ops && (told + [sent])[..|ops|] == told;
  }

  /** Open a buffer, and carry out the commands and follow the events. */
  method Play(ops: seq<Op>) returns (doc: Document, told: seq<seq<Function>>)
    requires PossibleRun(ops)
    ensures doc.Valid() && doc.lines == Run(ops).lines
    ensures |told| == |ops| && Watch(ops, told) == Run(ops).text
  {
    hide Run, Lines, Messages, ApplyAll, Possible, Flatten, PossibleRun, OwnChange, Watch;
    doc := new Document();
    doc.EditFile();
    told := [];
    var i := 0;
    NothingRun(ops);
    while i < |ops|
      invariant i <= |ops| && |told| == i && doc.Valid() && fresh(doc) && fresh(doc.repr)
      invariant doc.lines == Run(ops[..i]).lines && Watch(ops[..i], told) == Run(ops[..i]).text
    {
      PossibleAt(ops, i);
      var sent := Carry(doc, ops[i], Run(ops[..i]).text);
      RunTo(ops, i);
      WatchNext(ops[..i], told, ops[i], sent);
      told, i := told + [sent], i + 1;
    }
    assert ops[..i] == ops;
  }

  lemma {:induction false} NothingRun(ops: seq<Op>)
    ensures Run(ops[..0]) == OPENED && Watch(ops[..0], []) == "\n"
  {
    assert ops[..0] == [];
  }

  lemma {:induction false} RunTo(ops: seq<Op>, i: nat)
    requires i < |ops|
    ensures var s := Run(ops[..i]);
            ops[..i + 1] == ops[..i] + [ops[i]]
            && Run(ops[..i + 1])
               == Session(Lines(s.lines, ops[i]), ApplyAll(OwnChange(s.text, ops[i]), Messages(s.lines, ops[i])))
  {
    assert ops[..i + 1] == ops[..i] + [ops[i]];
    RunNext(ops[..i], ops[i]);
  }

  lemma {:induction false} PossibleAt(ops: seq<Op>, i: nat)
    requires i < |ops| && PossibleRun(ops)
    ensures Possible(Run(ops[..i]), ops[i])
  {
  }

  method Carry(doc: Document, op: Op, ghost text: string) returns (sent: seq<Function>)
    requires doc.Valid() && Possible(Session(doc.lines, text), op)
    modifies doc, doc.repr
    ensures doc.Valid() && fresh(doc.repr - old(doc.repr))
    ensures doc.lines == Lines(old(doc.lines), op) && sent == Messages(old(doc.lines), op)
  {
    sent := [];
    match op
    case Append(line) =>
      sent := CnbAppend(doc, line);
    case Replace(line, lnum) =>
      sent := CnbReplace(doc, line, lnum);
    case Clear =>
      sent := CnbClear(doc);
    case Typed(at, text) =>
      doc.LineInsert(at, text);
    case Erased(at, nb) =>
      doc.LineRemove(at, nb);
  }
}

// Changes clewn makes itself: the mirror is edited and the same edit is sent to the editor.

module MirrorSync {
  import opened Prelude
  import opened LineSpec
  import opened LineList
  import opened Quoting
  import opened EditorLink

  /** The line up to its first newline. */
  function FirstLine(s: string): (r: string)
    ensures '\n' !in r && r <= s
    ensures r == s || s[|r|] == '\n'
  {
    if s == "" || s[0] == '\n' then "" else [s[0]] + FirstLine(s[1..])
  }

  // ---------- cnb_replace ----------

  function FirstMessage(ls: seq<string>, k: nat): seq<Function>
    requires k < |ls|
  {
    if ls[k] == "" then [] else Send(Remove(Start(ls, k), |ls[k]|))
  }

  function ReplaceMessages(ls: seq<string>, row: string, k: nat): seq<Function>
    requires k < |ls|
  {
    var offset := Start(ls, k);
    FirstMessage(ls, k)
    + Send(Insert(offset, Quote(row + "\n\n")))
    + Send(Remove(offset + |row| + 1, 2))
  }

  /** The number of characters an int can count, with room for the longest message. */
  predicate IntSized(ls: seq<string>, row: string) {
    |Flatten(ls)| + |row| + 2 < INT_LIMIT
  }

  /** Removing a line's text, then inserting the new line and two newlines, then removing two newlines. */
  lemma {:induction false} ThreeSplices(pre: string, line: string, post: string, row: string)
    ensures |pre| + |line| <= |pre + line + "\n" + post|
    ensures var s1 := Del(pre + line + "\n" + post, |pre|, |line|);
            && |pre| <= |s1|
            && var s2 := Ins(s1, |pre|, row + "\n\n");
            && |pre| + |row| + 3 <= |s2|
            && Del(s2, |pre| + |row| + 1, 2) == pre + row + "\n" + post
  {
    var s1 := pre + "\n" + post;
    DelInside(pre, line, post, 0, |line|);
    assert line[..0] + line[|line|..] == "";
    assert pre + "" + "\n" + post == s1;
    SpliceTwoNewlines(pre, post, row);
  }

  lemma {:induction false} SpliceTwoNewlines(pre: string, post: string, row: string)
    ensures Ins(pre + "\n" + post, |pre|, row + "\n\n") == pre + row + "\n\n\n" + post
    ensures Del(pre + row + "\n\n\n" + post, |pre| + |row| + 1, 2) == pre + row + "\n" + post
  {
    var s1, s2, n := pre + "\n" + post, pre + row + "\n\n\n" + post, |pre| + |row| + 1;
    assert s1[..|pre|] == pre && s1[|pre|..] == "\n" + post;
    assert s2[..n] == pre + row + "\n";
    assert s2[n + 2..] == post;
  }

  /** The editor's text after the first message: line `k` is empty. */
  lemma {:induction false} FirstRemoval(ls: seq<string>, k: nat)
    requires k < |ls| && |Flatten(ls)| < INT_LIMIT
    ensures Start(ls, k) + |ls[k]| <= |Flatten(ls)|
    ensures ApplyAll(Flatten(ls), FirstMessage(ls, k)) == Del(Flatten(ls), Start(ls, k), |ls[k]|)
  {
    var offset, f := Start(ls, k), Flatten(ls);
    FlattenAt(ls, k);
    if ls[k] == "" {
      assert f[..offset] + f[offset..] == f;
    } else {
      RemoveFits(offset, |ls[k]|);
      ApplyOne(f, Remove(offset, |ls[k]|));
    }
  }

  lemma {:induction false} ReplaceSent(ls: seq<string>, row: string, k: nat)
    requires k < |ls| && IntSized(ls, row)
    requires Fits(Insert(Start(ls, k), Quote(row + "\n\n")))
    ensures ApplyAll(Flatten(ls), ReplaceMessages(ls, row, k)) == Flatten(ls[k := row])
  {
    var offset := Start(ls, k);
    var insert, last := Insert(offset, Quote(row + "\n\n")), Remove(offset + |row| + 1, 2);
    FlattenAt(ls, k);
    FlattenReplaced(ls, k, row);
    FirstRemoval(ls, k);
    ThreeSplices(Flatten(ls[..k]), ls[k], Flatten(ls[k + 1..]), row);
    var f1 := Del(Flatten(ls), offset, |ls[k]|);
    ApplyQuoted(f1, offset, row + "\n\n");
    RemoveFits(last.offset, 2);
    ApplyAppend(Flatten(ls), FirstMessage(ls, k) + Send(insert), Send(last));
    ApplyAppend(Flatten(ls), FirstMessage(ls, k), Send(insert));
    ApplyOne(f1, insert);
    ApplyOne(Apply(f1, insert), last);
  }

  lemma {:induction false} ReplaceDropped(ls: seq<string>, row: string, k: nat)
    requires k < |ls| && IntSized(ls, row)
    requires !Fits(Insert(Start(ls, k), Quote(row + "\n\n")))
    ensures |ApplyAll(Flatten(ls), ReplaceMessages(ls, row, k))| < |Flatten(ls[k := row])|
  {
    var last := Remove(Start(ls, k) + |row| + 1, 2);
    var first := FirstMessage(ls, k);
    FlattenAt(ls, k);
    FlattenReplaced(ls, k, row);
    FirstRemoval(ls, k);
    RemoveFits(last.offset, 2);
    assert first + [] + Send(last) == first + Send(last);
    ApplyAppend(Flatten(ls), first, Send(last));
    var f1 := Del(Flatten(ls), Start(ls, k), |ls[k]|);
    ApplyOne(f1, last);
    RemoveShrinks(f1, last.offset, 2);
    DroppedIsLong(Start(ls, k), row);
  }

  /**
   * An editor in step with the mirror before cnb_replace is in step after it exactly when the
   * insertion was not too long to be sent.
   */
  lemma {:induction false} ReplaceKeepsInStep(ls: seq<string>, row: string, k: nat)
    requires k < |ls| && IntSized(ls, row)
    ensures ApplyAll(Flatten(ls), ReplaceMessages(ls, row, k)) == Flatten(ls[k := row])
            <==> Fits(Insert(Start(ls, k), Quote(row + "\n\n")))
  {
    if Fits(Insert(Start(ls, k), Quote(row + "\n\n"))) {
      ReplaceSent(ls, row, k);
    } else {
      ReplaceDropped(ls, row, k);
    }
  }

  /** A message is only dropped for a long row. */
  lemma {:induction false} DroppedIsLong(offset: nat, row: string)
    requires offset < INT_LIMIT && !Fits(Insert(offset, Quote(row + "\n\n")))
    ensures row != ""
  {
    Int32Length(offset);
    QuotedLength(row + "\n\n");
  }

  // ---------- What the editor holds ----------

  /**
   * The text of an editor in step with the mirror. The editor's buffer always has a line: when the mirror
   * has none the editor shows an empty one.
   */
  function EditorText(ls: seq<string>): string {
    if ls == [] then "\n" else Flatten(ls)
  }

  // ---------- cnb_clear ----------

  /** All but the newline of the last line is removed. */
  function ClearMessages(ls: seq<string>): seq<Function> {
    var count := |Flatten(ls)| - 1;
    if count <= 0 then [] else Send(Remove(0, count))
  }

  /** Texts of the mirror's length, ending in a newline, whether they are the mirror's text or not. */
  predicate SameSize(text: string, ls: seq<string>) {
    |text| == |EditorText(ls)| && text[|text| - 1] == '\n'
  }

  /** Clearing brings an editor in step, even one that only has a text of the right length. */
  lemma {:induction false} ClearMends(text: string, ls: seq<string>)
    requires SameSize(text, ls) && |Flatten(ls)| < INT_LIMIT
    ensures ApplyAll(text, ClearMessages(ls)) == EditorText([])
  {
    var count := |text| - 1;
    assert text == text[..count] + "\n";
    if count > 0 {
      RemoveFits(0, count);
      ApplyOne(text, Remove(0, count));
      assert Del(text, 0, count) == "\n";
    }
  }

  lemma {:induction false} TextSize(ls: seq<string>)
    ensures SameSize(EditorText(ls), ls)
  {
    if ls != [] {
      FlattenAt(ls, |ls| - 1);
      assert ls[|ls|..] == [];
    }
  }

  // ---------- cnb_append ----------

  /** What cnb_append does to the lines: the row goes before the last line, or after a single one. */
  function AppendLines(ls: seq<string>, row: string): seq<string> {
    var n := |ls|;
    if n == 0 then (if row == "" then [""] else [row, ""])
    else if ls[n - 1] != "" && n == 1 then ls + [row]
    else ls[..n - 1] + [row, ls[n - 1]]
  }

  function AppendMessage(ls: seq<string>, row: string): Function {
    Insert(if ls == [] then 0 else Start(ls, |ls| - 1), Quote(row + "\n"))
  }

  /**
   * The buffers where the editor, which inserts before the last line, ends with the mirror's text: a row
   * added to no line at all must not be empty, and one added to a single line must find it empty or equal.
   */
  predicate AppendsInStep(ls: seq<string>, row: string) {
    && (ls == [] ==> row != "")
    && (|ls| == 1 ==> ls[0] == "" || ls[0] == row)
  }

  /**
   * An editor in step with the mirror before cnb_append is in step after it exactly when the message
   * fits, the buffer is not a single non-empty line of other text, and an empty row is not the first.
   */
  lemma {:induction false} AppendKeepsInStep(ls: seq<string>, row: string)
    requires '\n' !in row && NewlineFree(ls)
    ensures ApplyAll(EditorText(ls), Send(AppendMessage(ls, row))) == EditorText(AppendLines(ls, row))
            <==> Fits(AppendMessage(ls, row)) && AppendsInStep(ls, row)
  {
    if ls == [] {
      AppendToEmpty(row);
    } else {
      AppendToSome(ls, row);
    }
  }

  lemma {:induction false} AppendToSome(ls: seq<string>, row: string)
    requires ls != [] && '\n' !in row && NewlineFree(ls)
    ensures ApplyAll(Flatten(ls), Send(AppendMessage(ls, row))) == Flatten(AppendLines(ls, row))
            <==> Fits(AppendMessage(ls, row)) && AppendsInStep(ls, row)
  {
    hide Flatten, Quote, Fits, AppendLines;
    var f, m := Flatten(ls), AppendMessage(ls, row);
    AppendLength(ls, row);
    if Fits(m) {
      ApplyOne(f, m);
      AppendSplice(ls, row);
      ApplyQuoted(f, m.offset, row + "\n");
    }
  }

  lemma {:induction false} AppendToEmpty(row: string)
    ensures ApplyAll("\n", Send(AppendMessage([], row))) == Flatten(AppendLines([], row))
            <==> Fits(AppendMessage([], row)) && row != ""
  {
    var m := AppendMessage([], row);
    EmptyRowFits();
    assert "" + "\n" == "\n";
    FlattenOne("");
    FlattenTwo(row, "");
    if Fits(m) {
      ApplyOne("\n", m);
      ApplyQuoted("\n", 0, row + "\n");
      assert Ins("\n", 0, row + "\n") == row + "\n" + "\n";
    }
  }

  lemma {:induction false} EmptyRowFits()
    ensures Fits(Insert(0, Quote("\n")))
  {
    Int32Length(0);
    QuotedLength("\n");
  }

  lemma {:induction false} AppendLength(ls: seq<string>, row: string)
    ensures ls != [] ==> |Flatten(AppendLines(ls, row))| == |Flatten(ls)| + |row| + 1
  {
    var n := |ls|;
    if n == 0 {
    } else if ls[n - 1] != "" && n == 1 {
      FlattenAppend(ls, [row]);
    } else {
      FlattenCut(ls, n - 1, row, ls[n - 1]);
      FlattenAt(ls, n - 1);
      assert ls[..n - 1] + [row, ls[n - 1]] + ls[n..] == AppendLines(ls, row);
    }
  }

  /** The text with the row put in before its last line. */
  lemma {:induction false} SpliceBeforeLast(ls: seq<string>, row: string)
    requires ls != []
    ensures Start(ls, |ls| - 1) <= |Flatten(ls)|
    ensures Ins(Flatten(ls), Start(ls, |ls| - 1), row + "\n") == Flatten(ls[..|ls| - 1] + [row, ls[|ls| - 1]])
  {
    var n, last := |ls|, ls[|ls| - 1];
    var pre := Flatten(ls[..n - 1]);
    FlattenAt(ls, n - 1);
    assert Flatten(ls) == pre + last + "\n" + "";
    InsInside(pre, last, "", 0, row + "\n");
    assert last[..0] + (row + "\n") + last[0..] == row + "\n" + last;
    FlattenCut(ls, n - 1, row, last);
    assert ls[..n - 1] + [row, last] + ls[n..] == ls[..n - 1] + [row, last];
  }

  lemma {:induction false} AppendSplice(ls: seq<string>, row: string)
    requires ls != [] && '\n' !in row && NewlineFree(ls)
    ensures Start(ls, |ls| - 1) <= |Flatten(ls)|
    ensures Ins(Flatten(ls), Start(ls, |ls| - 1), row + "\n") == Flatten(AppendLines(ls, row))
            <==> AppendsInStep(ls, row)
  {
    SpliceBeforeLast(ls, row);
    if |ls| == 1 && ls[0] != "" {
      assert ls == [ls[0]] && ls + [row] == [ls[0], row] && ls[..0] + [row, ls[0]] == [row, ls[0]];
      OrderOfTwoLines(ls[0], row);
    }
  }

  lemma {:induction false} FlattenOne(a: string)
    ensures Flatten([a]) == a + "\n"
  {
    assert Flatten([a]) == a + "\n" + Flatten([]);
  }

  lemma {:induction false} FlattenTwo(a: string, b: string)
    ensures Flatten([a, b]) == a + "\n" + (b + "\n")
  {
    FlattenOne(b);
    assert [a, b][1..] == [b];
  }

  lemma {:induction false} FirstNewline(a: string, t: string)
    requires '\n' !in a
    ensures forall k :: 0 <= k < |a| ==> (a + "\n" + t)[k] != '\n'
    ensures (a + "\n" + t)[|a|] == '\n'
  {
  }

  /** Two lines in the other order give another text, unless they are the same line. */
  lemma {:induction false} OrderOfTwoLines(a: string, b: string)
    requires '\n' !in a && '\n' !in b
    ensures Flatten([a, b]) == Flatten([b, a]) <==> a == b
  {
    var ab, ba := a + "\n" + (b + "\n"), b + "\n" + (a + "\n");
    FlattenTwo(a, b);
    FlattenTwo(b, a);
    FirstNewline(a, b + "\n");
    FirstNewline(b, a + "\n");
    assert ab[..|a|] == a && ba[..|b|] == b;
  }
}

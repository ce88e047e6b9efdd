// cnb_append and cnb_replace on the linked list, once the buffer is open in the editor.

module MirrorCommands {
  import opened Prelude
  import opened LineSpec
  import opened LineList
  import opened Quoting
  import opened EditorLink
  import opened MirrorSync

  // ---------- The steps on the lines ----------

  /** Emptying line `k`, then typing the row on it. */
  lemma {:induction false} ReplaceSteps(ls: seq<string>, ls1: seq<string>, ls2: seq<string>, k: nat, row: string)
    requires k < |ls| && '\n' !in row
    requires ls1 == if ls[k] == "" then ls else RemoveLines(ls, Start(ls, k), |ls[k]|)
    requires ls2 == InsertLines(ls1, Start(ls, k), row)
    ensures ls2 == ls[k := row]
  {
    var offset := Start(ls, k);
    LocateUnique(ls, k, offset);
    if ls[k] != "" {
      assert ls[k][..0] + ls[k][|ls[k]|..] == "";
    }
    assert ls1 == ls[k := ""];
    StartPrefix(ls, ls1, k);
    LocateUnique(ls1, k, offset);
    if row != "" {
      TextInEmptyLine(ls1, offset, row);
    }
  }

  lemma {:induction false} StartOfEnd(ls: seq<string>)
    ensures Start(ls, |ls|) == |Flatten(ls)|
  {
    StartIsLength(ls, |ls|);
    assert ls[..|ls|] == ls;
  }

  lemma {:induction false} FirstStart(ls: seq<string>, k: nat)
    requires k <= |ls|
    ensures Start(ls, k) == 0 <==> k == 0
  {
  }

  lemma {:induction false} AppendToNone(ls1: seq<string>, ls2: seq<string>, row: string)
    requires '\n' !in row
    requires ls1 == InsertLines([], 0, row) && ls2 == InsertLines(ls1, |row| + 1, "\n")
    ensures ls2 == AppendLines([], row)
  {
    if row != "" {
      StartOfEnd(ls1);
      InsertOutside(ls1, |row| + 1, "\n");
    }
  }

  lemma {:induction false} AppendToSingle(ls: seq<string>, ls1: seq<string>, ls2: seq<string>, row: string)
    requires |ls| == 1 && ls[0] != "" && '\n' !in row
    requires ls1 == InsertLines(ls, |ls[0]| + 1, "\n") && ls2 == InsertLines(ls1, |ls[0]| + 1, row)
    ensures ls2 == AppendLines(ls, row)
  {
    StartOfEnd(ls);
    InsertOutside(ls, |ls[0]| + 1, "\n");
    assert ls1 == [ls[0], ""];
    LocateUnique(ls1, 1, |ls[0]| + 1);
    if row != "" {
      TextOnEmptyLine(ls1, 1, row);
    }
  }

  lemma {:induction false} TypeAt(ls: seq<string>, k: nat, c: nat, text: string)
    requires k < |ls| && c <= |ls[k]| && text != "" && '\n' !in text
    ensures InsertLines(ls, Start(ls, k) + c, text) == ls[k := ls[k][..c] + text + ls[k][c..]]
  {
    LocateUnique(ls, k, Start(ls, k) + c);
  }

  lemma {:induction false} CutAt(ls: seq<string>, k: nat, c: nat)
    requires k < |ls| && c <= |ls[k]| && (k < |ls| - 1 || c < |ls[k]|)
    ensures InsertLines(ls, Start(ls, k) + c, "\n") == ls[..k] + [ls[k][..c], ls[k][c..]] + ls[k + 1..]
  {
    LocateUnique(ls, k, Start(ls, k) + c);
  }

  /** The row typed in front of the last line. */
  lemma {:induction false} TypeBeforeLast(ls: seq<string>, n: nat, row: string)
    requires |ls| == n + 1 && '\n' !in row
    ensures InsertLines(ls, Start(ls, n), row) == ls[n := row + ls[n]]
  {
    assert ls[n][..0] + row + ls[n][0..] == row + ls[n];
    if row == "" {
      assert row + ls[n] == ls[n];
    } else {
      TypeAt(ls, n, 0, row);
    }
  }

  /** The row typed in front of the last line, then a newline between the two. */
  lemma {:induction false} AppendBeforeLast(ls: seq<string>, ls1: seq<string>, ls2: seq<string>, n: nat, row: string)
    requires |ls| == n + 1 && n > 0 && ls[n] != "" && '\n' !in row
    requires ls1 == InsertLines(ls, Start(ls, n), row)
    requires ls2 == InsertLines(ls1, Start(ls, n) + |row|, "\n")
    ensures ls2 == AppendLines(ls, row)
  {
    TypeBeforeLast(ls, n, row);
    StartPrefix(ls, ls1, n);
    CutAt(ls1, n, |row|);
    assert (row + ls[n])[..|row|] == row && (row + ls[n])[|row|..] == ls[n];
    assert ls1[..n] == ls[..n] && ls1[n + 1..] == [];
  }

  /** The row typed on the empty last line, then a new last line past the end. */
  lemma {:induction false} AppendOnLast(ls: seq<string>, ls1: seq<string>, ls2: seq<string>, n: nat, row: string)
    requires |ls| == n + 1 && ls[n] == "" && '\n' !in row
    requires ls1 == InsertLines(ls, Start(ls, n), row)
    requires ls2 == InsertLines(ls1, Start(ls, n) + |row| + 1, "\n")
    ensures ls2 == AppendLines(ls, row)
  {
    TypeBeforeLast(ls, n, row);
    assert row + ls[n] == row;
    NewlinePastEnd(ls, n, row);
    OneMoreLine(ls, n, row);
  }

  lemma {:induction false} NewlinePastEnd(ls: seq<string>, n: nat, row: string)
    requires |ls| == n + 1
    ensures InsertLines(ls[n := row], Start(ls, n) + |row| + 1, "\n") == ls[n := row] + [""]
  {
    var ls1 := ls[n := row];
    StartPrefix(ls, ls1, n);
    StartOfEnd(ls1);
    assert Start(ls1, n + 1) == Start(ls1, n) + |row| + 1;
    InsertOutside(ls1, Start(ls1, n + 1), "\n");
  }

  lemma {:induction false} OneMoreLine(ls: seq<string>, n: nat, row: string)
    requires |ls| == n + 1 && ls[n] == ""
    ensures ls[n := row] + [""] == AppendLines(ls, row)
  {
    assert ls[n := row] == ls[..n] + [row];
    assert ls[..n] + [row] + [""] == ls[..n] + [row, ""];
  }

  // ---------- The commands ----------

  /** The last line and the offset of its first character; null when there is no line. */
  method LastLine(doc: Document) returns (l: Line?, offset: nat)
    requires doc.Valid()
    ensures doc.lines == [] <==> l == null
    ensures l == null ==> offset == 0
    ensures l != null ==> l == doc.nodes[|doc.nodes| - 1] && offset == Start(doc.lines, |doc.lines| - 1)
  {
    l, offset := doc.txt, 0;
    ghost var k := 0;
    while l != null && l.next != null
      invariant l == doc.At(k) && (l != null ==> k < |doc.nodes| && offset == Start(doc.lines, k))
      invariant doc.lines == [] ==> l == null && offset == 0
      invariant doc.lines != [] ==> l != null
      decreases |doc.nodes| - k
    {
      offset := offset + l.len + 1;
      l, k := l.next, k + 1;
    }
  }

  method InsertTwice(doc: Document, o1: int, t1: string, o2: int, t2: string) returns (ghost ls1: seq<string>)
    requires doc.Valid()
    modifies doc, doc.repr
    ensures doc.Valid() && fresh(doc.repr - old(doc.repr))
    ensures ls1 == InsertLines(old(doc.lines), o1, t1) && doc.lines == InsertLines(ls1, o2, t2)
  {
    doc.LineInsert(o1, t1);
    ls1 := doc.lines;
    doc.LineInsert(o2, t2);
  }

  /** Insert the row and its newline in the linked list, in the order that suits the last line. */
  method InsertRow(doc: Document, l: Line?, offset: nat, row: string)
    requires doc.Valid() && '\n' !in row
    requires l == if doc.nodes == [] then null else doc.nodes[|doc.nodes| - 1]
    requires offset == if doc.lines == [] then 0 else Start(doc.lines, |doc.lines| - 1)
    modifies doc, doc.repr
    ensures doc.Valid() && fresh(doc.repr - old(doc.repr))
    ensures doc.lines == AppendLines(old(doc.lines), row)
  {
    hide InsertLines, AppendLines, Flatten;
    ghost var ls := doc.lines;
    if l != null && l.len > 0 {
      FirstStart(ls, |ls| - 1);
      if offset == 0 {
        var ls1 := InsertTwice(doc, l.len + 1, "\n", l.len + 1, row);
        AppendToSingle(ls, ls1, doc.lines, row);
      } else {
        var ls1 := InsertTwice(doc, offset, row, offset + |row|, "\n");
        AppendBeforeLast(ls, ls1, doc.lines, |ls| - 1, row);
      }
    } else {
      var ls1 := InsertTwice(doc, offset, row, offset + |row| + 1, "\n");
      if ls == [] {
        AppendToNone(ls1, doc.lines, row);
      } else {
        AppendOnLast(ls, ls1, doc.lines, |ls| - 1, row);
      }
    }
  }

  /** Put a line before the last line of the buffer, and tell the editor. */
  method CnbAppend(doc: Document, line: string) returns (sent: seq<Function>)
    requires doc.Valid()
    modifies doc, doc.repr
    ensures doc.Valid() && fresh(doc.repr - old(doc.repr))
    ensures doc.lines == AppendLines(old(doc.lines), FirstLine(line))
    ensures sent == Send(AppendMessage(old(doc.lines), FirstLine(line)))
    ensures ApplyAll(EditorText(old(doc.lines)), sent) == EditorText(doc.lines)
            <==> Fits(AppendMessage(old(doc.lines), FirstLine(line))) && AppendsInStep(old(doc.lines), FirstLine(line))
  {
    var row := FirstLine(line);
    assert NewlineFree(doc.lines);
    AppendKeepsInStep(doc.lines, row);
    var l, offset := LastLine(doc);
    sent := Send(Insert(offset, Quote(row + "\n")));
    InsertRow(doc, l, offset, row);
  }

  /** Empty the buffer, and tell the editor to remove all but one newline. */
  method CnbClear(doc: Document) returns (sent: seq<Function>)
    requires doc.Valid() && |Flatten(doc.lines)| < INT_LIMIT
    modifies doc
    ensures doc.Valid() && doc.lines == [] && doc.repr == old(doc.repr)
    ensures sent == ClearMessages(old(doc.lines))
    ensures ApplyAll(EditorText(old(doc.lines)), sent) == EditorText(doc.lines)
  {
    hide ApplyAll, EditorText, SameSize, Flatten, Fits;
    TextSize(doc.lines);
    ClearMends(EditorText(doc.lines), doc.lines);
    StartOfEnd(doc.lines);
    var count, l := 0, doc.txt;
    ghost var k := 0;
    while l != null
      invariant k <= |doc.nodes| && l == doc.At(k) && count == Start(doc.lines, k)
      decreases |doc.nodes| - k
    {
      count := count + l.len + 1;
      l, k := l.next, k + 1;
    }
    count := count - 1;
    if count < 0 {
      count := 0;
    }
    ghost var freed := doc.FreeLines();
    sent := if count != 0 then Send(Remove(0, count)) else [];
  }

  /** Line number `lnum` counted from 1, and the offset of its first character; null when there is none. */
  method LineNumber(doc: Document, lnum: int) returns (l: Line?, offset: nat)
    requires doc.Valid()
    ensures l == if 1 <= lnum <= |doc.lines| then doc.nodes[lnum - 1] else null
    ensures l != null ==> offset == Start(doc.lines, lnum - 1)
  {
    var n := lnum;
    l, offset := doc.txt, 0;
    ghost var k := 0;
    while l != null
      invariant doc.lines == [] ==> l == null
      invariant doc.lines != [] ==> k < |doc.lines| && l == doc.nodes[k] && offset == Start(doc.lines, k)
      invariant n == lnum - k && (k == 0 || n > 0)
      decreases |doc.nodes| - k
    {
      n := n - 1;
      if n <= 0 || l.next == null {
        break;
      }
      offset := offset + l.len + 1;
      l, k := l.next, k + 1;
    }
    if l == null || n != 0 {
      l := null;
    }
  }

  /** Replace the text of line `k` in the linked list. */
  method ReplaceRow(doc: Document, offset: nat, len: int, row: string, ghost k: nat)
    requires doc.Valid() && '\n' !in row
    requires k < |doc.lines| && offset == Start(doc.lines, k) && len == |doc.lines[k]|
    modifies doc, doc.repr
    ensures doc.Valid() && fresh(doc.repr - old(doc.repr))
    ensures doc.lines == old(doc.lines)[k := row]
  {
    ghost var ls := doc.lines;
    if len != 0 {
      doc.LineRemove(offset, len);
    }
    ghost var ls1 := doc.lines;
    doc.LineInsert(offset, row);
    ReplaceSteps(ls, ls1, doc.lines, k, row);
  }

  method ReplaceAndSend(doc: Document, l: Line, offset: nat, row: string, ghost k: nat) returns (sent: seq<Function>)
    requires doc.Valid() && '\n' !in row
    requires k < |doc.lines| && l == doc.nodes[k] && offset == Start(doc.lines, k)
    modifies doc, doc.repr
    ensures doc.Valid() && fresh(doc.repr - old(doc.repr))
    ensures doc.lines == old(doc.lines)[k := row] && sent == ReplaceMessages(old(doc.lines), row, k)
  {
    hide Flatten, Quote, Fits, ApplyAll;
    var len := l.len;
    sent := (if len != 0 then Send(Remove(offset, len)) else [])
            + Send(Insert(offset, Quote(row + "\n\n")))
            + Send(Remove(offset + |row| + 1, 2));
    ghost var ls := doc.lines;
    assert sent == ReplaceMessages(ls, row, k);
    ReplaceRow(doc, offset, len, row, k);
    assert doc.lines == ls[k := row];
  }

  /** Replace line `lnum` of the buffer, and tell the editor. */
  method CnbReplace(doc: Document, line: string, lnum: int) returns (sent: seq<Function>)
    requires doc.Valid()
    requires IntSized(doc.lines, FirstLine(line))
    modifies doc, doc.repr
    ensures doc.Valid() && fresh(doc.repr - old(doc.repr))
    ensures Replaced(old(doc.lines), doc.lines, FirstLine(line), lnum, sent)
  {
    hide Flatten, ApplyAll, ReplaceMessages, Fits, Quote, Start, FirstLine;
    var row := FirstLine(line);
    var l, offset := LineNumber(doc, lnum);
    if l == null {
      sent := [];
    } else {
      ReplaceKeepsInStep(doc.lines, row, lnum - 1);
      sent := ReplaceAndSend(doc, l, offset, row, lnum - 1);
    }
  }

  /**
   * A line number out of range changes nothing. Otherwise that line alone is replaced, and an editor
   * that held the old text holds the new one after the messages exactly when the insertion was sent.
   */
  predicate Replaced(was: seq<string>, now: seq<string>, row: string, lnum: int, sent: seq<Function>) {
    if 1 <= lnum <= |was| then
      && now == was[lnum - 1 := row]
      && sent == ReplaceMessages(was, row, lnum - 1)
      && (ApplyAll(Flatten(was), sent) == Flatten(now) <==> Fits(Insert(Start(was, lnum - 1), Quote(row + "\n\n"))))
    else
      now == was && sent == []
  }
}

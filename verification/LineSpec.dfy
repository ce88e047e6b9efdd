// The document mirror seen as a sequence of lines, and its meaning as one text.

module LineSpec {
  import opened Prelude

  /** Offset of the first character of line `i`. */
  function Start(ls: seq<string>, i: nat): nat
    requires i <= |ls|
  {
    if i == 0 then 0 else Start(ls, i - 1) + |ls[i - 1]| + 1
  }

  predicate Holds(ls: seq<string>, i: nat, offset: int)
    requires i < |ls|
  {
    Start(ls, i) <= offset < Start(ls, i) + |ls[i]| + 1
  }

  /** First line at or after `i` holding `offset` (its newline included), |ls| when there is none. */
  function LocateFrom(ls: seq<string>, i: nat, offset: int): (k: nat)
    requires i <= |ls|
    ensures i <= k <= |ls|
    ensures k < |ls| ==> Holds(ls, k, offset)
    decreases |ls| - i
  {
    if i == |ls| || Holds(ls, i, offset) then i else LocateFrom(ls, i + 1, offset)
  }

  function Locate(ls: seq<string>, offset: int): (k: nat)
    ensures k <= |ls|
    ensures k < |ls| ==> Holds(ls, k, offset)
  {
    LocateFrom(ls, 0, offset)
  }

  /** Column of `offset` in the line that holds it. */
  function Column(ls: seq<string>, offset: int): (c: nat)
    requires Locate(ls, offset) < |ls|
    ensures c <= |ls[Locate(ls, offset)]|
  {
    offset - Start(ls, Locate(ls, offset))
  }

  /** A newline typed at the end of a non-empty last line. */
  predicate NewlineAtEnd(ls: seq<string>, offset: int) {
    var i := Locate(ls, offset);
    i < |ls| && i == |ls| - 1 && ls[i] != "" && Column(ls, offset) == |ls[i]|
  }

  /** What an insertion does to the lines: one line gets longer, or one line is cut in two. */
  function InsertLines(ls: seq<string>, offset: int, text: string): seq<string> {
    var i := Locate(ls, offset);
    if text == "" || ('\n' in text && text != "\n") then
      ls
    else if i == |ls| then
      ls + [if text == "\n" then "" else text]
    else
      var c := Column(ls, offset);
      var left, right := ls[i][..c], ls[i][c..];
      if text != "\n" then ls[i := left + text + right]
      else if NewlineAtEnd(ls, offset) then ls
      else ls[..i] + [left, right] + ls[i + 1..]
  }

  /** 1 for a newline that would cut a line, 0 for any other insertion. */
  function InMiddle(ls: seq<string>, offset: int, text: string): nat {
    var i := Locate(ls, offset);
    if text == "\n" && i < |ls| && 0 < Column(ls, offset) < |ls[i]| then 1 else 0
  }

  /** What a deletion does to the lines: part of one line goes, or one whole line with its newline. */
  function RemoveLines(ls: seq<string>, offset: int, nb: int): seq<string> {
    var i := Locate(ls, offset);
    if nb <= 0 || i == |ls| then
      ls
    else
      var c := Column(ls, offset);
      if c + nb <= |ls[i]| then ls[i := ls[i][..c] + ls[i][c + nb..]]
      else if c == 0 && nb == |ls[i]| + 1 then ls[..i] + ls[i + 1..]
      else ls
  }

  /** The range is inside one line, or is exactly one line and its newline. */
  predicate OneLineRange(ls: seq<string>, offset: int, nb: nat) {
    var i := Locate(ls, offset);
    i < |ls| && (Column(ls, offset) + nb <= |ls[i]| || (Column(ls, offset) == 0 && nb == |ls[i]| + 1))
  }

  // ---------- Flatten and Start ----------

  lemma {:induction false} FlattenAppend(a: seq<string>, b: seq<string>)
    ensures Flatten(a + b) == Flatten(a) + Flatten(b)
  {
    if a == [] {
      assert a + b == b;
    } else {
      assert (a + b)[1..] == a[1..] + b;
      FlattenAppend(a[1..], b);
    }
  }

  lemma {:induction false} StartIsLength(ls: seq<string>, i: nat)
    requires i <= |ls|
    ensures Start(ls, i) == |Flatten(ls[..i])|
  {
    if i == 0 {
    } else {
      StartIsLength(ls, i - 1);
      assert ls[..i] == ls[..i - 1] + [ls[i - 1]];
      FlattenAppend(ls[..i - 1], [ls[i - 1]]);
    }
  }

  /** The text around line `i`. */
  lemma {:induction false} FlattenAt(ls: seq<string>, i: nat)
    requires i < |ls|
    ensures Flatten(ls) == Flatten(ls[..i]) + ls[i] + "\n" + Flatten(ls[i + 1..])
    ensures Start(ls, i) == |Flatten(ls[..i])|
  {
    var tail := [ls[i]] + ls[i + 1..];
    assert ls == ls[..i] + tail;
    FlattenAppend(ls[..i], tail);
    assert tail[1..] == ls[i + 1..];
    StartIsLength(ls, i);
  }

  lemma {:induction false} StartMonotone(ls: seq<string>, i: nat, j: nat)
    requires i < j <= |ls|
    ensures Start(ls, i) + |ls[i]| + 1 <= Start(ls, j)
  {
    if i == j - 1 {
    } else {
      StartMonotone(ls, i, j - 1);
    }
  }

  /** The line found is the first that holds the offset. */
  lemma {:induction false} FirstHolder(ls: seq<string>, i: nat, j: nat, offset: int)
    requires i <= j < |ls| && j < LocateFrom(ls, i, offset)
    ensures !Holds(ls, j, offset)
    decreases |ls| - i
  {
    if i == j {
    } else {
      FirstHolder(ls, i + 1, j, offset);
    }
  }

  /** Only one line can hold an offset. */
  lemma {:induction false} LocateUnique(ls: seq<string>, i: nat, offset: int)
    requires i < |ls| && Holds(ls, i, offset)
    ensures Locate(ls, offset) == i
  {
    var k := Locate(ls, offset);
    if k < i {
      StartMonotone(ls, k, i);
    } else if i < k {
      FirstHolder(ls, 0, i, offset);
    }
  }

  /** Every offset inside the text is held by a line. */
  lemma {:induction false} LocateInside(ls: seq<string>, offset: int)
    ensures 0 <= offset < |Flatten(ls)| <==> Locate(ls, offset) < |ls|
  {
    var k := Locate(ls, offset);
    if k < |ls| {
      FlattenAt(ls, k);
    } else if 0 <= offset < |Flatten(ls)| {
      forall j | 0 <= j < |ls| ensures !Holds(ls, j, offset) {
        FirstHolder(ls, 0, j, offset);
      }
      assert ls[..|ls|] == ls;
      StartIsLength(ls, |ls|);
      NotBefore(ls, |ls|, offset);
    }
  }

  lemma {:induction false} NotBefore(ls: seq<string>, i: nat, offset: int)
    requires i <= |ls| && 0 <= offset
    requires forall j :: 0 <= j < i ==> !Holds(ls, j, offset)
    ensures Start(ls, i) <= offset
  {
    if i == 0 {
    } else {
      NotBefore(ls, i - 1, offset);
      assert !Holds(ls, i - 1, offset);
    }
  }

  // ---------- Lines never hold a newline ----------

  ghost predicate NewlineFree(ls: seq<string>) {
    forall i :: 0 <= i < |ls| ==> '\n' !in ls[i]
  }

  // ---------- Cutting a line in three steps ----------

  /** A line changed at or after its first character still starts where it did. */
  lemma {:induction false} StartPrefix(ls: seq<string>, ls': seq<string>, i: nat)
    requires i <= |ls| && i <= |ls'| && ls[..i] == ls'[..i]
    ensures Start(ls, i) == Start(ls', i)
  {
    if i == 0 {
    } else {
      assert ls[i - 1] == ls[..i][i - 1] && ls'[i - 1] == ls'[..i][i - 1];
      assert ls[..i - 1] == ls[..i][..i - 1] && ls'[..i - 1] == ls'[..i][..i - 1];
      StartPrefix(ls, ls', i - 1);
    }
  }

  /** The tail taken off and the line ended; on the last line the newline is ignored. */
  lemma {:induction false} CutTail(ls: seq<string>, offset: int)
    requires Locate(ls, offset) < |ls| && 0 < Column(ls, offset) < |ls[Locate(ls, offset)]|
    ensures var i, c := Locate(ls, offset), Column(ls, offset);
            var ls1 := RemoveLines(ls, offset, |ls[i]| - c);
            && ls1 == ls[i := ls[i][..c]]
            && Locate(ls1, offset) == i && Column(ls1, offset) == c
  {
    var i, c := Locate(ls, offset), Column(ls, offset);
    assert ls[i][..c] + ls[i][|ls[i]|..] == ls[i][..c];
    StartPrefix(ls, ls[i := ls[i][..c]], i);
    LocateUnique(ls[i := ls[i][..c]], i, offset);
  }

  lemma {:induction false} NewlineBefore(ls: seq<string>, offset: int)
    requires Locate(ls, offset) == |ls| || Column(ls, offset) == 0
    ensures InsertLines(ls, offset, "\n") == ls[..Locate(ls, offset)] + [""] + ls[Locate(ls, offset)..]
  {
    var i := Locate(ls, offset);
    if i < |ls| {
      assert ls[i][..0] == "" && ls[i][0..] == ls[i];
      assert [""] + ls[i..] == ["", ls[i]] + ls[i + 1..];
    }
  }

  lemma {:induction false} NewlineAfter(ls: seq<string>, offset: int)
    requires Locate(ls, offset) < |ls| - 1 && Column(ls, offset) == |ls[Locate(ls, offset)]|
    ensures InsertLines(ls, offset, "\n") == ls[..Locate(ls, offset) + 1] + [""] + ls[Locate(ls, offset) + 1..]
  {
    var i := Locate(ls, offset);
    assert ls[i][..|ls[i]|] == ls[i] && ls[i][|ls[i]|..] == "";
    assert ls[..i + 1] == ls[..i] + [ls[i]];
    assert ls[..i] + [ls[i], ""] + ls[i + 1..] == ls[..i + 1] + [""] + ls[i + 1..];
  }

  lemma {:induction false} NewlineIgnored(ls: seq<string>, offset: int)
    requires ls != [] && Locate(ls, offset) == |ls| - 1
    requires 0 < Column(ls, offset) == |ls[|ls| - 1]|
    ensures InsertLines(ls, offset, "\n") == ls
  {
  }

  lemma {:induction false} TextInLine(ls: seq<string>, offset: int, text: string)
    requires Locate(ls, offset) < |ls| && text != "" && '\n' !in text && NewlineFree(ls)
    ensures var i, c := Locate(ls, offset), Column(ls, offset);
            && InsertLines(ls, offset, text) == ls[i := ls[i][..c] + text + ls[i][c..]]
            && '\n' !in ls[i][..c] + text + ls[i][c..]
  {
    var line := ls[Locate(ls, offset)];
    assert '\n' !in line;
  }

  lemma {:induction false} TextPastTheEnd(ls: seq<string>, offset: int, text: string)
    requires Locate(ls, offset) == |ls| && text != "" && '\n' !in text
    ensures InsertLines(ls, offset, text) == (ls[..|ls|] + [""] + ls[|ls|..])[|ls| := text]
  {
  }

  lemma {:induction false} TextInEmptyLine(ls: seq<string>, offset: int, text: string)
    requires Locate(ls, offset) < |ls| && ls[Locate(ls, offset)] == ""
    requires text != "" && '\n' !in text
    ensures InsertLines(ls, offset, text) == ls[Locate(ls, offset) := text]
  {
    assert ""[..0] + text + ""[0..] == text;
  }

  lemma {:induction false} TailPastTheEnd(ls: seq<string>, offset: int, tail: string)
    requires ls != [] && offset == Start(ls, |ls| - 1) + |ls[|ls| - 1]|
    requires tail != "" && '\n' !in tail
    ensures InsertLines(ls, offset + 1, tail) == ls + [tail]
  {
    StartIsLength(ls, |ls|);
    assert ls[..|ls|] == ls;
    LocateInside(ls, offset + 1);
  }

  lemma {:induction false} TextOnEmptyLine(ls: seq<string>, i: nat, text: string)
    requires i < |ls| && ls[i] == ""
    requires text != "" && '\n' !in text
    ensures InsertLines(ls, Start(ls, i), text) == ls[i := text]
  {
    LocateUnique(ls, i, Start(ls, i));
    TextInEmptyLine(ls, Start(ls, i), text);
  }

  lemma {:induction false} StartOfNewLine(ls: seq<string>, i: nat)
    requires i < |ls|
    ensures Start(ls[..i + 1] + [""] + ls[i + 1..], i + 1) == Start(ls, i) + |ls[i]| + 1
  {
    var ls2 := ls[..i + 1] + [""] + ls[i + 1..];
    assert ls2[..i + 1] == ls[..i + 1];
    StartPrefix(ls, ls2, i + 1);
  }

  /** Putting back the tail of the last line, where the newline was ignored. */
  lemma {:induction false} PutBackLast(ls1: seq<string>, offset: int, right: string)
    requires ls1 != [] && Locate(ls1, offset) == |ls1| - 1 && 0 < Column(ls1, offset) == |ls1[|ls1| - 1]|
    requires right != "" && '\n' !in right
    ensures InsertLines(InsertLines(ls1, offset, "\n"), offset + 1, right) == ls1 + [right]
  {
    NewlineIgnored(ls1, offset);
    hide InsertLines;
    TailPastTheEnd(ls1, offset, right);
  }

  /** Putting back the tail of any other line, on the line that the newline opened. */
  lemma {:induction false} PutBackInner(ls1: seq<string>, offset: int, right: string)
    requires Locate(ls1, offset) < |ls1| - 1 && Column(ls1, offset) == |ls1[Locate(ls1, offset)]|
    requires right != "" && '\n' !in right
    ensures var i := Locate(ls1, offset);
            InsertLines(InsertLines(ls1, offset, "\n"), offset + 1, right) == ls1[..i + 1] + [right] + ls1[i + 1..]
  {
    hide InsertLines;
    var i := Locate(ls1, offset);
    var ls2 := ls1[..i + 1] + [""] + ls1[i + 1..];
    NewlineAfter(ls1, offset);
    StartOfNewLine(ls1, i);
    TextOnEmptyLine(ls2, i + 1, right);
    assert ls2[i + 1 := right] == ls1[..i + 1] + [right] + ls1[i + 1..];
  }

  /**
   * Taking the tail off a line, ending the line and putting the tail back cuts the line, also on
   * the last line, where the newline is ignored and the tail opens a line past the end of the text.
   */
  lemma {:induction false} CutInThreeSteps(ls: seq<string>, ls1: seq<string>, offset: int, i: nat, c: nat, right: string)
    requires NewlineFree(ls)
    requires i == Locate(ls, offset) && i < |ls| && c == Column(ls, offset) && 0 < c < |ls[i]|
    requires ls1 == RemoveLines(ls, offset, |ls[i]| - c) && right == ls[i][c..]
    ensures InMiddle(ls1, offset, "\n") == 0 && '\n' !in right
    ensures InsertLines(InsertLines(ls1, offset, "\n"), offset + 1, right) == InsertLines(ls, offset, "\n")
  {
    CutLine(ls, offset);
    CutTail(ls, offset);
    hide InsertLines, RemoveLines, Column, Locate;
    assert '\n' !in ls[i];
    if i == |ls| - 1 {
      PutBackLast(ls1, offset, right);
    } else {
      PutBackInner(ls1, offset, right);
    }
    assert ls1[..i + 1] + [right] + ls1[i + 1..] == ls[..i] + [ls[i][..c], right] + ls[i + 1..];
  }

  /** A newline inside a line cuts it. */
  lemma {:induction false} CutLine(ls: seq<string>, offset: int)
    requires Locate(ls, offset) < |ls| && 0 < Column(ls, offset) < |ls[Locate(ls, offset)]|
    ensures var i, c := Locate(ls, offset), Column(ls, offset);
            InsertLines(ls, offset, "\n") == ls[..i] + [ls[i][..c], ls[i][c..]] + ls[i + 1..]
  {
  }

  // ---------- Refinement of string editing ----------

  lemma {:induction false} InsInside(pre: string, line: string, post: string, c: nat, text: string)
    requires c <= |line|
    ensures Ins(pre + line + "\n" + post, |pre| + c, text) == pre + (line[..c] + text + line[c..]) + "\n" + post
  {
    var s := pre + line + "\n" + post;
    assert s[..|pre| + c] == pre + line[..c];
    assert s[|pre| + c..] == line[c..] + "\n" + post;
  }

  lemma {:induction false} DelInside(pre: string, line: string, post: string, c: nat, nb: nat)
    requires c + nb <= |line|
    ensures Del(pre + line + "\n" + post, |pre| + c, nb) == pre + (line[..c] + line[c + nb..]) + "\n" + post
  {
    var s := pre + line + "\n" + post;
    assert s[..|pre| + c] == pre + line[..c];
    assert s[|pre| + c + nb..] == line[c + nb..] + "\n" + post;
  }

  lemma {:induction false} DelWhole(pre: string, line: string, post: string)
    ensures Del(pre + line + "\n" + post, |pre|, |line| + 1) == pre + post
  {
    var s := pre + line + "\n" + post;
    assert s[..|pre|] == pre && s[|pre| + |line| + 1..] == post;
  }

  lemma {:induction false} FlattenReplaced(ls: seq<string>, i: nat, line: string)
    requires i < |ls|
    ensures Flatten(ls[i := line]) == Flatten(ls[..i]) + line + "\n" + Flatten(ls[i + 1..])
  {
    var ls' := ls[i := line];
    FlattenAt(ls', i);
    assert ls'[..i] == ls[..i] && ls'[i + 1..] == ls[i + 1..];
  }

  lemma {:induction false} FlattenCut(ls: seq<string>, i: nat, left: string, right: string)
    requires i < |ls|
    ensures Flatten(ls[..i] + [left, right] + ls[i + 1..])
         == Flatten(ls[..i]) + (left + "\n" + right) + "\n" + Flatten(ls[i + 1..])
  {
    var tail := [left, right] + ls[i + 1..];
    assert ls[..i] + [left, right] + ls[i + 1..] == ls[..i] + tail;
    FlattenAppend(ls[..i], tail);
    assert tail[1..] == [right] + ls[i + 1..];
    assert tail[1..][1..] == ls[i + 1..];
    assert Flatten(tail) == left + "\n" + (right + "\n" + Flatten(ls[i + 1..]));
  }

  /** The insertions the mirror refuses. */
  predicate Refused(ls: seq<string>, offset: int, text: string) {
    (text == "\n" && NewlineAtEnd(ls, offset)) || ('\n' in text && text != "\n")
  }

  /** The text around an offset. */
  lemma {:induction false} TextAt(ls: seq<string>, offset: int)
    requires Locate(ls, offset) < |ls|
    ensures var i, c := Locate(ls, offset), Column(ls, offset);
            && Flatten(ls) == Flatten(ls[..i]) + ls[i] + "\n" + Flatten(ls[i + 1..])
            && offset == |Flatten(ls[..i])| + c
  {
    hide Flatten;
    FlattenAt(ls, Locate(ls, offset));
  }

  lemma {:induction false} TextAccepted(ls: seq<string>, offset: nat, text: string)
    requires offset < |Flatten(ls)| && text != "" && '\n' !in text
    ensures Flatten(InsertLines(ls, offset, text)) == Ins(Flatten(ls), offset, text)
  {
    hide Flatten, Ins;
    LocateInside(ls, offset);
    TextAt(ls, offset);
    var i, c := Locate(ls, offset), Column(ls, offset);
    InsInside(Flatten(ls[..i]), ls[i], Flatten(ls[i + 1..]), c, text);
    FlattenReplaced(ls, i, ls[i][..c] + text + ls[i][c..]);
  }

  lemma {:induction false} NewlineAccepted(ls: seq<string>, offset: nat)
    requires offset < |Flatten(ls)| && !NewlineAtEnd(ls, offset)
    ensures Flatten(InsertLines(ls, offset, "\n")) == Ins(Flatten(ls), offset, "\n")
  {
    hide Flatten, Ins;
    LocateInside(ls, offset);
    TextAt(ls, offset);
    var i, c := Locate(ls, offset), Column(ls, offset);
    InsInside(Flatten(ls[..i]), ls[i], Flatten(ls[i + 1..]), c, "\n");
    FlattenCut(ls, i, ls[i][..c], ls[i][c..]);
  }

  /**
   * Insertion in the mirror is insertion in the text at every offset of the text, except for a
   * newline at the end of a non-empty last line and for text mixing a newline with anything else,
   * which leave the mirror alone.
   */
  lemma {:induction false} InsertRefinesText(ls: seq<string>, offset: nat, text: string)
    requires offset < |Flatten(ls)|
    ensures Flatten(InsertLines(ls, offset, text)) == Ins(Flatten(ls), offset, text) <==> !Refused(ls, offset, text)
    ensures Refused(ls, offset, text) ==> InsertLines(ls, offset, text) == ls
  {
    if Refused(ls, offset, text) {
      assert InsertLines(ls, offset, text) == ls;
      assert |Ins(Flatten(ls), offset, text)| > |Flatten(ls)|;
    } else if text == "\n" {
      NewlineAccepted(ls, offset);
    } else if text != "" {
      TextAccepted(ls, offset, text);
    }
  }

  /** An insertion outside the text opens a new last line. */
  lemma {:induction false} InsertOutside(ls: seq<string>, offset: int, text: string)
    requires offset < 0 || offset >= |Flatten(ls)|
    requires text == "\n" || (text != "" && '\n' !in text)
    ensures InsertLines(ls, offset, text) == ls + [if text == "\n" then "" else text]
    ensures Flatten(InsertLines(ls, offset, text)) == Flatten(ls) + (if text == "\n" then "\n" else text + "\n")
  {
    LocateInside(ls, offset);
    FlattenAppend(ls, [if text == "\n" then "" else text]);
  }

  lemma {:induction false} PartRemoved(ls: seq<string>, i: nat, c: nat, nb: nat)
    requires i < |ls| && c + nb <= |ls[i]|
    ensures |Flatten(ls[..i])| + c + nb <= |Flatten(ls)|
    ensures Flatten(ls[i := ls[i][..c] + ls[i][c + nb..]]) == Del(Flatten(ls), |Flatten(ls[..i])| + c, nb)
  {
    hide Flatten, Del;
    FlattenAt(ls, i);
    DelInside(Flatten(ls[..i]), ls[i], Flatten(ls[i + 1..]), c, nb);
    FlattenReplaced(ls, i, ls[i][..c] + ls[i][c + nb..]);
  }

  lemma {:induction false} LineRemoved(ls: seq<string>, i: nat)
    requires i < |ls|
    ensures |Flatten(ls[..i])| + |ls[i]| + 1 <= |Flatten(ls)|
    ensures Flatten(ls[..i] + ls[i + 1..]) == Del(Flatten(ls), |Flatten(ls[..i])|, |ls[i]| + 1)
  {
    hide Flatten, Del;
    FlattenAt(ls, i);
    DelWhole(Flatten(ls[..i]), ls[i], Flatten(ls[i + 1..]));
    FlattenAppend(ls[..i], ls[i + 1..]);
  }

  lemma {:induction false} NothingDeleted(s: string, at: nat)
    requires at <= |s|
    ensures Del(s, at, 0) == s
  {
  }

  lemma {:induction false} RemoveAccepted(ls: seq<string>, offset: nat, nb: nat)
    requires offset + nb <= |Flatten(ls)| && OneLineRange(ls, offset, nb)
    ensures Flatten(RemoveLines(ls, offset, nb)) == Del(Flatten(ls), offset, nb)
  {
    TextAt(ls, offset);
    hide Flatten, Del, Locate, Column;
    var i, c := Locate(ls, offset), Column(ls, offset);
    if nb == 0 {
      NothingDeleted(Flatten(ls), offset);
    } else if c + nb <= |ls[i]| {
      PartRemoved(ls, i, c, nb);
    } else {
      LineRemoved(ls, i);
    }
  }

  /**
   * Deletion in the mirror is deletion in the text exactly for a range inside one line or one whole
   * line with its newline; any other range leaves the mirror alone.
   */
  lemma {:induction false} RemoveRefinesText(ls: seq<string>, offset: nat, nb: nat)
    requires offset + nb <= |Flatten(ls)|
    ensures Flatten(RemoveLines(ls, offset, nb)) == Del(Flatten(ls), offset, nb)
            <==> nb == 0 || OneLineRange(ls, offset, nb)
    ensures !OneLineRange(ls, offset, nb) ==> RemoveLines(ls, offset, nb) == ls
  {
    var f := Flatten(ls);
    if OneLineRange(ls, offset, nb) {
      RemoveAccepted(ls, offset, nb);
    } else {
      assert RemoveLines(ls, offset, nb) == ls;
      assert |Del(f, offset, nb)| == |f| - nb;
      NothingDeleted(f, offset);
    }
  }
}

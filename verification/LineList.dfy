// The linked list of lines clewn keeps for a buffer, changed in place.

module LineList {
  import opened Prelude
  import opened LineSpec

  /** A line: no string at all counts as an empty line. */
  class Line {
    var line: Option<string>
    var len: int
    var next: Line?

    constructor (next: Line?)
      ensures line == None && len == 0 && this.next == next
    {
      line, len, this.next := None, 0, next;
    }

    function Text(): string
      reads this
    {
      if line == None then "" else line.value
    }
  }

  ghost predicate Distinct(ns: seq<Line>) {
    forall i, j :: 0 <= i < j < |ns| ==> ns[i] != ns[j]
  }

  ghost predicate Within(ns: seq<Line>, repr: set<Line>) {
    forall i :: 0 <= i < |ns| ==> ns[i] in repr
  }

  /** The chain from `txt` is `ns`. */
  ghost predicate Linked(txt: Line?, ns: seq<Line>)
    reads ns
  {
    && (ns == [] ==> txt == null)
    && (ns != [] ==> txt == ns[0] && ns[|ns| - 1].next == null)
    && forall i {:trigger ns[i].next} :: 0 <= i < |ns| - 1 ==> ns[i].next == ns[i + 1]
  }

  /** The nodes hold `ls`, no line holds a newline, and every cached length is right. */
  ghost predicate Texts(ns: seq<Line>, ls: seq<string>)
    reads ns
  {
    && |ns| == |ls|
    && forall i {:trigger ls[i]} {:trigger ns[i]} :: 0 <= i < |ns| ==> ns[i].Text() == ls[i]
                                                                       && ns[i].len == |ls[i]| && '\n' !in ls[i]
  }

  lemma {:induction false} ChainInserted(txt: Line, ns: seq<Line>, ls: seq<string>, i: nat, l: Line, repr: set<Line>)
    requires Within(ns, repr) && l in repr
    requires Distinct(ns) && l !in ns && 0 < i <= |ns|
    requires txt == ns[0] && ns[i - 1].next == l
    requires if i == |ns| then l.next == null else l.next == ns[i] && ns[|ns| - 1].next == null
    requires forall k {:trigger ns[k].next} :: 0 <= k < |ns| - 1 && k != i - 1 ==> ns[k].next == ns[k + 1]
    requires Texts(ns, ls) && l.Text() == "" && l.len == 0
    ensures var ns' := ns[..i] + [l] + ns[i..];
            Within(ns', repr) && Distinct(ns') && Linked(txt, ns') && Texts(ns', ls[..i] + [""] + ls[i..])
  {
  }

  lemma {:induction false} ChainRemoved(txt: Line?, ns: seq<Line>, ls: seq<string>, i: nat, repr: set<Line>)
    requires Within(ns, repr)
    requires Distinct(ns) && i < |ns| && Texts(ns, ls)
    requires if i == 0 then txt == ns[0].next else txt == ns[0] && ns[i - 1].next == ns[i].next
    requires i == |ns| - 1 || ns[|ns| - 1].next == null
    requires i == |ns| - 1 ==> ns[i].next == null
    requires forall k {:trigger ns[k].next} :: 0 <= k < |ns| - 1 && k != i - 1 ==> ns[k].next == ns[k + 1]
    ensures var ns' := ns[..i] + ns[i + 1..];
            Within(ns', repr) && Distinct(ns') && Linked(txt, ns') && Texts(ns', ls[..i] + ls[i + 1..])
  {
  }

  class Document {
    var txt: Line?
    ghost var nodes: seq<Line>
    ghost var lines: seq<string>
    ghost var repr: set<Line>

    ghost predicate Valid()
      reads this, repr
    {
      Within(nodes, repr) && Distinct(nodes) && Linked(txt, nodes) && Texts(nodes, lines)
    }

    ghost function At(i: nat): Line?
      reads this
    {
      if i < |nodes| then nodes[i] else null
    }

    constructor ()
      ensures Valid() && lines == [] && repr == {}
    {
      txt, nodes, lines, repr := null, [], [], {};
    }

    /**
     * The link referring to the line that holds `offset`: the one in `prev`, or `txt` when `prev` is
     * null. `cur` is null when no line holds it, and the link is then the last one.
     */
    method LineGet(offset: int) returns (prev: Line?, cur: Line?, start: nat, ghost i: nat)
      requires Valid()
      ensures i == Locate(lines, offset)
      ensures cur == At(Locate(lines, offset)) && start == Start(lines, Locate(lines, offset))
      ensures prev == if Locate(lines, offset) == 0 then null else nodes[Locate(lines, offset) - 1]
    {
      prev, cur, start, i := null, txt, 0, 0;
      while cur != null
        invariant i <= |nodes| && cur == At(i) && start == Start(lines, i)
        invariant prev == if i == 0 then null else nodes[i - 1]
        invariant LocateFrom(lines, i, offset) == Locate(lines, offset)
        decreases |nodes| - i
      {
        if start <= offset < start + cur.len + 1 {
          return;
        }
        start := start + cur.len + 1;
        prev, cur, i := cur, cur.next, i + 1;
      }
    }

    /** The buffer is opened: it has one empty line. */
    method EditFile()
      requires Valid() && lines == []
      modifies this
      ensures Valid() && lines == [""] && fresh(repr - old(repr))
    {
      var l := new Line(null);
      txt, nodes, lines, repr := l, [l], [""], repr + {l};
    }

    /** Free every line. */
    method FreeLines() returns (ghost freed: seq<Line>)
      requires Valid()
      modifies `txt, `nodes, `lines
      ensures Valid() && lines == [] && freed == old(nodes)
    {
      freed := [];
      var l := txt;
      while l != null
        invariant |freed| <= |nodes| && freed == nodes[..|freed|] && l == At(|freed|)
        decreases |nodes| - |freed|
      {
        var next := l.next;
        freed := freed + [l];
        l := next;
      }
      txt, nodes, lines := null, [], [];
    }

    /** Link a new empty line in front of position `i`, after `prev`. */
    method LinkNew(prev: Line?, ghost i: nat) returns (l: Line)
      requires Valid() && i <= |nodes|
      requires prev == if i == 0 then null else nodes[i - 1]
      modifies this, repr
      ensures Valid() && fresh(l) && repr == old(repr) + {l}
      ensures nodes == old(nodes)[..i] + [l] + old(nodes)[i..]
      ensures lines == old(lines)[..i] + [""] + old(lines)[i..]
      ensures l.line == None
    {
      if prev == null {
        l := new Line(txt);
        txt, nodes, lines, repr := l, [l] + nodes, [""] + lines, repr + {l};
      } else {
        l := LinkAfter(prev, i);
      }
    }

    method LinkAfter(prev: Line, ghost i: nat) returns (l: Line)
      requires Valid() && 0 < i <= |nodes| && prev == nodes[i - 1]
      modifies this, repr
      ensures Valid() && fresh(l) && repr == old(repr) + {l}
      ensures nodes == old(nodes)[..i] + [l] + old(nodes)[i..]
      ensures lines == old(lines)[..i] + [""] + old(lines)[i..]
      ensures l.line == None
    {
      ghost var ns, ls := nodes, lines;
      l := new Line(prev.next);
      prev.next := l;
      nodes, lines, repr := ns[..i] + [l] + ns[i..], ls[..i] + [""] + ls[i..], repr + {l};
      ChainInserted(txt, ns, ls, i, l, repr);
    }

    /** Give line `i` a new string. */
    method SetLine(l: Line, s: Option<string>, ghost i: nat)
      requires Valid() && i < |nodes| && l == nodes[i]
      requires s == None || '\n' !in s.value
      modifies this, repr
      ensures Valid() && nodes == old(nodes) && repr == old(repr)
      ensures lines == old(lines)[i := if s == None then "" else s.value]
    {
      l.line := s;
      l.len := if s == None then 0 else |s.value|;
      lines := lines[i := l.Text()];
    }

    /** Insert `text` at `offset`; the code expects a newline to come alone. */
    method LineInsert(offset: int, text: string)
      requires Valid()
      modifies this, repr
      ensures Valid() && lines == InsertLines(old(lines), offset, text)
      ensures fresh(repr - old(repr))
      decreases InMiddle(lines, offset, text), 3
    {
      if '\n' in text {
        if |text| != 1 {
          return;
        }
        assert text == "\n";
        InsertNewline(offset);
      } else if text != "" {
        InsertText(offset, text);
      }
    }

    method InsertNewline(offset: int)
      requires Valid()
      modifies this, repr
      ensures Valid() && lines == InsertLines(old(lines), offset, "\n")
      ensures fresh(repr - old(repr))
      decreases InMiddle(lines, offset, "\n"), 2
    {
      hide InsertLines, Distinct, Within;
      var prev, cur, start, i := LineGet(offset);
      if cur == null || offset == start {
        NewlineBefore(lines, offset);
        var l := LinkNew(prev, i);
      } else {
        BreakLine(offset, cur, start, i);
      }
    }

    /** A newline behind the first character of a line. */
    method BreakLine(offset: int, cur: Line, start: nat, ghost i: nat)
      requires Valid() && i == Locate(lines, offset) && i < |lines| && cur == nodes[i]
      requires start == Start(lines, i) && offset != start
      modifies this, repr
      ensures Valid() && lines == InsertLines(old(lines), offset, "\n")
      ensures fresh(repr - old(repr))
      decreases InMiddle(lines, offset, "\n"), 1
    {
      hide InsertLines, Distinct, Within;
      assert cur.len == |cur.Text()|;  // what the code recomputes here
      var first := offset - start;
      assert 0 < first <= cur.len;  // the out-of-bounds diagnostic cannot fire
      if first != cur.len {
        SplitLine(offset, cur.line.value, first, i);
      } else if cur.next != null {  // ignored at the last position of the buffer
        NewlineAfter(lines, offset);
        var l := LinkNew(cur, i + 1);
      } else {
        NewlineIgnored(lines, offset);
      }
    }

    method InsertText(offset: int, text: string)
      requires Valid() && text != "" && '\n' !in text
      modifies this, repr
      ensures Valid() && lines == InsertLines(old(lines), offset, text)
      ensures fresh(repr - old(repr))
    {
      var prev, l, start, i := LineGet(offset);
      if l == null {
        TextPastTheEnd(lines, offset, text);
        l := LinkNew(prev, i);
        SetLine(l, Some(text), i);
      } else if l.line == None {
        TextInEmptyLine(lines, offset, text);
        SetLine(l, Some(text), i);
      } else {
        var s := l.line.value;
        var first := offset - start;
        assert 0 <= first <= |s|;  // the out-of-bounds diagnostic cannot fire
        assert NewlineFree(lines);
        TextInLine(lines, offset, text);
        SetLine(l, Some(s[..first] + text + s[first..]), i);
      }
    }

    /** A newline in the middle of a line: take the tail off, end the line, put the tail back. */
    method SplitLine(offset: int, line: string, first: nat, ghost i: nat)
      requires Valid() && i < |lines| && line == lines[i]
      requires i == Locate(lines, offset) && first == Column(lines, offset) && 0 < first < |lines[i]|
      modifies this, repr
      ensures Valid() && lines == InsertLines(old(lines), offset, "\n")
      ensures fresh(repr - old(repr))
      decreases 1, 0
    {
      ghost var was := lines;
      var end := line[first..];
      assert NewlineFree(was);
      LineRemove(offset, |line| - first);
      CutInThreeSteps(was, lines, offset, i, first, end);
      EndLine(offset, end);
    }

    method EndLine(offset: int, end: string)
      requires Valid() && '\n' !in end && InMiddle(lines, offset, "\n") == 0
      modifies this, repr
      ensures Valid() && lines == InsertLines(InsertLines(old(lines), offset, "\n"), offset + 1, end)
      ensures fresh(repr - old(repr))
      decreases 0, 4
    {
      LineInsert(offset, "\n");
      LineInsert(offset + 1, end);
    }

    /** Take node `i` out of the chain. */
    method Unlink(prev: Line?, cur: Line, ghost i: nat)
      requires Valid() && i < |nodes| && cur == nodes[i]
      requires prev == if i == 0 then null else nodes[i - 1]
      modifies this, repr
      ensures Valid() && repr == old(repr)
      ensures nodes == old(nodes)[..i] + old(nodes)[i + 1..]
      ensures lines == old(lines)[..i] + old(lines)[i + 1..]
    {
      if prev == null {
        txt := cur.next;
      } else {
        prev.next := cur.next;
      }
      ghost var ns, ls := nodes, lines;
      nodes, lines := ns[..i] + ns[i + 1..], ls[..i] + ls[i + 1..];
      ChainRemoved(txt, ns, ls, i, repr);
    }

    /** Remove `nb` characters at `offset`, within one line or exactly one line and its newline. */
    method LineRemove(offset: int, nb: int)
      requires Valid()
      modifies this, repr
      ensures Valid() && lines == RemoveLines(old(lines), offset, nb)
      ensures repr == old(repr)
    {
      if nb <= 0 {
        return;
      }
      var prev, cur, start, i := LineGet(offset);
      if cur == null {
        return;
      }
      assert cur.len == |cur.Text()|;  // what the code recomputes here
      var first := offset - start;
      assert 0 <= first <= cur.len;  // the out-of-bounds diagnostic cannot fire
      var last := cur.len - first - nb;
      if last < -1 {
        return;
      }
      if last == -1 {
        if first != 0 {
          return;
        }
        Unlink(prev, cur, i);
      } else {
        RemoveInside(cur, first, nb, i);
      }
    }

    /** Remove characters of one line; a line left without characters loses its string. */
    method RemoveInside(cur: Line, first: nat, nb: nat, ghost i: nat)
      requires Valid() && i < |nodes| && cur == nodes[i]
      requires 0 < nb && first + nb <= |lines[i]|
      modifies this, repr
      ensures Valid() && repr == old(repr)
      ensures lines == old(lines)[i := old(lines)[i][..first] + old(lines)[i][first + nb..]]
    {
      var s := cur.line.value;
      assert s == lines[i] && '\n' !in s[..first] + s[first + nb..];
      SetLine(cur, if nb == cur.len then None else Some(s[..first] + s[first + nb..]), i);
    }
  }
}

// The editor's messages, one a line, out of reads that may end anywhere.

module Framing {
  import opened Prelude
  import opened Quoting

  /** Where `c` first is in `s` from `i` on, or |s|. */
  function Index(s: string, c: char, i: nat): (k: nat)
    requires i <= |s|
    ensures i <= k <= |s| && c !in s[i..k] && (k < |s| ==> s[k] == c)
    decreases |s| - i
  {
    if i == |s| || s[i] == c then i
    else
      var k := Index(s, c, i + 1);
      assert s[i..k] == [s[i]] + s[i + 1..k];
      k
  }

  /** What C sees of a buffer: everything before its first NUL. */
  function CString(data: string): string {
    data[..Index(data, '\0', 0)]
  }

  // ---------- A text as lines ----------

  function Wholes(s: string): seq<string>
    decreases s
  {
    var k := Index(s, '\n', 0);
    if k == |s| then [] else [s[..k]] + Wholes(s[k + 1..])
  }

  function Tail(s: string): string
    decreases s
  {
    var k := Index(s, '\n', 0);
    if k == |s| then s else Tail(s[k + 1..])
  }

  lemma {:induction false} IndexIs(s: string, c: char, i: nat, k: nat)
    requires i <= k <= |s| && (forall j :: i <= j < k ==> s[j] != c) && (k < |s| ==> s[k] == c)
    ensures Index(s, c, i) == k
    decreases k - i
  {
    if i == k {
    } else {
      IndexIs(s, c, i + 1, k);
    }
  }

  lemma {:induction false} IndexOf(a: string, b: string)
    requires '\n' !in a && (b == "" || b[0] == '\n')
    ensures Index(a + b, '\n', 0) == |a|
  {
    IndexIs(a + b, '\n', 0, |a|);
  }

  lemma {:induction false} FirstWhole(line: string, s: string)
    requires '\n' !in line
    ensures Wholes(line + "\n" + s) == [line] + Wholes(s) && Tail(line + "\n" + s) == Tail(s)
  {
    var t := line + "\n" + s;
    assert t == line + ("\n" + s);
    IndexOf(line, "\n" + s);
    assert t[..|line|] == line && t[|line| + 1..] == s;
  }

  lemma {:induction false} Unfinished(s: string)
    requires '\n' !in s
    ensures Wholes(s) == [] && Tail(s) == s
  {
    IndexOf(s, "");
    assert s + "" == s;
  }

  /** The lines and the tail are the text, and no newline is inside any of them. */
  lemma {:induction false} LinesAreText(s: string)
    ensures Flatten(Wholes(s)) + Tail(s) == s
    ensures '\n' !in Tail(s) && forall l :: l in Wholes(s) ==> '\n' !in l
    decreases s
  {
    var k := Index(s, '\n', 0);
    assert s[0..k] == s[..k];
    if k == |s| {
    } else {
      LinesAreText(s[k + 1..]);
      var rest := Wholes(s[k + 1..]);
      assert ([s[..k]] + rest)[1..] == rest;
      assert s == s[..k] + "\n" + s[k + 1..];
      Regroup(s[..k] + "\n", Flatten(rest), Tail(s));
    }
  }

  /** No other lines and tail put together are that text. */
  lemma {:induction false} OnlySplit(lines: seq<string>, tail: string)
    requires '\n' !in tail && forall l :: l in lines ==> '\n' !in l
    ensures Wholes(Flatten(lines) + tail) == lines && Tail(Flatten(lines) + tail) == tail
  {
    if lines == [] {
      AppendNone(tail);
      Unfinished(tail);
    } else {
      OnlySplit(lines[1..], tail);
      Regroup(lines[0] + "\n", Flatten(lines[1..]), tail);
      FirstWhole(lines[0], Flatten(lines[1..]) + tail);
    }
  }

  /** Reading on after `a` is reading on after its unfinished tail. */
  lemma {:induction false} SplitOn(a: string, b: string)
    ensures Wholes(a + b) == Wholes(a) + Wholes(Tail(a) + b)
    ensures Tail(a + b) == Tail(Tail(a) + b)
    decreases a
  {
    hide Wholes, Tail;
    var k := Index(a, '\n', 0);
    assert a[0..k] == a[..k];
    if k == |a| {
      Unfinished(a);
      AppendNone(Wholes(a + b));
    } else {
      var line, rest := a[..k], a[k + 1..];
      assert a == line + "\n" + rest;
      Regroup(line + "\n", rest, b);
      FirstWhole(line, rest);
      FirstWhole(line, rest + b);
      SplitOn(rest, b);
      Regroup([line], Wholes(rest), Wholes(Tail(rest) + b));
    }
  }

  // ---------- Lines handed to the parser ----------

  /** The lines handed over so far; `open` until the parser fails. What it says may depend on all of them. */
  datatype Handed = Handed(lines: seq<string>, open: bool)

  function Feed(fails: seq<string> -> bool, h: Handed, lines: seq<string>): Handed
    decreases lines
  {
    if lines == [] || !h.open then h
    else
      var next := h.lines + [lines[0]];
      Feed(fails, Handed(next, !fails(next)), lines[1..])
  }

  lemma {:induction false} FeedOn(fails: seq<string> -> bool, h: Handed, a: seq<string>, b: seq<string>)
    ensures Feed(fails, h, a + b) == Feed(fails, Feed(fails, h, a), b)
    decreases a
  {
    if a == [] {
      AppendNone(b);
    } else {
      assert (a + b)[1..] == a[1..] + b;
      if h.open {
        var next := h.lines + [a[0]];
        FeedOn(fails, Handed(next, !fails(next)), a[1..], b);
      }
    }
  }

  /** All lines are handed over, or those up to and including the first that fails. */
  lemma {:induction false} FeedMeaning(fails: seq<string> -> bool, h: Handed, lines: seq<string>)
    requires h.open
    ensures var r := Feed(fails, h, lines);
            exists n: nat :: n <= |lines| && r.lines == h.lines + lines[..n] && (r.open ==> n == |lines|)
                             && (!r.open ==> n > 0 && fails(h.lines + lines[..n]))
                             && forall j :: 1 <= j < n ==> !fails(h.lines + lines[..j])
    decreases lines
  {
    if lines == [] {
      assert h.lines + lines[..0] == h.lines;
    } else {
      var next := h.lines + [lines[0]];
      assert next == h.lines + lines[..1];
      if !fails(next) {
        FeedMeaning(fails, Handed(next, true), lines[1..]);
        var r := Feed(fails, h, lines);
        var m: nat :| m <= |lines| - 1 && r.lines == next + lines[1..][..m] && (r.open ==> m == |lines| - 1)
                      && (!r.open ==> m > 0 && fails(next + lines[1..][..m]))
                      && forall j :: 1 <= j < m ==> !fails(next + lines[1..][..j]);
        forall j: nat | j <= |lines| - 1 ensures next + lines[1..][..j] == h.lines + lines[..j + 1] {
        }
        forall j | 1 <= j < m + 1 ensures !fails(h.lines + lines[..j]) {
          assert j > 1 ==> !fails(next + lines[1..][..j - 1]);
        }
      }
    }
  }

  // ---------- Reads ----------

  /** A read's data; or the read was interrupted; or it met the end of the connection or an error. */
  datatype ReadResult = Data(bytes: string) | Interrupted | Gone

  datatype Link = Link(line: string, handed: Handed)

  const CONNECTED := Link("", Handed([], true))

  /** What one read does to the partial line and to what was handed over. */
  function DataEvent(fails: seq<string> -> bool, s: Link, r: ReadResult): Link {
    if !s.handed.open || r.Interrupted? then s
    else if r.Gone? then Link("", s.handed.(open := false))
    else
      var text := s.line + CString(r.bytes);
      var h := Feed(fails, s.handed, Wholes(text));
      Link(if h.open then Tail(text) else "", h)
  }

  function DataEvents(fails: seq<string> -> bool, rs: seq<ReadResult>): Link
    decreases rs
  {
    if rs == [] then CONNECTED
    else DataEvent(fails, DataEvents(fails, rs[..|rs| - 1]), rs[|rs| - 1])
  }

  /** The data the reads bring before the connection is gone. */
  function Heard(rs: seq<ReadResult>): seq<string>
    decreases rs
  {
    if rs == [] then []
    else
      var before, r := rs[..|rs| - 1], rs[|rs| - 1];
      Heard(before) + if r.Data? && Gone !in before then [r.bytes] else []
  }

  function Stream(chunks: seq<string>): string
    decreases chunks
  {
    if chunks == [] then "" else Stream(chunks[..|chunks| - 1]) + CString(chunks[|chunks| - 1])
  }

  lemma {:induction false} StreamSnoc(chunks: seq<string>, c: string)
    ensures Stream(chunks + [c]) == Stream(chunks) + CString(c)
  {
    assert (chunks + [c])[..|chunks|] == chunks;
  }

  /**
   * However the stream is cut into reads, interrupted ones among them, the parser gets the lines of
   * what came before the connection was gone, and only the unfinished tail is kept.
   */
  lemma {:induction false} AnyChunking(fails: seq<string> -> bool, rs: seq<ReadResult>)
    ensures var s, got := DataEvents(fails, rs), Feed(fails, CONNECTED.handed, Wholes(Stream(Heard(rs))));
            && s.handed.lines == got.lines
            && (s.handed.open <==> got.open && Gone !in rs)
            && s.line == if s.handed.open then Tail(Stream(Heard(rs))) else ""
    decreases rs
  {
    hide Wholes, Tail, CString, Stream, Feed;
    if rs == [] {
      NothingHeard(fails);
    } else {
      var before, r := rs[..|rs| - 1], rs[|rs| - 1];
      AnyChunking(fails, before);
      assert rs == before + [r];
      if r.Data? && Gone !in before {
        MoreHeard(fails, Stream(Heard(before)), CString(r.bytes));
        StreamSnoc(Heard(before), r.bytes);
        var h := DataEvents(fails, before).handed;
        if !h.open { FeedStops(fails, h, Wholes(Tail(Stream(Heard(before))) + CString(r.bytes))); }
      } else {
        AppendNone(Heard(before));
      }
    }
  }

  lemma {:induction false} NothingHeard(fails: seq<string> -> bool)
    ensures Feed(fails, CONNECTED.handed, Wholes(Stream([]))) == CONNECTED.handed && Tail(Stream([])) == ""
  {
    Unfinished("");
  }

  lemma {:induction false} MoreHeard(fails: seq<string> -> bool, before: string, text: string)
    ensures Feed(fails, CONNECTED.handed, Wholes(before + text))
            == Feed(fails, Feed(fails, CONNECTED.handed, Wholes(before)), Wholes(Tail(before) + text))
    ensures Tail(before + text) == Tail(Tail(before) + text)
  {
    hide Wholes, Tail, Feed;
    SplitOn(before, text);
    FeedOn(fails, CONNECTED.handed, Wholes(before), Wholes(Tail(before) + text));
  }

  /** Of a read that holds a NUL, what is behind its first one is lost. */
  lemma {:induction false} CutAtNul(a: string, b: string)
    requires '\0' !in a
    ensures CString(a + "\0" + b) == a
  {
    var s := a + "\0" + b;
    IndexIs(s, '\0', 0, |a|);
    assert s[..|a|] == a;
  }

  /** A NUL-free stream is seen whole. */
  lemma {:induction false} NulFree(chunks: seq<string>)
    requires forall c :: c in chunks ==> '\0' !in c
    ensures Stream(chunks) == Concat(chunks)
    decreases chunks
  {
    if chunks == [] {
    } else {
      NulFree(chunks[..|chunks| - 1]);
      var c := chunks[|chunks| - 1];
      assert c in chunks;
      IndexIs(c, '\0', 0, |c|);
      assert c[..|c|] == c;
    }
  }

  /** A message with a quoted string, however it is cut, arrives as one line and reads back. */
  lemma {:induction false} QuotedMessageArrives(chunks: seq<string>, lines: seq<string>, head: string,
                                                s: string, rest: string, more: string)
    requires forall c :: c in chunks ==> '\0' !in c
    requires Concat(chunks) == Flatten(lines) + (head + Quote(s) + rest + "\n" + more)
    requires (forall l :: l in lines ==> '\n' !in l) && '\n' !in head && '\n' !in rest
    ensures Wholes(Stream(chunks)) == lines + [head + Quote(s) + rest] + Wholes(more)
    ensures Read((head + Quote(s) + rest)[|head| + 1..]) == Closed(s, rest)
  {
    hide Wholes, Concat, Stream, Flatten;
    NulFree(chunks);
    var line := head + Quote(s) + rest;
    QuotedOnOneLine(s);
    WholeLines(lines, line + "\n" + more);
    FirstWhole(line, more);
    Regroup(lines, [line], Wholes(more));
    assert line[|head| + 1..] == Body(s) + "\"" + rest;
    ReadQuoted(s, rest);
  }

  lemma {:induction false} WholeLines(lines: seq<string>, s: string)
    requires forall l :: l in lines ==> '\n' !in l
    ensures Wholes(Flatten(lines) + s) == lines + Wholes(s)
    decreases lines
  {
    hide Wholes;
    if lines == [] {
      AppendNone(s);
      AppendNone(Wholes(s));
    } else {
      WholeLines(lines[1..], s);
      Regroup(lines[0] + "\n", Flatten(lines[1..]), s);
      FirstWhole(lines[0], Flatten(lines[1..]) + s);
      Regroup([lines[0]], lines[1..], Wholes(s));
      assert [lines[0]] + lines[1..] == lines;
    }
  }

  lemma {:induction false} NextLine(text: string, start: nat, end: nat)
    requires start <= end < |text| && text[end] == '\n' && '\n' !in text[start..end]
    ensures Wholes(text[start..]) == [text[start..end]] + Wholes(text[end + 1..])
    ensures Tail(text[start..]) == Tail(text[end + 1..])
  {
    hide Wholes, Tail;
    FirstWhole(text[start..end], text[end + 1..]);
    assert text[start..] == text[start..end] + "\n" + text[end + 1..];
  }

  lemma {:induction false} FeedFirst(fails: seq<string> -> bool, lines: seq<string>, line: string, rest: seq<string>)
    ensures Feed(fails, Handed(lines, true), [line] + rest)
            == Feed(fails, Handed(lines + [line], !fails(lines + [line])), rest)
  {
    assert ([line] + rest)[1..] == rest;
  }

  lemma {:induction false} FeedStops(fails: seq<string> -> bool, h: Handed, lines: seq<string>)
    requires lines == [] || !h.open
    ensures Feed(fails, h, lines) == h
  {
  }

  class Connection {
    const fails: seq<string> -> bool    // parse_msg's verdict on the last of the lines it has been given
    var line: string
    var open: bool
    var handed: seq<string>

    ghost function State(): Link
      reads this
    {
      Link(line, Handed(handed, open))
    }

    constructor (verdict: seq<string> -> bool)
      ensures fails == verdict && State() == CONNECTED
    {
      fails, line, open, handed := verdict, "", true, [];
    }

    method DataEvt(r: ReadResult)
      modifies this
      ensures State() == DataEvent(fails, old(State()), r)
    {
      hide Wholes, Tail, CString, Index, Feed;
      if !open || r.Interrupted? { return; }
      if r.Gone? {
        line, open := "", false;
        return;
      }
      var text := line + CString(r.bytes);
      var start := 0;
      ghost var all := Feed(fails, Handed(handed, open), Wholes(text));
      assert text[0..] == text;
      while start < |text|
        invariant start <= |text| && open
        invariant all == Feed(fails, Handed(handed, true), Wholes(text[start..]))
        invariant Tail(text) == Tail(text[start..])
      {
        var end := Index(text, '\n', start);
        if end == |text| { break; }
        NextLine(text, start, end);
        FeedFirst(fails, handed, text[start..end], Wholes(text[end + 1..]));
        handed := handed + [text[start..end]];
        if fails(handed) {
          FeedStops(fails, Handed(handed, false), Wholes(text[end + 1..]));
          line, open := "", false;
          return;
        }
        start := end + 1;
      }
      assert text[start..|text|] == text[start..];
      Unfinished(text[start..]);
      FeedStops(fails, Handed(handed, true), []);
      line := text[start..];
    }
  }
}

// Quoted strings of the NetBeans protocol. C strings are sequences without their final NUL.

module Quoting {
  import opened Prelude

  /** The letter that follows the backslash when `c` is escaped. */
  function Escape(c: char): Option<char> {
    if c == '"' || c == '\\' then Some(c)
    else if c == '\n' then Some('n')
    else if c == '\r' then Some('r')
    else None
  }

  /** What the escape letter `c` stands for; None for an illegal escape, which is dropped. */
  function Unescape(c: char): Option<char> {
    if c == '"' || c == '\\' then Some(c)
    else if c == 'n' then Some('\n')
    else if c == 't' then Some('\t')
    else if c == 'r' then Some('\r')
    else None
  }

  function Body(s: string): string {
    if s == [] then ""
    else (if Escape(s[0]) == None then [s[0]] else ['\\', Escape(s[0]).value]) + Body(s[1..])
  }

  function Quote(s: string): string {
    "\"" + Body(s) + "\""
  }

  /** Reading behind an opening quote: up to the matching quote, or to the end without finding it. */
  datatype Reading = Closed(text: string, rest: string) | Open(partial: string)
  {
    function Prepend(t: string): Reading {
      if Closed? then Closed(t + text, rest) else Open(t + partial)
    }
  }

  function Char(c: Option<char>): string {
    if c == None then "" else [c.value]
  }

  function Read(s: string): Reading {
    if s == [] then Open("")
    else if s[0] == '"' then Closed("", s[1..])
    else if s[0] != '\\' then Read(s[1..]).Prepend([s[0]])
    else if |s| == 1 then Open("")
    else Read(s[2..]).Prepend(Char(Unescape(s[1])))
  }

  lemma {:induction false} PrependTwice(r: Reading, a: string, b: string)
    ensures r.Prepend(a).Prepend(b) == r.Prepend(b + a)
  {
    var t := if r.Closed? then r.text else r.partial;
    assert b + (a + t) == b + a + t;
  }

  /** What is read at place `i` of a string. */
  lemma {:induction false} ReadFrom(s: string, i: nat)
    requires i < |s|
    ensures Read(s[i..]) == if s[i] == '"' then Closed("", s[i + 1..])
                            else if s[i] != '\\' then Read(s[i + 1..]).Prepend([s[i]])
                            else if i + 1 == |s| then Open("")
                            else Read(s[i + 2..]).Prepend(Char(Unescape(s[i + 1])))
  {
    hide Unescape;
    assert s[i..][1..] == s[i + 1..];
    if i + 1 < |s| { assert s[i..][2..] == s[i + 2..]; }
  }

  lemma {:induction false} ReadNothing(s: string)
    requires s == ""
    ensures Read(s) == Open("")
  {
  }

  // ---------- Properties ----------

  lemma {:induction false} ReadPlain(c: char, tail: string)
    requires Escape(c) == None
    ensures Read([c] + tail) == Read(tail).Prepend([c])
  {
    assert ([c] + tail)[1..] == tail;
  }

  lemma {:induction false} ReadEscaped(c: char, tail: string)
    requires Escape(c) != None
    ensures Read(['\\', Escape(c).value] + tail) == Read(tail).Prepend([c])
  {
    assert (['\\', Escape(c).value] + tail)[2..] == tail;
  }

  lemma {:induction false} ReadClose(rest: string)
    ensures Read("\"" + rest) == Closed("", rest)
  {
    assert ("\"" + rest)[1..] == rest;
  }

  /** A quoted string reads back as itself, and reading stops right behind it. */
  lemma {:induction false} ReadQuoted(s: string, rest: string)
    ensures Read(Body(s) + "\"" + rest) == Closed(s, rest)
  {
    hide Read;
    if s == [] {
      ReadClose(rest);
      assert Body(s) + "\"" + rest == "\"" + rest;
    } else {
      ReadQuoted(s[1..], rest);
      var tail := Body(s[1..]) + "\"" + rest;
      if Escape(s[0]) == None {
        assert Body(s) + "\"" + rest == [s[0]] + tail;
        ReadPlain(s[0], tail);
      } else {
        assert Body(s) + "\"" + rest == ['\\', Escape(s[0]).value] + tail;
        ReadEscaped(s[0], tail);
      }
      assert [s[0]] + s[1..] == s;
    }
  }

  /** Quoting hides every newline and carriage return, so a quoted string stays on one line. */
  lemma {:induction false} QuotedOnOneLine(s: string)
    ensures '\n' !in Quote(s) && '\r' !in Quote(s)
  {
    if s == [] {
    } else {
      QuotedOnOneLine(s[1..]);
      assert Quote(s[1..]) == "\"" + Body(s[1..]) + "\"";
      assert forall c :: c in Body(s[1..]) ==> c in Quote(s[1..]);
    }
  }

  predicate Special(c: char) {
    c == '"' || c == '\\' || c == '\n' || c == '\r'
  }

  /** Nothing but quotes, backslashes, newlines and carriage returns is written in two characters. */
  lemma {:induction false} OtherwisePlain(s: string)
    ensures Body(s) == s <==> forall i :: 0 <= i < |s| ==> !Special(s[i])
    ensures Body(s) != s ==> |Body(s)| > |s|
  {
    if s == [] {
    } else {
      var t := s[1..];
      OtherwisePlain(t);
      QuotedLength(t);
      assert forall i :: 0 <= i < |t| ==> s[i + 1] == t[i];
      if !Special(s[0]) {
        assert Body(s)[1..] == Body(t);
        assert s == [s[0]] + t;
      } else {
        assert |Body(s)| > |s|;
      }
    }
  }

  lemma {:induction false} QuotedLength(s: string)
    ensures |s| <= |Body(s)| <= 2 * |s|
  {
    if s == [] {
    } else {
      QuotedLength(s[1..]);
    }
  }

  // ---------- Any quoted text, not only what clewn quotes ----------

  const ESCAPES := map['"' := '"', '\\' := '\\', 'n' := '\n', 't' := '\t', 'r' := '\r']

  /** A quoted text piece by piece: a character for itself, or one behind a backslash. */
  datatype Piece = Plain(c: char) | Escaped(c: char)
  {
    function Written(): string {
      if Plain? then [c] else ['\\', c]
    }

    function Meant(): string {
      if Plain? then [c] else if c in ESCAPES then [ESCAPES[c]] else ""
    }

    predicate StaysInside() {
      Plain? ==> c != '"' && c != '\\'
    }
  }

  function Written(ps: seq<Piece>): string {
    if ps == [] then "" else ps[0].Written() + Written(ps[1..])
  }

  function Meant(ps: seq<Piece>): string {
    if ps == [] then "" else ps[0].Meant() + Meant(ps[1..])
  }

  lemma {:induction false} PieceReads(p: Piece, tail: string)
    requires p.StaysInside()
    ensures Read(p.Written() + tail) == Read(tail).Prepend(p.Meant())
  {
    var s := p.Written() + tail;
    if p.Plain? {
      assert s[1..] == tail;
    } else {
      assert s[2..] == tail;
    }
  }

  /**
   * The five escapes give their characters, an illegal one gives nothing, everything else stands for
   * itself: up to the quote, or up to the end where there is none.
   */
  lemma {:induction false} AnyTextReads(ps: seq<Piece>, rest: string)
    requires forall p :: p in ps ==> p.StaysInside()
    ensures Read(Written(ps) + "\"" + rest) == Closed(Meant(ps), rest)
    ensures Read(Written(ps)) == Open(Meant(ps)) && Read(Written(ps) + "\\") == Open(Meant(ps))
  {
    hide Read, Piece.Written, Piece.Meant, Piece.StaysInside;
    if ps == [] {
      ReadClose(rest);
      ReadsNoMore();
      AppendNone("\\");
      assert "" + "\"" + rest == "\"" + rest;
    } else {
      AnyTextReads(ps[1..], rest);
      var a, b := ps[0].Written(), Written(ps[1..]);
      PieceReads(ps[0], b);
      PieceReads(ps[0], b + "\\");
      PieceReads(ps[0], b + "\"" + rest);
      Regroup(a, b, "\\");
      Regroup(a, b, "\"");
      Regroup(a, b + "\"", rest);
    }
  }

  /** Every text is made of such pieces. */
  lemma {:induction false} InPieces(s: string) returns (ps: seq<Piece>, end: string)
    ensures s == Written(ps) + end && forall p :: p in ps ==> p.StaysInside()
    ensures end == "" || end == "\\" || end[0] == '"'
  {
    if s == "" || s == "\\" || s[0] == '"' {
      ps, end := [], s;
    } else {
      var p := if s[0] == '\\' then Escaped(s[1]) else Plain(s[0]);
      var n := |p.Written()|;
      ps, end := InPieces(s[n..]);
      Regroup(p.Written(), Written(ps), end);
      assert s == p.Written() + s[n..];
      ps := [p] + ps;
    }
  }

  lemma {:induction false} ReadsNoMore()
    ensures Read("") == Open("") && Read("\\") == Open("")
  {
  }

  // ---------- The two functions, on an object stack whose object is still growing ----------

  class Scratch {
    var grown: string

    constructor ()
      ensures grown == ""
    {
      grown := "";
    }

    method Grow1(c: char)
      modifies this
      ensures grown == old(grown) + [c]
    {
      grown := grown + [c];
    }

    method Finish() returns (s: string)
      modifies this
      ensures s == old(grown) && grown == ""
    {
      s, grown := grown, "";
    }

    method QuoteString(str: string) returns (r: string)
      modifies this
      ensures r == old(grown) + Quote(str) && grown == ""
    {
      Grow1('"');
      var i := 0;
      while i < |str|
        invariant i <= |str|
        invariant grown + Body(str[i..]) == old(grown) + "\"" + Body(str)
      {
        var escaped := Escape(str[i]);
        assert str[i..][1..] == str[i + 1..];
        if escaped != None {
          assert grown + Body(str[i..]) == grown + ['\\'] + [escaped.value] + Body(str[i + 1..]);
          Grow1('\\');
          Grow1(escaped.value);
        } else {
          assert grown + Body(str[i..]) == grown + [str[i]] + Body(str[i + 1..]);
          Grow1(str[i]);
        }
        i := i + 1;
      }
      assert str[|str|..] == [] && grown + "" == grown;
      Grow1('"');
      assert old(grown) + "\"" + Body(str) + "\"" == old(grown) + Quote(str);
      r := Finish();
    }

    /**
     * Read a quoted string. A string that is not quoted, or not closed, gives None; what was read of
     * an unclosed one stays in the growing object and comes in front of the next string finished.
     */
    method UnquoteString(str: string) returns (r: Option<string>, end: nat)
      modifies this
      ensures str == "" || str[0] != '"' ==> r == None && grown == old(grown)
      ensures str != "" && str[0] == '"' ==>
                match Read(str[1..])
                case Closed(text, rest) => r == Some(old(grown) + text) && grown == "" && end <= |str| && str[end..] == rest
                case Open(partial) => r == None && grown == old(grown) + partial
    {
      r, end := None, 0;
      if str == "" || str[0] != '"' {
        return;
      }
      hide Read, Unescape;
      ghost var answer := Read(str[1..]).Prepend(grown);
      AppendNone(grown);
      var i := 1;
      while i < |str|
        invariant 1 <= i <= |str|
        invariant Read(str[i..]).Prepend(grown) == answer
      {
        ReadFrom(str, i);
        AppendNone(grown);
        if str[i] == '"' {
          end := i + 1;
          var s := Finish();
          r := Some(s);
          return;
        } else if str[i] == '\\' {
          i := i + 1;
          if i == |str| {
            return;
          }
          var c := Unescape(str[i]);
          PrependTwice(Read(str[i + 1..]), Char(c), grown);
          if c != None {
            Grow1(c.value);
          }
        } else {
          PrependTwice(Read(str[i + 1..]), [str[i]], grown);
          Grow1(str[i]);
        }
        i := i + 1;
      }
      ReadNothing(str[i..]);
      AppendNone(grown);
    }
  }
}

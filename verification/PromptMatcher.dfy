// The search for prompts in the program's output, which arrives in pieces.

module PromptMatcher {
  import opened Prelude

  /** The state after one more character: characters matched so far; a full match stays. */
  function Next(ref: string, k: nat, c: char): (r: nat)
    requires k <= |ref|
    ensures r <= |ref|
  {
    if k == |ref| then k
    else if ref[k] == c then k + 1
    else if ref[0] == c then 1
    else 0
  }

  function Matched(ref: string, s: string, k: nat): (r: nat)
    requires k <= |ref|
    ensures r <= |ref|
    decreases s
  {
    if s == "" then k else Next(ref, Matched(ref, s[..|s| - 1], k), s[|s| - 1])
  }

  predicate EndsWith(s: string, t: string) {
    |t| <= |s| && s[|s| - |t|..] == t
  }

  predicate OccursAt(ref: string, s: string, i: nat) {
    i + |ref| <= |s| && s[i..i + |ref|] == ref
  }

  ghost predicate Occurs(ref: string, s: string) {
    exists i: nat :: OccursAt(ref, s, i)
  }

  /** However the stream is cut, matching goes on where it stopped. */
  lemma {:induction false} MatchedSplit(ref: string, a: string, b: string, k: nat)
    requires k <= |ref|
    ensures Matched(ref, a + b, k) == Matched(ref, b, Matched(ref, a, k))
    decreases b
  {
    if b == "" {
      assert a + b == a;
    } else {
      assert (a + b)[..|a + b| - 1] == a + b[..|b| - 1];
      MatchedSplit(ref, a, b[..|b| - 1], k);
    }
  }

  lemma {:induction false} MatchedNext(ref: string, s: string, c: char, k: nat)
    requires k <= |ref|
    ensures Matched(ref, s + [c], k) == Next(ref, Matched(ref, s, k), c)
  {
    assert (s + [c])[..|s|] == s;
  }

  // ---------- When the state can be trusted ----------

  lemma {:induction false} EndsWithNext(s: string, t: string, c: char)
    ensures t != "" ==> (EndsWith(s + [c], t) <==> EndsWith(s, t[..|t| - 1]) && t[|t| - 1] == c)
    ensures EndsWith(s, "")
  {
    if t != "" && |t| <= |s| + 1 {
      var u := (s + [c])[|s| + 1 - |t|..];
      assert u == s[|s| + 1 - |t|..] + [c];
      assert t == t[..|t| - 1] + [t[|t| - 1]];
    }
  }

  lemma {:induction false} OccursAtNext(ref: string, s: string, c: char, i: nat)
    ensures i + |ref| <= |s| ==> (OccursAt(ref, s + [c], i) <==> OccursAt(ref, s, i))
    ensures i + |ref| == |s| + 1 ==> (OccursAt(ref, s + [c], i) <==> EndsWith(s + [c], ref))
  {
    var t := s + [c];
    if i + |ref| <= |s| {
      assert t[i..i + |ref|] == s[i..i + |ref|];
    } else if i + |ref| == |t| {
      assert t[i..i + |ref|] == t[i..];
    }
  }

  lemma {:induction false} OccursNext(ref: string, s: string, c: char)
    ensures Occurs(ref, s + [c]) <==> Occurs(ref, s) || EndsWith(s + [c], ref)
  {
    if Occurs(ref, s + [c]) {
      var i: nat :| OccursAt(ref, s + [c], i);
      OccursAtNext(ref, s, c, i);
    }
    if Occurs(ref, s) {
      var i: nat :| OccursAt(ref, s, i);
      OccursAtNext(ref, s, c, i);
    }
    if EndsWith(s + [c], ref) {
      OccursAtNext(ref, s, c, |s| + 1 - |ref|);
    }
  }

  lemma {:induction false} NextEndsStream(ref: string, s: string, c: char, k: nat)
    requires k < |ref| && EndsWith(s, ref[..k])
    ensures EndsWith(s + [c], ref[..Next(ref, k, c)])
  {
    var r := Next(ref, k, c);
    EndsWithNext(s, ref[..r], c);
    if r == k + 1 {
      assert ref[..r][..k] == ref[..k];
    } else if r == 1 {
      assert ref[..1][..0] == "";
    }
  }

  /** A full match is an occurrence; otherwise the matched characters end the stream. Holds of any prompt. */
  lemma {:induction false} FullMeansOccurs(ref: string, s: string)
    ensures Matched(ref, s, 0) == |ref| ==> Occurs(ref, s)
    ensures Matched(ref, s, 0) < |ref| ==> EndsWith(s, ref[..Matched(ref, s, 0)])
    decreases s
  {
    if s == "" {
      assert |ref| == 0 ==> OccursAt(ref, s, 0);
    } else {
      var t, c := s[..|s| - 1], s[|s| - 1];
      assert s == t + [c];
      FullMeansOccurs(ref, t);
      hide Occurs, EndsWith, Next;
      OccursNext(ref, t, c);
      if Matched(ref, t, 0) < |ref| {
        NextEndsStream(ref, t, c, Matched(ref, t, 0));
        assert ref[..|ref|] == ref;
      } else {
        assert Matched(ref, s, 0) == |ref| by { FullStays(ref, c); }
      }
    }
  }

  lemma {:induction false} FullStays(ref: string, c: char)
    ensures Next(ref, |ref|, c) == |ref|
  {
  }

  /** The first k characters of the prompt end with its first m. */
  predicate Border(ref: string, m: nat, k: nat) {
    1 <= m < k < |ref| && ref[..m] == ref[k - m..k]
  }

  /** Falling back to the start loses nothing: what a partial match ends with again goes on as the match does. */
  ghost predicate Simple(ref: string) {
    forall m: nat, k: nat :: Border(ref, m, k) ==> ref[m] == ref[k]
  }

  /** The longest beginning of the prompt that ends the stream. */
  ghost predicate Longest(ref: string, s: string, k: nat) {
    && k <= |ref| && EndsWith(s, ref[..k])
    && forall j :: k < j <= |ref| ==> !EndsWith(s, ref[..j])
  }

  lemma {:induction false} BothEnd(ref: string, s: string, m: nat, k: nat)
    requires m < k <= |ref| && EndsWith(s, ref[..m]) && EndsWith(s, ref[..k])
    ensures ref[..m] == ref[k - m..k]
  {
    var u := s[|s| - k..];
    assert u == ref[..k];
    assert u[k - m..] == s[|s| - m..];
    assert ref[..k][k - m..] == ref[k - m..k];
  }

  /** No longer beginning than the next state ends the stream. */
  lemma {:induction false} NoLonger(ref: string, s: string, c: char, k: nat, j: nat)
    requires Simple(ref) && k < |ref| && Longest(ref, s, k)
    requires 1 <= j <= |ref| && EndsWith(s + [c], ref[..j])
    ensures j <= Next(ref, k, c)
  {
    EndsWithNext(s, ref[..j], c);
    assert ref[..j][..j - 1] == ref[..j - 1];
    if j - 1 < k {
      BothEnd(ref, s, j - 1, k);
      assert j > 1 ==> Border(ref, j - 1, k);
    }
  }

  lemma {:induction false} LongestNext(ref: string, s: string, c: char, k: nat)
    requires Simple(ref) && k < |ref| && Longest(ref, s, k)
    ensures Longest(ref, s + [c], Next(ref, k, c))
  {
    NextEndsStream(ref, s, c, k);
    hide Next, EndsWith, Simple;
    forall j | Next(ref, k, c) < j <= |ref| ensures !EndsWith(s + [c], ref[..j]) {
      if EndsWith(s + [c], ref[..j]) { NoLonger(ref, s, c, k, j); }
    }
  }

  /** Of a simple prompt, the state is the longest beginning that ends the stream until the prompt occurs. */
  lemma {:induction false} StateIsLongest(ref: string, s: string)
    requires Simple(ref)
    ensures Matched(ref, s, 0) == |ref| <==> Occurs(ref, s)
    ensures !Occurs(ref, s) ==> Longest(ref, s, Matched(ref, s, 0))
    decreases s
  {
    FullMeansOccurs(ref, s);
    if s != "" {
      var t, c := s[..|s| - 1], s[|s| - 1];
      assert s == t + [c];
      StateIsLongest(ref, t);
      OccursNext(ref, t, c);
      hide Occurs, EndsWith, Next, Simple;
      if Occurs(ref, t) {
        FullStays(ref, c);
      } else {
        LongestNext(ref, t, c, Matched(ref, t, 0));
        assert ref[..|ref|] == ref;
      }
    }
  }

  lemma {:induction false} AtMostOneEach(ref: string, s: string, k: nat)
    requires k + |s| <= |ref|
    ensures Matched(ref, s, k) <= k + |s|
    decreases s
  {
    if s == "" {
    } else {
      AtMostOneEach(ref, s[..|s| - 1], k);
    }
  }

  lemma {:induction false} PrefixMatches(ref: string, k: nat)
    requires k <= |ref|
    ensures Matched(ref, ref[..k], 0) == k
    decreases k
  {
    if k == 0 {
    } else {
      PrefixMatches(ref, k - 1);
      assert ref[..k][..k - 1] == ref[..k - 1];
    }
  }

  lemma {:induction false} MissedByMatch(ref: string, m: nat, k: nat)
    requires 1 <= m < k < |ref| && ref[m] != ref[k]
    ensures Matched(ref, ref[..k] + ref[m..], 0) < |ref|
  {
    PrefixMatches(ref, k);
    MatchedSplit(ref, ref[..k], ref[m..], 0);
    assert ref[m..] == [ref[m]] + ref[m + 1..];
    MatchedSplit(ref, [ref[m]], ref[m + 1..], k);
    MatchedNext(ref, "", ref[m], k);
    assert "" + [ref[m]] == [ref[m]];
    assert Next(ref, k, ref[m]) <= 1;
    AtMostOneEach(ref, ref[m + 1..], Next(ref, k, ref[m]));
  }

  /** A stream that holds a prompt that is not simple, and is missed. */
  lemma {:induction false} Missed(ref: string, m: nat, k: nat)
    requires Border(ref, m, k) && ref[m] != ref[k]
    ensures Occurs(ref, ref[..k] + ref[m..])
    ensures Matched(ref, ref[..k] + ref[m..], 0) < |ref|
  {
    var s := ref[..k] + ref[m..];
    assert s[k - m..] == ref[k - m..k] + ref[m..];
    assert s[k - m..k - m + |ref|] == s[k - m..];
    assert ref == ref[..m] + ref[m..];
    assert OccursAt(ref, s, k - m);
    MissedByMatch(ref, m, k);
  }

  /** The matcher reports exactly the streams that hold the prompt, if and only if the prompt is simple. */
  lemma {:induction false} ReportsExactly(ref: string)
    ensures Simple(ref) <==> forall s :: Matched(ref, s, 0) == |ref| <==> Occurs(ref, s)
  {
    if Simple(ref) {
      forall s ensures Matched(ref, s, 0) == |ref| <==> Occurs(ref, s) {
        StateIsLongest(ref, s);
      }
    } else {
      var m: nat, k: nat :| Border(ref, m, k) && ref[m] != ref[k];
      Missed(ref, m, k);
    }
  }

  /** Enough for a prompt to be simple, and true of both prompts built in. */
  predicate FirstStaysFirst(ref: string) {
    forall k :: 1 <= k < |ref| ==> ref[k] != ref[0]
  }

  lemma {:induction false} FirstStaysFirstIsSimple(ref: string)
    requires FirstStaysFirst(ref)
    ensures Simple(ref)
  {
    forall m: nat, k: nat ensures !Border(ref, m, k) {
      assert 1 <= m < k < |ref| ==> ref[..m][0] != ref[k - m..k][0];
    }
  }

  const PASSWORD_PROMPT := "assword"
  const HOST_PROMPT := "The authenticity of host "

  lemma {:induction false} BuiltInPrompts()
    ensures Simple(PASSWORD_PROMPT) && Simple(HOST_PROMPT)
  {
    FirstStaysFirstIsSimple(PASSWORD_PROMPT);
    FirstStaysFirstIsSimple(HOST_PROMPT);
  }

  // ---------- Prompts found over several reads ----------

  const RETURN_INCORRECT_PASSWORD := 5
  const RETURN_HOST_KEY_UNKNOWN := 6

  /** What stays between reads: the password was sent, and the two states. */
  datatype Watch = Watch(sent: bool, state1: nat, state2: nat)

  const NOTHING := Watch(false, 0, 0)

  predicate InRange(prompt: string, w: Watch) {
    w.state1 <= |prompt| && w.state2 <= |HOST_PROMPT|
  }

  /** One read: once the password is sent the rest of the read is not searched for the prompt again. */
  function Look(prompt: string, w: Watch, text: string): (r: (Watch, int))
    requires InRange(prompt, w)
    ensures InRange(prompt, r.0)
  {
    var state1 := Matched(prompt, text, w.state1);
    if state1 == |prompt| && w.sent then (w.(state1 := state1), RETURN_INCORRECT_PASSWORD)
    else
      var state2 := Matched(HOST_PROMPT, text, w.state2);
      (if state1 == |prompt| then Watch(true, 0, state2) else Watch(w.sent, state1, state2),
       if state2 == |HOST_PROMPT| then RETURN_HOST_KEY_UNKNOWN else 0)
  }

  /** All reads, as long as they return 0: the state after them and what the last one returned. */
  function LookAll(prompt: string, chunks: seq<string>): (r: (Watch, int))
    ensures InRange(prompt, r.0)
    decreases chunks
  {
    if chunks == [] then (NOTHING, 0)
    else
      var (w, ret) := LookAll(prompt, chunks[..|chunks| - 1]);
      if ret != 0 then (w, ret) else Look(prompt, w, chunks[|chunks| - 1])
  }

  /** After a read that does not return 0 there are no more. */
  lemma {:induction false} LooksNoMore(prompt: string, a: seq<string>, b: seq<string>)
    requires LookAll(prompt, a).1 != 0
    ensures LookAll(prompt, a + b) == LookAll(prompt, a)
    decreases b
  {
    if b == [] {
      AppendNone(a);
    } else {
      LooksNoMore(prompt, a, b[..|b| - 1]);
      assert (a + b)[..|a + b| - 1] == a + b[..|b| - 1];
    }
  }

  /** The prompt is in what was read. */
  ghost predicate Asked(prompt: string, chunks: seq<string>) {
    chunks != [] && Occurs(prompt, Concat(chunks))
  }

  /** The reads up to the first after which the prompt is in what was read. */
  ghost function FirstAsked(prompt: string, chunks: seq<string>): (n: nat)
    ensures n <= |chunks|
    decreases chunks
  {
    if chunks != [] && Asked(prompt, chunks[..|chunks| - 1]) then FirstAsked(prompt, chunks[..|chunks| - 1]) else |chunks|
  }

  /** What was read since the password was sent. */
  ghost function Since(prompt: string, chunks: seq<string>): string {
    if Asked(prompt, chunks) then Concat(chunks[FirstAsked(prompt, chunks)..]) else Concat(chunks)
  }

  /**
   * What sshpass promises, by what is in the text alone: the prompt a second time, in a read after the one
   * that brought it first, is a wrong password; otherwise the host question is an unknown host.
   */
  ghost function Verdict(prompt: string, chunks: seq<string>): int {
    if chunks != [] && Asked(prompt, chunks[..|chunks| - 1]) && Occurs(prompt, Since(prompt, chunks)) then
      RETURN_INCORRECT_PASSWORD
    else if Occurs(HOST_PROMPT, Concat(chunks)) then RETURN_HOST_KEY_UNKNOWN
    else 0
  }

  /** Nothing before the last read ends the search. */
  ghost predicate GoesOn(prompt: string, chunks: seq<string>) {
    forall k :: 0 <= k < |chunks| ==> Verdict(prompt, chunks[..k]) == 0
  }

  lemma {:induction false} ConcatNext(chunks: seq<string>, text: string, j: nat)
    requires j <= |chunks|
    ensures Concat((chunks + [text])[j..]) == Concat(chunks[j..]) + text
  {
    var r := (chunks + [text])[j..];
    assert r == chunks[j..] + [text];
    assert r[..|r| - 1] == chunks[j..];
  }

  lemma {:induction false} OccursMore(ref: string, a: string, b: string)
    requires Occurs(ref, a)
    ensures Occurs(ref, a + b)
  {
    var i: nat :| OccursAt(ref, a, i);
    assert (a + b)[i..i + |ref|] == a[i..i + |ref|];
    assert OccursAt(ref, a + b, i);
  }

  lemma {:induction false} SinceNext(prompt: string, chunks: seq<string>, text: string)
    ensures Concat(chunks + [text]) == Concat(chunks) + text
    ensures Asked(prompt, chunks) ==> Asked(prompt, chunks + [text])
    ensures Asked(prompt, chunks) ==> Since(prompt, chunks + [text]) == Since(prompt, chunks) + text
    ensures !Asked(prompt, chunks) && Asked(prompt, chunks + [text]) ==> Since(prompt, chunks + [text]) == ""
    ensures !Asked(prompt, chunks + [text]) ==> Since(prompt, chunks + [text]) == Since(prompt, chunks) + text
  {
    var all := chunks + [text];
    assert all[..|all| - 1] == chunks;
    ConcatNext(chunks, text, 0);
    assert all[0..] == all && chunks[0..] == chunks;
    if Asked(prompt, chunks) {
      OccursMore(prompt, Concat(chunks), text);
      ConcatNext(chunks, text, FirstAsked(prompt, chunks));
    } else if Asked(prompt, all) {
      assert all[|all|..] == [];
    }
  }

  /** The password is sent exactly when the prompt has been read, and the last read returns what the text calls for. */
  ghost predicate Judged(prompt: string, chunks: seq<string>) {
    LookAll(prompt, chunks).0.sent == Asked(prompt, chunks) && LookAll(prompt, chunks).1 == Verdict(prompt, chunks)
  }

  /**
   * Of a simple prompt, however the output is cut into reads: the password is sent exactly when the prompt
   * has been read, and the last read returns what the text calls for.
   */
  lemma {:induction false} VerdictIsRight(prompt: string, chunks: seq<string>)
    requires Simple(prompt) && GoesOn(prompt, chunks)
    ensures Judged(prompt, chunks)
    ensures Verdict(prompt, chunks) == 0 ==>
              LookAll(prompt, chunks).0 == Watch(Asked(prompt, chunks), Matched(prompt, Since(prompt, chunks), 0),
                                                Matched(HOST_PROMPT, Concat(chunks), 0))
    decreases chunks
  {
    BuiltInPrompts();
    if chunks == [] {
      StateIsLongest(HOST_PROMPT, "");
      assert Matched(prompt, "", 0) == 0;
    } else {
      var k := |chunks| - 1;
      var before, text := chunks[..k], chunks[k];
      assert chunks == before + [text];
      assert forall j :: 0 <= j < k ==> before[..j] == chunks[..j];
      VerdictIsRight(prompt, before);
      LastRead(prompt, before, text);
    }
  }

  lemma {:induction false} LastRead(prompt: string, before: seq<string>, text: string)
    requires Simple(prompt) && Simple(HOST_PROMPT) && Verdict(prompt, before) == 0
    ensures var chunks := before + [text];
            var w := Watch(Asked(prompt, before), Matched(prompt, Since(prompt, before), 0),
                           Matched(HOST_PROMPT, Concat(before), 0));
            && Look(prompt, w, text).1 == Verdict(prompt, chunks)
            && Look(prompt, w, text).0.sent == Asked(prompt, chunks)
            && (Verdict(prompt, chunks) == 0 ==>
                  Look(prompt, w, text).0 == Watch(Asked(prompt, chunks), Matched(prompt, Since(prompt, chunks), 0),
                                                   Matched(HOST_PROMPT, Concat(chunks), 0)))
  {
    var chunks := before + [text];
    assert chunks[..|chunks| - 1] == before;
    SinceNext(prompt, before, text);
    MatchedSplit(prompt, Since(prompt, before), text, 0);
    MatchedSplit(HOST_PROMPT, Concat(before), text, 0);
    StateIsLongest(prompt, Since(prompt, before) + text);
    StateIsLongest(HOST_PROMPT, Concat(chunks));
    assert Matched(prompt, "", 0) == 0;
    hide Matched, Occurs, Simple, Concat, FirstAsked;
  }

  /** A read that holds the prompt unseen. */
  lemma {:induction false} Unseen(prompt: string, text: string)
    requires Occurs(prompt, text) && Matched(prompt, text, 0) < |prompt|
    ensures GoesOn(prompt, [text]) && !Judged(prompt, [text])
  {
    assert [text][..0] == [] && Concat([text]) == "" + text == text;
    assert LookAll(prompt, [text]) == Look(prompt, NOTHING, text);
    assert !Occurs(HOST_PROMPT, "");
  }

  /** The judgement is right over every sequence of reads if and only if the prompt is simple. */
  lemma {:induction false} JudgesExactly(prompt: string)
    ensures Simple(prompt) <==> forall chunks :: GoesOn(prompt, chunks) ==> Judged(prompt, chunks)
  {
    hide GoesOn, Judged, Matched, Occurs;
    if Simple(prompt) {
      forall chunks | GoesOn(prompt, chunks) ensures Judged(prompt, chunks) {
        VerdictIsRight(prompt, chunks);
      }
    } else {
      var m: nat, k: nat :| Border(prompt, m, k) && prompt[m] != prompt[k];
      Missed(prompt, m, k);
      Unseen(prompt, prompt[..k] + prompt[m..]);
    }
  }

  class Watcher {
    const prompt: string
    var prevmatch: bool
    var state1: nat
    var state2: nat
    ghost var chunks: seq<string>

    ghost predicate Valid()
      reads this
    {
      LookAll(prompt, chunks) == (Watch(prevmatch, state1, state2), 0)
    }

    constructor (pwprompt: string)
      ensures Valid() && prompt == pwprompt && chunks == []
    {
      prompt, prevmatch, state1, state2, chunks := pwprompt, false, 0, 0, [];
    }

    method HandleOutput(text: string) returns (ret: int)
      requires Valid()
      modifies this
      ensures chunks == old(chunks) + [text]
      ensures LookAll(prompt, chunks) == (Watch(prevmatch, state1, state2), ret)
      ensures ret == 0 ==> Valid()
    {
      assert (chunks + [text])[..|chunks|] == chunks;
      chunks := chunks + [text];
      ret := 0;
      state1 := Match(prompt, text, state1);
      if state1 == |prompt| {
        if !prevmatch {
          state1 := 0;
          prevmatch := true;
        } else {
          ret := RETURN_INCORRECT_PASSWORD;
        }
      }
      if ret == 0 {
        state2 := Match(HOST_PROMPT, text, state2);
        if state2 == |HOST_PROMPT| {
          ret := RETURN_HOST_KEY_UNKNOWN;
        }
      }
    }
  }

  method Match(reference: string, buffer: string, start: nat) returns (state: nat)
    requires start <= |reference|
    ensures state == Matched(reference, buffer, start) <= |reference|
  {
    state := start;
    var i := 0;
    while state < |reference| && i < |buffer|
      invariant i <= |buffer|
      invariant state == Matched(reference, buffer[..i], start) <= |reference|
      decreases |buffer| - i
    {
      assert buffer[..i + 1][..i] == buffer[..i];
      if reference[state] == buffer[i] {
        state := state + 1;
      } else {
        state := 0;
        if reference[state] == buffer[i] {
          state := state + 1;
        }
      }
      i := i + 1;
    }
    assert buffer[..i] + buffer[i..] == buffer;
    MatchedSplit(reference, buffer[..i], buffer[i..], start);
    if state == |reference| { StaysFull(reference, buffer[i..]); }
  }

  lemma {:induction false} StaysFull(ref: string, s: string)
    ensures Matched(ref, s, |ref|) == |ref|
    decreases s
  {
    if s == "" {
    } else {
      StaysFull(ref, s[..|s| - 1]);
    }
  }
}

// The functions clewn sends to the editor, and what they do to the text it holds.

module EditorLink {
  import opened Prelude
  import opened Quoting

  const MAXMSGSIZE := 4096
  const NUMBUFLEN := 30
  const INT_LIMIT := 0x8000_0000

  datatype Function = Insert(offset: nat, quoted: string) | Remove(offset: nat, count: nat)

  function Digit(n: nat): char
    requires n < 10
  {
    "0123456789"[n]
  }

  /** A number as printed by "%d". */
  function Decimal(n: nat): string {
    if n < 10 then [Digit(n)] else Decimal(n / 10) + [Digit(n % 10)]
  }

  /** What a string of digits says, the last one counting ones. */
  function Number(digits: string): int
  {
    if digits == "" then 0
    else Number(digits[..|digits| - 1]) * 10 + (digits[|digits| - 1] as int - '0' as int)
  }

  function Name(f: Function): string {
    if f.Insert? then "insert" else "remove"
  }

  function Argument(f: Function): string {
    match f
    case Insert(offset, quoted) => Decimal(offset) + " " + quoted
    case Remove(offset, count) => Decimal(offset) + " " + Decimal(count)
  }

  /** The line as printed, without its NUL. */
  function Line(bufno: string, f: Function, seqno: string): string {
    bufno + ":" + Name(f) + "/" + seqno + " " + Argument(f) + "\n"
  }

  /** A message that could overflow the line buffer is dropped without notice. */
  predicate Fits(f: Function) {
    2 * NUMBUFLEN + |Name(f)| + (|Argument(f)| + 1) + 3 + 1 <= MAXMSGSIZE
  }

  function Send(f: Function): seq<Function> {
    if Fits(f) then [f] else []
  }

  /** The editor reads the quoted text back and edits its own text; a range past the end is cut short. */
  function Apply(text: string, f: Function): string {
    match f
    case Insert(offset, quoted) =>
      if offset <= |text| && quoted != "" && Read(quoted[1..]).Closed?
      then Ins(text, offset, Read(quoted[1..]).text) else text
    case Remove(offset, count) =>
      if offset + count <= |text| then Del(text, offset, count)
      else if offset <= |text| then text[..offset]
      else text
  }

  function ApplyAll(text: string, fs: seq<Function>): string
    decreases fs
  {
    if fs == [] then text else ApplyAll(Apply(text, fs[0]), fs[1..])
  }

  // ---------- Lengths ----------

  lemma {:induction false} DecimalLength(n: nat, k: nat)
    requires 0 < k && n < Power10(k)
    ensures |Decimal(n)| <= k
  {
    if n < 10 {
    } else {
      DecimalLength(n / 10, k - 1);
    }
  }

  function Power10(k: nat): nat {
    if k == 0 then 1 else 10 * Power10(k - 1)
  }

  lemma {:induction false} Int32Length(n: nat)
    requires n < INT_LIMIT
    ensures |Decimal(n)| <= 10
  {
    assert Power10(5) == 100_000;
    assert Power10(10) == 100_000 * 100_000;
    DecimalLength(n, 10);
  }

  lemma {:induction false} RemoveFits(offset: nat, count: nat)
    requires offset < INT_LIMIT && count < INT_LIMIT
    ensures Fits(Remove(offset, count))
  {
    Int32Length(offset);
    Int32Length(count);
  }

  lemma {:induction false} NumberSnoc(a: string, c: char)
    ensures Number(a + [c]) == Number(a) * 10 + (c as int - '0' as int)
  {
    assert (a + [c])[..|a|] == a;
  }

  lemma {:induction false} DigitIs(n: nat)
    requires n < 10
    ensures '0' <= Digit(n) <= '9' && Digit(n) as int - '0' as int == n
  {
  }

  /** Printed numbers read back, and none begins with a zero but 0 itself. */
  lemma {:induction false} DecimalReads(n: nat)
    ensures forall c :: c in Decimal(n) ==> '0' <= c <= '9'
    ensures Number(Decimal(n)) == n
    ensures Decimal(n)[0] == '0' ==> n == 0
  {
    hide Number, Digit;
    DigitIs(n % 10);
    if n < 10 {
      NumberSnoc("", Digit(n));
      NoDigits();
      AppendNone([Digit(n)]);
    } else {
      DecimalReads(n / 10);
      NumberSnoc(Decimal(n / 10), Digit(n % 10));
    }
  }

  lemma {:induction false} NoDigits()
    ensures Number("") == 0
  {
  }

  /** A message is sent exactly when its line and the NUL fit into the buffer whatever the two numbers. */
  lemma {:induction false} FitsExactly(f: Function)
    ensures Fits(f) <==> forall bufno: string, seqno: string :: |bufno| <= NUMBUFLEN && |seqno| <= NUMBUFLEN
                                                        ==> |Line(bufno, f, seqno)| + 1 <= MAXMSGSIZE
  {
    hide Name, Argument;
    var longest := seq(NUMBUFLEN, _ => '9');
    assert Fits(f) <==> |Line(longest, f, longest)| + 1 <= MAXMSGSIZE;
  }

  /** The longest insertion that is sent; one of 4022 characters never is, one of 2006 always. */
  lemma {:induction false} InsertFits(offset: nat, s: string)
    requires offset < INT_LIMIT
    ensures Fits(Insert(offset, Quote(s))) <==> |Decimal(offset)| + |Body(s)| <= 4022
    ensures |s| >= 4022 ==> !Fits(Insert(offset, Quote(s)))
    ensures |s| <= 2006 ==> Fits(Insert(offset, Quote(s)))
  {
    Int32Length(offset);
    QuotedLength(s);
    DecimalReads(offset);
  }

  lemma {:induction false} ApplyQuoted(text: string, offset: nat, s: string)
    requires offset <= |text|
    ensures Apply(text, Insert(offset, Quote(s))) == Ins(text, offset, s)
  {
    ReadQuoted(s, "");
    assert Quote(s)[1..] == Body(s) + "\"" + "";
  }

  lemma {:induction false} ApplyAppend(text: string, a: seq<Function>, b: seq<Function>)
    ensures ApplyAll(text, a + b) == ApplyAll(ApplyAll(text, a), b)
    decreases a
  {
    if a == [] {
      assert a + b == b;
    } else {
      assert (a + b)[1..] == a[1..] + b;
      ApplyAppend(Apply(text, a[0]), a[1..], b);
    }
  }

  lemma {:induction false} ApplyOne(text: string, f: Function)
    requires Fits(f)
    ensures ApplyAll(text, Send(f)) == Apply(text, f)
  {
    assert ApplyAll(text, [f]) == ApplyAll(Apply(text, f), []);
  }

  /** A removal from inside the text takes what there is of its range, and nothing else. */
  lemma {:induction false} RemoveTakes(text: string, offset: nat, count: nat)
    requires offset <= |text|
    ensures var t := Apply(text, Remove(offset, count));
            var n := if offset + count <= |text| then count else |text| - offset;
            |t| == |text| - n && t[..offset] == text[..offset] && t[offset..] == text[offset + n..]
  {
  }

  /** Removing never makes the text longer. */
  lemma {:induction false} RemoveShrinks(text: string, offset: nat, count: nat)
    ensures |Apply(text, Remove(offset, count))| <= |text|
  {
  }
}

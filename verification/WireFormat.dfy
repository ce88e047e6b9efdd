// The primitives of the Protocol Buffers wire format: "Encoding", sections "Base 128 Varints" and
// "Length-Delimited Records".

module WireFormat {
  import opened Prelude

  const TWO31 := 0x8000_0000
  const TWO32 := 0x1_0000_0000
  const TWO63 := 0x8000_0000_0000_0000
  const TWO64 := 0x1_0000_0000_0000_0000

  type int32 = x: int | -TWO31 <= x < TWO31
  type int64 = x: int | -TWO63 <= x < TWO63
  type bytes = seq<byte>

  // ---------- Varints ----------

  /** Seven bits a byte, least significant first; the top bit says that more follow. */
  function Varint(n: nat): bytes {
    if n < 128 then [n as byte] else [(n % 128 + 128) as byte] + Varint(n / 128)
  }

  /** At most `k` bytes of a varint, and what follows it. */
  function ReadVarint(s: bytes, k: nat): Option<(nat, bytes)> {
    if k == 0 || s == [] then None
    else if s[0] < 128 then Some((s[0] as nat, s[1..]))
    else
      match ReadVarint(s[1..], k - 1)
      case None => None
      case Some(r) => Some((s[0] as nat - 128 + 128 * r.0, r.1))
  }

  const MAX_VARINT := 10

  function Read32(s: bytes): Option<(nat, bytes)> {
    match ReadVarint(s, MAX_VARINT)
    case None => None
    case Some(r) => Some((r.0 % TWO32, r.1))
  }

  function Read64(s: bytes): Option<(nat, bytes)> {
    match ReadVarint(s, MAX_VARINT)
    case None => None
    case Some(r) => Some((r.0 % TWO64, r.1))
  }

  function VarintSize(n: nat): nat {
    if n < 128 then 1 else 1 + VarintSize(n / 128)
  }

  function Power128(k: nat): nat {
    if k == 0 then 1 else 128 * Power128(k - 1)
  }

  lemma {:induction false} VarintReads(n: nat, k: nat, rest: bytes)
    requires 0 < k && n < Power128(k)
    ensures ReadVarint(Varint(n) + rest, k) == Some((n, rest))
  {
    var s := Varint(n) + rest;
    if n < 128 {
      assert s[1..] == rest;
    } else {
      VarintReads(n / 128, k - 1, rest);
      assert s[1..] == Varint(n / 128) + rest;
    }
  }

  /** Bytes that all say that more follow are refused: at the end of the input, and after `k` of them. */
  lemma {:induction false} UnendedVarint(s: bytes, k: nat)
    requires forall i :: 0 <= i < k && i < |s| ==> s[i] >= 128
    ensures ReadVarint(s, k) == None
  {
    if k == 0 || s == [] {
    } else {
      UnendedVarint(s[1..], k - 1);
    }
  }

  lemma {:induction false} VarintLength(n: nat)
    ensures |Varint(n)| == VarintSize(n)
  {
    if n < 128 {
    } else {
      VarintLength(n / 128);
    }
  }

  lemma {:induction false} SizeBetween(n: nat, k: nat)
    requires Power128(k) <= n < Power128(k + 1)
    ensures VarintSize(n) == k + 1
  {
    if k == 0 {
    } else {
      SizeBetween(n / 128, k - 1);
    }
  }

  lemma {:induction false} Powers()
    ensures Power128(9) == TWO63 && Power128(10) == 128 * TWO63
  {
    assert Power128(3) == 0x20_0000;
    assert Power128(6) == 0x20_0000 * 0x20_0000;
    assert Power128(9) == 0x20_0000 * 0x20_0000 * 0x20_0000;
  }

  lemma {:induction false} Reads64(n: nat, rest: bytes)
    requires n < TWO64
    ensures Read64(Varint(n) + rest) == Some((n, rest))
    ensures Read32(Varint(n) + rest) == Some((n % TWO32, rest))
  {
    Powers();
    VarintReads(n, 10, rest);
  }

  // ---------- Signed numbers ----------

  /** Negative numbers are sign-extended to 64 bits, also when the field has 32. */
  function Extend(v: int): nat
    requires -TWO63 <= v < TWO63
  {
    if v < 0 then v + TWO64 else v
  }

  function ToInt32(n: nat): int32
    requires n < TWO32
  {
    if n < TWO31 then n else n - TWO32
  }

  function ToInt64(n: nat): int64
    requires n < TWO64
  {
    if n < TWO63 then n else n - TWO64
  }

  function ReadInt32(s: bytes): Option<(int32, bytes)> {
    match Read32(s)
    case None => None
    case Some(r) => Some((ToInt32(r.0), r.1))
  }

  function ReadInt64(s: bytes): Option<(int64, bytes)> {
    match Read64(s)
    case None => None
    case Some(r) => Some((ToInt64(r.0), r.1))
  }

  /** Ten bytes for a negative number. */
  function SignedSize(v: int): nat {
    if v < 0 then MAX_VARINT else VarintSize(v)
  }

  lemma {:induction false} LowBits(v: int32)
    ensures Extend(v) % TWO32 == if v < 0 then v + TWO32 else v
  {
    if v < 0 {
      DivisionOf(TWO32, TWO32 - 1, v + TWO32);
    }
  }

  lemma {:induction false} Int32Reads(v: int32, rest: bytes)
    ensures ReadInt32(Varint(Extend(v)) + rest) == Some((v, rest))
  {
    hide Varint, ReadVarint;
    Reads64(Extend(v), rest);
    LowBits(v);
  }

  lemma {:induction false} Int64Reads(v: int64, rest: bytes)
    ensures ReadInt64(Varint(Extend(v)) + rest) == Some((v, rest))
  {
    Reads64(Extend(v), rest);
  }

  lemma {:induction false} SignedLength(v: int)
    requires -TWO63 <= v < TWO63
    ensures |Varint(Extend(v))| == SignedSize(v)
  {
    VarintLength(Extend(v));
    if v < 0 {
      Powers();
      SizeBetween(Extend(v), 9);
    }
  }

  // ---------- Length-delimited records ----------

  function Delimited(s: bytes): bytes {
    Varint(|s|) + s
  }

  /** A length, that many bytes, and what follows. */
  function ReadDelimited(s: bytes): Option<(bytes, bytes)> {
    match Read32(s)
    case None => None
    case Some(r) => if r.0 < TWO31 && r.0 <= |r.1| then Some((r.1[..r.0], r.1[r.0..])) else None
  }

  function DelimitedSize(n: nat): nat {
    VarintSize(n) + n
  }

  lemma {:induction false} DelimitedReads(s: bytes, rest: bytes)
    requires |s| < TWO31
    ensures ReadDelimited(Delimited(s) + rest) == Some((s, rest))
    ensures |Delimited(s)| == DelimitedSize(|s|)
  {
    Reads64(|s|, s + rest);
    assert Delimited(s) + rest == Varint(|s|) + (s + rest);
    assert (s + rest)[..|s|] == s && (s + rest)[|s|..] == rest;
    VarintLength(|s|);
  }

  /** A record is read exactly when its length is not negative as an int and no more than what is there. */
  lemma {:induction false} DelimitedIff(n: nat, rest: bytes)
    requires n < TWO32
    ensures ReadDelimited(Varint(n) + rest).Some? <==> n < TWO31 && n <= |rest|
  {
    hide Varint, ReadVarint;
    Reads64(n, rest);
  }

  // ---------- Tags ----------

  /** The end of a message: legitimate only where its bytes end, not at a zero or broken tag. */
  datatype Next = End(legitimate: bool) | Tag(tag: nat, rest: bytes)

  function ReadTag(s: bytes): (r: Next)
    ensures r.Tag? ==> |r.rest| < |s|
  {
    if s == [] then End(true)
    else
      match Read32(s)
      case None => End(false)
      case Some(r) => ReadShrinks(s, MAX_VARINT); if r.0 == 0 then End(false) else Tag(r.0, r.1)
  }

  lemma {:induction false} ReadShrinks(s: bytes, k: nat)
    ensures ReadVarint(s, k).Some? ==> |ReadVarint(s, k).value.1| < |s|
  {
    if k == 0 || s == [] {
    } else {
      ReadShrinks(s[1..], k - 1);
    }
  }

  lemma {:induction false} TagReads(tag: byte, rest: bytes)
    requires 0 < tag < 128
    ensures ReadTag([tag] + rest) == Tag(tag as nat, rest)
  {
    assert ([tag] + rest)[1..] == rest;
  }

  /** Skip the value of an unknown field. */
  function SkipField(tag: nat, s: bytes): (r: Option<bytes>)
    ensures r.Some? ==> |r.value| <= |s|
  {
    var wireType := tag % 8;
    if tag / 8 == 0 then None
    else if wireType == 0 then
      ReadShrinks(s, MAX_VARINT);
      if ReadVarint(s, MAX_VARINT).None? then None else Some(ReadVarint(s, MAX_VARINT).value.1)
    else if wireType == 1 then (if |s| < 8 then None else Some(s[8..]))
    else if wireType == 2 then
      ReadShrinks(s, MAX_VARINT);
      if ReadDelimited(s).None? then None else Some(ReadDelimited(s).value.1)
    else if wireType == 5 then (if |s| < 4 then None else Some(s[4..]))
    else None
  }

  /** Field number 0, the end of a group and the two unused wire types cannot be skipped. */
  lemma {:induction false} Unskippable(tag: nat, s: bytes)
    requires tag < 8 || tag % 8 in {4, 6, 7}
    ensures SkipField(tag, s) == None
  {
  }
}

// Reading any bytes: one message behind another, unknown fields, and strings that are not UTF-8.

module AddressBookReading {
  import opened Prelude
  import opened WireFormat
  import opened AddressBookSpec
  import opened AddressBookTheorems

  // ---------- What is read does not depend on what follows ----------

  lemma {:induction false} VarintThen(s: bytes, k: nat, rest: bytes)
    requires ReadVarint(s, k).Some?
    ensures ReadVarint(s + rest, k) == Some((ReadVarint(s, k).value.0, ReadVarint(s, k).value.1 + rest))
  {
    assert (s + rest)[1..] == s[1..] + rest;
    if s[0] < 128 {
    } else {
      VarintThen(s[1..], k - 1, rest);
    }
  }

  lemma {:induction false} DelimitedThen(s: bytes, rest: bytes)
    requires ReadDelimited(s).Some?
    ensures ReadDelimited(s + rest) == Some((ReadDelimited(s).value.0, ReadDelimited(s).value.1 + rest))
  {
    VarintThen(s, MAX_VARINT, rest);
    var r := Read32(s).value;
    assert (r.1 + rest)[..r.0] == r.1[..r.0] && (r.1 + rest)[r.0..] == r.1[r.0..] + rest;
  }

  lemma {:induction false} SkipThen(tag: nat, s: bytes, rest: bytes)
    requires SkipField(tag, s).Some?
    ensures SkipField(tag, s + rest) == Some(SkipField(tag, s).value + rest)
  {
    hide ReadVarint, ReadDelimited;
    if tag % 8 == 0 {
      VarintThen(s, MAX_VARINT, rest);
    } else if tag % 8 == 1 {
      assert (s + rest)[8..] == s[8..] + rest;
    } else if tag % 8 == 2 {
      DelimitedThen(s, rest);
    } else {
      assert (s + rest)[4..] == s[4..] + rest;
    }
  }

  lemma {:induction false} TagThen(s: bytes, rest: bytes)
    requires ReadTag(s).Tag?
    ensures ReadTag(s + rest) == Tag(ReadTag(s).tag, ReadTag(s).rest + rest)
  {
    hide ReadVarint;
    VarintThen(s, MAX_VARINT, rest);
  }

  lemma {:induction false} PhoneFieldThen(m: PhoneNumber, tag: nat, s: bytes, rest: bytes, utf8: Utf8)
    requires PhoneField(m, tag, s, utf8).Some?
    ensures PhoneField(m, tag, s + rest, utf8)
         == Some((PhoneField(m, tag, s, utf8).value.0, PhoneField(m, tag, s, utf8).value.1 + rest))
  {
    hide ReadVarint, ReadDelimited, SkipField;
    if tag == 10 {
      DelimitedThen(s, rest);
    } else if tag == 16 {
      VarintThen(s, MAX_VARINT, rest);
    } else {
      SkipThen(tag, s, rest);
    }
  }

  lemma {:induction false} TimeFieldThen(m: Timestamp, tag: nat, s: bytes, rest: bytes)
    requires TimeField(m, tag, s).Some?
    ensures TimeField(m, tag, s + rest) == Some((TimeField(m, tag, s).value.0, TimeField(m, tag, s).value.1 + rest))
  {
    hide ReadVarint, SkipField;
    if tag == 8 || tag == 16 {
      VarintThen(s, MAX_VARINT, rest);
    } else {
      SkipThen(tag, s, rest);
    }
  }

  lemma {:induction false} PersonFieldThen(m: Person, tag: nat, s: bytes, rest: bytes, utf8: Utf8)
    requires PersonField(m, tag, s, utf8).Some?
    ensures PersonField(m, tag, s + rest, utf8)
         == Some((PersonField(m, tag, s, utf8).value.0, PersonField(m, tag, s, utf8).value.1 + rest))
  {
    hide ReadVarint, ReadDelimited, SkipField, ParsePhone, ParseTime;
    if tag == 10 || tag == 26 || tag == 34 || tag == 42 {
      DelimitedThen(s, rest);
    } else if tag == 16 {
      VarintThen(s, MAX_VARINT, rest);
    } else {
      SkipThen(tag, s, rest);
    }
  }

  lemma {:induction false} BookFieldThen(m: AddressBook, tag: nat, s: bytes, rest: bytes, utf8: Utf8)
    requires BookField(m, tag, s, utf8).Some?
    ensures BookField(m, tag, s + rest, utf8)
         == Some((BookField(m, tag, s, utf8).value.0, BookField(m, tag, s, utf8).value.1 + rest))
  {
    hide ReadVarint, ReadDelimited, SkipField, ParsePerson;
    if tag == 10 {
      DelimitedThen(s, rest);
    } else {
      SkipThen(tag, s, rest);
    }
  }

  // ---------- One message behind another, whatever their bytes ----------

  /** Where a message's bytes end legitimately, reading goes on in the bytes behind it. */
  lemma {:induction false} PhoneThen(m: PhoneNumber, s: bytes, rest: bytes, utf8: Utf8)
    requires ParsePhone(m, s, utf8).Some? && ParsePhone(m, s, utf8).value.1
    ensures ParsePhone(m, s + rest, utf8) == ParsePhone(ParsePhone(m, s, utf8).value.0, rest, utf8)
    decreases |s|
  {
    hide PhoneField;
    if s == [] {
      AppendNone(rest);
    } else {
      TagThen(s, rest);
      var next := ReadTag(s);
      PhoneFieldThen(m, next.tag, next.rest, rest, utf8);
      var r := PhoneField(m, next.tag, next.rest, utf8).value;
      PhoneThen(r.0, r.1, rest, utf8);
    }
  }

  lemma {:induction false} TimeThen(m: Timestamp, s: bytes, rest: bytes)
    requires ParseTime(m, s).Some? && ParseTime(m, s).value.1
    ensures ParseTime(m, s + rest) == ParseTime(ParseTime(m, s).value.0, rest)
    decreases |s|
  {
    hide TimeField;
    if s == [] {
      AppendNone(rest);
    } else {
      TagThen(s, rest);
      var next := ReadTag(s);
      TimeFieldThen(m, next.tag, next.rest, rest);
      var r := TimeField(m, next.tag, next.rest).value;
      TimeThen(r.0, r.1, rest);
    }
  }

  lemma {:induction false} PersonThen(m: Person, s: bytes, rest: bytes, utf8: Utf8)
    requires ParsePerson(m, s, utf8).Some? && ParsePerson(m, s, utf8).value.1
    ensures ParsePerson(m, s + rest, utf8) == ParsePerson(ParsePerson(m, s, utf8).value.0, rest, utf8)
    decreases |s|
  {
    hide PersonField;
    if s == [] {
      AppendNone(rest);
    } else {
      TagThen(s, rest);
      var next := ReadTag(s);
      PersonFieldThen(m, next.tag, next.rest, rest, utf8);
      var r := PersonField(m, next.tag, next.rest, utf8).value;
      PersonThen(r.0, r.1, rest, utf8);
    }
  }

  lemma {:induction false} BookThen(m: AddressBook, s: bytes, rest: bytes, utf8: Utf8)
    requires ParseBook(m, s, utf8).Some? && ParseBook(m, s, utf8).value.1
    ensures ParseBook(m, s + rest, utf8) == ParseBook(ParseBook(m, s, utf8).value.0, rest, utf8)
    decreases |s|
  {
    hide BookField;
    if s == [] {
      AppendNone(rest);
    } else {
      TagThen(s, rest);
      var next := ReadTag(s);
      BookFieldThen(m, next.tag, next.rest, rest, utf8);
      var r := BookField(m, next.tag, next.rest, utf8).value;
      BookThen(r.0, r.1, rest, utf8);
    }
  }

  // ---------- Fields this version does not know ----------

  /** A field in each of the four wire types that can be skipped. */
  datatype Unknown =
    | Number(field: nat, n: nat)
    | Fixed64(field: nat, value: bytes)
    | Record(field: nat, value: bytes)
    | Fixed32(field: nat, value: bytes)
  {
    ghost predicate Valid() {
      && 1 <= field < 0x2000_0000
      && (Number? ==> n < TWO64)
      && (Fixed64? ==> |value| == 8)
      && (Record? ==> |value| < TWO31)
      && (Fixed32? ==> |value| == 4)
    }

    function Tag(): nat {
      field * 8 + if Number? then 0 else if Fixed64? then 1 else if Record? then 2 else 5
    }

    function Value(): bytes {
      match this
      case Number(_, n) => Varint(n)
      case Fixed64(_, value) => value
      case Record(_, value) => Delimited(value)
      case Fixed32(_, value) => value
    }

    function Bytes(): bytes {
      Varint(Tag()) + Value()
    }
  }

  lemma {:induction false} SkipsValue(u: Unknown, rest: bytes)
    requires u.Valid()
    ensures SkipField(u.Tag(), u.Value() + rest) == Some(rest)
  {
    hide ReadVarint, Varint;
    match u
    case Number(field, n) =>
      Powers();
      hide Power128;
      VarintReads(n, MAX_VARINT, rest);
    case Fixed64(_, value) => assert (value + rest)[8..] == rest;
    case Record(_, value) => DelimitedReads(value, rest);
    case Fixed32(_, value) => assert (value + rest)[4..] == rest;
  }

  lemma {:induction false} AnyTagReads(tag: nat, rest: bytes)
    requires 0 < tag < TWO32
    ensures ReadTag(Varint(tag) + rest) == Next.Tag(tag, rest)
  {
    hide ReadVarint;
    Reads64(tag, rest);
  }

  lemma {:induction false} UnknownReads(u: Unknown, rest: bytes)
    requires u.Valid()
    ensures ReadTag(u.Bytes() + rest) == Tag(u.Tag(), u.Value() + rest)
    ensures SkipField(u.Tag(), u.Value() + rest) == Some(rest)
  {
    hide Varint, ReadTag, SkipField, Delimited;
    Regroup(Varint(u.Tag()), u.Value(), rest);
    AnyTagReads(u.Tag(), u.Value() + rest);
    SkipsValue(u, rest);
  }

  /** A phone number read up to an unknown field is read on behind it. */
  lemma {:induction false} PhoneSkips(m: PhoneNumber, s: bytes, u: Unknown, rest: bytes, utf8: Utf8)
    requires ParsePhone(m, s, utf8).Some? && ParsePhone(m, s, utf8).value.1
    requires u.Valid() && u.Tag() !in {10, 16}
    ensures ParsePhone(m, s + (u.Bytes() + rest), utf8) == ParsePhone(m, s + rest, utf8)
  {
    hide SkipField, ReadTag;
    PhoneThen(m, s, u.Bytes() + rest, utf8);
    PhoneThen(m, s, rest, utf8);
    UnknownReads(u, rest);
  }

  lemma {:induction false} TimeSkips(m: Timestamp, s: bytes, u: Unknown, rest: bytes)
    requires ParseTime(m, s).Some? && ParseTime(m, s).value.1
    requires u.Valid() && u.Tag() !in {8, 16}
    ensures ParseTime(m, s + (u.Bytes() + rest)) == ParseTime(m, s + rest)
  {
    hide SkipField, ReadTag;
    TimeThen(m, s, u.Bytes() + rest);
    TimeThen(m, s, rest);
    UnknownReads(u, rest);
  }

  lemma {:induction false} PersonSkips(m: Person, s: bytes, u: Unknown, rest: bytes, utf8: Utf8)
    requires ParsePerson(m, s, utf8).Some? && ParsePerson(m, s, utf8).value.1
    requires u.Valid() && u.Tag() !in {10, 16, 26, 34, 42}
    ensures ParsePerson(m, s + (u.Bytes() + rest), utf8) == ParsePerson(m, s + rest, utf8)
  {
    hide SkipField, ReadTag;
    PersonThen(m, s, u.Bytes() + rest, utf8);
    PersonThen(m, s, rest, utf8);
    UnknownReads(u, rest);
  }

  lemma {:induction false} BookSkips(m: AddressBook, s: bytes, u: Unknown, rest: bytes, utf8: Utf8)
    requires ParseBook(m, s, utf8).Some? && ParseBook(m, s, utf8).value.1
    requires u.Valid() && u.Tag() != 10
    ensures ParseBook(m, s + (u.Bytes() + rest), utf8) == ParseBook(m, s + rest, utf8)
  {
    hide SkipField, ReadTag;
    BookThen(m, s, u.Bytes() + rest, utf8);
    BookThen(m, s, rest, utf8);
    UnknownReads(u, rest);
  }

  // ---------- Messages that do not end where their bytes do ----------

  /** What ends a message early: a zero byte, or a tag that does not end. */
  predicate Stray(s: bytes) {
    s != [] && (s[0] == 0 || forall i :: 0 <= i < |s| && i < MAX_VARINT ==> s[i] >= 128)
  }

  lemma {:induction false} StrayTag(s: bytes)
    requires Stray(s)
    ensures ReadTag(s) == End(false)
  {
    if s[0] != 0 { UnendedVarint(s, MAX_VARINT); }
  }

  /** Behind a whole book, such bytes are left, and the end is reported as not legitimate. */
  lemma {:induction false} BookStops(m: AddressBook, s: bytes, stray: bytes, utf8: Utf8)
    requires ParseBook(m, s, utf8).Some? && ParseBook(m, s, utf8).value.1 && Stray(stray)
    ensures ParseBook(m, s + stray, utf8) == Some((ParseBook(m, s, utf8).value.0, false))
  {
    hide ReadTag, BookField, Stray;
    BookThen(m, s, stray, utf8);
    StrayTag(stray);
  }

  /** Inside a nested message they make reading fail. */
  lemma {:induction false} PhoneStops(s: bytes, stray: bytes, rest: bytes, utf8: Utf8)
    requires ParsePhone(NO_PHONE, s, utf8).Some? && ParsePhone(NO_PHONE, s, utf8).value.1 && Stray(stray)
    requires |s + stray| < TWO31
    ensures ReadPhone(Delimited(s + stray) + rest, utf8) == None
  {
    hide ReadTag, PhoneField, Stray, Delimited, ReadDelimited;
    DelimitedReads(s + stray, rest);
    PhoneThen(NO_PHONE, s, stray, utf8);
    StrayTag(stray);
  }

  lemma {:induction false} TimeStops(m: Timestamp, s: bytes, stray: bytes, rest: bytes)
    requires ParseTime(m, s).Some? && ParseTime(m, s).value.1 && Stray(stray)
    requires |s + stray| < TWO31
    ensures ReadTime(m, Delimited(s + stray) + rest) == None
  {
    hide ReadTag, TimeField, Stray, Delimited, ReadDelimited;
    DelimitedReads(s + stray, rest);
    TimeThen(m, s, stray);
    StrayTag(stray);
  }

  lemma {:induction false} PersonStops(s: bytes, stray: bytes, rest: bytes, utf8: Utf8)
    requires ParsePerson(NO_PERSON, s, utf8).Some? && ParsePerson(NO_PERSON, s, utf8).value.1 && Stray(stray)
    requires |s + stray| < TWO31
    ensures ReadPerson(Delimited(s + stray) + rest, utf8) == None
  {
    hide ReadTag, PersonField, Stray, Delimited, ReadDelimited;
    DelimitedReads(s + stray, rest);
    PersonThen(NO_PERSON, s, stray, utf8);
    StrayTag(stray);
  }

  // ---------- Strings ----------

  predicate PhoneStrings(p: PhoneNumber, utf8: Utf8) {
    p.number != [] ==> utf8(p.number)
  }

  predicate PersonStrings(p: Person, utf8: Utf8) {
    && (p.name != [] ==> utf8(p.name)) && (p.email != [] ==> utf8(p.email))
    && (forall i :: 0 <= i < |p.phones| ==> PhoneStrings(p.phones[i], utf8))
  }

  predicate BookStrings(b: AddressBook, utf8: Utf8) {
    forall i :: 0 <= i < |b.people| ==> PersonStrings(b.people[i], utf8)
  }

  /** Reading lets no string in that is not UTF-8. */
  lemma {:induction false} PhoneKeepsStrings(m: PhoneNumber, s: bytes, utf8: Utf8)
    requires PhoneStrings(m, utf8)
    ensures ParsePhone(m, s, utf8).Some? ==> PhoneStrings(ParsePhone(m, s, utf8).value.0, utf8)
    decreases |s|
  {
    hide ReadTag, SkipField, ReadDelimited, ReadVarint;
    var next := ReadTag(s);
    if next.Tag? && PhoneField(m, next.tag, next.rest, utf8).Some? {
      var r := PhoneField(m, next.tag, next.rest, utf8).value;
      PhoneKeepsStrings(r.0, r.1, utf8);
    }
  }

  lemma {:induction false} PersonFieldStrings(m: Person, tag: nat, s: bytes, utf8: Utf8)
    requires PersonStrings(m, utf8)
    ensures PersonField(m, tag, s, utf8).Some? ==> PersonStrings(PersonField(m, tag, s, utf8).value.0, utf8)
  {
    hide SkipField, ReadDelimited, ReadVarint, ParsePhone, ParseTime;
    if tag == 34 && ReadDelimited(s).Some? {
      PhoneKeepsStrings(NO_PHONE, ReadDelimited(s).value.0, utf8);
    }
  }

  lemma {:induction false} PersonKeepsStrings(m: Person, s: bytes, utf8: Utf8)
    requires PersonStrings(m, utf8)
    ensures ParsePerson(m, s, utf8).Some? ==> PersonStrings(ParsePerson(m, s, utf8).value.0, utf8)
    decreases |s|
  {
    hide ReadTag, PersonField, PersonStrings;
    var next := ReadTag(s);
    if next.Tag? && PersonField(m, next.tag, next.rest, utf8).Some? {
      PersonFieldStrings(m, next.tag, next.rest, utf8);
      var r := PersonField(m, next.tag, next.rest, utf8).value;
      PersonKeepsStrings(r.0, r.1, utf8);
    }
  }

  lemma {:induction false} BookFieldStrings(m: AddressBook, tag: nat, s: bytes, utf8: Utf8)
    requires BookStrings(m, utf8)
    ensures BookField(m, tag, s, utf8).Some? ==> BookStrings(BookField(m, tag, s, utf8).value.0, utf8)
  {
    assert PersonStrings(NO_PERSON, utf8);
    hide SkipField, ReadDelimited, ReadVarint, ParsePerson, PersonStrings;
    if tag == 10 && ReadDelimited(s).Some? {
      PersonKeepsStrings(NO_PERSON, ReadDelimited(s).value.0, utf8);
    }
  }

  lemma {:induction false} BookKeepsStrings(m: AddressBook, s: bytes, utf8: Utf8)
    requires BookStrings(m, utf8)
    ensures ParseBook(m, s, utf8).Some? ==> BookStrings(ParseBook(m, s, utf8).value.0, utf8)
    decreases |s|
  {
    hide ReadTag, BookField, BookStrings;
    var next := ReadTag(s);
    if next.Tag? && BookField(m, next.tag, next.rest, utf8).Some? {
      BookFieldStrings(m, next.tag, next.rest, utf8);
      var r := BookField(m, next.tag, next.rest, utf8).value;
      BookKeepsStrings(r.0, r.1, utf8);
    }
  }

  // ---------- The exact books that survive ----------

  lemma {:induction false} PhonesFit(ps: seq<PhoneNumber>, n: nat, i: nat)
    requires i < n <= |ps|
    ensures PhoneSize(ps[i]) <= PhonesSize(ps, n)
  {
    if i == n - 1 {
    } else {
      PhonesFit(ps, n - 1, i);
    }
  }

  lemma {:induction false} PersonOkIff(p: Person, utf8: Utf8)
    requires PersonSize(p) < TWO31
    ensures PersonOk(p, utf8) <==> PersonStrings(p, utf8)
  {
    hide PhoneSize;
    forall i | 0 <= i < |p.phones| ensures PhoneOk(p.phones[i], utf8) <==> PhoneStrings(p.phones[i], utf8) {
      PhonesFit(p.phones, |p.phones|, i);
    }
  }

  /** A book of people under 2 GiB each comes back from its bytes exactly when all its strings are UTF-8. */
  lemma {:induction false} RoundTripIff(b: AddressBook, utf8: Utf8)
    requires forall i :: 0 <= i < |b.people| ==> PersonSize(b.people[i]) < TWO31
    ensures ParseBook(NO_BOOK, BookBytes(b), utf8) == Some((b, true)) <==> BookStrings(b, utf8)
  {
    hide PersonSize, PersonStrings, PersonOk, ParseBook, BookBytes;
    forall i | 0 <= i < |b.people| ensures PersonOk(b.people[i], utf8) <==> PersonStrings(b.people[i], utf8) {
      PersonOkIff(b.people[i], utf8);
    }
    if BookStrings(b, utf8) {
      RoundTrip(b, utf8);
    } else {
      BookKeepsStrings(NO_BOOK, BookBytes(b), utf8);
    }
  }
}

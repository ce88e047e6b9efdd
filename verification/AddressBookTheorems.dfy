// Sizes are right at every level; reading what was written merges it.

module AddressBookTheorems {
  import opened Prelude
  import opened WireFormat
  import opened AddressBookSpec

  // ---------- Sizes ----------

  lemma {:induction false} StringLength(tag: byte, s: bytes)
    ensures |StringField(tag, s)| == StringSize(s)
  {
    VarintLength(|s|);
  }

  lemma {:induction false} IntLength(tag: byte, v: int)
    requires -TWO63 <= v < TWO63
    ensures |IntField(tag, v)| == IntSize(v)
  {
    SignedLength(v);
  }

  lemma {:induction false} PhoneLength(p: PhoneNumber)
    ensures |PhoneBytes(p)| == PhoneSize(p)
  {
    StringLength(10, p.number);
    IntLength(16, p.kind);
  }

  lemma {:induction false} TimeLength(t: Timestamp)
    ensures |TimeBytes(t)| == TimeSize(t)
  {
    IntLength(8, t.seconds);
    IntLength(16, t.nanos);
  }

  lemma {:induction false} TimeIsShort(t: Timestamp)
    ensures TimeSize(t) <= 22
  {
    SignedIsShort(t.seconds);
    SignedIsShort(t.nanos);
  }

  lemma {:induction false} SignedIsShort(v: int)
    requires -TWO63 <= v < TWO63
    ensures SignedSize(v) <= 10
  {
    if v >= 0 {
      Powers();
      SizeAtMost(v, 10);
    }
  }

  lemma {:induction false} SizeAtMost(n: nat, k: nat)
    requires 0 < k && n < Power128(k)
    ensures VarintSize(n) <= k
  {
    if n < 128 {
    } else {
      SizeAtMost(n / 128, k - 1);
    }
  }

  lemma {:induction false} PhonesInOrder(ps: seq<PhoneNumber>, n: nat)
    requires n <= |ps|
    ensures PhonesBytesTo(ps, n) + PhonesBytes(ps[n..]) == PhonesBytes(ps)
  {
    if n == 0 {
      assert ps[0..] == ps;
      AppendNone(PhonesBytes(ps));
    } else {
      PhonesInOrder(ps, n - 1);
      assert ps[n - 1..][1..] == ps[n..];
      var a, b, c := PhonesBytesTo(ps, n - 1), MessageField(34, PhoneBytes(ps[n - 1])), PhonesBytes(ps[n..]);
      assert a + b + c == a + (b + c);
    }
  }

  lemma {:induction false} AllPhones(ps: seq<PhoneNumber>)
    ensures PhonesBytesTo(ps, |ps|) == PhonesBytes(ps)
  {
    PhonesInOrder(ps, |ps|);
    AppendNone(PhonesBytesTo(ps, |ps|));
  }

  lemma {:induction false} PhoneFieldLength(p: PhoneNumber)
    ensures |MessageField(34, PhoneBytes(p))| == 1 + DelimitedSize(PhoneSize(p))
  {
    PhoneLength(p);
    VarintLength(|PhoneBytes(p)|);
  }

  lemma {:induction false} PhonesLength(ps: seq<PhoneNumber>, n: nat)
    requires n <= |ps|
    ensures |PhonesBytesTo(ps, n)| == n + PhonesSize(ps, n)
  {
    hide MessageField, PhoneBytes, PhoneSize, DelimitedSize;
    if n == 0 {
    } else {
      PhonesLength(ps, n - 1);
      PhoneFieldLength(ps[n - 1]);
    }
  }

  lemma {:induction false} LastUpdatedLength(t: Option<Timestamp>)
    ensures |LastUpdatedBytes(t)| == if t == None then 0 else 1 + DelimitedSize(TimeSize(t.value))
  {
    if t != None {
      TimeLength(t.value);
      VarintLength(|TimeBytes(t.value)|);
    }
  }

  /** The size computed for a person, whatever the order of its sum, is the number of bytes written. */
  lemma {:induction false} PersonLength(p: Person)
    ensures |PersonBytes(p)| == PersonSize(p)
  {
    StringLength(10, p.name);
    IntLength(16, p.id);
    StringLength(26, p.email);
    AllPhones(p.phones);
    PhonesLength(p.phones, |p.phones|);
    LastUpdatedLength(p.lastUpdated);
  }

  lemma {:induction false} PeopleInOrder(ps: seq<Person>, n: nat)
    requires n <= |ps|
    ensures PeopleBytesTo(ps, n) + PeopleBytes(ps[n..]) == PeopleBytes(ps)
  {
    hide MessageField, PersonBytes;
    if n == 0 {
      assert ps[0..] == ps;
      AppendNone(PeopleBytes(ps));
    } else {
      PeopleInOrder(ps, n - 1);
      assert ps[n - 1..][1..] == ps[n..];
      var a, b, c := PeopleBytesTo(ps, n - 1), MessageField(10, PersonBytes(ps[n - 1])), PeopleBytes(ps[n..]);
      Regroup(a, b, c);
    }
  }

  lemma {:induction false} AllPeople(ps: seq<Person>)
    ensures PeopleBytesTo(ps, |ps|) == PeopleBytes(ps)
  {
    PeopleInOrder(ps, |ps|);
    AppendNone(PeopleBytesTo(ps, |ps|));
  }

  lemma {:induction false} PersonFieldLength(p: Person)
    ensures |MessageField(10, PersonBytes(p))| == 1 + DelimitedSize(PersonSize(p))
  {
    PersonLength(p);
    VarintLength(|PersonBytes(p)|);
  }

  lemma {:induction false} PeopleLength(ps: seq<Person>, n: nat)
    requires n <= |ps|
    ensures |PeopleBytesTo(ps, n)| == n + PeopleSize(ps, n)
  {
    hide MessageField, PersonBytes, PersonSize, DelimitedSize;
    if n == 0 {
    } else {
      PeopleLength(ps, n - 1);
      PersonFieldLength(ps[n - 1]);
    }
  }

  /** The size computed for an address book is the number of bytes written. */
  lemma {:induction false} BookLength(b: AddressBook)
    ensures |BookBytes(b)| == BookSize(b)
  {
    AllPeople(b.people);
    PeopleLength(b.people, |b.people|);
  }

  // ---------- One field behind its tag ----------

  lemma {:induction false} StringReads(s: bytes, rest: bytes, utf8: Utf8)
    requires |s| < TWO31 && utf8(s)
    ensures ReadString(Delimited(s) + rest, utf8) == Some((s, rest))
  {
    DelimitedReads(s, rest);
  }

  lemma {:induction false} Tagged(tag: byte, value: bytes, rest: bytes)
    requires 0 < tag < 128
    ensures ReadTag([tag] + value + rest) == Tag(tag as nat, value + rest)
  {
    TagReads(tag, value + rest);
    assert [tag] + value + rest == [tag] + (value + rest);
  }

  lemma {:induction false} IsShorter(s: bytes)
    ensures |s| <= StringSize(s)
  {
  }

  // ---------- Phone numbers ----------

  lemma {:induction false} ParsePhoneNumber(m: PhoneNumber, s: bytes, rest: bytes, utf8: Utf8)
    requires |s| < TWO31 && (s != [] ==> utf8(s))
    ensures ParsePhone(m, StringField(10, s) + rest, utf8) == ParsePhone(m.(number := Override(m.number, s)), rest, utf8)
  {
    if s == [] {
      assert StringField(10, s) + rest == rest;
    } else {
      Tagged(10, Delimited(s), rest);
      StringReads(s, rest, utf8);
    }
  }

  lemma {:induction false} ParsePhoneKind(m: PhoneNumber, v: int32, rest: bytes, utf8: Utf8)
    ensures ParsePhone(m, IntField(16, v) + rest, utf8) == ParsePhone(m.(kind := if v != 0 then v else m.kind), rest, utf8)
  {
    if v == 0 {
      assert IntField(16, v) + rest == rest;
    } else {
      Tagged(16, Varint(Extend(v)), rest);
      Int32Reads(v, rest);
    }
  }

  /** Reading a written phone number merges it. */
  lemma {:induction false} ParsePhoneBytes(m: PhoneNumber, p: PhoneNumber, rest: bytes, utf8: Utf8)
    requires PhoneOk(p, utf8)
    ensures ParsePhone(m, PhoneBytes(p) + rest, utf8) == ParsePhone(MergePhone(m, p), rest, utf8)
  {
    IsShorter(p.number);
    ParsePhoneNumber(m, p.number, IntField(16, p.kind) + rest, utf8);
    assert PhoneBytes(p) + rest == StringField(10, p.number) + (IntField(16, p.kind) + rest);
    ParsePhoneKind(m.(number := Override(m.number, p.number)), p.kind, rest, utf8);
  }

  lemma {:induction false} ReadPhoneBytes(p: PhoneNumber, rest: bytes, utf8: Utf8)
    requires PhoneOk(p, utf8)
    ensures ReadPhone(Delimited(PhoneBytes(p)) + rest, utf8) == Some((p, rest))
  {
    PhoneLength(p);
    DelimitedReads(PhoneBytes(p), rest);
    ParsePhoneBytes(NO_PHONE, p, [], utf8);
    assert PhoneBytes(p) + [] == PhoneBytes(p);
  }

  // ---------- Timestamps ----------

  lemma {:induction false} ParseSeconds(m: Timestamp, v: int64, rest: bytes)
    ensures ParseTime(m, IntField(8, v) + rest) == ParseTime(m.(seconds := if v != 0 then v else m.seconds), rest)
  {
    if v == 0 {
      assert IntField(8, v) + rest == rest;
    } else {
      Tagged(8, Varint(Extend(v)), rest);
      Int64Reads(v, rest);
    }
  }

  lemma {:induction false} ParseNanos(m: Timestamp, v: int32, rest: bytes)
    ensures ParseTime(m, IntField(16, v) + rest) == ParseTime(m.(nanos := if v != 0 then v else m.nanos), rest)
  {
    if v == 0 {
      assert IntField(16, v) + rest == rest;
    } else {
      Tagged(16, Varint(Extend(v)), rest);
      Int32Reads(v, rest);
    }
  }

  lemma {:induction false} ReadTimeBytes(m: Timestamp, t: Timestamp, rest: bytes)
    ensures ReadTime(m, Delimited(TimeBytes(t)) + rest) == Some((MergeTime(m, t), rest))
  {
    TimeLength(t);
    TimeIsShort(t);
    DelimitedReads(TimeBytes(t), rest);
    ParseSeconds(m, t.seconds, IntField(16, t.nanos));
    var m' := m.(seconds := if t.seconds != 0 then t.seconds else m.seconds);
    ParseNanos(m', t.nanos, []);
    assert IntField(16, t.nanos) + [] == IntField(16, t.nanos);
  }

  // ---------- People ----------

  lemma {:induction false} ParseName(m: Person, s: bytes, rest: bytes, utf8: Utf8)
    requires |s| < TWO31 && (s != [] ==> utf8(s))
    ensures ParsePerson(m, StringField(10, s) + rest, utf8) == ParsePerson(m.(name := Override(m.name, s)), rest, utf8)
  {
    if s == [] {
      assert StringField(10, s) + rest == rest;
    } else {
      Tagged(10, Delimited(s), rest);
      StringReads(s, rest, utf8);
    }
  }

  lemma {:induction false} ParseEmail(m: Person, s: bytes, rest: bytes, utf8: Utf8)
    requires |s| < TWO31 && (s != [] ==> utf8(s))
    ensures ParsePerson(m, StringField(26, s) + rest, utf8) == ParsePerson(m.(email := Override(m.email, s)), rest, utf8)
  {
    if s == [] {
      assert StringField(26, s) + rest == rest;
    } else {
      Tagged(26, Delimited(s), rest);
      StringReads(s, rest, utf8);
    }
  }

  lemma {:induction false} ParseId(m: Person, v: int32, rest: bytes, utf8: Utf8)
    ensures ParsePerson(m, IntField(16, v) + rest, utf8) == ParsePerson(m.(id := if v != 0 then v else m.id), rest, utf8)
  {
    if v == 0 {
      assert IntField(16, v) + rest == rest;
    } else {
      Tagged(16, Varint(Extend(v)), rest);
      Int32Reads(v, rest);
    }
  }

  lemma {:induction false} ParseOnePhone(m: Person, p: PhoneNumber, tail: bytes, utf8: Utf8)
    requires PhoneOk(p, utf8)
    ensures ParsePerson(m, [34] + Delimited(PhoneBytes(p)) + tail, utf8)
         == ParsePerson(m.(phones := m.phones + [p]), tail, utf8)
  {
    Tagged(34, Delimited(PhoneBytes(p)), tail);
    ReadPhoneBytes(p, tail, utf8);
  }

  lemma {:induction false} PhonesCons(ps: seq<PhoneNumber>, rest: bytes)
    requires ps != []
    ensures PhonesBytes(ps) + rest == [34] + Delimited(PhoneBytes(ps[0])) + (PhonesBytes(ps[1..]) + rest)
  {
  }

  lemma {:induction false} ParsePhones(m: Person, ps: seq<PhoneNumber>, rest: bytes, utf8: Utf8)
    requires forall i :: 0 <= i < |ps| ==> PhoneOk(ps[i], utf8)
    ensures ParsePerson(m, PhonesBytes(ps) + rest, utf8) == ParsePerson(m.(phones := m.phones + ps), rest, utf8)
    decreases |ps|
  {
    if ps == [] {
      AppendNone(rest);
      AppendNone(m.phones);
    } else {
      PhonesCons(ps, rest);
      ParseOnePhone(m, ps[0], PhonesBytes(ps[1..]) + rest, utf8);
      ParsePhones(m.(phones := m.phones + [ps[0]]), ps[1..], rest, utf8);
      MoveFirst(m.phones, ps);
    }
  }

  lemma {:induction false} ParseOneTime(m: Person, t: Timestamp, tail: bytes, utf8: Utf8)
    ensures ParsePerson(m, [42] + Delimited(TimeBytes(t)) + tail, utf8)
         == ParsePerson(m.(lastUpdated := Some(MergeTime(GetTime(m.lastUpdated), t))), tail, utf8)
  {
    Tagged(42, Delimited(TimeBytes(t)), tail);
    ReadTimeBytes(GetTime(m.lastUpdated), t, tail);
  }

  lemma {:induction false} ParseLastUpdated(m: Person, t: Option<Timestamp>, rest: bytes, utf8: Utf8)
    ensures ParsePerson(m, LastUpdatedBytes(t) + rest, utf8)
         == ParsePerson(MergePerson(m, NO_PERSON.(lastUpdated := t)), rest, utf8)
  {
    hide ParsePerson, Delimited, TimeBytes, MergeTime;
    AppendNone(m.phones);
    if t == None {
      AppendNone(rest);
    } else {
      ParseOneTime(m, t.value, rest, utf8);
    }
  }

  lemma {:induction false} ParseNameAndId(m: Person, p: Person, rest: bytes, utf8: Utf8)
    requires PersonOk(p, utf8)
    ensures ParsePerson(m, StringField(10, p.name) + (IntField(16, p.id) + rest), utf8)
         == ParsePerson(m.(name := Override(m.name, p.name), id := if p.id != 0 then p.id else m.id), rest, utf8)
  {
    IsShorter(p.name);
    ParseName(m, p.name, IntField(16, p.id) + rest, utf8);
    ParseId(m.(name := Override(m.name, p.name)), p.id, rest, utf8);
  }

  lemma {:induction false} ParseEmailAndPhones(m: Person, p: Person, rest: bytes, utf8: Utf8)
    requires PersonOk(p, utf8)
    ensures ParsePerson(m, StringField(26, p.email) + (PhonesBytes(p.phones) + rest), utf8)
         == ParsePerson(m.(email := Override(m.email, p.email), phones := m.phones + p.phones), rest, utf8)
  {
    IsShorter(p.email);
    ParseEmail(m, p.email, PhonesBytes(p.phones) + rest, utf8);
    ParsePhones(m.(email := Override(m.email, p.email)), p.phones, rest, utf8);
  }

  lemma {:induction false} PersonBytesThen(p: Person, rest: bytes)
    ensures PersonBytes(p) + rest
         == StringField(10, p.name) + (IntField(16, p.id) + (StringField(26, p.email)
            + (PhonesBytes(p.phones) + (LastUpdatedBytes(p.lastUpdated) + rest))))
  {
    var a, b, c, d, e := StringField(10, p.name), IntField(16, p.id), StringField(26, p.email), PhonesBytes(p.phones),
                         LastUpdatedBytes(p.lastUpdated);
    FiveParts(a, b, c, d, e, rest);
    hide StringField, IntField, PhonesBytes, LastUpdatedBytes;
  }

  /** Reading a written person merges it. */
  lemma {:induction false} ParsePersonBytes(m: Person, p: Person, rest: bytes, utf8: Utf8)
    requires PersonOk(p, utf8)
    ensures ParsePerson(m, PersonBytes(p) + rest, utf8) == ParsePerson(MergePerson(m, p), rest, utf8)
  {
    PersonBytesThen(p, rest);
    var s2 := LastUpdatedBytes(p.lastUpdated) + rest;
    var s1 := StringField(26, p.email) + (PhonesBytes(p.phones) + s2);
    ParseNameAndId(m, p, s1, utf8);
    var m1 := m.(name := Override(m.name, p.name), id := if p.id != 0 then p.id else m.id);
    ParseEmailAndPhones(m1, p, s2, utf8);
    var m2 := m1.(email := Override(m1.email, p.email), phones := m1.phones + p.phones);
    ParseLastUpdated(m2, p.lastUpdated, rest, utf8);
    assert m2.phones + [] == m2.phones;
  }

  lemma {:induction false} MergeIntoNobody(p: Person)
    ensures MergePerson(NO_PERSON, p) == p
  {
    assert [] + p.phones == p.phones;
  }

  lemma {:induction false} ReadPersonBytes(p: Person, rest: bytes, utf8: Utf8)
    requires PersonOk(p, utf8)
    ensures ReadPerson(Delimited(PersonBytes(p)) + rest, utf8) == Some((p, rest))
  {
    hide Varint, VarintSize, PersonBytes, PersonSize, MergePerson, Delimited, ParsePerson, PhoneOk;
    PersonLength(p);
    DelimitedReads(PersonBytes(p), rest);
    ParsePersonBytes(NO_PERSON, p, [], utf8);
    AppendNone(PersonBytes(p));
    MergeIntoNobody(p);
    ParsePersonEnd(p, utf8);
  }

  lemma {:induction false} ParsePersonEnd(m: Person, utf8: Utf8)
    ensures ParsePerson(m, [], utf8) == Some((m, true))
  {
  }

  // ---------- Address books ----------

  lemma {:induction false} ParseOnePerson(m: AddressBook, p: Person, tail: bytes, utf8: Utf8)
    requires PersonOk(p, utf8)
    ensures ParseBook(m, [10] + Delimited(PersonBytes(p)) + tail, utf8) == ParseBook(AddressBook(m.people + [p]), tail, utf8)
  {
    Tagged(10, Delimited(PersonBytes(p)), tail);
    ReadPersonBytes(p, tail, utf8);
  }

  lemma {:induction false} PeopleCons(ps: seq<Person>, rest: bytes)
    requires ps != []
    ensures PeopleBytes(ps) + rest == [10] + Delimited(PersonBytes(ps[0])) + (PeopleBytes(ps[1..]) + rest)
  {
  }

  /** Reading a written address book merges it into the message at hand. */
  lemma {:induction false} ParseBookBytes(m: AddressBook, b: AddressBook, rest: bytes, utf8: Utf8)
    requires BookOk(b, utf8)
    ensures ParseBook(m, BookBytes(b) + rest, utf8) == ParseBook(MergeBook(m, b), rest, utf8)
    decreases |b.people|
  {
    var ps := b.people;
    if ps == [] {
      AppendNone(rest);
      AppendNone(m.people);
    } else {
      PeopleCons(ps, rest);
      ParseOnePerson(m, ps[0], PeopleBytes(ps[1..]) + rest, utf8);
      ParseBookBytes(AddressBook(m.people + [ps[0]]), AddressBook(ps[1..]), rest, utf8);
      MoveFirst(m.people, ps);
    }
  }

  /** An address book survives being written and read. */
  lemma {:induction false} RoundTrip(b: AddressBook, utf8: Utf8)
    requires BookOk(b, utf8)
    ensures ParseBook(NO_BOOK, BookBytes(b), utf8) == Some((b, true))
  {
    ParseBookBytes(NO_BOOK, b, [], utf8);
    assert BookBytes(b) + [] == BookBytes(b);
    assert [] + b.people == b.people;
  }

  /** Reading one written address book behind another reads their merge. */
  lemma {:induction false} ConcatenationMerges(a: AddressBook, b: AddressBook, utf8: Utf8)
    requires BookOk(a, utf8) && BookOk(b, utf8)
    ensures ParseBook(NO_BOOK, BookBytes(a) + BookBytes(b), utf8) == Some((MergeBook(a, b), true))
  {
    ParseBookBytes(NO_BOOK, a, BookBytes(b), utf8);
    assert MergeBook(NO_BOOK, a) == a by { assert [] + a.people == a.people; }
    ParseBookBytes(a, b, [], utf8);
    assert BookBytes(b) + [] == BookBytes(b);
  }

  /**
   * The same for one person, where merging is more than appending: set scalars override, phone
   * numbers are appended and the time of the last update is merged field by field.
   */
  lemma {:induction false} PersonConcatenationMerges(p: Person, q: Person, utf8: Utf8)
    requires PersonOk(p, utf8) && PersonOk(q, utf8)
    ensures ParsePerson(NO_PERSON, PersonBytes(p) + PersonBytes(q), utf8) == Some((MergePerson(p, q), true))
  {
    ParsePersonBytes(NO_PERSON, p, PersonBytes(q), utf8);
    MergeIntoNobody(p);
    ParsePersonBytes(p, q, [], utf8);
    assert PersonBytes(q) + [] == PersonBytes(q);
  }

  /** What is read back determines what was written: no two address books have the same bytes. */
  lemma {:induction false} BytesDetermineBook(a: AddressBook, b: AddressBook, utf8: Utf8)
    requires BookOk(a, utf8) && BookOk(b, utf8) && BookBytes(a) == BookBytes(b)
    ensures a == b
  {
    RoundTrip(a, utf8);
    RoundTrip(b, utf8);
  }
}

// The three messages of the address book: their bytes, their size, reading and merging them.

module AddressBookSpec {
  import opened Prelude
  import opened WireFormat

  datatype PhoneNumber = PhoneNumber(number: bytes, kind: int32)
  datatype Timestamp = Timestamp(seconds: int64, nanos: int32)
  datatype Person = Person(name: bytes, id: int32, email: bytes, phones: seq<PhoneNumber>, lastUpdated: Option<Timestamp>)
  datatype AddressBook = AddressBook(people: seq<Person>)

  const NO_PHONE := PhoneNumber([], 0)
  const NO_TIME := Timestamp(0, 0)
  const NO_PERSON := Person([], 0, [], [], None)
  const NO_BOOK := AddressBook([])

  // ---------- Bytes: a field with its default value is not written ----------

  function StringField(tag: byte, s: bytes): bytes {
    if s == [] then [] else [tag] + Delimited(s)
  }

  function IntField(tag: byte, v: int): bytes
    requires -TWO63 <= v < TWO63
  {
    if v == 0 then [] else [tag] + Varint(Extend(v))
  }

  function MessageField(tag: byte, s: bytes): bytes {
    [tag] + Delimited(s)
  }

  function PhoneBytes(p: PhoneNumber): bytes {
    StringField(10, p.number) + IntField(16, p.kind)
  }

  function TimeBytes(t: Timestamp): bytes {
    IntField(8, t.seconds) + IntField(16, t.nanos)
  }

  function PhonesBytes(ps: seq<PhoneNumber>): bytes {
    if ps == [] then [] else MessageField(34, PhoneBytes(ps[0])) + PhonesBytes(ps[1..])
  }

  /** The first `n` phone numbers, in the order the loop writes them. */
  function PhonesBytesTo(ps: seq<PhoneNumber>, n: nat): bytes
    requires n <= |ps|
  {
    if n == 0 then [] else PhonesBytesTo(ps, n - 1) + MessageField(34, PhoneBytes(ps[n - 1]))
  }

  function LastUpdatedBytes(t: Option<Timestamp>): bytes {
    if t == None then [] else MessageField(42, TimeBytes(t.value))
  }

  function PersonBytes(p: Person): bytes {
    StringField(10, p.name) + (IntField(16, p.id) + (StringField(26, p.email)
    + (PhonesBytes(p.phones) + LastUpdatedBytes(p.lastUpdated))))
  }

  function PeopleBytes(ps: seq<Person>): bytes {
    if ps == [] then [] else MessageField(10, PersonBytes(ps[0])) + PeopleBytes(ps[1..])
  }

  function PeopleBytesTo(ps: seq<Person>, n: nat): bytes
    requires n <= |ps|
  {
    if n == 0 then [] else PeopleBytesTo(ps, n - 1) + MessageField(10, PersonBytes(ps[n - 1]))
  }

  function BookBytes(b: AddressBook): bytes {
    PeopleBytes(b.people)
  }

  // ---------- Sizes, summed as the generated code does: repeated fields first, the number last ----------

  function StringSize(s: bytes): nat {
    if s == [] then 0 else 1 + DelimitedSize(|s|)
  }

  function IntSize(v: int): nat {
    if v == 0 then 0 else 1 + SignedSize(v)
  }

  function PhoneSize(p: PhoneNumber): nat {
    StringSize(p.number) + IntSize(p.kind)
  }

  function TimeSize(t: Timestamp): nat {
    IntSize(t.seconds) + IntSize(t.nanos)
  }

  /** The first `n` messages of a repeated field, without their tags. */
  function PhonesSize(ps: seq<PhoneNumber>, n: nat): nat
    requires n <= |ps|
  {
    if n == 0 then 0 else PhonesSize(ps, n - 1) + DelimitedSize(PhoneSize(ps[n - 1]))
  }

  function PersonSize(p: Person): nat {
    |p.phones| + PhonesSize(p.phones, |p.phones|)
    + StringSize(p.name) + StringSize(p.email)
    + (if p.lastUpdated == None then 0 else 1 + DelimitedSize(TimeSize(p.lastUpdated.value)))
    + IntSize(p.id)
  }

  function PeopleSize(ps: seq<Person>, n: nat): nat
    requires n <= |ps|
  {
    if n == 0 then 0 else PeopleSize(ps, n - 1) + DelimitedSize(PersonSize(ps[n - 1]))
  }

  function BookSize(b: AddressBook): nat {
    |b.people| + PeopleSize(b.people, |b.people|)
  }

  // ---------- Merging: a set scalar overrides, repeated fields are appended, messages merge ----------

  function Override(to: bytes, from: bytes): bytes {
    if from == [] then to else from
  }

  function MergePhone(to: PhoneNumber, from: PhoneNumber): PhoneNumber {
    PhoneNumber(Override(to.number, from.number), if from.kind != 0 then from.kind else to.kind)
  }

  function MergeTime(to: Timestamp, from: Timestamp): Timestamp {
    Timestamp(if from.seconds != 0 then from.seconds else to.seconds, if from.nanos != 0 then from.nanos else to.nanos)
  }

  function GetTime(t: Option<Timestamp>): Timestamp {
    if t == None then NO_TIME else t.value
  }

  function MergePerson(to: Person, from: Person): Person {
    Person(
      Override(to.name, from.name),
      if from.id != 0 then from.id else to.id,
      Override(to.email, from.email),
      to.phones + from.phones,
      if from.lastUpdated == None then to.lastUpdated
      else Some(MergeTime(GetTime(to.lastUpdated), from.lastUpdated.value)))
  }

  function MergeBook(to: AddressBook, from: AddressBook): AddressBook {
    AddressBook(to.people + from.people)
  }

  // ---------- Reading: each field read is merged into the message ----------

  /** Which byte strings are valid UTF-8. */
  type Utf8 = bytes -> bool

  function ReadString(s: bytes, utf8: Utf8): Option<(bytes, bytes)> {
    match ReadDelimited(s)
    case None => None
    case Some(r) => if utf8(r.0) then Some(r) else None
  }

  /** The field behind a tag, merged into `m`, and the bytes behind it. */
  function PhoneField(m: PhoneNumber, tag: nat, s: bytes, utf8: Utf8): (r: Option<(PhoneNumber, bytes)>)
    ensures r.Some? ==> |r.value.1| <= |s|
  {
    ReadShrinks(s, MAX_VARINT);
    if tag == 10 then
      match ReadString(s, utf8) case None => None case Some(v) => Some((m.(number := v.0), v.1))
    else if tag == 16 then
      match ReadInt32(s) case None => None case Some(v) => Some((m.(kind := v.0), v.1))
    else
      match SkipField(tag, s) case None => None case Some(rest) => Some((m, rest))
  }

  function ParsePhone(m: PhoneNumber, s: bytes, utf8: Utf8): Option<(PhoneNumber, bool)>
    decreases |s|
  {
    match ReadTag(s)
    case End(legitimate) => Some((m, legitimate))
    case Tag(tag, rest) =>
      match PhoneField(m, tag, rest, utf8)
      case None => None
      case Some(r) => ParsePhone(r.0, r.1, utf8)
  }

  function TimeField(m: Timestamp, tag: nat, s: bytes): (r: Option<(Timestamp, bytes)>)
    ensures r.Some? ==> |r.value.1| <= |s|
  {
    ReadShrinks(s, MAX_VARINT);
    if tag == 8 then
      match ReadInt64(s) case None => None case Some(v) => Some((m.(seconds := v.0), v.1))
    else if tag == 16 then
      match ReadInt32(s) case None => None case Some(v) => Some((m.(nanos := v.0), v.1))
    else
      match SkipField(tag, s) case None => None case Some(rest) => Some((m, rest))
  }

  function ParseTime(m: Timestamp, s: bytes): Option<(Timestamp, bool)>
    decreases |s|
  {
    match ReadTag(s)
    case End(legitimate) => Some((m, legitimate))
    case Tag(tag, rest) =>
      match TimeField(m, tag, rest)
      case None => None
      case Some(r) => ParseTime(r.0, r.1)
  }

  /** A nested message must end where its length says. */
  function ReadPhone(s: bytes, utf8: Utf8): (r: Option<(PhoneNumber, bytes)>)
    ensures r.Some? ==> |r.value.1| <= |s|
  {
    ReadShrinks(s, MAX_VARINT);
    match ReadDelimited(s)
    case None => None
    case Some(d) =>
      match ParsePhone(NO_PHONE, d.0, utf8)
      case None => None
      case Some(r) => if r.1 then Some((r.0, d.1)) else None
  }

  function ReadTime(m: Timestamp, s: bytes): (r: Option<(Timestamp, bytes)>)
    ensures r.Some? ==> |r.value.1| <= |s|
  {
    ReadShrinks(s, MAX_VARINT);
    match ReadDelimited(s)
    case None => None
    case Some(d) =>
      match ParseTime(m, d.0)
      case None => None
      case Some(r) => if r.1 then Some((r.0, d.1)) else None
  }

  function PersonField(m: Person, tag: nat, s: bytes, utf8: Utf8): (r: Option<(Person, bytes)>)
    ensures r.Some? ==> |r.value.1| <= |s|
  {
    ReadShrinks(s, MAX_VARINT);
    if tag == 10 then
      match ReadString(s, utf8) case None => None case Some(v) => Some((m.(name := v.0), v.1))
    else if tag == 16 then
      match ReadInt32(s) case None => None case Some(v) => Some((m.(id := v.0), v.1))
    else if tag == 26 then
      match ReadString(s, utf8) case None => None case Some(v) => Some((m.(email := v.0), v.1))
    else if tag == 34 then
      match ReadPhone(s, utf8) case None => None case Some(v) => Some((m.(phones := m.phones + [v.0]), v.1))
    else if tag == 42 then
      match ReadTime(GetTime(m.lastUpdated), s) case None => None case Some(v) => Some((m.(lastUpdated := Some(v.0)), v.1))
    else
      match SkipField(tag, s) case None => None case Some(rest) => Some((m, rest))
  }

  function ParsePerson(m: Person, s: bytes, utf8: Utf8): Option<(Person, bool)>
    decreases |s|
  {
    match ReadTag(s)
    case End(legitimate) => Some((m, legitimate))
    case Tag(tag, rest) =>
      match PersonField(m, tag, rest, utf8)
      case None => None
      case Some(r) => ParsePerson(r.0, r.1, utf8)
  }

  function ReadPerson(s: bytes, utf8: Utf8): (r: Option<(Person, bytes)>)
    ensures r.Some? ==> |r.value.1| <= |s|
  {
    ReadShrinks(s, MAX_VARINT);
    match ReadDelimited(s)
    case None => None
    case Some(d) =>
      match ParsePerson(NO_PERSON, d.0, utf8)
      case None => None
      case Some(r) => if r.1 then Some((r.0, d.1)) else None
  }

  function BookField(m: AddressBook, tag: nat, s: bytes, utf8: Utf8): (r: Option<(AddressBook, bytes)>)
    ensures r.Some? ==> |r.value.1| <= |s|
  {
    if tag == 10 then
      match ReadPerson(s, utf8) case None => None case Some(v) => Some((AddressBook(m.people + [v.0]), v.1))
    else
      match SkipField(tag, s) case None => None case Some(rest) => Some((m, rest))
  }

  function ParseBook(m: AddressBook, s: bytes, utf8: Utf8): Option<(AddressBook, bool)>
    decreases |s|
  {
    match ReadTag(s)
    case End(legitimate) => Some((m, legitimate))
    case Tag(tag, rest) =>
      match BookField(m, tag, rest, utf8)
      case None => None
      case Some(r) => ParseBook(r.0, r.1, utf8)
  }

  // ---------- What can be written and read back ----------

  predicate PhoneOk(p: PhoneNumber, utf8: Utf8) {
    (p.number != [] ==> utf8(p.number)) && PhoneSize(p) < TWO31
  }

  predicate PersonOk(p: Person, utf8: Utf8) {
    && (p.name != [] ==> utf8(p.name)) && (p.email != [] ==> utf8(p.email))
    && (forall i :: 0 <= i < |p.phones| ==> PhoneOk(p.phones[i], utf8))
    && PersonSize(p) < TWO31
  }

  predicate BookOk(b: AddressBook, utf8: Utf8) {
    forall i :: 0 <= i < |b.people| ==> PersonOk(b.people[i], utf8)
  }
}

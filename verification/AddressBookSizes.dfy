// What the serialisers write when the cached size of every nested message is its length prefix.

module AddressBookSizes {
  import opened Prelude
  import opened WireFormat
  import opened AddressBookSpec
  import opened AddressBookTheorems

  /** The cached sizes of a person, of its phone numbers, and of its time stamp. */
  datatype PersonSizes = PersonSizes(own: nat, phones: seq<nat>, time: nat)

  /** A nested message behind its tag and the size cached for it. */
  function SizedField(tag: byte, size: nat, s: bytes): bytes {
    [tag] + (Varint(size) + s)
  }

  function PhonesSized(ps: seq<PhoneNumber>, sizes: seq<nat>): bytes
    requires |sizes| == |ps|
  {
    if ps == [] then [] else SizedField(34, sizes[0], PhoneBytes(ps[0])) + PhonesSized(ps[1..], sizes[1..])
  }

  function TimeSized(t: Option<Timestamp>, size: nat): bytes {
    if t == None then [] else SizedField(42, size, TimeBytes(t.value))
  }

  predicate Matches(p: Person, c: PersonSizes) {
    |c.phones| == |p.phones|
  }

  function PersonSized(p: Person, c: PersonSizes): bytes
    requires Matches(p, c)
  {
    StringField(10, p.name) + (IntField(16, p.id) + (StringField(26, p.email)
    + (PhonesSized(p.phones, c.phones) + TimeSized(p.lastUpdated, c.time))))
  }

  predicate AllMatch(ps: seq<Person>, cs: seq<PersonSizes>) {
    |cs| == |ps| && forall i :: 0 <= i < |ps| ==> Matches(ps[i], cs[i])
  }

  function PeopleSized(ps: seq<Person>, cs: seq<PersonSizes>): bytes
    requires AllMatch(ps, cs)
  {
    if ps == [] then []
    else SizedField(10, cs[0].own, PersonSized(ps[0], cs[0])) + PeopleSized(ps[1..], cs[1..])
  }

  // ---------- Cached sizes that are right ----------

  predicate PhonesRight(ps: seq<PhoneNumber>, sizes: seq<nat>) {
    |sizes| == |ps| && forall i :: 0 <= i < |ps| ==> sizes[i] == PhoneSize(ps[i])
  }

  predicate InsideRight(p: Person, c: PersonSizes) {
    PhonesRight(p.phones, c.phones) && (p.lastUpdated != None ==> c.time == TimeSize(p.lastUpdated.value))
  }

  predicate PersonRight(p: Person, c: PersonSizes) {
    InsideRight(p, c) && c.own == PersonSize(p)
  }

  predicate PeopleRight(ps: seq<Person>, cs: seq<PersonSizes>) {
    |cs| == |ps| && forall i :: 0 <= i < |ps| ==> PersonRight(ps[i], cs[i])
  }

  // ---------- A varint tells where it ends ----------

  lemma {:induction false} SameRest<T>(a: seq<T>, x: seq<T>, y: seq<T>)
    ensures a + x == a + y <==> x == y
  {
    assert (a + x)[|a|..] == x && (a + y)[|a|..] == y;
  }

  lemma {:induction false} VarintEnds(m: nat, n: nat, x: bytes, y: bytes)
    ensures Varint(m) + x == Varint(n) + y <==> m == n && x == y
  {
    var u, v := Varint(m) + x, Varint(n) + y;
    if m < 128 || n < 128 {
      assert u[0] == Varint(m)[0] && v[0] == Varint(n)[0];
      SameRest(Varint(m), x, y);
    } else {
      var a, b := (m % 128 + 128) as byte, (n % 128 + 128) as byte;
      Regroup([a], Varint(m / 128), x);
      Regroup([b], Varint(n / 128), y);
      assert u[0] == a && v[0] == b;
      VarintEnds(m / 128, n / 128, x, y);
      SameRest([a], Varint(m / 128) + x, Varint(n / 128) + y);
    }
  }

  lemma {:induction false} SizedFieldIs(tag: byte, size: nat, s: bytes, t: bytes, x: bytes, y: bytes)
    ensures SizedField(tag, size, s) + x == MessageField(tag, t) + y <==> size == |t| && s + x == t + y
  {
    Regroup([tag], Varint(size) + s, x);
    Regroup(Varint(size), s, x);
    Regroup([tag], Varint(|t|) + t, y);
    Regroup(Varint(|t|), t, y);
    SameRest([tag], Varint(size) + (s + x), Varint(|t|) + (t + y));
    VarintEnds(size, |t|, s + x, t + y);
  }

  // ---------- The bytes are those of the message exactly when every cached size is right ----------

  lemma {:induction false} PhonesSizedIs(ps: seq<PhoneNumber>, sizes: seq<nat>, x: bytes, y: bytes)
    requires |sizes| == |ps|
    ensures PhonesSized(ps, sizes) + x == PhonesBytes(ps) + y <==> PhonesRight(ps, sizes) && x == y
    decreases ps
  {
    hide SizedField, MessageField, PhoneBytes, PhoneSize;
    if ps == [] {
      AppendNone(x);
      AppendNone(y);
    } else {
      var s, u, v := PhoneBytes(ps[0]), PhonesSized(ps[1..], sizes[1..]), PhonesBytes(ps[1..]);
      Regroup(SizedField(34, sizes[0], s), u, x);
      Regroup(MessageField(34, s), v, y);
      SizedFieldIs(34, sizes[0], s, s, u + x, v + y);
      SameRest(s, u + x, v + y);
      PhoneLength(ps[0]);
      PhonesSizedIs(ps[1..], sizes[1..], x, y);
      RightFirst(ps, sizes);
    }
  }

  lemma {:induction false} RightFirst(ps: seq<PhoneNumber>, sizes: seq<nat>)
    requires |sizes| == |ps| && ps != []
    ensures PhonesRight(ps, sizes) <==> sizes[0] == PhoneSize(ps[0]) && PhonesRight(ps[1..], sizes[1..])
  {
    hide PhoneSize;
    if PhonesRight(ps[1..], sizes[1..]) {
      assert forall i :: 1 <= i < |ps| ==> ps[i] == ps[1..][i - 1] && sizes[i] == sizes[1..][i - 1];
    }
  }

  lemma {:induction false} TimeSizedIs(t: Option<Timestamp>, size: nat, x: bytes, y: bytes)
    ensures TimeSized(t, size) + x == LastUpdatedBytes(t) + y
            <==> (t != None ==> size == TimeSize(t.value)) && x == y
  {
    hide SizedField, MessageField, TimeBytes, TimeSize;
    if t == None {
      AppendNone(x);
      AppendNone(y);
    } else {
      SizedFieldIs(42, size, TimeBytes(t.value), TimeBytes(t.value), x, y);
      SameRest(TimeBytes(t.value), x, y);
      TimeLength(t.value);
    }
  }

  lemma {:induction false} PersonSizedIs(p: Person, c: PersonSizes, x: bytes, y: bytes)
    requires Matches(p, c)
    ensures PersonSized(p, c) + x == PersonBytes(p) + y <==> InsideRight(p, c) && x == y
  {
    var a1, a2, a3 := StringField(10, p.name), IntField(16, p.id), StringField(26, p.email);
    var b, t := PhonesSized(p.phones, c.phones), TimeSized(p.lastUpdated, c.time);
    var b', t' := PhonesBytes(p.phones), LastUpdatedBytes(p.lastUpdated);
    FiveParts(a1, a2, a3, b, t, x);
    FiveParts(a1, a2, a3, b', t', y);
    hide PhonesSized, TimeSized, PhonesBytes, LastUpdatedBytes, StringField, IntField, PhonesRight, TimeSize;
    SameRest(a1, a2 + (a3 + (b + (t + x))), a2 + (a3 + (b' + (t' + y))));
    SameRest(a2, a3 + (b + (t + x)), a3 + (b' + (t' + y)));
    SameRest(a3, b + (t + x), b' + (t' + y));
    PhonesSizedIs(p.phones, c.phones, t + x, t' + y);
    TimeSizedIs(p.lastUpdated, c.time, x, y);
  }

  lemma {:induction false} PeopleSizedIs(ps: seq<Person>, cs: seq<PersonSizes>, x: bytes, y: bytes)
    requires AllMatch(ps, cs)
    ensures PeopleSized(ps, cs) + x == PeopleBytes(ps) + y <==> PeopleRight(ps, cs) && x == y
    decreases ps
  {
    hide SizedField, MessageField, PersonBytes, PersonSized, PersonSize, InsideRight;
    if ps == [] {
      AppendNone(x);
      AppendNone(y);
    } else {
      var s, t := PersonSized(ps[0], cs[0]), PersonBytes(ps[0]);
      var u, v := PeopleSized(ps[1..], cs[1..]), PeopleBytes(ps[1..]);
      Regroup(SizedField(10, cs[0].own, s), u, x);
      Regroup(MessageField(10, t), v, y);
      SizedFieldIs(10, cs[0].own, s, t, u + x, v + y);
      PersonLength(ps[0]);
      PersonSizedIs(ps[0], cs[0], u + x, v + y);
      PeopleSizedIs(ps[1..], cs[1..], x, y);
      PeopleRightFirst(ps, cs);
    }
  }

  lemma {:induction false} PeopleRightFirst(ps: seq<Person>, cs: seq<PersonSizes>)
    requires |cs| == |ps| && ps != []
    ensures PeopleRight(ps, cs) <==> PersonRight(ps[0], cs[0]) && PeopleRight(ps[1..], cs[1..])
  {
    hide PersonRight;
    if PeopleRight(ps[1..], cs[1..]) {
      assert forall i :: 1 <= i < |ps| ==> ps[i] == ps[1..][i - 1] && cs[i] == cs[1..][i - 1];
    }
  }

  /** The serialisers write the bytes of the book if and only if the cached size of every node below it is right. */
  lemma {:induction false} BookSizedIff(b: AddressBook, cs: seq<PersonSizes>)
    requires AllMatch(b.people, cs)
    ensures PeopleSized(b.people, cs) == BookBytes(b) <==> PeopleRight(b.people, cs)
  {
    hide PeopleSized, PeopleBytes, PeopleRight;
    PeopleSizedIs(b.people, cs, [], []);
    AppendNone(PeopleSized(b.people, cs));
    AppendNone(PeopleBytes(b.people));
  }

  lemma {:induction false} PersonSizedIff(p: Person, c: PersonSizes)
    requires Matches(p, c)
    ensures PersonSized(p, c) == PersonBytes(p) <==> InsideRight(p, c)
  {
    hide PersonSized, PersonBytes, InsideRight;
    PersonSizedIs(p, c, [], []);
    AppendNone(PersonSized(p, c));
    AppendNone(PersonBytes(p));
  }

  // ---------- In the order the loops write ----------

  lemma {:induction false} FieldWritten(was: bytes, tag: byte, size: nat, s: bytes, rest: bytes)
    ensures was + [tag] + Varint(size) + s + rest == was + (SizedField(tag, size, s) + rest)
  {
    var v := Varint(size);
    assert was + [tag] + v + s + rest == was + ([tag] + (v + s) + rest);
  }

  lemma {:induction false} PhonesLeft(ps: seq<PhoneNumber>, cs: seq<nat>, i: nat)
    requires |cs| == |ps| && i < |ps|
    ensures PhonesSized(ps[i..], cs[i..])
            == SizedField(34, cs[i], PhoneBytes(ps[i])) + PhonesSized(ps[i + 1..], cs[i + 1..])
  {
    hide SizedField, PhoneBytes;
    assert ps[i..][1..] == ps[i + 1..] && cs[i..][1..] == cs[i + 1..];
  }

  lemma {:induction false} PhonesAtEnds(ps: seq<PhoneNumber>, cs: seq<nat>)
    requires |cs| == |ps|
    ensures PhonesSized(ps[0..], cs[0..]) == PhonesSized(ps, cs) && PhonesSized(ps[|ps|..], cs[|ps|..]) == []
  {
    assert ps[0..] == ps && cs[0..] == cs;
  }

  lemma {:induction false} PeopleLeft(ps: seq<Person>, cs: seq<PersonSizes>, i: nat)
    requires AllMatch(ps, cs) && i < |ps|
    ensures PeopleSized(ps[i..], cs[i..])
            == SizedField(10, cs[i].own, PersonSized(ps[i], cs[i])) + PeopleSized(ps[i + 1..], cs[i + 1..])
  {
    hide SizedField, PersonSized;
    assert ps[i..][1..] == ps[i + 1..] && cs[i..][1..] == cs[i + 1..];
  }

  lemma {:induction false} PeopleAtEnds(ps: seq<Person>, cs: seq<PersonSizes>)
    requires AllMatch(ps, cs)
    ensures PeopleSized(ps[0..], cs[0..]) == PeopleSized(ps, cs) && PeopleSized(ps[|ps|..], cs[|ps|..]) == []
  {
    assert ps[0..] == ps && cs[0..] == cs;
  }

  /** The three fields in front of the nested ones. */
  function Head(p: Person): bytes {
    StringField(10, p.name) + IntField(16, p.id) + StringField(26, p.email)
  }

  lemma {:induction false} PersonInParts(p: Person, c: PersonSizes)
    requires Matches(p, c)
    ensures PersonSized(p, c) == Head(p) + PhonesSized(p.phones, c.phones) + TimeSized(p.lastUpdated, c.time)
  {
    var a1, a2, a3 := StringField(10, p.name), IntField(16, p.id), StringField(26, p.email);
    var b, t := PhonesSized(p.phones, c.phones), TimeSized(p.lastUpdated, c.time);
    hide PhonesSized, TimeSized, StringField, IntField;
    Regroup(a1, a2, a3);
    Regroup(a1 + a2 + a3, b, t);
    Regroup(a1 + a2, a3, b + t);
    Regroup(a1, a2, a3 + (b + t));
  }

  lemma {:induction false} PersonWritten(output: bytes, p: Person, c: PersonSizes)
    requires Matches(p, c)
    ensures output + PersonSized(p, c)
            == output + Head(p) + PhonesSized(p.phones, c.phones) + TimeSized(p.lastUpdated, c.time)
  {
    hide PersonSized, PhonesSized, TimeSized, Head;
    PersonInParts(p, c);
    var head, b := Head(p), PhonesSized(p.phones, c.phones);
    Regroup(output, head, b);
    Regroup(output, head + b, TimeSized(p.lastUpdated, c.time));
  }
}

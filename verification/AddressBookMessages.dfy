// The generated message classes: fields set while reading, bytes appended to a stream or stored in an
// array, sizes accumulated and cached in every node and used as its length prefix.

module AddressBookMessages {
  import opened Prelude
  import opened WireFormat
  import opened AddressBookSpec
  import opened AddressBookTheorems
  import opened AddressBookSizes

  // ---------- Storing in an array ----------

  /** The array was `was` and is `now`: `data` was stored from `target` up to `end`, and nothing else. */
  predicate Stored(was: bytes, now: bytes, target: nat, data: bytes, end: nat) {
    && end == target + |data| && end <= |was| == |now|
    && now[..end] == was[..target] + data && now[end..] == was[end..]
  }

  lemma {:induction false} StoredNothing(was: bytes, target: nat)
    requires target <= |was|
    ensures Stored(was, was, target, [], target)
  {
    AppendNone(was[..target]);
  }

  lemma {:induction false} StoredEnds(was: bytes, now: bytes, target: nat, data: bytes, end: nat)
    requires Stored(was, now, target, data, end)
    ensures end == target + |data|
  {
  }

  /** Two pieces stored one after the other. */
  lemma {:induction false} StoredTwice(was: bytes, mid: bytes, now: bytes,
                                       target: nat, a: bytes, middle: nat, b: bytes, end: nat)
    requires Stored(was, mid, target, a, middle) && Stored(mid, now, middle, b, end)
    ensures Stored(was, now, target, a + b, end)
  {
    Regroup(was[..target], a, b);
    assert mid[end..] == mid[middle..][end - middle..] && was[end..] == was[middle..][end - middle..];
  }

  method Put(a: array<byte>, target: nat, data: bytes) returns (end: nat)
    requires target + |data| <= a.Length
    modifies a
    ensures Stored(old(a[..]), a[..], target, data, end)
  {
    var i := 0;
    while i < |data|
      invariant i <= |data|
      invariant a[..target + i] == old(a[..target]) + data[..i]
      invariant a[target + i..] == old(a[target + i..])
    {
      assert a[target + i..][1..] == a[target + i + 1..];
      a[target + i] := data[i];
      i := i + 1;
    }
    assert data[..i] == data;
    end := target + i;
  }

  // ---------- Phone numbers ----------

  class PhoneMessage {
    var number: bytes
    var kind: int32
    var cachedSize: nat

    function Value(): PhoneNumber
      reads `number, `kind
    {
      PhoneNumber(number, kind)
    }

    constructor ()
      ensures Value() == NO_PHONE
    {
      number, kind, cachedSize := [], 0, 0;
    }

    method Clear()
      modifies this
      ensures Value() == NO_PHONE
    {
      number, kind := [], 0;
    }

    /** Read fields until the end of the input, merging each into this message. */
    method MergePartialFromCodedStream(input: bytes, utf8: Utf8) returns (ok: bool, legitimate: bool)
      modifies `number, `kind
      ensures match ParsePhone(old(Value()), input, utf8)
              case None => !ok
              case Some(r) => ok && Value() == r.0 && legitimate == r.1
    {
      var s := input;
      while true
        invariant ParsePhone(Value(), s, utf8) == ParsePhone(old(Value()), input, utf8)
        decreases |s|
      {
        match ReadTag(s)
        case End(l) =>
          return true, l;
        case Tag(tag, rest) =>
          ReadShrinks(rest, MAX_VARINT);
          if tag == 10 {
            var v := ReadString(rest, utf8);
            if v == None { return false, false; }
            number, s := v.value.0, v.value.1;
          } else if tag == 16 {
            var v := ReadInt32(rest);
            if v == None { return false, false; }
            kind, s := v.value.0, v.value.1;
          } else {
            var v := SkipField(tag, rest);
            if v == None { return false, false; }
            s := v.value;
          }
      }
    }

    method SerializeWithCachedSizes(output: bytes) returns (out: bytes)
      ensures out == output + PhoneBytes(Value())
    {
      out := output;
      if |number| > 0 {
        out := out + ([10] + Delimited(number));
      }
      if kind != 0 {
        out := out + ([16] + Varint(Extend(kind)));
      }
      assert out == output + (StringField(10, number) + IntField(16, kind));
    }

    method InternalSerializeToArray(a: array<byte>, target: nat) returns (end: nat)
      requires target + |PhoneBytes(Value())| <= a.Length
      modifies a
      ensures Stored(old(a[..]), a[..], target, PhoneBytes(Value()), end)
    {
      hide Delimited, Varint;
      ghost var was := a[..];
      end := target;
      StoredNothing(was, target);
      if |number| > 0 {
        end := Put(a, end, [10] + Delimited(number));
      }
      ghost var mid, middle := a[..], end;
      StoredNothing(mid, end);
      if kind != 0 {
        end := Put(a, end, [16] + Varint(Extend(kind)));
      }
      StoredTwice(was, mid, a[..], target, StringField(10, number), middle, IntField(16, kind), end);
    }

    method ByteSizeLong() returns (total: nat)
      modifies `cachedSize
      ensures total == cachedSize == PhoneSize(Value()) == |PhoneBytes(Value())|
    {
      total := 0;
      if |number| > 0 {
        total := total + 1 + DelimitedSize(|number|);
      }
      if kind != 0 {
        total := total + 1 + SignedSize(kind);
      }
      cachedSize := total;
      PhoneLength(Value());
    }

    method MergeFrom(from: PhoneMessage)
      requires from != this
      modifies `number, `kind
      ensures Value() == MergePhone(old(Value()), from.Value())
    {
      if |from.number| > 0 { number := from.number; }
      if from.kind != 0 { kind := from.kind; }
    }
  }

  // ---------- Time stamps ----------

  class TimeMessage {
    var seconds: int64
    var nanos: int32
    var cachedSize: nat

    function Value(): Timestamp
      reads `seconds, `nanos
    {
      Timestamp(seconds, nanos)
    }

    constructor ()
      ensures Value() == NO_TIME
    {
      seconds, nanos, cachedSize := 0, 0, 0;
    }

    method MergePartialFromCodedStream(input: bytes) returns (ok: bool, legitimate: bool)
      modifies `seconds, `nanos
      ensures match ParseTime(old(Value()), input)
              case None => !ok
              case Some(r) => ok && Value() == r.0 && legitimate == r.1
    {
      var s := input;
      while true
        invariant ParseTime(Value(), s) == ParseTime(old(Value()), input)
        decreases |s|
      {
        match ReadTag(s)
        case End(l) =>
          return true, l;
        case Tag(tag, rest) =>
          ReadShrinks(rest, MAX_VARINT);
          if tag == 8 {
            var v := ReadInt64(rest);
            if v == None { return false, false; }
            seconds, s := v.value.0, v.value.1;
          } else if tag == 16 {
            var v := ReadInt32(rest);
            if v == None { return false, false; }
            nanos, s := v.value.0, v.value.1;
          } else {
            var v := SkipField(tag, rest);
            if v == None { return false, false; }
            s := v.value;
          }
      }
    }

    method SerializeWithCachedSizes(output: bytes) returns (out: bytes)
      ensures out == output + TimeBytes(Value())
    {
      hide Varint;
      out := output;
      AppendNone(output);
      if seconds != 0 {
        out := out + ([8] + Varint(Extend(seconds)));
      }
      AppendNone(out);
      Regroup(output, IntField(8, seconds), IntField(16, nanos));
      if nanos != 0 {
        out := out + ([16] + Varint(Extend(nanos)));
      }
    }

    method InternalSerializeToArray(a: array<byte>, target: nat) returns (end: nat)
      requires target + |TimeBytes(Value())| <= a.Length
      modifies a
      ensures Stored(old(a[..]), a[..], target, TimeBytes(Value()), end)
    {
      hide Varint;
      ghost var was := a[..];
      end := target;
      StoredNothing(was, target);
      if seconds != 0 {
        end := Put(a, end, [8] + Varint(Extend(seconds)));
      }
      ghost var mid, middle := a[..], end;
      StoredNothing(mid, end);
      if nanos != 0 {
        end := Put(a, end, [16] + Varint(Extend(nanos)));
      }
      StoredTwice(was, mid, a[..], target, IntField(8, seconds), middle, IntField(16, nanos), end);
    }

    method ByteSizeLong() returns (total: nat)
      modifies `cachedSize
      ensures total == cachedSize == TimeSize(Value()) == |TimeBytes(Value())|
    {
      total := 0;
      if seconds != 0 {
        total := total + 1 + SignedSize(seconds);
      }
      if nanos != 0 {
        total := total + 1 + SignedSize(nanos);
      }
      cachedSize := total;
      TimeLength(Value());
    }

    method MergeFrom(from: TimeMessage)
      modifies `seconds, `nanos
      ensures Value() == MergeTime(old(Value()), old(from.Value()))
    {
      if from.seconds != 0 { seconds := from.seconds; }
      if from.nanos != 0 { nanos := from.nanos; }
    }
  }

  // ---------- People ----------

  function PhoneValues(ps: seq<PhoneMessage>, n: nat): (r: seq<PhoneNumber>)
    requires n <= |ps|
    reads ps`number, ps`kind
    ensures |r| == n && forall i :: 0 <= i < n ==> r[i] == ps[i].Value()
  {
    if n == 0 then [] else PhoneValues(ps, n - 1) + [ps[n - 1].Value()]
  }

  function PhoneCaches(ps: seq<PhoneMessage>, n: nat): (r: seq<nat>)
    requires n <= |ps|
    reads ps`cachedSize
    ensures |r| == n && forall i :: 0 <= i < n ==> r[i] == ps[i].cachedSize
  {
    if n == 0 then [] else PhoneCaches(ps, n - 1) + [ps[n - 1].cachedSize]
  }

  class PersonMessage {
    var name: bytes
    var id: int32
    var email: bytes
    var phones: seq<PhoneMessage>
    var lastUpdated: TimeMessage?
    var cachedSize: nat

    function Times(): set<TimeMessage>
      reads `lastUpdated
    {
      if lastUpdated == null then {} else {lastUpdated}
    }

    function Value(): (p: Person)
      reads `name, `id, `email, `phones, `lastUpdated
      reads phones`number, phones`kind, Times()`seconds, Times()`nanos
      ensures |p.phones| == |phones|
    {
      Person(name, id, email, PhoneValues(phones, |phones|), if lastUpdated == null then None else Some(lastUpdated.Value()))
    }

    function Sizes(): (c: PersonSizes)
      reads `cachedSize, `phones, `lastUpdated, phones`cachedSize, Times()`cachedSize
      ensures |c.phones| == |phones|
    {
      PersonSizes(cachedSize, PhoneCaches(phones, |phones|), if lastUpdated == null then 0 else lastUpdated.cachedSize)
    }

    constructor ()
      ensures Value() == NO_PERSON && lastUpdated == null
    {
      name, id, email, phones, lastUpdated, cachedSize := [], 0, [], [], null, 0;
    }

    method Clear()
      modifies this
      ensures Value() == NO_PERSON
    {
      phones, name, email, lastUpdated, id := [], [], [], null, 0;
    }

    /** A nested phone number is read into a new element of the repeated field. */
    method AddPhone(s: bytes, utf8: Utf8) returns (r: Option<bytes>)
      modifies `phones
      ensures match ReadPhone(s, utf8)
              case None => r == None
              case Some(v) => r == Some(v.1) && Value() == old(Value()).(phones := old(Value()).phones + [v.0])
    {
      hide PhoneValues, ParsePhone, ReadDelimited;
      var d := ReadDelimited(s);
      if d == None { return None; }
      var phone := new PhoneMessage();
      var ok, legitimate := phone.MergePartialFromCodedStream(d.value.0, utf8);
      if !ok || !legitimate { return None; }
      AddNode(phone);
      return Some(d.value.1);
    }

    method AddNode(phone: PhoneMessage)
      modifies `phones
      ensures Value() == old(Value()).(phones := old(Value()).phones + [phone.Value()])
    {
      ghost var was := Value();
      phones := phones + [phone];
      assert Value().phones == was.phones + [phone.Value()];
    }

    /** A nested time stamp is read into the one there is, or into a new one. */
    method ReadLastUpdated(s: bytes) returns (r: Option<bytes>)
      modifies `lastUpdated, Times()`seconds, Times()`nanos
      ensures lastUpdated == old(lastUpdated) || fresh(lastUpdated)
      ensures match ReadTime(GetTime(old(Value()).lastUpdated), s)
              case None => r == None
              case Some(v) => r == Some(v.1) && Value() == old(Value()).(lastUpdated := Some(v.0))
    {
      var d := ReadDelimited(s);
      if d == None { return None; }
      ghost var was := Value();
      if lastUpdated == null {
        lastUpdated := new TimeMessage();
      }
      var ok, legitimate := lastUpdated.MergePartialFromCodedStream(d.value.0);
      if !ok || !legitimate { return None; }
      assert Value().phones == was.phones;
      return Some(d.value.1);
    }

    /** Read fields until the end of the input, merging each into this message. */
    method MergePartialFromCodedStream(input: bytes, utf8: Utf8) returns (ok: bool, legitimate: bool)
      modifies `name, `id, `email, `phones, `lastUpdated, Times()`seconds, Times()`nanos
      ensures match ParsePerson(old(Value()), input, utf8)
              case None => !ok
              case Some(r) => ok && Value() == r.0 && legitimate == r.1
    {
      var s := input;
      while true
        invariant lastUpdated == old(lastUpdated) || fresh(lastUpdated)
        invariant ParsePerson(Value(), s, utf8) == ParsePerson(old(Value()), input, utf8)
        decreases |s|
      {
        match ReadTag(s)
        case End(l) =>
          return true, l;
        case Tag(tag, rest) =>
          var next := ReadField(tag, rest, utf8);
          if next == None { return false, false; }
          s := next.value;
      }
    }

    method ReadField(tag: nat, rest: bytes, utf8: Utf8) returns (next: Option<bytes>)
      modifies `name, `id, `email, `phones, `lastUpdated, Times()`seconds, Times()`nanos
      ensures lastUpdated == old(lastUpdated) || fresh(lastUpdated)
      ensures match PersonField(old(Value()), tag, rest, utf8)
              case None => next == None
              case Some(r) => next == Some(r.1) && Value() == r.0
    {
      if tag == 10 {
        var v := ReadString(rest, utf8);
        if v == None { return None; }
        name, next := v.value.0, Some(v.value.1);
      } else if tag == 16 {
        var v := ReadInt32(rest);
        if v == None { return None; }
        id, next := v.value.0, Some(v.value.1);
      } else if tag == 26 {
        var v := ReadString(rest, utf8);
        if v == None { return None; }
        email, next := v.value.0, Some(v.value.1);
      } else if tag == 34 {
        next := AddPhone(rest, utf8);
      } else if tag == 42 {
        next := ReadLastUpdated(rest);
      } else {
        next := SkipField(tag, rest);
      }
    }

    /** Every nested message is written by its own serialiser, behind the size cached for it. */
    method SerializeWithCachedSizes(output: bytes) returns (out: bytes)
      ensures out == output + PersonSized(Value(), Sizes())
    {
      hide Head, PhonesSized, TimeSized, PersonSized, PhoneValues, PhoneCaches;
      PersonWritten(output, Value(), Sizes());
      out := AppendHead(output);
      out := AppendPhones(out);
      out := AppendTime(out);
    }

    method AppendHead(output: bytes) returns (out: bytes)
      ensures out == output + Head(Value())
    {
      hide Delimited, Varint;
      ghost var a, b, c := StringField(10, name), IntField(16, id), StringField(26, email);
      out := output;
      if |name| > 0 {
        out := out + ([10] + Delimited(name));
      }
      AppendNone(output);
      AppendNone(output + a);
      if id != 0 {
        out := out + ([16] + Varint(Extend(id)));
      }
      AppendNone(output + a + b);
      if |email| > 0 {
        out := out + ([26] + Delimited(email));
      }
      Regroup(output, a, b);
      Regroup(output, a + b, c);
    }

    method AppendPhones(output: bytes) returns (out: bytes)
      ensures out == output + PhonesSized(Value().phones, Sizes().phones)
    {
      hide PhonesSized, SizedField, PhoneBytes, Varint;
      out := output;
      ghost var ps, cs := Value().phones, Sizes().phones;
      PhonesAtEnds(ps, cs);
      for i := 0 to |phones|
        invariant out + PhonesSized(ps[i..], cs[i..]) == output + PhonesSized(ps, cs)
      {
        PhonesLeft(ps, cs, i);
        FieldWritten(out, 34, cs[i], PhoneBytes(ps[i]), PhonesSized(ps[i + 1..], cs[i + 1..]));
        out := out + [34] + Varint(phones[i].cachedSize);
        out := phones[i].SerializeWithCachedSizes(out);
      }
      AppendNone(out);
    }

    method AppendTime(output: bytes) returns (out: bytes)
      ensures out == output + TimeSized(Value().lastUpdated, Sizes().time)
    {
      hide SizedField, TimeBytes, Varint;
      out := output;
      if lastUpdated == null {
        AppendNone(output);
      } else {
        var size := lastUpdated.cachedSize;
        ghost var s := TimeBytes(lastUpdated.Value());
        FieldWritten(output, 42, size, s, []);
        AppendNone(SizedField(42, size, s));
        AppendNone(output + [42] + Varint(size) + s);
        out := out + [42] + Varint(size);
        out := lastUpdated.SerializeWithCachedSizes(out);
      }
    }

    method InternalSerializeToArray(a: array<byte>, target: nat) returns (end: nat)
      requires target + |PersonSized(Value(), Sizes())| <= a.Length
      modifies a
      ensures Stored(old(a[..]), a[..], target, PersonSized(Value(), Sizes()), end)
    {
      hide PersonSized, PhonesSized, TimeSized, Head, Stored, PhoneValues, PhoneCaches;
      PersonInParts(Value(), Sizes());
      ghost var head, b, t := Head(Value()), PhonesSized(Value().phones, Sizes().phones),
          TimeSized(Value().lastUpdated, Sizes().time);
      ghost var a0 := a[..];
      var m1 := PutHead(a, target);
      ghost var a1 := a[..];
      StoredEnds(a0, a1, target, head, m1);
      var m2 := PutPhones(a, m1);
      ghost var a2 := a[..];
      StoredTwice(a0, a1, a2, target, head, m1, b, m2);
      StoredEnds(a0, a2, target, head + b, m2);
      end := PutTime(a, m2);
      StoredTwice(a0, a2, a[..], target, head + b, m2, t, end);
    }

    method PutHead(a: array<byte>, target: nat) returns (end: nat)
      requires target + |Head(Value())| <= a.Length
      modifies a
      ensures Stored(old(a[..]), a[..], target, Head(Value()), end)
    {
      hide Delimited, Varint;
      ghost var a0 := a[..];
      end := target;
      StoredNothing(a0, target);
      if |name| > 0 {
        end := Put(a, end, [10] + Delimited(name));
      }
      ghost var a1, m1 := a[..], end;
      StoredNothing(a1, end);
      if id != 0 {
        end := Put(a, end, [16] + Varint(Extend(id)));
      }
      ghost var a2, m2 := a[..], end;
      StoredTwice(a0, a1, a2, target, StringField(10, name), m1, IntField(16, id), m2);
      StoredNothing(a2, end);
      if |email| > 0 {
        end := Put(a, end, [26] + Delimited(email));
      }
      StoredTwice(a0, a2, a[..], target, StringField(10, name) + IntField(16, id), m2, StringField(26, email), end);
    }

    method PutPhones(a: array<byte>, target: nat) returns (end: nat)
      requires target + |PhonesSized(Value().phones, Sizes().phones)| <= a.Length
      modifies a
      ensures Stored(old(a[..]), a[..], target, PhonesSized(Value().phones, Sizes().phones), end)
    {
      hide PhonesSized, SizedField, PhoneBytes, Stored;
      ghost var was, ps, cs := a[..], Value().phones, Sizes().phones;
      ghost var done: bytes := [];
      PhonesAtEnds(ps, cs);
      AppendNone(PhonesSized(ps, cs));
      StoredNothing(was, target);
      end := target;
      for i := 0 to |phones|
        invariant Value().phones == ps && Sizes().phones == cs
        invariant done + PhonesSized(ps[i..], cs[i..]) == PhonesSized(ps, cs)
        invariant Stored(was, a[..], target, done, end)
      {
        PhonesLeft(ps, cs, i);
        ghost var field := SizedField(34, cs[i], PhoneBytes(ps[i]));
        Regroup(done, field, PhonesSized(ps[i + 1..], cs[i + 1..]));
        StoredEnds(was, a[..], target, done, end);
        ghost var mid, middle := a[..], end;
        end := PutPhone(a, end, i);
        StoredTwice(was, mid, a[..], target, done, middle, field, end);
        done := done + field;
      }
      AppendNone(done);
    }

    method PutPhone(a: array<byte>, target: nat, i: nat) returns (end: nat)
      requires i < |phones|
      requires target + |SizedField(34, phones[i].cachedSize, PhoneBytes(phones[i].Value()))| <= a.Length
      modifies a
      ensures Stored(old(a[..]), a[..], target, SizedField(34, phones[i].cachedSize, PhoneBytes(phones[i].Value())), end)
    {
      hide Varint, PhoneBytes;
      ghost var was, s := a[..], PhoneBytes(phones[i].Value());
      var size := phones[i].cachedSize;
      Regroup([34], Varint(size), s);
      var middle := Put(a, target, [34] + Varint(size));
      ghost var mid := a[..];
      end := phones[i].InternalSerializeToArray(a, middle);
      StoredTwice(was, mid, a[..], target, [34] + Varint(size), middle, s, end);
    }

    method PutTime(a: array<byte>, target: nat) returns (end: nat)
      requires target + |TimeSized(Value().lastUpdated, Sizes().time)| <= a.Length
      modifies a
      ensures Stored(old(a[..]), a[..], target, TimeSized(Value().lastUpdated, Sizes().time), end)
    {
      hide Varint, TimeBytes;
      ghost var was := a[..];
      end := target;
      if lastUpdated == null {
        StoredNothing(was, target);
      } else {
        var size := lastUpdated.cachedSize;
        ghost var s := TimeBytes(lastUpdated.Value());
        Regroup([42], Varint(size), s);
        var middle := Put(a, target, [42] + Varint(size));
        ghost var mid := a[..];
        end := lastUpdated.InternalSerializeToArray(a, middle);
        StoredTwice(was, mid, a[..], target, [42] + Varint(size), middle, s, end);
      }
    }

    /** The cached size of this node and of those below it is right. */
    ghost predicate Right()
      reads `name, `id, `email, `phones, `lastUpdated, `cachedSize
      reads phones`number, phones`kind, phones`cachedSize, Times()`seconds, Times()`nanos, Times()`cachedSize
    {
      && cachedSize == PersonSize(Value())
      && (forall q :: q in phones ==> q.cachedSize == PhoneSize(q.Value()))
      && forall t :: t in Times() ==> t.cachedSize == TimeSize(t.Value())
    }

    /** The size of every nested message is computed, cached there, and counted with its length prefix. */
    method ByteSizeLong() returns (total: nat)
      modifies `cachedSize, phones`cachedSize, Times()`cachedSize
      ensures total == cachedSize == PersonSize(Value()) == |PersonBytes(Value())|
      ensures Right()
    {
      hide PersonSize, PhoneSize, TimeSize, PhonesSize, PersonBytes, DelimitedSize,
          SignedSize, StringSize, IntSize, PhoneValues;
      PersonLength(Value());
      PersonSizeIs(Value());
      total := NestedByteSize();
      total := total + ScalarsByteSize();
      cachedSize := total;
    }

    method NestedByteSize() returns (total: nat)
      modifies phones`cachedSize, Times()`cachedSize
      ensures total == |phones| + PhonesSize(Value().phones, |phones|)
                       + if lastUpdated == null then 0 else 1 + DelimitedSize(TimeSize(lastUpdated.Value()))
      ensures forall q :: q in phones ==> q.cachedSize == PhoneSize(q.Value())
      ensures forall t :: t in Times() ==> t.cachedSize == TimeSize(t.Value())
    {
      hide PhoneSize, TimeSize, PhonesSize, DelimitedSize, PhoneValues;
      total := PhonesByteSize();
      var time := TimeByteSize();
      total := total + time;
    }

    function ScalarsByteSize(): (total: nat)
      reads `name, `id, `email
      ensures total == StringSize(name) + StringSize(email) + IntSize(id)
    {
      (if |name| > 0 then 1 + DelimitedSize(|name|) else 0)
      + (if |email| > 0 then 1 + DelimitedSize(|email|) else 0)
      + (if id != 0 then 1 + SignedSize(id) else 0)
    }

    method PhonesByteSize() returns (total: nat)
      modifies phones`cachedSize
      ensures total == |phones| + PhonesSize(Value().phones, |phones|)
      ensures forall q :: q in phones ==> q.cachedSize == PhoneSize(q.Value())
    {
      hide PhoneSize, DelimitedSize, PhoneValues;
      ghost var ps := PhoneValues(phones, |phones|);
      total := |phones|;
      for i := 0 to |phones|
        invariant PhoneValues(phones, |phones|) == ps && total == |phones| + PhonesSize(ps, i)
        invariant PhonesSizedTo(i)
      {
        var n := PhoneByteSize(i);
        total := total + DelimitedSize(n);
      }
    }

    ghost predicate PhonesSizedTo(n: nat)
      requires n <= |phones|
      reads `phones, phones`cachedSize, phones`number, phones`kind
    {
      forall j :: 0 <= j < n ==> phones[j].cachedSize == PhoneSize(phones[j].Value())
    }

    method PhoneByteSize(i: nat) returns (n: nat)
      requires i < |phones| && PhonesSizedTo(i)
      modifies {phones[i]}`cachedSize
      ensures n == PhoneSize(phones[i].Value()) && PhonesSizedTo(i + 1)
    {
      hide PhoneSize;
      n := phones[i].ByteSizeLong();
    }

    method TimeByteSize() returns (total: nat)
      modifies Times()`cachedSize
      ensures total == if lastUpdated == null then 0 else 1 + DelimitedSize(TimeSize(lastUpdated.Value()))
      ensures forall t :: t in Times() ==> t.cachedSize == TimeSize(t.Value())
    {
      hide TimeSize, DelimitedSize;
      total := 0;
      if lastUpdated != null {
        var n := lastUpdated.ByteSizeLong();
        total := 1 + DelimitedSize(n);
      }
    }

    method MergeFrom(from: PersonMessage)
      requires from != this
      modifies `name, `id, `email, `phones, `lastUpdated, Times()`seconds, Times()`nanos
      ensures Value() == MergePerson(old(Value()), old(from.Value()))
    {
      hide PhoneValues;
      AddPhones(from);
      MergeScalars(from);
      MergeLastUpdated(from);
    }

    method MergeScalars(from: PersonMessage)
      modifies `name, `id, `email
      ensures var was, other := old(Value()), old(from.Value());
              Value() == was.(name := Override(was.name, other.name), email := Override(was.email, other.email),
                              id := if other.id != 0 then other.id else was.id)
      ensures phones == old(phones) && lastUpdated == old(lastUpdated)
    {
      hide PhoneValues;
      if |from.name| > 0 { name := from.name; }
      if |from.email| > 0 { email := from.email; }
      if from.id != 0 { id := from.id; }
    }

    method MergeLastUpdated(from: PersonMessage)
      modifies `lastUpdated, Times()`seconds, Times()`nanos
      ensures var to, other := old(Value()), old(from.Value().lastUpdated);
              Value() == to.(lastUpdated := if other == None then to.lastUpdated
                                            else Some(MergeTime(GetTime(to.lastUpdated), other.value)))
    {
      ghost var was := Value();
      if from.lastUpdated != null {
        if lastUpdated == null {
          lastUpdated := new TimeMessage();
        }
        lastUpdated.MergeFrom(from.lastUpdated);
      }
      assert Value().phones == was.phones;
    }

    /** A new node for each phone number of the other person. */
    method AddPhones(from: PersonMessage)
      requires from != this
      modifies `phones
      ensures Value() == old(Value()).(phones := old(Value()).phones + from.Value().phones)
    {
      hide PhoneValues;
      ghost var was, ps := Value(), from.Value().phones;
      PhonesCopied(was, ps, 0);
      for i := 0 to |from.phones|
        invariant from.Value().phones == ps && Value() == was.(phones := was.phones + ps[..i])
      {
        PhonesCopied(was, ps, i);
        AddCopy(from.phones[i]);
      }
      assert ps[..|ps|] == ps;
    }

    method AddCopy(from: PhoneMessage)
      modifies `phones
      ensures Value() == old(Value()).(phones := old(Value()).phones + [from.Value()])
    {
      hide PhoneValues;
      var phone := new PhoneMessage();
      phone.MergeFrom(from);
      assert phone.Value() == from.Value();
      AddNode(phone);
    }
  }

  lemma {:induction false} PhonesCopied(was: Person, ps: seq<PhoneNumber>, i: nat)
    requires i <= |ps|
    ensures i == 0 ==> was.(phones := was.phones + ps[..i]) == was
    ensures i < |ps| ==> was.phones + ps[..i] + [ps[i]] == was.phones + ps[..i + 1]
  {
  }

  lemma {:induction false} PersonSizeIs(p: Person)
    ensures PersonSize(p) == |p.phones| + PhonesSize(p.phones, |p.phones|) + StringSize(p.name) + StringSize(p.email)
                             + (if p.lastUpdated == None then 0 else 1 + DelimitedSize(TimeSize(p.lastUpdated.value)))
                             + IntSize(p.id)
  {
  }

  // ---------- Address books ----------

  /** The nodes below some people. */
  function PhonesOf(people: seq<PersonMessage>): set<PhoneMessage>
    reads people`phones
  {
    set p, q | p in people && q in p.phones :: q
  }

  function TimesOf(people: seq<PersonMessage>): set<TimeMessage>
    reads people`lastUpdated
  {
    set p, t | p in people && t in p.Times() :: t
  }

  lemma {:induction false} Below(people: seq<PersonMessage>, i: nat)
    requires i < |people|
    ensures forall q :: q in people[i].phones ==> q in PhonesOf(people)
    ensures forall t :: t in people[i].Times() ==> t in TimesOf(people)
  {
  }

  function ValueAt(people: seq<PersonMessage>, i: nat): Person
    requires i < |people|
    reads people`name, people`id, people`email, people`phones, people`lastUpdated
    reads PhonesOf(people)`number, PhonesOf(people)`kind, TimesOf(people)`seconds, TimesOf(people)`nanos
  {
    Below(people, i);
    people[i].Value()
  }

  function PersonValues(people: seq<PersonMessage>, n: nat): (r: seq<Person>)
    requires n <= |people|
    reads people`name, people`id, people`email, people`phones, people`lastUpdated
    reads PhonesOf(people)`number, PhonesOf(people)`kind, TimesOf(people)`seconds, TimesOf(people)`nanos
    ensures |r| == n && forall i :: 0 <= i < n ==> r[i] == ValueAt(people, i)
  {
    if n == 0 then [] else PersonValues(people, n - 1) + [ValueAt(people, n - 1)]
  }

  function SizesAt(people: seq<PersonMessage>, i: nat): PersonSizes
    requires i < |people|
    reads people`cachedSize, people`phones, people`lastUpdated, PhonesOf(people)`cachedSize, TimesOf(people)`cachedSize
  {
    Below(people, i);
    people[i].Sizes()
  }

  function PersonCaches(people: seq<PersonMessage>, n: nat): (r: seq<PersonSizes>)
    requires n <= |people|
    reads people`cachedSize, people`phones, people`lastUpdated, PhonesOf(people)`cachedSize, TimesOf(people)`cachedSize
    ensures |r| == n && forall i :: 0 <= i < n ==> r[i] == SizesAt(people, i)
  {
    if n == 0 then [] else PersonCaches(people, n - 1) + [SizesAt(people, n - 1)]
  }

  lemma {:induction false} SizesMatch(people: seq<PersonMessage>)
    ensures AllMatch(PersonValues(people, |people|), PersonCaches(people, |people|))
  {
  }

  /** Cached sizes that are as they were, or right, are right if they were. */
  lemma {:induction false} StillRight(v: Person, c: PersonSizes, c': PersonSizes)
    requires PersonRight(v, c) && |c'.phones| == |v.phones|
    requires c'.own == c.own || c'.own == PersonSize(v)
    requires forall k :: 0 <= k < |v.phones| ==> c'.phones[k] == c.phones[k] || c'.phones[k] == PhoneSize(v.phones[k])
    requires v.lastUpdated != None ==> c'.time == c.time || c'.time == TimeSize(v.lastUpdated.value)
    ensures PersonRight(v, c')
  {
    hide PersonSize, PhoneSize, TimeSize;
  }

  /** What Right says of the node is what it says of the values. */
  lemma {:induction false} NodeRight(p: PersonMessage)
    requires p.Right()
    ensures PersonRight(p.Value(), p.Sizes())
  {
    hide PersonSize, PhoneSize, TimeSize;
    assert p.lastUpdated != null ==> p.lastUpdated in p.Times();
  }

  /** A new node with what the other one holds. */
  method CopyOf(from: PersonMessage, ghost v: Person) returns (person: PersonMessage)
    requires from.Value() == v
    ensures person.Value() == v
  {
    hide MergePerson, PhoneValues;
    person := new PersonMessage();
    assert from.Value() == v;
    MergeIntoNobody(v);
    person.MergeFrom(from);
  }

  /** A new node read from the bytes of a nested message. */
  method ReadNew(data: bytes, utf8: Utf8) returns (ok: bool, person: PersonMessage)
    ensures match ParsePerson(NO_PERSON, data, utf8)
            case None => !ok
            case Some(v) => ok == v.1 && (ok ==> person.Value() == v.0)
  {
    hide ParsePerson, PhoneValues;
    person := new PersonMessage();
    var legitimate;
    ok, legitimate := person.MergePartialFromCodedStream(data, utf8);
    ok := ok && legitimate;
  }

  /** A nested person in the array, behind its tag and its cached size. */
  method PutNode(a: array<byte>, target: nat, p: PersonMessage) returns (end: nat)
    requires target + |SizedField(10, p.cachedSize, PersonSized(p.Value(), p.Sizes()))| <= a.Length
    modifies a
    ensures Stored(old(a[..]), a[..], target, SizedField(10, p.cachedSize, PersonSized(p.Value(), p.Sizes())), end)
  {
    hide Varint, PersonSized;
    ghost var was, s := a[..], PersonSized(p.Value(), p.Sizes());
    var size := p.cachedSize;
    Regroup([10], Varint(size), s);
    var middle := Put(a, target, [10] + Varint(size));
    ghost var mid := a[..];
    end := p.InternalSerializeToArray(a, middle);
    StoredTwice(was, mid, a[..], target, [10] + Varint(size), middle, s, end);
  }

  class BookMessage {
    var people: seq<PersonMessage>
    var cachedSize: nat

    function Value(): (b: AddressBook)
      reads `people
      reads people`name, people`id, people`email, people`phones, people`lastUpdated
      reads PhonesOf(people)`number, PhonesOf(people)`kind, TimesOf(people)`seconds, TimesOf(people)`nanos
      ensures |b.people| == |people|
    {
      AddressBook(PersonValues(people, |people|))
    }

    /** The cached sizes of all nodes below this one. */
    function Sizes(): (cs: seq<PersonSizes>)
      reads `people
      reads people`name, people`id, people`email, people`phones, people`lastUpdated
      reads PhonesOf(people)`number, PhonesOf(people)`kind, TimesOf(people)`seconds, TimesOf(people)`nanos
      reads people`cachedSize, PhonesOf(people)`cachedSize, TimesOf(people)`cachedSize
      ensures AllMatch(Value().people, cs)
    {
      SizesMatch(people);
      PersonCaches(people, |people|)
    }

    constructor ()
      ensures Value() == NO_BOOK
    {
      people, cachedSize := [], 0;
    }

    method Clear()
      modifies this
      ensures Value() == NO_BOOK
    {
      people := [];
    }

    method AddNode(person: PersonMessage, ghost v: Person)
      requires person.Value() == v
      modifies `people
      ensures Value().people == old(Value()).people + [v]
    {
      ghost var was := Value().people;
      people := people + [person];
      assert Value().people == was + [person.Value()];
    }

    method AddPerson(s: bytes, utf8: Utf8) returns (r: Option<bytes>)
      modifies `people
      ensures match ReadPerson(s, utf8)
              case None => r == None
              case Some(v) => r == Some(v.1) && Value().people == old(Value()).people + [v.0]
    {
      hide PersonValues, ParsePerson;
      var d := ReadDelimited(s);
      if d == None { return None; }
      ghost var was := Value();
      var ok, person := ReadNew(d.value.0, utf8);
      assert Value() == was;
      if !ok { return None; }
      AddNode(person, person.Value());
      return Some(d.value.1);
    }

    /** Read fields until the end of the input, merging each into this message. */
    method MergePartialFromCodedStream(input: bytes, utf8: Utf8) returns (ok: bool, legitimate: bool)
      modifies `people
      ensures match ParseBook(old(Value()), input, utf8)
              case None => !ok
              case Some(r) => ok && Value() == r.0 && legitimate == r.1
    {
      var s := input;
      while true
        invariant ParseBook(Value(), s, utf8) == ParseBook(old(Value()), input, utf8)
        decreases |s|
      {
        match ReadTag(s)
        case End(l) =>
          return true, l;
        case Tag(tag, rest) =>
          var next := ReadField(tag, rest, utf8);
          if next == None { return false, false; }
          s := next.value;
      }
    }

    method ReadField(tag: nat, rest: bytes, utf8: Utf8) returns (next: Option<bytes>)
      modifies `people
      ensures match BookField(old(Value()), tag, rest, utf8)
              case None => next == None
              case Some(r) => next == Some(r.1) && Value() == r.0
    {
      hide PersonValues, ReadPerson;
      if tag == 10 {
        next := AddPerson(rest, utf8);
      } else {
        next := SkipField(tag, rest);
      }
    }

    /** Every person is written by its own serialiser, behind the size cached for it. */
    method SerializeWithCachedSizes(output: bytes) returns (out: bytes)
      ensures Value() == old(Value()) && Sizes() == old(Sizes())
      ensures out == output + PeopleSized(Value().people, Sizes())
    {
      hide PeopleSized, SizedField, PersonSized, PersonValues, PersonCaches;
      out := output;
      ghost var ps, cs := Value().people, Sizes();
      PeopleAtEnds(ps, cs);
      for i := 0 to |people|
        invariant Value().people == ps && Sizes() == cs
        invariant out + PeopleSized(ps[i..], cs[i..]) == output + PeopleSized(ps, cs)
      {
        PeopleLeft(ps, cs, i);
        Regroup(out, SizedField(10, cs[i].own, PersonSized(ps[i], cs[i])), PeopleSized(ps[i + 1..], cs[i + 1..]));
        out := AppendPerson(out, i);
      }
      assert out + PeopleSized(ps[|ps|..], cs[|ps|..]) == output + PeopleSized(ps, cs);
      AppendNone(out);
    }

    method AppendPerson(output: bytes, i: nat) returns (out: bytes)
      requires i < |people|
      ensures Value() == old(Value()) && Sizes() == old(Sizes())
      ensures out == output + SizedField(10, Sizes()[i].own, PersonSized(Value().people[i], Sizes()[i]))
    {
      hide PersonSized, Varint, PersonValues, PersonCaches;
      ghost var size, s := people[i].cachedSize, PersonSized(people[i].Value(), people[i].Sizes());
      FieldWritten(output, 10, size, s, []);
      AppendNone(SizedField(10, size, s));
      AppendNone(output + [10] + Varint(size) + s);
      out := output + [10] + Varint(people[i].cachedSize);
      out := people[i].SerializeWithCachedSizes(out);
    }

    method InternalSerializeToArray(a: array<byte>, target: nat) returns (end: nat)
      requires target + |PeopleSized(Value().people, Sizes())| <= a.Length
      modifies a
      ensures Value() == old(Value()) && Sizes() == old(Sizes())
      ensures Stored(old(a[..]), a[..], target, PeopleSized(Value().people, Sizes()), end)
    {
      hide PeopleSized, SizedField, PersonSized, Stored, PersonValues, PersonCaches;
      ghost var was, ps, cs := a[..], Value().people, Sizes();
      ghost var done: bytes := [];
      PeopleAtEnds(ps, cs);
      AppendNone(PeopleSized(ps, cs));
      StoredNothing(was, target);
      end := target;
      for i := 0 to |people|
        invariant Value().people == ps && Sizes() == cs
        invariant done + PeopleSized(ps[i..], cs[i..]) == PeopleSized(ps, cs)
        invariant Stored(was, a[..], target, done, end)
      {
        PeopleLeft(ps, cs, i);
        ghost var field := SizedField(10, cs[i].own, PersonSized(ps[i], cs[i]));
        Regroup(done, field, PeopleSized(ps[i + 1..], cs[i + 1..]));
        StoredEnds(was, a[..], target, done, end);
        ghost var mid, middle := a[..], end;
        end := PutPerson(a, end, i);
        StoredTwice(was, mid, a[..], target, done, middle, field, end);
        done := done + field;
      }
      AppendNone(done);
    }

    method PutPerson(a: array<byte>, target: nat, i: nat) returns (end: nat)
      requires i < |people|
      requires target + |SizedField(10, Sizes()[i].own, PersonSized(Value().people[i], Sizes()[i]))| <= a.Length
      modifies a
      ensures Value() == old(Value()) && Sizes() == old(Sizes())
      ensures Stored(old(a[..]), a[..], target,
          SizedField(10, Sizes()[i].own, PersonSized(Value().people[i], Sizes()[i])), end)
    {
      hide PersonValues, PersonCaches, SizedField, PersonSized, Stored;
      end := PutAt(a, target, i);
    }

    method PutAt(a: array<byte>, target: nat, i: nat) returns (end: nat)
      requires i < |people|
      requires target + |SizedField(10, people[i].cachedSize, PersonSized(people[i].Value(), people[i].Sizes()))| <= a.Length
      modifies a
      ensures Value() == old(Value())
      ensures Stored(old(a[..]), a[..], target,
                     SizedField(10, people[i].cachedSize, PersonSized(people[i].Value(), people[i].Sizes())), end)
    {
      hide PersonValues, PersonCaches, SizedField, PersonSized, Stored;
      end := PutNode(a, target, people[i]);
    }

    ghost predicate RightTo(n: nat)
      requires n <= |people|
      reads `people
      reads people`name, people`id, people`email, people`phones, people`lastUpdated, people`cachedSize
      reads PhonesOf(people)`number, PhonesOf(people)`kind, TimesOf(people)`seconds, TimesOf(people)`nanos
      reads PhonesOf(people)`cachedSize, TimesOf(people)`cachedSize
    {
      forall j :: 0 <= j < n ==> NodeIsRight(j)
    }

    ghost predicate NodeIsRight(j: nat)
      requires j < |people|
      reads `people
      reads people`name, people`id, people`email, people`phones, people`lastUpdated, people`cachedSize
      reads PhonesOf(people)`number, PhonesOf(people)`kind, TimesOf(people)`seconds, TimesOf(people)`nanos
      reads PhonesOf(people)`cachedSize, TimesOf(people)`cachedSize
    {
      Below(people, j);
      PersonRight(people[j].Value(), people[j].Sizes())
    }

    /** The sizes of all nodes below are computed and cached, and this one's. */
    method ByteSizeLong() returns (total: nat)
      modifies `cachedSize, people`cachedSize, PhonesOf(people)`cachedSize, TimesOf(people)`cachedSize
      ensures Value() == old(Value()) && total == cachedSize == BookSize(Value()) == |BookBytes(Value())|
      ensures PeopleRight(Value().people, Sizes())
    {
      hide PersonSize, DelimitedSize, PersonValues, PersonCaches, NodeIsRight, PeopleSize, PeopleBytes;
      total := PeopleByteSize(PhonesOf(people), TimesOf(people));
      cachedSize := total;
      BookLength(Value());
      AllNodesRight();
    }

    method PeopleByteSize(ghost phones: set<PhoneMessage>, ghost times: set<TimeMessage>) returns (total: nat)
      requires phones == PhonesOf(people) && times == TimesOf(people)
      modifies people`cachedSize, phones`cachedSize, times`cachedSize
      ensures total == BookSize(Value()) && RightTo(|people|)
      ensures PhonesOf(people) == phones && TimesOf(people) == times && Value() == old(Value())
    {
      hide PersonSize, DelimitedSize, PersonValues, PhonesOf, TimesOf, RightTo, Value;
      ghost var ps := Value().people;
      total := |people|;
      NoneToBeRight();
      for i := 0 to |people|
        invariant PhonesOf(people) == phones && TimesOf(people) == times
        invariant Value().people == ps && total == |people| + PeopleSize(ps, i)
        invariant RightTo(i)
      {
        var n := PersonByteSize(i, phones, times);
        total := total + DelimitedSize(n);
      }
    }

    lemma {:induction false} NoneToBeRight()
      ensures RightTo(0)
    {
    }

    lemma {:induction false} AllNodesRight()
      requires RightTo(|people|)
      ensures PeopleRight(Value().people, Sizes())
    {
      forall i | 0 <= i < |people| ensures PersonRight(Value().people[i], Sizes()[i]) {
        assert NodeIsRight(i);
      }
    }

    method PersonByteSize(i: nat, ghost phones: set<PhoneMessage>, ghost times: set<TimeMessage>) returns (n: nat)
      requires i < |people| && RightTo(i) && phones == PhonesOf(people) && times == TimesOf(people)
      modifies people`cachedSize, phones`cachedSize, times`cachedSize
      ensures n == PersonSize(Value().people[i]) && RightTo(i + 1)
      ensures PhonesOf(people) == phones && TimesOf(people) == times && Value() == old(Value())
    {
      hide PersonSize, PersonBytes, PersonValues, PhoneValues, PersonRight, NodeIsRight, PhonesOf, TimesOf;
      n := NodeByteSize(i, phones, times);
    }

    /** Sizing one node leaves the others right, shared nodes below them or not. */
    method NodeByteSize(i: nat, ghost phones: set<PhoneMessage>, ghost times: set<TimeMessage>) returns (n: nat)
      requires i < |people| && phones == PhonesOf(people) && times == TimesOf(people)
      modifies people`cachedSize, phones`cachedSize, times`cachedSize
      ensures n == PersonSize(people[i].Value()) && NodeIsRight(i)
      ensures forall j :: 0 <= j < |people| && old(NodeIsRight(j)) ==> NodeIsRight(j)
    {
      hide PersonSize, PhoneSize, TimeSize, PersonBytes, PersonValues, PhoneValues, PhoneCaches, PersonCaches;
      Below(people, i);
      n := people[i].ByteSizeLong();
      NodeRight(people[i]);
      hide PersonRight;
      forall j | 0 <= j < |people| && old(NodeIsRight(j)) ensures NodeIsRight(j) {
        Below(people, j);
        assert people[j].Value() == old(people[j].Value());
        assert forall q :: q in people[j].phones ==> q in people[i].phones || q.cachedSize == old(q.cachedSize);
        StillRight(people[j].Value(), old(people[j].Sizes()), people[j].Sizes());
      }
    }

    method MergeFrom(from: BookMessage)
      requires from != this
      modifies `people
      ensures Value() == MergeBook(old(Value()), from.Value())
    {
      hide PersonValues, Value;
      ghost var was, ps := Value().people, from.Value().people;
      for i := 0 to |from.people|
        invariant from.Value().people == ps && Value().people == was + ps[..i]
      {
        AddCopy(from, i);
        assert was + ps[..i] + [ps[i]] == was + ps[..i + 1];
      }
      assert ps[..|ps|] == ps;
    }

    /** A new node for one of the other book's people. */
    method AddCopy(from: BookMessage, i: nat)
      requires from != this && i < |from.people|
      modifies `people
      ensures from.Value() == old(from.Value())
      ensures Value().people == old(Value()).people + [old(from.Value()).people[i]]
    {
      hide PersonValues;
      ghost var v := from.Value().people[i];
      var person := CopyFrom(from, i);
      AddBeside(person, v, from);
    }

    method CopyFrom(from: BookMessage, i: nat) returns (person: PersonMessage)
      requires i < |from.people|
      ensures Value() == old(Value()) && from.Value() == old(from.Value())
      ensures person.Value() == from.Value().people[i]
    {
      hide PersonValues;
      person := from.CopyAt(i);
    }

    method AddBeside(person: PersonMessage, ghost v: Person, ghost other: BookMessage)
      requires person.Value() == v && other != this
      modifies `people
      ensures Value().people == old(Value()).people + [v] && other.Value() == old(other.Value())
    {
      hide PersonValues;
      AddNode(person, v);
    }

    method CopyAt(i: nat) returns (person: PersonMessage)
      requires i < |people|
      ensures Value() == old(Value())
      ensures person.Value() == Value().people[i]
    {
      ghost var v := Value().people[i];
      assert people[i].Value() == v;
      hide Value, PersonValues, PhonesOf, TimesOf, PersonMessage.Value;
      person := CopyOf(people[i], v);
    }
  }

  /** Once every cached size below is right, what the stream serialiser writes is the specified bytes. */
  method StreamSized(b: BookMessage) returns (out: bytes)
    requires PeopleRight(b.Value().people, b.Sizes())
    ensures out == BookBytes(old(b.Value()))
  {
    hide BookBytes, PeopleSized, PersonValues, PersonCaches, PeopleRight, PhonesOf, TimesOf;
    BookSizedIff(b.Value(), b.Sizes());
    AppendNone(BookBytes(b.Value()));
    out := b.SerializeWithCachedSizes([]);
  }

  /** And so is what the array serialiser stores. */
  method StoreSized(b: BookMessage, a: array<byte>)
    requires PeopleRight(b.Value().people, b.Sizes()) && a.Length == |BookBytes(b.Value())|
    modifies a
    ensures a[..] == BookBytes(old(b.Value()))
  {
    hide BookBytes, PeopleSized, PersonValues, PersonCaches, PeopleRight, PhonesOf, TimesOf;
    ghost var data := BookBytes(b.Value());
    BookSizedIff(b.Value(), b.Sizes());
    AppendNone(data);
    var end := b.InternalSerializeToArray(a, 0);
    assert a[..end] == a[..] && old(a[..])[..0] == [];
  }

  /** Whatever sizes were cached before: compute them, then write. */
  method WriteStream(b: BookMessage) returns (out: bytes)
    modifies b`cachedSize, b.people`cachedSize, PhonesOf(b.people)`cachedSize, TimesOf(b.people)`cachedSize
    ensures out == BookBytes(old(b.Value()))
  {
    hide *;
    var size := b.ByteSizeLong();
    out := StreamSized(b);
  }

  /** Whatever sizes were cached before: compute them, then fill an array of the size of the book. */
  method WriteArray(b: BookMessage) returns (a: array<byte>)
    modifies b`cachedSize, b.people`cachedSize, PhonesOf(b.people)`cachedSize, TimesOf(b.people)`cachedSize
    ensures fresh(a) && a[..] == BookBytes(old(b.Value()))
  {
    hide *;
    var size := b.ByteSizeLong();
    a := new byte[size];
    StoreSized(b, a);
  }

  /** Reading the bytes of an address book gives one like it. */
  method ReadBack(data: bytes, ghost b: AddressBook, utf8: Utf8) returns (c: BookMessage)
    requires BookOk(b, utf8) && data == BookBytes(b)
    ensures c.Value() == b
  {
    hide BookBytes, ParseBook, PersonValues;
    c := new BookMessage();
    var ok, legitimate := c.MergePartialFromCodedStream(data, utf8);
    RoundTrip(b, utf8);
    assert ok && legitimate;
  }

  /** Written, then read: the same address book. */
  method WriteAndRead(b: BookMessage, utf8: Utf8) returns (out: bytes, c: BookMessage)
    requires BookOk(b.Value(), utf8)
    modifies b`cachedSize, b.people`cachedSize, PhonesOf(b.people)`cachedSize, TimesOf(b.people)`cachedSize
    ensures out == BookBytes(old(b.Value())) && c.Value() == old(b.Value())
  {
    hide *;
    ghost var v := b.Value();
    out := WriteStream(b);
    c := ReadBack(out, v, utf8);
  }

  /** The same through an array. */
  method StoreAndRead(b: BookMessage, utf8: Utf8) returns (a: array<byte>, c: BookMessage)
    requires BookOk(b.Value(), utf8)
    modifies b`cachedSize, b.people`cachedSize, PhonesOf(b.people)`cachedSize, TimesOf(b.people)`cachedSize
    ensures a[..] == BookBytes(old(b.Value())) && c.Value() == old(b.Value())
  {
    hide *;
    ghost var v := b.Value();
    a := WriteArray(b);
    c := ReadBack(a[..], v, utf8);
  }
}

/** What pb_decode makes of any sequence of well-formed fields, known and unknown ones in any order: the known ones are
    applied in turn, the unknown ones go past, and every required field must have occurred. */
module PbRecords {
  import opened Keys
  import opened Coding
  import opened PbWire
  import opened PbMessage
  import opened PbRead
  import opened PbFormat

  /** One field on the wire: its tag, with field number and wire type, and what follows. */
  datatype Record = Record(number: nat, wire: nat, tag: Bytes, payload: Bytes)

  /** Well formed on its own, whatever the descriptor: a varint, eight bytes, a length and that many bytes, or four bytes. */
  ghost predicate WellFormed(r: Record) {
    && 0 < r.number < 0x2000_0000 && Base128(r.tag, 8 * r.number + r.wire) && |r.tag| <= 5
    && match r.wire
       case 0 => Base128(r.payload, GroupSum(r.payload))
       case 1 => |r.payload| == 8
       case 2 => exists n :: LengthAt(r.payload, n)
       case 5 => |r.payload| == 4
       case _ => false
  }

  /** The first n bytes spell the number of the bytes after them. */
  ghost predicate LengthAt(b: Bytes, n: nat) {
    0 < n <= 5 && n <= |b| && Base128(b[..n], |b| - n) && |b| - n < 0x1_0000_0000
  }

  /** A record for field f has f's own wire type, or 2 if f is an array of numbers. */
  predicate Suits(f: Field, r: Record) {
    r.wire == WireNumber(f.ltype) || (r.wire == 2 && f.rule.Repeated? && f.ltype.Packable())
  }

  ghost predicate Framed(fields: seq<Field>, rs: seq<Record>) {
    && (forall k :: 0 <= k < |rs| ==> WellFormed(rs[k]))
    && forall k, i :: 0 <= k < |rs| && 0 <= i < |fields| && fields[i].tag == rs[k].number ==> Suits(fields[i], rs[k])
  }

  /** The bytes of a list of records. */
  function Joined(rs: seq<Record>): (b: Bytes) {
    if rs == [] then [] else rs[0].tag + rs[0].payload + Joined(rs[1..])
  }

  predicate Known(fields: seq<Field>, number: nat) { exists i :: 0 <= i < |fields| && fields[i].tag == number }

  predicate Occurs(rs: seq<Record>, number: nat) { exists k :: 0 <= k < |rs| && rs[k].number == number }

  // ----- reading base 128

  lemma {:induction false} SkipBase128(b: Bytes, rest: Bytes)
    requires Base128(b, GroupSum(b))
    ensures SkipVarint(b + rest) == Got((), rest)
    decreases |b|
  {
    assert (b + rest)[1..] == b[1..] + rest;
    if |b| == 1 {
      assert b[1..] == [] && [] + rest == rest;
    } else {
      TailOf128(b);
      SkipBase128(b[1..], rest);
    }
  }

  lemma ReadRecordTag(r: Record, rest: Bytes)
    requires WellFormed(r)
    ensures ReadTag(r.tag + rest) == TagOf(r.number, r.wire, rest)
  {
    ReadTagBytes(r.number, r.wire, r.tag, rest);
  }

  lemma ReadTagBytes(number: nat, wire: nat, tag: Bytes, rest: Bytes)
    requires 0 < number < 0x2000_0000 && wire < 8 && Base128(tag, 8 * number + wire) && |tag| <= 5
    ensures ReadTag(tag + rest) == TagOf(number, wire, rest)
  {
    ReadBase128(tag, 5, rest);
    var n := 8 * number + wire;
    ModSmall(n, TWO32);
    SplitTag(number, wire, n);
  }

  lemma SplitTag(number: nat, wire: nat, n: nat)
    requires wire < 8 && n == 8 * number + wire
    ensures n / 8 == number && n % 8 == wire
  {
  }

  lemma Slices(a: Bytes, b: Bytes, c: Bytes)
    ensures a + b + c == a + (b + c)
  {
  }

  /** A length and its bytes are read as those bytes. */
  lemma ReadLength(b: Bytes, n: nat, rest: Bytes)
    requires LengthAt(b, n)
    ensures ReadDelimited(b + rest) == Got(b[n..], rest)
    ensures Read32(b + rest) == Got(|b| - n, b[n..] + rest)
  {
    assert b + rest == b[..n] + (b[n..] + rest);
    ReadBase128(b[..n], 5, b[n..] + rest);
    ModSmall(|b| - n, TWO32);
    assert (b[n..] + rest)[..|b| - n] == b[n..] && (b[n..] + rest)[|b| - n..] == rest;
  }

  // ----- unknown fields

  /** An unknown field of each wire type is gone past, exactly. */
  lemma SkipRecord(r: Record, rest: Bytes)
    requires WellFormed(r)
    ensures SkipField(r.wire, r.payload + rest) == Got((), rest)
  {
    if r.wire == 0 {
      SkipBase128(r.payload, rest);
    } else if r.wire == 2 {
      var n: nat :| LengthAt(r.payload, n);
      ReadLength(r.payload, n, rest);
      assert (r.payload[n..] + rest)[|r.payload| - n..] == rest;
    } else {
      assert (r.payload + rest)[|r.payload|..] == rest;
    }
  }

  // ----- known fields

  /** What a reader makes of b followed by anything is what it makes of b alone, and leaves the rest. */
  ghost predicate Local<T(!new)>(alone: Parsed<T>, followed: Parsed<T>, rest: Bytes) {
    if alone.Got? then alone.rest == [] && followed == Got(alone.value, rest) else followed.Fail?
  }

  lemma Read64IsLocal(b: Bytes, rest: Bytes)
    requires Base128(b, GroupSum(b))
    ensures Local(Read64(b), Read64(b + rest), rest)
  {
    ReadBase128(b, 10, rest);
    ReadBase128(b, 10, []);
    assert b + [] == b;
  }

  lemma VarintIsLocal(t: LType, b: Bytes, c: Bytes, rest: Bytes)
    requires (t.VarInt? || t.UVarInt? || t.SVarInt?) && Local(Read64(b), Read64(c), rest)
    ensures Local(ReadNumber(t, b), ReadNumber(t, c), rest)
  {
  }

  lemma NumberIsLocal(t: LType, b: Bytes, rest: Bytes)
    requires t.Packable()
    requires if WireNumber(t) == 0 then Base128(b, GroupSum(b)) else |b| == if t.Fixed32? then 4 else 8
    ensures Local(ReadNumber(t, b), ReadNumber(t, b + rest), rest)
  {
    if t.Fixed32? || t.Fixed64? {
      assert (b + rest)[..|b|] == b && (b + rest)[|b|..] == rest && b[..|b|] == b && b[|b|..] == [];
    } else {
      Read64IsLocal(b, rest);
      VarintIsLocal(t, b, b + rest, rest);
    }
  }

  lemma DatumIsLocal(t: LType, r: Record, was: Datum, init: bool, rest: Bytes)
    requires GoodType(t) && TypedDatum(t, was) && WellFormed(r) && r.wire == WireNumber(t)
    ensures Local(ReadDatum(t, r.payload, was, init), ReadDatum(t, r.payload + rest, was, init), rest)
  {
    if t.Packable() {
      NumberIsLocal(t, r.payload, rest);
    } else {
      var n: nat :| LengthAt(r.payload, n);
      ReadLength(r.payload, n, rest);
      ReadLength(r.payload, n, []);
      assert r.payload + [] == r.payload;
    }
  }

  lemma ArrayIsLocal(fields: seq<Field>, i: nat, max: nat, r: Record, slots: seq<Slot>, rest: Bytes)
    requires GoodDescriptor(fields) && TypedSlots(fields, slots) && i < |fields| && fields[i].rule == Repeated(max)
    requires WellFormed(r) && Suits(fields[i], r)
    ensures Local(ReadArray(fields, i, max, r.wire, r.payload, slots), ReadArray(fields, i, max, r.wire, r.payload + rest, slots), rest)
  {
    var f := fields[i];
    assert TypedSlot(f, slots[i]) && GoodField(f);
    DefaultTyped(f);
    if r.wire == 2 && f.ltype.Packable() {
      var n: nat :| LengthAt(r.payload, n);
      ReadLength(r.payload, n, rest);
      ReadLength(r.payload, n, []);
      assert r.payload + [] == r.payload;
    } else {
      DatumIsLocal(f.ltype, r, DefaultDatum(f), true, rest);
    }
  }

  lemma FieldIsLocal(fields: seq<Field>, i: nat, r: Record, slots: seq<Slot>, rest: Bytes)
    requires GoodDescriptor(fields) && TypedSlots(fields, slots) && i < |fields| && WellFormed(r) && Suits(fields[i], r)
    ensures Local(ReadField(fields, i, r.wire, r.payload, slots), ReadField(fields, i, r.wire, r.payload + rest, slots), rest)
  {
    var f := fields[i];
    assert TypedSlot(f, slots[i]) && GoodField(f);
    DefaultTyped(f);
    match f.rule
    case Required => DatumIsLocal(f.ltype, r, slots[i].v, false, rest);
    case Optional => DatumIsLocal(f.ltype, r, slots[i].v, false, rest);
    case Repeated(max) => ArrayIsLocal(fields, i, max, r, slots, rest);
    case Oneof(_) => DatumIsLocal(f.ltype, r, if f.ltype.Submessage? then DefaultDatum(f) else slots[i].v, false, rest);
  }

  // ----- a whole input

  /** The struct after the records have been applied in turn, or None if one of them is refused. */
  ghost function Applied(fields: seq<Field>, rs: seq<Record>, slots: seq<Slot>): (r: Option<seq<Slot>>)
    requires GoodDescriptor(fields) && TypedSlots(fields, slots)
    ensures r.Some? ==> TypedSlots(fields, r.value)
    decreases |rs|
  {
    if rs == [] then Some(slots)
    else match FindTag(fields, rs[0].number, 0)
         case None => Applied(fields, rs[1..], slots)
         case Some(i) =>
           match ReadField(fields, i, rs[0].wire, rs[0].payload, slots)
           case Fail(_) => None
           case Got(slots', _) => Applied(fields, rs[1..], slots')
  }

  /** Every required field is in `seen` or occurs among the records. */
  ghost predicate Complete(fields: seq<Field>, seen: set<nat>, rs: seq<Record>) {
    forall i :: 0 <= i < |fields| && fields[i].rule.Required? ==> i in seen || Occurs(rs, fields[i].tag)
  }

  lemma FramedTail(fields: seq<Field>, rs: seq<Record>)
    requires Framed(fields, rs) && rs != []
    ensures WellFormed(rs[0]) && Framed(fields, rs[1..])
    ensures forall i :: 0 <= i < |fields| && fields[i].tag == rs[0].number ==> Suits(fields[i], rs[0])
  {
    var tail := rs[1..];
    assert forall k :: 0 <= k < |tail| ==> tail[k] == rs[k + 1];
  }

  lemma OccursTail(rs: seq<Record>, number: nat)
    requires rs != []
    ensures Occurs(rs, number) <==> rs[0].number == number || Occurs(rs[1..], number)
  {
    var tail := rs[1..];
    assert forall k :: 0 <= k < |tail| ==> tail[k] == rs[k + 1];
    if Occurs(rs, number) && rs[0].number != number {
      var k :| 0 <= k < |rs| && rs[k].number == number;
      assert tail[k - 1].number == number;
    }
    if Occurs(tail, number) {
      var k :| 0 <= k < |tail| && tail[k].number == number;
      assert rs[k + 1].number == number;
    }
  }

  lemma CompleteTail(fields: seq<Field>, seen: set<nat>, rs: seq<Record>)
    requires GoodDescriptor(fields) && rs != []
    ensures Complete(fields, seen, rs) <==>
            Complete(fields, if FindTag(fields, rs[0].number, 0).Some? then Saw(fields, FindTag(fields, rs[0].number, 0).value, seen) else seen, rs[1..])
  {
    forall i | 0 <= i < |fields|
      ensures Occurs(rs, fields[i].tag) <==> fields[i].tag == rs[0].number || Occurs(rs[1..], fields[i].tag)
    {
      OccursTail(rs, fields[i].tag);
    }
    var found := FindTag(fields, rs[0].number, 0);
    if found.Some? {
      assert forall i :: 0 <= i < |fields| && fields[i].tag == rs[0].number ==> i == found.value;
    }
  }

  /** Reading one framed record, then the rest. */
  lemma OneRecord(fields: seq<Field>, r: Record, rest: Bytes, slots: seq<Slot>, seen: set<nat>)
    requires GoodDescriptor(fields) && TypedSlots(fields, slots) && WellFormed(r)
    requires forall i :: 0 <= i < |fields| && fields[i].tag == r.number ==> Suits(fields[i], r)
    ensures var found, whole := FindTag(fields, r.number, 0), ReadMessage(fields, r.tag + r.payload + rest, slots, seen);
            match found
            case None => whole == ReadMessage(fields, rest, slots, seen)
            case Some(i) =>
              match ReadField(fields, i, r.wire, r.payload, slots)
              case Fail(_) => whole.Fail?
              case Got(slots', _) => whole == ReadMessage(fields, rest, slots', Saw(fields, i, seen))
  {
    Slices(r.tag, r.payload, rest);
    ReadRecordTag(r, r.payload + rest);
    var found := FindTag(fields, r.number, 0);
    if found.None? {
      SkipRecord(r, rest);
    } else {
      FieldIsLocal(fields, found.value, r, slots, rest);
    }
  }

  /** The message ends with the input, at a zero, or when the input ends inside a tag; `rest` is what is then left. */
  ghost predicate Ends(tail: Bytes, rest: Bytes) {
    || (tail == [] && rest == [])
    || (tail != [] && tail[0] == 0 && rest == tail[1..])
    || (1 <= |tail| <= 5 && rest == [] && forall i :: 0 <= i < |tail| ==> tail[i] >= 128)
  }

  lemma {:induction false} AllContinued(b: Bytes, max: nat)
    requires |b| <= max && forall i :: 0 <= i < |b| ==> b[i] >= 128
    ensures ReadVarint(b, max) == Fail([])
    decreases |b|
  {
    if b != [] {
      AllContinued(b[1..], max - 1);
    }
  }

  lemma EndIsRead(fields: seq<Field>, tail: Bytes, rest: Bytes, slots: seq<Slot>, seen: set<nat>)
    requires GoodDescriptor(fields) && TypedSlots(fields, slots) && Ends(tail, rest)
    ensures ReadMessage(fields, tail, slots, seen) == Finish(fields, rest, slots, seen)
  {
    if tail != [] && tail[0] != 0 {
      AllContinued(tail, 5);
    } else if tail != [] {
      ModSmall(0, TWO32);
    }
  }

  /** The meaning of any framed input: decoding succeeds if and only if no known record is refused and every required field
      occurs, and then gives the struct that the known records make, having used all of them. */
  lemma {:induction false} RecordsMean(fields: seq<Field>, rs: seq<Record>, tail: Bytes, rest: Bytes, slots: seq<Slot>, seen: set<nat>)
    requires GoodDescriptor(fields) && TypedSlots(fields, slots) && Framed(fields, rs) && Ends(tail, rest)
    ensures var whole := ReadMessage(fields, Joined(rs) + tail, slots, seen);
            if Applied(fields, rs, slots).Some? && Complete(fields, seen, rs) then whole == Got(Applied(fields, rs, slots).value, rest) else whole.Fail?
    decreases |rs|
  {
    if rs == [] {
      assert Joined(rs) + tail == tail;
      EndIsRead(fields, tail, rest, slots, seen);
      NothingOccurs(fields, seen);
    } else {
      FramedTail(fields, rs);
      assert Joined(rs) + tail == rs[0].tag + rs[0].payload + (Joined(rs[1..]) + tail);
      OneRecord(fields, rs[0], Joined(rs[1..]) + tail, slots, seen);
      CompleteTail(fields, seen, rs);
      var found := FindTag(fields, rs[0].number, 0);
      if found.None? {
        RecordsMean(fields, rs[1..], tail, rest, slots, seen);
      } else {
        var field := ReadField(fields, found.value, rs[0].wire, rs[0].payload, slots);
        if field.Got? {
          RecordsMean(fields, rs[1..], tail, rest, field.value, Saw(fields, found.value, seen));
        }
      }
    }
  }

  /** pb_decode on a framed input. */
  lemma DecodingMeans(fields: seq<Field>, rs: seq<Record>)
    requires GoodDescriptor(fields) && Framed(fields, rs)
    ensures TypedSlots(fields, Defaults(fields))
    ensures var whole, applied := Read(fields, Joined(rs)), Applied(fields, rs, Defaults(fields));
            if applied.Some? && (forall i :: 0 <= i < |fields| && fields[i].rule.Required? ==> Occurs(rs, fields[i].tag))
            then whole == Got(applied.value, []) else whole.Fail?
  {
    DefaultsTyped(fields);
    RecordsMean(fields, rs, [], [], Defaults(fields), {});
    assert Joined(rs) + [] == Joined(rs);
  }

  lemma NothingOccurs(fields: seq<Field>, seen: set<nat>)
    ensures Complete(fields, seen, []) <==> AllSeen(fields, seen)
  {
  }

  // ----- what follows

  /** A message in which a required field does not occur is refused. */
  lemma MissingRequiredFails(fields: seq<Field>, rs: seq<Record>, i: nat)
    requires GoodDescriptor(fields) && Framed(fields, rs) && i < |fields| && fields[i].rule.Required? && !Occurs(rs, fields[i].tag)
    ensures Read(fields, Joined(rs)).Fail?
  {
    DecodingMeans(fields, rs);
  }

  lemma {:induction false} AppliedSkips(fields: seq<Field>, a: seq<Record>, u: Record, b: seq<Record>, slots: seq<Slot>)
    requires GoodDescriptor(fields) && TypedSlots(fields, slots) && !Known(fields, u.number)
    ensures Applied(fields, a + [u] + b, slots) == Applied(fields, a + b, slots)
    decreases |a|
  {
    if a == [] {
      assert a + [u] + b == [u] + b && ([u] + b)[1..] == b && a + b == b;
    } else {
      assert (a + [u] + b)[1..] == a[1..] + [u] + b && (a + b)[1..] == a[1..] + b;
      assert (a + [u] + b)[0] == a[0] == (a + b)[0];
      var found := FindTag(fields, a[0].number, 0);
      if found.None? {
        AppliedSkips(fields, a[1..], u, b, slots);
      } else {
        var field := ReadField(fields, found.value, a[0].wire, a[0].payload, slots);
        if field.Got? {
          AppliedSkips(fields, a[1..], u, b, field.value);
        }
      }
    }
  }

  lemma OccursConcat(a: seq<Record>, b: seq<Record>, number: nat)
    ensures Occurs(a + b, number) <==> Occurs(a, number) || Occurs(b, number)
  {
    if Occurs(a, number) {
      var k :| 0 <= k < |a| && a[k].number == number;
      assert (a + b)[k].number == number;
    }
    if Occurs(b, number) {
      var k :| 0 <= k < |b| && b[k].number == number;
      assert (a + b)[|a| + k].number == number;
    }
  }

  lemma FramedConcat(fields: seq<Field>, a: seq<Record>, u: Record, b: seq<Record>)
    requires Framed(fields, a) && Framed(fields, b) && WellFormed(u) && !Known(fields, u.number)
    ensures Framed(fields, a + [u] + b) && Framed(fields, a + b)
  {
  }

  /** A well-formed field that the descriptor does not know, of any wire type, at any field boundary, changes nothing. */
  lemma UnknownIsIgnored(fields: seq<Field>, a: seq<Record>, u: Record, b: seq<Record>)
    requires GoodDescriptor(fields) && Framed(fields, a) && Framed(fields, b) && WellFormed(u) && !Known(fields, u.number)
    ensures var with_, without := Read(fields, Joined(a + [u] + b)), Read(fields, Joined(a + b));
            with_.Got? == without.Got? && (with_.Got? ==> with_ == without)
  {
    DefaultsTyped(fields);
    FramedConcat(fields, a, u, b);
    DecodingMeans(fields, a + [u] + b);
    DecodingMeans(fields, a + b);
    AppliedSkips(fields, a, u, b, Defaults(fields));
    forall i | 0 <= i < |fields|
      ensures Occurs(a + [u] + b, fields[i].tag) <==> Occurs(a + b, fields[i].tag)
    {
      OccursConcat(a + [u], b, fields[i].tag);
      OccursConcat(a, [u], fields[i].tag);
      OccursConcat(a, b, fields[i].tag);
    }
  }

  // ----- malformed input

  /** An unknown field of a wire type that is none of the four is refused. */
  lemma UnknownWireTypeFails(fields: seq<Field>, number: nat, wire: nat, tag: Bytes, rest: Bytes, slots: seq<Slot>, seen: set<nat>)
    requires GoodDescriptor(fields) && TypedSlots(fields, slots) && !Known(fields, number)
    requires 0 < number < 0x2000_0000 && (wire == 3 || wire == 4 || wire == 6 || wire == 7) && Base128(tag, 8 * number + wire) && |tag| <= 5
    ensures ReadMessage(fields, tag + rest, slots, seen).Fail?
  {
    ReadTagBytes(number, wire, tag, rest);
  }

  lemma {:induction false} CutBase128(b: Bytes, n: nat, max: nat)
    requires Base128(b, GroupSum(b)) && n < |b|
    ensures ReadVarint(b[..n], max).Fail? && SkipVarint(b[..n]).Fail?
    decreases n
  {
    if n > 0 {
      TailOf128(b);
      assert b[..n][1..] == b[1..][..n - 1];
      if max > 0 {
        CutBase128(b[1..], n - 1, max - 1);
      } else {
        CutBase128(b[1..], n - 1, 0);
      }
    }
  }

  lemma CutLength(b: Bytes, n: nat, k: nat)
    requires LengthAt(b, n) && k < |b|
    ensures ReadDelimited(b[..k]).Fail? && SkipField(2, b[..k]).Fail?
  {
    if k < n {
      assert b[..n][..k] == b[..k];
      CutBase128(b[..n], k, 5);
    } else {
      assert b[..k] == b[..n] + b[n..k];
      ReadBase128(b[..n], 5, b[n..k]);
      ModSmall(|b| - n, TWO32);
    }
  }

  lemma CutDatum(t: LType, r: Record, k: nat, was: Datum, init: bool)
    requires GoodType(t) && TypedDatum(t, was) && WellFormed(r) && r.wire == WireNumber(t) && k < |r.payload|
    ensures ReadDatum(t, r.payload[..k], was, init).Fail?
  {
    if r.wire == 0 {
      CutBase128(r.payload, k, 10);
    } else if r.wire == 2 {
      var n: nat :| LengthAt(r.payload, n);
      CutLength(r.payload, n, k);
    }
  }

  lemma CutField(fields: seq<Field>, i: nat, r: Record, k: nat, slots: seq<Slot>)
    requires GoodDescriptor(fields) && TypedSlots(fields, slots) && i < |fields| && WellFormed(r) && Suits(fields[i], r) && k < |r.payload|
    ensures ReadField(fields, i, r.wire, r.payload[..k], slots).Fail?
  {
    var f := fields[i];
    assert TypedSlot(f, slots[i]) && GoodField(f);
    DefaultTyped(f);
    if f.rule.Repeated? {
      if r.wire == 2 && f.ltype.Packable() {
        var n: nat :| LengthAt(r.payload, n);
        CutLength(r.payload, n, k);
      } else {
        CutDatum(f.ltype, r, k, DefaultDatum(f), true);
      }
    } else {
      CutDatum(f.ltype, r, k, if f.rule.Oneof? && f.ltype.Submessage? then DefaultDatum(f) else slots[i].v, false);
    }
  }

  /** Input that ends inside a field's payload is refused, whether the field is known or not. */
  lemma CutRecordFails(fields: seq<Field>, r: Record, k: nat, slots: seq<Slot>, seen: set<nat>)
    requires GoodDescriptor(fields) && TypedSlots(fields, slots) && WellFormed(r) && k < |r.payload|
    requires forall i :: 0 <= i < |fields| && fields[i].tag == r.number ==> Suits(fields[i], r)
    ensures ReadMessage(fields, r.tag + r.payload[..k], slots, seen).Fail?
  {
    ReadRecordTag(r, r.payload[..k]);
    var found := FindTag(fields, r.number, 0);
    if found.Some? {
      CutField(fields, found.value, r, k, slots);
    } else if r.wire == 0 {
      CutBase128(r.payload, k, 10);
    } else if r.wire == 2 {
      var n: nat :| LengthAt(r.payload, n);
      CutLength(r.payload, n, k);
    }
  }

  /** A truncated message is refused, wherever inside a payload it ends. */
  lemma {:induction false} TruncatedFails(fields: seq<Field>, rs: seq<Record>, r: Record, k: nat, slots: seq<Slot>, seen: set<nat>)
    requires GoodDescriptor(fields) && TypedSlots(fields, slots) && Framed(fields, rs) && Framed(fields, [r]) && k < |r.payload|
    ensures ReadMessage(fields, Joined(rs) + (r.tag + r.payload[..k]), slots, seen).Fail?
    decreases |rs|
  {
    var tail := r.tag + r.payload[..k];
    if rs == [] {
      assert [r][0] == r;
      CutRecordFails(fields, r, k, slots, seen);
      assert Joined(rs) + tail == tail;
    } else {
      FramedTail(fields, rs);
      assert Joined(rs) + tail == rs[0].tag + rs[0].payload + (Joined(rs[1..]) + tail);
      OneRecord(fields, rs[0], Joined(rs[1..]) + tail, slots, seen);
      var found := FindTag(fields, rs[0].number, 0);
      if found.None? {
        TruncatedFails(fields, rs[1..], r, k, slots, seen);
      } else {
        var field := ReadField(fields, found.value, rs[0].wire, rs[0].payload, slots);
        if field.Got? {
          TruncatedFails(fields, rs[1..], r, k, field.value, Saw(fields, found.value, seen));
        }
      }
    }
  }

  // ----- numbers that do not fit

  /** The number n stands for, before it is cut to the member: itself; by ZigZag; or two's complement of 32 bits, of 64 for
      an eight-byte member. */
  function Stands(t: LType, n: nat): (i: int)
    requires t.VarInt? || t.UVarInt? || t.SVarInt?
  {
    if t.UVarInt? then n
    else if t.SVarInt? then (if n % 2 == 0 then n / 2 else -((n + 1) / 2))
    else if t.width.W64? then (if n < 0x8000_0000_0000_0000 then n else n - 0x1_0000_0000_0000_0000)
    else if n % 0x1_0000_0000 < 0x8000_0000 then n % 0x1_0000_0000
    else n % 0x1_0000_0000 - 0x1_0000_0000
  }

  /** It fits a member of 1, 2, 4 or 8 bytes. */
  predicate FitsMember(t: LType, i: int)
    requires t.VarInt? || t.UVarInt? || t.SVarInt?
  {
    var half := match t.width case W8 => 0x80 case W16 => 0x8000 case W32 => 0x8000_0000 case W64 => 0x8000_0000_0000_0000;
    if t.UVarInt? then 0 <= i < 2 * half else -half <= i < half
  }

  lemma StandsFor(t: LType, n: nat)
    requires (t.VarInt? || t.UVarInt? || t.SVarInt?) && n < TWO64
    ensures Widened(t, n) == Stands(t, n)
  {
    if t.VarInt? && t.width.W64? {
      ModSmall(n, TWO64);
    }
  }

  lemma NarrowFits(t: LType, n: nat)
    requires (t.VarInt? || t.UVarInt? || t.SVarInt?) && n < TWO64
    ensures Narrow(t, n) == Widened(t, n) <==> FitsMember(t, Widened(t, n))
  {
    if t.UVarInt? {
      if n < t.width.Modulus() {
        ModSmall(n, t.width.Modulus());
      }
    } else {
      SignedFits(Widened(t, n), t.width);
    }
  }

  lemma SignedFits(i: int, w: Width)
    ensures ToSigned(i, w.Modulus()) == i <==> -(w.Modulus() / 2) <= i < w.Modulus() / 2
  {
    match w
    case W8 =>
    case W16 =>
    case W32 =>
    case W64 =>
  }

  /** A number is accepted if and only if what it stands for fits the member, and is then stored as that. */
  lemma NumberAccepted(t: LType, b: Bytes)
    requires (t.VarInt? || t.UVarInt? || t.SVarInt?) && Base128(b, GroupSum(b)) && |b| <= 10 && GroupSum(b) < 0x1_0000_0000_0000_0000
    ensures var i := Stands(t, GroupSum(b));
            if FitsMember(t, i) then ReadNumber(t, b) == Got(Num(i), []) else ReadNumber(t, b).Fail?
  {
    var n := GroupSum(b);
    ReadBase128(b, 10, []);
    assert b + [] == b;
    ModSmall(n, TWO64);
    StandsFor(t, n);
    NarrowFits(t, n);
  }

  /** A bytes member takes a payload up to its size less four bytes of count, a string one shorter than its buffer and up to
      the first zero, a fixed-length member exactly its length, or nothing, which clears it. */
  lemma RawAccepted(t: LType, b: Bytes, n: nat, was: Datum, init: bool)
    requires (t.BytesArray? || t.Str? || t.FixedBytes?) && GoodType(t) && TypedDatum(t, was) && LengthAt(b, n)
    ensures var p := b[n..];
            match t
            case BytesArray(size) => if |p| + 4 <= size then ReadDatum(t, b, was, init) == Got(Raw(p), []) else ReadDatum(t, b, was, init).Fail?
            case Str(size) =>
              if |p| < size then
                exists k :: 0 <= k <= |p| && NoNul(p[..k]) && (k < |p| ==> p[k] == 0) && ReadDatum(t, b, was, init) == Got(Raw(p[..k]), [])
              else ReadDatum(t, b, was, init).Fail?
            case FixedBytes(size) =>
              if |p| == size then ReadDatum(t, b, was, init) == Got(Raw(p), [])
              else if p == [] then ReadDatum(t, b, was, init) == Got(Raw(seq(size, _ => 0)), [])
              else ReadDatum(t, b, was, init).Fail?
  {
    ReadLength(b, n, []);
    assert b + [] == b;
    if t.Str? && |b[n..]| < t.size {
      var k := UpToNulIs(b[n..]);
    } else if t.FixedBytes? && t.size == 0 && b[n..] == [] {
      assert Zeros(0) == b[n..];
    }
  }

  lemma {:induction false} UpToNulIs(p: Bytes) returns (k: nat)
    ensures k <= |p| && UpToNul(p) == p[..k] && NoNul(p[..k]) && (k < |p| ==> p[k] == 0)
  {
    if p == [] || p[0] == 0 {
      k := 0;
    } else {
      var j := UpToNulIs(p[1..]);
      k := j + 1;
      assert p[..k] == [p[0]] + p[1..][..j];
    }
  }

  /** Decoding nothing gives the defaults: numbers and strings at theirs, no optional or oneof member present, no items. */
  lemma EmptyGivesDefaults(fields: seq<Field>)
    requires GoodDescriptor(fields) && forall i :: 0 <= i < |fields| ==> !fields[i].rule.Required?
    ensures var r := Read(fields, []);
            r.Got? && |r.value| == |fields| && forall i :: 0 <= i < |fields| ==> Absent(fields[i], r.value[i])
  {
    DecodingMeans(fields, []);
    assert Joined([]) == [] && Applied(fields, [], Defaults(fields)) == Some(Defaults(fields));
    assert Read(fields, []) == Got(Defaults(fields), []);
    forall i | 0 <= i < |fields|
      ensures Absent(fields[i], Defaults(fields)[i])
    {
      var f := fields[i];
      assert !f.ltype.Submessage? ==> DefaultDatum(f) == f.dflt;
      assert DefaultSlot(f) == if f.rule.Repeated? then Many([]) else Maybe(false, DefaultDatum(f));
      assert Defaults(fields)[i] == DefaultSlot(f);
    }
  }

  predicate Absent(f: Field, s: Slot) {
    if f.rule.Repeated? then s == Many([])
    else s.Maybe? && !s.has && (!f.ltype.Submessage? ==> s.v == f.dflt)
  }
}

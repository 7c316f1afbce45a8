/** Decoding what was encoded restores the message. */
module PbRoundTrip {
  import opened Keys
  import opened Coding
  import opened PbWire
  import opened PbMessage
  import opened PbRead

  // ----- messages that survive

  /** Strings are terminated inside their buffer and each union has at most one member chosen, at every depth. */
  predicate SafeDatum(t: LType, v: Datum)
    requires TypedDatum(t, v)
    decreases t, 0
  {
    match t
    case Str(size) => |v.b| < size
    case Submessage(fields) => SafeSlots(fields, v.slots)
    case _ => true
  }

  predicate SafeItems(t: LType, items: seq<Datum>)
    requires TypedItems(t, items)
    decreases t, 1
  {
    forall i :: 0 <= i < |items| ==> SafeDatum(t, items[i])
  }

  predicate SafeSlot(f: Field, s: Slot)
    requires TypedSlot(f, s)
    decreases f
  {
    match s
    case Sole(v) => SafeDatum(f.ltype, v)
    case Maybe(has, v) => has ==> SafeDatum(f.ltype, v)
    case Many(items) => SafeItems(f.ltype, items)
  }

  predicate SafeSlots(fields: seq<Field>, slots: seq<Slot>)
    requires TypedSlots(fields, slots)
    decreases fields
  {
    && (forall i :: 0 <= i < |fields| ==> SafeSlot(fields[i], slots[i]))
    && Exclusive(fields, slots)
  }

  predicate Exclusive(fields: seq<Field>, slots: seq<Slot>)
    requires |slots| == |fields|
  {
    forall i, j :: 0 <= i < j < |fields| && fields[i].rule.Oneof? && fields[i].rule == fields[j].rule && slots[i].Maybe? && slots[j].Maybe? ==>
      !(slots[i].has && slots[j].has)
  }

  /** What decoding can restore: everything that is present; an absent member is back at its default. */
  function CanonDatum(t: LType, v: Datum): (r: Datum)
    requires TypedDatum(t, v)
    decreases t, 0
  {
    if t.Submessage? then Msg(CanonSlots(t.fields, v.slots)) else v
  }

  function CanonItems(t: LType, items: seq<Datum>): (r: seq<Datum>)
    requires TypedItems(t, items)
    ensures |r| == |items|
    decreases t, 1
  {
    seq(|items|, i requires 0 <= i < |items| => CanonDatum(t, items[i]))
  }

  function CanonSlot(f: Field, s: Slot): (r: Slot)
    requires TypedSlot(f, s)
    decreases f
  {
    match s
    case Sole(v) => Sole(CanonDatum(f.ltype, v))
    case Maybe(has, v) => if has then Maybe(true, CanonDatum(f.ltype, v)) else DefaultSlot(f)
    case Many(items) => Many(CanonItems(f.ltype, items))
  }

  function CanonSlots(fields: seq<Field>, slots: seq<Slot>): (r: seq<Slot>)
    requires TypedSlots(fields, slots)
    ensures |r| == |slots|
    decreases fields
  {
    seq(|slots|, i requires 0 <= i < |slots| => CanonSlot(fields[i], slots[i]))
  }

  // ----- scalars

  lemma TagRoundTrip(tag: nat, wireType: nat, rest: Bytes)
    requires 0 < tag < 0x2000_0000 && wireType < 8
    ensures ReadTag(Tag(tag, wireType) + rest) == TagOf(tag, wireType, rest)
  {
    Read32RoundTrip(tag * 8 + wireType, rest);
  }

  lemma Cast8(i: int)
    requires -0x80 <= i < 0x80
    ensures ToSigned(i, 0x100) == i
  {
  }

  lemma Cast16(i: int)
    requires -0x8000 <= i < 0x8000
    ensures ToSigned(i, 0x1_0000) == i
  {
  }

  lemma Cast32(i: int)
    requires -0x8000_0000 <= i < 0x8000_0000
    ensures ToSigned(i, TWO32) == i
  {
  }

  lemma Cast64(i: int)
    requires -0x8000_0000_0000_0000 <= i < 0x8000_0000_0000_0000
    ensures ToSigned(i, TWO64) == i && ToSigned(ToUnsigned(i), TWO64) == i
  {
  }

  /** The low 32 bits of a sign-extended value give it back. */
  lemma Low32(i: int)
    requires -0x8000_0000 <= i < 0x8000_0000
    ensures ToSigned(ToUnsigned(i), TWO32) == i
  {
    if i < 0 {
      assert (i + TWO64) % TWO32 == i + TWO32;
    }
  }

  lemma CastBack(w: Width, i: int)
    requires -(w.Modulus() / 2) <= i < w.Modulus() / 2
    ensures ToSigned(i, w.Modulus()) == i
  {
    match w
    case W8 => Cast8(i);
    case W16 => Cast16(i);
    case W32 => Cast32(i);
    case W64 => Cast64(i);
  }

  lemma WidenedBack(w: Width, i: int)
    requires -(w.Modulus() / 2) <= i < w.Modulus() / 2
    ensures Widened(VarInt(w), ToUnsigned(i)) == i && Narrow(VarInt(w), ToUnsigned(i)) == i
  {
    CastBack(w, i);
    if w.W64? {
      Cast64(i);
    } else {
      Low32(i);
    }
  }

  lemma ZigZagBack(w: Width, i: int)
    requires -(w.Modulus() / 2) <= i < w.Modulus() / 2
    ensures Widened(SVarInt(w), ZigZag(i)) == i && Narrow(SVarInt(w), ZigZag(i)) == i
  {
    ZigZagRoundTrip(i);
    CastBack(w, i);
  }

  lemma FixedBack(n: nat, k: nat, rest: Bytes)
    requires n < Pow256(k)
    ensures var b := Fixed(n, k) + rest; |b| >= k && Unfixed(b[..k]) == n && b[k..] == rest
  {
    FixedRoundTrip(n, k);
    assert (Fixed(n, k) + rest)[..k] == Fixed(n, k);
  }

  lemma NumberRoundTrip(t: LType, v: Datum, rest: Bytes)
    requires t.Packable() && TypedDatum(t, v)
    ensures ReadNumber(t, WireDatum(t, v) + rest) == Got(v, rest)
  {
    match t
    case VarInt(w) => WidenedBack(w, v.i); Read64RoundTrip(ToUnsigned(v.i), rest);
    case UVarInt(w) => ModSmall(v.i, w.Modulus()); Read64RoundTrip(v.i, rest);
    case SVarInt(w) => ZigZagBack(w, v.i); Read64RoundTrip(ZigZag(v.i), rest);
    case Fixed32 => FixedLimits(); FixedBack(v.i, 4, rest);
    case Fixed64 => FixedLimits(); FixedBack(v.i, 8, rest);
  }

  lemma {:induction false} NoNulUpToNul(b: Bytes)
    requires NoNul(b)
    ensures UpToNul(b) == b
  {
    if b != [] {
      NoNulUpToNul(b[1..]);
    }
  }

  lemma RawRoundTrip(t: LType, v: Datum)
    requires (t.BytesArray? || t.Str? || t.FixedBytes?) && TypedDatum(t, v) && EncodableDatum(t, v) && SafeDatum(t, v)
    ensures TakeRaw(t, v.b) == Some(v)
  {
    if t.Str? {
      NoNulUpToNul(v.b);
    } else if t.FixedBytes? && v.b == [] {
      assert Zeros(t.size) == v.b;
    }
  }

  /** A string comes back exactly when it is terminated inside its buffer. */
  lemma StringSurvivesIffTerminated(size: nat, v: Datum, rest: Bytes)
    requires size < TWO32 && TypedDatum(Str(size), v)
    ensures ReadDatum(Str(size), WireDatum(Str(size), v) + rest, v, false) == Got(v, rest) <==> |v.b| < size
  {
    DelimitedRoundTrip(v.b, rest);
    NoNulUpToNul(v.b);
  }

  // ----- members, arrays, messages

  /** One item; a submessage must land in a member still at its defaults. */
  lemma {:induction false} DatumRoundTrip(t: LType, v: Datum, rest: Bytes, was: Datum, init: bool)
    requires GoodType(t) && TypedDatum(t, v) && EncodableDatum(t, v) && SafeDatum(t, v) && |WireDatum(t, v)| < TWO32
    requires TypedDatum(t, was) && (t.Submessage? && !init ==> was == Msg(Defaults(t.fields)))
    ensures ReadDatum(t, WireDatum(t, v) + rest, was, init) == Got(CanonDatum(t, v), rest)
    decreases t, 0
  {
    if t.Packable() {
      NumberRoundTrip(t, v, rest);
    } else if t.Submessage? {
      var p := WireSlots(t.fields, v.slots, 0);
      DelimitedRoundTrip(p, rest);
      MessageRoundTrip(t.fields, v.slots);
    } else {
      DelimitedRoundTrip(v.b, rest);
      RawRoundTrip(t, v);
    }
  }

  lemma {:induction false} PackedRoundTrip(t: LType, max: nat, items: seq<Datum>, i: nat)
    requires t.Packable() && TypedItems(t, items) && i <= |items| <= max
    ensures TypedItems(t, items[..i])
    ensures ReadPacked(t, max, WirePacked(t, items, i), items[..i]) == Some(items)
    decreases |items| - i
  {
    if i < |items| {
      assert TypedDatum(t, items[i]);
      NumberRoundTrip(t, items[i], WirePacked(t, items, i + 1));
      assert items[..i] + [items[i]] == items[..i + 1];
      PackedRoundTrip(t, max, items, i + 1);
    } else {
      assert items[..i] == items;
    }
  }

  lemma PackableCanon(t: LType, items: seq<Datum>)
    requires t.Packable() && TypedItems(t, items)
    ensures CanonItems(t, items) == items
  {
  }

  lemma FindUnique(fields: seq<Field>, i: nat)
    requires GoodDescriptor(fields) && i < |fields|
    ensures FindTag(fields, fields[i].tag, 0) == Some(i)
  {
    var r := FindTag(fields, fields[i].tag, 0);
    assert r.Some?;
    assert fields[r.value].tag == fields[i].tag;
  }

  /** One field of the message is read, the rest of the input follows. */
  lemma OneField(fields: seq<Field>, i: nat, wireType: nat, body: Bytes, slots: seq<Slot>, seen: set<nat>, slots': seq<Slot>, rest: Bytes)
    requires GoodDescriptor(fields) && TypedSlots(fields, slots) && TypedSlots(fields, slots') && i < |fields| && wireType < 8
    requires ReadField(fields, i, wireType, body, slots) == Got(slots', rest)
    ensures ReadMessage(fields, Tag(fields[i].tag, wireType) + body, slots, seen) ==
            ReadMessage(fields, rest, slots', Saw(fields, i, seen))
  {
    assert GoodField(fields[i]);
    TagRoundTrip(fields[i].tag, wireType, body);
    FindUnique(fields, i);
  }

  /** The struct when the first k fields have been read. */
  function Halfway(fields: seq<Field>, slots: seq<Slot>, k: nat): (r: seq<Slot>)
    requires TypedSlots(fields, slots)
    ensures |r| == |fields|
  {
    seq(|fields|, i requires 0 <= i < |fields| => if i < k then CanonSlot(fields[i], slots[i]) else DefaultSlot(fields[i]))
  }

  lemma HalfwayNext(fields: seq<Field>, slots: seq<Slot>, k: nat)
    requires TypedSlots(fields, slots) && k < |fields|
    ensures Halfway(fields, slots, k + 1) == Halfway(fields, slots, k)[k := CanonSlot(fields[k], slots[k])]
  {
  }

  /** Choosing a union member changes nothing else: no other member was, or will be, chosen. */
  lemma ChooseNext(fields: seq<Field>, slots: seq<Slot>, k: nat, v: Datum)
    requires TypedSlots(fields, slots) && Exclusive(fields, slots) && k < |fields|
    requires fields[k].rule.Oneof? && slots[k].Maybe? && slots[k].has && CanonSlot(fields[k], slots[k]) == Maybe(true, v)
    ensures Choose(fields, Halfway(fields, slots, k), k, v) == Halfway(fields, slots, k + 1)
  {
    var half := Halfway(fields, slots, k);
    forall j | 0 <= j < |fields| && j != k && fields[j].rule == fields[k].rule
      ensures half[j] == DefaultSlot(fields[j])
    {
      if j < k {
        assert TypedSlot(fields[j], slots[j]);
        assert !slots[j].has;
      }
    }
  }

  /** A field that is not an array, and is present. */
  lemma {:induction false} MemberStep(fields: seq<Field>, slots: seq<Slot>, k: nat, v: Datum, seen: set<nat>, rest: Bytes)
    requires GoodDescriptor(fields) && TypedSlots(fields, slots) && Exclusive(fields, slots) && k < |fields|
    requires TypedSlots(fields, Halfway(fields, slots, k))
    requires slots[k] == Sole(v) || slots[k] == Maybe(true, v)
    requires TypedDatum(fields[k].ltype, v) && EncodableDatum(fields[k].ltype, v) && SafeDatum(fields[k].ltype, v)
    requires |WireDatum(fields[k].ltype, v)| < TWO32
    ensures TypedSlots(fields, Halfway(fields, slots, k + 1))
    ensures ReadMessage(fields, WireSlot(fields[k], slots[k]) + rest, Halfway(fields, slots, k), seen) ==
            ReadMessage(fields, rest, Halfway(fields, slots, k + 1), Saw(fields, k, seen))
    decreases fields, 0
  {
    var f := fields[k];
    assert GoodField(f) && TypedSlot(f, slots[k]);
    DefaultTyped(f);
    var half := Halfway(fields, slots, k);
    assert half[k] == DefaultSlot(f);
    var body := WireDatum(f.ltype, v) + rest;
    MemberRoundTrip(f, v, rest);
    HalfwayNext(fields, slots, k);
    if f.rule.Oneof? {
      if !f.ltype.Submessage? {
        assert half[k].v == DefaultDatum(f);
      }
      ChooseNext(fields, slots, k, CanonDatum(f.ltype, v));
    }
    assert ReadField(fields, k, f.ltype.WireType(), body, half) == Got(Halfway(fields, slots, k + 1), rest);
    assert WireSlot(f, slots[k]) + rest == Tag(f.tag, f.ltype.WireType()) + body;
    OneField(fields, k, f.ltype.WireType(), body, half, seen, Halfway(fields, slots, k + 1), rest);
  }

  lemma {:induction false} MemberRoundTrip(f: Field, v: Datum, rest: Bytes)
    requires GoodField(f) && TypedDatum(f.ltype, v) && EncodableDatum(f.ltype, v) && SafeDatum(f.ltype, v) && |WireDatum(f.ltype, v)| < TWO32
    ensures TypedDatum(f.ltype, DefaultDatum(f))
    ensures ReadMember(f, WireDatum(f.ltype, v) + rest, DefaultDatum(f)) == Got(CanonDatum(f.ltype, v), rest)
    decreases f, 0
  {
    DefaultTyped(f);
    DatumRoundTrip(f.ltype, v, rest, DefaultDatum(f), false);
  }

  lemma PackedStep(fields: seq<Field>, slots: seq<Slot>, k: nat, seen: set<nat>, rest: Bytes)
    requires GoodDescriptor(fields) && TypedSlots(fields, slots) && k < |fields|
    requires TypedSlots(fields, Halfway(fields, slots, k))
    requires slots[k].Many? && slots[k].items != [] && fields[k].ltype.Packable() && EncodableSlot(fields[k], slots[k])
    requires |WirePacked(fields[k].ltype, slots[k].items, 0)| < TWO32
    ensures TypedSlots(fields, Halfway(fields, slots, k + 1))
    ensures ReadMessage(fields, WireSlot(fields[k], slots[k]) + rest, Halfway(fields, slots, k), seen) ==
            ReadMessage(fields, rest, Halfway(fields, slots, k + 1), seen)
  {
    var f, items := fields[k], slots[k].items;
    assert GoodField(f) && TypedSlot(f, slots[k]);
    var half := Halfway(fields, slots, k);
    assert half[k] == DefaultSlot(f) == Many([]);
    var p := WirePacked(f.ltype, items, 0);
    DelimitedRoundTrip(p, rest);
    PackedRoundTrip(f.ltype, f.rule.max, items, 0);
    assert items[..0] == [];
    PackableCanon(f.ltype, items);
    HalfwayNext(fields, slots, k);
    assert ReadArray(fields, k, f.rule.max, WT_STRING, Delimited(p) + rest, half) == Got(Halfway(fields, slots, k + 1), rest);
    assert WireSlot(f, slots[k]) + rest == Tag(f.tag, WT_STRING) + (Delimited(p) + rest);
    OneField(fields, k, WT_STRING, Delimited(p) + rest, half, seen, Halfway(fields, slots, k + 1), rest);
  }

  /** The struct when i items of array k have been read. */
  function Partway(fields: seq<Field>, slots: seq<Slot>, k: nat, i: nat): (r: seq<Slot>)
    requires TypedSlots(fields, slots) && k < |fields| && slots[k].Many? && i <= |slots[k].items|
  {
    assert TypedSlot(fields[k], slots[k]);
    Halfway(fields, slots, k)[k := Many(CanonItems(fields[k].ltype, slots[k].items)[..i])]
  }

  lemma {:induction false} ItemStep(fields: seq<Field>, slots: seq<Slot>, k: nat, i: nat, rest: Bytes)
    requires GoodDescriptor(fields) && TypedSlots(fields, slots) && k < |fields|
    requires slots[k].Many? && !fields[k].ltype.Packable() && i < |slots[k].items| && EncodableSlot(fields[k], slots[k]) && SafeSlot(fields[k], slots[k])
    requires TypedSlots(fields, Partway(fields, slots, k, i))
    requires TypedDatum(fields[k].ltype, slots[k].items[i]) && |WireDatum(fields[k].ltype, slots[k].items[i])| < TWO32
    ensures ReadField(fields, k, fields[k].ltype.WireType(), WireDatum(fields[k].ltype, slots[k].items[i]) + rest, Partway(fields, slots, k, i))
            == Got(Partway(fields, slots, k, i + 1), rest)
    decreases fields, 0
  {
    var f, items := fields[k], slots[k].items;
    assert GoodField(f) && TypedSlot(f, slots[k]);
    assert EncodableItems(f.ltype, items) && SafeItems(f.ltype, items);
    DefaultTyped(f);
    EntryRoundTrip(f, items[i], rest);
    PartwayNext(fields, slots, k, i);
  }

  lemma {:induction false} PartwayNext(fields: seq<Field>, slots: seq<Slot>, k: nat, i: nat)
    requires TypedSlots(fields, slots) && k < |fields| && slots[k].Many? && i < |slots[k].items| && TypedItems(fields[k].ltype, slots[k].items)
    ensures var part, v := Partway(fields, slots, k, i), CanonDatum(fields[k].ltype, slots[k].items[i]);
            && part[k].Many? && |part[k].items| == i
            && part[k := Many(part[k].items + [v])] == Partway(fields, slots, k, i + 1)
  {
    var canon := CanonItems(fields[k].ltype, slots[k].items);
    assert canon[..i] + [canon[i]] == canon[..i + 1];
  }

  lemma {:induction false} EntryRoundTrip(f: Field, v: Datum, rest: Bytes)
    requires GoodField(f) && TypedDatum(f.ltype, v) && EncodableDatum(f.ltype, v) && SafeDatum(f.ltype, v) && |WireDatum(f.ltype, v)| < TWO32
    ensures TypedDatum(f.ltype, DefaultDatum(f))
    ensures ReadDatum(f.ltype, WireDatum(f.ltype, v) + rest, DefaultDatum(f), true) == Got(CanonDatum(f.ltype, v), rest)
    decreases f, 0
  {
    DefaultTyped(f);
    DatumRoundTrip(f.ltype, v, rest, DefaultDatum(f), true);
  }

  lemma {:induction false} ItemsStep(fields: seq<Field>, slots: seq<Slot>, k: nat, i: nat, seen: set<nat>, rest: Bytes)
    requires GoodDescriptor(fields) && TypedSlots(fields, slots) && k < |fields|
    requires slots[k].Many? && TypedItems(fields[k].ltype, slots[k].items)
    requires !fields[k].ltype.Packable() && i <= |slots[k].items| && EncodableSlot(fields[k], slots[k]) && SafeSlot(fields[k], slots[k])
    requires TypedSlots(fields, Partway(fields, slots, k, i))
    requires |WireItems(fields[k].tag, fields[k].ltype, slots[k].items, i)| < TWO32
    ensures TypedSlots(fields, Partway(fields, slots, k, |slots[k].items|))
    ensures ReadMessage(fields, WireItems(fields[k].tag, fields[k].ltype, slots[k].items, i) + rest, Partway(fields, slots, k, i), seen) ==
            ReadMessage(fields, rest, Partway(fields, slots, k, |slots[k].items|), seen)
    decreases fields, 1, |slots[k].items| - i
  {
    var f, items := fields[k], slots[k].items;
    if i < |items| {
      assert TypedDatum(f.ltype, items[i]) && f.rule.Repeated?;
      var tail := WireItems(f.tag, f.ltype, items, i + 1) + rest;
      var body := WireDatum(f.ltype, items[i]) + tail;
      ItemStep(fields, slots, k, i, tail);
      assert WireItems(f.tag, f.ltype, items, i) + rest == Tag(f.tag, f.ltype.WireType()) + body;
      OneField(fields, k, f.ltype.WireType(), body, Partway(fields, slots, k, i), seen, Partway(fields, slots, k, i + 1), tail);
      ItemsStep(fields, slots, k, i + 1, seen, rest);
    } else {
      assert WireItems(f.tag, f.ltype, items, i) + rest == rest;
    }
  }

  lemma PartwayEnds(fields: seq<Field>, slots: seq<Slot>, k: nat)
    requires TypedSlots(fields, slots) && k < |fields| && slots[k].Many?
    ensures Partway(fields, slots, k, 0) == Halfway(fields, slots, k)
    ensures Partway(fields, slots, k, |slots[k].items|) == Halfway(fields, slots, k + 1)
  {
    assert TypedSlot(fields[k], slots[k]);
    var canon := CanonItems(fields[k].ltype, slots[k].items);
    assert canon[..|slots[k].items|] == canon;
    HalfwayNext(fields, slots, k);
  }

  /** One field of the encoding, present or not. */
  lemma {:induction false} FieldStep(fields: seq<Field>, slots: seq<Slot>, k: nat, seen: set<nat>, rest: Bytes)
    requires GoodDescriptor(fields) && TypedSlots(fields, slots) && SafeSlots(fields, slots) && k < |fields|
    requires EncodableSlot(fields[k], slots[k]) && |WireSlot(fields[k], slots[k])| < TWO32
    requires TypedSlots(fields, Halfway(fields, slots, k))
    ensures TypedSlots(fields, Halfway(fields, slots, k + 1))
    ensures ReadMessage(fields, WireSlot(fields[k], slots[k]) + rest, Halfway(fields, slots, k), seen) ==
            ReadMessage(fields, rest, Halfway(fields, slots, k + 1), Saw(fields, k, seen))
    decreases fields, 2
  {
    var f := fields[k];
    assert TypedSlot(f, slots[k]) && SafeSlot(f, slots[k]);
    match slots[k]
    case Sole(v) => MemberStep(fields, slots, k, v, seen, rest);
    case Maybe(has, v) =>
      if has {
        MemberStep(fields, slots, k, v, seen, rest);
      } else {
        HalfwayNext(fields, slots, k);
        assert Halfway(fields, slots, k + 1) == Halfway(fields, slots, k);
        assert [] + rest == rest;
      }
    case Many(items) =>
      assert TypedItems(f.ltype, items);
      PartwayEnds(fields, slots, k);
      if items == [] {
        assert [] + rest == rest;
      } else if f.ltype.Packable() {
        PackedStep(fields, slots, k, seen, rest);
      } else {
        ItemsStep(fields, slots, k, 0, seen, rest);
      }
  }

  lemma {:induction false} FieldsRoundTrip(fields: seq<Field>, slots: seq<Slot>, k: nat, seen: set<nat>)
    requires GoodDescriptor(fields) && TypedSlots(fields, slots) && EncodableSlots(fields, slots, 0) && SafeSlots(fields, slots)
    requires k <= |fields| && |WireSlots(fields, slots, k)| < TWO32
    requires TypedSlots(fields, Halfway(fields, slots, k))
    requires forall i :: 0 <= i < k && fields[i].rule.Required? ==> i in seen
    ensures ReadMessage(fields, WireSlots(fields, slots, k), Halfway(fields, slots, k), seen) == Got(Halfway(fields, slots, |fields|), [])
    decreases fields, 3, |fields| - k
  {
    if k < |fields| {
      FieldStep(fields, slots, k, seen, WireSlots(fields, slots, k + 1));
      FieldsRoundTrip(fields, slots, k + 1, Saw(fields, k, seen));
    }
  }

  /** pb_decode of pb_encode's output succeeds, uses all of it, and restores the message. */
  lemma {:induction false} MessageRoundTrip(fields: seq<Field>, slots: seq<Slot>)
    requires GoodDescriptor(fields) && TypedSlots(fields, slots) && EncodableSlots(fields, slots, 0) && SafeSlots(fields, slots)
    requires |WireSlots(fields, slots, 0)| < TWO32
    ensures Read(fields, WireSlots(fields, slots, 0)) == Got(CanonSlots(fields, slots), [])
    decreases fields, 4
  {
    DefaultsTyped(fields);
    assert Halfway(fields, slots, 0) == Defaults(fields);
    FieldsRoundTrip(fields, slots, 0, {});
    assert Halfway(fields, slots, |fields|) == CanonSlots(fields, slots);
  }
}

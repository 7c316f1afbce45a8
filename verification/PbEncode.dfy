/** pb_encode: a recursive, descriptor-driven writer in which every length prefix comes from a sizing pass
    over a stream that only counts. */
module PbEncode {
  import opened Keys
  import opened Coding
  import opened PbWire
  import opened PbMessage
  import opened PbFormat

  class OStream {
    /** No callback: count, do not write. */
    const sizing: bool
    const maxSize: nat
    var written: nat
    /** Everything the callback received. */
    var data: Bytes

    constructor (sizing: bool, maxSize: nat, data: Bytes)
      ensures this.sizing == sizing && this.maxSize == maxSize && written == 0 && this.data == data && Valid()
    {
      this.sizing, this.maxSize, written, this.data := sizing, maxSize, 0, data;
    }

    ghost predicate Valid() reads this { !sizing ==> written <= maxSize }

    ghost predicate Fits(before: nat, n: nat) { sizing || before + n <= maxSize }

    /** The stream went from (w, d) to where it is by taking exactly b. */
    ghost predicate Took(w: nat, d: Bytes, b: Bytes) reads this {
      written == w + |b| && data == if sizing then d else d + b
    }

    /** The stream only grew, and counted what it passed on. */
    ghost predicate Grew(w: nat, d: Bytes) reads this {
      && w <= written && d <= data
      && if sizing then data == d else |data| - |d| == written - w
    }

    /** pb_write */
    method Write(b: Bytes) returns (ok: bool)
      requires Valid()
      modifies this
      ensures Valid() && Grew(old(written), old(data))
      ensures ok <==> Fits(old(written), |b|)
      ensures ok ==> Took(old(written), old(data), b)
    {
      if !sizing {
        if written + |b| > maxSize {
          return false;
        }
        data := data + b;
      }
      written := written + |b|;
      return true;
    }

    /** pb_write of a null buffer on a sizing stream. */
    method Skip(n: nat)
      requires Valid() && sizing
      modifies this
      ensures Valid() && written == old(written) + n && data == old(data)
    {
      written := written + n;
    }

    method EncodeVarint(value: nat) returns (ok: bool)
      requires Valid() && value < TWO64
      modifies this
      ensures Valid() && Grew(old(written), old(data))
      ensures ok <==> Fits(old(written), |Varint(value)|)
      ensures ok ==> Took(old(written), old(data), Varint(value))
    {
      if value <= 0x7F {
        ok := Write([value]);
        return;
      }
      var buffer := VarintBuffer(value);
      ok := Write(buffer);
    }

    method EncodeTag(tag: nat, wireType: nat) returns (ok: bool)
      requires Valid() && tag < TWO32 && wireType < 8
      modifies this
      ensures Valid() && Grew(old(written), old(data))
      ensures ok <==> Fits(old(written), |Tag(tag, wireType)|)
      ensures ok ==> Took(old(written), old(data), Tag(tag, wireType))
    {
      ok := EncodeVarint(tag * 8 + wireType);
    }

    method EncodeString(b: Bytes) returns (ok: bool)
      requires Valid() && |b| < TWO64
      modifies this
      ensures Valid() && Grew(old(written), old(data))
      ensures ok <==> Fits(old(written), |Delimited(b)|)
      ensures ok ==> Took(old(written), old(data), Delimited(b))
    {
      ok := EncodeVarint(|b|);
      if ok {
        ok := Write(b);
      }
    }
  }

  /** The buffer with the top bit of its last byte unset. */
  function Closed(buffer: Bytes): (r: Bytes)
    requires buffer != [] && buffer[|buffer| - 1] >= 128
    ensures |r| == |buffer|
  {
    var last: Byte := buffer[|buffer| - 1] - 128;
    buffer[|buffer| - 1 := last]
  }

  lemma Regroup(d: Bytes, a: Bytes, rest: Bytes)
    ensures d + (a + rest) == d + a + rest
  {
  }

  /** The loop of pb_encode_varint over its ten-byte buffer. */
  method VarintBuffer(value: nat) returns (buffer: Bytes)
    requires 0x7F < value < TWO64
    ensures buffer == Varint(value) && |buffer| <= 10
  {
    var v: nat := value;
    buffer := [];
    while v > 0
      invariant v > 0 ==> Varint(value) == buffer + Varint(v)
      invariant v == 0 ==> buffer != [] && buffer[|buffer| - 1] >= 128 && Varint(value) == Closed(buffer)
    {
      ghost var before := buffer;
      Regroup(buffer, [128 + v % 128], Varint(v / 128));
      var low: Byte := v % 128 + 128;
      buffer := buffer + [low];
      if v < 128 {
        assert Closed(buffer) == before + [v];
      }
      v := v / 128;
    }
    buffer := Closed(buffer);
    Limits();
    VarintRoundTrip(value, 10, []);
  }

  // ----- fields

  /** The descriptor's numbers fit their C types: tags and sizes are pb_size_t. */
  predicate DescriptorOk(fields: seq<Field>)
    decreases fields
  {
    forall i :: 0 <= i < |fields| ==> FieldOk(fields[i])
  }

  predicate FieldOk(f: Field)
    decreases f
  {
    f.tag < TWO32 && TypeOk(f.ltype)
  }

  predicate TypeOk(t: LType)
    decreases t
  {
    match t
    case Submessage(fields) => DescriptorOk(fields)
    case BytesArray(size) => size < TWO32
    case Str(size) => size < TWO32
    case FixedBytes(size) => size < TWO32
    case _ => true
  }

  /** Every length the encoder puts in a prefix is a size_t. */
  predicate Countable(n: nat) { n < TWO64 }

  /** PB_ENCODERS: one item without its tag. */
  method EncodeDatum(s: OStream, t: LType, v: Datum) returns (ok: bool)
    requires s.Valid() && TypeOk(t) && TypedDatum(t, v) && Countable(|WireDatum(t, v)|)
    modifies s
    ensures s.Valid() && s.Grew(old(s.written), old(s.data))
    ensures ok <==> EncodableDatum(t, v) && s.Fits(old(s.written), |WireDatum(t, v)|)
    ensures ok ==> s.Took(old(s.written), old(s.data), WireDatum(t, v))
    decreases t, 0
  {
    match t
    case VarInt(_) => ok := s.EncodeVarint(ToUnsigned(v.i));
    case UVarInt(_) => ok := s.EncodeVarint(v.i);
    case SVarInt(_) => ok := s.EncodeVarint(ZigZag(v.i));
    case Fixed32 => ok := s.Write(Fixed(v.i, 4));
    case Fixed64 => ok := s.Write(Fixed(v.i, 8));
    case BytesArray(size) =>
      if |v.b| + BYTES_OFFSET > size {
        return false;
      }
      ok := s.EncodeString(v.b);
    case Str(_) => ok := s.EncodeString(v.b);
    case FixedBytes(_) => ok := s.EncodeString(v.b);
    case Submessage(fields) => ok := EncodeSubmessage(s, fields, v.slots);
  }

  /** pb_encode_submessage: size it, then write it into a window of exactly that size. */
  method EncodeSubmessage(s: OStream, fields: seq<Field>, slots: seq<Slot>) returns (ok: bool)
    requires s.Valid() && DescriptorOk(fields) && TypedSlots(fields, slots) && Countable(|WireSlots(fields, slots, 0)|)
    modifies s
    ensures s.Valid() && s.Grew(old(s.written), old(s.data))
    ensures ok <==> EncodableSlots(fields, slots, 0) && s.Fits(old(s.written), |Delimited(WireSlots(fields, slots, 0))|)
    ensures ok ==> s.Took(old(s.written), old(s.data), Delimited(WireSlots(fields, slots, 0)))
    decreases fields, 2
  {
    ghost var body := WireSlots(fields, slots, 0);
    var sizer := new OStream(true, 0, []);
    ok := Encode(sizer, fields, slots);
    if !ok {
      return;
    }
    var size := sizer.written;
    Regroup(s.data, Varint(|body|), body);
    ok := s.EncodeVarint(size);
    if !ok {
      return;
    }
    if s.sizing {
      s.Skip(size);
      return true;
    }
    if s.written + size > s.maxSize {
      return false;
    }
    ok := WriteWindow(s, fields, slots, size);
  }

  /** The second pass; "submsg size changed" cannot happen. */
  method WriteWindow(s: OStream, fields: seq<Field>, slots: seq<Slot>, size: nat) returns (ok: bool)
    requires s.Valid() && !s.sizing && DescriptorOk(fields) && TypedSlots(fields, slots) && EncodableSlots(fields, slots, 0)
    requires Countable(size) && size == |WireSlots(fields, slots, 0)| && s.written + size <= s.maxSize
    modifies s
    ensures ok && s.Valid() && s.Took(old(s.written), old(s.data), WireSlots(fields, slots, 0))
    decreases fields, 1
  {
    var window := new OStream(false, size, s.data);
    ok := Encode(window, fields, slots);
    s.written := s.written + window.written;
    s.data := window.data;
    ok := ok && window.written == size;
  }

  /** encode_array, packed: the payload's size comes from counting, or from the width of the items. */
  method EncodePacked(s: OStream, f: Field, items: seq<Datum>) returns (ok: bool)
    requires s.Valid() && f.tag < TWO32 && f.ltype.Packable() && TypeOk(f.ltype) && TypedItems(f.ltype, items)
    requires Countable(|WirePacked(f.ltype, items, 0)|)
    modifies s
    ensures s.Valid() && s.Grew(old(s.written), old(s.data))
    ensures ok <==> s.Fits(old(s.written), |Tag(f.tag, WT_STRING) + Delimited(WirePacked(f.ltype, items, 0))|)
    ensures ok ==> s.Took(old(s.written), old(s.data), Tag(f.tag, WT_STRING) + Delimited(WirePacked(f.ltype, items, 0)))
    decreases f.ltype, 4
  {
    ghost var body := WirePacked(f.ltype, items, 0);
    Regroup(s.data, Tag(f.tag, WT_STRING), Delimited(body));
    ok := s.EncodeTag(f.tag, WT_STRING);
    if ok {
      ok := EncodePackedBody(s, f.ltype, items);
    }
  }

  method EncodePackedBody(s: OStream, t: LType, items: seq<Datum>) returns (ok: bool)
    requires s.Valid() && t.Packable() && TypeOk(t) && TypedItems(t, items) && Countable(|WirePacked(t, items, 0)|)
    modifies s
    ensures s.Valid() && s.Grew(old(s.written), old(s.data))
    ensures ok <==> s.Fits(old(s.written), |Delimited(WirePacked(t, items, 0))|)
    ensures ok ==> s.Took(old(s.written), old(s.data), Delimited(WirePacked(t, items, 0)))
    decreases t, 3
  {
    ghost var body := WirePacked(t, items, 0);
    var size := PackedSize(t, items);
    Regroup(s.data, Varint(|body|), body);
    ok := s.EncodeVarint(size);
    if !ok {
      return;
    }
    if s.sizing {
      s.Skip(size);
      return true;
    }
    ok := EncodePayload(s, t, items);
  }

  method PackedSize(t: LType, items: seq<Datum>) returns (size: nat)
    requires t.Packable() && TypeOk(t) && TypedItems(t, items) && Countable(|WirePacked(t, items, 0)|)
    ensures size == |WirePacked(t, items, 0)|
    decreases t, 2
  {
    if t.Fixed32? {
      PackedWidth(t, items, 0, 4);
      size := 4 * |items|;
    } else if t.Fixed64? {
      PackedWidth(t, items, 0, 8);
      size := 8 * |items|;
    } else {
      var sizer := new OStream(true, 0, []);
      var _ := EncodePayload(sizer, t, items);
      size := sizer.written;
    }
  }

  lemma {:induction false} PackedWidth(t: LType, items: seq<Datum>, i: nat, width: nat)
    requires TypedItems(t, items) && i <= |items|
    requires (t.Fixed32? && width == 4) || (t.Fixed64? && width == 8)
    ensures |WirePacked(t, items, i)| == width * (|items| - i)
    decreases |items| - i
  {
    if i < |items| {
      PackedWidth(t, items, i + 1, width);
    }
  }

  /** The item loop of a packed array. */
  method EncodePayload(s: OStream, t: LType, items: seq<Datum>) returns (ok: bool)
    requires s.Valid() && t.Packable() && TypeOk(t) && TypedItems(t, items) && Countable(|WirePacked(t, items, 0)|)
    modifies s
    ensures s.Valid() && s.Grew(old(s.written), old(s.data))
    ensures ok <==> s.Fits(old(s.written), |WirePacked(t, items, 0)|)
    ensures ok ==> s.Took(old(s.written), old(s.data), WirePacked(t, items, 0))
    decreases t, 1
  {
    for i := 0 to |items|
      invariant s.Valid() && s.Grew(old(s.written), old(s.data))
      invariant s.written + |WirePacked(t, items, i)| == old(s.written) + |WirePacked(t, items, 0)|
      invariant s.sizing || s.data + WirePacked(t, items, i) == old(s.data) + WirePacked(t, items, 0)
    {
      assert TypedDatum(t, items[i]) && EncodableDatum(t, items[i]);
      Regroup(s.data, WireDatum(t, items[i]), WirePacked(t, items, i + 1));
      ok := EncodeDatum(s, t, items[i]);
      if !ok {
        return;
      }
    }
    return true;
  }

  /** The item loop of an array that is not packed. */
  method EncodeItems(s: OStream, f: Field, items: seq<Datum>) returns (ok: bool)
    requires s.Valid() && FieldOk(f) && TypedItems(f.ltype, items) && Countable(|WireItems(f.tag, f.ltype, items, 0)|)
    modifies s
    ensures s.Valid() && s.Grew(old(s.written), old(s.data))
    ensures ok <==> EncodableItems(f.ltype, items) && s.Fits(old(s.written), |WireItems(f.tag, f.ltype, items, 0)|)
    ensures ok ==> s.Took(old(s.written), old(s.data), WireItems(f.tag, f.ltype, items, 0))
    decreases f.ltype, 3
  {
    var t := f.ltype;
    for i := 0 to |items|
      invariant s.Valid() && s.Grew(old(s.written), old(s.data))
      invariant s.written + |WireItems(f.tag, t, items, i)| == old(s.written) + |WireItems(f.tag, t, items, 0)|
      invariant s.sizing || s.data + WireItems(f.tag, t, items, i) == old(s.data) + WireItems(f.tag, t, items, 0)
      invariant forall j :: 0 <= j < i ==> EncodableDatum(t, items[j])
    {
      assert TypedDatum(t, items[i]);
      Regroup(s.data, Tag(f.tag, t.WireType()) + WireDatum(t, items[i]), WireItems(f.tag, t, items, i + 1));
      ok := EncodeTagged(s, f, items[i]);
      if !ok {
        return;
      }
    }
    return true;
  }

  /** encode_basic_field: nothing for an absent field, else the tag and the item, or the array. */
  method EncodeField(s: OStream, f: Field, slot: Slot) returns (ok: bool)
    requires s.Valid() && FieldOk(f) && TypedSlot(f, slot) && Countable(|WireSlot(f, slot)|)
    modifies s
    ensures s.Valid() && s.Grew(old(s.written), old(s.data))
    ensures ok <==> EncodableSlot(f, slot) && s.Fits(old(s.written), |WireSlot(f, slot)|)
    ensures ok ==> s.Took(old(s.written), old(s.data), WireSlot(f, slot))
    decreases f
  {
    match slot
    case Many(items) =>
      if |items| == 0 {
        return true;
      }
      if |items| > f.rule.max {
        return false;
      }
      if f.ltype.Packable() {
        PackableEncodes(f.ltype, items);
        ok := EncodePacked(s, f, items);
      } else {
        ok := EncodeItems(s, f, items);
      }
    case Sole(v) =>
      ok := EncodeTagged(s, f, v);
    case Maybe(has, v) =>
      if !has {
        return true;
      }
      ok := EncodeTagged(s, f, v);
  }

  lemma PackableEncodes(t: LType, items: seq<Datum>)
    requires t.Packable() && TypedItems(t, items)
    ensures EncodableItems(t, items)
  {
  }

  method EncodeTagged(s: OStream, f: Field, v: Datum) returns (ok: bool)
    requires s.Valid() && FieldOk(f) && TypedDatum(f.ltype, v) && Countable(|WireDatum(f.ltype, v)|)
    modifies s
    ensures s.Valid() && s.Grew(old(s.written), old(s.data))
    ensures ok <==> EncodableDatum(f.ltype, v) && s.Fits(old(s.written), |Tag(f.tag, f.ltype.WireType()) + WireDatum(f.ltype, v)|)
    ensures ok ==> s.Took(old(s.written), old(s.data), Tag(f.tag, f.ltype.WireType()) + WireDatum(f.ltype, v))
    decreases f.ltype, 2
  {
    Regroup(s.data, Tag(f.tag, f.ltype.WireType()), WireDatum(f.ltype, v));
    ok := s.EncodeTag(f.tag, f.ltype.WireType());
    if ok {
      ok := EncodeDatum(s, f.ltype, v);
    }
  }

  /** pb_encode: succeeds exactly when no field is over its bounds and the whole message fits, and then has
      written exactly the message. */
  method Encode(s: OStream, fields: seq<Field>, slots: seq<Slot>) returns (ok: bool)
    requires s.Valid() && DescriptorOk(fields) && TypedSlots(fields, slots) && Countable(|WireSlots(fields, slots, 0)|)
    modifies s
    ensures s.Valid() && s.Grew(old(s.written), old(s.data))
    ensures ok <==> EncodableSlots(fields, slots, 0) && s.Fits(old(s.written), |WireSlots(fields, slots, 0)|)
    ensures ok ==> s.Took(old(s.written), old(s.data), WireSlots(fields, slots, 0))
    ensures SpellsSlots(fields, slots, 0, WireSlots(fields, slots, 0))
    decreases fields, 0
  {
    MessageIsSpelled(fields, slots, 0);
    for i := 0 to |fields|
      invariant s.Valid() && s.Grew(old(s.written), old(s.data))
      invariant s.written + |WireSlots(fields, slots, i)| == old(s.written) + |WireSlots(fields, slots, 0)|
      invariant s.sizing || s.data + WireSlots(fields, slots, i) == old(s.data) + WireSlots(fields, slots, 0)
      invariant forall j :: 0 <= j < i ==> EncodableSlot(fields[j], slots[j])
    {
      Regroup(s.data, WireSlot(fields[i], slots[i]), WireSlots(fields, slots, i + 1));
      ok := EncodeField(s, fields[i], slots[i]);
      if !ok {
        return;
      }
    }
    return true;
  }

  /** pb_get_encoded_size: the number of bytes a large enough stream receives. */
  method GetEncodedSize(fields: seq<Field>, slots: seq<Slot>) returns (ok: bool, size: nat)
    requires DescriptorOk(fields) && TypedSlots(fields, slots) && Countable(|WireSlots(fields, slots, 0)|)
    ensures ok <==> EncodableSlots(fields, slots, 0)
    ensures ok ==> size == |WireSlots(fields, slots, 0)|
  {
    var sizer := new OStream(true, 0, []);
    ok := Encode(sizer, fields, slots);
    size := sizer.written;
  }
}

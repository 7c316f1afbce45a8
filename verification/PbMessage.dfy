/** Descriptors, message structures, and the bytes a message stands for. */
module PbMessage {
  import opened Keys
  import opened Coding
  import opened PbWire

  /** sizeof the integer member: 1, 2, 4 or 8 bytes. */
  datatype Width = W8 | W16 | W32 | W64 {
    function Modulus(): (m: nat)
      ensures m > 0 && m % 2 == 0 && m <= TWO64
    {
      match this case W8 => 0x100 case W16 => 0x1_0000 case W32 => TWO32 case W64 => TWO64
    }
  }

  /** PB_LTYPE with the data_size it needs, and the field list of a submessage. */
  datatype LType =
    | VarInt(width: Width) | UVarInt(width: Width) | SVarInt(width: Width)
    | Fixed32 | Fixed64
    | BytesArray(size: nat) | Str(size: nat) | FixedBytes(size: nat)
    | Submessage(fields: seq<Field>)
  {
    /** LTYPE <= PB_LTYPE_LAST_PACKABLE */
    predicate Packable() { VarInt? || UVarInt? || SVarInt? || Fixed32? || Fixed64? }
    function WireType(): (w: nat)
      ensures w < 8
    {
      if VarInt? || UVarInt? || SVarInt? then WT_VARINT else if Fixed32? then WT_32BIT else if Fixed64? then WT_64BIT else WT_STRING
    }
  }

  const WT_VARINT: nat := 0
  const WT_64BIT: nat := 1
  const WT_STRING: nat := 2
  const WT_32BIT: nat := 5

  /** PB_HTYPE, with array_size for arrays and the union for oneof members. */
  datatype Rule = Required | Optional | Repeated(max: nat) | Oneof(union: nat)

  datatype Field = Field(tag: nat, ltype: LType, rule: Rule, dflt: Datum)

  /** The content of one struct member: a number, a byte string (for strings: up to the terminator), a struct. */
  datatype Datum = Num(i: int) | Raw(b: Bytes) | Msg(slots: seq<Slot>)

  /** A required member; an optional one with its has_ flag, or a oneof member with "which_ is my tag";
      an array with its count. */
  datatype Slot = Sole(v: Datum) | Maybe(has: bool, v: Datum) | Many(items: seq<Datum>)

  /** offsetof(pb_bytes_array_t, bytes) with 32-bit pb_size_t */
  const BYTES_OFFSET: nat := 4

  // ----- what the C type system guarantees of a struct

  predicate TypedDatum(t: LType, v: Datum)
    decreases t, 0
  {
    match t
    case VarInt(w) => v.Num? && -(w.Modulus() / 2) <= v.i < w.Modulus() / 2
    case UVarInt(w) => v.Num? && 0 <= v.i < w.Modulus()
    case SVarInt(w) => v.Num? && -(w.Modulus() / 2) <= v.i < w.Modulus() / 2
    case Fixed32 => v.Num? && 0 <= v.i < TWO32
    case Fixed64 => v.Num? && 0 <= v.i < TWO64
    case BytesArray(_) => v.Raw?
    case Str(size) => v.Raw? && |v.b| <= size && NoNul(v.b)
    case FixedBytes(size) => v.Raw? && |v.b| == size
    case Submessage(fields) => v.Msg? && TypedSlots(fields, v.slots)
  }

  predicate NoNul(b: Bytes) { forall i :: 0 <= i < |b| ==> b[i] != 0 }

  predicate TypedSlot(f: Field, s: Slot)
    decreases f
  {
    match f.rule
    case Required => s.Sole? && TypedDatum(f.ltype, s.v)
    case Repeated(_) => s.Many? && TypedItems(f.ltype, s.items)
    case _ => s.Maybe? && TypedDatum(f.ltype, s.v)
  }

  predicate TypedItems(t: LType, items: seq<Datum>)
    decreases t, 1
  {
    forall i :: 0 <= i < |items| ==> TypedDatum(t, items[i])
  }

  predicate TypedSlots(fields: seq<Field>, slots: seq<Slot>)
    decreases fields
  {
    |slots| == |fields| && forall i :: 0 <= i < |fields| ==> TypedSlot(fields[i], slots[i])
  }

  // ----- when encoding meets no error

  predicate EncodableDatum(t: LType, v: Datum)
    requires TypedDatum(t, v)
    decreases t, 0
  {
    match t
    case BytesArray(size) => |v.b| + BYTES_OFFSET <= size
    case Submessage(fields) => EncodableSlots(fields, v.slots, 0)
    case _ => true
  }

  predicate EncodableSlot(f: Field, s: Slot)
    requires TypedSlot(f, s)
    decreases f
  {
    match s
    case Sole(v) => EncodableDatum(f.ltype, v)
    case Maybe(has, v) => has ==> EncodableDatum(f.ltype, v)
    case Many(items) => (items == [] || |items| <= f.rule.max) && EncodableItems(f.ltype, items)
  }

  predicate EncodableItems(t: LType, items: seq<Datum>)
    requires TypedItems(t, items)
    decreases t, 1
  {
    forall i :: 0 <= i < |items| ==> EncodableDatum(t, items[i])
  }

  /** The fields from i on. */
  predicate EncodableSlots(fields: seq<Field>, slots: seq<Slot>, i: nat)
    requires TypedSlots(fields, slots)
    decreases fields
  {
    forall j :: i <= j < |fields| ==> EncodableSlot(fields[j], slots[j])
  }

  // ----- the bytes

  function Tag(tag: nat, wireType: nat): (r: Bytes) { Varint(tag * 8 + wireType) }

  function WireDatum(t: LType, v: Datum): (r: Bytes)
    requires TypedDatum(t, v)
    decreases t, 0
  {
    match t
    case VarInt(_) => Varint(ToUnsigned(v.i))
    case UVarInt(_) => Varint(v.i)
    case SVarInt(_) => Varint(ZigZag(v.i))
    case Fixed32 => Fixed(v.i, 4)
    case Fixed64 => Fixed(v.i, 8)
    case Submessage(fields) => Delimited(WireSlots(fields, v.slots, 0))
    case _ => Delimited(v.b)
  }

  /** A packed array's payload, from item i on. */
  function WirePacked(t: LType, items: seq<Datum>, i: nat): (r: Bytes)
    requires TypedItems(t, items)
    decreases t, 1, |items| - i
  {
    if i >= |items| then [] else WireDatum(t, items[i]) + WirePacked(t, items, i + 1)
  }

  /** An array written one field per item, from item i on. */
  function WireItems(tag: nat, t: LType, items: seq<Datum>, i: nat): (r: Bytes)
    requires TypedItems(t, items)
    decreases t, 1, |items| - i
  {
    if i >= |items| then [] else Tag(tag, t.WireType()) + WireDatum(t, items[i]) + WireItems(tag, t, items, i + 1)
  }

  function WireSlot(f: Field, s: Slot): (r: Bytes)
    requires TypedSlot(f, s)
    decreases f
  {
    match s
    case Sole(v) => Tag(f.tag, f.ltype.WireType()) + WireDatum(f.ltype, v)
    case Maybe(has, v) => if has then Tag(f.tag, f.ltype.WireType()) + WireDatum(f.ltype, v) else []
    case Many(items) =>
      if items == [] then []
      else if f.ltype.Packable() then Tag(f.tag, WT_STRING) + Delimited(WirePacked(f.ltype, items, 0))
      else WireItems(f.tag, f.ltype, items, 0)
  }

  /** The fields from i on. */
  function WireSlots(fields: seq<Field>, slots: seq<Slot>, i: nat): (r: Bytes)
    requires TypedSlots(fields, slots)
    decreases fields, |fields| - i
  {
    if i >= |fields| then [] else WireSlot(fields[i], slots[i]) + WireSlots(fields, slots, i + 1)
  }
}

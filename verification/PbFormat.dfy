/** The Protocol Buffers wire format in numbers, and that a message is written in it. Nothing here uses the encoder's own
    definitions: the predicates say which byte strings spell which values. */
module PbFormat {
  import opened Keys
  import opened Coding
  import opened PbWire
  import opened PbMessage

  // ----- what spells a value

  /** The number after the field number in a tag: 0 varint, 1 eight bytes, 2 length-delimited, 5 four bytes. */
  function WireNumber(t: LType): (w: nat) {
    match t
    case VarInt(_) => 0
    case UVarInt(_) => 0
    case SVarInt(_) => 0
    case Fixed64 => 1
    case Fixed32 => 5
    case _ => 2
  }

  ghost predicate SpellsTag(tag: nat, w: nat, b: Bytes) { Base128(b, 8 * tag + w) }

  ghost predicate SpellsNumber(t: LType, i: int, b: Bytes)
    requires t.Packable()
  {
    match t
    case VarInt(_) =>  // two's complement, 64 bits
      i + 0x1_0000_0000_0000_0000 >= 0 && Base128(b, if i < 0 then i + 0x1_0000_0000_0000_0000 else i)
    case UVarInt(_) => i >= 0 && Base128(b, i)
    case SVarInt(_) => Base128(b, if i < 0 then -2 * i - 1 else 2 * i)
    case Fixed32 => i >= 0 && LittleEndian4(b, i)
    case Fixed64 => i >= 0 && LittleEndian8(b, i)
  }

  ghost predicate SpellsDatum(t: LType, v: Datum, b: Bytes)
    requires TypedDatum(t, v)
    decreases t, 0
  {
    if t.Packable() then SpellsNumber(t, v.i, b)
    else if t.Submessage? then exists body :: SpellsLength(body, b) && SpellsSlots(t.fields, v.slots, 0, body)
    else SpellsLength(v.b, b)
  }

  /** One tagged item. */
  ghost predicate SpellsTagged(tag: nat, t: LType, v: Datum, b: Bytes)
    requires TypedDatum(t, v)
    decreases t, 1
  {
    exists n {:trigger b[..n]} :: 0 <= n <= |b| && SpellsTag(tag, WireNumber(t), b[..n]) && SpellsDatum(t, v, b[n..])
  }

  /** The items from i on, one after the other without tags. */
  ghost predicate SpellsPacked(t: LType, items: seq<Datum>, i: nat, b: Bytes)
    requires TypedItems(t, items)
    decreases t, 1, |items| - i
  {
    if i >= |items| then b == []
    else exists n {:trigger b[..n]} :: 0 <= n <= |b| && SpellsDatum(t, items[i], b[..n]) && SpellsPacked(t, items, i + 1, b[n..])
  }

  /** The items from i on, each with its tag. */
  ghost predicate SpellsItems(tag: nat, t: LType, items: seq<Datum>, i: nat, b: Bytes)
    requires TypedItems(t, items)
    decreases t, 2, |items| - i
  {
    if i >= |items| then b == []
    else exists n {:trigger b[..n]} :: 0 <= n <= |b| && SpellsTagged(tag, t, items[i], b[..n]) && SpellsItems(tag, t, items, i + 1, b[n..])
  }

  ghost predicate SpellsSlot(f: Field, s: Slot, b: Bytes)
    requires TypedSlot(f, s)
    decreases f
  {
    match s
    case Sole(v) => SpellsTagged(f.tag, f.ltype, v, b)
    case Maybe(has, v) => if has then SpellsTagged(f.tag, f.ltype, v, b) else b == []
    case Many(items) =>
      if items == [] then b == []
      else if f.ltype.Packable() then SpellsPackedField(f.tag, f.ltype, items, b)
      else SpellsItems(f.tag, f.ltype, items, 0, b)
  }

  /** Packed: one tag with wire type 2, one length, all the items. */
  ghost predicate SpellsPackedField(tag: nat, t: LType, items: seq<Datum>, b: Bytes)
    requires TypedItems(t, items)
    decreases t, 2
  {
    exists n, body {:trigger SpellsLength(body, b[n..])} ::
      0 <= n <= |b| && SpellsTag(tag, 2, b[..n]) && SpellsLength(body, b[n..]) && SpellsPacked(t, items, 0, body)
  }

  /** The fields from i on, in descriptor order. */
  ghost predicate SpellsSlots(fields: seq<Field>, slots: seq<Slot>, i: nat, b: Bytes)
    requires TypedSlots(fields, slots)
    decreases fields, |fields| - i
  {
    if i >= |fields| then b == []
    else exists n {:trigger b[..n]} :: 0 <= n <= |b| && SpellsSlot(fields[i], slots[i], b[..n]) && SpellsSlots(fields, slots, i + 1, b[n..])
  }

  // ----- the encoding spells the message

  lemma TagIsSpelled(tag: nat, t: LType)
    ensures SpellsTag(tag, WireNumber(t), Tag(tag, t.WireType()))
    ensures SpellsTag(tag, 2, Tag(tag, WT_STRING))
  {
    VarintIsBase128(8 * tag + WireNumber(t));
    VarintIsBase128(8 * tag + 2);
  }

  lemma NumberIsSpelled(t: LType, v: Datum)
    requires t.Packable() && TypedDatum(t, v)
    ensures SpellsNumber(t, v.i, WireDatum(t, v))
  {
    match t
    case VarInt(_) => VarintIsBase128(ToUnsigned(v.i));
    case UVarInt(_) => VarintIsBase128(v.i);
    case SVarInt(_) => VarintIsBase128(ZigZag(v.i));
    case Fixed32 => FixedIs4(v.i);
    case Fixed64 => FixedIs8(v.i);
  }

  lemma {:induction false} DatumIsSpelled(t: LType, v: Datum)
    requires TypedDatum(t, v)
    ensures SpellsDatum(t, v, WireDatum(t, v))
    decreases t, 0
  {
    if t.Packable() {
      NumberIsSpelled(t, v);
    } else if t.Submessage? {
      MessageIsSpelled(t.fields, v.slots, 0);
      LengthIsSpelled(WireSlots(t.fields, v.slots, 0));
    } else {
      LengthIsSpelled(v.b);
    }
  }

  lemma {:induction false} TaggedIsSpelled(tag: nat, t: LType, v: Datum)
    requires TypedDatum(t, v)
    ensures SpellsTagged(tag, t, v, Tag(tag, t.WireType()) + WireDatum(t, v))
    decreases t, 1
  {
    var head, body := Tag(tag, t.WireType()), WireDatum(t, v);
    TagIsSpelled(tag, t);
    DatumIsSpelled(t, v);
    CutAt(head, body);
  }

  lemma {:induction false} PackedIsSpelled(t: LType, items: seq<Datum>, i: nat)
    requires TypedItems(t, items)
    ensures SpellsPacked(t, items, i, WirePacked(t, items, i))
    decreases t, 1, |items| - i
  {
    if i < |items| {
      DatumIsSpelled(t, items[i]);
      PackedIsSpelled(t, items, i + 1);
      CutAt(WireDatum(t, items[i]), WirePacked(t, items, i + 1));
    }
  }

  lemma {:induction false} ItemsAreSpelled(tag: nat, t: LType, items: seq<Datum>, i: nat)
    requires TypedItems(t, items)
    ensures SpellsItems(tag, t, items, i, WireItems(tag, t, items, i))
    decreases t, 2, |items| - i
  {
    if i < |items| {
      TaggedIsSpelled(tag, t, items[i]);
      ItemsAreSpelled(tag, t, items, i + 1);
      CutAt(Tag(tag, t.WireType()) + WireDatum(t, items[i]), WireItems(tag, t, items, i + 1));
    }
  }

  lemma {:induction false} SlotIsSpelled(f: Field, s: Slot)
    requires TypedSlot(f, s)
    ensures SpellsSlot(f, s, WireSlot(f, s))
    decreases f
  {
    match s
    case Sole(v) => TaggedIsSpelled(f.tag, f.ltype, v);
    case Maybe(has, v) => if has { TaggedIsSpelled(f.tag, f.ltype, v); }
    case Many(items) =>
      if items != [] {
        if f.ltype.Packable() {
          PackedFieldIsSpelled(f.tag, f.ltype, items);
        } else {
          ItemsAreSpelled(f.tag, f.ltype, items, 0);
        }
      }
  }

  lemma {:induction false} PackedFieldIsSpelled(tag: nat, t: LType, items: seq<Datum>)
    requires TypedItems(t, items)
    ensures SpellsPackedField(tag, t, items, Tag(tag, WT_STRING) + Delimited(WirePacked(t, items, 0)))
    decreases t, 2
  {
    var body := WirePacked(t, items, 0);
    var head, b := Tag(tag, WT_STRING), Tag(tag, WT_STRING) + Delimited(body);
    TagIsSpelled(tag, t);
    LengthIsSpelled(body);
    PackedIsSpelled(t, items, 0);
    CutAt(head, Delimited(body));
    assert SpellsLength(body, b[|head|..]);
  }

  /** What pb_encode writes spells the message, at every nesting depth. */
  lemma {:induction false} MessageIsSpelled(fields: seq<Field>, slots: seq<Slot>, i: nat)
    requires TypedSlots(fields, slots)
    ensures SpellsSlots(fields, slots, i, WireSlots(fields, slots, i))
    decreases fields, |fields| - i
  {
    if i < |fields| {
      SlotIsSpelled(fields[i], slots[i]);
      MessageIsSpelled(fields, slots, i + 1);
      CutAt(WireSlot(fields[i], slots[i]), WireSlots(fields, slots, i + 1));
    }
  }
}

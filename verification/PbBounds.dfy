/** Whatever bytes pb_decode is given, success leaves a struct within its bounds: one that pb_encode accepts. */
module PbBounds {
  import opened Keys
  import opened Coding
  import opened PbWire
  import opened PbMessage
  import opened PbRead
  import opened PbRoundTrip

  /** Nothing over its buffer, strings with room for their terminator, one member per union, absent members at
      their defaults. */
  predicate SoundDatum(t: LType, v: Datum)
    requires TypedDatum(t, v)
    decreases t, 0
  {
    match t
    case BytesArray(size) => |v.b| + BYTES_OFFSET <= size
    case Str(size) => |v.b| < size
    case Submessage(fields) => SoundSlots(fields, v.slots)
    case _ => true
  }

  predicate SoundItems(t: LType, items: seq<Datum>)
    requires TypedItems(t, items)
    decreases t, 1
  {
    forall i :: 0 <= i < |items| ==> SoundDatum(t, items[i])
  }

  predicate SoundSlot(f: Field, s: Slot)
    requires TypedSlot(f, s)
    decreases f
  {
    match s
    case Many(items) => |items| <= f.rule.max && SoundItems(f.ltype, items)
    case Sole(v) => SoundDatum(f.ltype, v)
    case Maybe(has, v) => SoundDatum(f.ltype, v) && (!has ==> s == DefaultSlot(f))
  }

  predicate SoundSlots(fields: seq<Field>, slots: seq<Slot>)
    requires TypedSlots(fields, slots)
    decreases fields
  {
    && (forall i :: 0 <= i < |fields| ==> SoundSlot(fields[i], slots[i]))
    && Exclusive(fields, slots)
  }

  // ----- sound structs encode, and survive

  lemma {:induction false} SoundDatumEncodes(t: LType, v: Datum)
    requires TypedDatum(t, v) && SoundDatum(t, v)
    ensures EncodableDatum(t, v) && SafeDatum(t, v)
    decreases t
  {
    if t.Submessage? {
      SoundEncodes(t.fields, v.slots);
    }
  }

  lemma {:induction false} SoundItemsEncode(t: LType, items: seq<Datum>)
    requires TypedItems(t, items) && SoundItems(t, items)
    ensures EncodableItems(t, items) && SafeItems(t, items)
    decreases t, 1
  {
    forall i | 0 <= i < |items|
      ensures EncodableDatum(t, items[i]) && SafeDatum(t, items[i])
    {
      ItemEncodes(t, items, i);
    }
  }

  lemma {:induction false} ItemEncodes(t: LType, items: seq<Datum>, i: nat)
    requires TypedItems(t, items) && SoundItems(t, items) && i < |items|
    ensures EncodableDatum(t, items[i]) && SafeDatum(t, items[i])
    decreases t, 0
  {
    if t.Submessage? {
      SoundEncodes(t.fields, items[i].slots);
    }
  }

  lemma {:induction false} SoundSlotEncodes(f: Field, s: Slot)
    requires TypedSlot(f, s) && SoundSlot(f, s)
    ensures EncodableSlot(f, s) && SafeSlot(f, s)
    decreases f
  {
    match s
    case Many(items) => SoundItemsEncode(f.ltype, items);
    case Sole(v) => SoundDatumEncodes(f.ltype, v);
    case Maybe(_, v) => SoundDatumEncodes(f.ltype, v);
  }

  lemma {:induction false} SoundEncodes(fields: seq<Field>, slots: seq<Slot>)
    requires TypedSlots(fields, slots) && SoundSlots(fields, slots)
    ensures EncodableSlots(fields, slots, 0) && SafeSlots(fields, slots)
    decreases fields
  {
    forall i | 0 <= i < |fields|
      ensures EncodableSlot(fields[i], slots[i]) && SafeSlot(fields[i], slots[i])
    {
      SoundSlotEncodes(fields[i], slots[i]);
    }
  }

  /** Nothing in a sound struct is lost by encoding it. */
  lemma {:induction false} SoundDatumCanon(t: LType, v: Datum)
    requires TypedDatum(t, v) && SoundDatum(t, v)
    ensures CanonDatum(t, v) == v
    decreases t
  {
    if t.Submessage? {
      SoundCanon(t.fields, v.slots);
    }
  }

  lemma {:induction false} SoundSlotCanon(f: Field, s: Slot)
    requires TypedSlot(f, s) && SoundSlot(f, s)
    ensures CanonSlot(f, s) == s
    decreases f
  {
    match s
    case Sole(v) => SoundDatumCanon(f.ltype, v);
    case Maybe(_, v) => SoundDatumCanon(f.ltype, v);
    case Many(items) =>
      forall i | 0 <= i < |items|
        ensures CanonDatum(f.ltype, items[i]) == items[i]
      {
        assert SoundItems(f.ltype, items);
        SoundDatumCanon(f.ltype, items[i]);
      }
      assert CanonItems(f.ltype, items) == items;
  }

  lemma {:induction false} SoundCanon(fields: seq<Field>, slots: seq<Slot>)
    requires TypedSlots(fields, slots) && SoundSlots(fields, slots)
    ensures CanonSlots(fields, slots) == slots
    decreases fields
  {
    forall i | 0 <= i < |fields|
      ensures CanonSlot(fields[i], slots[i]) == slots[i]
    {
      SoundSlotCanon(fields[i], slots[i]);
    }
  }

  // ----- defaults

  /** Default values are within their own members' bounds. */
  predicate SoundDescriptor(fields: seq<Field>)
    requires GoodDescriptor(fields)
    decreases fields
  {
    forall i :: 0 <= i < |fields| ==> SoundField(fields[i])
  }

  predicate SoundField(f: Field)
    requires GoodField(f)
    decreases f
  {
    SoundType(f.ltype) && (!f.ltype.Submessage? ==> SoundDatum(f.ltype, f.dflt))
  }

  predicate SoundType(t: LType)
    requires GoodType(t)
    decreases t
  {
    t.Submessage? ==> SoundDescriptor(t.fields)
  }

  lemma {:induction false} DefaultSound(f: Field)
    requires GoodField(f) && SoundField(f)
    ensures TypedDatum(f.ltype, DefaultDatum(f)) && SoundDatum(f.ltype, DefaultDatum(f))
    ensures TypedSlot(f, DefaultSlot(f)) && SoundSlot(f, DefaultSlot(f))
    decreases f
  {
    DefaultTyped(f);
    if f.ltype.Submessage? {
      DefaultsSound(f.ltype.fields);
    }
    assert SoundDatum(f.ltype, DefaultDatum(f));
  }

  lemma {:induction false} DefaultsSound(fields: seq<Field>)
    requires GoodDescriptor(fields) && SoundDescriptor(fields)
    ensures TypedSlots(fields, Defaults(fields)) && SoundSlots(fields, Defaults(fields))
    decreases fields
  {
    DefaultsTyped(fields);
    forall i | 0 <= i < |fields|
      ensures SoundSlot(fields[i], Defaults(fields)[i])
    {
      DefaultSound(fields[i]);
    }
  }

  // ----- every read keeps a sound struct sound

  lemma {:induction false} ReadDatumSound(t: LType, b: Bytes, was: Datum, init: bool)
    requires GoodType(t) && SoundType(t) && TypedDatum(t, was) && SoundDatum(t, was) && ReadDatum(t, b, was, init).Got?
    ensures SoundDatum(t, ReadDatum(t, b, was, init).value)
    decreases t, 0
  {
    if t.Submessage? {
      DefaultsSound(t.fields);
      var p := ReadDelimited(b).value;
      ReadMessageSound(t.fields, p, if init then Defaults(t.fields) else was.slots, {});
    }
  }

  lemma {:induction false} ReadPackedSound(t: LType, max: nat, b: Bytes, items: seq<Datum>)
    requires t.Packable() && TypedItems(t, items) && |items| <= max && ReadPacked(t, max, b, items).Some?
    ensures |ReadPacked(t, max, b, items).value| <= max
    decreases |b|
  {
    if b != [] {
      var r := ReadNumber(t, b);
      ReadPackedSound(t, max, r.rest, items + [r.value]);
    }
  }

  lemma UpdateSound(fields: seq<Field>, slots: seq<Slot>, i: nat, s: Slot)
    requires TypedSlots(fields, slots) && SoundSlots(fields, slots) && i < |fields| && !fields[i].rule.Oneof?
    requires TypedSlot(fields[i], s) && SoundSlot(fields[i], s)
    ensures TypedSlots(fields, slots[i := s]) && SoundSlots(fields, slots[i := s])
  {
  }

  lemma ChooseSound(fields: seq<Field>, slots: seq<Slot>, i: nat, v: Datum)
    requires GoodDescriptor(fields) && SoundDescriptor(fields) && TypedSlots(fields, slots) && SoundSlots(fields, slots)
    requires i < |fields| && fields[i].rule.Oneof? && TypedDatum(fields[i].ltype, v) && SoundDatum(fields[i].ltype, v)
    ensures TypedSlots(fields, Choose(fields, slots, i, v)) && SoundSlots(fields, Choose(fields, slots, i, v))
  {
    ChooseTyped(fields, slots, i, v);
    var r := Choose(fields, slots, i, v);
    forall j | 0 <= j < |fields|
      ensures SoundSlot(fields[j], r[j])
    {
      if j == i {
        assert TypedSlot(fields[i], r[i]);
      } else if fields[j].rule.Oneof? && fields[j].rule == fields[i].rule {
        DefaultSound(fields[j]);
      }
    }
  }

  lemma {:induction false} ReadMemberSound(f: Field, b: Bytes, was: Datum)
    requires GoodField(f) && SoundField(f) && TypedDatum(f.ltype, was) && SoundDatum(f.ltype, was) && ReadMember(f, b, was).Got?
    ensures SoundDatum(f.ltype, ReadMember(f, b, was).value)
    decreases f, 0
  {
    ReadDatumSound(f.ltype, b, was, false);
  }

  lemma {:induction false} ReadArraySound(fields: seq<Field>, i: nat, wireType: nat, b: Bytes, slots: seq<Slot>)
    requires GoodDescriptor(fields) && SoundDescriptor(fields) && TypedSlots(fields, slots) && SoundSlots(fields, slots)
    requires i < |fields| && fields[i].rule.Repeated? && ReadArray(fields, i, fields[i].rule.max, wireType, b, slots).Got?
    ensures SoundSlots(fields, ReadArray(fields, i, fields[i].rule.max, wireType, b, slots).value)
    decreases fields[i], 1
  {
    var f := fields[i];
    assert GoodField(f) && SoundField(f) && TypedSlot(f, slots[i]) && SoundSlot(f, slots[i]);
    var items := slots[i].items;
    var r := ReadArray(fields, i, f.rule.max, wireType, b, slots);
    assert TypedSlot(f, r.value[i]);
    if wireType == WT_STRING && f.ltype.Packable() {
      ReadPackedSound(f.ltype, f.rule.max, ReadDelimited(b).value, items);
      PackableSound(f.ltype, r.value[i].items);
    } else {
      DefaultSound(f);
      ReadDatumSound(f.ltype, b, DefaultDatum(f), true);
      AppendSound(f.ltype, items, ReadDatum(f.ltype, b, DefaultDatum(f), true).value);
    }
    UpdateSound(fields, slots, i, r.value[i]);
  }

  lemma PackableSound(t: LType, items: seq<Datum>)
    requires t.Packable() && TypedItems(t, items)
    ensures SoundItems(t, items)
  {
  }

  lemma AppendSound(t: LType, items: seq<Datum>, v: Datum)
    requires TypedItems(t, items) && SoundItems(t, items) && TypedDatum(t, v) && SoundDatum(t, v)
    ensures TypedItems(t, items + [v]) && SoundItems(t, items + [v])
  {
  }

  lemma {:induction false} ReadFieldSound(fields: seq<Field>, i: nat, wireType: nat, b: Bytes, slots: seq<Slot>)
    requires GoodDescriptor(fields) && SoundDescriptor(fields) && TypedSlots(fields, slots) && SoundSlots(fields, slots)
    requires i < |fields| && ReadField(fields, i, wireType, b, slots).Got?
    ensures SoundSlots(fields, ReadField(fields, i, wireType, b, slots).value)
    decreases fields, 0
  {
    var f := fields[i];
    assert GoodField(f) && SoundField(f) && TypedSlot(f, slots[i]) && SoundSlot(f, slots[i]);
    match f.rule
    case Required =>
      ReadMemberSound(f, b, slots[i].v);
      UpdateSound(fields, slots, i, Sole(ReadMember(f, b, slots[i].v).value));
    case Optional =>
      ReadMemberSound(f, b, slots[i].v);
      UpdateSound(fields, slots, i, Maybe(true, ReadMember(f, b, slots[i].v).value));
    case Repeated(_) => ReadArraySound(fields, i, wireType, b, slots);
    case Oneof(_) =>
      DefaultSound(f);
      var was := if f.ltype.Submessage? then DefaultDatum(f) else slots[i].v;
      ReadMemberSound(f, b, was);
      ChooseSound(fields, slots, i, ReadMember(f, b, was).value);
  }

  lemma {:induction false} ReadMessageSound(fields: seq<Field>, b: Bytes, slots: seq<Slot>, seen: set<nat>)
    requires GoodDescriptor(fields) && SoundDescriptor(fields) && TypedSlots(fields, slots) && SoundSlots(fields, slots)
    requires ReadMessage(fields, b, slots, seen).Got?
    ensures SoundSlots(fields, ReadMessage(fields, b, slots, seen).value)
    decreases fields, 1, |b|
  {
    if b != [] && ReadTag(b).TagOf? {
      var g := ReadTag(b);
      match FindTag(fields, g.tag, 0)
      case None => ReadMessageSound(fields, SkipField(g.wireType, g.rest).rest, slots, seen);
      case Some(i) =>
        ReadFieldSound(fields, i, g.wireType, g.rest, slots);
        var r := ReadField(fields, i, g.wireType, g.rest, slots);
        ReadMessageSound(fields, r.rest, r.value, Saw(fields, i, seen));
    }
  }

  /** Any bytes that decode give a message that encodes again, and decoding that encoding gives it back
      exactly. */
  lemma DecodedReencodes(fields: seq<Field>, b: Bytes)
    requires GoodDescriptor(fields) && SoundDescriptor(fields) && Read(fields, b).Got?
    ensures TypedSlots(fields, Read(fields, b).value)
    ensures EncodableSlots(fields, Read(fields, b).value, 0) && SafeSlots(fields, Read(fields, b).value)
    ensures var m := Read(fields, b).value;
            |WireSlots(fields, m, 0)| < TWO32 ==> Read(fields, WireSlots(fields, m, 0)) == Got(m, [])
  {
    DefaultsSound(fields);
    ReadMessageSound(fields, b, Defaults(fields), {});
    var m := Read(fields, b).value;
    SoundEncodes(fields, m);
    SoundCanon(fields, m);
    if |WireSlots(fields, m, 0)| < TWO32 {
      MessageRoundTrip(fields, m);
    }
  }
}

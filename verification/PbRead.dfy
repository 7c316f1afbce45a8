/** What a byte string means to pb_decode: the wire format read back into a struct, as functions on values. */
module PbRead {
  import opened Keys
  import opened Coding
  import opened PbWire
  import opened PbMessage

  // ----- descriptors a generator emits

  /** Distinct nonzero tags within the wire format's 29 bits, and fewer than 32 required fields. */
  predicate GoodDescriptor(fields: seq<Field>)
    decreases fields
  {
    && (forall i :: 0 <= i < |fields| ==> GoodField(fields[i]))
    && (forall i, j :: 0 <= i < j < |fields| ==> fields[i].tag != fields[j].tag)
    && RequiredBefore(fields, |fields|) < 32
  }

  predicate GoodField(f: Field)
    decreases f
  {
    0 < f.tag < 0x2000_0000 && GoodType(f.ltype) && (!f.ltype.Submessage? ==> TypedDatum(f.ltype, f.dflt))
  }

  predicate GoodType(t: LType)
    decreases t
  {
    match t
    case Submessage(fields) => GoodDescriptor(fields)
    case BytesArray(size) => size < TWO32
    case Str(size) => size < TWO32
    case FixedBytes(size) => size < TWO32
    case _ => true
  }

  /** required_field_index: the required fields among the first n. */
  function RequiredBefore(fields: seq<Field>, n: nat): (r: nat)
    requires n <= |fields|
    ensures r <= n
    decreases n
  {
    if n == 0 then 0 else RequiredBefore(fields, n - 1) + if fields[n - 1].rule.Required? then 1 else 0
  }

  // ----- defaults

  function DefaultDatum(f: Field): (v: Datum)
    decreases f, 0
  {
    if f.ltype.Submessage? then Msg(Defaults(f.ltype.fields)) else f.dflt
  }

  function DefaultSlot(f: Field): (s: Slot)
    decreases f, 1
  {
    match f.rule
    case Required => Sole(DefaultDatum(f))
    case Repeated(_) => Many([])
    case _ => Maybe(false, DefaultDatum(f))
  }

  /** pb_message_set_to_defaults */
  function Defaults(fields: seq<Field>): (slots: seq<Slot>)
    decreases fields
  {
    seq(|fields|, i requires 0 <= i < |fields| => DefaultSlot(fields[i]))
  }

  lemma {:induction false} DefaultTyped(f: Field)
    requires GoodField(f)
    ensures TypedDatum(f.ltype, DefaultDatum(f)) && TypedSlot(f, DefaultSlot(f))
    decreases f
  {
    if f.ltype.Submessage? {
      DefaultsTyped(f.ltype.fields);
    }
    assert TypedDatum(f.ltype, DefaultDatum(f));
  }

  lemma {:induction false} DefaultsTyped(fields: seq<Field>)
    requires GoodDescriptor(fields)
    ensures TypedSlots(fields, Defaults(fields))
    decreases fields
  {
    forall i | 0 <= i < |fields|
      ensures TypedSlot(fields[i], Defaults(fields)[i])
    {
      DefaultTyped(fields[i]);
    }
  }

  // ----- tags and unknown fields

  datatype TagResult = Bad | Eof(rest: Bytes) | TagOf(tag: nat, wireType: nat, rest: Bytes)

  /** pb_decode_tag: a zero, or input that ends inside the varint, is the end of the message. */
  function ReadTag(b: Bytes): (r: TagResult)
    ensures r.TagOf? ==> |r.rest| < |b| && r.wireType < 8
    ensures r.Eof? ==> |r.rest| <= |b|
  {
    match Read32(b)
    case Fail(rest) => if rest == [] then Eof(rest) else Bad
    case Got(n, rest) => if n == 0 then Eof(rest) else TagOf(n / 8, n % 8, rest)
  }

  /** A count of bytes to go past. */
  function Past(b: Bytes, n: nat): (r: Parsed<()>)
    ensures |r.rest| <= |b|
  {
    if |b| < n then Fail(b) else Got((), b[n..])
  }

  function SkipVarint(b: Bytes): (r: Parsed<()>)
    ensures |r.rest| <= |b|
  {
    if b == [] then Fail(b) else if b[0] < 128 then Got((), b[1..]) else SkipVarint(b[1..])
  }

  /** pb_skip_field */
  function SkipField(wireType: nat, b: Bytes): (r: Parsed<()>)
    ensures |r.rest| <= |b|
  {
    if wireType == WT_VARINT then SkipVarint(b)
    else if wireType == WT_64BIT then Past(b, 8)
    else if wireType == WT_32BIT then Past(b, 4)
    else if wireType == WT_STRING then
      match Read32(b)
      case Fail(rest) => Fail(rest)
      case Got(n, rest) => Past(rest, n)
    else Fail(b)
  }

  /** The field with this tag, if any, at or after i. */
  function FindTag(fields: seq<Field>, tag: nat, i: nat): (r: Option<nat>)
    ensures r.Some? ==> i <= r.value < |fields| && fields[r.value].tag == tag
    ensures r.None? ==> forall j :: i <= j < |fields| ==> fields[j].tag != tag
    decreases |fields| - i
  {
    if i >= |fields| then None else if fields[i].tag == tag then Some(i) else FindTag(fields, tag, i + 1)
  }

  // ----- values

  /** A C string is what comes before the first zero. */
  function UpToNul(b: Bytes): (r: Bytes)
    ensures |r| <= |b| && NoNul(r)
  {
    if b == [] || b[0] == 0 then [] else [b[0]] + UpToNul(b[1..])
  }

  function Zeros(n: nat): (r: Bytes)
    ensures |r| == n
  {
    seq(n, _ => 0)
  }

  /** pb_dec_varint, pb_dec_uvarint, pb_dec_svarint, pb_dec_fixed32, pb_dec_fixed64: cut to the member's type,
      and refused if that changed the value. */
  function ReadNumber(t: LType, b: Bytes): (r: Parsed<Datum>)
    requires t.Packable()
    ensures |r.rest| <= |b|
    ensures r.Got? ==> |r.rest| < |b| && TypedDatum(t, r.value)
  {
    if t.Fixed32? then
      if |b| < 4 then Fail(b) else UnfixedBound(b[..4]); FixedLimits(); Got(Num(Unfixed(b[..4])), b[4..])
    else if t.Fixed64? then
      if |b| < 8 then Fail(b) else UnfixedBound(b[..8]); FixedLimits(); Got(Num(Unfixed(b[..8])), b[8..])
    else
      match Read64(b)
      case Fail(rest) => Fail(rest)
      case Got(n, rest) =>
        var i := Narrow(t, n);
        if i == Widened(t, n) then Got(Num(i), rest) else Fail(rest)
  }

  /** The value before it is cut to the member's width. */
  function Widened(t: LType, n: nat): (i: int)
    requires (t.VarInt? || t.UVarInt? || t.SVarInt?) && n < TWO64
  {
    match t
    case VarInt(w) => if w.W64? then ToSigned(n, TWO64) else ToSigned(n, TWO32)
    case UVarInt(_) => n
    case SVarInt(_) => UnZigZag(n)
  }

  function Narrow(t: LType, n: nat): (i: int)
    requires (t.VarInt? || t.UVarInt? || t.SVarInt?) && n < TWO64
    ensures TypedDatum(t, Num(i))
  {
    if t.UVarInt? then n % t.width.Modulus() else ToSigned(Widened(t, n), t.width.Modulus())
  }

  /** pb_dec_bytes, pb_dec_string, pb_dec_fixed_length_bytes on the payload that was announced. */
  function TakeRaw(t: LType, p: Bytes): (r: Option<Datum>)
    requires t.BytesArray? || t.Str? || t.FixedBytes?
    ensures r.Some? ==> TypedDatum(t, r.value)
  {
    match t
    case BytesArray(size) => if |p| + BYTES_OFFSET > size then None else Some(Raw(p))
    case Str(size) => if |p| + 1 > size then None else Some(Raw(UpToNul(p)))
    case FixedBytes(size) => if p == [] then Some(Raw(Zeros(size))) else if |p| != size then None else Some(Raw(p))
  }

  /** PB_DECODERS: the struct member at `was`, read from the front of b; `init` for a new array entry. */
  ghost function ReadDatum(t: LType, b: Bytes, was: Datum, init: bool): (r: Parsed<Datum>)
    requires GoodType(t) && TypedDatum(t, was)
    ensures |r.rest| <= |b|
    ensures r.Got? ==> TypedDatum(t, r.value) && |r.rest| < |b|
    decreases t, 0
  {
    if t.Packable() then ReadNumber(t, b)
    else match ReadDelimited(b)
         case Fail(rest) => Fail(rest)
         case Got(p, rest) =>
           if t.Submessage? then
             DefaultsTyped(t.fields);
             match ReadMessage(t.fields, p, if init then Defaults(t.fields) else was.slots, {})
             case Fail(_) => Fail(rest)
             case Got(slots, _) => Got(Msg(slots), rest)
           else
             match TakeRaw(t, p)
             case None => Fail(rest)
             case Some(v) => Got(v, rest)
  }

  /** The item loop of a packed array: every byte of the payload must go into an item. */
  function ReadPacked(t: LType, max: nat, b: Bytes, items: seq<Datum>): (r: Option<seq<Datum>>)
    requires t.Packable() && TypedItems(t, items)
    ensures r.Some? ==> TypedItems(t, r.value)
    decreases |b|
  {
    if b == [] then Some(items)
    else if |items| >= max then None
    else match ReadNumber(t, b)
         case Fail(_) => None
         case Got(v, rest) => ReadPacked(t, max, rest, items + [v])
  }

  /** Setting which_ to field i's tag leaves every other member of the union unchosen. */
  function Choose(fields: seq<Field>, slots: seq<Slot>, i: nat, v: Datum): (r: seq<Slot>)
    requires i < |fields| == |slots|
    ensures |r| == |slots|
  {
    seq(|slots|, j requires 0 <= j < |slots| =>
      if j == i then Maybe(true, v)
      else if fields[j].rule.Oneof? && fields[j].rule == fields[i].rule then DefaultSlot(fields[j])
      else slots[j])
  }

  lemma ChooseTyped(fields: seq<Field>, slots: seq<Slot>, i: nat, v: Datum)
    requires GoodDescriptor(fields) && TypedSlots(fields, slots) && i < |fields| && fields[i].rule.Oneof? && TypedDatum(fields[i].ltype, v)
    ensures TypedSlots(fields, Choose(fields, slots, i, v))
  {
    forall j | 0 <= j < |fields|
      ensures TypedSlot(fields[j], Choose(fields, slots, i, v)[j])
    {
      if j != i && fields[j].rule.Oneof? && fields[j].rule == fields[i].rule {
        DefaultTyped(fields[j]);
      }
    }
  }

  lemma UpdateTyped(fields: seq<Field>, slots: seq<Slot>, i: nat, s: Slot)
    requires TypedSlots(fields, slots) && i < |fields| && TypedSlot(fields[i], s)
    ensures TypedSlots(fields, slots[i := s])
  {
  }

  lemma ArrayTyped(f: Field, items: seq<Datum>, v: Datum)
    requires f.rule.Repeated? && TypedItems(f.ltype, items) && TypedDatum(f.ltype, v)
    ensures TypedSlot(f, Many(items + [v]))
  {
    assert TypedItems(f.ltype, items + [v]);
  }

  /** The member of a field that is not an array. */
  ghost function ReadMember(f: Field, b: Bytes, was: Datum): (r: Parsed<Datum>)
    requires GoodField(f) && TypedDatum(f.ltype, was)
    ensures |r.rest| <= |b|
    ensures r.Got? ==> TypedDatum(f.ltype, r.value)
    decreases f, 0
  {
    ReadDatum(f.ltype, b, was, false)
  }

  /** decode_static_field: the wire type matters only for packed arrays. */
  ghost function ReadField(fields: seq<Field>, i: nat, wireType: nat, b: Bytes, slots: seq<Slot>): (r: Parsed<seq<Slot>>)
    requires GoodDescriptor(fields) && TypedSlots(fields, slots) && i < |fields|
    ensures |r.rest| <= |b|
    ensures r.Got? ==> TypedSlots(fields, r.value)
    decreases fields, 0
  {
    var f := fields[i];
    assert TypedSlot(f, slots[i]) && GoodField(f);
    match f.rule
    case Required =>
      (match ReadMember(f, b, slots[i].v)
       case Fail(rest) => Fail(rest)
       case Got(v, rest) => UpdateTyped(fields, slots, i, Sole(v)); Got(slots[i := Sole(v)], rest))
    case Optional =>
      (match ReadMember(f, b, slots[i].v)
       case Fail(rest) => Fail(rest)
       case Got(v, rest) => UpdateTyped(fields, slots, i, Maybe(true, v)); Got(slots[i := Maybe(true, v)], rest))
    case Repeated(max) => ReadArray(fields, i, max, wireType, b, slots)
    case Oneof(_) =>
      DefaultTyped(f);
      (match ReadMember(f, b, if f.ltype.Submessage? then DefaultDatum(f) else slots[i].v)
       case Fail(rest) => Fail(rest)
       case Got(v, rest) => ChooseTyped(fields, slots, i, v); Got(Choose(fields, slots, i, v), rest))
  }

  ghost function ReadArray(fields: seq<Field>, i: nat, max: nat, wireType: nat, b: Bytes, slots: seq<Slot>): (r: Parsed<seq<Slot>>)
    requires GoodDescriptor(fields) && TypedSlots(fields, slots) && i < |fields| && fields[i].rule == Repeated(max)
    ensures |r.rest| <= |b|
    ensures r.Got? ==> TypedSlots(fields, r.value)
    decreases fields[i], 0
  {
    var f := fields[i];
    assert TypedSlot(f, slots[i]) && GoodField(f);
    var items := slots[i].items;
    if wireType == WT_STRING && f.ltype.Packable() then
      match ReadDelimited(b)
      case Fail(rest) => Fail(rest)
      case Got(p, rest) =>
        match ReadPacked(f.ltype, max, p, items)
        case None => Fail(rest)
        case Some(items') => UpdateTyped(fields, slots, i, Many(items')); Got(slots[i := Many(items')], rest)
    else if |items| >= max then Fail(b)
    else
      DefaultTyped(f);
      match ReadDatum(f.ltype, b, DefaultDatum(f), true)
      case Fail(rest) => Fail(rest)
      case Got(v, rest) => ArrayTyped(f, items, v); UpdateTyped(fields, slots, i, Many(items + [v])); Got(slots[i := Many(items + [v])], rest)
  }

  ghost predicate AllSeen(fields: seq<Field>, seen: set<nat>) {
    forall i :: 0 <= i < |fields| && fields[i].rule.Required? ==> i in seen
  }

  /** pb_decode_noinit: field after field until the input or the message ends, then the required fields. */
  ghost function ReadMessage(fields: seq<Field>, b: Bytes, slots: seq<Slot>, seen: set<nat>): (r: Parsed<seq<Slot>>)
    requires GoodDescriptor(fields) && TypedSlots(fields, slots)
    ensures |r.rest| <= |b|
    ensures r.Got? ==> TypedSlots(fields, r.value)
    decreases fields, 1, |b|
  {
    if b == [] then Finish(fields, b, slots, seen)
    else match ReadTag(b)
         case Bad => Fail(b)
         case Eof(rest) => Finish(fields, rest, slots, seen)
         case TagOf(tag, wireType, rest) =>
           // an empty message's iterator stands on the terminator, which field number zero matches
           if fields == [] && tag == 0 then Fail(rest)
           else match FindTag(fields, tag, 0)
           case None =>
             (match SkipField(wireType, rest)
              case Fail(rest') => Fail(rest')
              case Got(_, rest') => ReadMessage(fields, rest', slots, seen))
           case Some(i) =>
             (match ReadField(fields, i, wireType, rest, slots)
              case Fail(rest') => Fail(rest')
              case Got(slots', rest') => ReadMessage(fields, rest', slots', Saw(fields, i, seen)))
  }

  ghost function Finish(fields: seq<Field>, rest: Bytes, slots: seq<Slot>, seen: set<nat>): (r: Parsed<seq<Slot>>) {
    if AllSeen(fields, seen) then Got(slots, rest) else Fail(rest)
  }

  function Saw(fields: seq<Field>, i: nat, seen: set<nat>): (r: set<nat>)
    requires i < |fields|
  {
    if fields[i].rule.Required? then seen + {i} else seen
  }

  /** pb_decode */
  ghost function Read(fields: seq<Field>, b: Bytes): (r: Parsed<seq<Slot>>)
    requires GoodDescriptor(fields)
  {
    DefaultsTyped(fields);
    ReadMessage(fields, b, Defaults(fields), {})
  }
}

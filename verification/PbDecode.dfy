/** pb_decode: streams that are windows on a buffer, the field iterator, and the decoding loops. */
module PbDecode {
  import opened Keys
  import opened Coding
  import opened PbWire
  import opened PbMessage
  import opened PbRead
  import opened PbRecords

  // ----- pb_istream_t

  class IStream {
    const buf: Bytes
    var pos: nat
    var left: nat

    constructor (buf: Bytes, pos: nat, left: nat)
      requires pos + left <= |buf|
      ensures this.buf == buf && this.pos == pos && this.left == left && Valid()
    {
      this.buf, this.pos, this.left := buf, pos, left;
    }

    ghost predicate Valid() reads this { pos + left <= |buf| }

    ghost function Rest(): Bytes
      requires Valid()
      reads this
    {
      buf[pos..pos + left]
    }

    /** Where the window ends, which no read changes. */
    ghost function End(): nat reads this { pos + left }

    method ReadByte() returns (ok: bool, b: Byte)
      requires Valid()
      modifies this
      ensures Valid() && End() == old(End())
      ensures ok <==> old(Rest()) != []
      ensures ok ==> b == old(Rest())[0] && Rest() == old(Rest())[1..]
      ensures !ok ==> Rest() == old(Rest())
    {
      if left == 0 {
        return false, 0;
      }
      b := buf[pos];
      pos := pos + 1;
      left := left - 1;
      ok := true;
    }

    /** pb_read */
    method Take(n: nat) returns (ok: bool, b: Bytes)
      requires Valid()
      modifies this
      ensures Valid() && End() == old(End())
      ensures ok <==> n <= |old(Rest())|
      ensures ok ==> b == old(Rest())[..n] && Rest() == old(Rest())[n..]
      ensures !ok ==> Rest() == old(Rest())
    {
      if left < n {
        return false, [];
      }
      b := buf[pos..pos + n];
      pos := pos + n;
      left := left - n;
      ok := true;
    }
  }

  // ----- varints

  /** n shifted left by k groups of seven bits. */
  function Shifted(n: nat, k: nat): (r: nat) { n * Pow128(k) }

  lemma ShiftedParts(low: nat, v: nat, k: nat)
    ensures Shifted(low + 128 * v, k) == Shifted(low, k) + Shifted(v, k + 1)
  {
    var p := Pow128(k);
    assert Pow128(k + 1) == 128 * p;
    assert (low + 128 * v) * p == low * p + v * (128 * p);
  }

  /** A read of the bytes still to come, given what `k` bytes before them amount to. */
  function Onto(r: Parsed<nat>, acc: nat, k: nat): (t: Parsed<nat>) {
    match r
    case Fail(rest) => Fail(rest)
    case Got(v, rest) => Got(acc + Shifted(v, k), rest)
  }

  lemma OntoLast(b: Bytes, max: nat, acc: nat, k: nat)
    requires b != [] && max > 0 && b[0] < 128
    ensures Onto(ReadVarint(b, max), acc, k) == Got(acc + Shifted(b[0], k), b[1..])
  {
  }

  lemma OntoMore(b: Bytes, max: nat, acc: nat, k: nat, low: nat)
    requires b != [] && max > 0 && b[0] >= 128 && low == b[0] - 128
    ensures Onto(ReadVarint(b, max), acc, k) == Onto(ReadVarint(b[1..], max - 1), acc + Shifted(low, k), k + 1)
  {
    var r := ReadVarint(b[1..], max - 1);
    if r.Got? {
      ShiftedParts(low, r.value, k);
    }
  }

  lemma OntoStart(r: Parsed<nat>)
    ensures Onto(r, 0, 0) == r
  {
  }

  /** The loop of pb_decode_varint and pb_decode_varint32: `bytes` groups of seven bits at most. The sum is exact;
      callers cut it to their width. */
  method VarintLoop(s: IStream, bytes: nat) returns (ok: bool, value: nat)
    requires s.Valid()
    modifies s
    ensures s.Valid() && s.End() == old(s.End())
    ensures ok == ReadVarint(old(s.Rest()), bytes).Got? && s.Rest() == ReadVarint(old(s.Rest()), bytes).rest
    ensures ok ==> value == ReadVarint(old(s.Rest()), bytes).value
  {
    value := 0;
    var k := 0;
    ghost var whole := ReadVarint(s.Rest(), bytes);
    OntoStart(whole);
    while k < bytes
      invariant 0 <= k <= bytes && s.Valid() && s.End() == old(s.End())
      invariant Onto(ReadVarint(s.Rest(), bytes - k), value, k) == whole
    {
      ghost var rest := s.Rest();
      var b;
      ok, b := s.ReadByte();
      if !ok {
        return;
      }
      if b < 128 {
        OntoLast(rest, bytes - k, value, k);
        return true, value + Shifted(b, k);
      }
      var low: nat := b - 128;
      OntoMore(rest, bytes - k, value, k, low);
      value := value + Shifted(low, k);
      k := k + 1;
    }
    ok := false;
  }

  method DecodeVarint32(s: IStream) returns (ok: bool, value: nat)
    requires s.Valid()
    modifies s
    ensures s.Valid() && s.End() == old(s.End())
    ensures ok == Read32(old(s.Rest())).Got? && s.Rest() == Read32(old(s.Rest())).rest
    ensures ok ==> value == Read32(old(s.Rest())).value
  {
    ok, value := VarintLoop(s, 5);
    value := value % TWO32;
  }

  method DecodeVarint(s: IStream) returns (ok: bool, value: nat)
    requires s.Valid()
    modifies s
    ensures s.Valid() && s.End() == old(s.End())
    ensures ok == Read64(old(s.Rest())).Got? && s.Rest() == Read64(old(s.Rest())).rest
    ensures ok ==> value == Read64(old(s.Rest())).value
  {
    ok, value := VarintLoop(s, 10);
    value := value % TWO64;
  }

  // ----- tags, unknown fields, substreams

  method DecodeTag(s: IStream) returns (ok: bool, wireType: nat, tag: nat, eof: bool)
    requires s.Valid()
    modifies s
    ensures s.Valid() && s.End() == old(s.End())
    ensures ok ==> ReadTag(old(s.Rest())) == TagOf(tag, wireType, s.Rest())
    ensures !ok && eof ==> ReadTag(old(s.Rest())) == Eof(s.Rest())
    ensures !ok && !eof ==> ReadTag(old(s.Rest())) == Bad
  {
    var temp;
    eof, wireType, tag := false, 0, 0;
    ok, temp := DecodeVarint32(s);
    if !ok {
      eof := s.left == 0;
      return;
    }
    if temp == 0 {
      return false, 0, 0, true;
    }
    tag, wireType := temp / 8, temp % 8;
  }

  method SkipVarintBytes(s: IStream) returns (ok: bool)
    requires s.Valid()
    modifies s
    ensures s.Valid() && s.End() == old(s.End())
    ensures ok == SkipVarint(old(s.Rest())).Got?
    ensures ok ==> s.Rest() == SkipVarint(old(s.Rest())).rest
  {
    while true
      invariant s.Valid() && s.End() == old(s.End()) && SkipVarint(s.Rest()) == SkipVarint(old(s.Rest()))
      decreases s.left
    {
      var b;
      ok, b := s.ReadByte();
      if !ok || b < 128 {
        return;
      }
    }
  }

  method Skip(s: IStream, wireType: nat) returns (ok: bool)
    requires s.Valid()
    modifies s
    ensures s.Valid() && s.End() == old(s.End())
    ensures ok == SkipField(wireType, old(s.Rest())).Got?
    ensures ok ==> s.Rest() == SkipField(wireType, old(s.Rest())).rest
  {
    var n;
    var dropped;
    if wireType == WT_VARINT {
      ok := SkipVarintBytes(s);
    } else if wireType == WT_64BIT {
      ok, dropped := s.Take(8);
    } else if wireType == WT_STRING {
      ok, n := DecodeVarint32(s);
      if ok {
        ok, dropped := s.Take(n);
      }
    } else if wireType == WT_32BIT {
      ok, dropped := s.Take(4);
    } else {
      ok := false;
    }
  }

  /** pb_make_string_substream: the parent's window already ends after the payload, but still starts before it. */
  method MakeSubstream(s: IStream) returns (ok: bool, sub: IStream)
    requires s.Valid()
    modifies s
    ensures s.Valid() && s.End() <= old(s.End())
    ensures ok == ReadDelimited(old(s.Rest())).Got?
    ensures fresh(sub) && sub.Valid() && sub.buf == s.buf
    ensures ok ==> sub.Rest() == ReadDelimited(old(s.Rest())).value
    ensures ok ==> sub.End() + s.left == old(s.End()) && s.buf[sub.End()..old(s.End())] == ReadDelimited(old(s.Rest())).rest
  {
    var size;
    ok, size := DecodeVarint32(s);
    if !ok || s.left < size {
      sub := new IStream(s.buf, s.pos, 0);
      return false, sub;
    }
    sub := new IStream(s.buf, s.pos, size);
    s.left := s.left - size;
  }

  /** pb_close_string_substream: the rest of the payload is dropped and the parent moves past it. */
  method CloseSubstream(s: IStream, sub: IStream) returns (ok: bool)
    requires s != sub && sub.Valid() && sub.buf == s.buf && sub.End() + s.left <= |s.buf|
    modifies s, sub
    ensures ok && s.Valid() && s.pos == old(sub.End()) && s.left == old(s.left)
  {
    ok := true;
    if sub.left > 0 {
      var dropped;
      ok, dropped := sub.Take(sub.left);
    }
    s.pos := sub.pos;
  }

  // ----- pb_field_iter_t

  class FieldIter {
    const fields: seq<Field>
    var pos: nat
    var required: nat

    constructor (fields: seq<Field>)
      ensures this.fields == fields && pos == 0 && Valid()
    {
      this.fields, pos, required := fields, 0, 0;
    }

    ghost predicate Valid() reads this {
      && (if fields == [] then pos == 0 else pos < |fields|)
      && pos <= |fields| && required == RequiredBefore(fields, pos)
    }

    /** False when it wraps around to the first field. */
    method Next() returns (more: bool)
      requires Valid()
      modifies this
      ensures Valid()
      ensures more <==> old(pos) + 1 < |fields|
      ensures pos == if more then old(pos) + 1 else 0
    {
      if fields == [] {
        return false;
      }
      var wasRequired := fields[pos].rule.Required?;
      pos := pos + 1;
      if pos == |fields| {
        pos, required := 0, 0;
        return false;
      }
      if wasRequired {
        required := required + 1;
      }
      return true;
    }

    /** Goes round from where it stands, at most once. */
    method Find(tag: nat) returns (found: bool)
      requires Valid() && fields != []
      modifies this
      ensures Valid()
      ensures found <==> exists i :: 0 <= i < |fields| && fields[i].tag == tag
      ensures found ==> fields[pos].tag == tag
    {
      var start := pos;
      ghost var wrapped := false;
      while true
        invariant Valid()
        invariant if wrapped then pos < start && (forall j :: start <= j < |fields| ==> fields[j].tag != tag) && (forall j :: 0 <= j < pos ==> fields[j].tag != tag)
                  else pos >= start && (forall j :: start <= j < pos ==> fields[j].tag != tag)
        decreases !wrapped, |fields| - pos
      {
        if fields[pos].tag == tag {
          return true;
        }
        var more := Next();
        if !more {
          wrapped := true;
        }
        if pos == start {
          return false;
        }
      }
    }

    /** Seeks to the end, counting required fields; the last field's own count comes in at the end. */
    method CountRequired() returns (count: nat)
      requires Valid()
      modifies this
      ensures Valid() && count == RequiredBefore(fields, |fields|)
    {
      var more, lastRequired := true, false;
      ghost var last: nat := pos;
      count := 0;
      while more
        invariant Valid()
        invariant if more then pos <= |fields| else
                    last + 1 >= |fields| && last <= |fields| && count == RequiredBefore(fields, last) && (fields != [] ==> last < |fields| && lastRequired == fields[last].rule.Required?)
        decreases more, |fields| - pos
      {
        count := required;
        last := pos;
        lastRequired := fields != [] && fields[pos].rule.Required?;
        more := Next();
      }
      if fields != [] && lastRequired {
        count := count + 1;
      }
    }
  }

  // ----- the required-field bitmap

  /** fields_seen, with fewer than 32 required fields: one word. */
  type Word = w: seq<bool> | |w| == 32 witness seq(32, _ => false)

  /** The word's bits are the required fields seen. */
  ghost predicate Records(fields: seq<Field>, seen: set<nat>, word: Word) {
    && (forall i :: i in seen ==> i < |fields| && fields[i].rule.Required?)
    && (forall b :: 0 <= b < 32 ==> (word[b] <==> exists i :: i in seen && i < |fields| && RequiredBefore(fields, i) == b))
  }

  lemma {:induction false} RequiredGrows(fields: seq<Field>, i: nat, j: nat)
    requires i < j <= |fields| && fields[i].rule.Required?
    ensures RequiredBefore(fields, i) < RequiredBefore(fields, j)
    decreases j
  {
    if i + 1 < j {
      RequiredGrows(fields, i, j - 1);
    }
  }

  lemma {:induction false} RequiredOnto(fields: seq<Field>, n: nat, b: nat) returns (i: nat)
    requires n <= |fields| && b < RequiredBefore(fields, n)
    ensures i < n && fields[i].rule.Required? && RequiredBefore(fields, i) == b
  {
    if fields[n - 1].rule.Required? && RequiredBefore(fields, n - 1) == b {
      i := n - 1;
    } else {
      i := RequiredOnto(fields, n - 1, b);
    }
  }

  lemma RequiredIndexUnique(fields: seq<Field>, i: nat, j: nat)
    requires i < |fields| && j < |fields| && fields[i].rule.Required? && fields[j].rule.Required?
    requires RequiredBefore(fields, i) == RequiredBefore(fields, j)
    ensures i == j
  {
    if i < j {
      RequiredGrows(fields, i, j);
    } else if j < i {
      RequiredGrows(fields, j, i);
    }
  }

  /** allbits >> (32 - count), for 0 < count < 32. */
  function Mask(count: nat): (w: Word) { seq(32, b => b < count) }

  /** The last word of the bitmap is the mask exactly when every required field was seen. */
  lemma MaskMeansAllSeen(fields: seq<Field>, seen: set<nat>, word: Word, count: nat)
    requires Records(fields, seen, word) && count == RequiredBefore(fields, |fields|) < 32
    ensures AllSeen(fields, seen) <==> word == Mask(count)
  {
    if word == Mask(count) {
      forall i | 0 <= i < |fields| && fields[i].rule.Required?
        ensures i in seen
      {
        RequiredGrows(fields, i, |fields|);
        var b := RequiredBefore(fields, i);
        assert word[b];
        var j :| j in seen && j < |fields| && RequiredBefore(fields, j) == b;
        RequiredIndexUnique(fields, i, j);
      }
    }
    if AllSeen(fields, seen) {
      forall b | 0 <= b < 32
        ensures word[b] == Mask(count)[b]
      {
        if b < count {
          var i := RequiredOnto(fields, |fields|, b);
        } else if word[b] {
          var i :| i in seen && i < |fields| && RequiredBefore(fields, i) == b;
          RequiredGrows(fields, i, |fields|);
        }
      }
    }
  }

  lemma SawRecords(fields: seq<Field>, seen: set<nat>, word: Word, i: nat)
    requires Records(fields, seen, word) && i < |fields| && fields[i].rule.Required? && RequiredBefore(fields, i) < 32
    ensures Records(fields, Saw(fields, i, seen), word[RequiredBefore(fields, i) := true])
  {
    var word' := word[RequiredBefore(fields, i) := true];
    var seen' := Saw(fields, i, seen);
    forall b | 0 <= b < 32
      ensures word'[b] <==> exists j :: j in seen' && j < |fields| && RequiredBefore(fields, j) == b
    {
      if b == RequiredBefore(fields, i) {
        assert i in seen';
      } else if word[b] {
        var j :| j in seen && j < |fields| && RequiredBefore(fields, j) == b;
        assert j in seen';
      }
    }
  }

  // ----- decoding

  method DecodeNumber(s: IStream, t: LType) returns (ok: bool, v: Datum)
    requires s.Valid() && t.Packable()
    modifies s
    ensures s.Valid() && s.End() == old(s.End())
    ensures ok == ReadNumber(t, old(s.Rest())).Got?
    ensures ok ==> ReadNumber(t, old(s.Rest())) == Got(v, s.Rest())
  {
    v := Num(0);
    if t.Fixed32? || t.Fixed64? {
      var b;
      ok, b := s.Take(if t.Fixed32? then 4 else 8);
      if ok {
        v := Num(Unfixed(b));
      }
    } else {
      var n;
      ok, n := DecodeVarint(s);
      if ok {
        v := Num(Narrow(t, n));
        ok := Narrow(t, n) == Widened(t, n);
      }
    }
  }

  method DecodeRaw(s: IStream, t: LType) returns (ok: bool, v: Datum)
    requires s.Valid() && (t.BytesArray? || t.Str? || t.FixedBytes?)
    modifies s
    ensures s.Valid() && s.End() == old(s.End())
    ensures ok ==> ReadDelimited(old(s.Rest())).Got? && TakeRaw(t, ReadDelimited(old(s.Rest())).value) == Some(v) && s.Rest() == ReadDelimited(old(s.Rest())).rest
    ensures !ok ==> ReadDelimited(old(s.Rest())).Fail? || TakeRaw(t, ReadDelimited(old(s.Rest())).value).None?
  {
    var size, b;
    v := Raw([]);
    ok, size := DecodeVarint32(s);
    if !ok {
      return;
    }
    match t
    case BytesArray(max) =>
      if size + BYTES_OFFSET > max {
        return false, v;
      }
      ok, b := s.Take(size);
      v := Raw(b);
    case Str(max) =>
      if size + 1 > max {
        return false, v;
      }
      ok, b := s.Take(size);
      v := Raw(UpToNul(b));
    case FixedBytes(max) =>
      if size == 0 {
        return true, Raw(Zeros(max));
      }
      if size != max {
        return false, v;
      }
      ok, b := s.Take(size);
      v := Raw(b);
  }

  /** PB_DECODERS */
  method DecodeDatum(s: IStream, t: LType, was: Datum, init: bool) returns (ok: bool, v: Datum)
    requires s.Valid() && GoodType(t) && TypedDatum(t, was)
    modifies s
    ensures s.Valid() && s.End() <= old(s.End())
    ensures ok == ReadDatum(t, old(s.Rest()), was, init).Got?
    ensures ok ==> ReadDatum(t, old(s.Rest()), was, init) == Got(v, s.Rest()) && s.End() == old(s.End())
    decreases t, 0
  {
    if t.Packable() {
      ok, v := DecodeNumber(s, t);
    } else if t.Submessage? {
      ok, v := DecodeSubmessage(s, t, was, init);
    } else {
      ok, v := DecodeRaw(s, t);
    }
  }

  method DecodeSubmessage(s: IStream, t: LType, was: Datum, init: bool) returns (ok: bool, v: Datum)
    requires s.Valid() && t.Submessage? && GoodType(t) && TypedDatum(t, was)
    modifies s
    ensures s.Valid() && s.End() <= old(s.End())
    ensures ok == ReadDatum(t, old(s.Rest()), was, init).Got?
    ensures ok ==> ReadDatum(t, old(s.Rest()), was, init) == Got(v, s.Rest()) && s.End() == old(s.End())
    decreases t.fields, 3
  {
    var sub, slots;
    v := was;
    ok, sub := MakeSubstream(s);
    if !ok {
      return;
    }
    DefaultsTyped(t.fields);
    ok, slots := DecodeNoinit(sub, t.fields, if init then Defaults(t.fields) else was.slots);
    var closed := CloseSubstream(s, sub);
    ok := ok && closed;
    v := Msg(slots);
  }

  /** The loop of a packed array. */
  method DecodePayload(s: IStream, t: LType, max: nat, items: seq<Datum>) returns (ok: bool, r: seq<Datum>)
    requires s.Valid() && t.Packable() && TypedItems(t, items)
    modifies s
    ensures s.Valid() && s.End() == old(s.End())
    ensures ok == ReadPacked(t, max, old(s.Rest()), items).Some?
    ensures ok ==> ReadPacked(t, max, old(s.Rest()), items) == Some(r)
  {
    r := items;
    while s.left > 0 && |r| < max
      invariant s.Valid() && s.End() == old(s.End()) && TypedItems(t, r)
      invariant ReadPacked(t, max, s.Rest(), r) == ReadPacked(t, max, old(s.Rest()), items)
      decreases s.left
    {
      var v;
      ok, v := DecodeNumber(s, t);
      if !ok {
        return;
      }
      r := r + [v];
    }
    ok := s.left == 0;
  }

  method DecodeArray(s: IStream, fields: seq<Field>, i: nat, wireType: nat, slots: seq<Slot>) returns (ok: bool, r: seq<Slot>)
    requires s.Valid() && GoodDescriptor(fields) && TypedSlots(fields, slots) && i < |fields| && fields[i].rule.Repeated?
    modifies s
    ensures s.Valid() && s.End() <= old(s.End())
    ensures ok == ReadArray(fields, i, fields[i].rule.max, wireType, old(s.Rest()), slots).Got?
    ensures ok ==> ReadArray(fields, i, fields[i].rule.max, wireType, old(s.Rest()), slots) == Got(r, s.Rest()) && s.End() == old(s.End())
    decreases fields[i], 0
  {
    var f := fields[i];
    assert TypedSlot(f, slots[i]) && GoodField(f);
    var items := slots[i].items;
    r := slots;
    if wireType == WT_STRING && f.ltype.Packable() {
      var sub, items';
      ok, sub := MakeSubstream(s);
      if !ok {
        return;
      }
      ok, items' := DecodePayload(sub, f.ltype, f.rule.max, items);
      if !ok {
        return;
      }
      ok := CloseSubstream(s, sub);
      r := slots[i := Many(items')];
    } else {
      if |items| >= f.rule.max {
        return false, slots;
      }
      DefaultTyped(f);
      var v;
      ok, v := DecodeDatum(s, f.ltype, DefaultDatum(f), true);
      r := slots[i := Many(items + [v])];
    }
  }

  method DecodeMember(s: IStream, f: Field, was: Datum) returns (ok: bool, v: Datum)
    requires s.Valid() && GoodField(f) && TypedDatum(f.ltype, was)
    modifies s
    ensures s.Valid() && s.End() <= old(s.End())
    ensures ok == ReadMember(f, old(s.Rest()), was).Got?
    ensures ok ==> ReadMember(f, old(s.Rest()), was) == Got(v, s.Rest()) && s.End() == old(s.End())
    decreases f, 0
  {
    ok, v := DecodeDatum(s, f.ltype, was, false);
  }

  /** decode_static_field */
  method DecodeField(s: IStream, fields: seq<Field>, i: nat, wireType: nat, slots: seq<Slot>) returns (ok: bool, r: seq<Slot>)
    requires s.Valid() && GoodDescriptor(fields) && TypedSlots(fields, slots) && i < |fields|
    modifies s
    ensures s.Valid() && s.End() <= old(s.End())
    ensures ok == ReadField(fields, i, wireType, old(s.Rest()), slots).Got?
    ensures ok ==> ReadField(fields, i, wireType, old(s.Rest()), slots) == Got(r, s.Rest()) && s.End() == old(s.End())
    decreases fields, 0
  {
    var f := fields[i];
    assert TypedSlot(f, slots[i]) && GoodField(f);
    var v;
    match f.rule
    case Required =>
      ok, v := DecodeMember(s, f, slots[i].v);
      r := slots[i := Sole(v)];
    case Optional =>
      ok, v := DecodeMember(s, f, slots[i].v);
      r := slots[i := Maybe(true, v)];
    case Repeated(_) =>
      ok, r := DecodeArray(s, fields, i, wireType, slots);
    case Oneof(_) =>
      DefaultTyped(f);
      ok, v := DecodeMember(s, f, if f.ltype.Submessage? then DefaultDatum(f) else slots[i].v);
      r := Choose(fields, slots, i, v);
  }

  lemma FoundIsUnique(fields: seq<Field>, i: nat, tag: nat)
    requires GoodDescriptor(fields) && i < |fields| && fields[i].tag == tag
    ensures FindTag(fields, tag, 0) == Some(i)
  {
    var r := FindTag(fields, tag, 0);
    assert r.Some? && fields[r.value].tag == fields[i].tag;
  }

  lemma FewRequired(fields: seq<Field>, i: nat)
    requires GoodDescriptor(fields) && i < |fields| && fields[i].rule.Required?
    ensures RequiredBefore(fields, i) < 32
  {
    RequiredGrows(fields, i, |fields|);
  }

  lemma NoneRequired(fields: seq<Field>, seen: set<nat>)
    requires RequiredBefore(fields, |fields|) == 0
    ensures AllSeen(fields, seen)
  {
    forall i | 0 <= i < |fields|
      ensures !fields[i].rule.Required?
    {
      if fields[i].rule.Required? {
        RequiredGrows(fields, i, |fields|);
      }
    }
  }

  /** The check after the loop. */
  method CheckRequired(iter: FieldIter, ghost seen: set<nat>, word: Word) returns (ok: bool)
    requires iter.Valid() && GoodDescriptor(iter.fields) && Records(iter.fields, seen, word)
    modifies iter
    ensures ok == AllSeen(iter.fields, seen)
  {
    var count := iter.CountRequired();
    if count > 0 {
      MaskMeansAllSeen(iter.fields, seen, word, count);
      return word == Mask(count);
    }
    NoneRequired(iter.fields, seen);
    return true;
  }

  /** What the loop body does after a tag: the field is found and read, or skipped. */
  ghost function AfterTag(fields: seq<Field>, tag: nat, wireType: nat, b: Bytes, slots: seq<Slot>): (r: Parsed<seq<Slot>>)
    requires GoodDescriptor(fields) && TypedSlots(fields, slots)
    ensures |r.rest| <= |b|
    ensures r.Got? ==> TypedSlots(fields, r.value)
  {
    if fields == [] && tag == 0 then Fail(b)
    else match FindTag(fields, tag, 0)
         case None => (match SkipField(wireType, b) case Fail(rest) => Fail(rest) case Got(_, rest) => Got(slots, rest))
         case Some(i) => ReadField(fields, i, wireType, b, slots)
  }

  ghost function SawTag(fields: seq<Field>, tag: nat, seen: set<nat>): set<nat> {
    match FindTag(fields, tag, 0) case None => seen case Some(i) => Saw(fields, i, seen)
  }

  lemma LoopStep(fields: seq<Field>, b: Bytes, slots: seq<Slot>, seen: set<nat>)
    requires GoodDescriptor(fields) && TypedSlots(fields, slots) && b != [] && ReadTag(b).TagOf?
    ensures var g := ReadTag(b);
            var r := AfterTag(fields, g.tag, g.wireType, g.rest, slots);
            if r.Got? then ReadMessage(fields, b, slots, seen) == ReadMessage(fields, r.rest, r.value, SawTag(fields, g.tag, seen))
            else ReadMessage(fields, b, slots, seen).Fail?
  {
  }

  method HandleField(s: IStream, iter: FieldIter, tag: nat, wireType: nat, slots: seq<Slot>, ghost seen: set<nat>, word: Word)
    returns (ok: bool, r: seq<Slot>, word': Word)
    requires s.Valid() && iter.Valid() && GoodDescriptor(iter.fields) && TypedSlots(iter.fields, slots) && Records(iter.fields, seen, word)
    modifies s, iter
    ensures s.Valid() && s.End() <= old(s.End()) && iter.Valid()
    ensures ok == AfterTag(iter.fields, tag, wireType, old(s.Rest()), slots).Got?
    ensures ok ==> AfterTag(iter.fields, tag, wireType, old(s.Rest()), slots) == Got(r, s.Rest()) && s.End() == old(s.End())
    ensures Records(iter.fields, SawTag(iter.fields, tag, seen), word')
    decreases iter.fields, 1
  {
    r, word' := slots, word;
    var found := tag == 0;
    if iter.fields != [] {
      found := iter.Find(tag);
    } else if found {
      return false, slots, word;
    }
    if !found {
      ok := Skip(s, wireType);
      return;
    }
    FoundIsUnique(iter.fields, iter.pos, tag);
    if iter.fields[iter.pos].rule.Required? {
      FewRequired(iter.fields, iter.pos);
      SawRecords(iter.fields, seen, word, iter.pos);
      word' := word[iter.required := true];
    }
    ok, r := DecodeField(s, iter.fields, iter.pos, wireType, slots);
  }

  /** pb_decode_noinit */
  method DecodeNoinit(s: IStream, fields: seq<Field>, dest: seq<Slot>) returns (ok: bool, slots: seq<Slot>)
    requires s.Valid() && GoodDescriptor(fields) && TypedSlots(fields, dest)
    modifies s
    ensures s.Valid() && s.End() <= old(s.End())
    ensures ok == ReadMessage(fields, old(s.Rest()), dest, {}).Got?
    ensures ok ==> ReadMessage(fields, old(s.Rest()), dest, {}) == Got(slots, s.Rest()) && s.End() == old(s.End())
    decreases fields, 2
  {
    var iter := new FieldIter(fields);
    ghost var whole := ReadMessage(fields, s.Rest(), dest, {});
    ghost var seen: set<nat> := {};
    var word: Word := seq(32, _ => false);
    slots := dest;
    while s.left > 0
      invariant s.Valid() && s.End() == old(s.End()) && iter.Valid() && iter.fields == fields
      invariant TypedSlots(fields, slots) && Records(fields, seen, word)
      invariant ReadMessage(fields, s.Rest(), slots, seen) == whole
      decreases s.left
    {
      ghost var rest := s.Rest();
      var wireType, tag, eof;
      ok, wireType, tag, eof := DecodeTag(s);
      if !ok {
        if eof {
          break;
        }
        return;
      }
      LoopStep(fields, rest, slots, seen);
      ok, slots, word := HandleField(s, iter, tag, wireType, slots, seen, word);
      if !ok {
        return;
      }
      seen := SawTag(fields, tag, seen);
    }
    assert Finish(fields, s.Rest(), slots, seen) == whole;
    ok := CheckRequired(iter, seen, word);
  }

  /** pb_decode */
  method Decode(s: IStream, fields: seq<Field>) returns (ok: bool, slots: seq<Slot>)
    requires s.Valid() && GoodDescriptor(fields)
    modifies s
    ensures s.Valid() && s.End() <= old(s.End())
    ensures ok == Read(fields, old(s.Rest())).Got?
    ensures ok ==> Read(fields, old(s.Rest())) == Got(slots, s.Rest())
    ensures forall rs :: Framed(fields, rs) && old(s.Rest()) == Joined(rs) ==>
              (ok ==> forall i :: 0 <= i < |fields| && fields[i].rule.Required? ==> Occurs(rs, fields[i].tag))
  {
    DefaultsTyped(fields);
    ghost var input := s.Rest();
    ok, slots := DecodeNoinit(s, fields, Defaults(fields));
    forall rs | Framed(fields, rs) && input == Joined(rs)
      ensures ok ==> forall i :: 0 <= i < |fields| && fields[i].rule.Required? ==> Occurs(rs, fields[i].tag)
    {
      DecodingMeans(fields, rs);
    }
  }
}

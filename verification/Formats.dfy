/** The bytes on disk, in numbers: what the log, a write batch, a manifest record, an internal key and a block look like,
    said without the definitions that write and read them. */
module Formats {
  import opened Keys
  import opened Coding
  import WriteBatch
  import VersionEdit
  import Manifest
  import Log
  import Crc32c
  import Block

  // ----- internal keys

  /** The user key, then eight bytes: the value type, and the sequence number in the upper seven. */
  lemma KeyBytes(k: InternalKey)
    ensures var b, n := Manifest.EncodeKey(k), |k.user|;
            |b| == n + 8 && b[..n] == k.user && LittleEndian8(b[n..], k.seqno * 256 + k.kind) && b[n] == k.kind
  {
    var tag := k.seqno * 256 + k.kind;
    FixedIs8(tag);
    CutAt(k.user, Fixed(tag, 8));
    LowByte(k.seqno, k.kind, tag);
  }

  lemma LowByte(s: nat, kind: Byte, tag: nat)
    requires tag == s * 256 + kind
    ensures tag % 256 == kind
  {
  }

  // ----- log records

  /** A physical record: the masked checksum of type and data, the length in two bytes, the type, the data. */
  lemma RecordBytes(f: Log.Fragment)
    requires |f.data| <= 0xffff
    ensures var b, crc := Log.Physical(f), Crc32c.CrcValue([f.kind] + f.data);
            && |b| == 7 + |f.data| && (b[4] as int) + 256 * (b[5] as int) == |f.data| && b[6] == f.kind && b[7..] == f.data
            && LittleEndian4(b[..4], (crc / 0x8000 + crc % 0x8000 * 0x2_0000 + 0xa282_ead8) % 0x1_0000_0000)
  {
    var crc := Crc32c.Extend(Crc32c.CrcValue([f.kind]), f.data);
    Crc32c.ExtendComposes([f.kind], f.data);
    FixedIs4(Crc32c.Mask(crc));
    HeaderCut(Crc32c.EncodeFixed32(Crc32c.Mask(crc)), |f.data| % 256, |f.data| / 256, f.kind, f.data);
  }

  lemma HeaderCut(crc: Bytes, low: Byte, high: Byte, kind: Byte, data: Bytes)
    requires |crc| == 4
    ensures var b := crc + [low, high, kind] + data;
            |b| == 7 + |data| && b[..4] == crc && b[4] == low && b[5] == high && b[6] == kind && b[7..] == data
  {
  }

  /** A byte of a record's type or data that changed on disk is noticed. */
  lemma OneByteDetected(b: Bytes, i: nat, x: Byte)
    requires |b| >= 7 && 7 + Log.LengthField(b) <= |b| && Log.CrcMatches(b) && 6 <= i < 7 + Log.LengthField(b) && x != b[i]
    ensures var b' := b[i := x]; Log.LengthField(b') == Log.LengthField(b) && !Log.CrcMatches(b')
  {
    var b', n := b[i := x], 7 + Log.LengthField(b);
    assert b'[..4] == b[..4];
    assert b[6..n] == b[6..i] + [b[i]] + b[i + 1..n];
    assert b'[6..n] == b[6..i] + [x] + b[i + 1..n];
    Crc32c.OneByteChangesCrc(b[6..i], b[i], x, b[i + 1..n]);
  }

  ghost function DataOf(fs: seq<Log.Fragment>): Bytes { if fs == [] then [] else fs[0].data + DataOf(fs[1..]) }

  /** The fragments of a record: the data in order; one of type 1, or types 2, 3, ..., 3, 4. */
  ghost predicate InOrder(fs: seq<Log.Fragment>, begin: bool, data: Bytes) {
    && fs != [] && DataOf(fs) == data
    && (|fs| == 1 ==> fs[0].kind == if begin then 1 else 4)
    && (|fs| > 1 ==> fs[0].kind == (if begin then 2 else 3) && fs[|fs| - 1].kind == 4)
    && forall i :: 0 < i < |fs| - 1 ==> fs[i].kind == 3
  }

  /** Written from position p on: no record's seven-byte header or data crosses a multiple of 32768; fewer than seven bytes
      left in a block are skipped, and every fragment but the last fills its block. */
  ghost predicate InBlocks(p: nat, fs: seq<Log.Fragment>)
    decreases |fs|
  {
    fs == [] ||
    var start := if 32768 - p % 32768 < 7 then p + (32768 - p % 32768) else p;
    var end := start + 7 + |fs[0].data|;
    && start % 32768 + 7 + |fs[0].data| <= 32768 && (|fs| > 1 ==> end % 32768 == 0)
    && InBlocks(end, fs[1..])
  }

  lemma {:induction false} RecordShape(p: nat, data: Bytes, begin: bool)
    ensures InOrder(Log.Fragments(p, data, begin), begin, data) && InBlocks(p, Log.Fragments(p, data, begin))
    decreases |data|, Log.Room(p) == 0
  {
    var fs := Log.Fragments(p, data, begin);
    if |data| <= Log.Room(p) {
      LastFragment(p, data, begin);
    } else {
      var f := Log.Fragment(Log.KindOf(begin, false), data[..Log.Room(p)]);
      var q, rest := Log.After(p, f), data[Log.Room(p)..];
      Log.NextRoom(p);
      Log.FragmentsMore(p, data, begin, f);
      RecordShape(q, rest, false);
      FirstFragment(p, f, Log.Fragments(q, rest, false), begin, data, rest);
    }
  }

  lemma LastFragment(p: nat, data: Bytes, begin: bool)
    requires |data| <= Log.Room(p)
    ensures InOrder(Log.Fragments(p, data, begin), begin, data) && InBlocks(p, Log.Fragments(p, data, begin))
  {
    var f := Log.Fragment(Log.KindOf(begin, true), data);
    var fs := [f];
    assert Log.Fragments(p, data, begin) == fs && fs[1..] == [];
    assert data + [] == data;
    Placed(p, f);
    assert InBlocks(Log.After(p, f), []);
  }

  lemma FirstFragment(p: nat, f: Log.Fragment, tail: seq<Log.Fragment>, begin: bool, data: Bytes, rest: Bytes)
    requires |f.data| == Log.Room(p) && f.kind == Log.KindOf(begin, false) && data == f.data + rest
    requires InOrder(tail, false, rest) && InBlocks(Log.After(p, f), tail)
    ensures InOrder([f] + tail, begin, data) && InBlocks(p, [f] + tail)
  {
    var fs := [f] + tail;
    assert fs[1..] == tail && fs[0] == f;
    Placed(p, f);
    forall i | 0 < i < |fs| - 1
      ensures fs[i].kind == 3
    {
      assert fs[i] == tail[i - 1];
    }
    assert fs[|fs| - 1] == tail[|tail| - 1];
  }

  lemma Placed(p: nat, f: Log.Fragment)
    requires |f.data| <= Log.Room(p)
    ensures var start := if 32768 - p % 32768 < 7 then p + (32768 - p % 32768) else p;
            && Log.After(p, f) == start + 7 + |f.data| && start % 32768 + 7 + |f.data| <= 32768
            && (|f.data| == Log.Room(p) ==> Log.After(p, f) % 32768 == 0)
  {
  }

  // ----- write batches

  ghost predicate SpellsOp(op: WriteBatch.Op, b: Bytes) {
    b != [] &&
    match op
    case Put(k, v) => b[0] == 1 && exists n {:trigger b[n..]} :: 1 <= n <= |b| && SpellsLength(k, b[1..n]) && SpellsLength(v, b[n..])
    case Delete(k) => b[0] == 0 && SpellsLength(k, b[1..])
  }

  ghost predicate SpellsOps(ops: seq<WriteBatch.Op>, b: Bytes)
    decreases |ops|
  {
    if ops == [] then b == []
    else exists n {:trigger b[..n]} :: 0 <= n <= |b| && SpellsOp(ops[0], b[..n]) && SpellsOps(ops[1..], b[n..])
  }

  lemma OpIsSpelled(op: WriteBatch.Op)
    ensures SpellsOp(op, WriteBatch.EncodeOp(op))
  {
    match op
    case Put(k, v) =>
      var b, n := WriteBatch.EncodeOp(op), 1 + |Delimited(k)|;
      LengthIsSpelled(k);
      LengthIsSpelled(v);
      assert b == [TYPE_VALUE] + (Delimited(k) + Delimited(v));
      assert b[1..n] == Delimited(k) && b[n..] == Delimited(v);
    case Delete(k) =>
      LengthIsSpelled(k);
      CutAt([TYPE_DELETION], Delimited(k));
  }

  lemma {:induction false} OpsAreSpelled(ops: seq<WriteBatch.Op>)
    ensures SpellsOps(ops, WriteBatch.Body(ops))
  {
    if ops != [] {
      OpIsSpelled(ops[0]);
      OpsAreSpelled(ops[1..]);
      CutAt(WriteBatch.EncodeOp(ops[0]), WriteBatch.Body(ops[1..]));
    }
  }

  /** A batch: eight bytes of sequence number, four of count, then the operations: 1, key and value for a Put, 0 and the key
      for a Delete, each string with its length in front. */
  lemma BatchBytes(sequence: nat, ops: seq<WriteBatch.Op>)
    ensures var b := WriteBatch.Rep(sequence, ops);
            |b| >= 12 && LittleEndian8(b[..8], sequence) && LittleEndian4(b[8..12], |ops|) && SpellsOps(ops, b[12..])
  {
    WriteBatch.PartsOf(sequence, ops);
    FixedIs8(sequence);
    FixedIs4(|ops|);
    OpsAreSpelled(ops);
  }

  // ----- manifest records

  /** The numbers in front of the fields of an edit. */
  function FieldNumber(i: VersionEdit.Item): (n: nat) {
    match i
    case Comparator(_) => 1
    case LogNumber(_) => 2
    case NextFile(_) => 3
    case LastSequence(_) => 4
    case Pointer(_, _) => 5
    case Deleted(_, _) => 6
    case New(_, _) => 7
    case PrevLogNumber(_) => 9
  }

  /** b is one number after the other. */
  ghost predicate SpellsNumbers(ns: seq<nat>, b: Bytes)
    decreases |ns|
  {
    if ns == [] then b == []
    else exists n {:trigger b[..n]} :: 0 <= n <= |b| && Base128(b[..n], ns[0]) && SpellsNumbers(ns[1..], b[n..])
  }

  /** Numbers, then strings. */
  ghost predicate SpellsStrings(ss: seq<Bytes>, b: Bytes)
    decreases |ss|
  {
    if ss == [] then b == []
    else exists n {:trigger b[..n]} :: 0 <= n <= |b| && SpellsLength(ss[0], b[..n]) && SpellsStrings(ss[1..], b[n..])
  }

  ghost predicate SpellsBoth(ns: seq<nat>, ss: seq<Bytes>, b: Bytes) {
    exists n {:trigger b[..n]} :: 0 <= n <= |b| && SpellsNumbers(ns, b[..n]) && SpellsStrings(ss, b[n..])
  }

  /** A field: its number, its other numbers, its strings. */
  ghost predicate SpellsItem(i: VersionEdit.Item, b: Bytes) {
    match i
    case Comparator(name) => SpellsBoth([FieldNumber(i)], [name], b)
    case Pointer(level, key) => SpellsBoth([FieldNumber(i), level], [key], b)
    case Deleted(level, n) => SpellsBoth([FieldNumber(i), level, n], [], b)
    case New(level, f) => SpellsBoth([FieldNumber(i), level, f.number, f.size], [f.smallest, f.largest], b)
    case _ => SpellsBoth([FieldNumber(i), i.n], [], b)
  }

  function Numbers(ns: seq<nat>): Bytes { if ns == [] then [] else Varint(ns[0]) + Numbers(ns[1..]) }
  function Strings(ss: seq<Bytes>): Bytes { if ss == [] then [] else Delimited(ss[0]) + Strings(ss[1..]) }

  lemma {:induction false} NumbersAreSpelled(ns: seq<nat>)
    ensures SpellsNumbers(ns, Numbers(ns))
  {
    if ns != [] {
      VarintIsBase128(ns[0]);
      NumbersAreSpelled(ns[1..]);
      CutAt(Varint(ns[0]), Numbers(ns[1..]));
    }
  }

  lemma {:induction false} StringsAreSpelled(ss: seq<Bytes>)
    ensures SpellsStrings(ss, Strings(ss))
  {
    if ss != [] {
      LengthIsSpelled(ss[0]);
      StringsAreSpelled(ss[1..]);
      CutAt(Delimited(ss[0]), Strings(ss[1..]));
    }
  }

  lemma BothAreSpelled(ns: seq<nat>, ss: seq<Bytes>, b: Bytes)
    requires b == Numbers(ns) + Strings(ss)
    ensures SpellsBoth(ns, ss, b)
  {
    NumbersAreSpelled(ns);
    StringsAreSpelled(ss);
    CutAt(Numbers(ns), Strings(ss));
  }

  lemma FewNumbers(a: nat, b: nat, c: nat, d: nat)
    ensures Numbers([a]) == Varint(a) && Numbers([a, b]) == Varint(a) + Varint(b)
    ensures Numbers([a, b, c]) == Varint(a) + (Varint(b) + Varint(c))
    ensures Numbers([a, b, c, d]) == Varint(a) + (Varint(b) + (Varint(c) + Varint(d)))
  {
    assert Numbers([]) == [] && [d][1..] == [] && Numbers([d]) == Varint(d) + [];
    assert [c][1..] == [] && [c, d][1..] == [d];
    assert Numbers([c]) == Varint(c) + [] && Numbers([c, d]) == Varint(c) + Numbers([d]);
    assert [b][1..] == [] && [b, c][1..] == [c] && [b, c, d][1..] == [c, d];
    assert Numbers([b]) == Varint(b) + [];
    assert [a][1..] == [] && [a, b][1..] == [b] && [a, b, c][1..] == [b, c] && [a, b, c, d][1..] == [b, c, d];
  }

  lemma FewStrings(a: Bytes, b: Bytes)
    ensures Strings([]) == [] && Strings([a]) == Delimited(a) && Strings([a, b]) == Delimited(a) + Delimited(b)
  {
    assert [b][1..] == [] && Strings([b]) == Delimited(b) + [];
    assert [a][1..] == [] && [a, b][1..] == [b];
  }

  /** A field of a manifest record: its number, and what follows in the order given. */
  lemma ItemBytes(i: VersionEdit.Item)
    ensures SpellsItem(i, VersionEdit.EncodeItem(i))
  {
    var b, t := VersionEdit.EncodeItem(i), FieldNumber(i);
    match i
    case Comparator(name) => FewNumbers(t, 0, 0, 0); FewStrings(name, []); BothAreSpelled([t], [name], b);
    case Pointer(level, key) =>
      FewNumbers(t, level, 0, 0);
      FewStrings(key, []);
      Groups3(Varint(t), Varint(level), Delimited(key));
      BothAreSpelled([t, level], [key], b);
    case Deleted(level, n) =>
      FewNumbers(t, level, n, 0);
      FewStrings([], []);
      BothAreSpelled([t, level, n], [], b);
    case New(level, f) => NewFileBytes(i, level, f);
    case _ =>
      FewNumbers(t, i.n, 0, 0);
      FewStrings([], []);
      BothAreSpelled([t, i.n], [], b);
  }

  lemma Groups3(a: Bytes, b: Bytes, c: Bytes)
    ensures a + (b + c) == (a + b) + c
  {
  }

  lemma NewFileBytes(i: VersionEdit.Item, level: nat, f: VersionEdit.Meta)
    requires i == VersionEdit.New(level, f)
    ensures SpellsBoth([7, level, f.number, f.size], [f.smallest, f.largest], VersionEdit.EncodeItem(i))
  {
    var t, l, n, s := Varint(7), Varint(level), Varint(f.number), Varint(f.size);
    var x, y := Delimited(f.smallest), Delimited(f.largest);
    FewNumbers(7, level, f.number, f.size);
    FewStrings(f.smallest, f.largest);
    assert VersionEdit.EncodeItem(i) == t + (l + (n + (s + (x + y))));
    Groups3(n, s, x + y);
    Groups3(l, n + s, x + y);
    Groups3(t, l + (n + s), x + y);
    BothAreSpelled([7, level, f.number, f.size], [f.smallest, f.largest], VersionEdit.EncodeItem(i));
  }

  // ----- manifest records, read

  ghost predicate Takes32(b: Bytes, n: nat, rest: Bytes) { TakesNumber(b, 5, 0x1_0000_0000, n, rest) }
  ghost predicate Takes64(b: Bytes, n: nat, rest: Bytes) { TakesNumber(b, 10, 0x1_0000_0000_0000_0000, n, rest) }

  ghost predicate TakesMeta(b: Bytes, f: VersionEdit.Meta, rest: Bytes) {
    exists r1, r2, r3 :: Takes64(b, f.number, r1) && Takes64(r1, f.size, r2) && TakesString(r2, f.smallest, r3) && TakesString(r3, f.largest, rest)
  }

  /** b is what follows the number of field i, and the rest. There are seven levels. */
  ghost predicate TakesBody(b: Bytes, i: VersionEdit.Item, rest: Bytes) {
    match i
    case Comparator(name) => TakesString(b, name, rest)
    case Pointer(level, key) => level < 7 && exists r :: Takes32(b, level, r) && TakesString(r, key, rest)
    case Deleted(level, n) => level < 7 && exists r :: Takes32(b, level, r) && Takes64(r, n, rest)
    case New(level, f) => level < 7 && exists r :: Takes32(b, level, r) && TakesMeta(r, f, rest)
    case _ => Takes64(b, i.n, rest)
  }

  ghost predicate TakesItem(b: Bytes, i: VersionEdit.Item, rest: Bytes) {
    exists r :: Takes32(b, FieldNumber(i), r) && TakesBody(r, i, rest)
  }

  ghost predicate TakesItems(b: Bytes, items: seq<VersionEdit.Item>)
    decreases |items|
  {
    if items == [] then b == [] else exists rest :: TakesItem(b, items[0], rest) && TakesItems(rest, items[1..])
  }

  lemma Takes32Iff(b: Bytes, n: nat, rest: Bytes)
    ensures Read32(b) == Got(n, rest) <==> Takes32(b, n, rest)
  {
    Number32Iff(b, n, rest);
  }

  lemma Takes64Iff(b: Bytes, n: nat, rest: Bytes)
    ensures Read64(b) == Got(n, rest) <==> Takes64(b, n, rest)
  {
    Number64Iff(b, n, rest);
  }

  lemma MetaRead(b: Bytes)
    requires VersionEdit.ReadMeta(b).Got?
    ensures TakesMeta(b, VersionEdit.ReadMeta(b).value, VersionEdit.ReadMeta(b).rest)
  {
    var r1 := Read64(b).rest;
    var r2 := Read64(r1).rest;
    var r3 := ReadDelimited(r2).rest;
    var rest := ReadDelimited(r3).rest;
    Takes64Iff(b, Read64(b).value, r1);
    Takes64Iff(r1, Read64(r1).value, r2);
    DelimitedIff(r2, ReadDelimited(r2).value, r3);
    DelimitedIff(r3, ReadDelimited(r3).value, rest);
  }

  lemma MetaTaken(b: Bytes, f: VersionEdit.Meta, rest: Bytes)
    requires TakesMeta(b, f, rest)
    ensures VersionEdit.ReadMeta(b) == Got(f, rest)
  {
    var r1, r2, r3 :| Takes64(b, f.number, r1) && Takes64(r1, f.size, r2) && TakesString(r2, f.smallest, r3) && TakesString(r3, f.largest, rest);
    Takes64Iff(b, f.number, r1);
    Takes64Iff(r1, f.size, r2);
    DelimitedIff(r2, f.smallest, r3);
    DelimitedIff(r3, f.largest, rest);
  }

  lemma LevelIff(b: Bytes, level: nat, r: Bytes)
    ensures VersionEdit.ReadLevel(b) == Got(level, r) <==> level < 7 && Takes32(b, level, r)
  {
    Takes32Iff(b, level, r);
  }

  lemma BodyRead(b: Bytes, tag: nat)
    requires VersionEdit.ReadBody(tag, b).Got?
    ensures tag == FieldNumber(VersionEdit.ReadBody(tag, b).value)
    ensures TakesBody(b, VersionEdit.ReadBody(tag, b).value, VersionEdit.ReadBody(tag, b).rest)
  {
    if tag == 5 {
      PointerRead(b);
    } else if tag == 6 {
      DeletedRead(b);
    } else if tag == 7 {
      NewRead(b);
    } else {
      PlainRead(b, tag);
    }
  }

  lemma PointerRead(b: Bytes)
    requires VersionEdit.ReadBody(5, b).Got?
    ensures var r := VersionEdit.ReadBody(5, b); r.value.Pointer? && TakesBody(b, r.value, r.rest)
  {
    var r, level := VersionEdit.ReadBody(5, b), VersionEdit.ReadLevel(b);
    LevelIff(b, level.value, level.rest);
    DelimitedIff(level.rest, r.value.key, r.rest);
  }

  lemma DeletedRead(b: Bytes)
    requires VersionEdit.ReadBody(6, b).Got?
    ensures var r := VersionEdit.ReadBody(6, b); r.value.Deleted? && TakesBody(b, r.value, r.rest)
  {
    var r, level := VersionEdit.ReadBody(6, b), VersionEdit.ReadLevel(b);
    LevelIff(b, level.value, level.rest);
    Takes64Iff(level.rest, r.value.n, r.rest);
  }

  lemma NewRead(b: Bytes)
    requires VersionEdit.ReadBody(7, b).Got?
    ensures var r := VersionEdit.ReadBody(7, b); r.value.New? && TakesBody(b, r.value, r.rest)
  {
    var level := VersionEdit.ReadLevel(b);
    SevenIsNew(b);
    LevelIff(b, level.value, level.rest);
    MetaRead(level.rest);
  }

  lemma PlainRead(b: Bytes, tag: nat)
    requires VersionEdit.ReadBody(tag, b).Got? && !(5 <= tag <= 7)
    ensures var r := VersionEdit.ReadBody(tag, b); tag == FieldNumber(r.value) && TakesBody(b, r.value, r.rest)
  {
    var r := VersionEdit.ReadBody(tag, b);
    if tag == 1 {
      DelimitedIff(b, r.value.name, r.rest);
    } else {
      Takes64Iff(b, r.value.n, r.rest);
    }
  }

  lemma BodyTaken(b: Bytes, i: VersionEdit.Item, rest: Bytes)
    requires TakesBody(b, i, rest)
    ensures VersionEdit.ReadBody(FieldNumber(i), b) == Got(i, rest)
  {
    match i
    case Comparator(name) => DelimitedIff(b, name, rest);
    case Pointer(level, key) => PointerTaken(b, level, key, rest);
    case Deleted(level, n) => DeletedTaken(b, level, n, rest);
    case New(level, f) => NewTaken(b, level, f, rest);
    case _ => Takes64Iff(b, i.n, rest);
  }

  lemma PointerTaken(b: Bytes, level: nat, key: Bytes, rest: Bytes)
    requires TakesBody(b, VersionEdit.Pointer(level, key), rest)
    ensures VersionEdit.ReadBody(5, b) == Got(VersionEdit.Pointer(level, key), rest)
  {
    var r :| Takes32(b, level, r) && TakesString(r, key, rest);
    LevelIff(b, level, r);
    DelimitedIff(r, key, rest);
  }

  lemma DeletedTaken(b: Bytes, level: nat, n: nat, rest: Bytes)
    requires TakesBody(b, VersionEdit.Deleted(level, n), rest)
    ensures VersionEdit.ReadBody(6, b) == Got(VersionEdit.Deleted(level, n), rest)
  {
    var r :| Takes32(b, level, r) && Takes64(r, n, rest);
    LevelIff(b, level, r);
    Takes64Iff(r, n, rest);
  }

  lemma NewTaken(b: Bytes, level: nat, f: VersionEdit.Meta, rest: Bytes)
    requires TakesBody(b, VersionEdit.New(level, f), rest)
    ensures VersionEdit.ReadBody(7, b) == Got(VersionEdit.New(level, f), rest)
  {
    var r :| Takes32(b, level, r) && TakesMeta(r, f, rest);
    LevelIff(b, level, r);
    MetaTaken(r, f, rest);
    NewReads(b, level, r, f, rest);
    SevenIsNew(b);
  }

  lemma NewReads(b: Bytes, level: nat, r: Bytes, f: VersionEdit.Meta, rest: Bytes)
    requires VersionEdit.ReadLevel(b) == Got(level, r) && VersionEdit.ReadMeta(r) == Got(f, rest)
    ensures VersionEdit.ReadNew(b) == Got(VersionEdit.New(level, f), rest)
  {
  }

  lemma SevenIsNew(b: Bytes)
    ensures VersionEdit.ReadBody(7, b) == VersionEdit.ReadNew(b)
  {
  }

  /** A record is decoded only if it is a list of fields, and then to what they say. */
  lemma {:induction false} EditRead(b: Bytes, e: VersionEdit.Edit) returns (items: seq<VersionEdit.Item>)
    requires VersionEdit.ReadEdit(b, e).Some?
    ensures TakesItems(b, items) && VersionEdit.ReadEdit(b, e) == Some(VersionEdit.ApplyAll(e, items))
    decreases |b|
  {
    if b == [] {
      items := [];
    } else {
      var t := Read32(b);
      var i := VersionEdit.ReadBody(t.value, t.rest);
      Takes32Iff(b, t.value, t.rest);
      BodyRead(t.rest, t.value);
      assert TakesItem(b, i.value, i.rest);
      var rest := EditRead(i.rest, VersionEdit.ApplyItem(e, i.value));
      items := [i.value] + rest;
      assert items[1..] == rest && items[0] == i.value;
    }
  }

  /** Every list of fields is decoded, whatever spelling its numbers have. */
  lemma {:induction false} EditTaken(b: Bytes, items: seq<VersionEdit.Item>, e: VersionEdit.Edit)
    requires TakesItems(b, items)
    ensures VersionEdit.ReadEdit(b, e) == Some(VersionEdit.ApplyAll(e, items))
    decreases |items|
  {
    if items != [] {
      var rest :| TakesItem(b, items[0], rest) && TakesItems(rest, items[1..]);
      var r :| Takes32(b, FieldNumber(items[0]), r) && TakesBody(r, items[0], rest);
      Takes32Iff(b, FieldNumber(items[0]), r);
      BodyTaken(r, items[0], rest);
      EditTaken(rest, items[1..], VersionEdit.ApplyItem(e, items[0]));
    }
  }

  // ----- blocks

  /** An entry: the lengths of the shared key part, of the rest of the key and of the value, then that rest and the value. */
  lemma EntryBytes(e: Block.Pair, shared: nat)
    requires shared <= |e.key|
    ensures var b, n := Block.EncodeEntry(e, shared), |e.key| - shared + |e.value|;
            n <= |b| && b[|b| - n..] == e.key[shared..] + e.value && SpellsNumbers([shared, |e.key| - shared, |e.value|], b[..|b| - n])
  {
    var a, c, d := Varint(shared), Varint(|e.key| - shared), Varint(|e.value|);
    var b := Block.EncodeEntry(e, shared);
    FewNumbers(shared, |e.key| - shared, |e.value|, 0);
    NumbersAreSpelled([shared, |e.key| - shared, |e.value|]);
    Groups5(a, c, d, e.key[shared..], e.value);
    CutAt(a + (c + d), e.key[shared..] + e.value);
    assert b == (a + (c + d)) + (e.key[shared..] + e.value);
  }

  lemma Groups5(a: Bytes, b: Bytes, c: Bytes, d: Bytes, e: Bytes)
    ensures a + b + c + d + e == (a + (b + c)) + (d + e)
  {
    Groups3(a, b, c);
    Groups3(a + b + c, d, e);
  }

  /** The end of a block: the offset of each restart point in four bytes, then their number in four bytes. */
  lemma TrailerBytes(b: Bytes, l: Block.Layout, r: nat)
    requires Block.Finished(b, l) && r < |l.starts|
    ensures l.starts[r] < |l.offs| && |b| >= 4 * |l.starts| + 4
    ensures LittleEndian4(b[|b| - 4..], |l.starts|)
    ensures var p := |b| - 4 - 4 * |l.starts| + 4 * r; LittleEndian4(b[p..p + 4], l.offs[l.starts[r]])
  {
    FixedIs4(|l.starts|);
    assert Block.RestartWord(b, l, r);
    FixedIs4(l.offs[l.starts[r]]);
  }
}

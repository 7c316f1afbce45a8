/** Manifest records: one VersionEdit as tagged fields, written and read back. */
module VersionEdit {
  import opened Keys
  import opened Coding
  import opened Versions

  // ----- the edit

  /** FileMetaData as the manifest holds it; keys are encoded internal keys. */
  datatype Meta = Meta(number: nat, size: nat, smallest: Bytes, largest: Bytes)

  /** deleted is a std::set of pairs: strictly increasing. */
  datatype Edit = Edit(
    comparator: Option<Bytes>, logNumber: Option<nat>, prevLogNumber: Option<nat>, nextFile: Option<nat>, lastSequence: Option<nat>,
    pointers: seq<(nat, Bytes)>, deleted: seq<(nat, nat)>, added: seq<(nat, Meta)>)

  function EmptyEdit(): (e: Edit) { Edit(None, None, None, None, None, [], [], []) }

  const K_COMPARATOR: nat := 1
  const K_LOG_NUMBER: nat := 2
  const K_NEXT_FILE_NUMBER: nat := 3
  const K_LAST_SEQUENCE: nat := 4
  const K_COMPACT_POINTER: nat := 5
  const K_DELETED_FILE: nat := 6
  const K_NEW_FILE: nat := 7
  const K_PREV_LOG_NUMBER: nat := 9

  /** One tagged field. */
  datatype Item =
    | Comparator(name: Bytes) | LogNumber(n: nat) | PrevLogNumber(n: nat) | NextFile(n: nat) | LastSequence(n: nat)
    | Pointer(level: nat, key: Bytes) | Deleted(level: nat, n: nat) | New(level: nat, file: Meta)

  predicate KeyFits(k: Bytes) { |k| < TWO32 }

  /** The numbers fit their C types and the levels exist. */
  predicate ItemOk(i: Item) {
    match i
    case Comparator(name) => KeyFits(name)
    case Pointer(level, key) => level < NUM_LEVELS && KeyFits(key)
    case Deleted(level, n) => level < NUM_LEVELS && n < TWO64
    case New(level, f) => level < NUM_LEVELS && f.number < TWO64 && f.size < TWO64 && KeyFits(f.smallest) && KeyFits(f.largest)
    case _ => i.n < TWO64
  }

  function TagOf(i: Item): (t: nat) {
    match i
    case Comparator(_) => K_COMPARATOR
    case LogNumber(_) => K_LOG_NUMBER
    case PrevLogNumber(_) => K_PREV_LOG_NUMBER
    case NextFile(_) => K_NEXT_FILE_NUMBER
    case LastSequence(_) => K_LAST_SEQUENCE
    case Pointer(_, _) => K_COMPACT_POINTER
    case Deleted(_, _) => K_DELETED_FILE
    case New(_, _) => K_NEW_FILE
  }

  function BodyOf(i: Item): (b: Bytes) {
    match i
    case Comparator(name) => Delimited(name)
    case Pointer(level, key) => Varint(level) + Delimited(key)
    case Deleted(level, n) => Varint(level) + Varint(n)
    case New(level, f) => Varint(level) + EncodeMeta(f)
    case _ => Varint(i.n)
  }

  function EncodeItem(i: Item): (r: Bytes)
    ensures r != []
  {
    Varint(TagOf(i)) + BodyOf(i)
  }

  function EncodeMeta(f: Meta): (r: Bytes) {
    Varint(f.number) + (Varint(f.size) + (Delimited(f.smallest) + Delimited(f.largest)))
  }

  // ----- reading

  function ReadLevel(b: Bytes): (r: Parsed<nat>)
    ensures r.Got? ==> |r.rest| < |b| && r.value < NUM_LEVELS
  {
    match Read32(b)
    case Fail(rest) => Fail(rest)
    case Got(n, rest) => if n < NUM_LEVELS then Got(n, rest) else Fail(rest)
  }

  function ReadMeta(b: Bytes): (r: Parsed<Meta>)
    ensures r.Got? ==> |r.rest| < |b|
  {
    match Read64(b)
    case Fail(rest) => Fail(rest)
    case Got(number, r1) =>
      match Read64(r1)
      case Fail(rest) => Fail(rest)
      case Got(size, r2) =>
        match ReadDelimited(r2)
        case Fail(rest) => Fail(rest)
        case Got(smallest, r3) =>
          match ReadDelimited(r3)
          case Fail(rest) => Fail(rest)
          case Got(largest, r4) => Got(Meta(number, size, smallest, largest), r4)
  }

  /** What follows a tag. */
  function ReadBody(tag: nat, b: Bytes): (r: Parsed<Item>)
    ensures r.Got? ==> |r.rest| < |b|
  {
    if tag == K_COMPARATOR then
      match ReadDelimited(b) case Fail(rest) => Fail(rest) case Got(name, rest) => Got(Comparator(name), rest)
    else if tag == K_LOG_NUMBER then
      match Read64(b) case Fail(rest) => Fail(rest) case Got(n, rest) => Got(LogNumber(n), rest)
    else if tag == K_PREV_LOG_NUMBER then
      match Read64(b) case Fail(rest) => Fail(rest) case Got(n, rest) => Got(PrevLogNumber(n), rest)
    else if tag == K_NEXT_FILE_NUMBER then
      match Read64(b) case Fail(rest) => Fail(rest) case Got(n, rest) => Got(NextFile(n), rest)
    else if tag == K_LAST_SEQUENCE then
      match Read64(b) case Fail(rest) => Fail(rest) case Got(n, rest) => Got(LastSequence(n), rest)
    else if tag == K_COMPACT_POINTER then
      match ReadLevel(b)
      case Fail(rest) => Fail(rest)
      case Got(level, r1) => match ReadDelimited(r1) case Fail(rest) => Fail(rest) case Got(key, rest) => Got(Pointer(level, key), rest)
    else if tag == K_DELETED_FILE then
      match ReadLevel(b)
      case Fail(rest) => Fail(rest)
      case Got(level, r1) => match Read64(r1) case Fail(rest) => Fail(rest) case Got(n, rest) => Got(Deleted(level, n), rest)
    else if tag == K_NEW_FILE then
      ReadNew(b)
    else Fail(b)
  }

  function ReadNew(b: Bytes): (r: Parsed<Item>)
    ensures r.Got? ==> |r.rest| < |b|
  {
    match ReadLevel(b)
    case Fail(rest) => Fail(rest)
    case Got(level, r1) => match ReadMeta(r1) case Fail(rest) => Fail(rest) case Got(f, rest) => Got(New(level, f), rest)
  }

  lemma LevelRoundTrip(level: nat, rest: Bytes)
    requires level < NUM_LEVELS
    ensures ReadLevel(Varint(level) + rest) == Got(level, rest)
  {
    Read32RoundTrip(level, rest);
  }

  lemma Assoc(a: Bytes, b: Bytes, c: Bytes)
    ensures (a + b) + c == a + (b + c)
  {
  }

  lemma MetaRoundTrip(f: Meta, rest: Bytes)
    requires f.number < TWO64 && f.size < TWO64 && KeyFits(f.smallest) && KeyFits(f.largest)
    ensures ReadMeta(EncodeMeta(f) + rest) == Got(f, rest)
  {
    var r3 := Delimited(f.largest) + rest;
    var r2 := Delimited(f.smallest) + r3;
    var r1 := Varint(f.size) + r2;
    Assoc(Varint(f.number), Varint(f.size) + (Delimited(f.smallest) + Delimited(f.largest)), rest);
    Assoc(Varint(f.size), Delimited(f.smallest) + Delimited(f.largest), rest);
    Assoc(Delimited(f.smallest), Delimited(f.largest), rest);
    Read64RoundTrip(f.number, r1);
    Read64RoundTrip(f.size, r2);
    DelimitedRoundTrip(f.smallest, r3);
    DelimitedRoundTrip(f.largest, rest);
  }

  lemma PointerRoundTrip(level: nat, key: Bytes, rest: Bytes)
    requires level < NUM_LEVELS && KeyFits(key)
    ensures ReadBody(K_COMPACT_POINTER, Varint(level) + Delimited(key) + rest) == Got(Pointer(level, key), rest)
  {
    Assoc(Varint(level), Delimited(key), rest);
    LevelRoundTrip(level, Delimited(key) + rest);
    DelimitedRoundTrip(key, rest);
  }

  lemma DeletedRoundTrip(level: nat, n: nat, rest: Bytes)
    requires level < NUM_LEVELS && n < TWO64
    ensures ReadBody(K_DELETED_FILE, Varint(level) + Varint(n) + rest) == Got(Deleted(level, n), rest)
  {
    Assoc(Varint(level), Varint(n), rest);
    LevelRoundTrip(level, Varint(n) + rest);
    Read64RoundTrip(n, rest);
  }

  lemma NewRoundTrip(level: nat, f: Meta, rest: Bytes)
    requires ItemOk(New(level, f))
    ensures ReadNew(Varint(level) + EncodeMeta(f) + rest) == Got(New(level, f), rest)
  {
    Assoc(Varint(level), EncodeMeta(f), rest);
    LevelRoundTrip(level, EncodeMeta(f) + rest);
    MetaRoundTrip(f, rest);
  }

  lemma BodyRoundTrip(i: Item, rest: Bytes)
    requires ItemOk(i)
    ensures ReadBody(TagOf(i), BodyOf(i) + rest) == Got(i, rest)
  {
    match i
    case Comparator(name) => DelimitedRoundTrip(name, rest);
    case Pointer(level, key) => PointerRoundTrip(level, key, rest);
    case Deleted(level, n) => DeletedRoundTrip(level, n, rest);
    case New(level, f) => NewRoundTrip(level, f, rest);
    case _ => NumberRoundTrip(i, rest);
  }

  lemma NumberRoundTrip(i: Item, rest: Bytes)
    requires ItemOk(i) && (i.LogNumber? || i.PrevLogNumber? || i.NextFile? || i.LastSequence?)
    ensures ReadBody(TagOf(i), BodyOf(i) + rest) == Got(i, rest)
  {
    Read64RoundTrip(i.n, rest);
  }

  // ----- whole edits

  function Wire(items: seq<Item>): (b: Bytes) {
    if items == [] then [] else EncodeItem(items[0]) + Wire(items[1..])
  }

  lemma AppendTail(xs: seq<Item>, ys: seq<Item>)
    requires xs != []
    ensures (xs + ys)[0] == xs[0] && (xs + ys)[1..] == xs[1..] + ys
  {
  }

  lemma WireFirst(xs: seq<Item>)
    requires xs != []
    ensures Wire(xs) == EncodeItem(xs[0]) + Wire(xs[1..])
  {
  }

  lemma {:induction false} WireAppend(xs: seq<Item>, ys: seq<Item>)
    ensures Wire(xs + ys) == Wire(xs) + Wire(ys)
  {
    if xs == [] {
      assert xs + ys == ys;
    } else {
      WireAppend(xs[1..], ys);
      AppendTail(xs, ys);
      WireFirst(xs);
      WireFirst(xs + ys);
      Assoc(EncodeItem(xs[0]), Wire(xs[1..]), Wire(ys));
    }
  }

  /** std::set insertion */
  function InsertPair(s: seq<(nat, nat)>, x: (nat, nat)): (r: seq<(nat, nat)>) {
    if s == [] then [x]
    else if s[0] == x then s
    else if PairLess(s[0], x) then [s[0]] + InsertPair(s[1..], x)
    else [x] + s
  }

  predicate PairLess(a: (nat, nat), b: (nat, nat)) { a.0 < b.0 || (a.0 == b.0 && a.1 < b.1) }

  predicate Increasing(s: seq<(nat, nat)>) { forall i, j :: 0 <= i < j < |s| ==> PairLess(s[i], s[j]) }

  lemma {:induction false} InsertAtEnd(s: seq<(nat, nat)>, x: (nat, nat))
    requires forall i :: 0 <= i < |s| ==> PairLess(s[i], x)
    ensures InsertPair(s, x) == s + [x]
  {
    if s != [] {
      InsertAtEnd(s[1..], x);
    }
  }

  function ApplyItem(e: Edit, i: Item): (r: Edit) {
    match i
    case Comparator(name) => e.(comparator := Some(name))
    case LogNumber(n) => e.(logNumber := Some(n))
    case PrevLogNumber(n) => e.(prevLogNumber := Some(n))
    case NextFile(n) => e.(nextFile := Some(n))
    case LastSequence(n) => e.(lastSequence := Some(n))
    case Pointer(level, key) => e.(pointers := e.pointers + [(level, key)])
    case Deleted(level, n) => e.(deleted := InsertPair(e.deleted, (level, n)))
    case New(level, f) => e.(added := e.added + [(level, f)])
  }

  function ApplyAll(e: Edit, items: seq<Item>): (r: Edit)
    decreases |items|
  {
    if items == [] then e else ApplyAll(ApplyItem(e, items[0]), items[1..])
  }

  lemma {:induction false} ApplyAppend(e: Edit, xs: seq<Item>, ys: seq<Item>)
    ensures ApplyAll(e, xs + ys) == ApplyAll(ApplyAll(e, xs), ys)
    decreases |xs|
  {
    if xs == [] {
      assert xs + ys == ys;
    } else {
      ApplyAppend(ApplyItem(e, xs[0]), xs[1..], ys);
      AppendTail(xs, ys);
    }
  }

  lemma ApplyOne(e: Edit, xs: seq<Item>, x: Item)
    ensures ApplyAll(e, xs + [x]) == ApplyItem(ApplyAll(e, xs), x)
  {
    ApplyAppend(e, xs, [x]);
    assert [x][1..] == [];
  }

  /** What the decoder makes of b, starting from e. */
  function ReadEdit(b: Bytes, e: Edit): (r: Option<Edit>)
    decreases |b|
  {
    match Read32(b)
    case Fail(_) => if b == [] then Some(e) else None
    case Got(tag, rest) =>
      match ReadBody(tag, rest)
      case Fail(_) => None
      case Got(i, rest') => ReadEdit(rest', ApplyItem(e, i))
  }

  predicate ItemsOk(items: seq<Item>) { forall k :: 0 <= k < |items| ==> ItemOk(items[k]) }

  /** The items are read one after the other, and then what follows. */
  lemma {:induction false} ReadsThen(items: seq<Item>, tail: Bytes, e: Edit)
    requires ItemsOk(items)
    ensures ReadEdit(Wire(items) + tail, e) == ReadEdit(tail, ApplyAll(e, items))
    decreases |items|
  {
    if items == [] {
      assert Wire(items) + tail == tail;
    } else {
      var i, rest := items[0], Wire(items[1..]) + tail;
      Assoc(EncodeItem(i), Wire(items[1..]), tail);
      Assoc(Varint(TagOf(i)), BodyOf(i), rest);
      Read32RoundTrip(TagOf(i), BodyOf(i) + rest);
      BodyRoundTrip(i, rest);
      ReadsThen(items[1..], tail, ApplyItem(e, i));
    }
  }

  lemma ReadsItems(items: seq<Item>, e: Edit)
    requires ItemsOk(items)
    ensures ReadEdit(Wire(items), e) == Some(ApplyAll(e, items))
  {
    ReadsThen(items, [], e);
    assert Wire(items) + [] == Wire(items);
  }

  /** A field number that is none of 1 to 7 and 9, anywhere after good fields, fails the whole edit. */
  lemma UnknownFieldFails(items: seq<Item>, tag: Bytes, n: nat, rest: Bytes, e: Edit)
    requires ItemsOk(items) && Base128(tag, n) && |tag| <= 5 && n < 0x1_0000_0000 && !(1 <= n <= 7) && n != 9
    ensures ReadEdit(Wire(items) + (tag + rest), e) == None
  {
    ReadsThen(items, tag + rest, e);
    ReadsSpelling(tag, n, rest);
    ModSmall(n, TWO32);
  }

  /** So does a level outside the tree. */
  lemma BadLevelFails(items: seq<Item>, tag: Bytes, n: nat, level: Bytes, l: nat, rest: Bytes, e: Edit)
    requires ItemsOk(items) && Base128(tag, n) && |tag| <= 5 && 5 <= n <= 7
    requires Base128(level, l) && |level| <= 5 && 7 <= l < 0x1_0000_0000
    ensures ReadEdit(Wire(items) + (tag + (level + rest)), e) == None
  {
    ReadsThen(items, tag + (level + rest), e);
    ReadsSpelling(tag, n, level + rest);
    ModSmall(n, TWO32);
    ReadsSpelling(level, l, rest);
    ModSmall(l, TWO32);
  }

  // ----- an edit's items

  function ComparatorItem(e: Edit): (i: Option<Item>) { if e.comparator.Some? then Some(Comparator(e.comparator.value)) else None }
  function LogItem(e: Edit): (i: Option<Item>) { if e.logNumber.Some? then Some(LogNumber(e.logNumber.value)) else None }
  function PrevLogItem(e: Edit): (i: Option<Item>) { if e.prevLogNumber.Some? then Some(PrevLogNumber(e.prevLogNumber.value)) else None }
  function NextFileItem(e: Edit): (i: Option<Item>) { if e.nextFile.Some? then Some(NextFile(e.nextFile.value)) else None }
  function LastItem(e: Edit): (i: Option<Item>) { if e.lastSequence.Some? then Some(LastSequence(e.lastSequence.value)) else None }

  function Present(i: Option<Item>): (r: seq<Item>) { if i.Some? then [i.value] else [] }

  function Fields(e: Edit): (r: seq<Item>) {
    Present(ComparatorItem(e)) + Present(LogItem(e)) + Present(PrevLogItem(e)) + Present(NextFileItem(e)) + Present(LastItem(e))
  }

  function Pointers(ps: seq<(nat, Bytes)>): (r: seq<Item>)
    ensures |r| == |ps|
  {
    if ps == [] then [] else Pointers(ps[..|ps| - 1]) + [Pointer(ps[|ps| - 1].0, ps[|ps| - 1].1)]
  }

  function Deletions(ds: seq<(nat, nat)>): (r: seq<Item>)
    ensures |r| == |ds|
  {
    if ds == [] then [] else Deletions(ds[..|ds| - 1]) + [Deleted(ds[|ds| - 1].0, ds[|ds| - 1].1)]
  }

  function Additions(as_: seq<(nat, Meta)>): (r: seq<Item>)
    ensures |r| == |as_|
  {
    if as_ == [] then [] else Additions(as_[..|as_| - 1]) + [New(as_[|as_| - 1].0, as_[|as_| - 1].1)]
  }

  function Items(e: Edit): (r: seq<Item>) {
    Fields(e) + Pointers(e.pointers) + Deletions(e.deleted) + Additions(e.added)
  }

  lemma {:induction false} ApplyPointers(e: Edit, ps: seq<(nat, Bytes)>)
    ensures ApplyAll(e, Pointers(ps)) == e.(pointers := e.pointers + ps)
  {
    if ps != [] {
      var front := ps[..|ps| - 1];
      ApplyPointers(e, front);
      ApplyOne(e, Pointers(front), Pointer(ps[|ps| - 1].0, ps[|ps| - 1].1));
      assert ps == front + [ps[|ps| - 1]];
    }
  }

  lemma {:induction false} ApplyDeletions(e: Edit, ds: seq<(nat, nat)>)
    requires e.deleted == [] && Increasing(ds)
    ensures ApplyAll(e, Deletions(ds)) == e.(deleted := ds)
  {
    if ds != [] {
      var front, last := ds[..|ds| - 1], ds[|ds| - 1];
      ApplyDeletions(e, front);
      ApplyOne(e, Deletions(front), Deleted(last.0, last.1));
      InsertAtEnd(front, last);
      assert ds == front + [last];
    }
  }

  lemma {:induction false} ApplyAdditions(e: Edit, as_: seq<(nat, Meta)>)
    ensures ApplyAll(e, Additions(as_)) == e.(added := e.added + as_)
  {
    if as_ != [] {
      var front := as_[..|as_| - 1];
      ApplyAdditions(e, front);
      ApplyOne(e, Additions(front), New(as_[|as_| - 1].0, as_[|as_| - 1].1));
      assert as_ == front + [as_[|as_| - 1]];
    }
  }

  lemma ApplyFields(e: Edit)
    ensures ApplyAll(EmptyEdit(), Fields(e)) == e.(pointers := [], deleted := [], added := [])
  {
    var f1, f2, f3 := Present(ComparatorItem(e)), Present(LogItem(e)), Present(PrevLogItem(e));
    var f4, f5 := Present(NextFileItem(e)), Present(LastItem(e));
    var e0 := EmptyEdit();
    ApplyAppend(e0, f1 + f2 + f3 + f4, f5);
    ApplyAppend(e0, f1 + f2 + f3, f4);
    ApplyAppend(e0, f1 + f2, f3);
    ApplyAppend(e0, f1, f2);
    ApplySingle(e0, f1);
    ApplySingle(ApplyAll(e0, f1), f2);
    ApplySingle(ApplyAll(ApplyAll(e0, f1), f2), f3);
    ApplySingle(ApplyAll(ApplyAll(ApplyAll(e0, f1), f2), f3), f4);
    ApplySingle(ApplyAll(ApplyAll(ApplyAll(ApplyAll(e0, f1), f2), f3), f4), f5);
  }

  lemma ApplySingle(e: Edit, xs: seq<Item>)
    requires |xs| <= 1
    ensures ApplyAll(e, xs) == if xs == [] then e else ApplyItem(e, xs[0])
  {
    if xs != [] {
      assert xs[1..] == [];
    }
  }

  /** An edit is rebuilt, from a fresh one, by its own fields. */
  lemma ItemsRebuild(e: Edit)
    requires Increasing(e.deleted)
    ensures ApplyAll(EmptyEdit(), Items(e)) == e
  {
    var a, b, c, d := Fields(e), Pointers(e.pointers), Deletions(e.deleted), Additions(e.added);
    var e0 := EmptyEdit();
    ApplyAppend(e0, a + b + c, d);
    ApplyAppend(e0, a + b, c);
    ApplyAppend(e0, a, b);
    ApplyFields(e);
    ApplyPointers(ApplyAll(e0, a), e.pointers);
    ApplyDeletions(ApplyAll(ApplyAll(e0, a), b), e.deleted);
    ApplyAdditions(ApplyAll(ApplyAll(ApplyAll(e0, a), b), c), e.added);
  }

  predicate EditOk(e: Edit) { Increasing(e.deleted) && ItemsOk(Items(e)) }

  /** Decoding an encoded edit into a fresh edit gives the edit back. */
  lemma EditRoundTrip(e: Edit)
    requires EditOk(e)
    ensures ReadEdit(Wire(Items(e)), EmptyEdit()) == Some(e)
  {
    ReadsItems(Items(e), EmptyEdit());
    ItemsRebuild(e);
  }

  function WithPointers(e: Edit, ps: seq<(nat, Bytes)>): (r: Edit) { e.(pointers := ps + e.pointers) }

  lemma {:induction false} PointersStay(e: Edit, ps: seq<(nat, Bytes)>, items: seq<Item>)
    ensures ApplyAll(WithPointers(e, ps), items) == WithPointers(ApplyAll(e, items), ps)
    decreases |items|
  {
    if items != [] {
      PointersStay(ApplyItem(e, items[0]), ps, items[1..]);
      if items[0].Pointer? {
        var p := (items[0].level, items[0].key);
        assert ps + e.pointers + [p] == ps + (e.pointers + [p]);
      }
    }
  }

  /** Clear leaves the compaction pointers: decoding into a used edit puts the old ones in front. */
  lemma UsedEditKeepsPointers(e: Edit, ps: seq<(nat, Bytes)>)
    requires EditOk(e)
    ensures ReadEdit(Wire(Items(e)), WithPointers(EmptyEdit(), ps)) == Some(WithPointers(e, ps))
  {
    ReadsItems(Items(e), WithPointers(EmptyEdit(), ps));
    PointersStay(EmptyEdit(), ps, Items(e));
    ItemsRebuild(e);
  }

  // ----- the loops

  lemma ItemsAssoc(a: seq<Item>, b: seq<Item>, x: Item)
    ensures a + (b + [x]) == a + b + [x]
  {
  }

  lemma WireOne(xs: seq<Item>, x: Item)
    ensures Wire(xs + [x]) == Wire(xs) + EncodeItem(x)
  {
    WireAppend(xs, [x]);
    WireFirst([x]);
    assert [x][1..] == [];
    assert EncodeItem(x) + [] == EncodeItem(x);
  }

  /** EncodeTo */
  method EncodeTo(e: Edit) returns (dst: Bytes)
    ensures dst == Wire(Items(e))
  {
    dst := PutFields(e);
    dst := PutPointers(dst, Fields(e), e.pointers);
    dst := PutDeletions(dst, Fields(e) + Pointers(e.pointers), e.deleted);
    dst := PutAdditions(dst, Fields(e) + Pointers(e.pointers) + Deletions(e.deleted), e.added);
  }

  method PutFields(e: Edit) returns (dst: Bytes)
    ensures dst == Wire(Fields(e))
  {
    dst := PutField([], [], ComparatorItem(e));
    assert [] + Present(ComparatorItem(e)) == Present(ComparatorItem(e));
    dst := PutField(dst, Present(ComparatorItem(e)), LogItem(e));
    dst := PutField(dst, Present(ComparatorItem(e)) + Present(LogItem(e)), PrevLogItem(e));
    dst := PutField(dst, Present(ComparatorItem(e)) + Present(LogItem(e)) + Present(PrevLogItem(e)), NextFileItem(e));
    dst := PutField(dst, Present(ComparatorItem(e)) + Present(LogItem(e)) + Present(PrevLogItem(e)) + Present(NextFileItem(e)), LastItem(e));
  }

  method PutField(dst: Bytes, ghost done: seq<Item>, i: Option<Item>) returns (r: Bytes)
    requires dst == Wire(done)
    ensures r == Wire(done + Present(i))
  {
    if i.None? {
      assert done + [] == done;
      return dst;
    }
    WireOne(done, i.value);
    r := dst + EncodeItem(i.value);
  }

  lemma PointersStep(before: seq<Item>, ps: seq<(nat, Bytes)>, i: nat)
    requires i < |ps|
    ensures Wire(before + Pointers(ps[..i + 1])) == Wire(before + Pointers(ps[..i])) + EncodeItem(Pointer(ps[i].0, ps[i].1))
  {
    var x := Pointer(ps[i].0, ps[i].1);
    assert ps[..i + 1][..i] == ps[..i];
    assert Pointers(ps[..i + 1]) == Pointers(ps[..i]) + [x];
    ItemsAssoc(before, Pointers(ps[..i]), x);
    WireOne(before + Pointers(ps[..i]), x);
  }

  method PutPointers(dst: Bytes, ghost before: seq<Item>, ps: seq<(nat, Bytes)>) returns (r: Bytes)
    requires dst == Wire(before)
    ensures r == Wire(before + Pointers(ps))
  {
    r := dst;
    assert before + Pointers([]) == before && ps[..0] == [];
    for i := 0 to |ps|
      invariant r == Wire(before + Pointers(ps[..i]))
    {
      PointersStep(before, ps, i);
      r := r + EncodeItem(Pointer(ps[i].0, ps[i].1));
    }
    assert ps[..|ps|] == ps;
  }

  lemma DeletionsStep(before: seq<Item>, ds: seq<(nat, nat)>, i: nat)
    requires i < |ds|
    ensures Wire(before + Deletions(ds[..i + 1])) == Wire(before + Deletions(ds[..i])) + EncodeItem(Deleted(ds[i].0, ds[i].1))
  {
    var x := Deleted(ds[i].0, ds[i].1);
    assert ds[..i + 1][..i] == ds[..i];
    assert Deletions(ds[..i + 1]) == Deletions(ds[..i]) + [x];
    ItemsAssoc(before, Deletions(ds[..i]), x);
    WireOne(before + Deletions(ds[..i]), x);
  }

  method PutDeletions(dst: Bytes, ghost before: seq<Item>, ds: seq<(nat, nat)>) returns (r: Bytes)
    requires dst == Wire(before)
    ensures r == Wire(before + Deletions(ds))
  {
    r := dst;
    assert before + Deletions([]) == before && ds[..0] == [];
    for i := 0 to |ds|
      invariant r == Wire(before + Deletions(ds[..i]))
    {
      DeletionsStep(before, ds, i);
      r := r + EncodeItem(Deleted(ds[i].0, ds[i].1));
    }
    assert ds[..|ds|] == ds;
  }

  lemma AdditionsStep(before: seq<Item>, as_: seq<(nat, Meta)>, i: nat)
    requires i < |as_|
    ensures Wire(before + Additions(as_[..i + 1])) == Wire(before + Additions(as_[..i])) + EncodeItem(New(as_[i].0, as_[i].1))
  {
    var x := New(as_[i].0, as_[i].1);
    assert as_[..i + 1][..i] == as_[..i];
    assert Additions(as_[..i + 1]) == Additions(as_[..i]) + [x];
    ItemsAssoc(before, Additions(as_[..i]), x);
    WireOne(before + Additions(as_[..i]), x);
  }

  method PutAdditions(dst: Bytes, ghost before: seq<Item>, as_: seq<(nat, Meta)>) returns (r: Bytes)
    requires dst == Wire(before)
    ensures r == Wire(before + Additions(as_))
  {
    r := dst;
    assert before + Additions([]) == before && as_[..0] == [];
    for i := 0 to |as_|
      invariant r == Wire(before + Additions(as_[..i]))
    {
      AdditionsStep(before, as_, i);
      r := r + EncodeItem(New(as_[i].0, as_[i].1));
    }
    assert as_[..|as_|] == as_;
  }

  /** DecodeFrom into a fresh edit. */
  method DecodeFrom(src: Bytes) returns (r: Option<Edit>)
    ensures r == ReadEdit(src, EmptyEdit())
  {
    var input, e := src, EmptyEdit();
    while true
      invariant ReadEdit(input, e) == ReadEdit(src, EmptyEdit())
      decreases |input|
    {
      var t := Read32(input);
      if t.Fail? {
        return if input == [] then Some(e) else None;
      }
      var i := ReadBody(t.value, t.rest);
      if i.Fail? {
        return None;
      }
      e := ApplyItem(e, i.value);
      input := i.rest;
    }
  }
}

/** The write-ahead log: records cut into fragments that never cross a 32 KB block, and a reader that
    reassembles them from any byte prefix of the file. */
module Log {
  import opened Keys
  import opened Crc32c

  const BLOCK_SIZE := 32768
  const HEADER_SIZE := 7

  const FULL: Byte := 1
  const FIRST: Byte := 2
  const MIDDLE: Byte := 3
  const LAST: Byte := 4
  const EOF_RECORD: Byte := 5
  const BAD_RECORD: Byte := 6

  // ----- layout

  datatype Fragment = Fragment(kind: Byte, data: Bytes)

  function Zeros(n: nat): (r: Bytes)
    ensures |r| == n
  {
    seq(n, _ => 0)
  }

  /** Filler bytes before the next physical record at file position p. */
  function Pad(p: nat): nat {
    var left := BLOCK_SIZE - p % BLOCK_SIZE;
    if left < HEADER_SIZE then left else 0
  }

  /** Payload bytes that still fit into the block of the next physical record. */
  function Room(p: nat): nat {
    var left := BLOCK_SIZE - p % BLOCK_SIZE;
    if left < HEADER_SIZE then BLOCK_SIZE - HEADER_SIZE else left - HEADER_SIZE
  }

  /** EmitPhysicalRecord: masked crc of type and payload, length, type, payload. */
  function Physical(f: Fragment): (r: Bytes)
    requires |f.data| <= 0xffff
    ensures |r| == HEADER_SIZE + |f.data|
  {
    EncodeFixed32(Mask(Extend(CrcValue([f.kind]), f.data))) + [|f.data| % 256, |f.data| / 256, f.kind] + f.data
  }

  /** File position after a physical record whose predecessor ended at p. */
  function After(p: nat, f: Fragment): nat { p + Pad(p) + HEADER_SIZE + |f.data| }

  /** No fragment crosses a block. */
  ghost predicate Fit(p: nat, fs: seq<Fragment>)
    decreases |fs|
  {
    fs == [] || (|fs[0].data| <= Room(p) && FULL <= fs[0].kind <= LAST && Fit(After(p, fs[0]), fs[1..]))
  }

  ghost function Layout(p: nat, fs: seq<Fragment>): Bytes
    requires Fit(p, fs)
    decreases |fs|
  {
    if fs == [] then [] else Zeros(Pad(p)) + Physical(fs[0]) + Layout(After(p, fs[0]), fs[1..])
  }

  function KindOf(begin: bool, end: bool): Byte {
    if begin && end then FULL else if begin then FIRST else if end then LAST else MIDDLE
  }

  /** The fragments of one record written at position p. */
  ghost function Fragments(p: nat, data: Bytes, begin: bool): seq<Fragment>
    decreases |data|, Room(p) == 0
  {
    if |data| <= Room(p) then [Fragment(KindOf(begin, true), data)]
    else
      var f := Fragment(KindOf(begin, false), data[..Room(p)]);
      NextRoom(p);
      [f] + Fragments(After(p, f), data[Room(p)..], false)
  }

  lemma NextRoom(p: nat)
    ensures forall f: Fragment :: |f.data| == Room(p) ==> Room(After(p, f)) == BLOCK_SIZE - HEADER_SIZE && After(p, f) % BLOCK_SIZE == 0
  {
  }

  lemma {:induction false} FragmentsFit(p: nat, data: Bytes, begin: bool)
    ensures Fit(p, Fragments(p, data, begin))
    decreases |data|, Room(p) == 0
  {
    if |data| > Room(p) {
      var f := Fragment(KindOf(begin, false), data[..Room(p)]);
      NextRoom(p);
      FragmentsFit(After(p, f), data[Room(p)..], false);
      assert ([f] + Fragments(After(p, f), data[Room(p)..], false))[1..] == Fragments(After(p, f), data[Room(p)..], false);
    }
  }

  /** Where a list of fragments ends. */
  ghost function EndOf(p: nat, fs: seq<Fragment>): (r: nat)
    ensures r >= p
    decreases |fs|
  {
    if fs == [] then p else EndOf(After(p, fs[0]), fs[1..])
  }

  ghost function RecordEnd(p: nat, data: Bytes): nat { EndOf(p, Fragments(p, data, true)) }

  ghost function LogFragments(p: nat, rs: seq<Bytes>): seq<Fragment>
    decreases |rs|
  {
    if rs == [] then [] else Fragments(p, rs[0], true) + LogFragments(RecordEnd(p, rs[0]), rs[1..])
  }

  lemma {:induction false} FitConcat(p: nat, a: seq<Fragment>, b: seq<Fragment>)
    requires Fit(p, a) && Fit(EndOf(p, a), b)
    ensures Fit(p, a + b) && EndOf(p, a + b) == EndOf(EndOf(p, a), b)
    decreases |a|
  {
    if a == [] {
      assert a + b == b;
    } else {
      assert (a + b)[1..] == a[1..] + b;
      FitConcat(After(p, a[0]), a[1..], b);
    }
  }

  lemma Regroup(a: Bytes, b: Bytes, c: Bytes, d: Bytes)
    ensures a + b + c + d == a + (b + c + d)
    ensures a + b + (c + d) == a + b + c + d
  {
  }

  lemma {:induction false} LayoutConcat(p: nat, a: seq<Fragment>, b: seq<Fragment>)
    requires Fit(p, a) && Fit(EndOf(p, a), b) && Fit(p, a + b)
    ensures Layout(p, a + b) == Layout(p, a) + Layout(EndOf(p, a), b)
    decreases |a|
  {
    if a == [] {
      assert a + b == b;
    } else {
      assert (a + b)[1..] == a[1..] + b;
      LayoutConcat(After(p, a[0]), a[1..], b);
      Regroup(Zeros(Pad(p)), Physical(a[0]), Layout(After(p, a[0]), a[1..]), Layout(EndOf(p, a), b));
    }
  }

  lemma {:induction false} LogFits(p: nat, rs: seq<Bytes>)
    ensures Fit(p, LogFragments(p, rs))
    decreases |rs|
  {
    if rs != [] {
      FragmentsFit(p, rs[0], true);
      LogFits(RecordEnd(p, rs[0]), rs[1..]);
      FitConcat(p, Fragments(p, rs[0], true), LogFragments(RecordEnd(p, rs[0]), rs[1..]));
    }
  }

  /** The bytes of a log that holds the records rs. */
  ghost function LogBytes(rs: seq<Bytes>): Bytes {
    LogFits(0, rs);
    Layout(0, LogFragments(0, rs))
  }

  /** How many of the records, written from p on, end within the first n bytes. */
  ghost function Complete(p: nat, rs: seq<Bytes>, n: nat): (r: nat)
    ensures r <= |rs|
    decreases |rs|
  {
    if rs == [] || RecordEnd(p, rs[0]) > n then 0 else 1 + Complete(RecordEnd(p, rs[0]), rs[1..], n)
  }

  lemma {:induction false} LayoutLength(p: nat, fs: seq<Fragment>)
    requires Fit(p, fs)
    ensures |Layout(p, fs)| == EndOf(p, fs) - p
    decreases |fs|
  {
    if fs != [] {
      LayoutLength(After(p, fs[0]), fs[1..]);
    }
  }

  lemma SameOffset(a: nat, b: nat, n: nat)
    requires a % BLOCK_SIZE == b % BLOCK_SIZE
    ensures (a + n) % BLOCK_SIZE == (b + n) % BLOCK_SIZE
  {
    assert a == a / BLOCK_SIZE * BLOCK_SIZE + a % BLOCK_SIZE;
    assert b == b / BLOCK_SIZE * BLOCK_SIZE + b % BLOCK_SIZE;
  }

  lemma OffsetCases(b: nat, d: nat)
    requires b <= BLOCK_SIZE && b % BLOCK_SIZE == d % BLOCK_SIZE
    ensures b == d % BLOCK_SIZE || (b == BLOCK_SIZE && d % BLOCK_SIZE == 0)
  {
  }

  // ----- writer

  class Writer {
    var dest: Bytes
    var blockOffset: nat

    ghost predicate Valid()
      reads this
    {
      blockOffset <= BLOCK_SIZE && blockOffset % BLOCK_SIZE == |dest| % BLOCK_SIZE
    }

    constructor ()
      ensures Valid() && dest == []
    {
      dest, blockOffset := [], 0;
    }

    method EmitPhysicalRecord(f: Fragment)
      requires blockOffset + HEADER_SIZE + |f.data| <= BLOCK_SIZE && Valid()
      modifies this
      ensures Valid() && dest == old(dest) + Physical(f)
    {
      SameOffset(blockOffset, |dest|, HEADER_SIZE + |f.data|);
      dest := dest + Physical(f);
      blockOffset := blockOffset + HEADER_SIZE + |f.data|;
    }

    /** Switch to a new block if no header fits into this one. */
    method SwitchBlock()
      requires Valid()
      modifies this
      ensures Valid() && dest == old(dest) + Zeros(Pad(|old(dest)|))
      ensures BLOCK_SIZE - blockOffset - HEADER_SIZE == Room(|old(dest)|)
    {
      OffsetCases(blockOffset, |dest|);
      var leftover := BLOCK_SIZE - blockOffset;
      if leftover < HEADER_SIZE {
        SameOffset(blockOffset, |dest|, leftover);
        dest := dest + Zeros(leftover);
        blockOffset := 0;
      }
      assert old(dest) + Zeros(0) == old(dest);
    }

    /** One round of the loop in AddRecord: emit what fits. */
    method EmitFragment(left: Bytes, begin: bool) returns (n: nat)
      requires Valid()
      modifies this
      ensures n == (if |left| <= Room(|old(dest)|) then |left| else Room(|old(dest)|))
      ensures Valid()
      ensures dest == old(dest) + Zeros(Pad(|old(dest)|)) + Physical(Fragment(KindOf(begin, n == |left|), left[..n]))
    {
      SwitchBlock();
      var avail := BLOCK_SIZE - blockOffset - HEADER_SIZE;
      n := if |left| < avail then |left| else avail;
      EmitPhysicalRecord(Fragment(KindOf(begin, n == |left|), left[..n]));
    }

    /** AddRecord appends exactly the fragments of the record. */
    method AddRecord(data: Bytes)
      requires Valid()
      modifies this
      ensures Valid()
      ensures Fit(|old(dest)|, Fragments(|old(dest)|, data, true))
      ensures dest == old(dest) + Layout(|old(dest)|, Fragments(|old(dest)|, data, true))
    {
      FragmentsFit(|dest|, data, true);
      var left, begin := data, true;
      ghost var whole := dest + Layout(|dest|, Fragments(|dest|, data, true));
      while true
        invariant Valid()
        invariant Fit(|dest|, Fragments(|dest|, left, begin))
        invariant dest + Layout(|dest|, Fragments(|dest|, left, begin)) == whole
        decreases |left|, Room(|dest|) == 0
      {
        ghost var before, p := dest, |dest|;
        NextRoom(p);
        var n := EmitFragment(left, begin);
        ghost var f := Fragment(KindOf(begin, n == |left|), left[..n]);
        EmitOne(p, left, begin, f);
        ghost var rest := left[n..];
        if n < |left| {
          Regroup(before, Zeros(Pad(p)), Physical(f), Layout(After(p, f), Fragments(After(p, f), rest, false)));
        } else {
          Regroup(before, Zeros(Pad(p)), Physical(f), []);
          assert Physical(f) + [] == Physical(f);
        }
        assert |dest| == After(p, f);
        left := left[n..];
        begin := false;
        if |left| == 0 {
          break;
        }
      }
    }
  }

  /** Layout of a record's fragments starts with the fragment the writer emits. */
  lemma EmitOne(p: nat, left: Bytes, begin: bool, f: Fragment)
    requires var n := if |left| <= Room(p) then |left| else Room(p);
             f == Fragment(KindOf(begin, n == |left|), left[..n])
    ensures Fit(p, Fragments(p, left, begin))
    ensures |f.data| == |left| ==> Layout(p, Fragments(p, left, begin)) == Zeros(Pad(p)) + Physical(f)
    ensures |f.data| < |left| ==>
              && Fit(After(p, f), Fragments(After(p, f), left[|f.data|..], false))
              && Layout(p, Fragments(p, left, begin))
                 == Zeros(Pad(p)) + Physical(f) + Layout(After(p, f), Fragments(After(p, f), left[|f.data|..], false))
  {
    FragmentsFit(p, left, begin);
    if |left| <= Room(p) {
      assert left[..|left|] == left;
    } else {
      var rest := Fragments(After(p, f), left[Room(p)..], false);
      assert ([f] + rest)[1..] == rest;
    }
  }

  // ----- reader

  /** From position p on, the file is a prefix of the layout of fs. */
  ghost predicate Holds(file: Bytes, p: nat, fs: seq<Fragment>) {
    && Fit(p, fs) && p <= |file| <= p + |Layout(p, fs)|
    && file[p..] == Layout(p, fs)[..|file| - p]
  }

  /** The next fragment lies wholly inside the file. */
  ghost predicate Whole(file: Bytes, p: nat, fs: seq<Fragment>) { fs != [] && After(p, fs[0]) <= |file| }

  /** What the reader's buffer holds when everything before p has been consumed: the rest of p's block, as
      far as the file goes. */
  ghost predicate Buffered(file: Bytes, p: nat, filePos: nat, buffer: Bytes, eof: bool) {
    && p <= filePos <= |file| && buffer == file[p..filePos]
    && (filePos == p || filePos <= p - p % BLOCK_SIZE + BLOCK_SIZE)
    && (eof ==> filePos == |file| && (filePos == p || filePos % BLOCK_SIZE != 0))
    && (!eof ==> filePos % BLOCK_SIZE == 0)
  }

  function LengthField(b: Bytes): nat
    requires |b| >= HEADER_SIZE
  {
    var lo: int, hi: int := b[4], b[5];
    lo + 256 * hi
  }

  predicate CrcMatches(b: Bytes)
    requires |b| >= HEADER_SIZE && HEADER_SIZE + LengthField(b) <= |b|
  {
    CrcValue(b[6..HEADER_SIZE + LengthField(b)]) == Unmask(DecodeFixed32(b))
  }

  lemma PhysicalHeader(f: Fragment, b: Bytes)
    requires |f.data| <= 0xffff && |b| >= HEADER_SIZE && b[..HEADER_SIZE] == Physical(f)[..HEADER_SIZE]
    ensures LengthField(b) == |f.data| && b[6] == f.kind
  {
    var ph := Physical(f);
    assert b[4] == b[..HEADER_SIZE][4] && b[5] == b[..HEADER_SIZE][5] && b[6] == b[..HEADER_SIZE][6];
    assert ph[4] == |f.data| % 256 && ph[5] == |f.data| / 256 && ph[6] == f.kind;
  }

  lemma PhysicalBody(f: Fragment, b: Bytes)
    requires |f.data| <= 0xffff && |b| >= HEADER_SIZE + |f.data| && b[..HEADER_SIZE + |f.data|] == Physical(f)
    ensures LengthField(b) == |f.data| && b[HEADER_SIZE..HEADER_SIZE + |f.data|] == f.data && CrcMatches(b)
  {
    var n := HEADER_SIZE + |f.data|;
    assert b[..HEADER_SIZE] == b[..n][..HEADER_SIZE];
    PhysicalHeader(f, b);
    var crc := Extend(CrcValue([f.kind]), f.data);
    assert b[6..n] == b[..n][6..] == [f.kind] + f.data;
    assert b[HEADER_SIZE..n] == b[..n][HEADER_SIZE..];
    ExtendComposes([f.kind], f.data);
    assert b == EncodeFixed32(Mask(crc)) + b[4..];
    FixedRoundTrip(Mask(crc), b[4..]);
    UnmaskMask(crc);
  }

  /** Where the next physical record starts, the file shows as much of it as there is. */
  lemma HoldsHead(file: Bytes, p: nat, fs: seq<Fragment>, b: Bytes)
    requires Holds(file, p, fs) && fs != [] && p + Pad(p) <= |file| && b == file[p + Pad(p)..]
    ensures |fs[0].data| <= 0xffff
    ensures |b| >= HEADER_SIZE ==> b[..HEADER_SIZE] == Physical(fs[0])[..HEADER_SIZE]
    ensures Whole(file, p, fs) ==> b[..HEADER_SIZE + |fs[0].data|] == Physical(fs[0])
  {
    var tail := Layout(After(p, fs[0]), fs[1..]);
    var ph := Physical(fs[0]);
    var all := Zeros(Pad(p)) + ph + tail;
    assert all == Layout(p, fs);
    assert forall i :: 0 <= i < |b| ==> b[i] == file[p..][Pad(p) + i];
    assert forall i :: 0 <= i < |ph| ==> all[Pad(p) + i] == ph[i];
  }

  lemma HoldsTail(file: Bytes, p: nat, fs: seq<Fragment>)
    requires Holds(file, p, fs) && Whole(file, p, fs)
    ensures Holds(file, After(p, fs[0]), fs[1..])
  {
    var tail := Layout(After(p, fs[0]), fs[1..]);
    var head := Zeros(Pad(p)) + Physical(fs[0]);
    assert head + tail == Layout(p, fs);
    var q := After(p, fs[0]);
    forall i | 0 <= i < |file| - q
      ensures file[q..][i] == tail[i]
    {
      assert file[q + i] == file[p..][|head| + i];
    }
  }

  lemma BlockRemainder(p: nat, q: nat, filePos: nat)
    requires q == p + Pad(p) && q < filePos <= q - q % BLOCK_SIZE + BLOCK_SIZE && filePos % BLOCK_SIZE == 0
    ensures Room(p) + HEADER_SIZE == filePos - q
  {
    assert filePos == q - q % BLOCK_SIZE + BLOCK_SIZE;
    if Pad(p) > 0 {
      assert q == p - p % BLOCK_SIZE + BLOCK_SIZE;
      assert q % BLOCK_SIZE == 0;
    }
  }

  lemma PadOnce(p: nat)
    ensures Pad(p + Pad(p)) == 0
  {
    if Pad(p) > 0 {
      assert p + Pad(p) == p - p % BLOCK_SIZE + BLOCK_SIZE;
    }
  }

  lemma LongBufferNeedsNoPad(file: Bytes, q: nat, filePos: nat, buffer: Bytes, eof: bool)
    requires Buffered(file, q, filePos, buffer, eof) && |buffer| >= HEADER_SIZE
    ensures Pad(q) == 0
  {
  }

  lemma AfterInBlock(file: Bytes, q: nat, filePos: nat, buffer: Bytes, eof: bool, n: nat)
    requires Buffered(file, q, filePos, buffer, eof) && 0 < n <= |buffer|
    ensures Buffered(file, q + n, filePos, buffer[n..], eof)
  {
    assert buffer[n..] == file[q + n..filePos];
    if q + n < filePos {
      assert (q + n) - (q + n) % BLOCK_SIZE == q - q % BLOCK_SIZE;
    }
  }

  /** A buffer that starts at a physical record of the log: all of the record is there unless the file
      ends inside it. */
  lemma BufferShows(file: Bytes, p: nat, fs: seq<Fragment>, q: nat, filePos: nat, buffer: Bytes, eof: bool)
    requires Holds(file, p, fs) && q == p + Pad(p) && Buffered(file, q, filePos, buffer, eof) && |buffer| >= HEADER_SIZE
    ensures fs != [] && LengthField(buffer) == |fs[0].data| && buffer[6] == fs[0].kind && FULL <= fs[0].kind <= LAST
    ensures HEADER_SIZE + |fs[0].data| <= |buffer| <==> Whole(file, p, fs)
    ensures !eof ==> Whole(file, p, fs)
    ensures Whole(file, p, fs) ==>
              && CrcMatches(buffer) && buffer[HEADER_SIZE..HEADER_SIZE + |fs[0].data|] == fs[0].data
              && Buffered(file, After(p, fs[0]), filePos, buffer[HEADER_SIZE + |fs[0].data|..], eof)
  {
    assert fs != [];
    var b := file[q..];
    HoldsHead(file, p, fs, b);
    assert buffer == b[..|buffer|];
    assert buffer[..HEADER_SIZE] == b[..HEADER_SIZE];
    PhysicalHeader(fs[0], buffer);
    if !eof {
      BlockRemainder(p, q, filePos);
    }
    if Whole(file, p, fs) {
      BufferBody(file, p, fs[0], q, filePos, buffer, eof, b);
    }
  }

  lemma BufferBody(file: Bytes, p: nat, f: Fragment, q: nat, filePos: nat, buffer: Bytes, eof: bool, b: Bytes)
    requires q == p + Pad(p) && Buffered(file, q, filePos, buffer, eof) && |f.data| <= 0xffff
    requires HEADER_SIZE + |f.data| <= |buffer| <= |b| && buffer == b[..|buffer|] && b[..HEADER_SIZE + |f.data|] == Physical(f)
    ensures LengthField(buffer) == |f.data| && CrcMatches(buffer) && buffer[HEADER_SIZE..HEADER_SIZE + |f.data|] == f.data
    ensures Buffered(file, After(p, f), filePos, buffer[HEADER_SIZE + |f.data|..], eof)
  {
    var n := HEADER_SIZE + |f.data|;
    assert buffer[..n] == b[..n];
    PhysicalBody(f, buffer);
    AfterInBlock(file, q, filePos, buffer, eof, n);
  }

  /** Where the reassembly of a record stands: at q, `todo` is still to come, and then `more`. */
  ghost predicate Reading(file: Bytes, q: nat, todo: Bytes, begin: bool, more: seq<Fragment>, end: nat) {
    && Holds(file, q, Fragments(q, todo, begin) + more)
    && EndOf(q, Fragments(q, todo, begin)) == end
  }

  lemma ReadingLast(file: Bytes, q: nat, todo: Bytes, begin: bool, more: seq<Fragment>, end: nat, fs: seq<Fragment>)
    requires Reading(file, q, todo, begin, more, end) && fs == Fragments(q, todo, begin) + more && |todo| <= Room(q)
    ensures fs != [] && fs[0] == Fragment(KindOf(begin, true), todo) && After(q, fs[0]) == end
    ensures Whole(file, q, fs) ==> Holds(file, end, more)
  {
    var f := Fragment(KindOf(begin, true), todo);
    assert Fragments(q, todo, begin) == [f];
    assert fs == [f] + more && fs[1..] == more;
    assert [f][1..] == [];
    assert EndOf(After(q, f), []) == After(q, f);
    if Whole(file, q, fs) {
      HoldsTail(file, q, fs);
    }
  }

  lemma FragmentsMore(q: nat, todo: Bytes, begin: bool, f: Fragment)
    requires Room(q) < |todo| && f == Fragment(KindOf(begin, false), todo[..Room(q)])
    ensures Fragments(q, todo, begin) == [f] + Fragments(After(q, f), todo[Room(q)..], false)
  {
  }

  lemma ConsAppend(f: Fragment, tail: seq<Fragment>, more: seq<Fragment>)
    ensures ([f] + tail + more)[0] == f && ([f] + tail + more)[1..] == tail + more
  {
  }

  lemma EndCons(q: nat, f: Fragment, tail: seq<Fragment>)
    ensures EndOf(q, [f] + tail) == EndOf(After(q, f), tail)
  {
    assert ([f] + tail)[1..] == tail;
  }

  lemma ReadingMore(file: Bytes, q: nat, todo: Bytes, begin: bool, more: seq<Fragment>, end: nat, fs: seq<Fragment>, n: nat)
    requires Reading(file, q, todo, begin, more, end) && fs == Fragments(q, todo, begin) + more && n == Room(q) < |todo|
    ensures fs != [] && fs[0] == Fragment(KindOf(begin, false), todo[..n]) && After(q, fs[0]) <= end
    ensures Whole(file, q, fs) ==> Reading(file, After(q, fs[0]), todo[n..], false, more, end)
  {
    var f := Fragment(KindOf(begin, false), todo[..n]);
    var tail := Fragments(After(q, f), todo[n..], false);
    FragmentsMore(q, todo, begin, f);
    ConsAppend(f, tail, more);
    EndCons(q, f, tail);
    if Whole(file, q, fs) {
      HoldsTail(file, q, fs);
    }
  }

  /** One physical record of the reassembly, carrying the first n bytes still to come. */
  lemma ReadingStep(file: Bytes, q: nat, todo: Bytes, begin: bool, more: seq<Fragment>, end: nat, fs: seq<Fragment>, n: nat)
    requires Reading(file, q, todo, begin, more, end) && fs == Fragments(q, todo, begin) + more
    requires n == if |todo| <= Room(q) then |todo| else Room(q)
    ensures fs != [] && fs[0] == Fragment(KindOf(begin, n == |todo|), todo[..n]) && After(q, fs[0]) <= end
    ensures n == |todo| ==> After(q, fs[0]) == end && (Whole(file, q, fs) ==> Holds(file, end, more))
    ensures n < |todo| && Whole(file, q, fs) ==> Reading(file, After(q, fs[0]), todo[n..], false, more, end)
  {
    if |todo| <= Room(q) {
      assert todo[..|todo|] == todo;
      ReadingLast(file, q, todo, begin, more, end, fs);
    } else {
      ReadingMore(file, q, todo, begin, more, end, fs, n);
    }
  }

  lemma ReadingStarts(file: Bytes, p: nat, rs: seq<Bytes>)
    requires rs != [] && Holds(file, p, LogFragments(p, rs))
    ensures Reading(file, p, rs[0], true, LogFragments(RecordEnd(p, rs[0]), rs[1..]), RecordEnd(p, rs[0]))
  {
  }

  /** What one physical record does to the record being reassembled; `report` is a corruption report. */
  datatype Assembled = Done(record: Bytes, report: bool) | End | Continue(scratch: Bytes, inFragmented: bool, report: bool)

  /** The switch of ReadRecord. */
  function Assemble(kind: Byte, fragment: Bytes, scratch: Bytes, inFragmented: bool): Assembled {
    if kind == FULL then Done(fragment, inFragmented && scratch != [])
    else if kind == FIRST then Continue(fragment, true, inFragmented && scratch != [])
    else if kind == MIDDLE then (if inFragmented then Continue(scratch + fragment, true, false) else Continue(scratch, false, true))
    else if kind == LAST then (if inFragmented then Done(scratch + fragment, false) else Continue(scratch, false, true))
    else if kind == EOF_RECORD then End
    else Continue([], false, inFragmented || kind != BAD_RECORD)
  }

  /** On the fragments the writer emits, reassembly collects the record without a report. */
  lemma AssembleFollows(scratch: Bytes, todo: Bytes, begin: bool, n: nat)
    requires n <= |todo| && (begin ==> scratch == [])
    ensures var a := Assemble(KindOf(begin, n == |todo|), todo[..n], scratch, !begin);
            if n == |todo| then a == Done(scratch + todo, false) else a == Continue(scratch + todo[..n], true, false)
  {
    assert todo[..|todo|] == todo;
    assert [] + todo == todo;
    assert [] + todo[..n] == todo[..n];
  }

  /** Reassembly of record `rec`, of which `scratch` has been collected, or of nothing if there is no record. */
  ghost predicate Collecting(file: Bytes, q: nat, rs: seq<Bytes>, scratch: Bytes, inFragmented: bool, todo: Bytes,
                             more: seq<Fragment>, end: nat)
  {
    && (!inFragmented ==> scratch == [])
    && (rs != [] ==> Reading(file, q, todo, !inFragmented, more, end) && scratch + todo == rs[0])
  }

  ghost function Upcoming(q: nat, rs: seq<Bytes>, inFragmented: bool, todo: Bytes, more: seq<Fragment>): seq<Fragment> {
    if rs == [] then [] else Fragments(q, todo, !inFragmented) + more
  }

  /** What happens to the collection when the next physical record is read and assembled. */
  lemma CollectStep(file: Bytes, q: nat, rs: seq<Bytes>, scratch: Bytes, inFragmented: bool, todo: Bytes,
                    more: seq<Fragment>, end: nat, fs: seq<Fragment>, kind: Byte, fragment: Bytes, a: Assembled)
    requires Collecting(file, q, rs, scratch, inFragmented, todo, more, end)
    requires fs == Upcoming(q, rs, inFragmented, todo, more)
    requires if Whole(file, q, fs) then kind == fs[0].kind && fragment == fs[0].data else kind == EOF_RECORD
    requires a == Assemble(kind, fragment, scratch, inFragmented)
    ensures a.End? <==> !(rs != [] && Whole(file, q, fs))
    ensures a.End? && rs != [] ==> end > |file|
    ensures a.Done? ==> a == Done(rs[0], false) && After(q, fs[0]) == end <= |file| && Holds(file, end, more)
    ensures a.Continue? ==> !a.report && a.inFragmented && |fragment| <= |todo|
                            && Collecting(file, After(q, fs[0]), rs, a.scratch, a.inFragmented, todo[|fragment|..], more, end)
  {
    if rs != [] {
      var n := if |todo| <= Room(q) then |todo| else Room(q);
      ReadingStep(file, q, todo, !inFragmented, more, end, fs, n);
      if Whole(file, q, fs) {
        assert fragment == todo[..n] && kind == KindOf(!inFragmented, n == |todo|);
        AssembleFollows(scratch, todo, !inFragmented, n);
        Split(scratch, todo, n);
      }
    }
  }

  lemma Split(a: Bytes, b: Bytes, n: nat)
    requires n <= |b|
    ensures a + b[..n] + b[n..] == a + b
  {
  }

  lemma CollectStarts(file: Bytes, p: nat, rs: seq<Bytes>)
    requires rs != [] && Holds(file, p, LogFragments(p, rs))
    ensures Collecting(file, p, rs, [], false, rs[0], LogFragments(RecordEnd(p, rs[0]), rs[1..]), RecordEnd(p, rs[0]))
  {
    ReadingStarts(file, p, rs);
    assert [] + rs[0] == rs[0];
  }

  // ----- what a file says

  /** What the reader finds after a position: a record's type and data, or that the file ends or is damaged; where it
      goes on, and whether it reports a corruption. */
  datatype Found = Found(kind: Byte, data: Bytes, next: nat, report: bool)

  function BlockEnd(q: nat): nat { q - q % BLOCK_SIZE + BLOCK_SIZE }

  /** b is the rest of a block from q on, and `last` if the file ends before the block does. */
  function Checked(b: Bytes, q: nat, last: bool): (r: Found)
    requires |b| >= HEADER_SIZE
    ensures q < r.next <= q + |b|
  {
    var n := LengthField(b);
    if HEADER_SIZE + n > |b| then (if last then Found(EOF_RECORD, [], q + |b|, false) else Found(BAD_RECORD, [], q + |b|, true))
    else if b[6] == 0 && n == 0 then Found(BAD_RECORD, [], q + |b|, false)
    else if !CrcMatches(b) then Found(BAD_RECORD, [], q + |b|, true)
    else Found(b[6], b[HEADER_SIZE..HEADER_SIZE + n], q + HEADER_SIZE + n, false)
  }

  /** The rest of q's block, as far as the file goes. */
  function Rest(file: Bytes, q: nat): (r: Bytes)
    requires q <= |file|
    ensures |r| == (if |file| < BlockEnd(q) then |file| else BlockEnd(q)) - q
  {
    file[q..if |file| < BlockEnd(q) then |file| else BlockEnd(q)]
  }

  lemma RestIsLong(file: Bytes, p: nat)
    requires p + Pad(p) + HEADER_SIZE <= |file|
    ensures |Rest(file, p + Pad(p))| >= HEADER_SIZE
  {
    PadOnce(p);
  }

  function NextPhysical(file: Bytes, p: nat): (r: Found)
    requires p <= |file|
    ensures p <= r.next <= |file| && (r.kind != EOF_RECORD ==> p < r.next)
  {
    var q := p + Pad(p);
    if q + HEADER_SIZE > |file| then Found(EOF_RECORD, [], |file|, false)
    else RestIsLong(file, p); Checked(Rest(file, q), q, |file| < BlockEnd(q))
  }

  function Count(b: bool): nat { if b then 1 else 0 }

  /** The records that a reader at p returns, and how many reports it makes. */
  function Stream(file: Bytes, p: nat, scratch: Bytes, inFragmented: bool): (r: (seq<Bytes>, nat))
    requires p <= |file|
    decreases |file| - p
  {
    var f := NextPhysical(file, p);
    var a := Assemble(f.kind, f.data, scratch, inFragmented);
    if a.End? then ([], 0) else Behind(a, Count(f.report), Stream(file, f.next, ScratchOf(a), a.Continue? && a.inFragmented))
  }

  function ScratchOf(a: Assembled): Bytes { if a.Continue? then a.scratch else [] }

  /** A step of reassembly in front of the rest. */
  function Behind(a: Assembled, n: nat, rest: (seq<Bytes>, nat)): (seq<Bytes>, nat)
    requires !a.End?
  {
    (if a.Done? then [a.record] + rest.0 else rest.0, n + Count(a.report) + rest.1)
  }

  /** One physical record of the stream. */
  lemma StreamStep(file: Bytes, p: nat, scratch: Bytes, inFragmented: bool, f: Found, a: Assembled)
    requires p <= |file| && f == NextPhysical(file, p) && a == Assemble(f.kind, f.data, scratch, inFragmented)
    ensures a.End? ==> Ends(Stream(file, p, scratch, inFragmented), 0)
    ensures a.Done? ==> Prepends(Stream(file, p, scratch, inFragmented), a.record, Count(f.report) + Count(a.report), Stream(file, f.next, [], false))
    ensures a.Continue? ==> Delays(Stream(file, p, scratch, inFragmented), Count(f.report) + Count(a.report), Stream(file, f.next, a.scratch, a.inFragmented))
  {
  }

  ghost predicate Prepends(whole: (seq<Bytes>, nat), record: Bytes, n: nat, rest: (seq<Bytes>, nat)) {
    whole.0 == [record] + rest.0 && whole.1 == n + rest.1
  }

  ghost predicate Ends(whole: (seq<Bytes>, nat), n: nat) { whole.0 == [] && whole.1 == n }

  ghost predicate Delays(whole: (seq<Bytes>, nat), n: nat, rest: (seq<Bytes>, nat)) { whole.0 == rest.0 && whole.1 == n + rest.1 }

  /** The same for what is left of the stream after n reports. */
  lemma AheadStep(whole: (seq<Bytes>, nat), n: nat, file: Bytes, p: nat, scratch: Bytes, inFragmented: bool, f: Found, a: Assembled)
    requires p <= |file| && f == NextPhysical(file, p) && a == Assemble(f.kind, f.data, scratch, inFragmented)
    requires Delays(whole, n, Stream(file, p, scratch, inFragmented))
    ensures a.End? ==> f.kind == EOF_RECORD && Ends(whole, n) && !f.report
    ensures a.Done? ==> Prepends(whole, a.record, n + Count(f.report) + Count(a.report), Stream(file, f.next, [], false))
    ensures a.Continue? ==> Delays(whole, n + Count(f.report) + Count(a.report), Stream(file, f.next, a.scratch, a.inFragmented))
  {
    StreamStep(file, p, scratch, inFragmented, f, a);
  }

  lemma RestIsBuffered(file: Bytes, q: nat)
    requires q <= |file|
    ensures Buffered(file, q, q + |Rest(file, q)|, Rest(file, q), |file| < BlockEnd(q))
  {
  }

  /** On a torn log, the next fragment or the end. */
  lemma PhysicalThere(file: Bytes, p: nat, fs: seq<Fragment>)
    requires Holds(file, p, fs)
    ensures Whole(file, p, fs) ==> NextPhysical(file, p) == Found(fs[0].kind, fs[0].data, After(p, fs[0]), false)
    ensures !Whole(file, p, fs) ==> NextPhysical(file, p).kind == EOF_RECORD
  {
    var q := p + Pad(p);
    if q + HEADER_SIZE <= |file| {
      var b := Rest(file, q);
      RestIsLong(file, p);
      RestIsBuffered(file, q);
      BufferShows(file, p, fs, q, q + |b|, b, |file| < BlockEnd(q));
    }
  }

  lemma CollectOne(file: Bytes, q: nat, rs: seq<Bytes>, scratch: Bytes, inFragmented: bool, todo: Bytes,
                   more: seq<Fragment>, end: nat, f: Found, a: Assembled)
    requires rs != [] && Collecting(file, q, rs, scratch, inFragmented, todo, more, end)
    requires f == NextPhysical(file, q) && a == Assemble(f.kind, f.data, scratch, inFragmented)
    ensures a.End? ==> end > |file|
    ensures a.Done? ==> a == Done(rs[0], false) && !f.report && f.next == end <= |file| && Holds(file, end, more)
    ensures a.Continue? ==> !a.report && a.inFragmented && !f.report && q < f.next && |f.data| <= |todo|
                            && Collecting(file, f.next, rs, a.scratch, a.inFragmented, todo[|f.data|..], more, end)
  {
    var fs := Upcoming(q, rs, inFragmented, todo, more);
    PhysicalThere(file, q, fs);
    CollectStep(file, q, rs, scratch, inFragmented, todo, more, end, fs, f.kind, f.data, a);
  }

  /** A record being collected is completed if all of it is there. */
  lemma {:induction false} CollectsAll(file: Bytes, q: nat, rs: seq<Bytes>, scratch: Bytes, inFragmented: bool, todo: Bytes,
                                       more: seq<Fragment>, end: nat)
    requires rs != [] && Collecting(file, q, rs, scratch, inFragmented, todo, more, end)
    ensures end <= |file| ==> Holds(file, end, more) && Prepends(Stream(file, q, scratch, inFragmented), rs[0], 0, Stream(file, end, [], false))
    ensures end > |file| ==> Ends(Stream(file, q, scratch, inFragmented), 0)
    decreases |file| - q
  {
    var f := NextPhysical(file, q);
    var a := Assemble(f.kind, f.data, scratch, inFragmented);
    CollectOne(file, q, rs, scratch, inFragmented, todo, more, end, f, a);
    StreamStep(file, q, scratch, inFragmented, f, a);
    if a.Continue? {
      CollectsAll(file, f.next, rs, a.scratch, a.inFragmented, todo[|f.data|..], more, end);
    }
  }

  /** Of a byte prefix of a log, exactly the records that end inside it are found, and nothing is reported. */
  lemma {:induction false} TornReads(file: Bytes, p: nat, rs: seq<Bytes>)
    requires Holds(file, p, LogFragments(p, rs))
    ensures Stream(file, p, [], false) == (rs[..Complete(p, rs, |file|)], 0)
    decreases |rs|
  {
    if rs == [] {
      PhysicalThere(file, p, []);
    } else {
      var end := RecordEnd(p, rs[0]);
      CollectStarts(file, p, rs);
      CollectsAll(file, p, rs, [], false, rs[0], LogFragments(end, rs[1..]), end);
      if end <= |file| {
        TornReads(file, end, rs[1..]);
        FirstOf(rs, Complete(end, rs[1..], |file|));
        assert Stream(file, p, [], false).0 == rs[..Complete(p, rs, |file|)];
      }
    }
  }

  lemma FirstOf(rs: seq<Bytes>, n: nat)
    requires rs != [] && n < |rs|
    ensures [rs[0]] + rs[1..][..n] == rs[..n + 1]
  {
  }

  ghost predicate Took(f: Found, kind: Byte, fragment: Bytes, reported: int) {
    kind == f.kind && fragment == f.data && reported == Count(f.report)
  }

  class Reader {
    const file: Bytes
    var filePos: nat
    var buffer: Bytes
    var eof: bool
    /** Calls of ReportCorruption. */
    var reports: nat

    constructor (file: Bytes)
      ensures this.file == file && reports == 0 && At(0)
    {
      this.file := file;
      filePos, buffer, eof, reports := 0, [], false, 0;
    }

    /** Everything before p has been consumed. */
    ghost predicate At(p: nat)
      reads this
    {
      Buffered(file, p, filePos, buffer, eof)
    }

    /** Read the next block, discarding what is left of this one. */
    method Refill(ghost p: nat)
      requires !eof && |buffer| < HEADER_SIZE && At(p)
      modifies this
      ensures reports == old(reports) && At(p + Pad(p)) && p + Pad(p) <= |file|
      ensures !eof ==> filePos == old(filePos) + BLOCK_SIZE
    {
      var n := if |file| - filePos < BLOCK_SIZE then |file| - filePos else BLOCK_SIZE;
      buffer := file[filePos..filePos + n];
      filePos := filePos + n;
      if n < BLOCK_SIZE {
        eof := true;
      }
    }

    /** The part of ReadPhysicalRecord that parses a header and checks the record. */
    method TakeRecord(ghost q: nat) returns (kind: Byte, fragment: Bytes)
      requires |buffer| >= HEADER_SIZE && At(q)
      modifies this
      ensures eof == old(eof)
      ensures Took(Checked(old(buffer), q, eof), kind, fragment, reports - old(reports)) && At(Checked(old(buffer), q, eof).next)
    {
      var length := LengthField(buffer);
      var kind0 := buffer[6];
      if HEADER_SIZE + length > |buffer| {
        buffer := [];
        if !eof {
          reports := reports + 1;
          return BAD_RECORD, [];
        }
        return EOF_RECORD, [];
      }
      if kind0 == 0 && length == 0 {
        buffer := [];
        return BAD_RECORD, [];
      }
      if !CrcMatches(buffer) {
        buffer := [];
        reports := reports + 1;
        return BAD_RECORD, [];
      }
      AfterInBlock(file, q, filePos, buffer, eof, HEADER_SIZE + length);
      kind, fragment := kind0, buffer[HEADER_SIZE..HEADER_SIZE + length];
      buffer := buffer[HEADER_SIZE + length..];
    }

    /** ReadPhysicalRecord with initial offset 0. */
    method ReadPhysicalRecord(ghost p: nat) returns (kind: Byte, fragment: Bytes)
      requires At(p)
      modifies this
      ensures Took(NextPhysical(file, p), kind, fragment, reports - old(reports)) && At(NextPhysical(file, p).next)
    {
      ghost var q: nat := p;
      while |buffer| < HEADER_SIZE
        invariant At(q) && reports == old(reports) && (q == p || q == p + Pad(p))
        decreases !eof, |file| - filePos
      {
        if eof {
          ShortBuffer(file, p, q, filePos, buffer);
          buffer := [];
          return EOF_RECORD, [];
        }
        PadOnce(p);
        Refill(q);
        q := q + Pad(q);
      }
      LongBuffer(file, p, q, filePos, buffer, eof);
      kind, fragment := TakeRecord(q);
    }

    /** ReadRecord with initial offset 0: the next record of the file, or that there is none. */
    method ReadRecord(ghost p: nat) returns (ok: bool, record: Bytes, ghost next: nat)
      requires At(p)
      modifies this
      ensures At(next) && (ok ==> p < next)
      ensures reports >= old(reports)
      ensures ok ==> Prepends(Stream(file, p, [], false), record, reports - old(reports), Stream(file, next, [], false))
      ensures !ok ==> Ends(Stream(file, p, [], false), reports - old(reports))
    {
      next := p;
      var scratch: Bytes, inFragmented := [], false;
      ghost var whole := Stream(file, p, [], false);
      while true
        invariant At(next) && p <= next && reports >= old(reports)
        invariant Delays(whole, reports - old(reports), Stream(file, next, scratch, inFragmented))
        decreases |file| - next
      {
        ghost var f, n := NextPhysical(file, next), reports - old(reports);
        var kind, fragment := ReadPhysicalRecord(next);
        var a := Assemble(kind, fragment, scratch, inFragmented);
        AheadStep(whole, n, file, next, scratch, inFragmented, f, a);
        next := f.next;
        if a.End? {
          return false, [], next;
        }
        if a.report {
          reports := reports + 1;
        }
        if a.Done? {
          return true, a.record, next;
        }
        scratch, inFragmented := a.scratch, a.inFragmented;
      }
    }
  }

  lemma ShortBuffer(file: Bytes, p: nat, q: nat, filePos: nat, buffer: Bytes)
    requires Buffered(file, q, filePos, buffer, true) && |buffer| < HEADER_SIZE && (q == p || q == p + Pad(p))
    ensures NextPhysical(file, p) == Found(EOF_RECORD, [], |file|, false)
  {
  }

  lemma LongBuffer(file: Bytes, p: nat, q: nat, filePos: nat, buffer: Bytes, eof: bool)
    requires Buffered(file, q, filePos, buffer, eof) && |buffer| >= HEADER_SIZE && (q == p || q == p + Pad(p))
    ensures p <= |file| && NextPhysical(file, p) == Checked(buffer, q, eof)
  {
    PadOnce(p);
    LongBufferNeedsNoPad(file, q, filePos, buffer, eof);
    assert buffer == Rest(file, q) && eof == (|file| < BlockEnd(q));
  }

  // ----- whole logs

  lemma LogStep(p: nat, rs: seq<Bytes>, q: nat)
    requires rs != [] && q == RecordEnd(p, rs[0])
    ensures Fit(p, Fragments(p, rs[0], true)) && Fit(p, LogFragments(p, rs)) && Fit(q, LogFragments(q, rs[1..]))
    ensures |Layout(p, Fragments(p, rs[0], true))| == q - p
    ensures Layout(p, LogFragments(p, rs)) == Layout(p, Fragments(p, rs[0], true)) + Layout(q, LogFragments(q, rs[1..]))
  {
    FragmentsFit(p, rs[0], true);
    LogFits(p, rs);
    LogFits(q, rs[1..]);
    LayoutLength(p, Fragments(p, rs[0], true));
    LayoutConcat(p, Fragments(p, rs[0], true), LogFragments(q, rs[1..]));
  }

  /** `dest` followed by the layout of rs is `whole`. */
  ghost predicate Completes(dest: Bytes, rs: seq<Bytes>, whole: Bytes) {
    Fit(|dest|, LogFragments(|dest|, rs)) && dest + Layout(|dest|, LogFragments(|dest|, rs)) == whole
  }

  lemma Associate(a: Bytes, b: Bytes, c: Bytes)
    ensures a + (b + c) == (a + b) + c
  {
  }

  lemma CompletesStep(dest: Bytes, rs: seq<Bytes>, whole: Bytes, dest': Bytes)
    requires rs != [] && Completes(dest, rs, whole) && Fit(|dest|, Fragments(|dest|, rs[0], true))
    requires dest' == dest + Layout(|dest|, Fragments(|dest|, rs[0], true))
    ensures Completes(dest', rs[1..], whole)
  {
    var fr := Fragments(|dest|, rs[0], true);
    LayoutLength(|dest|, fr);
    LogStep(|dest|, rs, |dest'|);
    Associate(dest, Layout(|dest|, fr), Layout(|dest'|, LogFragments(|dest'|, rs[1..])));
  }

  /** Adding the records one by one writes the log. */
  method WriteLog(rs: seq<Bytes>) returns (bytes: Bytes)
    ensures bytes == LogBytes(rs)
  {
    var w := new Writer();
    var i := 0;
    ghost var whole := LogBytes(rs);
    LogFits(0, rs);
    assert rs[0..] == rs;
    assert Completes([], rs, whole);
    while i < |rs|
      invariant 0 <= i <= |rs| && w.Valid()
      invariant Completes(w.dest, rs[i..], whole)
    {
      ghost var before := w.dest;
      w.AddRecord(rs[i]);
      CompletesStep(before, rs[i..], whole, w.dest);
      assert rs[i..][1..] == rs[i + 1..];
      i := i + 1;
    }
    assert rs[i..] == [];
    assert w.dest + [] == w.dest;
    bytes := w.dest;
  }

  /** The loop of RecoverLogFile and VersionSet::Recover: read records until there are no more. */
  method ReadLog(file: Bytes) returns (records: seq<Bytes>, reports: nat)
    ensures (records, reports) == Stream(file, 0, [], false)
  {
    var r := new Reader(file);
    records := [];
    ghost var p: nat, whole := 0, Stream(file, 0, [], false);
    while true
      invariant fresh(r) && r.file == file && r.At(p)
      invariant SoFar(whole, records, r.reports, Stream(file, p, [], false))
      decreases |file| - p
    {
      ghost var next, before := 0, r.reports;
      var ok, record;
      ok, record, next := r.ReadRecord(p);
      if !ok {
        break;
      }
      OneMore(whole, records, before, Stream(file, p, [], false), record, r.reports - before, Stream(file, next, [], false));
      records := records + [record];
      p := next;
    }
    reports := r.reports;
    assert records + [] == records;
  }

  /** Of the whole stream, these records and reports are behind the reader, and the rest is ahead. */
  ghost predicate SoFar(whole: (seq<Bytes>, nat), records: seq<Bytes>, reports: nat, rest: (seq<Bytes>, nat)) {
    whole.0 == records + rest.0 && whole.1 == reports + rest.1
  }

  lemma OneMore(whole: (seq<Bytes>, nat), records: seq<Bytes>, reports: nat, rest: (seq<Bytes>, nat), record: Bytes, n: nat, rest': (seq<Bytes>, nat))
    requires SoFar(whole, records, reports, rest) && Prepends(rest, record, n, rest')
    ensures SoFar(whole, records + [record], reports + n, rest')
  {
    assert records + ([record] + rest'.0) == records + [record] + rest'.0;
  }

  lemma PrefixHolds(file: Bytes, rs: seq<Bytes>)
    requires file <= LogBytes(rs)
    ensures Holds(file, 0, LogFragments(0, rs))
  {
    LogFits(0, rs);
    assert file[0..] == file;
  }

  lemma {:induction false} AllComplete(p: nat, rs: seq<Bytes>, n: nat)
    requires Fit(p, LogFragments(p, rs)) && n == p + |Layout(p, LogFragments(p, rs))|
    ensures Complete(p, rs, n) == |rs|
    decreases |rs|
  {
    if rs != [] {
      LogStep(p, rs, RecordEnd(p, rs[0]));
      AllComplete(RecordEnd(p, rs[0]), rs[1..], n);
    }
  }

  lemma TornFile(file: Bytes, rs: seq<Bytes>)
    requires file <= LogBytes(rs)
    ensures Stream(file, 0, [], false) == (rs[..Complete(0, rs, |file|)], 0)
  {
    PrefixHolds(file, rs);
    TornReads(file, 0, rs);
  }

  lemma WholeLog(rs: seq<Bytes>)
    ensures Complete(0, rs, |LogBytes(rs)|) == |rs| && rs[..|rs|] == rs
  {
    LogFits(0, rs);
    AllComplete(0, rs, |LogBytes(rs)|);
  }

  /** Torn-log safety: write records, lose any suffix of the bytes, read. The full log round-trips. */
  method WriteTearRead(rs: seq<Bytes>, n: nat) returns (records: seq<Bytes>, reports: nat)
    ensures n <= |LogBytes(rs)| ==> records == rs[..Complete(0, rs, n)]
    ensures n >= |LogBytes(rs)| ==> records == rs
    ensures reports == 0
  {
    var bytes := WriteLog(rs);
    var file := if n < |bytes| then bytes[..n] else bytes;
    records, reports := ReadLog(file);
    Torn(rs, n, bytes, file);
  }

  lemma Torn(rs: seq<Bytes>, n: nat, whole: Bytes, file: Bytes)
    requires whole == LogBytes(rs) && file == if n < |whole| then whole[..n] else whole
    ensures n <= |whole| ==> Stream(file, 0, [], false) == (rs[..Complete(0, rs, n)], 0)
    ensures n >= |whole| ==> Stream(file, 0, [], false) == (rs, 0)
  {
    WholeLog(rs);
    TornFile(file, rs);
  }
}

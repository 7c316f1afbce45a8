/** The log reader on files that were damaged on disk: what it returns was written, and damage costs no more than the
    records that touch the damaged blocks. */
module LogDamage {
  import opened Keys
  import opened Coding
  import opened Crc32c
  import opened Log
  import opened Formats

  // ----- a checked record is a written one

  lemma MaskUnmask(m: Word)
    ensures Mask(Unmask(m)) == m
  {
    var rot := (m - MASK_DELTA + TWO_32) % TWO_32;
    var crc := Unmask(m);
    assert rot == rot / 131072 * 131072 + rot % 131072;
    assert crc / 32768 == rot % 131072 && crc % 32768 == rot / 131072;
  }

  lemma {:induction false} UnfixedRoundTrip(b: Bytes)
    ensures Fixed(Unfixed(b), |b|) == b
  {
    if b != [] {
      UnfixedRoundTrip(b[1..]);
      LowestByte(b[0], Unfixed(b[1..]));
    }
  }

  lemma LowestByte(x: Byte, n: nat)
    ensures (x + 256 * n) % 256 == x && (x + 256 * n) / 256 == n
  {
  }

  lemma CheckedIsPhysical(b: Bytes)
    requires |b| >= 7 && 7 + LengthField(b) <= |b| && CrcMatches(b)
    ensures var n := LengthField(b); b[..7 + n] == Physical(Fragment(b[6], b[7..7 + n]))
  {
    var n := LengthField(b);
    var data := b[7..7 + n];
    var crc := Extend(CrcValue([b[6]]), data);
    ExtendComposes([b[6]], data);
    assert b[6..7 + n] == [b[6]] + data;
    MaskUnmask(DecodeFixed32(b));
    UnfixedRoundTrip(b[..4]);
    TwoBytes(b[4], b[5], n);
    assert b[..7 + n] == b[..4] + [b[4], b[5], b[6]] + data;
  }

  lemma TwoBytes(lo: Byte, hi: Byte, n: nat)
    requires n == lo + 256 * hi
    ensures n % 256 == lo && n / 256 == hi
  {
  }

  /** The physical record f stands in the file, after position p. */
  ghost predicate Stands(file: Bytes, p: nat, f: Fragment) {
    && |f.data| <= 0xffff && After(p, f) <= |file|
    && file[p + Pad(p)..After(p, f)] == Physical(f)
  }

  lemma FoundStands(file: Bytes, p: nat)
    requires p <= |file| && FULL <= NextPhysical(file, p).kind <= LAST
    ensures var f := NextPhysical(file, p); Stands(file, p, Fragment(f.kind, f.data)) && f.next == After(p, Fragment(f.kind, f.data))
  {
    var q, f := p + Pad(p), NextPhysical(file, p);
    RestIsLong(file, p);
    var b := Rest(file, q);
    CheckedIsPhysical(b);
    assert b[..7 + LengthField(b)] == file[q..q + 7 + LengthField(b)];
  }

  // ----- nothing is invented

  /** The fragments stand in the file one after the other from p on. */
  ghost predicate Lie(file: Bytes, p: nat, fs: seq<Fragment>)
    decreases |fs|
  {
    fs == [] || (Stands(file, p, fs[0]) && Lie(file, After(p, fs[0]), fs[1..]))
  }

  lemma {:induction false} OneMoreLies(file: Bytes, p: nat, fs: seq<Fragment>, f: Fragment)
    requires Lie(file, p, fs) && Stands(file, EndOf(p, fs), f)
    ensures Lie(file, p, fs + [f]) && EndOf(p, fs + [f]) == After(EndOf(p, fs), f) && DataOf(fs + [f]) == DataOf(fs) + f.data
    decreases |fs|
  {
    var all := fs + [f];
    if fs == [] {
      assert all == [f] && [f][1..] == [];
      assert f.data + [] == f.data && [] + f.data == f.data;
    } else {
      OneMoreLies(file, After(p, fs[0]), fs[1..], f);
      assert all[1..] == fs[1..] + [f] && all[0] == fs[0];
      Groups3(fs[0].data, DataOf(fs[1..]), f.data);
    }
  }

  /** A record lies in the file from p on, whole, in fragments that follow each other. */
  ghost predicate Written(file: Bytes, p: nat, fs: seq<Fragment>, record: Bytes) {
    Lie(file, p, fs) && InOrder(fs, true, record)
  }

  /** The first fragments of a record lie from s to p. */
  ghost predicate Begun(file: Bytes, s: nat, fs: seq<Fragment>, scratch: Bytes, p: nat) {
    && Lie(file, s, fs) && fs != [] && EndOf(s, fs) == p && DataOf(fs) == scratch
    && fs[0].kind == 2 && forall i :: 0 < i < |fs| ==> fs[i].kind == 3
  }

  lemma Begins(file: Bytes, p: nat, f: Fragment)
    requires Stands(file, p, f)
    ensures f.kind == 2 ==> Begun(file, p, [f], f.data, After(p, f))
    ensures f.kind == 1 ==> Written(file, p, [f], f.data)
    ensures EndOf(p, [f]) == After(p, f)
  {
    assert [] + [f] == [f];
    OneMoreLies(file, p, [], f);
    assert [] + f.data == f.data;
  }

  lemma GoesOn(file: Bytes, s: nat, fs: seq<Fragment>, scratch: Bytes, p: nat, f: Fragment)
    requires Begun(file, s, fs, scratch, p) && Stands(file, p, f)
    ensures f.kind == 3 ==> Begun(file, s, fs + [f], scratch + f.data, After(p, f))
    ensures f.kind == 4 ==> Written(file, s, fs + [f], scratch + f.data)
    ensures EndOf(s, fs + [f]) == After(p, f)
  {
    OneMoreLies(file, s, fs, f);
  }

  /** Where each of the records lies: in order, from lo on, without overlap. */
  ghost predicate Genuine(file: Bytes, lo: nat, records: seq<Bytes>, places: seq<(nat, seq<Fragment>)>)
    decreases |records|
  {
    if records == [] then places == []
    else
      && places != [] && lo <= places[0].0 && Written(file, places[0].0, places[0].1, records[0])
      && Genuine(file, EndOf(places[0].0, places[0].1), records[1..], places[1..])
  }

  lemma GenuineFrom(file: Bytes, lo: nat, lo': nat, records: seq<Bytes>, places: seq<(nat, seq<Fragment>)>)
    requires Genuine(file, lo, records, places) && lo' <= lo
    ensures Genuine(file, lo', records, places)
  {
  }

  lemma GenuineCons(file: Bytes, lo: nat, s: nat, fs: seq<Fragment>, record: Bytes, records: seq<Bytes>, places: seq<(nat, seq<Fragment>)>)
    requires lo <= s && Written(file, s, fs, record) && Genuine(file, EndOf(s, fs), records, places)
    ensures Genuine(file, lo, [record] + records, [(s, fs)] + places)
  {
    var rs, ps := [record] + records, [(s, fs)] + places;
    assert rs[1..] == records && ps[1..] == places && rs[0] == record && ps[0] == (s, fs);
  }

  /** Every record that the reader returns, from any file at all, was written there in one piece. */
  lemma {:induction false} NothingInvented(file: Bytes, p: nat, scratch: Bytes, inFragmented: bool, s: nat, fs: seq<Fragment>)
    returns (places: seq<(nat, seq<Fragment>)>)
    requires p <= |file| && s <= p && (inFragmented ==> Begun(file, s, fs, scratch, p))
    ensures Genuine(file, s, Stream(file, p, scratch, inFragmented).0, places)
    decreases |file| - p
  {
    var f := NextPhysical(file, p);
    var a := Assemble(f.kind, f.data, scratch, inFragmented);
    StreamStep(file, p, scratch, inFragmented, f, a);
    if a.End? {
      places := [];
    } else if FULL <= f.kind <= LAST {
      var g := Fragment(f.kind, f.data);
      FoundStands(file, p);
      if f.kind == FULL {
        Begins(file, p, g);
        var rest := NothingInvented(file, f.next, [], false, f.next, []);
        GenuineCons(file, s, p, [g], f.data, Stream(file, f.next, [], false).0, rest);
        places := [(p, [g])] + rest;
      } else if f.kind == FIRST {
        Begins(file, p, g);
        places := NothingInvented(file, f.next, f.data, true, p, [g]);
        GenuineFrom(file, p, s, Stream(file, p, scratch, inFragmented).0, places);
      } else if !inFragmented {
        places := NothingInvented(file, f.next, scratch, false, f.next, []);
        GenuineFrom(file, f.next, s, Stream(file, p, scratch, inFragmented).0, places);
      } else {
        GoesOn(file, s, fs, scratch, p, g);
        if f.kind == MIDDLE {
          places := NothingInvented(file, f.next, scratch + f.data, true, s, fs + [g]);
        } else {
          var rest := NothingInvented(file, f.next, [], false, f.next, []);
          GenuineCons(file, s, s, fs + [g], scratch + f.data, Stream(file, f.next, [], false).0, rest);
          places := [(s, fs + [g])] + rest;
        }
      }
    } else {
      places := NothingInvented(file, f.next, [], false, f.next, []);
      GenuineFrom(file, f.next, s, Stream(file, p, scratch, inFragmented).0, places);
    }
  }

  // ----- damage

  ghost function Records(file: Bytes, p: nat, scratch: Bytes, inFragmented: bool): seq<Bytes>
    requires p <= |file|
  {
    Stream(file, p, scratch, inFragmented).0
  }

  /** The files agree on [from, to). */
  ghost predicate Agree(a: Bytes, b: Bytes, from: nat, to: nat) {
    |a| == |b| && from <= to <= |a| && a[from..to] == b[from..to]
  }

  lemma AgreeInside(a: Bytes, b: Bytes, from: nat, to: nat, x: nat, y: nat)
    requires Agree(a, b, from, to) && from <= x <= y <= to
    ensures a[x..y] == b[x..y]
  {
    forall i | x <= i < y
      ensures a[i] == b[i]
    {
      assert a[i] == a[from..to][i - from] && b[i] == b[from..to][i - from];
    }
  }

  /** A block ends at or before every later multiple of its size. */
  lemma BlockBefore(q: nat, hi: nat)
    requires hi % BLOCK_SIZE == 0 && q < hi
    ensures q < BlockEnd(q) <= hi
  {
    assert hi == hi / BLOCK_SIZE * BLOCK_SIZE;
    assert q / BLOCK_SIZE < hi / BLOCK_SIZE;
  }

  /** What is found after p depends on one block, which ends by hi. */
  lemma SameFound(a: Bytes, b: Bytes, p: nat, lo: nat, hi: nat)
    requires Agree(a, b, lo, hi) && p + Pad(p) < hi && lo <= p + Pad(p) && p <= |a| && (hi % BLOCK_SIZE == 0 || hi == |a|)
    ensures NextPhysical(a, p) == NextPhysical(b, p)
  {
    var q := p + Pad(p);
    if q + HEADER_SIZE <= |a| {
      RestIsLong(a, p);
      var end := if |a| < BlockEnd(q) then |a| else BlockEnd(q);
      if hi != |a| {
        BlockBefore(q, hi);
      }
      AgreeInside(a, b, lo, hi, q, end);
      assert Rest(a, q) == Rest(b, q);
    }
  }

  /** Beyond lo the files are the same, and so is what is read. */
  lemma {:induction false} SameBeyond(a: Bytes, b: Bytes, p: nat, lo: nat, scratch: Bytes, inFragmented: bool)
    requires Agree(a, b, lo, |a|) && lo <= p <= |a|
    ensures Stream(a, p, scratch, inFragmented) == Stream(b, p, scratch, inFragmented)
    decreases |a| - p
  {
    if p + Pad(p) < |a| {
      SameFound(a, b, p, lo, |a|);
    }
    var f := NextPhysical(a, p);
    assert f == NextPhysical(b, p);
    var r := Assemble(f.kind, f.data, scratch, inFragmented);
    if !r.End? {
      SameBeyond(a, b, f.next, lo, ScratchOf(r), r.Continue? && r.inFragmented);
    }
  }

  /** A record that ends by lo is read from the damaged file too. */
  lemma {:induction false} ReadBefore(a: Bytes, b: Bytes, lo: nat, q: nat, rs: seq<Bytes>, scratch: Bytes, inFragmented: bool,
                                      todo: Bytes, more: seq<Fragment>, end: nat)
    requires Agree(a, b, 0, lo) && lo % BLOCK_SIZE == 0 && end <= lo
    requires rs != [] && Collecting(a, q, rs, scratch, inFragmented, todo, more, end)
    ensures Holds(a, end, more) && Records(b, q, scratch, inFragmented) == [rs[0]] + Records(b, end, [], false)
    decreases |a| - q
  {
    var f := NextPhysical(a, q);
    var s := Assemble(f.kind, f.data, scratch, inFragmented);
    CollectOne(a, q, rs, scratch, inFragmented, todo, more, end, f, s);
    StartsBefore(a, q, rs, scratch, inFragmented, todo, more, end);
    SameFound(a, b, q, 0, lo);
    StreamStep(b, q, scratch, inFragmented, f, s);
    if s.Continue? {
      ReadBefore(a, b, lo, f.next, rs, s.scratch, s.inFragmented, todo[|f.data|..], more, end);
    }
  }

  lemma StartsBefore(a: Bytes, q: nat, rs: seq<Bytes>, scratch: Bytes, inFragmented: bool, todo: Bytes, more: seq<Fragment>, end: nat)
    requires rs != [] && Collecting(a, q, rs, scratch, inFragmented, todo, more, end)
    ensures q + Pad(q) < end
  {
    var n := if |todo| <= Room(q) then |todo| else Room(q);
    ReadingStep(a, q, todo, !inFragmented, more, end, Fragments(q, todo, !inFragmented) + more, n);
  }

  /** Where record k of the records from p on begins. */
  ghost function Start(p: nat, rs: seq<Bytes>, k: nat): (r: nat)
    requires k <= |rs|
    ensures r >= p
    decreases k
  {
    if k == 0 then p else RecordEndGrows(p, rs[0]); Start(RecordEnd(p, rs[0]), rs[1..], k - 1)
  }

  lemma RecordEndGrows(p: nat, data: Bytes)
    ensures RecordEnd(p, data) >= p
  {
  }

  /** The first k records have been read from b, and the next one, which a holds, goes on beyond lo. */
  ghost predicate Survived(a: Bytes, b: Bytes, lo: nat, p: nat, rs: seq<Bytes>, k: nat)
    requires k <= |rs| && p <= |b|
  {
    var s := Start(p, rs, k);
    && s <= lo && s <= |b| && Records(b, p, [], false) == rs[..k] + Records(b, s, [], false)
    && Holds(a, s, LogFragments(s, rs[k..])) && (k < |rs| ==> RecordEnd(s, rs[k]) > lo)
  }

  /** All records that end by lo are read, and the reader stands after them. */
  lemma {:induction false} PrefixSurvives(a: Bytes, b: Bytes, lo: nat, p: nat, rs: seq<Bytes>)
    requires Agree(a, b, 0, lo) && lo % BLOCK_SIZE == 0 && p <= lo && Holds(a, p, LogFragments(p, rs))
    ensures Survived(a, b, lo, p, rs, Complete(p, rs, lo))
    decreases |rs|
  {
    if rs == [] || RecordEnd(p, rs[0]) > lo {
      NoneYet(a, b, lo, p, rs);
    } else {
      var end := RecordEnd(p, rs[0]);
      FirstSurvives(a, b, lo, p, rs, end);
      PrefixSurvives(a, b, lo, end, rs[1..]);
      OneMoreSurvived(a, b, lo, p, rs, 1 + Complete(end, rs[1..], lo), end);
    }
  }

  lemma NoneYet(a: Bytes, b: Bytes, lo: nat, p: nat, rs: seq<Bytes>)
    requires p <= lo && p <= |b| && Holds(a, p, LogFragments(p, rs)) && (rs != [] ==> RecordEnd(p, rs[0]) > lo)
    ensures Survived(a, b, lo, p, rs, 0)
  {
    assert rs[..0] == [] && rs[0..] == rs;
    Groups([], [], Records(b, p, [], false));
  }

  lemma FirstSurvives(a: Bytes, b: Bytes, lo: nat, p: nat, rs: seq<Bytes>, end: nat)
    requires Agree(a, b, 0, lo) && lo % BLOCK_SIZE == 0 && p <= lo && Holds(a, p, LogFragments(p, rs))
    requires rs != [] && end == RecordEnd(p, rs[0]) <= lo
    ensures Holds(a, end, LogFragments(end, rs[1..])) && Records(b, p, [], false) == [rs[0]] + Records(b, end, [], false)
  {
    CollectStarts(a, p, rs);
    ReadBefore(a, b, lo, p, rs, [], false, rs[0], LogFragments(end, rs[1..]), end);
  }

  lemma OneMoreSurvived(a: Bytes, b: Bytes, lo: nat, p: nat, rs: seq<Bytes>, k: nat, end: nat)
    requires 0 < k <= |rs| && p <= |b| && end == RecordEnd(p, rs[0]) <= |b| && Survived(a, b, lo, end, rs[1..], k - 1)
    requires Records(b, p, [], false) == [rs[0]] + Records(b, end, [], false)
    ensures Survived(a, b, lo, p, rs, k)
  {
    Shift(rs, k, Records(b, Start(p, rs, k), [], false));
  }

  lemma Shift(rs: seq<Bytes>, k: nat, rest: seq<Bytes>)
    requires 0 < k <= |rs|
    ensures [rs[0]] + (rs[1..][..k - 1] + rest) == rs[..k] + rest && rs[1..][k - 1..] == rs[k..] && (k < |rs| ==> rs[1..][k - 1] == rs[k])
  {
  }

  /** Standing before the filler at the end of a block is standing at the next block. */
  lemma SameAt(a: Bytes, q: nat, hi: nat, scratch: Bytes, inFragmented: bool)
    requires q + Pad(q) == hi <= |a|
    ensures Records(a, q, scratch, inFragmented) == Records(a, hi, scratch, inFragmented)
  {
    PadOnce(q);
    assert NextPhysical(a, q) == NextPhysical(a, hi);
  }

  lemma PadStays(q: nat, hi: nat)
    requires q <= hi && hi % BLOCK_SIZE == 0
    ensures q + Pad(q) <= hi
  {
    if q < hi {
      BlockBefore(q, hi);
    }
  }

  /** How far a record that goes on beyond lo has been read when the reader gets to lo. */
  lemma {:induction false} WalkTo(a: Bytes, b: Bytes, lo: nat, q: nat, rs: seq<Bytes>, scratch: Bytes, inFragmented: bool,
                                  todo: Bytes, more: seq<Fragment>, end: nat)
    returns (q': nat, scratch': Bytes, inFragmented': bool, todo': Bytes)
    requires Agree(a, b, 0, lo) && lo % BLOCK_SIZE == 0 && q <= lo < end <= |a|
    requires rs != [] && Collecting(a, q, rs, scratch, inFragmented, todo, more, end)
    ensures q' + Pad(q') == lo && Collecting(a, q', rs, scratch', inFragmented', todo', more, end)
    ensures q + Pad(q) < lo || inFragmented ==> inFragmented'
    ensures Records(b, q, scratch, inFragmented) == Records(b, q', scratch', inFragmented')
    decreases |a| - q
  {
    PadStays(q, lo);
    if q + Pad(q) == lo {
      return q, scratch, inFragmented, todo;
    }
    var f := NextPhysical(a, q);
    var s := Assemble(f.kind, f.data, scratch, inFragmented);
    CollectOne(a, q, rs, scratch, inFragmented, todo, more, end, f, s);
    StaysInBlock(a, q, lo);
    SameFound(a, b, q, 0, lo);
    StreamStep(b, q, scratch, inFragmented, f, s);
    q', scratch', inFragmented', todo' := WalkTo(a, b, lo, f.next, rs, s.scratch, s.inFragmented, todo[|f.data|..], more, end);
  }

  lemma StaysInBlock(a: Bytes, p: nat, hi: nat)
    requires p + Pad(p) < hi <= |a| && hi % BLOCK_SIZE == 0
    ensures NextPhysical(a, p).next <= hi
  {
    BlockBefore(p + Pad(p), hi);
    PadOnce(p);
    RestIsLong(a, p);
  }

  /** No record of type 5, the reader's own sign for the end of the file, stands in [lo, hi). */
  ghost predicate NoFalseEnd(b: Bytes, lo: nat, hi: nat) {
    forall p: nat, f {:trigger Stands(b, p, f)} :: lo <= p + Pad(p) < hi && Stands(b, p, f) ==> f.kind != 5
  }

  lemma NoEndHere(b: Bytes, p: nat, lo: nat, hi: nat)
    requires lo <= p + Pad(p) < hi <= |b| && hi % BLOCK_SIZE == 0 && NoFalseEnd(b, lo, hi)
    ensures NextPhysical(b, p).kind != EOF_RECORD
  {
    var q := p + Pad(p);
    BlockBefore(q, hi);
    PadOnce(p);
    RestIsLong(b, p);
    var r := Rest(b, q);
    if Checked(r, q, false).kind == EOF_RECORD {
      EndIsType5(r, q);
      CheckedIsPhysical(r);
      assert r[..7 + LengthField(r)] == b[q..q + 7 + LengthField(r)];
      assert Stands(b, p, Fragment(5, r[7..7 + LengthField(r)]));
    }
  }

  lemma EndIsType5(r: Bytes, q: nat)
    requires |r| >= 7 && Checked(r, q, false).kind == EOF_RECORD
    ensures 7 + LengthField(r) <= |r| && CrcMatches(r) && r[6] == 5
  {
  }

  /** Such a record does end the reading, whatever follows. */
  lemma FalseEnd(b: Bytes, p: nat, f: Fragment, scratch: Bytes, inFragmented: bool)
    requires p <= |b| && Stands(b, p, f) && |f.data| <= Room(p) && f.kind == 5
    ensures Stream(b, p, scratch, inFragmented) == ([], 0)
  {
    var q := p + Pad(p);
    RestIsLong(b, p);
    var r := Rest(b, q);
    RoomLeft(b, p, f);
    assert r[..7 + |f.data|] == b[q..q + 7 + |f.data|];
    PhysicalHeader(f, r);
    PhysicalBody(f, r);
  }

  lemma RoomLeft(b: Bytes, p: nat, f: Fragment)
    requires |f.data| <= Room(p) && After(p, f) <= |b|
    ensures 7 + |f.data| <= |Rest(b, p + Pad(p))|
  {
    PadOnce(p);
    if Pad(p) > 0 {
      assert p + Pad(p) == p - p % BLOCK_SIZE + BLOCK_SIZE;
    }
  }

  /** Whatever stands in the damaged blocks, the reader gets to the end of them. */
  lemma {:induction false} Crosses(b: Bytes, p: nat, scratch: Bytes, inFragmented: bool, lo: nat, hi: nat)
    returns (mid: seq<Bytes>, scratch': Bytes, inFragmented': bool)
    requires p <= hi <= |b| && lo <= p + Pad(p) && hi % BLOCK_SIZE == 0 && NoFalseEnd(b, lo, hi)
    ensures Records(b, p, scratch, inFragmented) == mid + Records(b, hi, scratch', inFragmented')
    decreases |b| - p
  {
    PadStays(p, hi);
    if p + Pad(p) == hi {
      SameAt(b, p, hi, scratch, inFragmented);
      return [], scratch, inFragmented;
    }
    var f := NextPhysical(b, p);
    var s := Assemble(f.kind, f.data, scratch, inFragmented);
    NoEndHere(b, p, lo, hi);
    StaysInBlock(b, p, hi);
    ReadsOn(b, p, scratch, inFragmented, f, s);
    var rest;
    rest, scratch', inFragmented' := Crosses(b, f.next, ScratchOf(s), StaysIn(s), lo, hi);
    mid := Given(s) + rest;
    Groups(Given(s), rest, Records(b, hi, scratch', inFragmented'));
  }

  /** The record that a step completes, if it does. */
  ghost function Given(s: Assembled): seq<Bytes> { if s.Done? then [s.record] else [] }

  ghost predicate StaysIn(s: Assembled) { s.Continue? && s.inFragmented }

  lemma ReadsOn(a: Bytes, p: nat, scratch: Bytes, inFragmented: bool, f: Found, s: Assembled)
    requires p <= |a| && f == NextPhysical(a, p) && s == Assemble(f.kind, f.data, scratch, inFragmented) && f.kind != EOF_RECORD
    ensures Records(a, p, scratch, inFragmented) == Given(s) + Records(a, f.next, ScratchOf(s), StaysIn(s))
  {
    StreamStep(a, p, scratch, inFragmented, f, s);
    Groups([], [], Records(a, f.next, ScratchOf(s), StaysIn(s)));
  }

  lemma Groups(a: seq<Bytes>, b: seq<Bytes>, c: seq<Bytes>)
    ensures a + (b + c) == (a + b) + c && [] + c == c
  {
  }

  /** The rest of a record whose beginning was lost. */
  lemma {:induction false} Leftover(a: Bytes, q: nat, rs: seq<Bytes>, scratch: Bytes, todo: Bytes, more: seq<Fragment>, end: nat,
                                    other: Bytes, inOther: bool)
    returns (mid: seq<Bytes>, other': Bytes, inOther': bool)
    requires rs != [] && Collecting(a, q, rs, scratch, true, todo, more, end) && end <= |a|
    ensures Holds(a, end, more) && Records(a, q, other, inOther) == mid + Records(a, end, other', inOther')
    decreases |a| - q
  {
    var f := NextPhysical(a, q);
    var s, t := Assemble(f.kind, f.data, scratch, true), Assemble(f.kind, f.data, other, inOther);
    CollectOne(a, q, rs, scratch, true, todo, more, end, f, s);
    assert f.kind != EOF_RECORD;
    ReadsOn(a, q, other, inOther, f, t);
    if s.Done? {
      return Given(t), ScratchOf(t), StaysIn(t);
    }
    var rest;
    rest, other', inOther' := Leftover(a, f.next, rs, s.scratch, todo[|f.data|..], more, end, ScratchOf(t), StaysIn(t));
    mid := Given(t) + rest;
    Groups(Given(t), rest, Records(a, end, other', inOther'));
  }

  /** The first fragment of a record puts the reader back on track, whatever it had collected. */
  lemma Resync(a: Bytes, p: nat, rs: seq<Bytes>, other: Bytes, inOther: bool)
    requires Holds(a, p, LogFragments(p, rs))
    ensures Records(a, p, other, inOther) == Records(a, p, [], false)
  {
    var f := NextPhysical(a, p);
    var s, t := Assemble(f.kind, f.data, [], false), Assemble(f.kind, f.data, other, inOther);
    PhysicalThere(a, p, LogFragments(p, rs));
    if rs != [] {
      FirstKind(p, rs);
    }
    StreamStep(a, p, other, inOther, f, t);
    StreamStep(a, p, [], false, f, s);
  }

  lemma FirstKind(p: nat, rs: seq<Bytes>)
    requires rs != []
    ensures LogFragments(p, rs) != [] && (LogFragments(p, rs)[0].kind == FULL || LogFragments(p, rs)[0].kind == FIRST)
  {
    assert Fragments(p, rs[0], true) != [];
  }

  // ----- the theorem

  /** How many of the records from p on begin before hi. */
  ghost function BegunBefore(p: nat, rs: seq<Bytes>, hi: nat): (r: nat)
    ensures r <= |rs|
    decreases |rs|
  {
    if rs == [] || p + Pad(p) >= hi then 0 else 1 + BegunBefore(RecordEnd(p, rs[0]), rs[1..], hi)
  }

  /** Those that end by hi, and one more if it goes on beyond. */
  lemma {:induction false} BegunIs(p: nat, rs: seq<Bytes>, hi: nat)
    requires p <= hi
    ensures var m := Complete(p, rs, hi);
            BegunBefore(p, rs, hi) == if m < |rs| && Start(p, rs, m) + Pad(Start(p, rs, m)) < hi then m + 1 else m
    decreases |rs|
  {
    if rs != [] {
      var end := RecordEnd(p, rs[0]);
      HeadBefore(p, rs[0]);
      if end <= hi {
        BegunIs(end, rs[1..], hi);
      } else {
        assert BegunBefore(end, rs[1..], hi) == 0;
      }
    }
  }

  lemma HeadBefore(p: nat, data: Bytes)
    ensures p + Pad(p) < RecordEnd(p, data)
  {
    var fs := Fragments(p, data, true);
    EndAfter(After(p, fs[0]), fs[1..]);
  }

  lemma {:induction false} EndAfter(p: nat, fs: seq<Fragment>)
    ensures EndOf(p, fs) >= p
  {
  }

  /** The file holds the records from p to its end. */
  ghost predicate Full(a: Bytes, p: nat, rs: seq<Bytes>) {
    Holds(a, p, LogFragments(p, rs)) && |a| == p + |Layout(p, LogFragments(p, rs))|
  }

  lemma FullReads(a: Bytes, p: nat, rs: seq<Bytes>)
    requires Full(a, p, rs)
    ensures Records(a, p, [], false) == rs
  {
    AllComplete(p, rs, |a|);
    TornReads(a, p, rs);
    assert rs[..|rs|] == rs;
  }

  lemma {:induction false} FullTail(a: Bytes, p: nat, rs: seq<Bytes>, k: nat)
    requires Full(a, p, rs) && k <= |rs|
    ensures Full(a, Start(p, rs, k), rs[k..])
    decreases k
  {
    if k == 0 {
      assert rs[0..] == rs;
    } else {
      FullNext(a, p, rs, RecordEnd(p, rs[0]));
      FullTail(a, RecordEnd(p, rs[0]), rs[1..], k - 1);
      assert rs[1..][k - 1..] == rs[k..];
    }
  }

  lemma FullNext(a: Bytes, p: nat, rs: seq<Bytes>, end: nat)
    requires Full(a, p, rs) && rs != [] && end == RecordEnd(p, rs[0])
    ensures Full(a, end, rs[1..])
  {
    LogStep(p, rs, end);
    CollectStarts(a, p, rs);
    CollectsAll(a, p, rs, [], false, rs[0], LogFragments(end, rs[1..]), end);
  }

  /** From hi on the undamaged file gives back every record that begins there, whatever the reader had collected. */
  lemma SuffixSurvives(a: Bytes, rs: seq<Bytes>, hi: nat, other: Bytes, inOther: bool) returns (mid: seq<Bytes>)
    requires Full(a, 0, rs) && hi <= |a| && hi % BLOCK_SIZE == 0
    ensures Records(a, hi, other, inOther) == mid + rs[BegunBefore(0, rs, hi)..]
  {
    var m := Complete(0, rs, hi);
    var s, rest := Start(0, rs, m), rs[m..];
    PrefixSurvives(a, a, hi, 0, rs);
    FullTail(a, 0, rs, m);
    BegunIs(0, rs, hi);
    PadStays(s, hi);
    if m == |rs| || s + Pad(s) == hi {
      mid := FromStart(a, s, rest, hi, other, inOther);
    } else {
      mid := FromMiddle(a, s, rest, hi, other, inOther);
      assert rest[1..] == rs[m + 1..];
    }
  }

  lemma FromStart(a: Bytes, s: nat, rest: seq<Bytes>, hi: nat, other: Bytes, inOther: bool) returns (mid: seq<Bytes>)
    requires Full(a, s, rest) && s <= hi <= |a| && (rest == [] || s + Pad(s) == hi)
    ensures Records(a, hi, other, inOther) == mid + rest
  {
    mid := [];
    if rest == [] {
      assert s == hi;
    } else {
      SameAt(a, s, hi, other, inOther);
    }
    Resync(a, s, rest, other, inOther);
    FullReads(a, s, rest);
  }

  lemma FromMiddle(a: Bytes, s: nat, rest: seq<Bytes>, hi: nat, other: Bytes, inOther: bool) returns (mid: seq<Bytes>)
    requires Full(a, s, rest) && rest != [] && s + Pad(s) < hi <= |a| && hi % BLOCK_SIZE == 0 && RecordEnd(s, rest[0]) > hi
    ensures Records(a, hi, other, inOther) == mid + rest[1..]
  {
    var end := RecordEnd(s, rest[0]);
    var more := LogFragments(end, rest[1..]);
    CollectStarts(a, s, rest);
    FullTail(a, s, rest, 1);
    var q, scratch, inFragmented, todo := WalkTo(a, a, hi, s, rest, [], false, rest[0], more, end);
    SameAt(a, q, hi, other, inOther);
    var other', inOther';
    mid, other', inOther' := Leftover(a, q, rest, scratch, todo, more, end, other, inOther);
    Resync(a, end, rest[1..], other', inOther');
    FullReads(a, end, rest[1..]);
  }

  /** The reader gets from the records before the damage to the end of it. */
  lemma ThroughDamage(a: Bytes, b: Bytes, lo: nat, hi: nat, s: nat, rest: seq<Bytes>) returns (mid: seq<Bytes>, other: Bytes, inOther: bool)
    requires Full(a, s, rest) && Agree(a, b, 0, lo) && s <= lo <= hi <= |b| && lo % BLOCK_SIZE == 0 == hi % BLOCK_SIZE && NoFalseEnd(b, lo, hi)
    requires rest != [] ==> RecordEnd(s, rest[0]) > lo
    ensures Records(b, s, [], false) == mid + Records(b, hi, other, inOther)
  {
    if rest == [] {
      assert s == lo;
      mid, other, inOther := Crosses(b, s, [], false, lo, hi);
    } else {
      var end := RecordEnd(s, rest[0]);
      CollectStarts(a, s, rest);
      FullTail(a, s, rest, 1);
      var q, scratch, inFragmented, todo := WalkTo(a, b, lo, s, rest, [], false, rest[0], LogFragments(end, rest[1..]), end);
      mid, other, inOther := Crosses(b, q, scratch, inFragmented, lo, hi);
    }
  }

  /** Of a log of which any blocks from lo to hi were overwritten, every record that ends before lo and every record that
      begins at or after hi is still read, in order, unless the damage looks like a checked record of type 5. */
  lemma DamageIsContained(rs: seq<Bytes>, b: Bytes, lo: nat, hi: nat) returns (mid: seq<Bytes>)
    requires var a := LogBytes(rs); Agree(a, b, 0, lo) && lo <= hi && (hi <= |a| ==> Agree(a, b, hi, |a|))
    requires lo % 32768 == 0 && hi % 32768 == 0 && (hi <= |b| ==> NoFalseEnd(b, lo, hi))
    ensures Stream(b, 0, [], false).0 == rs[..Complete(0, rs, lo)] + mid + rs[BegunBefore(0, rs, hi)..]
  {
    var a, k := LogBytes(rs), Complete(0, rs, lo);
    var s := Start(0, rs, k);
    LogFits(0, rs);
    PrefixHolds(a, rs);
    PrefixSurvives(a, b, lo, 0, rs);
    if hi <= |a| {
      FullTail(a, 0, rs, k);
      var mid1, other, inOther := ThroughDamage(a, b, lo, hi, s, rs[k..]);
      SameBeyond(b, a, hi, hi, other, inOther);
      var mid2 := SuffixSurvives(a, rs, hi, other, inOther);
      mid := mid1 + mid2;
      Four(rs[..k], mid1, mid2, rs[BegunBefore(0, rs, hi)..]);
    } else {
      mid := Records(b, s, [], false);
      AllBegun(a, 0, rs, hi);
    }
  }

  lemma Four(a: seq<Bytes>, b: seq<Bytes>, c: seq<Bytes>, d: seq<Bytes>)
    ensures a + (b + (c + d)) == a + (b + c) + d
  {
  }

  lemma {:induction false} AllBegun(a: Bytes, p: nat, rs: seq<Bytes>, hi: nat)
    requires Full(a, p, rs) && |a| < hi
    ensures BegunBefore(p, rs, hi) == |rs|
    decreases |rs|
  {
    if rs != [] {
      FullTail(a, p, rs, 1);
      HeadBefore(p, rs[0]);
      AllBegun(a, RecordEnd(p, rs[0]), rs[1..], hi);
    }
  }

  // ----- reports

  /** A changed byte of a record's type or data is reported, and the rest of the block is left out; only an empty record whose
      type became 0, which is what preallocated space looks like, goes without a report. */
  lemma ChangedByteIsReported(file: Bytes, p: nat, i: nat, x: Byte)
    requires p <= |file| && FULL <= NextPhysical(file, p).kind <= LAST && p + Pad(p) + 6 <= i < NextPhysical(file, p).next && x != file[i]
    ensures var q := p + Pad(p);
            var end := if |file| < q - q % 32768 + 32768 then |file| else q - q % 32768 + 32768;
            NextPhysical(file[i := x], p) == Found(BAD_RECORD, [], end, !(NextPhysical(file, p).data == [] && x == 0))
  {
    var q, file' := p + Pad(p), file[i := x];
    RestIsLong(file, p);
    var b := Rest(file, q);
    OneByteDetected(b, i - q, x);
    assert Rest(file', q) == b[i - q := x];
  }

  /** A length that goes beyond its block is reported, unless the file ends inside the block. */
  lemma BadLengthIsReported(file: Bytes, p: nat)
    requires p + Pad(p) + 7 <= |file|
    requires var q := p + Pad(p); q % 32768 + 7 + (file[q + 4] as int) + 256 * (file[q + 5] as int) > 32768
    ensures var q := p + Pad(p);
            var end := q - q % 32768 + 32768;
            NextPhysical(file, p) == if |file| < end then Found(EOF_RECORD, [], |file|, false) else Found(BAD_RECORD, [], end, true)
  {
    var q := p + Pad(p);
    RestIsLong(file, p);
    assert Rest(file, q)[4] == file[q + 4] && Rest(file, q)[5] == file[q + 5];
  }
}

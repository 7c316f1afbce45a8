/** Choosing where a flushed memtable goes and which files a compaction reads. */
module Inputs {
  import opened Keys
  import opened Meaning
  import opened Versions

  // ----- overlap

  /** The files that overlap [lo, hi], in level order. */
  function OverlapFilter(fs: Level, lo: Option<UserKey>, hi: Option<UserKey>): (r: Level)
    ensures forall f :: f in r <==> f in fs && Overlaps(f, lo, hi)
  {
    if fs == [] then []
    else
      var rest := OverlapFilter(fs[..|fs| - 1], lo, hi);
      var f := fs[|fs| - 1];
      assert fs == fs[..|fs| - 1] + [f];
      if Overlaps(f, lo, hi) then rest + [f] else rest
  }

  lemma FilterStep(fs: Level, i: nat, lo: Option<UserKey>, hi: Option<UserKey>)
    requires i < |fs|
    ensures OverlapFilter(fs[..i + 1], lo, hi)
         == OverlapFilter(fs[..i], lo, hi) + if Overlaps(fs[i], lo, hi) then [fs[i]] else []
  {
    assert fs[..i + 1][..i] == fs[..i];
  }

  /** The files of fs that are in c, in level order. */
  ghost function Sublist(fs: Level, c: set<File>): (r: Level) {
    if fs == [] then []
    else
      var front, f := Sublist(fs[..|fs| - 1], c), fs[|fs| - 1];
      if f in c then front + [f] else front
  }

  lemma {:induction false} FilterIsSublist(fs: Level, lo: Option<UserKey>, hi: Option<UserKey>, c: set<File>)
    requires forall f :: f in fs ==> (f in c <==> Overlaps(f, lo, hi))
    ensures OverlapFilter(fs, lo, hi) == Sublist(fs, c)
  {
    if fs != [] {
      FilterIsSublist(fs[..|fs| - 1], lo, hi, c);
    }
  }

  /** The user-key ranges of f and g meet. */
  predicate Touches(f: File, g: File) {
    Compare(f.smallest.user, g.largest.user) <= 0 && Compare(g.smallest.user, f.largest.user) <= 0
  }

  ghost predicate OverlapClosed(fs: Level, c: set<File>) {
    forall f, g :: f in c && g in fs && Touches(f, g) ==> g in c
  }

  ghost predicate Covers(fs: Level, c: set<File>, lo: Option<UserKey>, hi: Option<UserKey>) {
    forall f :: f in fs && Overlaps(f, lo, hi) ==> f in c
  }

  ghost function FileSet(fs: Level): set<File> { set f | f in fs }

  /** Files that stick out of [lo, hi] on either side: each restart leaves one fewer. */
  ghost function SticksOut(fs: Level, lo: Option<UserKey>, hi: Option<UserKey>): nat {
    if fs == [] then 0
    else SticksOut(fs[1..], lo, hi)
         + (if lo.Some? && Compare(fs[0].smallest.user, lo.value) < 0 then 1 else 0)
         + (if hi.Some? && Compare(fs[0].largest.user, hi.value) > 0 then 1 else 0)
  }

  lemma {:induction false} WiderSticksOutLess(fs: Level, i: nat, lo: Option<UserKey>, hi: Option<UserKey>,
                                              lo': Option<UserKey>, hi': Option<UserKey>)
    requires lo.Some? == lo'.Some? && hi.Some? == hi'.Some?
    requires lo.Some? ==> Compare(lo'.value, lo.value) <= 0
    requires hi.Some? ==> Compare(hi'.value, hi.value) >= 0
    ensures SticksOut(fs, lo', hi') <= SticksOut(fs, lo, hi)
    ensures i < |fs| && ((lo.Some? && fs[i].smallest.user == lo'.value && lo'.value != lo.value)
                         || (hi.Some? && fs[i].largest.user == hi'.value && hi'.value != hi.value))
            ==> SticksOut(fs, lo', hi') < SticksOut(fs, lo, hi)
  {
    if fs != [] {
      WiderSticksOutLess(fs[1..], if i == 0 then 0 else i - 1, lo, hi, lo', hi');
      if lo.Some? {
        assert Compare(lo'.value, lo.value) == 0 <==> lo'.value == lo.value;
        assert Compare(fs[0].smallest.user, lo'.value) < 0 ==> Compare(fs[0].smallest.user, lo.value) < 0;
      }
      if hi.Some? {
        assert Compare(hi'.value, hi.value) == 0 <==> hi'.value == hi.value;
        assert Compare(fs[0].largest.user, hi'.value) > 0 ==> Compare(fs[0].largest.user, hi.value) > 0;
      }
    }
  }

  /** Widening the range down to the start of a file it already meets reaches nothing outside an
      overlap-closed set that covered it before. */
  lemma WidenLow(fs: Level, c: set<File>, lo: UserKey, hi: Option<UserKey>, f: File)
    requires FilesOk(fs) && f in fs && Overlaps(f, Some(lo), hi)
    requires OverlapClosed(fs, c) && Covers(fs, c, Some(lo), hi)
    ensures Covers(fs, c, Some(f.smallest.user), hi)
  {
    forall g | g in fs && Overlaps(g, Some(f.smallest.user), hi)
      ensures g in c
    {
      if AfterFile(Some(lo), g) {
        EntryInRange(g, g.entries[0]);
        assert Touches(f, g);
      }
    }
  }

  lemma WidenHigh(fs: Level, c: set<File>, lo: Option<UserKey>, hi: UserKey, f: File)
    requires FilesOk(fs) && f in fs && Overlaps(f, lo, Some(hi))
    requires OverlapClosed(fs, c) && Covers(fs, c, lo, Some(hi))
    ensures Covers(fs, c, lo, Some(f.largest.user))
  {
    forall g | g in fs && Overlaps(g, lo, Some(f.largest.user))
      ensures g in c
    {
      if BeforeFile(Some(hi), g) {
        EntryInRange(g, g.entries[0]);
        assert Touches(f, g);
      }
    }
  }

  /** [begin, end] grew out of [lo, hi] without leaving any overlap-closed set that covers [lo, hi]. */
  ghost predicate Grown(fs: Level, lo: Option<UserKey>, hi: Option<UserKey>, begin: Option<UserKey>, end: Option<UserKey>) {
    && begin.Some? == lo.Some? && end.Some? == hi.Some?
    && (lo.Some? ==> Compare(begin.value, lo.value) <= 0)
    && (hi.Some? ==> Compare(end.value, hi.value) >= 0)
    && forall c :: OverlapClosed(fs, c) && Covers(fs, c, lo, hi) ==> Covers(fs, c, begin, end)
  }

  lemma GrowLow(fs: Level, lo: Option<UserKey>, hi: Option<UserKey>, begin: Option<UserKey>, end: Option<UserKey>, i: nat)
    requires FilesOk(fs) && i < |fs| && Overlaps(fs[i], begin, end) && Grown(fs, lo, hi, begin, end)
    requires begin.Some? && Compare(fs[i].smallest.user, begin.value) < 0
    ensures Grown(fs, lo, hi, Some(fs[i].smallest.user), end)
    ensures SticksOut(fs, Some(fs[i].smallest.user), end) < SticksOut(fs, begin, end)
  {
    WiderSticksOutLess(fs, i, begin, end, Some(fs[i].smallest.user), end);
    forall c | OverlapClosed(fs, c) && Covers(fs, c, lo, hi)
      ensures Covers(fs, c, Some(fs[i].smallest.user), end)
    {
      WidenLow(fs, c, begin.value, end, fs[i]);
    }
  }

  lemma GrowHigh(fs: Level, lo: Option<UserKey>, hi: Option<UserKey>, begin: Option<UserKey>, end: Option<UserKey>, i: nat)
    requires FilesOk(fs) && i < |fs| && Overlaps(fs[i], begin, end) && Grown(fs, lo, hi, begin, end)
    requires end.Some? && Compare(fs[i].largest.user, end.value) > 0
    ensures Grown(fs, lo, hi, begin, Some(fs[i].largest.user))
    ensures SticksOut(fs, begin, Some(fs[i].largest.user)) < SticksOut(fs, begin, end)
  {
    WiderSticksOutLess(fs, i, begin, end, begin, Some(fs[i].largest.user));
    forall c | OverlapClosed(fs, c) && Covers(fs, c, lo, hi)
      ensures Covers(fs, c, begin, Some(fs[i].largest.user))
    {
      WidenHigh(fs, c, begin, end.value, fs[i]);
    }
  }

  lemma GrownCovers(fs: Level, lo: Option<UserKey>, hi: Option<UserKey>, begin: Option<UserKey>, end: Option<UserKey>)
    requires Grown(fs, lo, hi, begin, end)
    ensures Covers(fs, FileSet(OverlapFilter(fs, begin, end)), lo, hi)
    ensures forall c :: OverlapClosed(fs, c) && Covers(fs, c, lo, hi) ==> FileSet(OverlapFilter(fs, begin, end)) <= c
  {
    forall f | f in fs && Overlaps(f, lo, hi)
      ensures Overlaps(f, begin, end)
    {
    }
  }

  ghost predicate Within(f: File, lo: Option<UserKey>, hi: Option<UserKey>) {
    && (lo.Some? ==> Compare(f.smallest.user, lo.value) >= 0)
    && (hi.Some? ==> Compare(f.largest.user, hi.value) <= 0)
  }

  lemma WithinClosed(fs: Level, lo: Option<UserKey>, hi: Option<UserKey>)
    requires FilesOk(fs)
    requires forall f :: f in fs && Overlaps(f, lo, hi) ==> Within(f, lo, hi)
    ensures OverlapClosed(fs, FileSet(OverlapFilter(fs, lo, hi)))
  {
    forall f, g | f in FileSet(OverlapFilter(fs, lo, hi)) && g in fs && Touches(f, g)
      ensures g in FileSet(OverlapFilter(fs, lo, hi))
    {
      assert Within(f, lo, hi);
      EntryInRange(f, f.entries[0]);
      EntryInRange(g, g.entries[0]);
      assert Overlaps(g, lo, hi);
    }
  }

  /** The scan has taken the overlapping ones of the first i files, and at level 0 none sticks out. */
  ghost predicate Scanned(fs: Level, i: nat, levelZero: bool, begin: Option<UserKey>, end: Option<UserKey>, inputs: Level)
    requires i <= |fs|
  {
    && inputs == OverlapFilter(fs[..i], begin, end)
    && (levelZero ==> forall j :: 0 <= j < i && Overlaps(fs[j], begin, end) ==> Within(fs[j], begin, end))
  }

  lemma ScanStep(fs: Level, i: nat, levelZero: bool, begin: Option<UserKey>, end: Option<UserKey>, inputs: Level)
    requires i < |fs| && Scanned(fs, i, levelZero, begin, end, inputs)
    ensures !Overlaps(fs[i], begin, end) ==> Scanned(fs, i + 1, levelZero, begin, end, inputs)
    ensures Overlaps(fs[i], begin, end) && (levelZero ==> Within(fs[i], begin, end))
            ==> Scanned(fs, i + 1, levelZero, begin, end, inputs + [fs[i]])
  {
    FilterStep(fs, i, begin, end);
  }

  /** GetOverlappingInputs. Above level 0 a plain filter; at level 0 the search restarts whenever a
      file widens the range, and ends with the least overlap-closed set of files meeting [lo, hi]. */
  method GetOverlappingInputs(fs: Level, levelZero: bool, lo: Option<UserKey>, hi: Option<UserKey>) returns (inputs: Level)
    requires FilesOk(fs)
    ensures !levelZero ==> inputs == OverlapFilter(fs, lo, hi)
    ensures inputs == Sublist(fs, FileSet(inputs)) && forall f :: f in inputs ==> f in fs
    ensures Covers(fs, FileSet(inputs), lo, hi)
    ensures levelZero ==> OverlapClosed(fs, FileSet(inputs))
    ensures levelZero ==> forall c :: OverlapClosed(fs, c) && Covers(fs, c, lo, hi) ==> FileSet(inputs) <= c
  {
    var begin, end := lo, hi;
    inputs := [];
    var i := 0;
    while i < |fs|
      invariant 0 <= i <= |fs|
      invariant !levelZero ==> begin == lo && end == hi
      invariant Grown(fs, lo, hi, begin, end)
      invariant Scanned(fs, i, levelZero, begin, end, inputs)
      decreases SticksOut(fs, begin, end), |fs| - i
    {
      var f := fs[i];
      i := i + 1;
      ScanStep(fs, i - 1, levelZero, begin, end, inputs);
      if begin.Some? && Compare(f.largest.user, begin.value) < 0 {
      } else if end.Some? && Compare(f.smallest.user, end.value) > 0 {
      } else {
        inputs := inputs + [f];
        if levelZero {
          if begin.Some? && Compare(f.smallest.user, begin.value) < 0 {
            GrowLow(fs, lo, hi, begin, end, i - 1);
            begin := Some(f.smallest.user);
            inputs := [];
            i := 0;
          } else if end.Some? && Compare(f.largest.user, end.value) > 0 {
            GrowHigh(fs, lo, hi, begin, end, i - 1);
            end := Some(f.largest.user);
            inputs := [];
            i := 0;
          }
        }
      }
    }
    ScanResult(fs, levelZero, lo, hi, begin, end, inputs);
  }

  lemma ScanResult(fs: Level, levelZero: bool, lo: Option<UserKey>, hi: Option<UserKey>, begin: Option<UserKey>, end: Option<UserKey>, inputs: Level)
    requires FilesOk(fs) && (!levelZero ==> begin == lo && end == hi)
    requires Grown(fs, lo, hi, begin, end) && Scanned(fs, |fs|, levelZero, begin, end, inputs)
    ensures !levelZero ==> inputs == OverlapFilter(fs, lo, hi)
    ensures inputs == Sublist(fs, FileSet(inputs)) && forall f :: f in inputs ==> f in fs
    ensures Covers(fs, FileSet(inputs), lo, hi)
    ensures levelZero ==> OverlapClosed(fs, FileSet(inputs))
    ensures levelZero ==> forall c :: OverlapClosed(fs, c) && Covers(fs, c, lo, hi) ==> FileSet(inputs) <= c
  {
    assert fs[..|fs|] == fs;
    FilterIsSublist(fs, begin, end, FileSet(inputs));
    GrownCovers(fs, lo, hi, begin, end);
    if levelZero {
      WithinClosed(fs, begin, end);
    }
  }

  // ----- ranges

  ghost predicate InRange(f: File, lo: InternalKey, hi: InternalKey) {
    InternalCompare(lo, f.smallest) <= 0 && InternalCompare(f.largest, hi) <= 0
  }

  /** GetRange: the least range covering all inputs. */
  method GetRange(inputs: Level) returns (lo: InternalKey, hi: InternalKey)
    requires inputs != []
    ensures forall f :: f in inputs ==> InRange(f, lo, hi)
    ensures exists f :: f in inputs && f.smallest == lo
    ensures exists f :: f in inputs && f.largest == hi
  {
    lo, hi := inputs[0].smallest, inputs[0].largest;
    ghost var a, b := 0, 0;
    var i := 1;
    while i < |inputs|
      invariant 1 <= i <= |inputs|
      invariant 0 <= a < |inputs| && inputs[a].smallest == lo && 0 <= b < |inputs| && inputs[b].largest == hi
      invariant forall j :: 0 <= j < i ==> InRange(inputs[j], lo, hi)
    {
      var f := inputs[i];
      ghost var lo0, hi0 := lo, hi;
      if InternalCompare(f.smallest, lo) < 0 {
        lo, a := f.smallest, i;
      }
      if InternalCompare(f.largest, hi) > 0 {
        hi, b := f.largest, i;
      }
      assert InternalCompare(lo, lo0) <= 0 && InternalCompare(hi0, hi) <= 0;
      i := i + 1;
    }
    assert inputs[a] in inputs && inputs[b] in inputs;
  }

  function TotalFileSize(fs: Level): nat {
    if fs == [] then 0 else fs[0].size + TotalFileSize(fs[1..])
  }

  lemma {:induction false} SizesAdd(fs: Level, gs: Level, f: File)
    ensures TotalFileSize(fs + gs) == TotalFileSize(fs) + TotalFileSize(gs) && TotalFileSize([f]) == f.size
    decreases |fs|
  {
    assert [f][1..] == [];
    if fs == [] {
      assert fs + gs == gs;
    } else {
      SizesAdd(fs[1..], gs, f);
      assert (fs + gs)[1..] == fs[1..] + gs;
    }
  }

  // ----- placing a flushed memtable

  ghost predicate LevelClear(fs: Level, lo: UserKey, hi: UserKey) {
    forall f :: f in fs ==> !Overlaps(f, Some(lo), Some(hi))
  }

  /** The files that meet the range hold at most that many bytes. */
  ghost predicate Light(fs: Level, lo: UserKey, hi: UserKey, bytes: nat) { TotalFileSize(OverlapFilter(fs, Some(lo), Some(hi))) <= bytes }

  /** One round of the loop in PickLevelForMemTableOutput: level + 2 is always below kNumLevels there. */
  method MayGoDeeper(next: Level, grandparents: Level, lo: UserKey, hi: UserKey, maxGrandparentBytes: nat) returns (b: bool)
    requires FilesOk(next) && DisjointRun(next) && FilesOk(grandparents)
    ensures b <==> LevelClear(next, lo, hi) && Light(grandparents, lo, hi, maxGrandparentBytes)
  {
    b := false;
    var overlap := SomeFileOverlapsRange(true, next, Some(lo), Some(hi));
    if !overlap {
      var overlaps := GetOverlappingInputs(grandparents, false, Some(lo), Some(hi));
      b := TotalFileSize(overlaps) <= maxGrandparentBytes;
    }
  }

  /** PickLevelForMemTableOutput: every level the table skips, and the one it enters, has no file
      in its user-key range. It goes as deep as kMaxMemCompactLevel unless the next level overlaps or
      too many grandparent bytes do. */
  method PickLevelForMemTableOutput(v: Version, lo: UserKey, hi: UserKey, maxGrandparentBytes: nat) returns (level: nat)
    requires Shaped(v)
    ensures level <= 2
    ensures level > 0 ==> ClearTo(v, level, lo, hi)
    ensures forall j :: 2 <= j < level + 2 ==> Light(v[j], lo, hi, maxGrandparentBytes)
    ensures level < 2 ==>
              || (level == 0 && !LevelClear(v[0], lo, hi))
              || !LevelClear(v[level + 1], lo, hi)
              || !Light(v[level + 2], lo, hi, maxGrandparentBytes)
  {
    level := 0;
    var overlap := SomeFileOverlapsRange(false, v[0], Some(lo), Some(hi));
    if !overlap {
      while level < MAX_MEM_COMPACT_LEVEL
        invariant 0 <= level <= MAX_MEM_COMPACT_LEVEL
        invariant ClearTo(v, level, lo, hi)
        invariant forall j :: 2 <= j < level + 2 ==> Light(v[j], lo, hi, maxGrandparentBytes)
      {
        var deeper := MayGoDeeper(v[level + 1], v[level + 2], lo, hi, maxGrandparentBytes);
        if !deeper {
          break;
        }
        ClearOneMore(v, level, lo, hi);
        level := level + 1;
      }
    }
  }

  /** No file of the levels down to `level` meets the range. */
  ghost predicate ClearTo(v: Version, level: nat, lo: UserKey, hi: UserKey) {
    level < |v| && forall i :: 0 <= i <= level ==> LevelClear(v[i], lo, hi)
  }

  lemma ClearOneMore(v: Version, level: nat, lo: UserKey, hi: UserKey)
    requires ClearTo(v, level, lo, hi) && level + 1 < |v| && LevelClear(v[level + 1], lo, hi)
    ensures ClearTo(v, level + 1, lo, hi)
  {
  }

  // ----- compaction inputs

  /** g's user-key range meets the hull of the files `in0`. */
  ghost predicate MeetsHull(g: File, in0: Level) {
    && (exists f :: f in in0 && Compare(f.smallest.user, g.largest.user) <= 0)
    && (exists f :: f in in0 && Compare(g.smallest.user, f.largest.user) <= 0)
  }

  /** A file meets the hull if and only if some user key is in its range and between two of the files. */
  lemma MeetsHullIff(g: File, fs: Level)
    requires FileOk(g) && fs != [] && forall f :: f in fs ==> FileOk(f)
    ensures MeetsHull(g, fs) <==>
            exists x: UserKey, a, b :: && a in fs && b in fs && Compare(a.smallest.user, x) <= 0 && Compare(x, b.largest.user) <= 0
                                       && Compare(g.smallest.user, x) <= 0 && Compare(x, g.largest.user) <= 0
  {
    EntryInRange(g, g.entries[0]);
    if MeetsHull(g, fs) {
      var a :| a in fs && Compare(a.smallest.user, g.largest.user) <= 0;
      var b :| b in fs && Compare(g.smallest.user, b.largest.user) <= 0;
      EntryInRange(a, a.entries[0]);
      EntryInRange(b, b.entries[0]);
      SharedKey(g, fs, a, b);
    }
  }

  lemma SharedKey(g: File, fs: Level, a: File, b: File)
    requires a in fs && b in fs && Compare(a.smallest.user, g.largest.user) <= 0 && Compare(g.smallest.user, b.largest.user) <= 0
    requires Compare(g.smallest.user, g.largest.user) <= 0
    requires Compare(a.smallest.user, a.largest.user) <= 0 && Compare(b.smallest.user, b.largest.user) <= 0
    ensures exists x: UserKey, a, b :: && a in fs && b in fs && Compare(a.smallest.user, x) <= 0 && Compare(x, b.largest.user) <= 0
                                       && Compare(g.smallest.user, x) <= 0 && Compare(x, g.largest.user) <= 0
  {
    if Compare(a.smallest.user, g.smallest.user) <= 0 {
      var x := g.smallest.user;
      assert Compare(a.smallest.user, x) <= 0 && Compare(x, b.largest.user) <= 0;
    } else {
      var x := a.smallest.user;
      assert Compare(a.smallest.user, x) <= 0 && Compare(x, a.largest.user) <= 0;
      assert Compare(g.smallest.user, x) <= 0 && Compare(x, g.largest.user) <= 0;
    }
  }

  /** What a compaction of `level` may rely on: the next level contributes exactly the files that
      meet the hull of the chosen ones, and at level 0 the choice is overlap-closed. */
  ghost predicate GoodInputs(v: Version, level: nat, in0: Level, in1: Level) {
    && level + 1 < |v| && in0 != []
    && (forall f :: f in in0 ==> f in v[level])
    && (forall g :: g in in1 <==> g in v[level + 1] && MeetsHull(g, in0))
    && (level == 0 ==> OverlapClosed(v[0], FileSet(in0)))
  }

  lemma RangeIsHull(in0: Level, lo: InternalKey, hi: InternalKey, g: File)
    requires forall f :: f in in0 ==> InRange(f, lo, hi)
    requires exists f :: f in in0 && f.smallest == lo
    requires exists f :: f in in0 && f.largest == hi
    ensures Overlaps(g, Some(lo.user), Some(hi.user)) <==> MeetsHull(g, in0)
  {
    forall f | f in in0
      ensures Compare(lo.user, f.smallest.user) <= 0 && Compare(f.largest.user, hi.user) <= 0
    {
      assert InRange(f, lo, hi);
    }
  }

  lemma GoodInputsFrom(v: Version, level: nat, in0: Level, in1: Level, lo: InternalKey, hi: InternalKey)
    requires level + 1 < |v| && in0 != [] && forall f :: f in in0 ==> f in v[level]
    requires level == 0 ==> OverlapClosed(v[0], FileSet(in0))
    requires forall f :: f in in0 ==> InRange(f, lo, hi)
    requires exists f :: f in in0 && f.smallest == lo
    requires exists f :: f in in0 && f.largest == hi
    requires in1 == OverlapFilter(v[level + 1], Some(lo.user), Some(hi.user))
    ensures GoodInputs(v, level, in0, in1)
  {
    forall g
      ensures Overlaps(g, Some(lo.user), Some(hi.user)) <==> MeetsHull(g, in0)
    {
      RangeIsHull(in0, lo, hi, g);
    }
  }

  lemma RangeCoversInputs(fs: Level, in0: Level, lo: InternalKey, hi: InternalKey, expanded: Level)
    requires FilesOk(fs) && forall f :: f in in0 ==> f in fs
    requires forall f :: f in in0 ==> InRange(f, lo, hi)
    requires Covers(fs, FileSet(expanded), Some(lo.user), Some(hi.user))
    ensures forall f :: f in in0 ==> f in expanded
  {
    forall f | f in in0
      ensures f in expanded
    {
      assert InRange(f, lo, hi);
      EntryInRange(f, f.entries[0]);
      assert Overlaps(f, Some(lo.user), Some(hi.user));
    }
  }

  /** A wider range that takes no more files takes the same ones. */
  lemma {:induction false} WiderSame(fs: Level, lo: UserKey, hi: UserKey, lo': UserKey, hi': UserKey)
    requires Compare(lo', lo) <= 0 && Compare(hi, hi') <= 0
    ensures |OverlapFilter(fs, Some(lo), Some(hi))| <= |OverlapFilter(fs, Some(lo'), Some(hi'))|
    ensures |OverlapFilter(fs, Some(lo), Some(hi))| == |OverlapFilter(fs, Some(lo'), Some(hi'))| ==>
              OverlapFilter(fs, Some(lo), Some(hi)) == OverlapFilter(fs, Some(lo'), Some(hi'))
  {
    if fs != [] {
      WiderSame(fs[..|fs| - 1], lo, hi, lo', hi');
      assert Overlaps(fs[|fs| - 1], Some(lo), Some(hi)) ==> Overlaps(fs[|fs| - 1], Some(lo'), Some(hi'));
    }
  }

  /** [lo, hi] is the range of the files' user keys. */
  ghost predicate Spans(fs: Level, lo: InternalKey, hi: InternalKey) {
    && (forall f :: f in fs ==> InRange(f, lo, hi))
    && (exists f :: f in fs && f.smallest == lo) && (exists f :: f in fs && f.largest == hi)
  }

  lemma MoreSpansMore(fs: Level, gs: Level, lo: InternalKey, hi: InternalKey, lo': InternalKey, hi': InternalKey)
    requires Spans(fs, lo, hi) && Spans(gs, lo', hi') && forall f :: f in fs ==> f in gs
    ensures Compare(lo'.user, lo.user) <= 0 && Compare(hi.user, hi'.user) <= 0
  {
    var f :| f in fs && f.smallest == lo;
    var g :| g in fs && g.largest == hi;
    assert InRange(f, lo', hi') && InRange(g, lo', hi');
  }

  // ----- inputs without gaps

  ghost predicate Covered(fs: Level, x: UserKey) {
    exists f :: f in fs && Compare(f.smallest.user, x) <= 0 && Compare(x, f.largest.user) <= 0
  }

  /** Every user key between two of the files lies in the range of one. */
  ghost predicate Gapless(fs: Level) {
    forall x, a, b :: a in fs && b in fs && Compare(a.largest.user, x) < 0 && Compare(x, b.smallest.user) < 0 ==> Covered(fs, x)
  }

  lemma SpanCovered(fs: Level, lo: InternalKey, hi: InternalKey, x: UserKey)
    requires Gapless(fs) && Spans(fs, lo, hi) && Compare(lo.user, x) <= 0 && Compare(x, hi.user) <= 0
    ensures Covered(fs, x)
  {
    var a :| a in fs && a.smallest == lo;
    var b :| b in fs && b.largest == hi;
    if Compare(a.largest.user, x) < 0 && Compare(x, b.smallest.user) < 0 {
    } else if Compare(x, a.largest.user) <= 0 {
      assert Covered(fs, x);
    } else {
      assert Compare(b.smallest.user, x) <= 0;
    }
  }

  lemma CoveredMore(fs: Level, gs: Level, x: UserKey)
    requires Covered(fs, x) && forall f :: f in fs ==> f in gs
    ensures Covered(gs, x)
  {
    var f :| f in fs && Compare(f.smallest.user, x) <= 0 && Compare(x, f.largest.user) <= 0;
    assert f in gs;
  }

  ghost predicate RangesOk(fs: Level) { forall f :: f in fs ==> Compare(f.smallest.user, f.largest.user) <= 0 }

  lemma OkIsOrdered(fs: Level, gs: Level)
    requires FilesOk(fs) && forall f :: f in gs ==> f in fs
    ensures RangesOk(gs)
  {
    forall f | f in gs
      ensures Compare(f.smallest.user, f.largest.user) <= 0
    {
      EntryInRange(f, f.entries[0]);
    }
  }

  /** Files that overlap the range of a gapless set leave no gap. */
  lemma GrowGapless(base: Level, extra: Level, all: Level, lo: InternalKey, hi: InternalKey)
    requires Gapless(base) && Spans(base, lo, hi) && RangesOk(base) && forall f :: f in base ==> f in all
    requires forall f :: f in all ==> f in base || f in extra
    requires forall f :: f in extra ==> Overlaps(f, Some(lo.user), Some(hi.user))
    ensures Gapless(all)
  {
    forall x, a, b | a in all && b in all && Compare(a.largest.user, x) < 0 && Compare(x, b.smallest.user) < 0
      ensures Covered(all, x)
    {
      WithinSpan(base, extra, lo, hi, a);
      WithinSpan(base, extra, lo, hi, b);
      SpanCovered(base, lo, hi, x);
      CoveredMore(base, all, x);
    }
  }

  lemma WithinSpan(base: Level, extra: Level, lo: InternalKey, hi: InternalKey, f: File)
    requires Spans(base, lo, hi) && RangesOk(base) && (f in base || f in extra)
    requires forall f :: f in extra ==> Overlaps(f, Some(lo.user), Some(hi.user))
    ensures Compare(lo.user, f.largest.user) <= 0 && Compare(f.smallest.user, hi.user) <= 0
  {
    if f in base {
      assert InRange(f, lo, hi) && Compare(f.smallest.user, f.largest.user) <= 0;
    }
  }

  /** A key below the range that no input covers cuts off the inputs above it. */
  lemma UpperPart(fs: Level, inputs: Level, lo: UserKey, hi: UserKey, x: UserKey, c: set<File>)
    requires FilesOk(fs) && (forall f :: f in inputs ==> f in fs) && OverlapClosed(fs, FileSet(inputs)) && Covers(fs, FileSet(inputs), Some(lo), Some(hi))
    requires !Covered(inputs, x) && Compare(x, lo) < 0
    requires c == set f | f in inputs && Compare(x, f.smallest.user) < 0
    ensures OverlapClosed(fs, c) && Covers(fs, c, Some(lo), Some(hi))
  {
    OkIsOrdered(fs, inputs);
    forall f, g | f in c && g in fs && Touches(f, g)
      ensures g in c
    {
      assert f in FileSet(inputs) && g in FileSet(inputs);
      assert !(Compare(g.smallest.user, x) <= 0 && Compare(x, g.largest.user) <= 0);
    }
    forall f | f in fs && Overlaps(f, Some(lo), Some(hi))
      ensures f in c
    {
      assert f in FileSet(inputs);
      assert !(Compare(f.smallest.user, x) <= 0 && Compare(x, f.largest.user) <= 0);
    }
  }

  /** A key above the range that no input covers cuts off the inputs below it. */
  lemma LowerPart(fs: Level, inputs: Level, lo: UserKey, hi: UserKey, x: UserKey, c: set<File>)
    requires FilesOk(fs) && (forall f :: f in inputs ==> f in fs) && OverlapClosed(fs, FileSet(inputs)) && Covers(fs, FileSet(inputs), Some(lo), Some(hi))
    requires !Covered(inputs, x) && Compare(hi, x) < 0
    requires c == set f | f in inputs && Compare(f.largest.user, x) < 0
    ensures OverlapClosed(fs, c) && Covers(fs, c, Some(lo), Some(hi))
  {
    OkIsOrdered(fs, inputs);
    forall f, g | f in c && g in fs && Touches(f, g)
      ensures g in c
    {
      assert f in FileSet(inputs) && g in FileSet(inputs);
      assert !(Compare(g.smallest.user, x) <= 0 && Compare(x, g.largest.user) <= 0);
    }
    forall f | f in fs && Overlaps(f, Some(lo), Some(hi))
      ensures f in c
    {
      assert f in FileSet(inputs);
      assert !(Compare(f.smallest.user, x) <= 0 && Compare(x, f.largest.user) <= 0);
    }
  }

  /** The least overlap-closed set around a range leaves no gap between the range and its files. */
  lemma ClosureCoversBelow(fs: Level, inputs: Level, lo: UserKey, hi: UserKey, x: UserKey, a: File)
    requires FilesOk(fs) && Closure(fs, inputs, lo, hi) && Compare(x, lo) < 0 && a in inputs && Compare(a.largest.user, x) < 0
    ensures Covered(inputs, x)
  {
    OkIsOrdered(fs, inputs);
    assert a in FileSet(inputs) && Compare(a.smallest.user, a.largest.user) <= 0;
    if !Covered(inputs, x) {
      var c := set f | f in inputs && Compare(x, f.smallest.user) < 0;
      UpperPart(fs, inputs, lo, hi, x, c);
    }
  }

  lemma ClosureCoversAbove(fs: Level, inputs: Level, lo: UserKey, hi: UserKey, x: UserKey, b: File)
    requires FilesOk(fs) && Closure(fs, inputs, lo, hi) && Compare(hi, x) < 0 && b in inputs && Compare(x, b.smallest.user) < 0
    ensures Covered(inputs, x)
  {
    OkIsOrdered(fs, inputs);
    assert b in FileSet(inputs) && Compare(b.smallest.user, b.largest.user) <= 0;
    if !Covered(inputs, x) {
      var c := set f | f in inputs && Compare(f.largest.user, x) < 0;
      LowerPart(fs, inputs, lo, hi, x, c);
    }
  }

  /** What GetOverlappingInputs gives at level 0. */
  ghost predicate Closure(fs: Level, inputs: Level, lo: UserKey, hi: UserKey) {
    && (forall f :: f in inputs ==> f in fs) && OverlapClosed(fs, FileSet(inputs)) && Covers(fs, FileSet(inputs), Some(lo), Some(hi))
    && forall c :: OverlapClosed(fs, c) && Covers(fs, c, Some(lo), Some(hi)) ==> FileSet(inputs) <= c
  }

  /** The same at level 0, where the files around the range are collected transitively. */
  lemma ClosureGapless(fs: Level, base: Level, extra: Level, all: Level, lo: InternalKey, hi: InternalKey)
    requires FilesOk(fs) && Gapless(base) && Spans(base, lo, hi) && RangesOk(base) && Closure(fs, extra, lo.user, hi.user)
    requires (forall f :: f in base || f in extra ==> f in all) && forall f :: f in all ==> f in base || f in extra
    ensures Gapless(all)
  {
    forall x, a, b | a in all && b in all && Compare(a.largest.user, x) < 0 && Compare(x, b.smallest.user) < 0
      ensures Covered(all, x)
    {
      if Compare(x, lo.user) < 0 {
        BaseInSpan(base, lo, hi);
        ClosureCoversBelow(fs, extra, lo.user, hi.user, x, a);
        CoveredMore(extra, all, x);
      } else if Compare(hi.user, x) < 0 {
        BaseInSpan(base, lo, hi);
        ClosureCoversAbove(fs, extra, lo.user, hi.user, x, b);
        CoveredMore(extra, all, x);
      } else {
        SpanCovered(base, lo, hi, x);
        CoveredMore(base, all, x);
      }
    }
  }

  lemma BaseInSpan(base: Level, lo: InternalKey, hi: InternalKey)
    requires Spans(base, lo, hi) && RangesOk(base)
    ensures forall f :: f in base ==> Compare(lo.user, f.largest.user) <= 0 && Compare(f.smallest.user, hi.user) <= 0
  {
    forall f | f in base
      ensures Compare(lo.user, f.largest.user) <= 0 && Compare(f.smallest.user, hi.user) <= 0
    {
      assert InRange(f, lo, hi) && Compare(f.smallest.user, f.largest.user) <= 0;
    }
  }

  /** A single file, and at level 0 the files collected around it, leave no gap. */
  lemma PickedGapless(fs: Level, f: File, picked: Level)
    requires FilesOk(fs) && f in fs && (picked == [f] || (f in picked && Closure(fs, picked, f.smallest.user, f.largest.user)))
    ensures Gapless(picked)
  {
    OkIsOrdered(fs, [f]);
    assert f in [f];
    assert Compare(f.smallest.user, f.largest.user) <= 0;
    assert Gapless([f]);
    if picked != [f] {
      assert Spans([f], f.smallest, f.largest);
      ClosureGapless(fs, [f], picked, picked, f.smallest, f.largest);
    }
  }

  lemma NextGapless(v: Version, level: nat, picked: Level, next: Level, lo: InternalKey, hi: InternalKey)
    requires Shaped(v) && GoodInputs(v, level, picked, next) && Spans(picked, lo, hi)
    requires next == OverlapFilter(v[level + 1], Some(lo.user), Some(hi.user))
    ensures Gapless(picked) ==> Gapless(picked + next)
  {
    if Gapless(picked) {
      OkIsOrdered(v[level], picked);
      GrowGapless(picked, next, picked + next, lo, hi);
    }
  }

  lemma ExpandedGapless(v: Version, level: nat, picked: Level, next: Level, expanded: Level, lo: InternalKey, hi: InternalKey)
    requires Shaped(v) && GoodInputs(v, level, picked, next) && Spans(picked + next, lo, hi) && forall f :: f in picked ==> f in expanded
    requires if level == 0 then Closure(v[0], expanded, lo.user, hi.user) else expanded == OverlapFilter(v[level], Some(lo.user), Some(hi.user))
    ensures Gapless(picked + next) ==> Gapless(expanded + next)
  {
    if Gapless(picked + next) {
      InputsOrdered(v, level, picked, next);
      if level == 0 {
        ClosureGapless(v[0], picked + next, expanded, expanded + next, lo, hi);
      } else {
        GrowGapless(picked + next, expanded, expanded + next, lo, hi);
      }
    }
  }

  lemma InputsOrdered(v: Version, level: nat, picked: Level, next: Level)
    requires Shaped(v) && GoodInputs(v, level, picked, next)
    ensures RangesOk(picked + next)
  {
    OkIsOrdered(v[level], picked);
    OkIsOrdered(v[level + 1], next);
  }

  /** e lists, in level order, the files that meet the hull of `all`; at level 0 the least overlap-closed set around it. */
  ghost predicate Around(fs: Level, levelZero: bool, all: Level, e: Level) {
    && e == Sublist(fs, FileSet(e)) && (forall g :: g in e ==> g in fs) && (forall g :: g in fs && MeetsHull(g, all) ==> g in e)
    && (!levelZero ==> forall g :: g in e ==> MeetsHull(g, all))
    && (levelZero ==> OverlapClosed(fs, FileSet(e)))
    && (levelZero ==> forall c :: OverlapClosed(fs, c) && (forall g :: g in fs && MeetsHull(g, all) ==> g in c) ==> FileSet(e) <= c)
  }

  ghost predicate AroundAt(v: Version, level: nat, all: Level, e: Level) { level < |v| && Around(v[level], level == 0, all, e) }

  /** There is only one such list. */
  lemma AroundUnique(fs: Level, levelZero: bool, all: Level, e: Level, e': Level)
    requires Around(fs, levelZero, all, e) && Around(fs, levelZero, all, e')
    ensures e == e'
  {
    if levelZero {
      forall g | g in fs && MeetsHull(g, all)
        ensures g in FileSet(e) && g in FileSet(e')
      {
      }
    }
    assert FileSet(e) == FileSet(e');
  }

  /** What GetOverlappingInputs finds in the range of `all`. */
  lemma FoundAround(fs: Level, levelZero: bool, all: Level, lo: InternalKey, hi: InternalKey, e: Level)
    requires Spans(all, lo, hi) && e == Sublist(fs, FileSet(e)) && (forall f :: f in e ==> f in fs)
    requires Covers(fs, FileSet(e), Some(lo.user), Some(hi.user))
    requires !levelZero ==> e == OverlapFilter(fs, Some(lo.user), Some(hi.user))
    requires levelZero ==> Closure(fs, e, lo.user, hi.user)
    ensures Around(fs, levelZero, all, e)
  {
    forall g
      ensures Overlaps(g, Some(lo.user), Some(hi.user)) <==> MeetsHull(g, all)
    {
      RangeIsHull(all, lo, hi, g);
    }
  }

  /** Why the first set of inputs grows to e: more files, still small enough, and nothing more of the next level. */
  ghost predicate Grows(next: Level, picked: Level, deeper: Level, e: Level, expandLimit: nat) {
    && |e| > |picked| && TotalFileSize(next) + TotalFileSize(e) < expandLimit
    && NoOthers(deeper, e, next)
  }

  /** No other file of the next level meets the hull of e. */
  ghost predicate NoOthers(deeper: Level, e: Level, next: Level) { forall g :: g in deeper && MeetsHull(g, e) ==> g in next }

  lemma SameNextIff(fs: Level, picked: Level, next: Level, e: Level, lo: InternalKey, hi: InternalKey, lo': InternalKey, hi': InternalKey)
    requires Spans(picked, lo, hi) && Spans(e, lo', hi') && (forall f :: f in picked ==> f in e)
    requires next == OverlapFilter(fs, Some(lo.user), Some(hi.user))
    ensures |OverlapFilter(fs, Some(lo'.user), Some(hi'.user))| == |next| <==> NoOthers(fs, e, next)
    ensures |OverlapFilter(fs, Some(lo'.user), Some(hi'.user))| == |next| ==> OverlapFilter(fs, Some(lo'.user), Some(hi'.user)) == next
  {
    MoreSpansMore(picked, e, lo, hi, lo', hi');
    WiderSame(fs, lo.user, hi.user, lo'.user, hi'.user);
    forall g
      ensures Overlaps(g, Some(lo'.user), Some(hi'.user)) <==> MeetsHull(g, e)
    {
      RangeIsHull(e, lo', hi', g);
    }
    if forall g :: g in fs && MeetsHull(g, e) ==> g in next {
      FilterIsSublist(fs, Some(lo'.user), Some(hi'.user), FileSet(next));
      FilterIsSublist(fs, Some(lo.user), Some(hi.user), FileSet(next));
    }
  }

  /** The part of SetupOtherInputs that tries to grow the first set of inputs: `next` are the next level's files that
      overlap the range [lo, hi] of the picked ones, and stay the same. The set grows to all files of the level around
      both exactly when these are more, small enough together, and need no further file of the next level. */
  method ExpandInputs(v: Version, level: nat, picked: Level, next: Level, lo: InternalKey, hi: InternalKey, expandLimit: nat)
    returns (in0: Level, ghost around: Level)
    requires Shaped(v) && GoodInputs(v, level, picked, next)
    requires Spans(picked, lo, hi) && next == OverlapFilter(v[level + 1], Some(lo.user), Some(hi.user))
    ensures GoodInputs(v, level, in0, next)
    ensures forall f :: f in picked ==> f in in0
    ensures next == [] ==> in0 == picked
    ensures next != [] ==> AroundAt(v, level, picked + next, around)
    ensures next != [] ==> in0 == if Grows(next, picked, v[level + 1], around, expandLimit) then around else picked
    ensures Gapless(picked) ==> Gapless(in0 + next)
  {
    NextGapless(v, level, picked, next, lo, hi);
    in0, around := picked, picked;
    if next != [] {
      var grow, expanded0 := MayGrow(v, level, picked, next, lo, hi, expandLimit);
      around := expanded0;
      if grow {
        in0 := expanded0;
      }
    }
  }

  method MayGrow(v: Version, level: nat, picked: Level, next: Level, lo: InternalKey, hi: InternalKey, expandLimit: nat)
    returns (grow: bool, e: Level)
    requires Shaped(v) && GoodInputs(v, level, picked, next)
    requires Spans(picked, lo, hi) && next == OverlapFilter(v[level + 1], Some(lo.user), Some(hi.user))
    ensures AroundAt(v, level, picked + next, e) && (forall f :: f in picked ==> f in e)
    ensures grow <==> Grows(next, picked, v[level + 1], e, expandLimit)
    ensures grow ==> GoodInputs(v, level, e, next)
    ensures KeepsGapless(picked + next, e + next)
  {
    e := FindAround(v, level, picked, next);
    grow := |e| > |picked| && TotalFileSize(next) + TotalFileSize(e) < expandLimit;
    if grow {
      grow := NeedsNoMore(v, level, picked, next, lo, hi, e);
    }
  }

  ghost predicate KeepsGapless(fs: Level, gs: Level) { Gapless(fs) ==> Gapless(gs) }

  /** Whether the grown set takes the same files of the next level, told by their number. */
  method NeedsNoMore(v: Version, level: nat, picked: Level, next: Level, lo: InternalKey, hi: InternalKey, e: Level) returns (same: bool)
    requires Shaped(v) && GoodInputs(v, level, picked, next) && AroundAt(v, level, picked + next, e) && forall f :: f in picked ==> f in e
    requires Spans(picked, lo, hi) && next == OverlapFilter(v[level + 1], Some(lo.user), Some(hi.user))
    ensures same <==> NoOthers(v[level + 1], e, next)
    ensures same ==> GoodInputs(v, level, e, next)
  {
    var newLo, newHi := GetRange(e);
    var expanded1 := GetOverlappingInputs(v[level + 1], false, Some(newLo.user), Some(newHi.user));
    SameNextIff(v[level + 1], picked, next, e, lo, hi, newLo, newHi);
    same := |expanded1| == |next|;
    if same {
      GoodInputsFrom(v, level, e, expanded1, newLo, newHi);
    }
  }

  /** The files of the level around the picked ones and the next level's inputs. */
  method FindAround(v: Version, level: nat, picked: Level, next: Level) returns (e: Level)
    requires Shaped(v) && GoodInputs(v, level, picked, next)
    ensures AroundAt(v, level, picked + next, e)
    ensures forall f :: f in picked ==> f in e
    ensures KeepsGapless(picked + next, e + next)
  {
    var allLo, allHi := GetRange(picked + next);
    e := GetOverlappingInputs(v[level], level == 0, Some(allLo.user), Some(allHi.user));
    RangeCoversInputs(v[level], picked, allLo, allHi, e);
    FoundAround(v[level], level == 0, picked + next, allLo, allHi, e);
    ExpandedGapless(v, level, picked, next, e, allLo, allHi);
  }

  /** The end of PickCompaction: from the file the compaction pointer or the seek count chose to the first set of inputs. */
  method PickAround(v: Version, level: nat, f: File) returns (picked: Level)
    requires Shaped(v) && level < |v| && f in v[level]
    ensures f in picked && (forall g :: g in picked ==> g in v[level]) && (level > 0 ==> picked == [f])
    ensures level == 0 ==> Closure(v[0], picked, f.smallest.user, f.largest.user) && picked == Sublist(v[0], FileSet(picked))
    ensures Gapless(picked)
  {
    picked := [f];
    if level == 0 {
      assert f in [f];
      var lo, hi := GetRange([f]);
      picked := GetOverlappingInputs(v[0], true, Some(lo.user), Some(hi.user));
      OverlapsItself(v[0], f);
    }
    PickedGapless(v[level], f, picked);
  }

  lemma OverlapsItself(fs: Level, f: File)
    requires FilesOk(fs) && f in fs
    ensures Overlaps(f, Some(f.smallest.user), Some(f.largest.user))
  {
    EntryInRange(f, f.entries[0]);
  }

  /** SetupOtherInputs: pull in the overlapping files of the next level, grow the first set when that
      changes nothing in the next level and stays under the byte limit, and note the grandparents and
      the place where the next compaction of this level starts. */
  method SetupOtherInputs(v: Version, level: nat, picked: Level, expandLimit: nat)
    returns (in0: Level, in1: Level, grandparents: Level, compactPointer: InternalKey, ghost around: Level)
    requires Shaped(v) && level + 1 < NUM_LEVELS
    requires picked != [] && forall f :: f in picked ==> f in v[level]
    requires level == 0 ==> OverlapClosed(v[0], FileSet(picked))
    ensures GoodInputs(v, level, in0, in1)
    ensures in1 == [] ==> in0 == picked
    ensures in1 != [] ==> AroundAt(v, level, picked + in1, around)
    ensures in1 != [] ==> in0 == if Grows(in1, picked, v[level + 1], around, expandLimit) then around else picked
    ensures forall f :: f in picked ==> f in in0
    ensures in1 == Sublist(v[level + 1], FileSet(in1)) && forall g :: g in in1 <==> g in v[level + 1] && MeetsHull(g, picked)
    ensures Gapless(picked) ==> Gapless(in0 + in1)
    ensures exists f :: f in in0 && f.largest == compactPointer
    ensures forall f :: f in in0 ==> InternalCompare(f.largest, compactPointer) <= 0
    ensures level + 2 < NUM_LEVELS ==>
              forall g :: g in grandparents <==> g in v[level + 2] && MeetsHull(g, in0 + in1)
  {
    var lo, hi := GetRange(picked);
    in1 := GetOverlappingInputs(v[level + 1], false, Some(lo.user), Some(hi.user));
    GoodInputsFrom(v, level, picked, in1, lo, hi);
    in0, around := ExpandInputs(v, level, picked, in1, lo, hi, expandLimit);
    lo, hi := GetRange(in0);
    compactPointer := hi;
    forall f | f in in0
      ensures InternalCompare(f.largest, compactPointer) <= 0
    {
      assert InRange(f, lo, hi);
    }
    grandparents := [];
    if level + 2 < NUM_LEVELS {
      grandparents := Grandparents(v, level, in0 + in1);
    }
  }

  method Grandparents(v: Version, level: nat, all: Level) returns (r: Level)
    requires Shaped(v) && level + 2 < NUM_LEVELS && all != []
    ensures forall g :: g in r <==> g in v[level + 2] && MeetsHull(g, all)
  {
    var allLo, allHi := GetRange(all);
    r := GetOverlappingInputs(v[level + 2], false, Some(allLo.user), Some(allHi.user));
    forall g
      ensures Overlaps(g, Some(allLo.user), Some(allHi.user)) <==> MeetsHull(g, all)
    {
      RangeIsHull(all, allLo, allHi, g);
    }
  }
}

/** A version: seven levels of table files, and the read path over them. */
module Versions {
  import opened Keys
  import opened Meaning

  const NUM_LEVELS := 7
  const MAX_MEM_COMPACT_LEVEL := 2

  /** FileMetaData together with the contents of the table it names. */
  datatype File = File(number: nat, size: nat, smallest: InternalKey, largest: InternalKey, entries: seq<Entry>)

  type Level = seq<File>
  type Version = seq<Level>

  // ----- invariants

  ghost predicate FileOk(f: File) {
    && f.entries != []
    && SortedRun(f.entries) && AllWellFormed(f.entries)
    && f.smallest == f.entries[0].key
    && f.largest == f.entries[|f.entries| - 1].key
  }

  ghost predicate FileNewer(f: File, g: File) {
    forall e, d :: e in f.entries && d in g.entries && e.key.user == d.key.user ==> e.key.seqno > d.key.seqno
  }

  ghost predicate FilesOk(fs: Level) { forall i :: 0 <= i < |fs| ==> FileOk(fs[i]) }

  /** Levels above 0: files in key order, ranges disjoint. */
  ghost predicate DisjointRun(fs: Level) {
    forall i, j :: 0 <= i < j < |fs| ==> Precedes(fs[i].largest, fs[j].smallest)
  }

  ghost predicate DistinctNumbers(fs: Level) {
    forall i, j :: 0 <= i < j < |fs| ==> fs[i].number != fs[j].number
  }

  /** Level 0: a higher file number holds the newer data. */
  ghost predicate NewerByNumber(fs: Level) {
    forall i, j :: 0 <= i < |fs| && 0 <= j < |fs| && fs[i].number > fs[j].number ==> FileNewer(fs[i], fs[j])
  }

  /** Shallower is newer for the same user key. */
  ghost predicate ShallowerIsNewer(v: Version) {
    forall i, j, a, b :: 0 <= i < j < |v| && 0 <= a < |v[i]| && 0 <= b < |v[j]| ==> FileNewer(v[i][a], v[j][b])
  }

  ghost predicate Shaped(v: Version) {
    && |v| == NUM_LEVELS
    && (forall i :: 0 <= i < |v| ==> FilesOk(v[i]))
    && (forall i :: 1 <= i < |v| ==> DisjointRun(v[i]))
    && DistinctNumbers(v[0]) && NewerByNumber(v[0])
  }

  ghost predicate VersionOk(v: Version) { Shaped(v) && ShallowerIsNewer(v) }

  ghost function FilesEntries(fs: Level): set<Entry> { set f, e | f in fs && e in f.entries :: e }

  /** Entries at `level` and deeper. */
  ghost function EntriesFrom(v: Version, level: nat): set<Entry>
  {
    set i, f, e | level <= i < |v| && f in v[i] && e in f.entries :: e
  }

  ghost function VersionEntries(v: Version): set<Entry> { EntriesFrom(v, 0) }

  // ----- facts about files and levels

  lemma EntryInRange(f: File, e: Entry)
    requires FileOk(f) && e in f.entries
    ensures !Before(e.key, f.smallest) && !Before(f.largest, e.key)
    ensures Rank(f.smallest.user) <= Rank(e.key.user) <= Rank(f.largest.user)
  {
    var i :| 0 <= i < |f.entries| && f.entries[i] == e;
    if i > 0 {
      assert Precedes(f.entries[0].key, f.entries[i].key);
    }
    if i < |f.entries| - 1 {
      assert Precedes(f.entries[i].key, f.entries[|f.entries| - 1].key);
    }
    assert Compare(e.key.user, f.smallest.user) >= 0;
    assert Compare(e.key.user, f.largest.user) <= 0;
  }

  lemma RunOrdersEntries(fs: Level, i: nat, j: nat, e: Entry, d: Entry)
    requires FilesOk(fs) && DisjointRun(fs) && i < j < |fs|
    requires e in fs[i].entries && d in fs[j].entries
    ensures Before(e.key, d.key)
  {
    EntryInRange(fs[i], e);
    EntryInRange(fs[j], d);
    assert Precedes(fs[i].largest, fs[j].smallest);
  }

  lemma FileUnique(f: File)
    requires FileOk(f)
    ensures Unique(Elements(f.entries))
  {
    SortedRunUnique(f.entries);
  }

  // ----- FindFile and overlap tests

  /** Binary search: the earliest file whose largest key is at or past `key`. */
  method FindFile(files: Level, key: InternalKey) returns (right: nat)
    requires FilesOk(files) && DisjointRun(files)
    ensures right <= |files|
    ensures forall i :: 0 <= i < right ==> Before(files[i].largest, key)
    ensures forall i :: right <= i < |files| ==> !Before(files[i].largest, key)
  {
    LargestIncreasing(files);
    var left := 0;
    right := |files|;
    while left < right
      invariant 0 <= left <= right <= |files|
      invariant forall i :: 0 <= i < left ==> Before(files[i].largest, key)
      invariant forall i :: right <= i < |files| ==> !Before(files[i].largest, key)
    {
      var mid := (left + right) / 2;
      if InternalCompare(files[mid].largest, key) < 0 {
        left := mid + 1;
      } else {
        right := mid;
      }
    }
  }

  lemma LargestIncreasing(files: Level)
    requires FilesOk(files) && DisjointRun(files)
    ensures forall i, j :: 0 <= i < j < |files| ==> Before(files[i].largest, files[j].largest)
  {
    forall i, j | 0 <= i < j < |files|
      ensures Before(files[i].largest, files[j].largest)
    {
      assert Precedes(files[i].largest, files[j].smallest);
      EntryInRange(files[j], files[j].entries[0]);
    }
  }

  /** Missing bounds are infinite. */
  predicate AfterFile(key: Option<UserKey>, f: File) { key.Some? && Compare(key.value, f.largest.user) > 0 }
  predicate BeforeFile(key: Option<UserKey>, f: File) { key.Some? && Compare(key.value, f.smallest.user) < 0 }
  predicate Overlaps(f: File, lo: Option<UserKey>, hi: Option<UserKey>) { !AfterFile(lo, f) && !BeforeFile(hi, f) }

  /** A file overlaps a range, open where no bound is given, if and only if some user key is in both. */
  lemma OverlapsIff(f: File, lo: Option<UserKey>, hi: Option<UserKey>)
    requires FileOk(f) && (lo.Some? && hi.Some? ==> Compare(lo.value, hi.value) <= 0)
    ensures Overlaps(f, lo, hi) <==>
            exists x: UserKey :: && Compare(f.smallest.user, x) <= 0 && Compare(x, f.largest.user) <= 0
                                 && (lo.Some? ==> Compare(lo.value, x) <= 0) && (hi.Some? ==> Compare(x, hi.value) <= 0)
  {
    EntryInRange(f, f.entries[0]);
    if Overlaps(f, lo, hi) {
      var x := if lo.Some? && Compare(f.smallest.user, lo.value) <= 0 then lo.value else f.smallest.user;
      assert Compare(f.smallest.user, x) <= 0 && Compare(x, f.largest.user) <= 0;
    }
  }

  method SomeFileOverlapsRange(disjointSorted: bool, files: Level, lo: Option<UserKey>, hi: Option<UserKey>)
    returns (b: bool)
    requires FilesOk(files) && (disjointSorted ==> DisjointRun(files))
    ensures b <==> exists f :: f in files && Overlaps(f, lo, hi)
  {
    if !disjointSorted {
      var i := 0;
      while i < |files|
        invariant 0 <= i <= |files|
        invariant forall j :: 0 <= j < i ==> !Overlaps(files[j], lo, hi)
      {
        var f := files[i];
        if AfterFile(lo, f) || BeforeFile(hi, f) {
        } else {
          assert f in files && Overlaps(f, lo, hi);
          return true;
        }
        i := i + 1;
      }
      return false;
    }
    var index := 0;
    if lo.Some? {
      index := FindFile(files, InternalKey(lo.value, MAX_SEQUENCE, TYPE_FOR_SEEK));
    }
    if index >= |files| {
      FirstPastLow(files, lo, index);
      return false;
    }
    FirstPastLow(files, lo, index);
    LaterFilesStartLater(files, index);
    b := !BeforeFile(hi, files[index]);
    if b {
      assert files[index] in files;
    }
  }

  lemma FirstPastLow(files: Level, lo: Option<UserKey>, index: nat)
    requires FilesOk(files) && index <= |files|
    requires lo.None? ==> index == 0
    requires lo.Some? ==> var t := InternalKey(lo.value, MAX_SEQUENCE, TYPE_FOR_SEEK);
                          && (forall i :: 0 <= i < index ==> Before(files[i].largest, t))
                          && (forall i :: index <= i < |files| ==> !Before(files[i].largest, t))
    ensures forall i :: 0 <= i < |files| ==> (AfterFile(lo, files[i]) <==> i < index)
  {
    if lo.Some? {
      var t := InternalKey(lo.value, MAX_SEQUENCE, TYPE_FOR_SEEK);
      forall i | 0 <= i < |files|
        ensures Before(files[i].largest, t) <==> Compare(lo.value, files[i].largest.user) > 0
      {
        var f := files[i];
        assert f in files && FileOk(f);
        assert f.entries[|f.entries| - 1] in f.entries;
        assert f.largest.WellFormed();
        assert f.largest.user == lo.value ==> f.largest.Tag() <= t.Tag();
      }
    }
  }

  lemma LaterFilesStartLater(files: Level, index: nat)
    requires FilesOk(files) && DisjointRun(files) && index < |files|
    ensures forall i :: index <= i < |files| ==> Rank(files[index].smallest.user) <= Rank(files[i].smallest.user)
  {
    forall i | index < i < |files|
      ensures Rank(files[index].smallest.user) <= Rank(files[i].smallest.user)
    {
      assert Precedes(files[index].largest, files[i].smallest);
      EntryInRange(files[index], files[index].entries[0]);
    }
  }

  // ----- Version::Get

  ghost predicate NewestFirst(r: Level) { forall i, j :: 0 <= i < j < |r| ==> r[i].number > r[j].number }

  method InsertNewestFirst(r: Level, f: File) returns (r': Level)
    requires NewestFirst(r) && forall i :: 0 <= i < |r| ==> r[i].number != f.number
    ensures NewestFirst(r')
    ensures forall g :: g in r' <==> g in r || g == f
  {
    var p := 0;
    while p < |r| && r[p].number > f.number
      invariant 0 <= p <= |r|
      invariant forall i :: 0 <= i < p ==> r[i].number > f.number
    {
      p := p + 1;
    }
    r' := r[..p] + [f] + r[p..];
    assert r == r[..p] + r[p..];
  }

  /** std::sort with the NewestFirst order. */
  method SortNewestFirst(tmp: Level) returns (r: Level)
    requires DistinctNumbers(tmp)
    ensures forall f :: f in r <==> f in tmp
    ensures NewestFirst(r)
  {
    r := [];
    var n := 0;
    while n < |tmp|
      invariant 0 <= n <= |tmp|
      invariant forall f :: f in r <==> f in tmp[..n]
      invariant NewestFirst(r)
    {
      var f := tmp[n];
      assert tmp[..n + 1] == tmp[..n] + [f];
      forall i | 0 <= i < |r|
        ensures r[i].number != f.number
      {
        assert r[i] in tmp[..n];
      }
      r := InsertNewestFirst(r, f);
      n := n + 1;
    }
    assert tmp[..n] == tmp;
  }

  predicate RangeHolds(f: File, k: UserKey) { Compare(k, f.smallest.user) >= 0 && Compare(k, f.largest.user) <= 0 }

  /** The level-0 files whose user-key range contains k, newest first. */
  method OverlappingNewestFirst(fs: Level, k: UserKey) returns (r: Level)
    requires FilesOk(fs) && DistinctNumbers(fs) && NewerByNumber(fs)
    ensures FilesOk(r)
    ensures forall i, j :: 0 <= i < j < |r| ==> FileNewer(r[i], r[j])
    ensures forall f :: f in r <==> f in fs && RangeHolds(f, k)
    ensures forall f, e :: f in fs && e in f.entries && e.key.user == k ==> f in r
  {
    var tmp: Level := [];
    var i := 0;
    while i < |fs|
      invariant 0 <= i <= |fs|
      invariant DistinctNumbers(tmp)
      invariant forall f :: f in tmp ==> f in fs[..i] && RangeHolds(f, k)
      invariant forall j :: 0 <= j < i && RangeHolds(fs[j], k) ==> fs[j] in tmp
    {
      var f := fs[i];
      assert fs[..i + 1] == fs[..i] + [f];
      if RangeHolds(f, k) {
        forall g | g in tmp
          ensures g.number != f.number
        {
          assert g in fs[..i];
        }
        tmp := tmp + [f];
      }
      i := i + 1;
    }
    forall f, e | f in fs && e in f.entries && e.key.user == k
      ensures f in tmp
    {
      EntryInRange(f, e);
    }
    assert fs[..i] == fs;
    r := SortNewestFirst(tmp);
    forall i, j | 0 <= i < j < |r|
      ensures FileNewer(r[i], r[j])
    {
      assert r[i] in fs && r[j] in fs;
    }
    forall i | 0 <= i < |r|
      ensures FileOk(r[i])
    {
      assert r[i] in fs;
    }
  }

  /** The at most one file of a deeper level that can hold k's newest entry at the lookup key. */
  method CandidateFile(fs: Level, k: UserKey, s: SeqNum) returns (r: Level)
    requires FilesOk(fs) && DisjointRun(fs)
    ensures FilesOk(r) && |r| <= 1
    ensures Unique(FilesEntries(fs)) && Unique(FilesEntries(r))
    ensures Outcome(FilesEntries(fs), k, s) == Outcome(FilesEntries(r), k, s)
  {
    var index := FindFile(fs, LookupKey(k, s));
    RunUnique(fs);
    if index >= |fs| {
      r := [];
      NothingPastLookup(fs, k, s, index);
    } else if Compare(k, fs[index].smallest.user) < 0 {
      r := [];
      NothingPastLookup(fs, k, s, index);
    } else {
      r := [fs[index]];
      assert fs[index] in fs;
      FileUnique(fs[index]);
      assert FilesEntries(r) == Elements(fs[index].entries);
      NewestInCandidate(fs, k, s, index);
    }
  }

  lemma RunUnique(fs: Level)
    requires FilesOk(fs) && DisjointRun(fs)
    ensures Unique(FilesEntries(fs))
  {
    forall a, b | a in FilesEntries(fs) && b in FilesEntries(fs) && a.key.user == b.key.user && a.key.seqno == b.key.seqno
      ensures a == b
    {
      var i :| 0 <= i < |fs| && a in fs[i].entries;
      var j :| 0 <= j < |fs| && b in fs[j].entries;
      if i == j {
        FileUnique(fs[i]);
        assert a in Elements(fs[i].entries) && b in Elements(fs[i].entries);
      } else if i < j {
        BoundaryNewer(fs, i, j, a, b);
      } else {
        BoundaryNewer(fs, j, i, b, a);
      }
    }
  }

  lemma LastIsOldest(f: File, e: Entry)
    requires FileOk(f) && e in f.entries
    ensures e.key.user == f.largest.user ==> e.key.seqno >= f.largest.seqno
  {
    var i :| 0 <= i < |f.entries| && f.entries[i] == e;
    if i < |f.entries| - 1 {
      assert Precedes(f.entries[i].key, f.entries[|f.entries| - 1].key);
    }
  }

  lemma FirstIsNewest(f: File, e: Entry)
    requires FileOk(f) && e in f.entries
    ensures e.key.user == f.smallest.user ==> e.key.seqno <= f.smallest.seqno
  {
    var i :| 0 <= i < |f.entries| && f.entries[i] == e;
    if i > 0 {
      assert Precedes(f.entries[0].key, f.entries[i].key);
    }
  }

  /** Across files of one level, equal user keys still go newest first. */
  lemma BoundaryNewer(fs: Level, i: nat, j: nat, e: Entry, d: Entry)
    requires FilesOk(fs) && DisjointRun(fs) && i < j < |fs|
    requires e in fs[i].entries && d in fs[j].entries && e.key.user == d.key.user
    ensures e.key.seqno > d.key.seqno
  {
    EntryInRange(fs[i], e);
    EntryInRange(fs[j], d);
    assert Precedes(fs[i].largest, fs[j].smallest);
    LastIsOldest(fs[i], e);
    FirstIsNewest(fs[j], d);
  }

  lemma NothingPastLookup(fs: Level, k: UserKey, s: SeqNum, index: nat)
    requires FilesOk(fs) && DisjointRun(fs) && index <= |fs|
    requires forall i :: 0 <= i < index ==> Before(fs[i].largest, LookupKey(k, s))
    requires index < |fs| ==> Compare(k, fs[index].smallest.user) < 0
    ensures NoneAt(FilesEntries(fs), k, s)
  {
    forall d | d in FilesEntries(fs)
      ensures !Visible(d, k, s)
    {
      var i :| 0 <= i < |fs| && d in fs[i].entries;
      EntryInRange(fs[i], d);
      if i < index {
        assert Before(d.key, LookupKey(k, s));
        assert fs[i] in fs && d.key.WellFormed();
      } else {
        LaterFilesStartLater(fs, index);
      }
    }
  }

  /** The newest entry of k at s, if the level has one, is in the candidate file. */
  lemma NewestInCandidate(fs: Level, k: UserKey, s: SeqNum, index: nat)
    requires FilesOk(fs) && DisjointRun(fs) && index < |fs| && Unique(FilesEntries(fs))
    requires forall i :: 0 <= i < index ==> Before(fs[i].largest, LookupKey(k, s))
    requires !Before(fs[index].largest, LookupKey(k, s))
    ensures Unique(Elements(fs[index].entries))
    ensures Outcome(FilesEntries(fs), k, s) == Outcome(Elements(fs[index].entries), k, s)
  {
    var f := fs[index];
    FileUnique(f);
    OutcomeCases(Elements(f.entries), k, s);
    if NoneAt(Elements(f.entries), k, s) {
      CandidateMiss(fs, k, s, index);
    } else {
      var e :| NewestAt(Elements(f.entries), k, s, e);
      CandidateHit(fs, k, s, index, e);
      OutcomeIs(FilesEntries(fs), k, s, e);
      OutcomeIs(Elements(f.entries), k, s, e);
    }
  }

  lemma CandidateMiss(fs: Level, k: UserKey, s: SeqNum, index: nat)
    requires FilesOk(fs) && DisjointRun(fs) && index < |fs|
    requires forall i :: 0 <= i < index ==> Before(fs[i].largest, LookupKey(k, s))
    requires !Before(fs[index].largest, LookupKey(k, s)) && NoneAt(Elements(fs[index].entries), k, s)
    ensures NoneAt(FilesEntries(fs), k, s)
  {
    var f := fs[index];
    assert f.entries[|f.entries| - 1] in Elements(f.entries);
    forall d | d in FilesEntries(fs)
      ensures !Visible(d, k, s)
    {
      var i :| 0 <= i < |fs| && d in fs[i].entries;
      CandidateComesFirst(fs, k, s, index, i, d);
      if i == index {
        assert d in Elements(f.entries);
      } else if i > index && Visible(d, k, s) {
        LargestSeen(fs, k, s, index, i, d);
      }
    }
  }

  lemma CandidateHit(fs: Level, k: UserKey, s: SeqNum, index: nat, e: Entry)
    requires FilesOk(fs) && DisjointRun(fs) && index < |fs|
    requires forall i :: 0 <= i < index ==> Before(fs[i].largest, LookupKey(k, s))
    requires NewestAt(Elements(fs[index].entries), k, s, e)
    ensures NewestAt(FilesEntries(fs), k, s, e)
  {
    assert fs[index] in fs;
    forall d | d in FilesEntries(fs) && Visible(d, k, s)
      ensures d.key.seqno <= e.key.seqno
    {
      var i :| 0 <= i < |fs| && d in fs[i].entries;
      CandidateComesFirst(fs, k, s, index, i, d);
      if i > index {
        BoundaryNewer(fs, index, i, e, d);
      } else {
        assert d in Elements(fs[index].entries);
      }
    }
  }

  lemma CandidateComesFirst(fs: Level, k: UserKey, s: SeqNum, index: nat, i: nat, d: Entry)
    requires FilesOk(fs) && index < |fs| && i < |fs| && d in fs[i].entries
    requires forall i :: 0 <= i < index ==> Before(fs[i].largest, LookupKey(k, s))
    ensures Visible(d, k, s) ==> i >= index
  {
    EntryInRange(fs[i], d);
    assert d.key.WellFormed();
    assert i < index ==> Before(d.key, LookupKey(k, s));
  }

  lemma LargestSeen(fs: Level, k: UserKey, s: SeqNum, index: nat, i: nat, d: Entry)
    requires FilesOk(fs) && DisjointRun(fs) && index < i < |fs| && d in fs[i].entries
    requires Visible(d, k, s) && !Before(fs[index].largest, LookupKey(k, s))
    ensures Visible(fs[index].entries[|fs[index].entries| - 1], k, s)
  {
    RunOrdersEntries(fs, index, i, fs[index].entries[|fs[index].entries| - 1], d);
  }

  /** The newest visible entry of the first file that has one is newer than any in file j. */
  lemma HitIsNewest(files: Level, k: UserKey, s: SeqNum, i: nat, e: Entry, j: nat, d: Entry)
    requires i < |files| && j < |files| && (i < j ==> FileNewer(files[i], files[j]))
    requires j < i ==> NoneAt(Elements(files[j].entries), k, s)
    requires NewestAt(Elements(files[i].entries), k, s, e) && d in files[j].entries && Visible(d, k, s)
    ensures d.key.seqno <= e.key.seqno
  {
    assert d in Elements(files[j].entries);
  }

  lemma SearchHit(files: Level, k: UserKey, s: SeqNum, i: nat)
    requires FilesOk(files) && i < |files|
    requires forall i, j :: 0 <= i < j < |files| ==> FileNewer(files[i], files[j])
    requires Unique(FilesEntries(files))
    requires forall j :: 0 <= j < i ==> NoneAt(Elements(files[j].entries), k, s)
    requires !NoneAt(Elements(files[i].entries), k, s)
    ensures Unique(Elements(files[i].entries))
    ensures Outcome(FilesEntries(files), k, s) == Outcome(Elements(files[i].entries), k, s)
    ensures !NoneAt(FilesEntries(files), k, s)
  {
    FileUnique(files[i]);
    OutcomeCases(Elements(files[i].entries), k, s);
    var e :| NewestAt(Elements(files[i].entries), k, s, e);
    assert files[i] in files;
    forall d | d in FilesEntries(files) && Visible(d, k, s)
      ensures d.key.seqno <= e.key.seqno
    {
      var j :| 0 <= j < |files| && d in files[j].entries;
      HitIsNewest(files, k, s, i, e, j, d);
    }
    assert NewestAt(FilesEntries(files), k, s, e);
    OutcomeIs(FilesEntries(files), k, s, e);
    OutcomeIs(Elements(files[i].entries), k, s, e);
  }

  lemma SearchMiss(files: Level, k: UserKey, s: SeqNum)
    requires forall j :: 0 <= j < |files| ==> NoneAt(Elements(files[j].entries), k, s)
    ensures NoneAt(FilesEntries(files), k, s)
    ensures Outcome(FilesEntries(files), k, s) == NotFound
  {
    forall d | d in FilesEntries(files)
      ensures !Visible(d, k, s)
    {
      var j :| 0 <= j < |files| && d in files[j].entries;
      assert d in Elements(files[j].entries);
    }
  }

  /** TableCache::Get with the SaveValue callback on one file. */
  method SearchFile(f: File, k: UserKey, s: SeqNum) returns (r: GetResult)
    requires FileOk(f)
    ensures r == Outcome(Elements(f.entries), k, s)
    ensures r == NotFound <==> NoneAt(Elements(f.entries), k, s)
  {
    r := RunGet(f.entries, k, s);
    RunGetIsOutcome(f.entries, k, s);
  }

  lemma NewestFirstUnique(files: Level)
    requires FilesOk(files)
    requires forall i, j :: 0 <= i < j < |files| ==> FileNewer(files[i], files[j])
    ensures Unique(FilesEntries(files))
  {
    forall a, b | a in FilesEntries(files) && b in FilesEntries(files) && a.key.user == b.key.user && a.key.seqno == b.key.seqno
      ensures a == b
    {
      var i :| 0 <= i < |files| && a in files[i].entries;
      var j :| 0 <= j < |files| && b in files[j].entries;
      FileUnique(files[i]);
      assert a in Elements(files[i].entries);
      assert i == j ==> b in Elements(files[i].entries);
    }
  }

  /** Search a list of files, newest data first, until one answers. */
  method SearchFiles(files: Level, k: UserKey, s: SeqNum) returns (r: GetResult)
    requires FilesOk(files)
    requires forall i, j :: 0 <= i < j < |files| ==> FileNewer(files[i], files[j])
    ensures Unique(FilesEntries(files))
    ensures r == Outcome(FilesEntries(files), k, s)
    ensures r == NotFound <==> NoneAt(FilesEntries(files), k, s)
  {
    NewestFirstUnique(files);
    var i := 0;
    while i < |files|
      invariant 0 <= i <= |files|
      invariant forall j :: 0 <= j < i ==> NoneAt(Elements(files[j].entries), k, s)
    {
      r := SearchFile(files[i], k, s);
      if r != NotFound {
        SearchHit(files, k, s, i);
        return;
      }
      i := i + 1;
    }
    SearchMiss(files, k, s);
    r := NotFound;
  }

  lemma NewerDiffer(f: File, g: File, a: Entry, b: Entry)
    requires FileNewer(f, g) || FileNewer(g, f)
    requires a in f.entries && b in g.entries && a.key.user == b.key.user
    ensures a.key.seqno != b.key.seqno
  {
  }

  lemma LevelZeroUnique(fs: Level)
    requires FilesOk(fs) && DistinctNumbers(fs) && NewerByNumber(fs)
    ensures Unique(FilesEntries(fs))
  {
    forall a, b | a in FilesEntries(fs) && b in FilesEntries(fs) && a.key.user == b.key.user && a.key.seqno == b.key.seqno
      ensures a == b
    {
      var i :| 0 <= i < |fs| && a in fs[i].entries;
      var j :| 0 <= j < |fs| && b in fs[j].entries;
      if i == j {
        FileUnique(fs[i]);
        assert a in Elements(fs[i].entries) && b in Elements(fs[i].entries);
      } else {
        NewerDiffer(fs[i], fs[j], a, b);
      }
    }
  }

  lemma LevelUnique(v: Version, l: nat)
    requires Shaped(v) && l < |v|
    ensures Unique(FilesEntries(v[l]))
  {
    if l == 0 {
      LevelZeroUnique(v[0]);
    } else {
      RunUnique(v[l]);
    }
  }

  lemma EntriesFromStep(v: Version, l: nat)
    requires VersionOk(v) && l < |v|
    ensures EntriesFrom(v, l) == FilesEntries(v[l]) + EntriesFrom(v, l + 1)
    ensures AllNewer(FilesEntries(v[l]), EntriesFrom(v, l + 1))
  {
    forall e, d | e in FilesEntries(v[l]) && d in EntriesFrom(v, l + 1) && e.key.user == d.key.user
      ensures e.key.seqno > d.key.seqno
    {
      var a :| 0 <= a < |v[l]| && e in v[l][a].entries;
      var j, b :| l + 1 <= j < |v| && 0 <= b < |v[j]| && d in v[j][b].entries;
      assert FileNewer(v[l][a], v[j][b]);
    }
  }

  lemma {:induction false} EntriesUnique(v: Version, l: nat)
    requires VersionOk(v) && l <= |v|
    ensures Unique(EntriesFrom(v, l))
    decreases |v| - l
  {
    if l < |v| {
      EntriesUnique(v, l + 1);
      LevelUnique(v, l);
      EntriesFromStep(v, l);
    }
  }

  /** Reading level by level: a level that answers hides everything deeper. */
  lemma LevelRead(v: Version, l: nat, k: UserKey, s: SeqNum)
    requires VersionOk(v) && l < |v|
    ensures NoneAt(FilesEntries(v[l]), k, s) ==> Outcome(EntriesFrom(v, l), k, s) == Outcome(EntriesFrom(v, l + 1), k, s)
    ensures !NoneAt(FilesEntries(v[l]), k, s) ==> Outcome(EntriesFrom(v, l), k, s) == Outcome(FilesEntries(v[l]), k, s)
  {
    EntriesUnique(v, l + 1);
    LevelUnique(v, l);
    EntriesFromStep(v, l);
    LayeredRead(FilesEntries(v[l]), EntriesFrom(v, l + 1), k, s);
  }

  lemma OverlappingSuffice(fs: Level, r: Level, k: UserKey, s: SeqNum)
    requires Unique(FilesEntries(fs)) && Unique(FilesEntries(r))
    requires forall f :: f in r ==> f in fs
    requires forall f, e :: f in fs && e in f.entries && e.key.user == k ==> f in r
    ensures Outcome(FilesEntries(fs), k, s) == Outcome(FilesEntries(r), k, s)
  {
    SameVisible(FilesEntries(fs), FilesEntries(r), k, s);
  }

  method SearchLevelZero(fs: Level, k: UserKey, s: SeqNum) returns (r: GetResult)
    requires FilesOk(fs) && DistinctNumbers(fs) && NewerByNumber(fs)
    ensures r == Outcome(FilesEntries(fs), k, s)
  {
    var files := OverlappingNewestFirst(fs, k);
    r := SearchFiles(files, k, s);
    LevelZeroUnique(fs);
    OverlappingSuffice(fs, files, k, s);
  }

  method SearchLevel(v: Version, level: nat, k: UserKey, s: SeqNum) returns (r: GetResult)
    requires VersionOk(v) && level < |v|
    ensures Outcome(EntriesFrom(v, level), k, s) == if r == NotFound then Outcome(EntriesFrom(v, level + 1), k, s) else r
  {
    if |v[level]| == 0 {
      r := NotFound;
      SearchMiss([], k, s);
    } else if level == 0 {
      r := SearchLevelZero(v[0], k, s);
    } else {
      r := SearchDeeper(v[level], k, s);
    }
    LevelAnswer(v, level, k, s, r);
  }

  method SearchDeeper(fs: Level, k: UserKey, s: SeqNum) returns (r: GetResult)
    requires FilesOk(fs) && DisjointRun(fs)
    ensures r == Outcome(FilesEntries(fs), k, s)
  {
    var files := CandidateFile(fs, k, s);
    r := SearchFiles(files, k, s);
  }

  lemma LevelAnswer(v: Version, level: nat, k: UserKey, s: SeqNum, r: GetResult)
    requires VersionOk(v) && level < |v| && r == Outcome(FilesEntries(v[level]), k, s)
    ensures Outcome(EntriesFrom(v, level), k, s) == if r == NotFound then Outcome(EntriesFrom(v, level + 1), k, s) else r
  {
    LevelUnique(v, level);
    LevelRead(v, level, k, s);
    OutcomeCases(FilesEntries(v[level]), k, s);
  }

  lemma NothingDeeper(v: Version, k: UserKey, s: SeqNum)
    ensures Outcome(EntriesFrom(v, |v|), k, s) == NotFound
  {
    assert NoneAt(EntriesFrom(v, |v|), k, s);
  }

  /** Version::Get returns the newest entry at or below the snapshot in the whole version, though
      it stops at the first level, and at the first level-0 file, that answers. */
  method Get(v: Version, k: UserKey, s: SeqNum) returns (r: GetResult)
    requires VersionOk(v)
    ensures r == Outcome(VersionEntries(v), k, s)
  {
    NothingDeeper(v, k, s);
    for level := 0 to NUM_LEVELS
      invariant Outcome(EntriesFrom(v, 0), k, s) == Outcome(EntriesFrom(v, level), k, s)
    {
      r := SearchLevel(v, level, k, s);
      if r != NotFound {
        return;
      }
    }
    r := NotFound;
  }
}

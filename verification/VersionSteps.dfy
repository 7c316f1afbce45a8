/** The three ways a version changes: a flush, a move of one file down a level, a compaction. */
module VersionSteps {
  import opened Keys
  import opened Meaning
  import opened Versions
  import opened Inputs
  import opened Compaction

  // ----- installing an edit

  /** BySmallestKey */
  ghost predicate FileLess(f: File, g: File) {
    InternalCompare(f.smallest, g.smallest) < 0 || (f.smallest == g.smallest && f.number < g.number)
  }

  ghost predicate SortedBySmallest(fs: Level) {
    forall i, j :: 0 <= i < j < |fs| ==> FileLess(fs[i], fs[j])
  }

  /** What Builder::SaveTo leaves at one level. */
  ghost predicate Installs(fs: Level, removed: set<File>, added: set<File>, fs': Level) {
    && SortedBySmallest(fs')
    && forall f :: f in fs' <==> (f in fs && f !in removed) || f in added
  }

  ghost predicate Apart(f: File, g: File) {
    Precedes(f.largest, g.smallest) || Precedes(g.largest, f.smallest)
  }

  ghost predicate AllApart(fs: Level) { forall f, g :: f in fs && g in fs && f != g ==> Apart(f, g) }

  ghost predicate NumbersOrder(fs: Level) {
    forall f, g :: f in fs && g in fs && f != g ==> f.number != g.number && (f.number > g.number ==> FileNewer(f, g))
  }

  ghost predicate LevelNewer(fs: Level, gs: Level) { forall f, g :: f in fs && g in gs ==> FileNewer(f, g) }

  lemma SortedApart(fs: Level)
    requires SortedBySmallest(fs) && FilesOk(fs) && AllApart(fs)
    ensures DisjointRun(fs)
  {
    forall i, j | 0 <= i < j < |fs|
      ensures Precedes(fs[i].largest, fs[j].smallest)
    {
      assert FileLess(fs[i], fs[j]);
      assert fs[i] in fs && fs[j] in fs;
      EntryInRange(fs[j], fs[j].entries[0]);
      EntryInRange(fs[j], fs[j].entries[|fs[j].entries| - 1]);
    }
  }

  lemma RunApart(fs: Level)
    requires DisjointRun(fs)
    ensures AllApart(fs)
  {
  }

  lemma ZeroNumbers(fs: Level)
    requires DistinctNumbers(fs) && NewerByNumber(fs)
    ensures NumbersOrder(fs)
  {
  }

  lemma NumbersZero(fs: Level)
    requires SortedBySmallest(fs) && NumbersOrder(fs)
    ensures DistinctNumbers(fs) && NewerByNumber(fs)
  {
    forall i, j | 0 <= i < j < |fs|
      ensures fs[i].number != fs[j].number
    {
      assert FileLess(fs[i], fs[j]);
      assert fs[i] in fs && fs[j] in fs;
    }
    forall i, j | 0 <= i < |fs| && 0 <= j < |fs| && fs[i].number > fs[j].number
      ensures FileNewer(fs[i], fs[j])
    {
      assert fs[i] in fs && fs[j] in fs;
    }
  }

  lemma LevelsNewer(v: Version, i: nat, j: nat)
    requires ShallowerIsNewer(v) && i < j < |v|
    ensures LevelNewer(v[i], v[j])
  {
  }

  /** The invariant, put together from facts about which files are where. */
  lemma Assemble(v: Version)
    requires |v| == NUM_LEVELS
    requires forall l :: 0 <= l < |v| ==> FilesOk(v[l])
    requires SortedBySmallest(v[0]) && NumbersOrder(v[0])
    requires forall l :: 1 <= l < |v| ==> DisjointRun(v[l])
    requires forall i, j :: 0 <= i < j < |v| ==> LevelNewer(v[i], v[j])
    ensures VersionOk(v)
  {
    NumbersZero(v[0]);
    forall i, j, a, b | 0 <= i < j < |v| && 0 <= a < |v[i]| && 0 <= b < |v[j]|
      ensures FileNewer(v[i][a], v[j][b])
    {
      assert LevelNewer(v[i], v[j]);
      assert v[i][a] in v[i] && v[j][b] in v[j];
    }
  }

  lemma MembersOk(fs: Level)
    requires forall f :: f in fs ==> FileOk(f)
    ensures FilesOk(fs)
  {
  }

  // ----- flush

  /** CompactMemTable: table f of a memtable enters `level`, chosen by PickLevelForMemTableOutput. */
  ghost predicate FlushStep(v: Version, v': Version, f: File, level: nat) {
    && level <= MAX_MEM_COMPACT_LEVEL && |v| == |v'| == NUM_LEVELS
    && (level > 0 ==> ClearTo(v, level, f.smallest.user, f.largest.user))
    && (forall i :: 0 <= i < |v| && i != level ==> v'[i] == v[i])
    && Installs(v[level], {}, {f}, v'[level])
    && forall g :: g in v[0] ==> g.number < f.number
  }

  lemma ClearMeansApart(fs: Level, f: File)
    requires FilesOk(fs) && FileOk(f) && LevelClear(fs, f.smallest.user, f.largest.user)
    ensures forall g :: g in fs ==> Apart(f, g) && FileNewer(g, f)
  {
    forall g | g in fs
      ensures Apart(f, g) && FileNewer(g, f)
    {
      assert !Overlaps(g, Some(f.smallest.user), Some(f.largest.user));
      assert Apart(f, g);
      forall e, d | e in g.entries && d in f.entries
        ensures e.key.user != d.key.user
      {
        EntryInRange(g, e);
        EntryInRange(f, d);
      }
    }
  }

  lemma NewerThanAll(v: Version, f: File, l: nat)
    requires l < |v| && AllNewer(Elements(f.entries), VersionEntries(v))
    ensures forall g :: g in v[l] ==> FileNewer(f, g)
  {
    forall g, e, d | g in v[l] && e in f.entries && d in g.entries && e.key.user == d.key.user
      ensures e.key.seqno > d.key.seqno
    {
      assert e in Elements(f.entries) && d in VersionEntries(v);
    }
  }

  lemma FlushLevelZero(fs: Level, f: File, fs': Level)
    requires NumbersOrder(fs) && Installs(fs, {}, {f}, fs')
    requires forall g :: g in fs ==> g.number < f.number && FileNewer(f, g)
    ensures SortedBySmallest(fs') && NumbersOrder(fs')
  {
  }

  lemma FlushDeeper(fs: Level, f: File, fs': Level)
    requires FilesOk(fs) && DisjointRun(fs) && FileOk(f) && Installs(fs, {}, {f}, fs')
    requires LevelClear(fs, f.smallest.user, f.largest.user)
    ensures FilesOk(fs') && DisjointRun(fs')
  {
    ClearMeansApart(fs, f);
    RunApart(fs);
    MembersOk(fs');
    SortedApart(fs');
  }

  /** File f enters one level and nothing else changes. */
  ghost predicate AddsFile(v: Version, v': Version, f: File, level: nat) {
    && |v| == |v'| == NUM_LEVELS && level < |v| && (forall i :: 0 <= i < |v| && i != level ==> v'[i] == v[i])
    && Installs(v[level], {}, {f}, v'[level])
  }

  /** Where a new file fits: newest at level 0, or in a gap of a deeper level, newer than everything below it and not
      newer than anything above it. */
  ghost predicate Fits(v: Version, f: File, level: nat) {
    && level < |v| && (level == 0 ==> forall g :: g in v[0] ==> g.number < f.number && FileNewer(f, g))
    && (level > 0 ==> LevelClear(v[level], f.smallest.user, f.largest.user))
    && (forall i :: 0 <= i < level ==> LevelNewer(v[i], [f]))
    && forall j :: level < j < |v| ==> LevelNewer([f], v[j])
  }

  lemma FitKeeps(v: Version, v': Version, f: File, level: nat)
    requires VersionOk(v) && SortedBySmallest(v[0]) && FileOk(f) && AddsFile(v, v', f, level) && Fits(v, f, level)
    ensures VersionOk(v') && SortedBySmallest(v'[0])
  {
    ZeroNumbers(v[0]);
    assert f in [f];
    if level == 0 {
      FlushLevelZero(v[0], f, v'[0]);
      MembersOk(v'[0]);
    } else {
      FlushDeeper(v[level], f, v'[level]);
    }
    forall i, j | 0 <= i < j < |v'|
      ensures LevelNewer(v'[i], v'[j])
    {
      LevelsNewer(v, i, j);
    }
    Assemble(v');
  }

  /** A flush keeps the version invariant and adds exactly the memtable's entries. */
  lemma FlushKeeps(v: Version, v': Version, f: File, level: nat)
    requires VersionOk(v) && FlushStep(v, v', f, level) && FileOk(f) && SortedBySmallest(v[0])
    requires AllNewer(Elements(f.entries), VersionEntries(v))
    ensures VersionOk(v') && SortedBySmallest(v'[0])
    ensures VersionEntries(v') == VersionEntries(v) + Elements(f.entries)
  {
    FlushFits(v, v', f, level);
    FitKeeps(v, v', f, level);
    AddedEntries(v, v', f, level);
  }

  lemma FlushFits(v: Version, v': Version, f: File, level: nat)
    requires VersionOk(v) && FlushStep(v, v', f, level) && FileOk(f) && AllNewer(Elements(f.entries), VersionEntries(v))
    ensures Fits(v, f, level) && AddsFile(v, v', f, level)
  {
    NewerThanAll(v, f, 0);
    forall i | 0 <= i < level
      ensures LevelNewer(v[i], [f])
    {
      ClearMeansApart(v[i], f);
    }
    forall j | level < j < |v|
      ensures LevelNewer([f], v[j])
    {
      NewerThanAll(v, f, j);
    }
  }

  lemma AddedEntries(v: Version, v': Version, f: File, level: nat)
    requires AddsFile(v, v', f, level)
    ensures VersionEntries(v') == VersionEntries(v) + Elements(f.entries)
  {
    forall e | e in VersionEntries(v')
      ensures e in VersionEntries(v) + Elements(f.entries)
    {
      var i, g :| 0 <= i < |v'| && g in v'[i] && e in g.entries;
      if i == level && g == f {
        assert e in Elements(f.entries);
      } else {
        assert g in v[i];
      }
    }
    forall e | e in VersionEntries(v)
      ensures e in VersionEntries(v')
    {
      var i, g :| 0 <= i < |v| && g in v[i] && e in g.entries;
      assert g in v'[i];
    }
    assert f in v'[level];
  }

  // ----- compaction and trivial move

  /** InstallCompactionResults, and the move of a single file, which is a compaction whose output is its
      input: the inputs leave their levels and the outputs enter the next one. */
  ghost predicate CompactStep(v: Version, v': Version, level: nat, in0: Level, in1: Level, outs: Level) {
    && |v| == |v'| == NUM_LEVELS && GoodInputs(v, level, in0, in1)
    && (forall i :: 0 <= i < |v| && i != level && i != level + 1 ==> v'[i] == v[i])
    && Installs(v[level], FileSet(in0), {}, v'[level])
    && Installs(v[level + 1], FileSet(in1), FileSet(outs), v'[level + 1])
  }

  ghost predicate OutputsOf(in0: Level, in1: Level, outs: Level) {
    FilesOk(outs) && DisjointRun(outs) && FilesEntries(outs) <= FilesEntries(in0) + FilesEntries(in1)
  }

  /** No user key is split between a chosen file and a later, unchosen file of the same level. A
      picker can check this on file metadata. */
  ghost predicate SplitFree(fs: Level, chosen: set<File>) {
    forall i, j :: 0 <= i < j < |fs| && fs[i] in chosen && fs[j] !in chosen ==> fs[i].largest.user != fs[j].smallest.user
  }

  /** Every file left behind in the compacted level is newer than the outputs below it. */
  ghost predicate LeftBehindNewer(fs: Level, in0: Level, outs: Level) {
    forall g, o :: g in fs && g !in in0 && o in outs ==> FileNewer(g, o)
  }

  ghost predicate AllBefore(es: set<Entry>, key: InternalKey) { forall e :: e in es ==> Precedes(e.key, key) }
  ghost predicate AllAfter(es: set<Entry>, key: InternalKey) { forall e :: e in es ==> Precedes(key, e.key) }

  lemma NeighbourAbove(fs: Level, f: File, g: File, e: Entry)
    requires FilesOk(fs) && DisjointRun(fs) && f in fs && g in fs && e in f.entries
    requires Rank(f.smallest.user) < Rank(g.smallest.user)
    ensures Precedes(e.key, g.smallest)
  {
    RunApart(fs);
    EntryInRange(g, g.entries[|g.entries| - 1]);
    assert Precedes(f.largest, g.smallest);
    EntryInRange(f, e);
    LastIsOldest(f, e);
  }

  lemma NeighbourBelow(fs: Level, f: File, g: File, e: Entry)
    requires FilesOk(fs) && DisjointRun(fs) && f in fs && g in fs && e in f.entries
    requires Rank(g.largest.user) < Rank(f.largest.user)
    ensures Precedes(g.largest, e.key)
  {
    RunApart(fs);
    EntryInRange(g, g.entries[0]);
    assert Precedes(g.largest, f.smallest);
    EntryInRange(f, e);
    FirstIsNewest(f, e);
  }

  lemma AboveHull(v: Version, level: nat, in0: Level, in1: Level, g: File, f: File, e: Entry)
    requires Shaped(v) && GoodInputs(v, level, in0, in1) && g in v[level + 1]
    requires forall f :: f in in0 ==> Compare(f.largest.user, g.smallest.user) < 0
    requires e in f.entries && (f in in0 || f in in1)
    ensures Precedes(e.key, g.smallest)
  {
    if f in in0 {
      EntryInRange(f, e);
      assert Before(e.key, g.smallest);
    } else {
      assert MeetsHull(f, in0);
      NeighbourAbove(v[level + 1], f, g, e);
    }
  }

  lemma BelowHull(v: Version, level: nat, in0: Level, in1: Level, g: File, f: File, e: Entry)
    requires Shaped(v) && GoodInputs(v, level, in0, in1) && g in v[level + 1]
    requires forall f :: f in in0 ==> Compare(g.largest.user, f.smallest.user) < 0
    requires e in f.entries && (f in in0 || f in in1)
    ensures Precedes(g.largest, e.key)
  {
    if f in in0 {
      EntryInRange(f, e);
      assert Before(g.largest, e.key);
    } else {
      assert MeetsHull(f, in0);
      NeighbourBelow(v[level + 1], f, g, e);
    }
  }

  /** No output can overlap a file that stays in the next level: such a file lies wholly on one side
      of everything the compaction reads. */
  lemma RemainingOnOneSide(v: Version, level: nat, in0: Level, in1: Level, g: File)
    requires Shaped(v) && GoodInputs(v, level, in0, in1) && g in v[level + 1] && g !in in1
    ensures AllBefore(FilesEntries(in0) + FilesEntries(in1), g.smallest)
         || AllAfter(FilesEntries(in0) + FilesEntries(in1), g.largest)
  {
    assert !MeetsHull(g, in0);
    if forall f :: f in in0 ==> Compare(f.largest.user, g.smallest.user) < 0 {
      forall e | e in FilesEntries(in0) + FilesEntries(in1)
        ensures Precedes(e.key, g.smallest)
      {
        var f :| (f in in0 || f in in1) && e in f.entries;
        AboveHull(v, level, in0, in1, g, f, e);
      }
    } else {
      assert forall f :: f in in0 ==> Compare(g.largest.user, f.smallest.user) < 0;
      forall e | e in FilesEntries(in0) + FilesEntries(in1)
        ensures Precedes(g.largest, e.key)
      {
        var f :| (f in in0 || f in in1) && e in f.entries;
        BelowHull(v, level, in0, in1, g, f, e);
      }
    }
  }

  lemma OutputApart(v: Version, level: nat, in0: Level, in1: Level, outs: Level, g: File, o: File)
    requires Shaped(v) && GoodInputs(v, level, in0, in1) && OutputsOf(in0, in1, outs)
    requires g in v[level + 1] && g !in in1 && o in outs
    ensures Apart(o, g)
  {
    RemainingOnOneSide(v, level, in0, in1, g);
    EndsAmongEntries(outs, o);
  }

  lemma EndsAmongEntries(fs: Level, o: File)
    requires FilesOk(fs) && o in fs
    ensures FileOk(o) && o.entries[0] in FilesEntries(fs) && o.entries[|o.entries| - 1] in FilesEntries(fs)
  {
    var i :| 0 <= i < |fs| && fs[i] == o;
    assert FileOk(fs[i]);
    assert o.entries[0] in o.entries && o.entries[|o.entries| - 1] in o.entries;
  }

  /** Sorted, disjoint levels need nothing but good inputs. */
  lemma CompactShaped(v: Version, v': Version, level: nat, in0: Level, in1: Level, outs: Level)
    requires Shaped(v) && SortedBySmallest(v[0]) && CompactStep(v, v', level, in0, in1, outs) && OutputsOf(in0, in1, outs)
    ensures Shaped(v') && SortedBySmallest(v'[0])
  {
    ZeroNumbers(v[0]);
    MembersOk(v'[level]);
    MembersOk(v'[level + 1]);
    if level == 0 {
      assert NumbersOrder(v'[0]);
    } else {
      RunApart(v[level]);
      assert AllApart(v'[level]);
      SortedApart(v'[level]);
    }
    NumbersZero(v'[0]);
    CompactNextLevel(v, v', level, in0, in1, outs);
  }

  lemma CompactNextLevel(v: Version, v': Version, level: nat, in0: Level, in1: Level, outs: Level)
    requires Shaped(v) && CompactStep(v, v', level, in0, in1, outs) && OutputsOf(in0, in1, outs)
    ensures FilesOk(v'[level + 1]) && DisjointRun(v'[level + 1])
  {
    var fs := v'[level + 1];
    MembersOk(fs);
    RunApart(v[level + 1]);
    RunApart(outs);
    forall f, g | f in fs && g in fs && f != g
      ensures Apart(f, g)
    {
      if f in outs && g !in outs {
        OutputApart(v, level, in0, in1, outs, g, f);
      } else if g in outs && f !in outs {
        OutputApart(v, level, in0, in1, outs, f, g);
      }
    }
    SortedApart(fs);
  }

  lemma CompactEntries(v: Version, v': Version, level: nat, in0: Level, in1: Level, outs: Level)
    requires CompactStep(v, v', level, in0, in1, outs)
    ensures VersionEntries(v') == OutsideEntries(v, level, in0, in1) + FilesEntries(outs)
    ensures VersionEntries(v) == OutsideEntries(v, level, in0, in1) + FilesEntries(in0) + FilesEntries(in1)
  {
    forall e | e in VersionEntries(v')
      ensures e in OutsideEntries(v, level, in0, in1) + FilesEntries(outs)
    {
      var i, f :| 0 <= i < |v'| && f in v'[i] && e in f.entries;
      if !(i == level + 1 && f in outs) {
        assert Stays(v, level, in0, in1, i, f);
      }
    }
    forall e | e in OutsideEntries(v, level, in0, in1) + FilesEntries(outs)
      ensures e in VersionEntries(v')
    {
      if e in FilesEntries(outs) {
        var f :| f in outs && e in f.entries;
        assert f in v'[level + 1];
      } else {
        var i, f :| 0 <= i < |v| && f in v[i] && e in f.entries && Stays(v, level, in0, in1, i, f);
        assert f in v'[i];
      }
    }
    forall e | e in VersionEntries(v)
      ensures e in OutsideEntries(v, level, in0, in1) + FilesEntries(in0) + FilesEntries(in1)
    {
      var i, f :| 0 <= i < |v| && f in v[i] && e in f.entries;
      assert Stays(v, level, in0, in1, i, f) || (i == level && f in in0) || (i == level + 1 && f in in1);
    }
    forall e | e in FilesEntries(in0) + FilesEntries(in1)
      ensures e in VersionEntries(v)
    {
      if e in FilesEntries(in0) {
        var f :| f in in0 && e in f.entries;
        assert f in v[level];
      } else {
        var f :| f in in1 && e in f.entries;
        assert f in v[level + 1];
      }
    }
  }

  /** File f of level i is not an input. */
  ghost predicate Stays(v: Version, level: nat, in0: Level, in1: Level, i: nat, f: File) {
    i < |v| && f in v[i] && !(i == level && f in in0) && !(i == level + 1 && f in in1)
  }

  /** Entries of the files that are not inputs. */
  ghost function OutsideEntries(v: Version, level: nat, in0: Level, in1: Level): set<Entry> {
    set i, f, e | 0 <= i < |v| && f in v[i] && e in f.entries && Stays(v, level, in0, in1, i, f) :: e
  }

  lemma OutputsInherit(in0: Level, in1: Level, outs: Level, o: File, fs: Level)
    requires FilesEntries(outs) <= FilesEntries(in0) + FilesEntries(in1) && o in outs
    ensures LevelNewer(fs, in0) && LevelNewer(fs, in1) ==> forall g :: g in fs ==> FileNewer(g, o)
    ensures LevelNewer(in0, fs) && LevelNewer(in1, fs) ==> forall g :: g in fs ==> FileNewer(o, g)
  {
    forall d | d in o.entries
      ensures (exists f :: f in in0 && d in f.entries) || (exists f :: f in in1 && d in f.entries)
    {
      assert d in FilesEntries(outs);
    }
  }

  /** After a compaction shallower is newer again exactly when nothing left behind is older than an
      output. */
  lemma OutputsRecency(v: Version, v': Version, level: nat, in0: Level, in1: Level, outs: Level)
    requires VersionOk(v) && CompactStep(v, v', level, in0, in1, outs) && OutputsOf(in0, in1, outs)
    ensures ShallowerIsNewer(v') <==> LeftBehindNewer(v[level], in0, outs)
  {
    if LeftBehindNewer(v[level], in0, outs) {
      forall i, j, a, b | 0 <= i < j < |v'| && 0 <= a < |v'[i]| && 0 <= b < |v'[j]|
        ensures FileNewer(v'[i][a], v'[j][b])
      {
        assert v'[i][a] in v'[i] && v'[j][b] in v'[j];
        CompactPair(v, v', level, in0, in1, outs, i, j, v'[i][a], v'[j][b]);
      }
    }
    if ShallowerIsNewer(v') {
      LevelsNewer(v', level, level + 1);
      forall g, o | g in v[level] && g !in in0 && o in outs
        ensures FileNewer(g, o)
      {
        assert g in v'[level] && o in v'[level + 1];
      }
    }
  }

  lemma CompactPair(v: Version, v': Version, level: nat, in0: Level, in1: Level, outs: Level, i: nat, j: nat, f: File, g: File)
    requires VersionOk(v) && CompactStep(v, v', level, in0, in1, outs) && OutputsOf(in0, in1, outs)
    requires LeftBehindNewer(v[level], in0, outs)
    requires i < j < |v'| && f in v'[i] && g in v'[j]
    ensures FileNewer(f, g)
  {
    if i == level + 1 && f in outs {
      LevelsNewer(v, level, j);
      LevelsNewer(v, level + 1, j);
      OutputsInherit(in0, in1, outs, f, v[j]);
    } else if j == level + 1 && g in outs {
      if i < level {
        LevelsNewer(v, i, level);
        LevelsNewer(v, i, level + 1);
        OutputsInherit(in0, in1, outs, g, v[i]);
      }
    } else {
      LevelsNewer(v, i, j);
      assert f in v[i] && g in v[j];
    }
  }

  lemma SameLevelPair(fs: Level, chosen: set<File>, f: File, g: File, d: Entry, e: Entry)
    requires FilesOk(fs) && DisjointRun(fs) && SplitFree(fs, chosen)
    requires f in fs && f in chosen && g in fs && g !in chosen
    requires d in f.entries && e in g.entries && e.key.user == d.key.user
    ensures e.key.seqno > d.key.seqno
  {
    var i :| 0 <= i < |fs| && fs[i] == f;
    var j :| 0 <= j < |fs| && fs[j] == g;
    EntryInRange(f, d);
    EntryInRange(g, e);
    if j < i {
      BoundaryNewer(fs, j, i, e, d);
    }
  }

  lemma ClosedPair(fs: Level, chosen: set<File>, f: File, g: File, d: Entry, e: Entry)
    requires FilesOk(fs) && OverlapClosed(fs, chosen)
    requires f in fs && f in chosen && g in fs && g !in chosen
    requires d in f.entries && e in g.entries
    ensures e.key.user != d.key.user
  {
    EntryInRange(f, d);
    EntryInRange(g, e);
    assert !Touches(f, g);
  }

  /** What a picker must check above level 0 for the inputs of a compaction to be safe. */
  ghost predicate KeyClosed(v: Version, level: nat, in0: Level, in1: Level)
    requires level + 1 < |v|
  {
    && (level > 0 ==> SplitFree(v[level], FileSet(in0)))
    && SplitFree(v[level + 1], FileSet(in1))
  }

  lemma LevelStaysNewer(v: Version, level: nat, in0: Level, in1: Level, g: File, d: Entry, e: Entry)
    requires VersionOk(v) && GoodInputs(v, level, in0, in1) && KeyClosed(v, level, in0, in1)
    requires g in v[level] && g !in in0 && e in g.entries && e.key.user == d.key.user
    requires d in FilesEntries(in0) + FilesEntries(in1)
    ensures e.key.seqno > d.key.seqno
  {
    if f :| f in in0 && d in f.entries {
      NewerThanChosen(v, level, in0, f, g, d, e);
    } else {
      var f :| f in in1 && d in f.entries;
      LevelsNewer(v, level, level + 1);
      assert FileNewer(g, f);
    }
  }

  lemma NewerThanChosen(v: Version, level: nat, in0: Level, f: File, g: File, d: Entry, e: Entry)
    requires VersionOk(v) && level < |v| && f in in0 && f in v[level] && g in v[level] && g !in in0
    requires if level == 0 then OverlapClosed(v[0], FileSet(in0)) else SplitFree(v[level], FileSet(in0))
    requires d in f.entries && e in g.entries && e.key.user == d.key.user
    ensures e.key.seqno > d.key.seqno
  {
    if level == 0 {
      ClosedPair(v[0], FileSet(in0), f, g, d, e);
    } else {
      SameLevelPair(v[level], FileSet(in0), f, g, d, e);
    }
  }

  lemma SharedKeyMeets(in0: Level, f: File, g: File, d: Entry, e: Entry)
    requires FileOk(f) && FileOk(g) && f in in0
    requires d in f.entries && e in g.entries && e.key.user == d.key.user
    ensures MeetsHull(g, in0)
  {
    EntryInRange(f, d);
    EntryInRange(g, e);
    assert Compare(f.smallest.user, g.largest.user) <= 0 && Compare(g.smallest.user, f.largest.user) <= 0;
  }

  lemma NextLevelStaysNewer(v: Version, level: nat, in0: Level, in1: Level, g: File, d: Entry, e: Entry)
    requires VersionOk(v) && GoodInputs(v, level, in0, in1) && KeyClosed(v, level, in0, in1)
    requires g in v[level + 1] && g !in in1 && e in g.entries && e.key.user == d.key.user
    requires d in FilesEntries(in0) + FilesEntries(in1)
    ensures e.key.seqno > d.key.seqno
  {
    if f :| f in in0 && d in f.entries {
      SharedKeyMeets(in0, f, g, d, e);
    } else {
      var f :| f in in1 && d in f.entries;
      SameLevelPair(v[level + 1], FileSet(in1), f, g, d, e);
    }
  }

  lemma ShallowerStaysNewer(v: Version, level: nat, in0: Level, in1: Level, i: nat, g: File, d: Entry, e: Entry)
    requires VersionOk(v) && GoodInputs(v, level, in0, in1)
    requires i < level && g in v[i] && e in g.entries && e.key.user == d.key.user
    requires d in FilesEntries(in0) + FilesEntries(in1)
    ensures e.key.seqno > d.key.seqno
  {
    if f :| f in in0 && d in f.entries {
      LevelsNewer(v, i, level);
      assert FileNewer(g, f);
    } else {
      var f :| f in in1 && d in f.entries;
      LevelsNewer(v, i, level + 1);
      assert FileNewer(g, f);
    }
  }

  lemma BaseHasNoDeeper(v: Version, level: nat, i: nat, g: File, e: Entry)
    requires Shaped(v) && IsBase(v, level, e.key.user) && i < |v| && g in v[i] && e in g.entries
    ensures i < level + 2
  {
    EntryInRange(g, e);
    assert KeyInFile(g, e.key.user);
  }

  lemma OutsideWitness(v: Version, level: nat, in0: Level, in1: Level, e: Entry) returns (i: nat, g: File)
    requires e in OutsideEntries(v, level, in0, in1)
    ensures i < |v| && g in v[i] && e in g.entries && Stays(v, level, in0, in1, i, g)
  {
    i, g :| 0 <= i < |v| && g in v[i] && e in g.entries && Stays(v, level, in0, in1, i, g);
  }

  /** A dropped deletion marker hides nothing outside the inputs. */
  lemma OutsideNewer(v: Version, level: nat, in0: Level, in1: Level, d: Entry, e: Entry)
    requires VersionOk(v) && GoodInputs(v, level, in0, in1) && KeyClosed(v, level, in0, in1)
    requires d in FilesEntries(in0) + FilesEntries(in1) && IsBase(v, level, d.key.user)
    requires e in OutsideEntries(v, level, in0, in1) && e.key.user == d.key.user
    ensures e.key.seqno > d.key.seqno
  {
    var i, g := OutsideWitness(v, level, in0, in1, e);
    BaseHasNoDeeper(v, level, i, g, e);
    StayingNewer(v, level, in0, in1, i, g, d, e);
  }

  lemma StayingNewer(v: Version, level: nat, in0: Level, in1: Level, i: nat, g: File, d: Entry, e: Entry)
    requires VersionOk(v) && GoodInputs(v, level, in0, in1) && KeyClosed(v, level, in0, in1)
    requires d in FilesEntries(in0) + FilesEntries(in1) && i < level + 2 && Stays(v, level, in0, in1, i, g)
    requires e in g.entries && e.key.user == d.key.user
    ensures e.key.seqno > d.key.seqno
  {
    if i < level {
      ShallowerStaysNewer(v, level, in0, in1, i, g, d, e);
    } else if i == level {
      LevelStaysNewer(v, level, in0, in1, g, d, e);
    } else {
      NextLevelStaysNewer(v, level, in0, in1, g, d, e);
    }
  }

  /** A run of the compaction loop over the merged inputs. */
  ghost predicate Compacted(v: Version, level: nat, in0: Level, in1: Level, stream: seq<Entry>, smallest: SeqNum, outs: Level) {
    && SortedRun(stream) && Elements(stream) == FilesEntries(in0) + FilesEntries(in1)
    && Concat(outs) == Kept(stream, |stream|, v, level, smallest)
    && forall i :: 0 <= i < |outs| ==> Bounded(outs[i])
  }

  lemma CompactedOutputs(v: Version, level: nat, in0: Level, in1: Level, stream: seq<Entry>, smallest: SeqNum, outs: Level)
    requires Shaped(v) && GoodInputs(v, level, in0, in1) && Compacted(v, level, in0, in1, stream, smallest, outs)
    ensures AllWellFormed(stream) && OutputsOf(in0, in1, outs)
    ensures FilesEntries(outs) == Elements(Kept(stream, |stream|, v, level, smallest))
  {
    forall e | e in stream
      ensures e.key.WellFormed()
    {
      assert e in Elements(stream);
      if f :| f in in0 && e in f.entries {
        assert FileOk(f);
      } else {
        var f :| f in in1 && e in f.entries;
        assert FileOk(f);
      }
    }
    var kept := Kept(stream, |stream|, v, level, smallest);
    forall e | e in kept
      ensures e in stream
    {
      KeptIs(stream, |stream|, v, level, smallest, e);
    }
    KeptSorted(stream, |stream|, v, level, smallest);
    CutSorted(outs);
  }

  // ----- exactly when a compaction keeps recency

  /** The newest input entry of its user key: the first one the merged stream shows. */
  ghost predicate FirstOfKey(stream: seq<Entry>, i: nat)
    requires i < |stream|
  {
    forall j :: 0 <= j < i ==> stream[j].key.user != stream[i].key.user
  }

  /** A file left behind at the level holds an older entry of e's user key. */
  ghost predicate OlderLeftBehind(fs: Level, in0: Level, e: Entry) {
    exists g, d :: g in fs && g !in in0 && d in g.entries && d.key.user == e.key.user && d.key.seqno < e.key.seqno
  }

  /** Every user key split out of the inputs has a droppable marker as its newest input entry. The picker's files, the
      merged stream and the smallest snapshot decide it. */
  ghost predicate SplitsDropped(v: Version, level: nat, in0: Level, stream: seq<Entry>, smallest: SeqNum)
    requires level < |v|
  {
    forall i {:trigger FirstOfKey(stream, i)} :: 0 <= i < |stream| && FirstOfKey(stream, i) && OlderLeftBehind(v[level], in0, stream[i]) ==>
      Obsolete(stream[i], v, level, smallest)
  }

  lemma {:induction false} FirstExists(stream: seq<Entry>, j: nat) returns (i: nat)
    requires SortedRun(stream) && j < |stream|
    ensures i <= j && stream[i].key.user == stream[j].key.user && FirstOfKey(stream, i)
    ensures stream[i].key.seqno >= stream[j].key.seqno
  {
    if FirstOfKey(stream, j) {
      i := j;
    } else {
      var m :| 0 <= m < j && stream[m].key.user == stream[j].key.user;
      assert Precedes(stream[m].key, stream[j].key);
      i := FirstExists(stream, m);
    }
  }

  /** If the first entry of a key is dropped, so is every other. */
  lemma FirstDroppedAllDropped(stream: seq<Entry>, v: Version, level: nat, smallest: SeqNum, i: nat, j: nat)
    requires SortedRun(stream) && AllWellFormed(stream) && i <= j < |stream| && stream[i].key.user == stream[j].key.user
    requires Obsolete(stream[i], v, level, smallest)
    ensures Dropped(stream, j, v, level, smallest)
  {
    assert stream[j] in stream;
    if i < j {
      OlderAllHidden(stream, i, j, smallest);
    }
  }

  lemma FirstKept(stream: seq<Entry>, v: Version, level: nat, smallest: SeqNum, i: nat)
    requires i < |stream| && FirstOfKey(stream, i)
    ensures Obsolete(stream[i], v, level, smallest) || stream[i] in Elements(Kept(stream, |stream|, v, level, smallest))
  {
    assert Dropped(stream, i, v, level, smallest) ==> Obsolete(stream[i], v, level, smallest);
    KeptIs(stream, |stream|, v, level, smallest, stream[i]);
  }

  lemma KeptAreNewer(v: Version, level: nat, in0: Level, in1: Level, stream: seq<Entry>, smallest: SeqNum, g: File, d: Entry, x: Entry)
    requires VersionOk(v) && GoodInputs(v, level, in0, in1) && SortedRun(stream) && AllWellFormed(stream)
    requires Elements(stream) == FilesEntries(in0) + FilesEntries(in1) && SplitsDropped(v, level, in0, stream, smallest)
    requires g in v[level] && g !in in0 && d in g.entries && d.key.user == x.key.user
    requires x in Kept(stream, |stream|, v, level, smallest)
    ensures d.key.seqno > x.key.seqno
  {
    KeptIs(stream, |stream|, v, level, smallest, x);
    var j :| 0 <= j < |stream| && stream[j] == x && !Dropped(stream, j, v, level, smallest);
    var i := FirstExists(stream, j);
    if d.key.seqno < stream[i].key.seqno {
      assert OlderLeftBehind(v[level], in0, stream[i]);
      FirstDroppedAllDropped(stream, v, level, smallest, i, j);
    } else if d.key.seqno == x.key.seqno {
      assert x in Elements(stream);
      LeftBehindDiffers(v, level, in0, in1, g, d, x);
    }
  }

  /** An entry left behind at the level is no input entry. */
  lemma LeftBehindDiffers(v: Version, level: nat, in0: Level, in1: Level, g: File, d: Entry, x: Entry)
    requires VersionOk(v) && GoodInputs(v, level, in0, in1) && g in v[level] && g !in in0 && d in g.entries
    requires x in FilesEntries(in0) + FilesEntries(in1) && d.key.user == x.key.user
    ensures d.key.seqno != x.key.seqno
  {
    if f :| f in in0 && x in f.entries {
      SameLevelDiffers(v, level, in0, in1, f, g, x, d);
    } else {
      var f :| f in in1 && x in f.entries;
      LevelsNewer(v, level, level + 1);
      assert FileNewer(g, f);
    }
  }

  lemma SameLevelDiffers(v: Version, level: nat, in0: Level, in1: Level, f: File, g: File, x: Entry, d: Entry)
    requires VersionOk(v) && GoodInputs(v, level, in0, in1) && f in in0 && g in v[level] && g !in in0
    requires x in f.entries && d in g.entries && d.key.user == x.key.user
    ensures d.key.seqno != x.key.seqno
  {
    if level == 0 {
      ClosedPair(v[0], FileSet(in0), f, g, x, d);
    } else {
      RunDiffers(v[level], f, g, x, d);
    }
  }

  lemma RunDiffers(fs: Level, f: File, g: File, x: Entry, d: Entry)
    requires FilesOk(fs) && DisjointRun(fs) && f in fs && g in fs && f != g
    requires x in f.entries && d in g.entries && d.key.user == x.key.user
    ensures d.key.seqno != x.key.seqno
  {
    var a :| 0 <= a < |fs| && fs[a] == g;
    var b :| 0 <= b < |fs| && fs[b] == f;
    if a < b {
      BoundaryNewer(fs, a, b, d, x);
    } else {
      BoundaryNewer(fs, b, a, x, d);
    }
  }

  lemma SplitsDroppedLeavesNewer(v: Version, level: nat, in0: Level, in1: Level, stream: seq<Entry>, smallest: SeqNum, outs: Level)
    requires VersionOk(v) && GoodInputs(v, level, in0, in1) && Compacted(v, level, in0, in1, stream, smallest, outs)
    ensures SplitsDropped(v, level, in0, stream, smallest) ==> LeftBehindNewer(v[level], in0, outs)
  {
    CompactedOutputs(v, level, in0, in1, stream, smallest, outs);
    if SplitsDropped(v, level, in0, stream, smallest) {
      forall g, o, d, x | g in v[level] && g !in in0 && o in outs && d in g.entries && x in o.entries && d.key.user == x.key.user
        ensures d.key.seqno > x.key.seqno
      {
        assert x in FilesEntries(outs);
        KeptAreNewer(v, level, in0, in1, stream, smallest, g, d, x);
      }
    }
  }

  lemma LeavesNewerSplitsDropped(v: Version, level: nat, in0: Level, in1: Level, stream: seq<Entry>, smallest: SeqNum, outs: Level)
    requires VersionOk(v) && GoodInputs(v, level, in0, in1) && Compacted(v, level, in0, in1, stream, smallest, outs)
    requires LeftBehindNewer(v[level], in0, outs)
    ensures SplitsDropped(v, level, in0, stream, smallest)
  {
    CompactedOutputs(v, level, in0, in1, stream, smallest, outs);
    forall i | 0 <= i < |stream| && FirstOfKey(stream, i) && OlderLeftBehind(v[level], in0, stream[i])
      ensures Obsolete(stream[i], v, level, smallest)
    {
      FirstKept(stream, v, level, smallest, i);
      NotInOutputs(v[level], in0, outs, stream[i]);
    }
  }

  lemma NotInOutputs(fs: Level, in0: Level, outs: Level, e: Entry)
    requires LeftBehindNewer(fs, in0, outs) && OlderLeftBehind(fs, in0, e)
    ensures e !in FilesEntries(outs)
  {
    var g, d :| g in fs && g !in in0 && d in g.entries && d.key.user == e.key.user && d.key.seqno < e.key.seqno;
    forall o | o in outs
      ensures e !in o.entries
    {
      assert FileNewer(g, o);
    }
  }

  /** Compaction keeps shallower-is-newer if and only if every user key split out of the inputs has a droppable marker as
      its newest input entry. */
  lemma CompactRecency(v: Version, v': Version, level: nat, in0: Level, in1: Level, stream: seq<Entry>, smallest: SeqNum, outs: Level)
    requires VersionOk(v) && CompactStep(v, v', level, in0, in1, outs) && Compacted(v, level, in0, in1, stream, smallest, outs)
    ensures ShallowerIsNewer(v') <==> SplitsDropped(v, level, in0, stream, smallest)
  {
    CompactedOutputs(v, level, in0, in1, stream, smallest, outs);
    OutputsRecency(v, v', level, in0, in1, outs);
    SplitsDroppedLeavesNewer(v, level, in0, in1, stream, smallest, outs);
    if LeftBehindNewer(v[level], in0, outs) {
      LeavesNewerSplitsDropped(v, level, in0, in1, stream, smallest, outs);
    }
  }

  /** A compaction keeps the version invariant if and only if it keeps recency. */
  lemma CompactionKeepsInvariant(v: Version, v': Version, level: nat, in0: Level, in1: Level, stream: seq<Entry>,
                                 smallest: SeqNum, outs: Level)
    requires VersionOk(v) && SortedBySmallest(v[0]) && CompactStep(v, v', level, in0, in1, outs)
    requires Compacted(v, level, in0, in1, stream, smallest, outs)
    ensures Shaped(v') && SortedBySmallest(v'[0]) && VersionEntries(v') <= VersionEntries(v)
    ensures VersionOk(v') <==> SplitsDropped(v, level, in0, stream, smallest)
  {
    CompactedOutputs(v, level, in0, in1, stream, smallest, outs);
    CompactShaped(v, v', level, in0, in1, outs);
    CompactRecency(v, v', level, in0, in1, stream, smallest, outs);
    CompactEntries(v, v', level, in0, in1, outs);
  }

  // ----- exactly when a compaction keeps meaning

  lemma Regroup(m: set<Entry>, o: set<Entry>, a: set<Entry>, b: set<Entry>)
    ensures (a + b) + (m + o) == m + (o + a + b)
    ensures b == {} ==> a + (m + o) == m + (o + a)
  {
  }

  /** No dropped marker of key k hides a value outside the inputs. */
  ghost predicate HidesNothing(v: Version, level: nat, in0: Level, in1: Level, stream: seq<Entry>, smallest: SeqNum, mems: set<Entry>, k: UserKey) {
    NoneResurrects(stream, mems + OutsideEntries(v, level, in0, in1), v, level, smallest, k)
  }

  /** The main theorem about compaction: over the whole database, memtables included, no snapshot at or above `smallest`
      can tell for key k that it happened, if and only if no dropped marker of k hides a value outside the inputs. */
  lemma CompactionKeepsMeaning(v: Version, v': Version, level: nat, in0: Level, in1: Level, stream: seq<Entry>,
                               smallest: SeqNum, outs: Level, mems: set<Entry>, k: UserKey)
    requires VersionOk(v) && CompactStep(v, v', level, in0, in1, outs) && Compacted(v, level, in0, in1, stream, smallest, outs)
    requires Unique(mems) && AllNewer(mems, VersionEntries(v))
    ensures (forall s: SeqNum :: smallest <= s ==> Lookup(mems + VersionEntries(v'), k, s) == Lookup(mems + VersionEntries(v), k, s))
            <==> HidesNothing(v, level, in0, in1, stream, smallest, mems, k)
  {
    var others := mems + OutsideEntries(v, level, in0, in1);
    CompactEntries(v, v', level, in0, in1, outs);
    Regroup(mems, OutsideEntries(v, level, in0, in1), FilesEntries(in0), FilesEntries(in1));
    Regroup(mems, OutsideEntries(v, level, in0, in1), FilesEntries(outs), {});
    CompactedOutputs(v, level, in0, in1, stream, smallest, outs);
    EntriesUnique(v, 0);
    LayeredRead(mems, VersionEntries(v), k, 0);
    DroppingKeepsMeaning(stream, others, v, level, smallest, k);
  }

  // ----- key-closed inputs do no harm

  /** What a picker could check on file metadata alone: no user key leaves the chosen files. */
  lemma ClosedInputsAreSafe(v: Version, level: nat, in0: Level, in1: Level, stream: seq<Entry>, smallest: SeqNum, mems: set<Entry>)
    requires VersionOk(v) && GoodInputs(v, level, in0, in1) && KeyClosed(v, level, in0, in1)
    requires SortedRun(stream) && Elements(stream) == FilesEntries(in0) + FilesEntries(in1) && AllNewer(mems, VersionEntries(v))
    ensures SplitsDropped(v, level, in0, stream, smallest)
    ensures forall k :: HidesNothing(v, level, in0, in1, stream, smallest, mems, k)
  {
    forall i | 0 <= i < |stream|
      ensures !OlderLeftBehind(v[level], in0, stream[i])
      ensures !Resurrects(stream, mems + OutsideEntries(v, level, in0, in1), v, level, smallest, i)
    {
      assert stream[i] in Elements(stream);
      ClosedLeavesNothingOlder(v, level, in0, in1, stream[i]);
      ClosedHidesNothing(v, level, in0, in1, stream, smallest, mems, i);
    }
  }

  lemma ClosedLeavesNothingOlder(v: Version, level: nat, in0: Level, in1: Level, e: Entry)
    requires VersionOk(v) && GoodInputs(v, level, in0, in1) && KeyClosed(v, level, in0, in1)
    requires e in FilesEntries(in0) + FilesEntries(in1)
    ensures !OlderLeftBehind(v[level], in0, e)
  {
    forall g, d | g in v[level] && g !in in0 && d in g.entries && d.key.user == e.key.user
      ensures d.key.seqno > e.key.seqno
    {
      LevelStaysNewer(v, level, in0, in1, g, e, d);
    }
  }

  lemma ClosedHidesNothing(v: Version, level: nat, in0: Level, in1: Level, stream: seq<Entry>, smallest: SeqNum, mems: set<Entry>, i: nat)
    requires VersionOk(v) && GoodInputs(v, level, in0, in1) && KeyClosed(v, level, in0, in1) && i < |stream|
    requires Elements(stream) == FilesEntries(in0) + FilesEntries(in1) && AllNewer(mems, VersionEntries(v))
    ensures !Resurrects(stream, mems + OutsideEntries(v, level, in0, in1), v, level, smallest, i)
  {
    var e, others := stream[i], mems + OutsideEntries(v, level, in0, in1);
    assert e in Elements(stream);
    if Obsolete(e, v, level, smallest) {
      InputInVersion(v, level, in0, in1, e);
      forall o | o in others
        ensures !Visible(o, e.key.user, e.key.seqno)
      {
        if o !in mems && o.key.user == e.key.user {
          OutsideNewer(v, level, in0, in1, e, o);
        }
      }
      assert NoneAt(others, e.key.user, e.key.seqno);
    }
  }

  lemma InputInVersion(v: Version, level: nat, in0: Level, in1: Level, e: Entry)
    requires GoodInputs(v, level, in0, in1) && e in FilesEntries(in0) + FilesEntries(in1)
    ensures e in VersionEntries(v)
  {
    if f :| f in in0 && e in f.entries {
      assert f in v[level];
    } else {
      var f :| f in in1 && e in f.entries;
      assert f in v[level + 1];
    }
  }

  // ----- where the invariant needs key-closed inputs

  lemma UnsplitFileIsOlder(fs: Level, f: File)
    requires FilesOk(fs) && DisjointRun(fs) && f in fs
    ensures SplitFree(fs, {f}) ==> LeftBehindNewer(fs, [f], [f])
  {
    if SplitFree(fs, {f}) {
      forall g, e, d | g in fs && g != f && e in g.entries && d in f.entries && e.key.user == d.key.user
        ensures e.key.seqno > d.key.seqno
      {
        SameLevelPair(fs, {f}, f, g, d, e);
      }
    }
  }

  lemma SplitFileIsNewer(fs: Level, f: File)
    requires FilesOk(fs) && DisjointRun(fs) && LeftBehindNewer(fs, [f], [f])
    ensures SplitFree(fs, {f})
  {
    forall i, j | 0 <= i < j < |fs| && fs[i] == f && fs[j] != f
      ensures f.largest.user != fs[j].smallest.user
    {
      assert fs[j] in fs && FileNewer(fs[j], f);
      EndsDiffer(f, fs[j]);
    }
  }

  lemma EndsDiffer(f: File, g: File)
    requires FileOk(f) && FileOk(g) && FileNewer(g, f) && Precedes(f.largest, g.smallest)
    ensures f.largest.user != g.smallest.user
  {
    assert g.entries[0] in g.entries && f.entries[|f.entries| - 1] in f.entries;
  }

  /** Moving one file down keeps shallower-is-newer exactly when its last user key does not continue
      in the next file of its level; from level 0, where the choice is overlap-closed, always. */
  lemma MoveRecency(v: Version, v': Version, level: nat, f: File)
    requires VersionOk(v) && CompactStep(v, v', level, [f], [], [f])
    ensures ShallowerIsNewer(v') <==> level == 0 || SplitFree(v[level], {f})
  {
    assert f in [f];
    assert f in v[level];
    OutputsRecency(v, v', level, [f], [], [f]);
    if level == 0 {
      ClosedFileIsAlone(v[0], f);
    } else {
      UnsplitFileIsOlder(v[level], f);
      if LeftBehindNewer(v[level], [f], [f]) {
        SplitFileIsNewer(v[level], f);
      }
    }
  }

  lemma ClosedFileIsAlone(fs: Level, f: File)
    requires FilesOk(fs) && f in fs && OverlapClosed(fs, FileSet([f]))
    ensures LeftBehindNewer(fs, [f], [f])
  {
    assert f in FileSet([f]);
    forall g, e, d | g in fs && g != f && e in g.entries && d in f.entries
      ensures e.key.user != d.key.user
    {
      ClosedPair(fs, FileSet([f]), f, g, d, e);
    }
  }

  /** A table holding the single entry e. */
  ghost function Single(number: nat, e: Entry): File { File(number, 1, e.key, e.key, [e]) }

  /** Two versions of one user key, the newer ending a level-1 file and the older starting the next. */
  ghost function SplitVersion(e: Entry, d: Entry): Version { [[], [Single(1, e), Single(2, d)], [], [], [], [], []] }
  ghost function MovedVersion(e: Entry, d: Entry): Version { [[], [Single(2, d)], [Single(1, e)], [], [], [], []] }

  lemma SplitVersionOk(e: Entry, d: Entry)
    requires e.key.WellFormed() && d.key.WellFormed() && Precedes(e.key, d.key)
    ensures VersionOk(SplitVersion(e, d))
  {
    var f, g := Single(1, e), Single(2, d);
    assert FileOk(f) && FileOk(g) && DisjointRun([f, g]);
    assert FilesOk([f, g]) && FilesOk([]) && DisjointRun([]);
    var v := SplitVersion(e, d);
    assert v[1] == [f, g] && forall i :: 0 <= i < |v| && i != 1 ==> v[i] == [];
  }

  lemma SplitVersionMoves(e: Entry, d: Entry)
    requires e.key.WellFormed() && d.key.WellFormed() && Precedes(e.key, d.key)
    ensures CompactStep(SplitVersion(e, d), MovedVersion(e, d), 1, [Single(1, e)], [], [Single(1, e)])
  {
    var v, v' := SplitVersion(e, d), MovedVersion(e, d);
    assert v[1] == [Single(1, e), Single(2, d)] && v'[1] == [Single(2, d)] && v'[2] == [Single(1, e)];
    assert GoodInputs(v, 1, [Single(1, e)], []);
  }

  /** Stale read: moving only the first of two files that split a user key, as the picker may above
      level 0, leaves the older version at level 1, where the read path meets it first. */
  lemma SplitKeyServesStale(k: UserKey, newer: Value, older: Value)
    ensures
      var e := Entry(InternalKey(k, 2, TYPE_VALUE), newer);
      var d := Entry(InternalKey(k, 1, TYPE_VALUE), older);
      var v, v' := SplitVersion(e, d), MovedVersion(e, d);
      && VersionOk(v) && CompactStep(v, v', 1, [Single(1, e)], [], [Single(1, e)])
      && NewestAt(VersionEntries(v'), k, 2, e)
      && NoneAt(FilesEntries(v'[0]), k, 2) && NewestAt(FilesEntries(v'[1]), k, 2, d)
  {
    var e := Entry(InternalKey(k, 2, TYPE_VALUE), newer);
    var d := Entry(InternalKey(k, 1, TYPE_VALUE), older);
    assert Precedes(e.key, d.key);
    SplitVersionOk(e, d);
    SplitVersionMoves(e, d);
    var v' := MovedVersion(e, d);
    assert v'[1] == [Single(2, d)] && v'[2] == [Single(1, e)];
    assert Single(2, d) in v'[1] && Single(1, e) in v'[2] && e in Single(1, e).entries && d in Single(2, d).entries;
  }

  // ----- a dropped marker brings a deleted key back

  ghost function ErasedVersion(d: Entry): Version { [[], [Single(2, d)], [], [], [], [], []] }

  lemma DroppedMarkerStep(t: Entry, d: Entry)
    requires t.key.WellFormed() && d.key.WellFormed() && Precedes(t.key, d.key)
    ensures CompactStep(SplitVersion(t, d), ErasedVersion(d), 1, [Single(1, t)], [], [])
  {
    var v, v' := SplitVersion(t, d), ErasedVersion(d);
    assert v[1] == [Single(1, t), Single(2, d)] && v'[1] == [Single(2, d)] && v'[2] == v[2] == [];
    assert GoodInputs(v, 1, [Single(1, t)], []);
  }

  /** Compacting, as a manual compaction may, the first of two level-1 files that split a key between its deletion marker
      and an older value: the marker is dropped at its base level, recency holds, and the deleted value is back. */
  lemma DroppedMarkerResurrects(k: UserKey, older: Value)
    ensures
      var t := Entry(InternalKey(k, 2, TYPE_DELETION), []);
      var d := Entry(InternalKey(k, 1, TYPE_VALUE), older);
      var v, v' := SplitVersion(t, d), ErasedVersion(d);
      && VersionOk(v) && CompactStep(v, v', 1, [Single(1, t)], [], []) && Compacted(v, 1, [Single(1, t)], [], [t], 2, [])
      && VersionOk(v')
      && Lookup(VersionEntries(v), k, 2) == None && Lookup(VersionEntries(v'), k, 2) == Some(older)
  {
    var t := Entry(InternalKey(k, 2, TYPE_DELETION), []);
    var d := Entry(InternalKey(k, 1, TYPE_VALUE), older);
    var v, v' := SplitVersion(t, d), ErasedVersion(d);
    assert Precedes(t.key, d.key);
    SplitVersionOk(t, d);
    DroppedMarkerStep(t, d);
    MarkerCompacts(t, d);
    ErasedVersionOk(d);
    SplitEntries(t, d);
    ErasedEntries(d);
    MarkerLookups(t, d);
  }

  lemma SplitEntries(t: Entry, d: Entry)
    ensures VersionEntries(SplitVersion(t, d)) == {t, d}
  {
    var v := SplitVersion(t, d);
    assert v[1] == [Single(1, t), Single(2, d)] && Single(1, t) in v[1] && Single(2, d) in v[1];
    assert t in Single(1, t).entries && d in Single(2, d).entries;
  }

  lemma ErasedEntries(d: Entry)
    ensures VersionEntries(ErasedVersion(d)) == {d}
  {
    var v := ErasedVersion(d);
    assert v[1] == [Single(2, d)] && Single(2, d) in v[1] && d in Single(2, d).entries;
  }

  lemma MarkerLookups(t: Entry, d: Entry)
    requires t.key == InternalKey(d.key.user, 2, TYPE_DELETION) && d.key == InternalKey(d.key.user, 1, TYPE_VALUE)
    ensures Lookup({t, d}, d.key.user, 2) == None && Lookup({d}, d.key.user, 2) == Some(d.value)
  {
    var k := d.key.user;
    assert NewestAt({t, d}, k, 2, t) && NewestAt({d}, k, 2, d);
    OutcomeIs({t, d}, k, 2, t);
    OutcomeIs({d}, k, 2, d);
  }

  lemma ErasedVersionOk(d: Entry)
    requires d.key.WellFormed()
    ensures VersionOk(ErasedVersion(d))
  {
    var v := ErasedVersion(d);
    assert FileOk(Single(2, d)) && FilesOk([Single(2, d)]) && FilesOk([]) && DisjointRun([]) && DisjointRun([Single(2, d)]);
    assert v[1] == [Single(2, d)] && forall i :: 0 <= i < |v| && i != 1 ==> v[i] == [];
  }

  lemma MarkerCompacts(t: Entry, d: Entry)
    requires t.key == InternalKey(t.key.user, 2, TYPE_DELETION)
    ensures Compacted(SplitVersion(t, d), 1, [Single(1, t)], [], [t], 2, [])
  {
    var v := SplitVersion(t, d);
    assert FilesEntries([Single(1, t)]) == {t} by {
      assert Single(1, t) in [Single(1, t)] && t in Single(1, t).entries;
    }
    assert IsBase(v, 1, t.key.user);
    assert Dropped([t], 0, v, 1, 2);
    assert Kept([t], 0, v, 1, 2) == [] && Kept([t], 1, v, 1, 2) == [];
  }
}

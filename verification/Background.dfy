/** The background thread's work, run with the code that chooses, merges, drops and installs: each round is a step of the
    engine's state machine. */
module Background {
  import opened Keys
  import opened Meaning
  import opened Versions
  import opened Inputs
  import opened Compaction
  import opened VersionSteps
  import opened VersionBuilder
  import Engine
  import DbView
  import Merger

  // ----- what an edit does to the levels

  lemma RunIsStrict(fs: Level)
    requires FilesOk(fs) && DisjointRun(fs)
    ensures SortedBySmallest(fs)
  {
    forall i, j | 0 <= i < j < |fs|
      ensures FileLess(fs[i], fs[j])
    {
      EntryInRange(fs[i], fs[i].entries[0]);
      EntryInRange(fs[i], fs[i].entries[|fs[i].entries| - 1]);
      assert Precedes(fs[i].largest, fs[j].smallest);
      FirstToLast(fs[i], fs[j].smallest);
    }
  }

  lemma FirstToLast(f: File, k: InternalKey)
    requires FileOk(f) && Precedes(f.largest, k)
    ensures InternalCompare(f.smallest, k) < 0
  {
    var n := |f.entries|;
    assert n > 1 ==> Precedes(f.entries[0].key, f.entries[n - 1].key);
  }

  lemma LevelsAreStrict(st: Engine.State)
    requires Engine.Inv(st)
    ensures Strict(st.version) && Sortings(st.version)
  {
    forall l | 0 <= l < NUM_LEVELS
      ensures SortedBySmallest(st.version[l]) && WeaklySorted(st.version[l])
    {
      if l > 0 {
        RunIsStrict(st.version[l]);
      }
      StrictIsWeak(st.version[l]);
    }
  }

  /** An edit that does not mention a level leaves it alone. */
  lemma UntouchedLevel(fs: Level, e: FileEdit, l: nat, fs': Level)
    requires SortedBySmallest(fs) && OneEdit(fs, e, l, fs') && AddedAt(e.added, l) == [] && DeletedAt(e.deleted, l) == {}
    ensures fs' == fs
  {
    assert Files([]) == {} && Numbers({}) == {};
    assert DeletedAfter({}, e, l) == {};
    assert AddedAfter({}, e, l) == {};
    assert multiset(fs') == multiset(fs);
    SameListOnce(fs, fs');
  }

  lemma {:induction false} AddedAtLevel(fs: Level, level: nat, l: nat)
    ensures AddedAt(At(fs, level), l) == if l == level then fs else []
  {
    if fs != [] {
      var as_ := At(fs, level);
      AddedAtLevel(fs[..|fs| - 1], level, l);
      assert as_[..|as_| - 1] == At(fs[..|fs| - 1], level);
      assert fs == fs[..|fs| - 1] + [fs[|fs| - 1]];
    }
  }

  /** Files to add at a level, and files to delete there. */
  function At(fs: Level, level: nat): (r: seq<(nat, File)>)
    ensures |r| == |fs| && forall i :: 0 <= i < |fs| ==> r[i] == (level, fs[i])
  {
    seq(|fs|, i requires 0 <= i < |fs| => (level, fs[i]))
  }

  function Gone(fs: Level, level: nat): (r: seq<(nat, nat)>)
    ensures |r| == |fs| && forall i :: 0 <= i < |fs| ==> r[i] == (level, fs[i].number)
  {
    seq(|fs|, i requires 0 <= i < |fs| => (level, fs[i].number))
  }

  lemma GoneAt(in0: Level, in1: Level, level: nat, l: nat)
    ensures DeletedAt(Gone(in0, level) + Gone(in1, level + 1), l)
         == if l == level then Numbers(Files(in0)) else if l == level + 1 then Numbers(Files(in1)) else {}
  {
    var ds := Gone(in0, level) + Gone(in1, level + 1);
    forall f | f in in0
      ensures (level, f.number) in ds
    {
      var i :| 0 <= i < |in0| && in0[i] == f;
      assert ds[i] == (level, f.number);
    }
    forall f | f in in1
      ensures (level + 1, f.number) in ds
    {
      var i :| 0 <= i < |in1| && in1[i] == f;
      assert ds[|in0| + i] == (level + 1, f.number);
    }
    forall d | d in ds
      ensures (d.0 == level && exists f :: f in in0 && f.number == d.1) || (d.0 == level + 1 && exists f :: f in in1 && f.number == d.1)
    {
      var i :| 0 <= i < |ds| && ds[i] == d;
      if i < |in0| {
        assert in0[i] in in0;
      } else {
        assert in1[i - |in0|] in in1;
      }
    }
  }

  /** New files with numbers of their own all enter. */
  lemma {:induction false} AllInserted(fs: Level)
    requires forall i, j :: 0 <= i < j < |fs| ==> fs[i].number != fs[j].number
    ensures InsertedAll({}, fs) == Files(fs)
    decreases |fs|
  {
    if fs != [] {
      var front, f := fs[..|fs| - 1], fs[|fs| - 1];
      AllInserted(front);
      assert fs == front + [f];
      forall g | g in Files(front)
        ensures !SameSlot(g, f)
      {
        var i :| 0 <= i < |front| && front[i] == g;
        assert fs[i] == g;
      }
    }
  }

  /** By number is by file. */
  lemma RemovedByNumber(v: Version, l: nat, fs: Level)
    requires Engine.OneHome(v) && l < |v| && forall f :: f in fs ==> f in v[l]
    ensures (set f | f in v[l] && f.number in Numbers(Files(fs))) == FileSet(fs)
  {
    forall f | f in v[l] && f.number in Numbers(Files(fs))
      ensures f in fs
    {
      var g :| g in Files(fs) && g.number == f.number;
      assert Engine.At(v, l, f) && Engine.At(v, l, g);
    }
    forall f | f in fs
      ensures f.number in Numbers(Files(fs))
    {
      assert f in Files(fs);
    }
  }

  lemma NewNumbersApart(v: Version, l: nat, outs: Level, n: nat, ds: set<nat>)
    requires Engine.NumbersBelow(v, n) && l < |v| && Outputs(outs, n) && forall d :: d in ds ==> d < n
    ensures Numbers(Files(outs)) !! Numbers(Files(v[l])) + ds
  {
    forall x | x in Numbers(Files(outs))
      ensures x >= n
    {
      var f :| f in Files(outs) && f.number == x;
      var i :| 0 <= i < |outs| && outs[i] == f;
    }
  }

  lemma EditLevels(in0: Level, in1: Level, outs: Level, level: nat)
    requires level + 1 < NUM_LEVELS
    ensures LevelsOk(CompactionEdit(level, in0, in1, outs))
  {
    var a, b := Gone(in0, level), Gone(in1, level + 1);
    var all: seq<(nat, nat)> := a + b;
    forall i | 0 <= i < |all|
      ensures all[i].0 < NUM_LEVELS
    {
      assert all[i] == if i < |a| then a[i] else b[i - |a|];
    }
  }

  lemma FlushLevels(f: File, level: nat)
    requires level < NUM_LEVELS
    ensures LevelsOk(FileEdit([], At([f], level)))
  {
  }

  // ----- flush

  /** CompactMemTable: build the table, pick its level, log and apply the edit. */
  method CompactMemTable(st: Engine.State, size: nat, maxGrandparentBytes: nat) returns (f: File, level: nat, st': Engine.State)
    requires Engine.Inv(st) && st.imm.Some? && st.imm.value != []
    ensures Engine.Next(st, Engine.Flush(f, level), st') && Engine.Inv(st')
  {
    var es := st.imm.value;
    f := File(st.nextFile, size, es[0].key, es[|es| - 1].key, es);
    level := PickLevelForMemTableOutput(st.version, f.smallest.user, f.largest.user, maxGrandparentBytes);
    LevelsAreStrict(st);
    var v' := InstallTable(st.version, f, level);
    st' := st.(imm := None, immLog := [], version := v', nextFile := st.nextFile + 1);
    FlushIsStep(st, f, level, v', st');
  }

  method InstallTable(v: Version, f: File, level: nat) returns (v': Version)
    requires Sortings(v) && level < NUM_LEVELS
    ensures Installed(v, FileEdit([], At([f], level)), v')
  {
    FlushLevels(f, level);
    v' := LogAndApply(v, FileEdit([], At([f], level)));
  }

  lemma FlushIsStep(st: Engine.State, f: File, level: nat, v': Version, st': Engine.State)
    requires Engine.Inv(st) && st.imm.Some? && st.imm.value != [] && level <= MAX_MEM_COMPACT_LEVEL
    requires f.number == st.nextFile && f.entries == st.imm.value && Bounded(f)
    requires level > 0 ==> ClearTo(st.version, level, f.smallest.user, f.largest.user)
    requires Installed(st.version, FileEdit([], At([f], level)), v')
    requires st' == st.(imm := None, immLog := [], version := v', nextFile := st.nextFile + 1)
    ensures Engine.Next(st, Engine.Flush(f, level), st') && Engine.Inv(st')
  {
    FlushInstalls(st, f, level, v');
    Engine.FlushInv(st, f, level, st');
  }

  lemma FlushInstalls(st: Engine.State, f: File, level: nat, v': Version)
    requires Engine.Inv(st) && f.number == st.nextFile && level <= MAX_MEM_COMPACT_LEVEL
    requires level > 0 ==> ClearTo(st.version, level, f.smallest.user, f.largest.user)
    requires Installed(st.version, FileEdit([], At([f], level)), v')
    ensures FlushStep(st.version, v', f, level)
  {
    var v, e := st.version, FileEdit([], At([f], level));
    LevelsAreStrict(st);
    forall i | 0 <= i < |v| && i != level
      ensures v'[i] == v[i]
    {
      assert OneEdit(v[i], e, i, v'[i]);
      NotFlushedTo(v[i], f, level, i, v'[i]);
    }
    assert OneEdit(v[level], e, level, v'[level]);
    NumberIsNew(v, level, f, st.nextFile);
    FlushedTo(v[level], f, level, v'[level]);
  }

  lemma NotFlushedTo(fs: Level, f: File, level: nat, l: nat, fs': Level)
    requires l != level && SortedBySmallest(fs) && OneEdit(fs, FileEdit([], At([f], level)), l, fs')
    ensures fs' == fs
  {
    AddedAtLevel([f], level, l);
    UntouchedLevel(fs, FileEdit([], At([f], level)), l, fs');
  }

  lemma FlushedTo(fs: Level, f: File, level: nat, fs': Level)
    requires SortedBySmallest(fs) && OneEdit(fs, FileEdit([], At([f], level)), level, fs')
    requires Numbers({f}) !! Numbers(Files(fs)) + DeletedAt([], level)
    ensures Installs(fs, {}, {f}, fs')
  {
    var e := FileEdit([], At([f], level));
    OneAdded(f, level);
    AfterInstalls(fs, e, level, fs');
    var removed := set g | g in fs && g.number in DeletedAt(e.deleted, level);
    assert removed == {};
  }

  lemma OneAdded(f: File, level: nat)
    ensures AddedAt(At([f], level), level) == [f] && Files([f]) == {f}
    ensures AddedAfter({}, FileEdit([], At([f], level)), level) == {f}
  {
    AddedAtLevel([f], level, level);
    InsertOne(f);
  }

  lemma {:induction false} InsertOne(f: File)
    ensures InsertedAll({}, [f]) == {f} && Files([f]) == {f}
  {
    InsertedMore({}, [], f);
    assert [] + [f] == [f];
  }

  lemma NumberIsNew(v: Version, level: nat, f: File, n: nat)
    requires Engine.NumbersBelow(v, n) && level < |v| && f.number == n
    ensures Numbers({f}) !! Numbers(Files(v[level])) + DeletedAt([], level)
  {
  }

  // ----- compaction

  function RunList(fs: Level): seq<seq<Entry>> { if fs == [] then [] else [DbView.RunOf(fs)] }

  /** MakeInputIterator: level-0 files each by themselves, the files of any other level one after the other. */
  function InputLists(level: nat, in0: Level, in1: Level): seq<seq<Entry>> {
    (if level == 0 then DbView.Blocks(in0) else RunList(in0)) + RunList(in1)
  }

  ghost predicate InputsOrdered(level: nat, in0: Level, in1: Level) {
    && FilesOk(in0) && FilesOk(in1) && DisjointRun(in1)
    && (if level == 0 then DistinctNumbers(in0) && NewerByNumber(in0) else DisjointRun(in0))
    && AllNewer(FilesEntries(in0), FilesEntries(in1))
  }

  lemma RunListIsFamily(fs: Level)
    requires FilesOk(fs) && DisjointRun(fs)
    ensures DbView.FamilyOf(RunList(fs), FilesEntries(fs))
  {
    assert DbView.FamilyOf([], {});
    assert RunList(fs) + [] == RunList(fs) && FilesEntries(fs) + {} == FilesEntries(fs);
    DbView.LevelJoins(fs, [], {}, RunList(fs), FilesEntries(fs));
  }

  lemma InputsAreFamily(level: nat, in0: Level, in1: Level)
    requires InputsOrdered(level, in0, in1)
    ensures DbView.FamilyOf(InputLists(level, in0, in1), FilesEntries(in0) + FilesEntries(in1))
  {
    RunListIsFamily(in1);
    if level == 0 {
      DbView.TablesAreFamily(in0);
      DbView.FamilyConcat(DbView.Blocks(in0), RunList(in1));
    } else {
      RunListIsFamily(in0);
      DbView.FamilyConcat(RunList(in0), RunList(in1));
    }
  }

  /** The input iterator, walked to its end. */
  method MergeInputs(v: Version, level: nat, in0: Level, in1: Level) returns (stream: seq<Entry>)
    requires VersionOk(v) && GoodInputs(v, level, in0, in1) && InputsOrdered(level, in0, in1)
    ensures SortedRun(stream) && Elements(stream) == FilesEntries(in0) + FilesEntries(in1)
  {
    var lists := InputLists(level, in0, in1);
    InputsAreFamily(level, in0, in1);
    DbView.FamilyOrdered(lists);
    ghost var m := Merger.MergeExists(lists);
    stream := DbView.Walk(lists, m);
    MergedInputs(v, level, in0, in1, lists, stream);
  }

  lemma MergedInputs(v: Version, level: nat, in0: Level, in1: Level, lists: seq<seq<Entry>>, m: seq<Entry>)
    requires VersionOk(v) && GoodInputs(v, level, in0, in1) && DbView.Family(lists) && Merger.IsMerge(lists, m)
    requires DbView.Entries(lists) == FilesEntries(in0) + FilesEntries(in1)
    ensures SortedRun(m) && Elements(m) == FilesEntries(in0) + FilesEntries(in1)
  {
    DbView.MergeElements(lists, m);
    forall e | e in m
      ensures e.key.WellFormed() && e in VersionEntries(v)
    {
      assert e in Elements(m);
      DbView.FamilyWellFormed(lists, e);
      InputInVersion(v, level, in0, in1, e);
    }
    EntriesUnique(v, 0);
    DbView.UniqueSorts(m);
  }

  /** What one round of compaction read and wrote. */
  datatype Round = Round(level: nat, in0: Level, in1: Level, stream: seq<Entry>, outs: Level)

  /** BackgroundCompaction around a picked file: inputs, merge, drop, install. */
  method CompactAround(st: Engine.State, level: nat, f: File, expandLimit: nat, stopBefore: nat -> bool, full: seq<Entry> -> bool,
                       sizeOf: seq<Entry> -> nat)
    returns (r: Round, st': Engine.State)
    requires Engine.Inv(st) && level + 1 < NUM_LEVELS && f in st.version[level]
    ensures Engine.Next(st, Engine.Compact(r.level, r.in0, r.in1, r.stream, r.outs), st') && r.level == level && f in r.in0
    ensures Gapless(r.in0 + r.in1)
    ensures KeyClosed(st.version, level, r.in0, r.in1) ==> Engine.Inv(st')
  {
    var in0, in1 := PickInputs(st, level, f, expandLimit);
    var stream, outs := RunCompaction(st, level, in0, in1, stopBefore, full, sizeOf);
    r := Round(level, in0, in1, stream, outs);
    LevelsAreStrict(st);
    var v' := InstallEdit(st.version, level, in0, in1, outs);
    st' := st.(version := v', nextFile := st.nextFile + |outs|, floor := Engine.SmallestSnapshot(st));
    RoundIsStep(st, level, in0, in1, stream, outs, v');
    ClosedRoundKeeps(st, level, in0, in1, stream, outs, st');
  }

  lemma ClosedRoundKeeps(st: Engine.State, level: nat, in0: Level, in1: Level, stream: seq<Entry>, outs: Level, st': Engine.State)
    requires Engine.Inv(st) && Engine.CompactionStep(st, level, in0, in1, stream, outs, st')
    ensures KeyClosed(st.version, level, in0, in1) ==> Engine.Inv(st')
  {
    if KeyClosed(st.version, level, in0, in1) {
      Engine.ClosedCompactionIsSafe(st, level, in0, in1, stream, outs, st');
    }
    Engine.CompactionInv(st, level, in0, in1, stream, outs, st');
  }

  /** The edit of InstallCompactionResults. */
  function CompactionEdit(level: nat, in0: Level, in1: Level, outs: Level): FileEdit {
    FileEdit(Gone(in0, level) + Gone(in1, level + 1), At(outs, level + 1))
  }

  method InstallEdit(v: Version, level: nat, in0: Level, in1: Level, outs: Level) returns (v': Version)
    requires Sortings(v) && level + 1 < NUM_LEVELS
    ensures Installed(v, CompactionEdit(level, in0, in1, outs), v')
  {
    EditLevels(in0, in1, outs, level);
    v' := LogAndApply(v, CompactionEdit(level, in0, in1, outs));
  }

  lemma RoundIsStep(st: Engine.State, level: nat, in0: Level, in1: Level, stream: seq<Entry>, outs: Level, v': Version)
    requires Engine.Inv(st) && GoodInputs(st.version, level, in0, in1) && Installed(st.version, CompactionEdit(level, in0, in1, outs), v')
    requires Compacted(st.version, level, in0, in1, stream, Engine.SmallestSnapshot(st), outs) && Outputs(outs, st.nextFile)
    ensures var st' := st.(version := v', nextFile := st.nextFile + |outs|, floor := Engine.SmallestSnapshot(st));
            Engine.Next(st, Engine.Compact(level, in0, in1, stream, outs), st')
  {
    CompactionInstalls(st, level, in0, in1, outs, v');
    StepTaken(st, level, in0, in1, stream, outs, v');
  }

  lemma StepTaken(st: Engine.State, level: nat, in0: Level, in1: Level, stream: seq<Entry>, outs: Level, v': Version)
    requires CompactStep(st.version, v', level, in0, in1, outs)
    requires Compacted(st.version, level, in0, in1, stream, Engine.SmallestSnapshot(st), outs) && Outputs(outs, st.nextFile)
    ensures var st' := st.(version := v', nextFile := st.nextFile + |outs|, floor := Engine.SmallestSnapshot(st));
            Engine.Next(st, Engine.Compact(level, in0, in1, stream, outs), st')
  {
  }

  /** DoCompactionWork over the merged inputs. */
  method RunCompaction(st: Engine.State, level: nat, in0: Level, in1: Level, stopBefore: nat -> bool, full: seq<Entry> -> bool,
                       sizeOf: seq<Entry> -> nat)
    returns (stream: seq<Entry>, outs: Level)
    requires Engine.Inv(st) && GoodInputs(st.version, level, in0, in1) && InputsOrdered(level, in0, in1)
    ensures Compacted(st.version, level, in0, in1, stream, Engine.SmallestSnapshot(st), outs) && Outputs(outs, st.nextFile)
  {
    Engine.OldestReader(st);
    stream := MergeInputs(st.version, level, in0, in1);
    var cursors := new Cursors(st.version, level);
    outs := DoCompactionWork(cursors, stream, Engine.SmallestSnapshot(st), st.nextFile, stopBefore, full, sizeOf);
  }

  /** PickCompaction from the picked file on. */
  method PickInputs(st: Engine.State, level: nat, f: File, expandLimit: nat) returns (in0: Level, in1: Level)
    requires Engine.Inv(st) && level + 1 < NUM_LEVELS && f in st.version[level]
    ensures GoodInputs(st.version, level, in0, in1) && InputsOrdered(level, in0, in1) && f in in0 && Gapless(in0 + in1)
  {
    var picked := PickAround(st.version, level, f);
    var grandparents, pointer;
    ghost var around;
    in0, in1, grandparents, pointer, around := SetupOtherInputs(st.version, level, picked, expandLimit);
    InputsInOrder(st, level, f, picked, in0, in1, around);
  }

  ghost predicate NoRepeats(fs: Level) { forall i, j :: 0 <= i < j < |fs| ==> fs[i] != fs[j] }

  lemma {:induction false} SublistDistinct(fs: Level, c: set<File>)
    requires NoRepeats(fs)
    ensures NoRepeats(Sublist(fs, c)) && forall f :: f in Sublist(fs, c) ==> f in fs
    decreases |fs|
  {
    if fs != [] {
      var front, f := fs[..|fs| - 1], fs[|fs| - 1];
      SublistDistinct(front, c);
      assert fs == front + [f];
      forall g | g in front
        ensures g != f
      {
        var i :| 0 <= i < |front| && front[i] == g;
        assert fs[i] == g;
      }
      OneMoreFile(Sublist(front, c), f);
    }
  }

  lemma OneMoreFile(fs: Level, f: File)
    requires NoRepeats(fs) && f !in fs
    ensures NoRepeats(fs + [f])
  {
  }

  lemma {:induction false} SublistRun(fs: Level, c: set<File>)
    requires DisjointRun(fs)
    ensures DisjointRun(Sublist(fs, c)) && forall f :: f in Sublist(fs, c) ==> f in fs
    decreases |fs|
  {
    if fs != [] {
      var front, f := fs[..|fs| - 1], fs[|fs| - 1];
      SublistRun(front, c);
      assert fs == front + [f];
      forall g | g in front
        ensures Precedes(g.largest, f.smallest)
      {
        var i :| 0 <= i < |front| && front[i] == g;
        assert fs[i] == g;
      }
      var r := Sublist(front, c);
      forall i | 0 <= i < |r|
        ensures Precedes(r[i].largest, f.smallest)
      {
        assert r[i] in r;
      }
    }
  }

  lemma StrictDistinct(fs: Level)
    requires SortedBySmallest(fs)
    ensures NoRepeats(fs)
  {
    forall i, j | 0 <= i < j < |fs|
      ensures fs[i] != fs[j]
    {
      assert FileLess(fs[i], fs[j]);
      LessIsTotal(fs[i], fs[j]);
    }
  }

  /** Some files of level 0, without repeats. */
  lemma SomeTables(v: Version, fs: Level)
    requires VersionOk(v) && NoRepeats(fs) && forall f :: f in fs ==> f in v[0]
    ensures DistinctNumbers(fs) && NewerByNumber(fs)
  {
    ZeroNumbers(v[0]);
    forall i, j | 0 <= i < |fs| && 0 <= j < |fs| && i != j
      ensures fs[i].number != fs[j].number && (fs[i].number > fs[j].number ==> FileNewer(fs[i], fs[j]))
    {
      assert fs[i] in fs && fs[j] in fs && fs[i] != fs[j];
    }
  }

  lemma LevelsApart(v: Version, level: nat, in0: Level, in1: Level)
    requires VersionOk(v) && level + 1 < |v| && (forall f :: f in in0 ==> f in v[level]) && (forall f :: f in in1 ==> f in v[level + 1])
    ensures FilesOk(in0) && FilesOk(in1) && AllNewer(FilesEntries(in0), FilesEntries(in1))
  {
    LevelsNewer(v, level, level + 1);
    forall i | 0 <= i < |in0|
      ensures FileOk(in0[i])
    {
      assert in0[i] in in0;
    }
    forall i | 0 <= i < |in1|
      ensures FileOk(in1[i])
    {
      assert in1[i] in in1;
    }
    forall e, d | e in FilesEntries(in0) && d in FilesEntries(in1) && e.key.user == d.key.user
      ensures e.key.seqno > d.key.seqno
    {
      var f :| f in in0 && e in f.entries;
      var g :| g in in1 && d in g.entries;
      assert FileNewer(f, g);
    }
  }

  lemma InputsInOrder(st: Engine.State, level: nat, f: File, picked: Level, in0: Level, in1: Level, around: Level)
    requires Engine.Inv(st) && level + 1 < NUM_LEVELS && GoodInputs(st.version, level, in0, in1)
    requires if level == 0 then picked == Sublist(st.version[0], FileSet(picked)) else picked == [f]
    requires in0 == picked || (in0 == around && AroundAt(st.version, level, picked + in1, around))
    requires in1 == Sublist(st.version[level + 1], FileSet(in1))
    ensures InputsOrdered(level, in0, in1)
  {
    var v := st.version;
    LevelsApart(v, level, in0, in1);
    SublistRun(v[level + 1], FileSet(in1));
    if level == 0 {
      LevelsAreStrict(st);
      StrictDistinct(v[0]);
      SublistDistinct(v[0], FileSet(in0));
      SomeTables(v, in0);
    } else {
      SublistRun(v[level], FileSet(in0));
    }
  }

  lemma CompactionInstalls(st: Engine.State, level: nat, in0: Level, in1: Level, outs: Level, v': Version)
    requires Engine.Inv(st) && GoodInputs(st.version, level, in0, in1) && Outputs(outs, st.nextFile)
    requires Installed(st.version, CompactionEdit(level, in0, in1, outs), v')
    ensures CompactStep(st.version, v', level, in0, in1, outs)
  {
    var v, e := st.version, CompactionEdit(level, in0, in1, outs);
    LevelsAreStrict(st);
    forall i | 0 <= i < |v| && i != level && i != level + 1
      ensures v'[i] == v[i]
    {
      AddedAtLevel(outs, level + 1, i);
      GoneAt(in0, in1, level, i);
      assert OneEdit(v[i], e, i, v'[i]);
      UntouchedLevel(v[i], e, i, v'[i]);
    }
    FirstLevelInstalls(st, level, in0, in1, outs, e, v');
    NextLevelInstalls(st, level, in0, in1, outs, e, v');
  }

  lemma FirstLevelInstalls(st: Engine.State, level: nat, in0: Level, in1: Level, outs: Level, e: FileEdit, v': Version)
    requires Engine.Inv(st) && GoodInputs(st.version, level, in0, in1) && Strict(st.version)
    requires e == CompactionEdit(level, in0, in1, outs) && Installed(st.version, e, v')
    ensures Installs(st.version[level], FileSet(in0), {}, v'[level])
  {
    assert OneEdit(st.version[level], e, level, v'[level]);
    RemovedByNumber(st.version, level, in0);
    OnlyRemoved(st.version[level], level, in0, in1, outs, e, v'[level]);
  }

  lemma OnlyRemoved(fs: Level, level: nat, in0: Level, in1: Level, outs: Level, e: FileEdit, fs': Level)
    requires SortedBySmallest(fs) && OneEdit(fs, e, level, fs') && e == CompactionEdit(level, in0, in1, outs)
    requires (set f | f in fs && f.number in Numbers(Files(in0))) == FileSet(in0)
    ensures Installs(fs, FileSet(in0), {}, fs')
  {
    AddedAtLevel(outs, level + 1, level);
    GoneAt(in0, in1, level, level);
    assert Files([]) == {} && Numbers({}) == {};
    AfterInstalls(fs, e, level, fs');
  }

  lemma NextLevelInstalls(st: Engine.State, level: nat, in0: Level, in1: Level, outs: Level, e: FileEdit, v': Version)
    requires Engine.Inv(st) && GoodInputs(st.version, level, in0, in1) && Strict(st.version) && Outputs(outs, st.nextFile)
    requires e == CompactionEdit(level, in0, in1, outs) && Installed(st.version, e, v')
    ensures Installs(st.version[level + 1], FileSet(in1), FileSet(outs), v'[level + 1])
  {
    var v, l := st.version, level + 1;
    assert OneEdit(v[l], e, l, v'[l]);
    AddedAtLevel(outs, l, l);
    GoneAt(in0, in1, level, l);
    AllInserted(outs);
    InputNumbers(v, l, in1, st.nextFile);
    NewNumbersApart(v, l, outs, st.nextFile, Numbers(Files(in1)));
    AfterInstalls(v[l], e, l, v'[l]);
    RemovedByNumber(v, l, in1);
    assert Files(outs) == FileSet(outs);
  }

  lemma InputNumbers(v: Version, l: nat, fs: Level, n: nat)
    requires Engine.NumbersBelow(v, n) && l < |v| && forall f :: f in fs ==> f in v[l]
    ensures forall d :: d in Numbers(Files(fs)) ==> d < n
  {
  }
}

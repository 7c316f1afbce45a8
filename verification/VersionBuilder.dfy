/** VersionSet::Builder: a batch of edits applied to a version at once. */
module VersionBuilder {
  import opened Keys
  import opened Meaning
  import opened Versions
  import opened VersionSteps

  // ----- edits, level by level

  datatype FileEdit = FileEdit(deleted: seq<(nat, nat)>, added: seq<(nat, File)>)

  ghost predicate LevelsOk(e: FileEdit) {
    && (forall i :: 0 <= i < |e.deleted| ==> e.deleted[i].0 < NUM_LEVELS)
    && (forall i :: 0 <= i < |e.added| ==> e.added[i].0 < NUM_LEVELS)
  }

  ghost function DeletedAt(ds: seq<(nat, nat)>, level: nat): set<nat> { set d | d in ds && d.0 == level :: d.1 }

  /** The files added at the level, in the order of the edit. */
  ghost function AddedAt(as_: seq<(nat, File)>, level: nat): Level {
    if as_ == [] then []
    else
      var front, a := AddedAt(as_[..|as_| - 1], level), as_[|as_| - 1];
      if a.0 == level then front + [a.1] else front
  }

  ghost function Files(fs: Level): set<File> { set f | f in fs }

  ghost function Numbers(fs: set<File>): set<nat> { set f | f in fs :: f.number }

  // ----- the ordered set of added files

  /** Equivalent under BySmallestKey: std::set keeps only the first of two such files. */
  ghost predicate SameSlot(f: File, g: File) { f.smallest == g.smallest && f.number == g.number }

  ghost predicate Taken(fs: set<File>, f: File) { exists g :: g in fs && SameSlot(g, f) }

  ghost function Inserted(fs: set<File>, f: File): set<File> { if Taken(fs, f) then fs else fs + {f} }

  ghost function InsertedAll(fs: set<File>, gs: Level): set<File> {
    if gs == [] then fs else Inserted(InsertedAll(fs, gs[..|gs| - 1]), gs[|gs| - 1])
  }

  ghost predicate SlotsDistinct(fs: set<File>) { forall f, g :: f in fs && g in fs && SameSlot(f, g) ==> f == g }

  /** Into an empty set: some of the files, one per slot, and every slot. */
  lemma {:induction false} InsertedFromEmpty(gs: Level)
    ensures InsertedAll({}, gs) <= Files(gs) && SlotsDistinct(InsertedAll({}, gs))
    ensures forall g :: g in gs ==> Taken(InsertedAll({}, gs), g)
    decreases |gs|
  {
    if gs != [] {
      var front, g := gs[..|gs| - 1], gs[|gs| - 1];
      InsertedFromEmpty(front);
      assert gs == front + [g];
      assert SameSlot(g, g);
      forall h | h in gs
        ensures Taken(InsertedAll({}, gs), h)
      {
        if h in front {
          var x :| x in InsertedAll({}, front) && SameSlot(x, h);
          assert x in InsertedAll({}, gs);
        } else if Taken(InsertedAll({}, front), g) {
          var x :| x in InsertedAll({}, front) && SameSlot(x, g);
        } else {
          assert g in InsertedAll({}, gs);
        }
      }
    }
  }

  /** Into any set: what is there stays, and of the rest those that find their slot free. */
  lemma {:induction false} InsertedSplit(fs: set<File>, gs: Level)
    ensures forall x :: x in InsertedAll(fs, gs) <==> x in fs || (x in InsertedAll({}, gs) && !Taken(fs, x))
    decreases |gs|
  {
    if gs != [] {
      var front, g := gs[..|gs| - 1], gs[|gs| - 1];
      InsertedSplit(fs, front);
      var all, new_ := InsertedAll(fs, front), InsertedAll({}, front);
      assert Taken(all, g) <==> Taken(fs, g) || Taken(new_, g) by {
        if Taken(all, g) {
          var x :| x in all && SameSlot(x, g);
          assert x in fs || x in new_;
        }
        if Taken(fs, g) {
          var x :| x in fs && SameSlot(x, g);
          assert x in all;
        } else if Taken(new_, g) {
          var x :| x in new_ && SameSlot(x, g);
          SlotmatesShare(fs, x, g);
          assert x in all;
        }
      }
    }
  }

  lemma SlotmatesShare(fs: set<File>, f: File, g: File)
    requires SameSlot(f, g)
    ensures Taken(fs, f) <==> Taken(fs, g)
  {
    if Taken(fs, f) {
      var x :| x in fs && SameSlot(x, f);
      assert SameSlot(x, g);
    }
    if Taken(fs, g) {
      var x :| x in fs && SameSlot(x, g);
      assert SameSlot(x, f);
    }
  }

  // ----- what a level holds

  /** How often the saved level lists x: the base files and the added ones, but for the deleted numbers. */
  ghost function Count(base: Level, added: set<File>, deleted: set<nat>, x: File): nat {
    if x.number in deleted then 0 else multiset(base)[x] + if x in added then 1 else 0
  }

  ghost predicate WeaklySorted(fs: Level) { forall i, j :: 0 <= i < j < |fs| ==> !FileLess(fs[j], fs[i]) }

  /** What SaveTo leaves at a level. */
  ghost predicate Saved(fs: Level, base: Level, added: set<File>, deleted: set<nat>) {
    WeaklySorted(fs) && forall x :: multiset(fs)[x] == Count(base, added, deleted, x)
  }

  /** A builder's LevelState after one more edit. */
  ghost function DeletedAfter(deleted: set<nat>, e: FileEdit, level: nat): set<nat> {
    deleted + DeletedAt(e.deleted, level) - Numbers(Files(AddedAt(e.added, level)))
  }

  ghost function AddedAfter(added: set<File>, e: FileEdit, level: nat): set<File> {
    InsertedAll(added, AddedAt(e.added, level))
  }

  /** LogAndApply: a builder of its own for one edit. */
  ghost predicate OneEdit(fs: Level, e: FileEdit, level: nat, fs': Level) {
    Saved(fs', fs, AddedAfter({}, e, level), DeletedAfter({}, e, level))
  }

  // ----- when one builder for many edits agrees with one builder per edit

  /** What the builder must not hold when it adds f, one of the files `adds`. If f's number is live, a file in f's slot;
      if it is deleted, a file of that number, except one that is among the added files itself. */
  ghost predicate AddsCleanly(base: Level, added: set<File>, deleted: set<nat>, adds: set<File>, f: File) {
    if f.number !in deleted then !Taken(added, f)
    else (forall g :: g in base ==> g.number != f.number) && forall g :: g in added && g.number == f.number ==> g in adds
  }

  ghost predicate Faithful(base: Level, added: set<File>, deleted: set<nat>, e: FileEdit, level: nat) {
    var adds := AddedAfter({}, e, level);
    forall f :: f in adds ==> AddsCleanly(base, added, deleted, adds, f)
  }

  /** Both counts of one file, from what the level holds of it. */
  lemma CountsAgree(base: Level, cur: Level, added: set<File>, deleted: set<nat>, e: FileEdit, level: nat, x: File)
    requires multiset(cur)[x] == Count(base, added, deleted, x)
    requires x.number !in Numbers(AddedAfter({}, e, level))
    ensures Count(cur, AddedAfter({}, e, level), DeletedAfter({}, e, level), x)
         == Count(base, AddedAfter(added, e, level), DeletedAfter(deleted, e, level), x)
  {
    var adds := AddedAfter({}, e, level);
    AddedNumbers(e, level);
    InsertedSplit(added, AddedAt(e.added, level));
    assert x !in adds;
  }

  lemma AddedNumbers(e: FileEdit, level: nat)
    ensures Numbers(AddedAfter({}, e, level)) == Numbers(Files(AddedAt(e.added, level)))
  {
    var gs := AddedAt(e.added, level);
    InsertedFromEmpty(gs);
    forall n | n in Numbers(Files(gs))
      ensures n in Numbers(InsertedAll({}, gs))
    {
      var g :| g in gs && g.number == n;
      var h :| h in InsertedAll({}, gs) && SameSlot(h, g);
      assert h.number == n;
    }
    SubsetNumbers(InsertedAll({}, gs), Files(gs));
  }

  lemma SubsetNumbers(fs: set<File>, gs: set<File>)
    requires fs <= gs
    ensures Numbers(fs) <= Numbers(gs)
  {
  }

  /** The counts of a file whose number the edit adds. */
  lemma AddedCounts(base: Level, cur: Level, added: set<File>, deleted: set<nat>, e: FileEdit, level: nat, x: File)
    requires multiset(cur)[x] == Count(base, added, deleted, x)
    requires x.number in Numbers(AddedAfter({}, e, level))
    ensures Count(cur, AddedAfter({}, e, level), DeletedAfter({}, e, level), x)
         == Count(base, added, deleted, x) + if x in AddedAfter({}, e, level) then 1 else 0
    ensures Count(base, AddedAfter(added, e, level), DeletedAfter(deleted, e, level), x)
         == multiset(base)[x] + if x in added || (x in AddedAfter({}, e, level) && !Taken(added, x)) then 1 else 0
  {
    AddedNumbers(e, level);
    InsertedSplit(added, AddedAt(e.added, level));
  }

  ghost predicate SameCounts(base: Level, cur: Level, added: set<File>, deleted: set<nat>, e: FileEdit, level: nat, x: File) {
    Count(cur, AddedAfter({}, e, level), DeletedAfter({}, e, level), x)
    == Count(base, AddedAfter(added, e, level), DeletedAfter(deleted, e, level), x)
  }

  lemma CleanIsSame(base: Level, cur: Level, added: set<File>, deleted: set<nat>, e: FileEdit, level: nat, x: File)
    requires multiset(cur)[x] == Count(base, added, deleted, x) && Faithful(base, added, deleted, e, level)
    ensures SameCounts(base, cur, added, deleted, e, level, x)
  {
    var adds := AddedAfter({}, e, level);
    if x.number in Numbers(adds) {
      AddedCounts(base, cur, added, deleted, e, level, x);
      var f :| f in adds && f.number == x.number;
      assert AddsCleanly(base, added, deleted, adds, f);
      if x in adds {
        assert AddsCleanly(base, added, deleted, adds, x);
        if x in added {
          assert SameSlot(x, x);
        } else if x.number in deleted && Taken(added, x) {
          var g :| g in added && SameSlot(g, x);
          InsertedFromEmpty(AddedAt(e.added, level));
        }
      }
      if x.number in deleted {
        assert x !in base;
      }
    } else {
      CountsAgree(base, cur, added, deleted, e, level, x);
    }
  }

  lemma SameIsClean(base: Level, cur: Level, added: set<File>, deleted: set<nat>, e: FileEdit, level: nat, f: File)
    requires forall x :: multiset(cur)[x] == Count(base, added, deleted, x)
    requires f in AddedAfter({}, e, level) && forall x :: SameCounts(base, cur, added, deleted, e, level, x)
    ensures AddsCleanly(base, added, deleted, AddedAfter({}, e, level), f)
  {
    var adds := AddedAfter({}, e, level);
    assert f.number in Numbers(adds);
    assert SameCounts(base, cur, added, deleted, e, level, f);
    AddedCounts(base, cur, added, deleted, e, level, f);
    if f.number in deleted {
      forall g | g in added && g.number == f.number
        ensures g in adds
      {
        assert SameCounts(base, cur, added, deleted, e, level, g);
        AddedCounts(base, cur, added, deleted, e, level, g);
      }
      forall g | g in base
        ensures g.number != f.number
      {
        if g.number == f.number {
          assert SameCounts(base, cur, added, deleted, e, level, g);
          AddedCounts(base, cur, added, deleted, e, level, g);
          BaseNeverClean(base, cur, added, deleted, e, level, g);
        }
      }
    }
  }

  /** A base file of a deleted number that the edit adds back always shows. */
  lemma BaseNeverClean(base: Level, cur: Level, added: set<File>, deleted: set<nat>, e: FileEdit, level: nat, g: File)
    requires forall x :: multiset(cur)[x] == Count(base, added, deleted, x)
    requires g in base && g.number in deleted && g.number in Numbers(AddedAfter({}, e, level))
    ensures exists x :: !SameCounts(base, cur, added, deleted, e, level, x)
  {
    var adds := AddedAfter({}, e, level);
    AddedCounts(base, cur, added, deleted, e, level, g);
    if SameCounts(base, cur, added, deleted, e, level, g) {
      assert g in adds && g !in added && Taken(added, g);
      var h :| h in added && SameSlot(h, g);
      InsertedFromEmpty(AddedAt(e.added, level));
      AddedCounts(base, cur, added, deleted, e, level, h);
      assert !SameCounts(base, cur, added, deleted, e, level, h);
    }
  }

  /** One more edit through the same builder agrees with one more version if and only if the edit adds cleanly. */
  lemma OneMore(base: Level, added: set<File>, deleted: set<nat>, e: FileEdit, level: nat, cur: Level, next: Level, replayed: Level)
    requires Saved(cur, base, added, deleted) && OneEdit(cur, e, level, next)
    requires Saved(replayed, base, AddedAfter(added, e, level), DeletedAfter(deleted, e, level))
    ensures multiset(replayed) == multiset(next) <==> Faithful(base, added, deleted, e, level)
  {
    if Faithful(base, added, deleted, e, level) {
      forall x
        ensures multiset(replayed)[x] == multiset(next)[x]
      {
        CleanIsSame(base, cur, added, deleted, e, level, x);
      }
    }
    if multiset(replayed) == multiset(next) {
      forall x
        ensures SameCounts(base, cur, added, deleted, e, level, x)
      {
        assert multiset(replayed)[x] == multiset(next)[x];
      }
      forall f | f in AddedAfter({}, e, level)
        ensures AddsCleanly(base, added, deleted, AddedAfter({}, e, level), f)
      {
        SameIsClean(base, cur, added, deleted, e, level, f);
      }
    }
  }

  // ----- whole histories

  ghost function DeletedBy(edits: seq<FileEdit>, level: nat, n: nat): set<nat>
    requires n <= |edits|
  {
    if n == 0 then {} else DeletedAfter(DeletedBy(edits, level, n - 1), edits[n - 1], level)
  }

  ghost function AddedBy(edits: seq<FileEdit>, level: nat, n: nat): set<File>
    requires n <= |edits|
  {
    if n == 0 then {} else AddedAfter(AddedBy(edits, level, n - 1), edits[n - 1], level)
  }

  /** One builder for the first n edits. */
  ghost predicate ReplayedTo(fs: Level, base: Level, edits: seq<FileEdit>, level: nat, n: nat)
    requires n <= |edits|
  {
    Saved(fs, base, AddedBy(edits, level, n), DeletedBy(edits, level, n))
  }

  /** One version per edit. */
  ghost predicate RanThrough(run: seq<Level>, edits: seq<FileEdit>, level: nat) {
    |run| == |edits| + 1 && WeaklySorted(run[0]) && forall k :: 0 <= k < |edits| ==> OneEdit(run[k], edits[k], level, run[k + 1])
  }

  ghost predicate FaithfulAt(base: Level, edits: seq<FileEdit>, level: nat, k: nat)
    requires k < |edits|
  {
    Faithful(base, AddedBy(edits, level, k), DeletedBy(edits, level, k), edits[k], level)
  }

  ghost predicate AllFaithful(base: Level, edits: seq<FileEdit>, level: nat, n: nat)
    requires n <= |edits|
  {
    forall k {:trigger FaithfulAt(base, edits, level, k)} :: 0 <= k < n ==> FaithfulAt(base, edits, level, k)
  }

  lemma SavedAgain(fs: Level, gs: Level, base: Level, added: set<File>, deleted: set<nat>)
    requires Saved(fs, base, added, deleted) && WeaklySorted(gs) && multiset(fs) == multiset(gs)
    ensures Saved(gs, base, added, deleted)
  {
  }

  ghost predicate Agree(run: seq<Level>, replays: seq<Level>, k: nat)
    requires k < |run| == |replays|
  {
    multiset(replays[k]) == multiset(run[k])
  }

  ghost predicate AgreeUpTo(run: seq<Level>, replays: seq<Level>, n: nat)
    requires n < |run| == |replays|
  {
    forall k {:trigger Agree(run, replays, k)} :: 0 <= k <= n ==> Agree(run, replays, k)
  }

  ghost predicate Replays(run: seq<Level>, replays: seq<Level>, edits: seq<FileEdit>, level: nat) {
    && |run| == |replays| == |edits| + 1
    && forall k {:trigger ReplayedTo(replays[k], run[0], edits, level, k)} :: 0 <= k <= |edits| ==>
         ReplayedTo(replays[k], run[0], edits, level, k)
  }

  lemma MatchStep(run: seq<Level>, replays: seq<Level>, edits: seq<FileEdit>, level: nat, k: nat)
    requires RanThrough(run, edits, level) && Replays(run, replays, edits, level) && k < |edits| && Agree(run, replays, k)
    ensures Agree(run, replays, k + 1) <==> FaithfulAt(run[0], edits, level, k)
  {
    assert ReplayedTo(replays[k], run[0], edits, level, k) && ReplayedTo(replays[k + 1], run[0], edits, level, k + 1);
    assert OneEdit(run[k], edits[k], level, run[k + 1]);
    RunSorted(run, edits, level, k);
    SavedAgain(replays[k], run[k], run[0], AddedBy(edits, level, k), DeletedBy(edits, level, k));
    OneMore(run[0], AddedBy(edits, level, k), DeletedBy(edits, level, k), edits[k], level, run[k], run[k + 1], replays[k + 1]);
  }

  /** Replaying any prefix of a history through one builder lists the files the running database listed then, for every
      prefix, if and only if every edit adds cleanly. */
  lemma {:induction false} ReplayMatches(run: seq<Level>, replays: seq<Level>, edits: seq<FileEdit>, level: nat, n: nat)
    requires RanThrough(run, edits, level) && Replays(run, replays, edits, level) && n <= |edits|
    ensures AgreeUpTo(run, replays, n) <==> AllFaithful(run[0], edits, level, n)
  {
    if n == 0 {
      NothingReplayed(run[0], replays[0], edits, level);
      assert Agree(run, replays, 0);
    } else {
      ReplayMatches(run, replays, edits, level, n - 1);
      if AllFaithful(run[0], edits, level, n - 1) {
        assert Agree(run, replays, n - 1);
        MatchStep(run, replays, edits, level, n - 1);
      }
      AgreeSnoc(run, replays, n);
      FaithfulSnoc(run[0], edits, level, n);
    }
  }

  lemma NothingReplayed(base: Level, fs: Level, edits: seq<FileEdit>, level: nat)
    requires ReplayedTo(fs, base, edits, level, 0)
    ensures multiset(fs) == multiset(base)
  {
  }

  lemma AgreeSnoc(run: seq<Level>, replays: seq<Level>, n: nat)
    requires 0 < n < |run| == |replays|
    ensures AgreeUpTo(run, replays, n) <==> AgreeUpTo(run, replays, n - 1) && Agree(run, replays, n)
  {
  }

  lemma FaithfulSnoc(base: Level, edits: seq<FileEdit>, level: nat, n: nat)
    requires 0 < n <= |edits|
    ensures AllFaithful(base, edits, level, n) <==> AllFaithful(base, edits, level, n - 1) && FaithfulAt(base, edits, level, n - 1)
  {
  }

  lemma RunSorted(run: seq<Level>, edits: seq<FileEdit>, level: nat, k: nat)
    requires RanThrough(run, edits, level) && k < |run|
    ensures WeaklySorted(run[k])
  {
    if k > 0 {
      assert OneEdit(run[k - 1], edits[k - 1], level, run[k]);
    }
  }

  // ----- sorted lists of files

  lemma LessIsTotal(f: File, g: File)
    ensures FileLess(f, g) || FileLess(g, f) || SameSlot(f, g)
    ensures !(FileLess(f, g) && FileLess(g, f))
    ensures SameSlot(f, g) ==> !FileLess(f, g)
  {
  }

  lemma LessIsTransitive(f: File, g: File, h: File)
    ensures FileLess(f, g) && !FileLess(h, g) ==> FileLess(f, h)
    ensures !FileLess(g, f) && !FileLess(h, g) ==> !FileLess(h, f)
  {
  }

  /** The order determines the list. */
  lemma {:induction false} SortedUnique(fs: Level, gs: Level)
    requires SortedBySmallest(fs) && SortedBySmallest(gs) && Files(fs) == Files(gs)
    ensures fs == gs
    decreases |fs|
  {
    assert fs != [] ==> fs[0] in Files(fs);
    assert gs != [] ==> gs[0] in Files(gs);
    if fs != [] && gs != [] {
      SameFirst(fs, gs);
      assert Files(fs[1..]) == Files(fs) - {fs[0]} by { TailFiles(fs); }
      assert Files(gs[1..]) == Files(gs) - {gs[0]} by { TailFiles(gs); }
      SortedUnique(fs[1..], gs[1..]);
      assert fs == [fs[0]] + fs[1..] && gs == [gs[0]] + gs[1..];
    }
  }

  lemma SameFirst(fs: Level, gs: Level)
    requires SortedBySmallest(fs) && SortedBySmallest(gs) && Files(fs) == Files(gs) && fs != [] && gs != []
    ensures fs[0] == gs[0]
  {
    assert fs[0] in Files(fs) && gs[0] in Files(gs);
    var i :| 0 <= i < |gs| && gs[i] == fs[0];
    var j :| 0 <= j < |fs| && fs[j] == gs[0];
    assert i > 0 ==> FileLess(gs[0], gs[i]);
    assert j > 0 ==> FileLess(fs[0], fs[j]);
    LessIsTotal(fs[0], gs[0]);
  }

  lemma TailFiles(fs: Level)
    requires SortedBySmallest(fs) && fs != []
    ensures Files(fs[1..]) == Files(fs) - {fs[0]}
  {
    forall f
      ensures f in Files(fs[1..]) <==> f in Files(fs) - {fs[0]}
    {
      if f in fs[1..] {
        var i :| 0 <= i < |fs[1..]| && fs[1..][i] == f;
        assert FileLess(fs[0], fs[i + 1]);
      }
      if f in Files(fs) && f != fs[0] {
        var i :| 0 <= i < |fs| && fs[i] == f;
        assert fs[1..][i - 1] == f;
      }
    }
  }

  // ----- saving a level

  function Less(f: File, g: File): (r: bool)
    ensures r == FileLess(f, g)
  {
    var c := InternalCompare(f.smallest, g.smallest);
    c < 0 || (c == 0 && f.number < g.number)
  }

  /** No file of gs comes before a file of fs. */
  ghost predicate NoneLess(fs: Level, gs: Level) {
    forall i, j :: 0 <= i < |fs| && 0 <= j < |gs| ==> !FileLess(gs[j], fs[i])
  }

  /** MaybeAddFile */
  function MaybeAdd(fs: Level, f: File, deleted: set<nat>): (r: Level) {
    if f.number in deleted then fs else fs + [f]
  }

  lemma MaybeAddSorted(fs: Level, f: File, deleted: set<nat>)
    requires WeaklySorted(fs) && NoneLess(fs, [f])
    ensures WeaklySorted(MaybeAdd(fs, f, deleted))
  {
    assert forall i :: 0 <= i < |fs| ==> !FileLess([f][0], fs[i]);
  }

  lemma MaybeAddLess(fs: Level, f: File, deleted: set<nat>, gs: Level)
    requires NoneLess(fs, gs) && NoneLess([f], gs)
    ensures NoneLess(MaybeAdd(fs, f, deleted), gs)
  {
    assert forall j :: 0 <= j < |gs| ==> !FileLess(gs[j], [f][0]);
  }

  /** How often x is in the two lists together, but for deleted numbers. */
  ghost function Both(base: Level, added: Level, deleted: set<nat>, x: File): nat {
    if x.number in deleted then 0 else multiset(base)[x] + multiset(added)[x]
  }

  ghost predicate HoldsBoth(fs: Level, base: Level, added: Level, deleted: set<nat>) {
    forall x :: multiset(fs)[x] == Both(base, added, deleted, x)
  }

  lemma MaybeAddFiles(fs: Level, f: File, deleted: set<nat>, base: Level, added: Level)
    requires HoldsBoth(fs, base, added, deleted)
    ensures HoldsBoth(MaybeAdd(fs, f, deleted), base + [f], added, deleted)
    ensures HoldsBoth(MaybeAdd(fs, f, deleted), base, added + [f], deleted)
  {
    assert multiset(fs + [f]) == multiset(fs) + multiset{f};
    assert multiset(base + [f]) == multiset(base) + multiset{f};
    assert multiset(added + [f]) == multiset(added) + multiset{f};
  }

  /** Where the merge stands: everything up to (b, a) is in fs, and nothing after them is smaller. */
  ghost predicate Merged(fs: Level, base: Level, added: Level, deleted: set<nat>, b: nat, a: nat) {
    && b <= |base| && a <= |added| && WeaklySorted(fs)
    && NoneLess(fs, base[b..]) && NoneLess(fs, added[a..])
    && HoldsBoth(fs, base[..b], added[..a], deleted)
  }

  lemma NoneLessTail(fs: Level, gs: Level, k: nat)
    requires k < |gs| && NoneLess(fs, gs[k..])
    ensures NoneLess(fs, gs[k + 1..]) && NoneLess(fs, [gs[k]])
  {
    var rest := gs[k + 1..];
    forall i, j | 0 <= i < |fs| && 0 <= j < |rest|
      ensures !FileLess(rest[j], fs[i])
    {
      assert rest[j] == gs[k..][j + 1];
    }
    assert gs[k..][0] == gs[k];
  }

  /** The next file comes from one of the lists, and no remaining file of either is smaller. */
  lemma TakeBase(fs: Level, base: Level, added: Level, deleted: set<nat>, b: nat, a: nat)
    requires Merged(fs, base, added, deleted, b, a) && b < |base| && WeaklySorted(base) && NoneLess([base[b]], added[a..])
    ensures Merged(MaybeAdd(fs, base[b], deleted), base, added, deleted, b + 1, a)
  {
    var f := base[b];
    NoneLessTail(fs, base, b);
    MaybeAddSorted(fs, f, deleted);
    assert NoneLess([f], base[b + 1..]);
    MaybeAddLess(fs, f, deleted, base[b + 1..]);
    MaybeAddLess(fs, f, deleted, added[a..]);
    MaybeAddFiles(fs, f, deleted, base[..b], added[..a]);
    assert base[..b] + [f] == base[..b + 1];
  }

  lemma TakeAdded(fs: Level, base: Level, added: Level, deleted: set<nat>, b: nat, a: nat)
    requires Merged(fs, base, added, deleted, b, a) && a < |added| && WeaklySorted(added) && NoneLess([added[a]], base[b..])
    ensures Merged(MaybeAdd(fs, added[a], deleted), base, added, deleted, b, a + 1)
  {
    var f := added[a];
    NoneLessTail(fs, added, a);
    MaybeAddSorted(fs, f, deleted);
    assert NoneLess([f], added[a + 1..]);
    MaybeAddLess(fs, f, deleted, added[a + 1..]);
    MaybeAddLess(fs, f, deleted, base[b..]);
    MaybeAddFiles(fs, f, deleted, base[..b], added[..a]);
    assert added[..a] + [f] == added[..a + 1];
  }

  /** In a sorted list, not past the first is not past any. */
  lemma NotPastRest(f: File, gs: Level, k: nat)
    requires WeaklySorted(gs) && k <= |gs| && (k < |gs| ==> !FileLess(gs[k], f))
    ensures NoneLess([f], gs[k..])
  {
    forall j | 0 <= j < |gs[k..]|
      ensures !FileLess(gs[k..][j], f)
    {
      if j > 0 {
        LessIsTransitive(f, gs[k], gs[k + j]);
      }
    }
  }

  lemma BaseComesNext(fs: Level, base: Level, added: Level, deleted: set<nat>, b: nat, a: nat)
    requires Merged(fs, base, added, deleted, b, a) && b < |base| && WeaklySorted(base) && SortedBySmallest(added)
    requires a < |added| ==> !FileLess(added[a], base[b])
    ensures Merged(MaybeAdd(fs, base[b], deleted), base, added, deleted, b + 1, a)
  {
    StrictIsWeak(added);
    NotPastRest(base[b], added, a);
    TakeBase(fs, base, added, deleted, b, a);
  }

  lemma AddedComesNext(fs: Level, base: Level, added: Level, deleted: set<nat>, b: nat, a: nat)
    requires Merged(fs, base, added, deleted, b, a) && a < |added| && WeaklySorted(base) && SortedBySmallest(added)
    requires b < |base| ==> FileLess(added[a], base[b])
    ensures Merged(MaybeAdd(fs, added[a], deleted), base, added, deleted, b, a + 1)
  {
    StrictIsWeak(added);
    if b < |base| {
      LessIsTotal(added[a], base[b]);
    }
    NotPastRest(added[a], base, b);
    TakeAdded(fs, base, added, deleted, b, a);
  }

  lemma MergedStart(base: Level, added: Level, deleted: set<nat>)
    ensures Merged([], base, added, deleted, 0, 0)
  {
    assert base[..0] == [] && added[..0] == [];
  }

  lemma MergedEnd(fs: Level, base: Level, added: Level, deleted: set<nat>)
    requires Merged(fs, base, added, deleted, |base|, |added|) && SortedBySmallest(added)
    ensures Saved(fs, base, Files(added), deleted)
  {
    assert base[..|base|] == base && added[..|added|] == added;
    MergedIsSaved(fs, base, added, deleted);
  }

  /** std::upper_bound and the loop up to it: the base files not past the next added one; all of them at the end. */
  method TakeSmaller(fs0: Level, base: Level, added: Level, deleted: set<nat>, b0: nat, a: nat) returns (fs: Level, b: nat)
    requires Merged(fs0, base, added, deleted, b0, a) && WeaklySorted(base) && SortedBySmallest(added)
    ensures Merged(fs, base, added, deleted, b, a)
    ensures b < |base| ==> a < |added| && FileLess(added[a], base[b])
  {
    fs, b := fs0, b0;
    while b < |base| && !(a < |added| && Less(added[a], base[b]))
      invariant Merged(fs, base, added, deleted, b, a)
      decreases |base| - b
    {
      BaseComesNext(fs, base, added, deleted, b, a);
      fs := MaybeAdd(fs, base[b], deleted);
      b := b + 1;
    }
  }

  /** SaveTo at one level: a merge of two sorted lists, base files first among equals, without the deleted numbers. */
  method SaveLevel(base: Level, added: Level, deleted: set<nat>) returns (fs: Level)
    requires WeaklySorted(base) && SortedBySmallest(added)
    ensures Saved(fs, base, Files(added), deleted)
  {
    fs := [];
    var b := 0;
    MergedStart(base, added, deleted);
    for a := 0 to |added|
      invariant Merged(fs, base, added, deleted, b, a)
    {
      fs, b := TakeSmaller(fs, base, added, deleted, b, a);
      AddedComesNext(fs, base, added, deleted, b, a);
      fs := MaybeAdd(fs, added[a], deleted);
    }
    fs, b := TakeSmaller(fs, base, added, deleted, b, |added|);
    MergedEnd(fs, base, added, deleted);
  }

  lemma StrictIsWeak(fs: Level)
    requires SortedBySmallest(fs)
    ensures WeaklySorted(fs)
  {
    forall i, j | 0 <= i < j < |fs|
      ensures !FileLess(fs[j], fs[i])
    {
      LessIsTotal(fs[i], fs[j]);
    }
  }

  lemma MergedIsSaved(fs: Level, base: Level, added: Level, deleted: set<nat>)
    requires WeaklySorted(fs) && HoldsBoth(fs, base, added, deleted) && SortedBySmallest(added)
    ensures Saved(fs, base, Files(added), deleted)
  {
    forall x
      ensures multiset(fs)[x] == Count(base, Files(added), deleted, x)
    {
      OnceInSorted(added, x);
      assert multiset(fs)[x] == Both(base, added, deleted, x);
    }
  }

  lemma {:induction false} OnceInSorted(fs: Level, x: File)
    requires SortedBySmallest(fs)
    ensures multiset(fs)[x] == if x in fs then 1 else 0
  {
    if fs != [] {
      var front, f := fs[..|fs| - 1], fs[|fs| - 1];
      OnceInSorted(front, x);
      assert fs == front + [f];
      assert f !in front by {
        forall i | 0 <= i < |front|
          ensures front[i] != f
        {
          assert FileLess(fs[i], fs[|fs| - 1]);
          LessIsTotal(front[i], f);
        }
      }
    }
  }

  ghost function Spliced(fs: Level, i: nat, f: File): (r: Level)
    requires i <= |fs|
    ensures |r| == |fs| + 1
    ensures forall j :: 0 <= j < |r| ==> r[j] == if j < i then fs[j] else if j == i then f else fs[j - 1]
  {
    fs[..i] + [f] + fs[i..]
  }

  lemma SplicedSorted(fs: Level, i: nat, f: File)
    requires SortedBySmallest(fs) && i <= |fs| && (forall j :: 0 <= j < i ==> FileLess(fs[j], f)) && (i < |fs| ==> FileLess(f, fs[i]))
    ensures SortedBySmallest(Spliced(fs, i, f)) && Files(Spliced(fs, i, f)) == Files(fs) + {f} && !Taken(Files(fs), f)
  {
    var r := Spliced(fs, i, f);
    forall j | i <= j < |fs|
      ensures FileLess(f, fs[j])
    {
      if i < j {
        LessIsTotal(fs[i], fs[j]);
        LessIsTransitive(f, fs[i], fs[j]);
      }
    }
    SplicedFiles(fs, i, f);
    forall g | g in fs
      ensures !SameSlot(g, f)
    {
      var j :| 0 <= j < |fs| && fs[j] == g;
      LessIsTotal(g, f);
      LessIsTotal(f, g);
    }
  }

  lemma SplicedFiles(fs: Level, i: nat, f: File)
    requires i <= |fs|
    ensures Files(Spliced(fs, i, f)) == Files(fs) + {f}
  {
    var r := Spliced(fs, i, f);
    assert r[i] == f;
    forall g | g in fs
      ensures g in r
    {
      var j :| 0 <= j < |fs| && fs[j] == g;
      assert r[if j < i then j else j + 1] == g;
    }
    forall g | g in r
      ensures g in fs || g == f
    {
      var j :| 0 <= j < |r| && r[j] == g;
    }
  }

  /** std::set::insert: a file whose slot is taken is ignored. */
  method InsertFile(fs: Level, f: File) returns (r: Level)
    requires SortedBySmallest(fs)
    ensures SortedBySmallest(r) && Files(r) == Inserted(Files(fs), f)
  {
    var i := 0;
    while i < |fs| && Less(fs[i], f)
      invariant 0 <= i <= |fs| && forall j :: 0 <= j < i ==> FileLess(fs[j], f)
    {
      i := i + 1;
    }
    if i < |fs| && !Less(f, fs[i]) {
      LessIsTotal(f, fs[i]);
      assert fs[i] in Files(fs) && SameSlot(fs[i], f);
      return fs;
    }
    SplicedSorted(fs, i, f);
    r := fs[..i] + [f] + fs[i..];
    assert r == Spliced(fs, i, f);
  }

  // ----- the builder

  lemma DeletedMore(ds: seq<(nat, nat)>, i: nat, level: nat)
    requires i < |ds|
    ensures DeletedAt(ds[..i + 1], level) == DeletedAt(ds[..i], level) + if ds[i].0 == level then {ds[i].1} else {}
  {
    assert ds[..i + 1] == ds[..i] + [ds[i]];
  }

  lemma AddedMore(as_: seq<(nat, File)>, i: nat, level: nat)
    requires i < |as_|
    ensures AddedAt(as_[..i + 1], level) == AddedAt(as_[..i], level) + if as_[i].0 == level then [as_[i].1] else []
  {
    assert as_[..i + 1][..i] == as_[..i];
  }

  lemma InsertedMore(fs: set<File>, gs: Level, g: File)
    ensures InsertedAll(fs, gs + [g]) == Inserted(InsertedAll(fs, gs), g)
    ensures Numbers(Files(gs + [g])) == Numbers(Files(gs)) + {g.number}
  {
    assert (gs + [g])[..|gs|] == gs;
    assert g in Files(gs + [g]);
    SubsetNumbers(Files(gs), Files(gs + [g]));
  }

  method AddDeleted(deleted: seq<set<nat>>, ds: seq<(nat, nat)>) returns (r: seq<set<nat>>)
    requires |deleted| == NUM_LEVELS && forall i :: 0 <= i < |ds| ==> ds[i].0 < NUM_LEVELS
    ensures |r| == NUM_LEVELS && forall l :: 0 <= l < NUM_LEVELS ==> r[l] == deleted[l] + DeletedAt(ds, l)
  {
    r := deleted;
    for i := 0 to |ds|
      invariant |r| == NUM_LEVELS && forall l :: 0 <= l < NUM_LEVELS ==> r[l] == deleted[l] + DeletedAt(ds[..i], l)
    {
      forall l | 0 <= l < NUM_LEVELS
        ensures DeletedAt(ds[..i + 1], l) == DeletedAt(ds[..i], l) + if ds[i].0 == l then {ds[i].1} else {}
      {
        DeletedMore(ds, i, l);
      }
      r := r[ds[i].0 := r[ds[i].0] + {ds[i].1}];
    }
    assert ds[..|ds|] == ds;
  }

  /** Level states after some additions. */
  ghost predicate Adding(del0: seq<set<nat>>, add0: seq<Level>, del: seq<set<nat>>, add: seq<Level>, as_: seq<(nat, File)>, l: nat)
    requires |del0| == |add0| == |del| == |add| == NUM_LEVELS && l < NUM_LEVELS
  {
    && SortedBySmallest(add[l]) && Files(add[l]) == InsertedAll(Files(add0[l]), AddedAt(as_, l))
    && del[l] == del0[l] - Numbers(Files(AddedAt(as_, l)))
  }

  ghost predicate AllAdding(del0: seq<set<nat>>, add0: seq<Level>, del: seq<set<nat>>, add: seq<Level>, as_: seq<(nat, File)>) {
    && |del0| == |add0| == |del| == |add| == NUM_LEVELS
    && forall l {:trigger Adding(del0, add0, del, add, as_, l)} :: 0 <= l < NUM_LEVELS ==> Adding(del0, add0, del, add, as_, l)
  }

  lemma AddingNone(del0: seq<set<nat>>, add0: seq<Level>)
    requires |del0| == |add0| == NUM_LEVELS && forall l :: 0 <= l < NUM_LEVELS ==> SortedBySmallest(add0[l])
    ensures AllAdding(del0, add0, del0, add0, [])
  {
    assert Files([]) == {} && Numbers({}) == {};
  }

  lemma AddingStep(del0: seq<set<nat>>, add0: seq<Level>, del: seq<set<nat>>, add: seq<Level>, as_: seq<(nat, File)>, i: nat, fs: Level)
    requires i < |as_| && as_[i].0 < NUM_LEVELS && AllAdding(del0, add0, del, add, as_[..i])
    requires SortedBySmallest(fs) && Files(fs) == Inserted(Files(add[as_[i].0]), as_[i].1)
    ensures AllAdding(del0, add0, del[as_[i].0 := del[as_[i].0] - {as_[i].1.number}], add[as_[i].0 := fs], as_[..i + 1])
  {
    var del', add' := del[as_[i].0 := del[as_[i].0] - {as_[i].1.number}], add[as_[i].0 := fs];
    var upTo := as_[..i + 1];
    forall l | 0 <= l < NUM_LEVELS
      ensures Adding(del0, add0, del', add', upTo, l)
    {
      assert Adding(del0, add0, del, add, as_[..i], l);
      AddedMore(as_, i, l);
      if as_[i].0 == l {
        InsertedMore(Files(add0[l]), AddedAt(as_[..i], l), as_[i].1);
      } else {
        assert AddedAt(upTo, l) == AddedAt(as_[..i], l);
      }
    }
  }

  method AddFiles(del0: seq<set<nat>>, add0: seq<Level>, as_: seq<(nat, File)>) returns (del: seq<set<nat>>, add: seq<Level>)
    requires |del0| == |add0| == NUM_LEVELS && (forall i :: 0 <= i < |as_| ==> as_[i].0 < NUM_LEVELS)
    requires forall l :: 0 <= l < NUM_LEVELS ==> SortedBySmallest(add0[l])
    ensures AllAdding(del0, add0, del, add, as_)
  {
    del, add := del0, add0;
    AddingNone(del0, add0);
    assert as_[..0] == [];
    for i := 0 to |as_|
      invariant AllAdding(del0, add0, del, add, as_[..i])
    {
      var level, f := as_[i].0, as_[i].1;
      assert Adding(del0, add0, del, add, as_[..i], level);
      var fs := InsertFile(add[level], f);
      AddingStep(del0, add0, del, add, as_, i, fs);
      del, add := del[level := del[level] - {f.number}], add[level := fs];
    }
    assert as_[..|as_|] == as_;
  }

  class Builder {
    const base: Version
    var deleted: seq<set<nat>>
    var added: seq<Level>

    constructor (base: Version)
      requires Sortings(base)
      ensures Valid() && this.base == base
      ensures forall l :: 0 <= l < NUM_LEVELS ==> deleted[l] == {} && added[l] == []
    {
      this.base := base;
      deleted, added := seq(NUM_LEVELS, _ => {}), seq(NUM_LEVELS, _ => []);
    }

    ghost predicate Valid() reads this {
      && Sortings(base) && |deleted| == |added| == NUM_LEVELS
      && forall l :: 0 <= l < NUM_LEVELS ==> SortedBySmallest(added[l])
    }

    method Apply(e: FileEdit)
      requires Valid() && LevelsOk(e)
      modifies this
      ensures Valid()
      ensures forall l :: 0 <= l < NUM_LEVELS ==>
                deleted[l] == DeletedAfter(old(deleted[l]), e, l) && Files(added[l]) == AddedAfter(Files(old(added[l])), e, l)
    {
      var del := AddDeleted(deleted, e.deleted);
      var add;
      ghost var del0 := del;
      ghost var add0 := added;
      del, add := AddFiles(del, added, e.added);
      forall l | 0 <= l < NUM_LEVELS
        ensures del[l] == DeletedAfter(old(deleted[l]), e, l)
        ensures SortedBySmallest(add[l]) && Files(add[l]) == AddedAfter(Files(old(added[l])), e, l)
      {
        assert Adding(del0, add0, del, add, e.added, l);
      }
      deleted, added := del, add;
    }

    /** SaveTo */
    method SaveTo() returns (v: Version)
      requires Valid()
      ensures |v| == NUM_LEVELS && forall l :: 0 <= l < NUM_LEVELS ==> Saved(v[l], base[l], Files(added[l]), deleted[l])
    {
      v := [];
      for l := 0 to NUM_LEVELS
        invariant |v| == l
        invariant forall k :: 0 <= k < l ==> Saved(v[k], base[k], Files(added[k]), deleted[k])
      {
        var fs := SaveLevel(base[l], added[l], deleted[l]);
        v := v + [fs];
      }
    }
  }

  ghost predicate Sortings(v: Version) { |v| == NUM_LEVELS && forall l :: 0 <= l < NUM_LEVELS ==> WeaklySorted(v[l]) }

  ghost predicate EditsOk(edits: seq<FileEdit>) { forall k :: 0 <= k < |edits| ==> LevelsOk(edits[k]) }

  // ----- recovery and the running database

  ghost predicate ReplayedVersion(v: Version, base: Version, edits: seq<FileEdit>, n: nat)
    requires |base| == NUM_LEVELS && n <= |edits|
  {
    |v| == NUM_LEVELS && forall l :: 0 <= l < NUM_LEVELS ==> ReplayedTo(v[l], base[l], edits, l, n)
  }

  /** VersionSet::Recover's loop: every edit through one builder, saved once. */
  method Replay(base: Version, edits: seq<FileEdit>, n: nat) returns (v: Version)
    requires Sortings(base) && EditsOk(edits) && n <= |edits|
    ensures ReplayedVersion(v, base, edits, n)
  {
    var builder := new Builder(base);
    assert Files([]) == {};
    for k := 0 to n
      invariant builder.Valid() && builder.base == base && fresh(builder)
      invariant forall l :: 0 <= l < NUM_LEVELS ==> builder.deleted[l] == DeletedBy(edits, l, k) && Files(builder.added[l]) == AddedBy(edits, l, k)
    {
      builder.Apply(edits[k]);
    }
    v := builder.SaveTo();
  }

  ghost predicate Installed(v: Version, e: FileEdit, v': Version) {
    Sortings(v) && Sortings(v') && forall l :: 0 <= l < NUM_LEVELS ==> OneEdit(v[l], e, l, v'[l])
  }

  /** LogAndApply: a builder on the current version for one edit. */
  method LogAndApply(current: Version, e: FileEdit) returns (v: Version)
    requires Sortings(current) && LevelsOk(e)
    ensures Installed(current, e, v)
  {
    var builder := new Builder(current);
    assert Files([]) == {};
    builder.Apply(e);
    v := builder.SaveTo();
  }

  /** Every version of the running database, one per edit. */
  ghost predicate Ran(run: seq<Version>, edits: seq<FileEdit>) {
    |run| == |edits| + 1 && Sortings(run[0]) && forall k :: 0 <= k < |edits| ==> Installed(run[k], edits[k], run[k + 1])
  }

  /** And every version a recovery at that point would have built. */
  ghost predicate Recovered(replays: seq<Version>, base: Version, edits: seq<FileEdit>) {
    && |base| == NUM_LEVELS && |replays| == |edits| + 1
    && forall k {:trigger ReplayedVersion(replays[k], base, edits, k)} :: 0 <= k <= |edits| ==> ReplayedVersion(replays[k], base, edits, k)
  }

  ghost function AtLevel(run: seq<Version>, l: nat): (r: seq<Level>)
    requires l < NUM_LEVELS && forall k :: 0 <= k < |run| ==> |run[k]| == NUM_LEVELS
    ensures |r| == |run| && forall k :: 0 <= k < |run| ==> r[k] == run[k][l]
  {
    seq(|run|, k requires 0 <= k < |run| => run[k][l])
  }

  /** At level l, recovery would have listed the files of the running version after every edit. */
  ghost predicate AlwaysAgree(run: seq<Version>, replays: seq<Version>, l: nat) {
    forall k :: 0 <= k < |run| && k < |replays| && l < |run[k]| && l < |replays[k]| ==> multiset(replays[k][l]) == multiset(run[k][l])
  }

  /** The run and a recovery after each of its edits. */
  method RunAndRecover(base: Version, edits: seq<FileEdit>) returns (run: seq<Version>, replays: seq<Version>)
    requires Sortings(base) && EditsOk(edits)
    ensures Ran(run, edits) && run[0] == base && Recovered(replays, base, edits)
  {
    run := [base];
    var v := Replay(base, edits, 0);
    replays := [v];
    for n := 0 to |edits|
      invariant |run| == |replays| == n + 1 && run[0] == base && Sortings(run[n])
      invariant forall k :: 0 <= k <= n ==> ReplayedVersion(replays[k], base, edits, k)
      invariant forall k :: 0 <= k < n ==> Installed(run[k], edits[k], run[k + 1])
    {
      var next := LogAndApply(run[n], edits[n]);
      v := Replay(base, edits, n + 1);
      run, replays := run + [next], replays + [v];
    }
  }

  lemma RunWide(run: seq<Version>, edits: seq<FileEdit>)
    requires Ran(run, edits)
    ensures forall k :: 0 <= k < |run| ==> |run[k]| == NUM_LEVELS
  {
    forall k | 0 <= k < |run|
      ensures |run[k]| == NUM_LEVELS
    {
      assert k > 0 ==> Installed(run[k - 1], edits[k - 1], run[k]);
    }
  }

  lemma RecoveredWide(replays: seq<Version>, base: Version, edits: seq<FileEdit>)
    requires Recovered(replays, base, edits)
    ensures forall k :: 0 <= k < |replays| ==> |replays[k]| == NUM_LEVELS
  {
    forall k | 0 <= k < |replays|
      ensures |replays[k]| == NUM_LEVELS
    {
      assert ReplayedVersion(replays[k], base, edits, k);
    }
  }

  lemma RanLevel(run: seq<Version>, edits: seq<FileEdit>, l: nat, at: seq<Level>)
    requires Ran(run, edits) && l < NUM_LEVELS && |at| == |run|
    requires forall k :: 0 <= k < |run| ==> |run[k]| == NUM_LEVELS && at[k] == run[k][l]
    ensures RanThrough(at, edits, l)
  {
    forall k | 0 <= k < |edits|
      ensures OneEdit(at[k], edits[k], l, at[k + 1])
    {
      assert Installed(run[k], edits[k], run[k + 1]);
    }
  }

  lemma RecoveredLevel(run: seq<Level>, replays: seq<Version>, base: Version, edits: seq<FileEdit>, l: nat, at: seq<Level>)
    requires Recovered(replays, base, edits) && l < NUM_LEVELS && |at| == |replays| == |run| && run[0] == base[l]
    requires forall k :: 0 <= k < |replays| ==> |replays[k]| == NUM_LEVELS && at[k] == replays[k][l]
    ensures Replays(run, at, edits, l)
  {
    forall k | 0 <= k <= |edits|
      ensures ReplayedTo(at[k], run[0], edits, l, k)
    {
      assert ReplayedVersion(replays[k], base, edits, k);
    }
  }

  /** At each level, recovery agrees with the running database after every edit if and only if every edit adds cleanly
      there. */
  lemma RecoveryAgrees(run: seq<Version>, replays: seq<Version>, edits: seq<FileEdit>, l: nat)
    requires Ran(run, edits) && Recovered(replays, run[0], edits) && l < NUM_LEVELS
    ensures AlwaysAgree(run, replays, l) <==> AllFaithful(run[0][l], edits, l, |edits|)
  {
    RunWide(run, edits);
    RecoveredWide(replays, run[0], edits);
    var a, b := AtLevel(run, l), AtLevel(replays, l);
    RanLevel(run, edits, l, a);
    RecoveredLevel(a, replays, run[0], edits, l, b);
    ReplayMatches(a, b, edits, l, |edits|);
    if AlwaysAgree(run, replays, l) {
      forall k | 0 <= k <= |edits|
        ensures Agree(a, b, k)
      {
        assert multiset(replays[k][l]) == multiset(run[k][l]);
      }
    }
    if AgreeUpTo(a, b, |edits|) {
      forall k | 0 <= k < |run|
        ensures multiset(replays[k][l]) == multiset(run[k][l])
      {
        assert Agree(a, b, k);
      }
    }
  }

  /** A file number that comes back in another edit: the running database lists the new file g alone; recovery lists the old
      file too, or only the old one if both have the same smallest key. */
  lemma ReaddResurrects(f: File, g: File, run: seq<Version>, replays: seq<Version>)
    requires f.number == g.number && f != g
    requires Ran(run, Readds(f, g)) && run[0] == [[], [], [], [], [], [], []] && Recovered(replays, run[0], Readds(f, g))
    ensures |run[3]| == |replays[3]| == NUM_LEVELS && multiset(run[3][1]) == multiset{g}
    ensures multiset(replays[3][1]) == if f.smallest == g.smallest then multiset{f} else multiset{f, g}
  {
    var edits := Readds(f, g);
    RunWide(run, edits);
    RecoveredWide(replays, run[0], edits);
    assert run[0][1] == [];
    assert Installed(run[0], edits[0], run[1]) && Installed(run[1], edits[1], run[2]) && Installed(run[2], edits[2], run[3]);
    ReaddRuns(f, g, run[0][1], run[1][1], run[2][1], run[3][1]);
    assert ReplayedVersion(replays[3], run[0], edits, 3);
    ReaddReplays(f, g, replays[3][1]);
  }

  function Readds(f: File, g: File): seq<FileEdit> {
    [FileEdit([], [(1, f)]), FileEdit([(1, f.number)], []), FileEdit([], [(1, g)])]
  }

  lemma ReaddRuns(f: File, g: File, a: Level, b: Level, c: Level, d: Level)
    requires f.number == g.number && a == []
    requires OneEdit(a, Readds(f, g)[0], 1, b) && OneEdit(b, Readds(f, g)[1], 1, c) && OneEdit(c, Readds(f, g)[2], 1, d)
    ensures multiset(d) == multiset{g}
  {
    AddsOne(f, {}, {});
    DropsOne(f.number, {}, {});
    AddsOne(g, {}, {});
    assert multiset(b) == multiset{f};
    assert multiset(c) == multiset{};
  }

  lemma AddsOne(f: File, added: set<File>, deleted: set<nat>)
    ensures var e := FileEdit([], [(1, f)]);
            AddedAfter(added, e, 1) == Inserted(added, f) && DeletedAfter(deleted, e, 1) == deleted - {f.number}
    ensures !Taken({}, f)
  {
    assert [(1, f)][..0] == [] && [f][..0] == [];
    assert AddedAt([(1, f)], 1) == [f];
    assert InsertedAll(added, [f]) == Inserted(added, f);
    assert Files([f]) == {f} && f in {f};
    assert Numbers({f}) == {f.number};
    assert DeletedAt([], 1) == {};
  }

  lemma DropsOne(n: nat, added: set<File>, deleted: set<nat>)
    ensures var e := FileEdit([(1, n)], []); AddedAfter(added, e, 1) == added && DeletedAfter(deleted, e, 1) == deleted + {n}
  {
    assert (1, n) in [(1, n)];
    assert DeletedAt([(1, n)], 1) == {n};
    assert Files([]) == {} && Numbers({}) == {};
  }

  lemma ReaddReplays(f: File, g: File, fs: Level)
    requires f.number == g.number && f != g && ReplayedTo(fs, [], Readds(f, g), 1, 3)
    ensures multiset(fs) == if f.smallest == g.smallest then multiset{f} else multiset{f, g}
  {
    var edits := Readds(f, g);
    AddsOne(f, {}, {});
    DropsOne(f.number, {f}, {});
    AddsOne(g, {f}, {f.number});
    assert Taken({f}, g) <==> f.smallest == g.smallest by {
      assert f in {f} && (f.smallest == g.smallest ==> SameSlot(f, g));
    }
    assert AddedBy(edits, 1, 1) == {f} && DeletedBy(edits, 1, 1) == {};
    assert AddedBy(edits, 1, 2) == {f} && DeletedBy(edits, 1, 2) == {f.number};
    assert DeletedBy(edits, 1, 3) == {} && AddedBy(edits, 1, 3) == Inserted({f}, g);
  }

  // ----- when no number comes back

  /** No file number is added at a level that has, or had, a file of that number. */
  ghost predicate AddsNew(base: Level, edits: seq<FileEdit>, level: nat, k: nat)
    requires k < |edits|
  {
    Numbers(Files(AddedAt(edits[k].added, level))) !! Numbers(Files(base) + AddedBy(edits, level, k))
  }

  ghost predicate NoReadd(base: Level, edits: seq<FileEdit>, level: nat) {
    forall k {:trigger AddsNew(base, edits, level, k)} :: 0 <= k < |edits| ==> AddsNew(base, edits, level, k)
  }

  lemma NewIsFaithful(base: Level, edits: seq<FileEdit>, level: nat)
    requires NoReadd(base, edits, level)
    ensures AllFaithful(base, edits, level, |edits|)
  {
    forall k | 0 <= k < |edits|
      ensures FaithfulAt(base, edits, level, k)
    {
      assert AddsNew(base, edits, level, k);
      NewAddsCleanly(base, AddedBy(edits, level, k), DeletedBy(edits, level, k), edits[k], level);
    }
  }

  lemma NewAddsCleanly(base: Level, added: set<File>, deleted: set<nat>, e: FileEdit, level: nat)
    requires Numbers(Files(AddedAt(e.added, level))) !! Numbers(Files(base) + added)
    ensures Faithful(base, added, deleted, e, level)
  {
    AddedNumbers(e, level);
    var all := Files(base) + added;
    forall f, g | f in AddedAfter({}, e, level) && g in all
      ensures f.number != g.number
    {
      assert f.number in Numbers(AddedAfter({}, e, level)) && g.number in Numbers(all);
    }
    forall g | g in base
      ensures g in all
    {
      assert g in Files(base);
    }
  }

  lemma CountsOnce(fs: Level, i: nat, j: nat)
    requires i < j < |fs| && multiset(fs)[fs[i]] <= 1
    ensures fs[i] != fs[j]
  {
    var a, b := fs[..j], fs[j..];
    assert fs == a + b;
    assert fs[i] == a[i] && fs[j] == b[0];
    assert fs[i] in multiset(a) && fs[j] in multiset(b);
  }

  /** A level without equal slots stays one if the numbers added are new to it. */
  lemma StaysStrict(fs: Level, e: FileEdit, level: nat, fs': Level)
    requires SortedBySmallest(fs) && OneEdit(fs, e, level, fs') && Numbers(Files(AddedAt(e.added, level))) !! Numbers(Files(fs))
    ensures SortedBySmallest(fs')
  {
    var adds := AddedAfter({}, e, level);
    InsertedFromEmpty(AddedAt(e.added, level));
    AddedNumbers(e, level);
    forall i, j | 0 <= i < j < |fs'|
      ensures FileLess(fs'[i], fs'[j])
    {
      SavedFrom(fs, e, level, fs', i);
      SavedFrom(fs, e, level, fs', j);
      CountsOnce(fs', i, j);
      if SameSlot(fs'[i], fs'[j]) {
        OneOrigin(fs, adds, fs'[i], fs'[j]);
      }
      LessIsTotal(fs'[i], fs'[j]);
    }
  }

  lemma SavedFrom(fs: Level, e: FileEdit, level: nat, fs': Level, i: nat)
    requires SortedBySmallest(fs) && OneEdit(fs, e, level, fs') && i < |fs'|
    requires Numbers(AddedAfter({}, e, level)) !! Numbers(Files(fs))
    ensures multiset(fs')[fs'[i]] == 1 && (fs'[i] in Files(fs) || fs'[i] in AddedAfter({}, e, level))
  {
    var x, adds := fs'[i], AddedAfter({}, e, level);
    assert x in multiset(fs');
    OnceInSorted(fs, x);
    NumbersApart(adds, Files(fs));
  }

  lemma NumbersApart(fs: set<File>, gs: set<File>)
    requires Numbers(fs) !! Numbers(gs)
    ensures forall f, g :: f in fs && g in gs ==> f.number != g.number
  {
    forall f, g | f in fs && g in gs
      ensures f.number != g.number
    {
      assert f.number in Numbers(fs) && g.number in Numbers(gs);
    }
  }

  lemma OneOrigin(fs: Level, adds: set<File>, f: File, g: File)
    requires SortedBySmallest(fs) && SlotsDistinct(adds) && Numbers(adds) !! Numbers(Files(fs)) && SameSlot(f, g)
    requires f in Files(fs) || f in adds
    requires g in Files(fs) || g in adds
    ensures f == g
  {
    NumbersApart(adds, Files(fs));
    if f in Files(fs) {
      var i :| 0 <= i < |fs| && fs[i] == f;
      var j :| 0 <= j < |fs| && fs[j] == g;
      LessIsTotal(f, g);
      LessIsTotal(g, f);
    }
  }

  /** One edit of new numbers installs what the version steps assume of it. */
  lemma AfterInstalls(fs: Level, e: FileEdit, level: nat, fs': Level)
    requires SortedBySmallest(fs) && OneEdit(fs, e, level, fs')
    requires Numbers(Files(AddedAt(e.added, level))) !! Numbers(Files(fs)) + DeletedAt(e.deleted, level)
    ensures Installs(fs, (set f | f in fs && f.number in DeletedAt(e.deleted, level)), AddedAfter({}, e, level), fs')
  {
    var adds, del := AddedAfter({}, e, level), DeletedAt(e.deleted, level);
    StaysStrict(fs, e, level, fs');
    AddedNumbers(e, level);
    assert DeletedAfter({}, e, level) == del;
    forall f
      ensures f in fs' <==> (f in fs && f.number !in del) || f in adds
    {
      assert f in fs' <==> multiset(fs')[f] > 0;
      assert f in fs <==> multiset(fs)[f] > 0;
      if f in adds {
        assert f.number in Numbers(adds);
      }
    }
  }

  lemma {:induction false} RunStrict(run: seq<Level>, edits: seq<FileEdit>, level: nat, k: nat)
    requires RanThrough(run, edits, level) && SortedBySmallest(run[0]) && NoReadd(run[0], edits, level) && k < |run|
    ensures SortedBySmallest(run[k]) && Files(run[k]) <= Files(run[0]) + AddedBy(edits, level, k)
  {
    if k > 0 {
      RunStrict(run, edits, level, k - 1);
      assert OneEdit(run[k - 1], edits[k - 1], level, run[k]);
      assert AddsNew(run[0], edits, level, k - 1);
      SubsetNumbers(Files(run[k - 1]), Files(run[0]) + AddedBy(edits, level, k - 1));
      StaysStrict(run[k - 1], edits[k - 1], level, run[k]);
      RunWithin(run[0], run[k - 1], edits, level, k, run[k]);
    }
  }

  lemma RunWithin(base: Level, fs: Level, edits: seq<FileEdit>, level: nat, k: nat, fs': Level)
    requires 0 < k <= |edits| && OneEdit(fs, edits[k - 1], level, fs') && AddsNew(base, edits, level, k - 1)
    requires Files(fs) <= Files(base) + AddedBy(edits, level, k - 1)
    ensures Files(fs') <= Files(base) + AddedBy(edits, level, k)
  {
    var e, added := edits[k - 1], AddedBy(edits, level, k - 1);
    InsertedSplit(added, AddedAt(e.added, level));
    AddedNumbers(e, level);
    forall f | f in fs'
      ensures f in Files(base) + AddedBy(edits, level, k)
    {
      assert multiset(fs')[f] > 0;
      if f in fs {
        assert f in Files(fs);
      } else {
        assert f in AddedAfter({}, e, level);
        NewIsFree(Files(base) + added, added, AddedAfter({}, e, level), f);
      }
    }
  }

  lemma NewIsFree(all: set<File>, added: set<File>, adds: set<File>, f: File)
    requires added <= all && f in adds && Numbers(adds) !! Numbers(all)
    ensures !Taken(added, f)
  {
    forall g | g in added
      ensures !SameSlot(g, f)
    {
      assert g in all && g.number in Numbers(all) && f.number in Numbers(adds);
    }
  }

  lemma SameListOnce(fs: Level, gs: Level)
    requires SortedBySmallest(fs) && WeaklySorted(gs) && multiset(fs) == multiset(gs)
    ensures fs == gs
  {
    forall i, j | 0 <= i < j < |gs|
      ensures FileLess(gs[i], gs[j])
    {
      assert gs[i] in multiset(gs) && gs[j] in multiset(gs);
      OnceInSorted(fs, gs[i]);
      CountsOnce(gs, i, j);
      assert gs[i] in fs && gs[j] in fs;
      var a :| 0 <= a < |fs| && fs[a] == gs[i];
      var b :| 0 <= b < |fs| && fs[b] == gs[j];
      LessIsTotal(gs[i], gs[j]);
      LessIsTotal(gs[j], gs[i]);
    }
    assert forall f :: f in fs <==> f in multiset(fs);
    assert forall f :: f in gs <==> f in multiset(gs);
    assert Files(fs) == Files(gs);
    SortedUnique(fs, gs);
  }

  ghost predicate Strict(v: Version) { |v| == NUM_LEVELS && forall l :: 0 <= l < NUM_LEVELS ==> SortedBySmallest(v[l]) }

  ghost predicate NoReadds(base: Version, edits: seq<FileEdit>)
    requires |base| == NUM_LEVELS
  {
    forall l :: 0 <= l < NUM_LEVELS ==> NoReadd(base[l], edits, l)
  }

  ghost predicate FaithfulEdits(base: Version, edits: seq<FileEdit>)
    requires |base| == NUM_LEVELS
  {
    forall l :: 0 <= l < NUM_LEVELS ==> AllFaithful(base[l], edits, l, |edits|)
  }

  ghost predicate SameFiles(v: Version, w: Version) {
    |v| == |w| == NUM_LEVELS && forall l :: 0 <= l < NUM_LEVELS ==> multiset(v[l]) == multiset(w[l])
  }

  /** A recovery at the end of the run. */
  lemma RecoveryAtEnd(run: seq<Version>, replays: seq<Version>, edits: seq<FileEdit>, v: Version)
    requires Ran(run, edits) && Recovered(replays, run[0], edits) && ReplayedVersion(v, run[0], edits, |edits|)
    ensures FaithfulEdits(run[0], edits) ==> SameFiles(v, run[|edits|])
    ensures Strict(run[0]) && NoReadds(run[0], edits) ==> v == run[|edits|]
  {
    RunWide(run, edits);
    if FaithfulEdits(run[0], edits) {
      forall l | 0 <= l < NUM_LEVELS
        ensures multiset(v[l]) == multiset(run[|edits|][l])
      {
        EndAgrees(run, replays, edits, v, l);
      }
    }
    if Strict(run[0]) && NoReadds(run[0], edits) {
      forall l | 0 <= l < NUM_LEVELS
        ensures v[l] == run[|edits|][l]
      {
        EndEquals(run, replays, edits, v, l);
      }
    }
  }

  lemma EndAgrees(run: seq<Version>, replays: seq<Version>, edits: seq<FileEdit>, v: Version, l: nat)
    requires Ran(run, edits) && Recovered(replays, run[0], edits) && ReplayedVersion(v, run[0], edits, |edits|) && l < NUM_LEVELS
    requires AllFaithful(run[0][l], edits, l, |edits|)
    ensures |run[|edits|]| == NUM_LEVELS && multiset(v[l]) == multiset(run[|edits|][l])
  {
    RunWide(run, edits);
    var all := replays[|edits| := v];
    forall k | 0 <= k <= |edits|
      ensures ReplayedVersion(all[k], run[0], edits, k)
    {
      assert k < |edits| ==> all[k] == replays[k] && ReplayedVersion(replays[k], run[0], edits, k);
    }
    RecoveryAgrees(run, all, edits, l);
    assert multiset(all[|edits|][l]) == multiset(run[|edits|][l]);
  }

  lemma EndEquals(run: seq<Version>, replays: seq<Version>, edits: seq<FileEdit>, v: Version, l: nat)
    requires Ran(run, edits) && Recovered(replays, run[0], edits) && ReplayedVersion(v, run[0], edits, |edits|) && l < NUM_LEVELS
    requires SortedBySmallest(run[0][l]) && NoReadd(run[0][l], edits, l)
    ensures |run[|edits|]| == NUM_LEVELS && v[l] == run[|edits|][l]
  {
    RunWide(run, edits);
    NewIsFaithful(run[0][l], edits, l);
    EndAgrees(run, replays, edits, v, l);
    var at := AtLevel(run, l);
    RanLevel(run, edits, l, at);
    RunStrict(at, edits, l, |edits|);
    assert ReplayedTo(v[l], run[0][l], edits, l, |edits|);
    SameListOnce(run[|edits|][l], v[l]);
  }

  /** The running database and its recovery: the same files if every edit adds cleanly, the same lists if no number comes
      back. */
  method ReplayEqualsRun(base: Version, edits: seq<FileEdit>) returns (replayed: Version, current: Version)
    requires Sortings(base) && EditsOk(edits)
    ensures FaithfulEdits(base, edits) ==> SameFiles(replayed, current)
    ensures Strict(base) && NoReadds(base, edits) ==> replayed == current
    ensures ReplayedVersion(replayed, base, edits, |edits|)
  {
    var run, replays := RunAndRecover(base, edits);
    assert ReplayedVersion(replays[|edits|], base, edits, |edits|);
    RecoveryAtEnd(run, replays, edits, replays[|edits|]);
    replayed, current := replays[|edits|], run[|edits|];
  }
}

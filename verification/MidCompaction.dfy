/** A flush that commits while a compaction is under way: DoCompactionWork stops for the immutable memtable, so the
    version the compaction's outputs go into is not the one its inputs were picked from. */
module MidCompaction {
  import opened Keys
  import opened Meaning
  import opened Versions
  import opened Inputs
  import opened Compaction
  import opened VersionSteps
  import VersionBuilder

  /** InstallCompactionResults on whatever the current version is. */
  ghost predicate Commits(v: Version, v': Version, level: nat, in0: Level, in1: Level, outs: Level) {
    && |v| == |v'| == NUM_LEVELS && level + 1 < |v|
    && (forall i :: 0 <= i < |v| && i != level && i != level + 1 ==> v'[i] == v[i])
    && Installs(v[level], FileSet(in0), {}, v'[level])
    && Installs(v[level + 1], FileSet(in1), FileSet(outs), v'[level + 1])
  }

  /** The inputs are still there: nothing but the compaction itself takes them away. */
  ghost predicate HasInputs(v: Version, level: nat, in0: Level, in1: Level) {
    level + 1 < |v| && (forall f :: f in in0 ==> f in v[level]) && forall f :: f in in1 ==> f in v[level + 1]
  }

  /** f is none of the files the compaction takes away or brings. */
  ghost predicate Fresh(f: File, in0: Level, in1: Level, outs: Level) { f !in in0 && f !in in1 && f !in outs }

  // ----- a commit after a flush is a flush after the commit

  lemma CommitTwice(fs: Level, removed: set<File>, added: set<File>, a: Level, b: Level)
    requires Installs(fs, removed, added, a) && Installs(fs, removed, added, b)
    ensures a == b
  {
    assert VersionBuilder.Files(a) == VersionBuilder.Files(b);
    VersionBuilder.SortedUnique(a, b);
  }

  /** Installing the compaction's changes after adding f gives what adding f after them gives. */
  lemma InstallCommutes(fs: Level, f: File, withF: Level, removed: set<File>, added: set<File>, fs': Level, withF': Level)
    requires Installs(fs, {}, {f}, withF) && Installs(fs, removed, added, fs') && Installs(withF, removed, added, withF') && f !in removed
    ensures Installs(fs', {}, {f}, withF')
  {
    forall g
      ensures g in withF' <==> g in fs' || g == f
    {
      assert g in withF <==> g in fs || g == f;
      assert g in fs' <==> (g in fs && g !in removed) || g in added;
    }
  }

  lemma FlushCommutes(v: Version, w: Version, v': Version, w': Version, f: File, fl: nat, level: nat, in0: Level, in1: Level, outs: Level)
    requires AddsFile(v, w, f, fl) && Commits(v, v', level, in0, in1, outs) && Commits(w, w', level, in0, in1, outs)
    requires Fresh(f, in0, in1, outs)
    ensures AddsFile(v', w', f, fl)
  {
    forall i | 0 <= i < |v| && i != fl
      ensures w'[i] == v'[i]
    {
      if i == level {
        CommitTwice(v[i], FileSet(in0), {}, v'[i], w'[i]);
      } else if i == level + 1 {
        CommitTwice(v[i], FileSet(in1), FileSet(outs), v'[i], w'[i]);
      }
    }
    if fl == level {
      InstallCommutes(v[fl], f, w[fl], FileSet(in0), {}, v'[fl], w'[fl]);
    } else if fl == level + 1 {
      InstallCommutes(v[fl], f, w[fl], FileSet(in1), FileSet(outs), v'[fl], w'[fl]);
    }
  }

  // ----- where the flushed file stands among the outputs

  lemma InputsInVersion(v: Version, level: nat, in0: Level, in1: Level)
    requires HasInputs(v, level, in0, in1)
    ensures FilesEntries(in0) + FilesEntries(in1) <= VersionEntries(v)
  {
    forall e | e in FilesEntries(in0) + FilesEntries(in1)
      ensures e in VersionEntries(v)
    {
      if f :| f in in0 && e in f.entries {
        assert f in v[level];
      } else {
        var f :| f in in1 && e in f.entries;
        assert f in v[level + 1];
      }
    }
  }

  /** A file placed below the inputs shares no user key with them: it lies on one side of each entry. */
  lemma InputEntryApart(v: Version, level: nat, in0: Level, in1: Level, lo: UserKey, hi: UserKey, e: Entry)
    requires Shaped(v) && HasInputs(v, level, in0, in1) && LevelClear(v[level], lo, hi) && LevelClear(v[level + 1], lo, hi)
    requires e in FilesEntries(in0) + FilesEntries(in1)
    ensures Compare(e.key.user, lo) < 0 || Compare(hi, e.key.user) < 0
  {
    if g :| g in in0 && e in g.entries {
      assert g in v[level];
      EntryInRange(g, e);
    } else {
      var g :| g in in1 && e in g.entries;
      assert g in v[level + 1];
      EntryInRange(g, e);
    }
  }

  lemma OutputsApart(v: Version, f: File, level: nat, in0: Level, in1: Level, outs: Level)
    requires Shaped(v) && FileOk(f) && HasInputs(v, level, in0, in1) && OutputsOf(in0, in1, outs)
    requires LevelClear(v[level], f.smallest.user, f.largest.user) && LevelClear(v[level + 1], f.smallest.user, f.largest.user)
    ensures LevelNewer(outs, [f])
  {
    forall o, e, d | o in outs && e in o.entries && d in f.entries
      ensures e.key.user != d.key.user
    {
      assert e in FilesEntries(outs);
      InputEntryApart(v, level, in0, in1, f.smallest.user, f.largest.user, e);
      EntryInRange(f, d);
    }
  }

  lemma NewerThanOutputs(v: Version, f: File, level: nat, in0: Level, in1: Level, outs: Level)
    requires HasInputs(v, level, in0, in1) && OutputsOf(in0, in1, outs) && AllNewer(Elements(f.entries), VersionEntries(v))
    ensures LevelNewer([f], outs)
  {
    InputsInVersion(v, level, in0, in1);
    forall o, e, d | o in outs && e in o.entries && d in f.entries && e.key.user == d.key.user
      ensures d.key.seqno > e.key.seqno
    {
      assert e in FilesEntries(outs) && d in Elements(f.entries);
    }
  }

  /** After the commit the file fits where it was put, unless it was put among the outputs and one of them meets it. */
  lemma StillFits(v: Version, w: Version, v': Version, f: File, fl: nat, level: nat, in0: Level, in1: Level, outs: Level)
    requires VersionOk(v) && FileOk(f) && HasInputs(v, level, in0, in1) && OutputsOf(in0, in1, outs)
    requires FlushStep(v, w, f, fl) && Commits(v, v', level, in0, in1, outs) && AllNewer(Elements(f.entries), VersionEntries(v))
    requires fl == level + 1 ==> LevelClear(outs, f.smallest.user, f.largest.user)
    ensures Fits(v', f, fl)
  {
    FlushFits(v, w, f, fl);
    if level + 1 < fl {
      assert LevelClear(v[level], f.smallest.user, f.largest.user) && LevelClear(v[level + 1], f.smallest.user, f.largest.user);
      OutputsApart(v, f, level, in0, in1, outs);
    }
    NewerThanOutputs(v, f, level, in0, in1, outs);
    FitsLevel(v, v', f, fl, level, in0, in1, outs);
    forall i | 0 <= i < fl
      ensures LevelNewer(v'[i], [f])
    {
      assert LevelNewer(v[i], [f]);
      LevelCommitted(v, v', level, in0, in1, outs, i);
    }
    forall j | fl < j < |v'|
      ensures LevelNewer([f], v'[j])
    {
      assert LevelNewer([f], v[j]);
      LevelCommitted(v, v', level, in0, in1, outs, j);
    }
  }

  lemma LevelCommitted(v: Version, v': Version, level: nat, in0: Level, in1: Level, outs: Level, i: nat)
    requires Commits(v, v', level, in0, in1, outs) && i < |v|
    ensures forall g :: g in v'[i] ==> g in v[i] || (i == level + 1 && g in outs)
  {
  }

  lemma FitsLevel(v: Version, v': Version, f: File, fl: nat, level: nat, in0: Level, in1: Level, outs: Level)
    requires Fits(v, f, fl) && Commits(v, v', level, in0, in1, outs)
    requires fl == level + 1 ==> LevelClear(outs, f.smallest.user, f.largest.user)
    ensures fl == 0 ==> forall g :: g in v'[0] ==> g.number < f.number && FileNewer(f, g)
    ensures fl > 0 ==> LevelClear(v'[fl], f.smallest.user, f.largest.user)
  {
    LevelCommitted(v, v', level, in0, in1, outs, fl);
  }

  /** An output that meets f's range runs past it on both sides: it overlaps f at their level. */
  lemma MeetingOverlaps(v: Version, f: File, level: nat, in0: Level, in1: Level, outs: Level, fs: Level, o: File)
    requires Shaped(v) && FileOk(f) && HasInputs(v, level, in0, in1) && OutputsOf(in0, in1, outs)
    requires LevelClear(v[level], f.smallest.user, f.largest.user) && LevelClear(v[level + 1], f.smallest.user, f.largest.user)
    requires o in outs && Overlaps(o, Some(f.smallest.user), Some(f.largest.user)) && o in fs && f in fs && o != f
    ensures !DisjointRun(fs)
  {
    EndsAmongEntries(outs, o);
    InputEntryApart(v, level, in0, in1, f.smallest.user, f.largest.user, o.entries[0]);
    InputEntryApart(v, level, in0, in1, f.smallest.user, f.largest.user, o.entries[|o.entries| - 1]);
    assert Compare(o.smallest.user, f.smallest.user) < 0 && Compare(f.largest.user, o.largest.user) < 0;
    EntryInRange(f, f.entries[0]);
    assert !Apart(o, f);
    if DisjointRun(fs) {
      RunApart(fs);
    }
  }

  /** A flush during a compaction: once both are committed the version is what the flush makes of the compacted one, and it
      keeps the invariant if and only if the flush did not land among the outputs inside the range of one of them. */
  lemma FlushMidCompaction(v: Version, w: Version, v': Version, w': Version, f: File, fl: nat, level: nat, in0: Level, in1: Level, outs: Level)
    requires VersionOk(v) && VersionOk(v') && SortedBySmallest(v'[0]) && FileOk(f) && Fresh(f, in0, in1, outs)
    requires HasInputs(v, level, in0, in1) && OutputsOf(in0, in1, outs) && AllNewer(Elements(f.entries), VersionEntries(v))
    requires FlushStep(v, w, f, fl) && Commits(v, v', level, in0, in1, outs) && Commits(w, w', level, in0, in1, outs)
    ensures VersionEntries(w') == VersionEntries(v') + Elements(f.entries)
    ensures VersionOk(w') <==> (fl == level + 1 ==> LevelClear(outs, f.smallest.user, f.largest.user))
    ensures VersionOk(w') ==> SortedBySmallest(w'[0])
  {
    FlushFits(v, w, f, fl);
    FlushCommutes(v, w, v', w', f, fl, level, in0, in1, outs);
    AddedEntries(v', w', f, fl);
    if fl == level + 1 && !LevelClear(outs, f.smallest.user, f.largest.user) {
      var o :| o in outs && Overlaps(o, Some(f.smallest.user), Some(f.largest.user));
      assert o in w'[fl] && f in w'[fl];
      MeetingOverlaps(v, f, level, in0, in1, outs, w'[fl], o);
    } else {
      StillFits(v, w, v', f, fl, level, in0, in1, outs);
      FitKeeps(v', w', f, fl);
    }
  }

  // ----- any number of flushes

  /** The versions between the picking of the inputs and the commit, one flush apart, and what committing at each point
      would give. */
  ghost predicate Between(vs: seq<Version>, cs: seq<Version>, fs: seq<File>, ls: seq<nat>, level: nat, in0: Level, in1: Level, outs: Level) {
    && |vs| == |cs| == |fs| + 1 && |ls| == |fs|
    && VersionOk(vs[0]) && SortedBySmallest(vs[0][0]) && HasInputs(vs[0], level, in0, in1) && OutputsOf(in0, in1, outs)
    && (forall i :: 0 <= i < |cs| ==> Commits(vs[i], cs[i], level, in0, in1, outs))
    && forall i {:trigger fs[i]} :: 0 <= i < |fs| ==>
         && FlushStep(vs[i], vs[i + 1], fs[i], ls[i]) && FileOk(fs[i]) && Fresh(fs[i], in0, in1, outs)
         && AllNewer(Elements(fs[i].entries), VersionEntries(vs[i]))
  }

  lemma {:induction false} StillRunning(vs: seq<Version>, cs: seq<Version>, fs: seq<File>, ls: seq<nat>, level: nat, in0: Level, in1: Level, outs: Level, i: nat)
    requires Between(vs, cs, fs, ls, level, in0, in1, outs) && i < |vs|
    ensures VersionOk(vs[i]) && SortedBySmallest(vs[i][0]) && HasInputs(vs[i], level, in0, in1)
  {
    if i > 0 {
      StillRunning(vs, cs, fs, ls, level, in0, in1, outs, i - 1);
      var f := fs[i - 1];
      FlushKeeps(vs[i - 1], vs[i], f, ls[i - 1]);
      assert forall l, g :: 0 <= l < |vs[i]| && g in vs[i - 1][l] ==> g in vs[i][l];
    }
  }

  /** Flush i lands clear of the outputs, or at another level than theirs. */
  ghost predicate LandsClear(fs: seq<File>, ls: seq<nat>, level: nat, outs: Level, i: nat)
    requires i < |fs| == |ls|
  {
    ls[i] == level + 1 ==> LevelClear(outs, fs[i].smallest.user, fs[i].largest.user)
  }

  ghost predicate OkAt(cs: seq<Version>, i: nat)
    requires i < |cs|
  {
    VersionOk(cs[i]) && SortedBySmallest(cs[i][0])
  }

  ghost predicate OkUpTo(cs: seq<Version>, n: nat)
    requires n < |cs|
  {
    forall i {:trigger OkAt(cs, i)} :: 0 <= i <= n ==> OkAt(cs, i)
  }

  ghost predicate AllLandClear(fs: seq<File>, ls: seq<nat>, level: nat, outs: Level, n: nat)
    requires n <= |fs| == |ls|
  {
    forall i {:trigger LandsClear(fs, ls, level, outs, i)} :: 0 <= i < n ==> LandsClear(fs, ls, level, outs, i)
  }

  lemma CommitAfterOneMore(vs: seq<Version>, cs: seq<Version>, fs: seq<File>, ls: seq<nat>, level: nat, in0: Level, in1: Level, outs: Level, i: nat)
    requires Between(vs, cs, fs, ls, level, in0, in1, outs) && i < |fs| && OkAt(cs, i)
    ensures OkAt(cs, i + 1) <==> LandsClear(fs, ls, level, outs, i)
  {
    StillRunning(vs, cs, fs, ls, level, in0, in1, outs, i);
    var f := fs[i];
    assert Commits(vs[i], cs[i], level, in0, in1, outs) && Commits(vs[i + 1], cs[i + 1], level, in0, in1, outs);
    FlushMidCompaction(vs[i], vs[i + 1], cs[i], cs[i + 1], f, ls[i], level, in0, in1, outs);
  }

  /** The commit keeps the invariant after any number of flushes if and only if each landed clear of the outputs. */
  lemma {:induction false} CommitAfterFlushes(vs: seq<Version>, cs: seq<Version>, fs: seq<File>, ls: seq<nat>, level: nat, in0: Level, in1: Level, outs: Level, n: nat)
    requires Between(vs, cs, fs, ls, level, in0, in1, outs) && OkAt(cs, 0) && n <= |fs|
    ensures OkUpTo(cs, n) <==> AllLandClear(fs, ls, level, outs, n)
  {
    if n > 0 {
      CommitAfterFlushes(vs, cs, fs, ls, level, in0, in1, outs, n - 1);
      if OkUpTo(cs, n - 1) {
        assert OkAt(cs, n - 1);
        CommitAfterOneMore(vs, cs, fs, ls, level, in0, in1, outs, n - 1);
      }
      UpToSnoc(cs, n);
      ClearSnoc(fs, ls, level, outs, n);
    }
  }

  lemma UpToSnoc(cs: seq<Version>, n: nat)
    requires 0 < n < |cs|
    ensures OkUpTo(cs, n) <==> OkUpTo(cs, n - 1) && OkAt(cs, n)
  {
  }

  lemma ClearSnoc(fs: seq<File>, ls: seq<nat>, level: nat, outs: Level, n: nat)
    requires 0 < n <= |fs| == |ls|
    ensures AllLandClear(fs, ls, level, outs, n) <==> AllLandClear(fs, ls, level, outs, n - 1) && LandsClear(fs, ls, level, outs, n - 1)
  {
  }

  // ----- what can be known beforehand

  /** Inputs without a gap, as every automatically picked set is, leave no room for a flush between them. */
  lemma GaplessIsSafe(v: Version, w: Version, f: File, level: nat, in0: Level, in1: Level, outs: Level)
    requires Shaped(v) && FileOk(f) && HasInputs(v, level, in0, in1) && OutputsOf(in0, in1, outs) && Gapless(in0 + in1)
    requires FlushStep(v, w, f, level + 1)
    ensures LevelClear(outs, f.smallest.user, f.largest.user)
  {
    forall o | o in outs
      ensures !Overlaps(o, Some(f.smallest.user), Some(f.largest.user))
    {
      if Overlaps(o, Some(f.smallest.user), Some(f.largest.user)) {
        EntryInRange(f, f.entries[0]);
        assert LevelClear(v[level], f.smallest.user, f.largest.user) && LevelClear(v[level + 1], f.smallest.user, f.largest.user);
        GapAround(v, f, level, in0, in1, outs, o);
        CoveredMeets(v, level, in0, in1, f.smallest.user, f.largest.user);
      }
    }
  }

  lemma InputOf(v: Version, level: nat, in0: Level, in1: Level, lo: UserKey, hi: UserKey, e: Entry) returns (a: File)
    requires Shaped(v) && HasInputs(v, level, in0, in1) && e in FilesEntries(in0) + FilesEntries(in1)
    requires LevelClear(v[level], lo, hi) && LevelClear(v[level + 1], lo, hi)
    ensures a in in0 + in1 && Compare(a.smallest.user, e.key.user) <= 0 && Compare(e.key.user, a.largest.user) <= 0
    ensures !Overlaps(a, Some(lo), Some(hi))
  {
    if g :| g in in0 && e in g.entries {
      a := g;
      assert a in v[level];
      EntryInRange(a, e);
    } else {
      a :| a in in1 && e in a.entries;
      assert a in v[level + 1];
      EntryInRange(a, e);
    }
  }

  /** An output around f leaves f's first key in a gap of the inputs. */
  lemma GapAround(v: Version, f: File, level: nat, in0: Level, in1: Level, outs: Level, o: File)
    requires Shaped(v) && FileOk(f) && HasInputs(v, level, in0, in1) && OutputsOf(in0, in1, outs) && Gapless(in0 + in1)
    requires LevelClear(v[level], f.smallest.user, f.largest.user) && LevelClear(v[level + 1], f.smallest.user, f.largest.user)
    requires o in outs && Overlaps(o, Some(f.smallest.user), Some(f.largest.user))
    ensures Covered(in0 + in1, f.smallest.user)
  {
    var lo, hi := f.smallest.user, f.largest.user;
    EndsAmongEntries(outs, o);
    EntryInRange(f, f.entries[0]);
    var a := InputOf(v, level, in0, in1, lo, hi, o.entries[0]);
    var b := InputOf(v, level, in0, in1, lo, hi, o.entries[|o.entries| - 1]);
    AroundRange(a, b, o, lo, hi);
  }

  lemma AroundRange(a: File, b: File, o: File, lo: UserKey, hi: UserKey)
    requires Compare(lo, hi) <= 0 && Overlaps(o, Some(lo), Some(hi)) && !Overlaps(a, Some(lo), Some(hi)) && !Overlaps(b, Some(lo), Some(hi))
    requires Compare(a.smallest.user, o.smallest.user) <= 0 && Compare(o.smallest.user, a.largest.user) <= 0
    requires Compare(b.smallest.user, o.largest.user) <= 0 && Compare(o.largest.user, b.largest.user) <= 0
    ensures Compare(a.largest.user, lo) < 0 && Compare(lo, b.smallest.user) < 0
  {
  }

  lemma CoveredMeets(v: Version, level: nat, in0: Level, in1: Level, lo: UserKey, hi: UserKey)
    requires HasInputs(v, level, in0, in1) && Covered(in0 + in1, lo) && Compare(lo, hi) <= 0
    ensures !(LevelClear(v[level], lo, hi) && LevelClear(v[level + 1], lo, hi))
  {
    var c :| c in in0 + in1 && Compare(c.smallest.user, lo) <= 0 && Compare(lo, c.largest.user) <= 0;
    assert Overlaps(c, Some(lo), Some(hi));
    assert c in v[level] || c in v[level + 1];
  }

  ghost predicate Cutting(outs: Level, kept: seq<Entry>) { Concat(outs) == kept && forall i :: 0 <= i < |outs| ==> Bounded(outs[i]) }

  /** The kept entries lie on both sides of the range. */
  ghost predicate BothSides(kept: seq<Entry>, lo: UserKey, hi: UserKey) {
    (exists e :: e in kept && Compare(e.key.user, lo) < 0) && exists e :: e in kept && Compare(hi, e.key.user) < 0
  }

  ghost predicate AlwaysClear(kept: seq<Entry>, lo: UserKey, hi: UserKey) {
    forall outs :: Cutting(outs, kept) ==> LevelClear(outs, lo, hi)
  }

  /** Before the outputs are cut: a flush between the inputs is safe however they are cut, if and only if the entries the
      compaction keeps are all on one side of it. */
  lemma AnyCuttingIsClear(v: Version, f: File, level: nat, in0: Level, in1: Level, kept: seq<Entry>)
    requires Shaped(v) && FileOk(f) && HasInputs(v, level, in0, in1)
    requires LevelClear(v[level], f.smallest.user, f.largest.user) && LevelClear(v[level + 1], f.smallest.user, f.largest.user)
    requires SortedRun(kept) && AllWellFormed(kept) && Elements(kept) <= FilesEntries(in0) + FilesEntries(in1)
    ensures AlwaysClear(kept, f.smallest.user, f.largest.user) <==> !BothSides(kept, f.smallest.user, f.largest.user)
  {
    var lo, hi := f.smallest.user, f.largest.user;
    EntryInRange(f, f.entries[0]);
    if BothSides(kept, lo, hi) {
      var outs := WholeMeets(kept, lo, hi);
      assert Cutting(outs, kept) && !LevelClear(outs, lo, hi);
    } else {
      forall outs | Cutting(outs, kept)
        ensures LevelClear(outs, lo, hi)
      {
        OneSideIsClear(v, level, in0, in1, kept, outs, lo, hi);
      }
    }
  }

  /** Cut into a single output. */
  lemma WholeMeets(kept: seq<Entry>, lo: UserKey, hi: UserKey) returns (outs: Level)
    requires SortedRun(kept) && BothSides(kept, lo, hi) && Compare(lo, hi) <= 0
    ensures Cutting(outs, kept) && !LevelClear(outs, lo, hi)
  {
    SpansRange(kept, lo, hi);
    var whole := File(0, 0, kept[0].key, kept[|kept| - 1].key, kept);
    OneOutput(kept, whole);
    NotClear(whole, lo, hi);
    outs := [whole];
  }

  lemma NotClear(o: File, lo: UserKey, hi: UserKey)
    requires Compare(o.smallest.user, lo) < 0 && Compare(hi, o.largest.user) < 0 && Compare(lo, hi) <= 0
    ensures !LevelClear([o], lo, hi)
  {
    assert o in [o] && Overlaps(o, Some(lo), Some(hi));
  }

  lemma OneOutput(kept: seq<Entry>, whole: File)
    requires kept != [] && whole == File(0, 0, kept[0].key, kept[|kept| - 1].key, kept)
    ensures Cutting([whole], kept)
  {
    assert [whole][..0] == [];
    assert Concat([whole]) == [] + kept;
  }

  lemma SpansRange(kept: seq<Entry>, lo: UserKey, hi: UserKey)
    requires SortedRun(kept) && BothSides(kept, lo, hi)
    ensures kept != [] && Compare(kept[0].key.user, lo) < 0 && Compare(hi, kept[|kept| - 1].key.user) < 0
  {
    var e :| e in kept && Compare(e.key.user, lo) < 0;
    var d :| d in kept && Compare(hi, d.key.user) < 0;
    BetweenEnds(kept, e);
    BetweenEnds(kept, d);
  }

  lemma BetweenEnds(kept: seq<Entry>, e: Entry)
    requires SortedRun(kept) && e in kept
    ensures Compare(kept[0].key.user, e.key.user) <= 0 && Compare(e.key.user, kept[|kept| - 1].key.user) <= 0
  {
    var i :| 0 <= i < |kept| && kept[i] == e;
    assert i > 0 ==> Precedes(kept[0].key, kept[i].key);
    assert i < |kept| - 1 ==> Precedes(kept[i].key, kept[|kept| - 1].key);
  }

  lemma OneSideIsClear(v: Version, level: nat, in0: Level, in1: Level, kept: seq<Entry>, outs: Level, lo: UserKey, hi: UserKey)
    requires Shaped(v) && HasInputs(v, level, in0, in1) && LevelClear(v[level], lo, hi) && LevelClear(v[level + 1], lo, hi)
    requires SortedRun(kept) && AllWellFormed(kept) && Elements(kept) <= FilesEntries(in0) + FilesEntries(in1)
    requires Cutting(outs, kept) && !BothSides(kept, lo, hi)
    ensures LevelClear(outs, lo, hi)
  {
    CutSorted(outs);
    forall o | o in outs
      ensures !Overlaps(o, Some(lo), Some(hi))
    {
      EndsAmongEntries(outs, o);
      var first, last := o.entries[0], o.entries[|o.entries| - 1];
      assert first in Elements(kept) && last in Elements(kept);
      InputEntryApart(v, level, in0, in1, lo, hi, first);
      InputEntryApart(v, level, in0, in1, lo, hi, last);
      assert first in kept && last in kept;
    }
  }

  // ----- a manual compaction with a gap

  /** Two level-1 files a and z, a file m between them at level 2, and the two files merged into one around it. */
  ghost function Merged(a: Entry, z: Entry): File { File(4, 1, a.key, z.key, [a, z]) }
  ghost function WithFlush(a: Entry, z: Entry, m: Entry): Version { [[], [Single(1, a), Single(2, z)], [Single(3, m)], [], [], [], []] }
  ghost function Compacts(a: Entry, z: Entry): Version { [[], [], [Merged(a, z)], [], [], [], []] }
  ghost function Swallowed(a: Entry, z: Entry, m: Entry): Version { [[], [], [Merged(a, z), Single(3, m)], [], [], [], []] }

  ghost predicate InARow(a: Entry, m: Entry, z: Entry) {
    && Compare(a.key.user, m.key.user) < 0 && Compare(m.key.user, z.key.user) < 0
    && a.key.WellFormed() && m.key.WellFormed() && z.key.WellFormed()
    && a.key.kind == m.key.kind == z.key.kind == TYPE_VALUE
  }

  lemma GapFlushes(a: Entry, m: Entry, z: Entry)
    requires InARow(a, m, z)
    ensures VersionOk(SplitVersion(a, z)) && FlushStep(SplitVersion(a, z), WithFlush(a, z, m), Single(3, m), 2)
  {
    SplitVersionOk(a, z);
    var v, w, f := SplitVersion(a, z), WithFlush(a, z, m), Single(3, m);
    assert v[1] == [Single(1, a), Single(2, z)] && v[0] == v[2] == [];
    assert w[2] == [f];
    assert LevelClear(v[0], m.key.user, m.key.user) && LevelClear(v[1], m.key.user, m.key.user) && LevelClear(v[2], m.key.user, m.key.user);
    assert ClearTo(v, 2, m.key.user, m.key.user);
  }

  lemma GapCommits(a: Entry, m: Entry, z: Entry)
    requires InARow(a, m, z)
    ensures var in0, outs := [Single(1, a), Single(2, z)], [Merged(a, z)];
            && GoodInputs(SplitVersion(a, z), 1, in0, [])
            && Commits(SplitVersion(a, z), Compacts(a, z), 1, in0, [], outs)
            && Commits(WithFlush(a, z, m), Swallowed(a, z, m), 1, in0, [], outs)
  {
    var v, w, v', w', in0, outs := SplitVersion(a, z), WithFlush(a, z, m), Compacts(a, z), Swallowed(a, z, m), [Single(1, a), Single(2, z)], [Merged(a, z)];
    assert v[1] == w[1] == in0 && v'[1] == w'[1] == [] && v[2] == [];
    assert v'[2] == outs && w[2] == [Single(3, m)] && w'[2] == [Merged(a, z), Single(3, m)];
    assert in0[0] in in0;
    assert FileLess(Merged(a, z), Single(3, m));
    assert Installs(w[2], {}, FileSet(outs), w'[2]);
    assert Installs(v[2], {}, FileSet(outs), v'[2]);
  }

  lemma BothKept(v: Version, a: Entry, z: Entry, smallest: SeqNum)
    requires a.key.user != z.key.user && a.key.kind == z.key.kind == TYPE_VALUE
    ensures Kept([a, z], 2, v, 1, smallest) == [a, z]
  {
    assert !Dropped([a, z], 0, v, 1, smallest) && !Dropped([a, z], 1, v, 1, smallest);
    assert Kept([a, z], 0, v, 1, smallest) == [];
    assert Kept([a, z], 1, v, 1, smallest) == [a];
  }

  lemma TwoEntries(a: Entry, z: Entry)
    ensures FilesEntries([Single(1, a), Single(2, z)]) == {a, z} && FilesEntries([]) == {} && Elements([a, z]) == {a, z}
  {
    var in0 := [Single(1, a), Single(2, z)];
    assert in0[0] in in0 && in0[1] in in0 && a in in0[0].entries && z in in0[1].entries;
  }

  lemma GapCompacts(a: Entry, m: Entry, z: Entry, smallest: SeqNum)
    requires InARow(a, m, z)
    ensures Compacted(SplitVersion(a, z), 1, [Single(1, a), Single(2, z)], [], [a, z], smallest, [Merged(a, z)])
  {
    var out := Merged(a, z);
    TwoEntries(a, z);
    assert Precedes(a.key, z.key);
    BothKept(SplitVersion(a, z), a, z, smallest);
    assert [out][..0] == [] && Concat([out]) == [] + [a, z];
  }

  lemma GapCompactsOk(a: Entry, m: Entry, z: Entry)
    requires InARow(a, m, z)
    ensures VersionOk(Compacts(a, z))
  {
    var v', out := Compacts(a, z), Merged(a, z);
    assert Precedes(a.key, z.key);
    assert FileOk(out) && FilesOk([out]) && DisjointRun([out]) && FilesOk([]) && DisjointRun([]);
    assert v'[2] == [out] && forall i :: 0 <= i < |v'| && i != 2 ==> v'[i] == [];
  }

  /** Compacting two separate level-1 files by hand, with a flush that PickLevelForMemTableOutput puts between them at level 2:
      the output swallows the flushed file's range, the binary search stops at the output, and m is lost to readers. */
  lemma GapSwallowsFlush(a: Entry, m: Entry, z: Entry, smallest: SeqNum)
    requires InARow(a, m, z)
    ensures
      var v, w, v', w' := SplitVersion(a, z), WithFlush(a, z, m), Compacts(a, z), Swallowed(a, z, m);
      var in0, outs, k := [Single(1, a), Single(2, z)], [Merged(a, z)], m.key.user;
      && VersionOk(v) && FlushStep(v, w, Single(3, m), 2) && GoodInputs(v, 1, in0, [])
      && Compacted(v, 1, in0, [], [a, z], smallest, outs) && Commits(v, v', 1, in0, [], outs) && VersionOk(v')
      && Commits(w, w', 1, in0, [], outs) && !VersionOk(w')
      && NewestAt(VersionEntries(w'), k, m.key.seqno, m)
      && NoneAt(FilesEntries(w'[0]), k, m.key.seqno) && NoneAt(FilesEntries(w'[1]), k, m.key.seqno)
      && !Before(w'[2][0].largest, LookupKey(k, m.key.seqno)) && NoneAt(Elements(w'[2][0].entries), k, m.key.seqno)
  {
    GapFlushes(a, m, z);
    GapCommits(a, m, z);
    GapCompacts(a, m, z, smallest);
    GapCompactsOk(a, m, z);
    GapLoses(a, m, z);
    var w' := Swallowed(a, z, m);
    assert w'[2] == [Merged(a, z), Single(3, m)];
    assert !Precedes(w'[2][0].largest, w'[2][1].smallest);
  }

  lemma GapLoses(a: Entry, m: Entry, z: Entry)
    requires InARow(a, m, z)
    ensures var w', k := Swallowed(a, z, m), m.key.user;
            && NewestAt(VersionEntries(w'), k, m.key.seqno, m)
            && NoneAt(FilesEntries(w'[0]), k, m.key.seqno) && NoneAt(FilesEntries(w'[1]), k, m.key.seqno)
            && !Before(w'[2][0].largest, LookupKey(k, m.key.seqno)) && NoneAt(Elements(w'[2][0].entries), k, m.key.seqno)
  {
    var w' := Swallowed(a, z, m);
    assert w'[2] == [Merged(a, z), Single(3, m)] && w'[0] == [] && w'[1] == [];
    assert Single(3, m) in w'[2] && m in Single(3, m).entries;
    forall e | e in VersionEntries(w') && e.key.user == m.key.user
      ensures e == m
    {
      var i: nat, f: File :| 0 <= i < |w'| && f in w'[i] && e in f.entries;
      assert i == 2;
    }
  }
}

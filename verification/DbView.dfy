/** The iterator stack over the engine: DBIter over the merging iterator over the memtables, the level-0 tables and one
    concatenating iterator per deeper level. It enumerates the snapshot's map, in key order. */
module DbView {
  import opened Keys
  import opened Meaning
  import opened Versions
  import Cursor
  import Merger
  import TwoLevel
  import DbIter
  import Engine

  // ----- one level as a two-level iterator

  function Blocks(fs: Level): (r: seq<seq<Entry>>)
    ensures |r| == |fs| && forall i :: 0 <= i < |fs| ==> r[i] == fs[i].entries
  {
    seq(|fs|, i requires 0 <= i < |fs| => fs[i].entries)
  }

  /** LevelFileNumIterator: a file's index key is its largest key. */
  function LevelKeys(fs: Level): (r: seq<Entry>)
    ensures |r| == |fs| && forall i :: 0 <= i < |fs| ==> r[i] == Entry(fs[i].largest, [])
  {
    seq(|fs|, i requires 0 <= i < |fs| => Entry(fs[i].largest, []))
  }

  function RunOf(fs: Level): seq<Entry> { TwoLevel.All(Blocks(fs)) }

  lemma AcrossFiles(fs: Level, i: nat, j: nat, e: Entry, d: Entry)
    requires FilesOk(fs) && DisjointRun(fs) && i < j < |fs| && e in fs[i].entries && d in fs[j].entries
    ensures Precedes(e.key, d.key) && Before(fs[i].largest, d.key)
  {
    EntryInRange(fs[i], e);
    EntryInRange(fs[j], d);
    assert Precedes(fs[i].largest, fs[j].smallest);
    if e.key.user == d.key.user {
      BoundaryNewer(fs, i, j, e, d);
    }
  }

  /** Which entry of which file position x of the level is. */
  lemma LocateEntry(fs: Level, x: nat) returns (i: nat, p: nat)
    requires x < |RunOf(fs)|
    ensures i < |fs| && p < |fs[i].entries| && x == TwoLevel.Offset(Blocks(fs), i) + p && RunOf(fs)[x] == fs[i].entries[p]
  {
    var blocks := Blocks(fs);
    i, p := TwoLevel.Locate(blocks, |blocks|, x);
    TwoLevel.AllAt(blocks, i, p);
  }

  lemma LaterIsRight(fs: Level, i: nat, p: nat, j: nat, q: nat)
    requires i < |fs| && p < |fs[i].entries| && j < |fs| && q < |fs[j].entries|
    requires TwoLevel.Offset(Blocks(fs), i) + p < TwoLevel.Offset(Blocks(fs), j) + q
    ensures i < j || (i == j && p < q)
  {
    if j < i {
      TwoLevel.OffsetGrows(Blocks(fs), j + 1, i);
    }
  }

  lemma RunOrder(fs: Level, x: nat, y: nat)
    requires FilesOk(fs) && DisjointRun(fs) && x < y < |RunOf(fs)|
    ensures Precedes(RunOf(fs)[x].key, RunOf(fs)[y].key)
  {
    var i, p := LocateEntry(fs, x);
    var j, q := LocateEntry(fs, y);
    LaterIsRight(fs, i, p, j, q);
    FilesInOrder(fs, i, p, j, q);
  }

  lemma FilesInOrder(fs: Level, i: nat, p: nat, j: nat, q: nat)
    requires FilesOk(fs) && DisjointRun(fs) && i < |fs| && p < |fs[i].entries| && j < |fs| && q < |fs[j].entries|
    requires i < j || (i == j && p < q)
    ensures Precedes(fs[i].entries[p].key, fs[j].entries[q].key)
  {
    if i == j {
      assert SortedRun(fs[i].entries);
    } else {
      AcrossFiles(fs, i, j, fs[i].entries[p], fs[j].entries[q]);
    }
  }

  lemma RunElements(fs: Level)
    ensures Elements(RunOf(fs)) == FilesEntries(fs)
  {
    var blocks := Blocks(fs);
    forall e | e in RunOf(fs)
      ensures e in FilesEntries(fs)
    {
      var x :| 0 <= x < |RunOf(fs)| && RunOf(fs)[x] == e;
      var i, p := LocateEntry(fs, x);
      assert fs[i] in fs && e in fs[i].entries;
    }
    forall e | e in FilesEntries(fs)
      ensures e in RunOf(fs)
    {
      var f :| f in fs && e in f.entries;
      var i :| 0 <= i < |fs| && fs[i] == f;
      var p :| 0 <= p < |f.entries| && f.entries[p] == e;
      TwoLevel.AllAt(blocks, i, p);
    }
  }

  lemma RunWellFormed(fs: Level)
    requires FilesOk(fs)
    ensures forall e :: e in FilesEntries(fs) ==> e.key.WellFormed()
  {
  }

  /** The concatenating iterator of a level: its index fits its files, and what it walks is the level's entries in order. */
  lemma LevelIsIndexed(fs: Level)
    requires FilesOk(fs) && DisjointRun(fs)
    ensures TwoLevel.Indexed(LevelKeys(fs), Blocks(fs))
    ensures SortedRun(RunOf(fs)) && AllWellFormed(RunOf(fs)) && Elements(RunOf(fs)) == FilesEntries(fs)
  {
    var keys, blocks := LevelKeys(fs), Blocks(fs);
    forall x, y | 0 <= x < y < |RunOf(fs)|
      ensures Precedes(RunOf(fs)[x].key, RunOf(fs)[y].key)
    {
      RunOrder(fs, x, y);
    }
    RunElements(fs);
    RunWellFormed(fs);
    assert forall e :: e in RunOf(fs) ==> e in Elements(RunOf(fs));
    LargestIncreasing(fs);
    forall b | 0 <= b < |blocks|
      ensures TwoLevel.Divides(keys, blocks, b)
    {
      LevelDivides(fs, b);
    }
  }

  lemma LevelDivides(fs: Level, b: nat)
    requires FilesOk(fs) && DisjointRun(fs) && b < |fs|
    ensures TwoLevel.Divides(LevelKeys(fs), Blocks(fs), b)
  {
    var blocks: seq<seq<Entry>> := Blocks(fs);
    forall p | 0 <= p < |blocks[b]|
      ensures !Before(fs[b].largest, blocks[b][p].key)
    {
      EntryInRange(fs[b], blocks[b][p]);
    }
    forall d, p | b < d < |blocks| && 0 <= p < |blocks[d]|
      ensures Before(fs[b].largest, blocks[d][p].key)
    {
      AcrossFiles(fs, b, d, fs[b].entries[0], blocks[d][p]);
    }
  }

  // ----- the children of the merging iterator

  ghost function Entries(lists: seq<seq<Entry>>): set<Entry> { set i, e | 0 <= i < |lists| && e in lists[i] :: e }

  /** Sorted lists that have no key in common. */
  ghost predicate Family(lists: seq<seq<Entry>>) {
    && (forall i :: 0 <= i < |lists| ==> SortedRun(lists[i]) && AllWellFormed(lists[i]))
    && Merger.Disjoint(lists)
  }

  lemma NewerIsApart(l: seq<Entry>, r: seq<Entry>)
    requires AllNewer(Elements(l), Elements(r)) || AllNewer(Elements(r), Elements(l))
    ensures Merger.Apart(l, r)
  {
    forall a, b | 0 <= a < |l| && 0 <= b < |r|
      ensures l[a].key != r[b].key
    {
      assert l[a] in Elements(l) && r[b] in Elements(r);
    }
  }

  lemma ListIn(lists: seq<seq<Entry>>, i: nat)
    requires i < |lists|
    ensures Elements(lists[i]) <= Entries(lists)
  {
    forall e | e in Elements(lists[i])
      ensures e in Entries(lists)
    {
      assert e in lists[i];
    }
  }

  lemma FamilyConcat(a: seq<seq<Entry>>, b: seq<seq<Entry>>)
    requires Family(a) && Family(b) && AllNewer(Entries(a), Entries(b))
    ensures Family(a + b) && Entries(a + b) == Entries(a) + Entries(b)
  {
    var all := a + b;
    forall i, j | 0 <= i < j < |all|
      ensures Merger.Apart(all[i], all[j])
    {
      if j < |a| {
        assert Merger.Apart(a[i], a[j]);
      } else if i >= |a| {
        assert Merger.Apart(b[i - |a|], b[j - |a|]);
      } else {
        ListIn(a, i);
        ListIn(b, j - |a|);
        NewerIsApart(a[i], b[j - |a|]);
      }
    }
    EntriesConcat(a, b);
  }

  lemma EntriesConcat(a: seq<seq<Entry>>, b: seq<seq<Entry>>)
    ensures Entries(a + b) == Entries(a) + Entries(b)
  {
    forall e | e in Entries(a) + Entries(b)
      ensures e in Entries(a + b)
    {
      if e in Entries(a) {
        var i :| 0 <= i < |a| && e in a[i];
        assert (a + b)[i] == a[i];
      } else {
        var i :| 0 <= i < |b| && e in b[i];
        assert (a + b)[|a| + i] == b[i];
      }
    }
    forall e | e in Entries(a + b)
      ensures e in Entries(a) + Entries(b)
    {
      var i :| 0 <= i < |a + b| && e in (a + b)[i];
      assert if i < |a| then (a + b)[i] == a[i] else (a + b)[i] == b[i - |a|];
    }
  }

  lemma OneList(l: seq<Entry>)
    requires SortedRun(l) && AllWellFormed(l)
    ensures Family([l]) && Entries([l]) == Elements(l)
  {
    assert [l][0] == l;
  }

  /** Version::AddIterators, the levels from l on: one child for each level that has files. */
  function Deeper(v: Version, l: nat): seq<seq<Entry>>
    decreases |v| - l
  {
    if l >= |v| then [] else (if v[l] == [] then [] else [RunOf(v[l])]) + Deeper(v, l + 1)
  }

  lemma {:induction false} DeeperIsFamily(v: Version, l: nat)
    requires VersionOk(v) && 1 <= l <= |v|
    ensures FamilyOf(Deeper(v, l), EntriesFrom(v, l))
    decreases |v| - l
  {
    if l == |v| {
      assert EntriesFrom(v, l) == {};
    } else {
      DeeperIsFamily(v, l + 1);
      DeeperStep(v, l, Deeper(v, l + 1), EntriesFrom(v, l + 1));
    }
  }

  lemma {:induction false} DeeperStep(v: Version, l: nat, rest: seq<seq<Entry>>, es: set<Entry>)
    requires VersionOk(v) && 1 <= l < |v| && FamilyOf(rest, es) && rest == Deeper(v, l + 1) && es == EntriesFrom(v, l + 1)
    ensures FamilyOf(Deeper(v, l), EntriesFrom(v, l))
  {
    EntriesFromStep(v, l);
    LevelJoins(v[l], rest, es, Deeper(v, l), EntriesFrom(v, l));
  }

  ghost predicate FamilyOf(lists: seq<seq<Entry>>, es: set<Entry>) { Family(lists) && Entries(lists) == es }

  lemma LevelJoins(fs: Level, rest: seq<seq<Entry>>, es: set<Entry>, all: seq<seq<Entry>>, sum: set<Entry>)
    requires FilesOk(fs) && DisjointRun(fs) && FamilyOf(rest, es) && AllNewer(FilesEntries(fs), es)
    requires all == (if fs == [] then [] else [RunOf(fs)]) + rest && sum == FilesEntries(fs) + es
    ensures FamilyOf(all, sum)
  {
    if fs == [] {
      assert FilesEntries(fs) == {} && [] + rest == rest;
    } else {
      LevelIsIndexed(fs);
      OneList(RunOf(fs));
      FamilyConcat([RunOf(fs)], rest);
    }
  }

  /** Level 0: one child per table. */
  lemma TablesAreFamily(fs: Level)
    requires FilesOk(fs) && DistinctNumbers(fs) && NewerByNumber(fs)
    ensures Family(Blocks(fs)) && Entries(Blocks(fs)) == FilesEntries(fs)
  {
    var lists := Blocks(fs);
    forall i, j | 0 <= i < j < |lists|
      ensures Merger.Apart(lists[i], lists[j])
    {
      FilesToSets(fs[i], fs[j]);
      FilesToSets(fs[j], fs[i]);
      NewerIsApart(lists[i], lists[j]);
    }
    forall e | e in FilesEntries(fs)
      ensures e in Entries(lists)
    {
      var f :| f in fs && e in f.entries;
      var i :| 0 <= i < |fs| && fs[i] == f;
      assert e in lists[i];
    }
    forall e | e in Entries(lists)
      ensures e in FilesEntries(fs)
    {
      var i :| 0 <= i < |lists| && e in lists[i];
      assert fs[i] in fs;
    }
  }

  lemma FilesToSets(f: File, g: File)
    ensures FileNewer(f, g) ==> AllNewer(Elements(f.entries), Elements(g.entries))
  {
  }

  /** NewInternalIterator: memtable, immutable memtable, and the version's. */
  function Children(st: Engine.State): seq<seq<Entry>>
    requires |st.version| > 0
  {
    [st.mem] + ((if st.imm.Some? then [st.imm.value] else []) + (Blocks(st.version[0]) + Deeper(st.version, 1)))
  }

  lemma ChildrenAreFamily(st: Engine.State)
    requires Engine.Inv(st)
    ensures Family(Children(st)) && Entries(Children(st)) == Engine.Contents(st)
  {
    var tables := Blocks(st.version[0]) + Deeper(st.version, 1);
    VersionIsFamily(st.version);
    MemTablesJoin(st, tables);
  }

  lemma VersionIsFamily(v: Version)
    requires VersionOk(v)
    ensures Family(Blocks(v[0]) + Deeper(v, 1)) && Entries(Blocks(v[0]) + Deeper(v, 1)) == VersionEntries(v)
  {
    TablesAreFamily(v[0]);
    DeeperIsFamily(v, 1);
    EntriesFromStep(v, 0);
    FamilyConcat(Blocks(v[0]), Deeper(v, 1));
  }

  lemma MemTablesJoin(st: Engine.State, tables: seq<seq<Entry>>)
    requires Engine.MemTablesOk(st) && Family(tables) && Entries(tables) == VersionEntries(st.version)
    ensures var all := [st.mem] + ((if st.imm.Some? then [st.imm.value] else []) + tables);
            Family(all) && Entries(all) == Engine.Contents(st)
  {
    var imm: seq<seq<Entry>> := if st.imm.Some? then [st.imm.value] else [];
    if st.imm.Some? {
      OneList(st.imm.value);
    } else {
      assert Entries(imm) == {};
    }
    FamilyConcat(imm, tables);
    OneList(st.mem);
    FamilyConcat([st.mem], imm + tables);
  }

  // ----- the merge is one sorted run of the engine's contents

  lemma MergeElements(lists: seq<seq<Entry>>, m: seq<Entry>)
    requires Merger.IsMerge(lists, m)
    ensures Elements(m) == Entries(lists)
  {
    forall e | e in Entries(lists)
      ensures e in m
    {
      var i :| 0 <= i < |lists| && e in lists[i];
      assert Merger.Sorted(lists[i], m);
      var a :| 0 <= a < |lists[i]| && lists[i][a] == e;
    }
    forall e | e in m
      ensures e in Entries(lists)
    {
      var c :| 0 <= c < |m| && m[c] == e;
      assert Merger.Covered(lists, m[c]);
    }
  }

  lemma UniqueSorts(m: seq<Entry>)
    requires Ordered(m) && Unique(Elements(m)) && AllWellFormed(m)
    ensures SortedRun(m)
  {
    forall i, j | 0 <= i < j < |m|
      ensures Precedes(m[i].key, m[j].key)
    {
      assert Before(m[i].key, m[j].key) && m[i] in Elements(m) && m[j] in Elements(m);
    }
  }

  lemma FamilyWellFormed(lists: seq<seq<Entry>>, e: Entry)
    requires Family(lists) && e in Entries(lists)
    ensures e.key.WellFormed()
  {
  }

  /** Whatever the merging iterator walks, it is the engine's contents as one sorted run. */
  lemma MergeIsContents(st: Engine.State, m: seq<Entry>)
    requires Engine.Inv(st) && Merger.IsMerge(Children(st), m)
    ensures SortedRun(m) && AllWellFormed(m) && Elements(m) == Engine.Contents(st)
  {
    ChildrenAreFamily(st);
    MergeElements(Children(st), m);
    forall e | e in m
      ensures e.key.WellFormed()
    {
      assert e in Elements(m);
      FamilyWellFormed(Children(st), e);
    }
    UniqueSorts(m);
  }

  /** The live positions of the stack at a snapshot: every key the history shows there, once, with its value. */
  lemma StackShowsSnapshot(st: Engine.State, m: seq<Entry>, s: SeqNum, k: UserKey)
    requires Engine.Inv(st) && Merger.IsMerge(Children(st), m) && st.floor <= s
    ensures forall i :: DbIter.Live(m, s, i) && m[i].key.user == k ==> Lookup(st.history, k, s) == Some(m[i].value)
    ensures Lookup(st.history, k, s).Some? ==> exists i :: DbIter.Live(m, s, i) && m[i].key.user == k
  {
    MergeIsContents(st, m);
    DbIter.LiveIsLookup(m, s, k);
    assert Lookup(Engine.Contents(st), k, s) == Lookup(st.history, k, s);
  }

  // ----- a full scan

  /** NewInternalIterator walked from the front. */
  method Walk(lists: seq<seq<Entry>>, ghost m: seq<Entry>) returns (es: seq<Entry>)
    requires Merger.IsMerge(lists, m)
    ensures es == m
  {
    var it := new Merger.MergingIterator(lists, m);
    it.SeekToFirst();
    es := [];
    while it.current.Some?
      invariant it.Valid() && fresh(it) && it.merge == m && Walked(m, es, it.cursor)
      decreases |m| - |es|
    {
      var e := it.Current();
      OneFurther(m, es, e, it.cursor);
      es := es + [e];
      it.Next();
    }
    WalkedAll(m, es);
  }

  /** es is what lies before the cursor; a cursor nowhere is past the end. */
  ghost predicate Walked(m: seq<Entry>, es: seq<Entry>, c: Option<nat>) {
    |es| <= |m| && es == m[..|es|] && c == Cursor.At(m, |es|)
  }

  lemma WalkedAll(m: seq<Entry>, es: seq<Entry>)
    requires Walked(m, es, None)
    ensures es == m
  {
  }

  lemma OneFurther(m: seq<Entry>, es: seq<Entry>, e: Entry, c: Option<nat>)
    requires Walked(m, es, c) && c.Some? && e == m[c.value]
    ensures Walked(m, es + [e], Cursor.Moved(m, Cursor.Next, c))
  {
    assert es + [e] == m[..|es| + 1];
  }

  /** The pairs are the live entries of es before position p, in order. */
  ghost predicate ShownUpTo(es: seq<Entry>, s: SeqNum, pairs: seq<(UserKey, Value)>, p: nat) {
    && p <= |es|
    && (forall i, j :: 0 <= i < j < |pairs| ==> Compare(pairs[i].0, pairs[j].0) < 0)
    && (forall i {:trigger pairs[i]} :: 0 <= i < |pairs| ==> ShownAt(es, s, pairs[i], p))
    && forall c {:trigger DbIter.Live(es, s, c)} :: 0 <= c < p && DbIter.Live(es, s, c) ==> (es[c].key.user, es[c].value) in pairs
  }

  ghost predicate ShownAt(es: seq<Entry>, s: SeqNum, pair: (UserKey, Value), p: nat) {
    exists c :: 0 <= c < p && DbIter.Live(es, s, c) && pair == (es[c].key.user, es[c].value)
  }

  lemma ShowNext(es: seq<Entry>, s: SeqNum, pairs: seq<(UserKey, Value)>, p: nat, c: nat)
    requires Ordered(es) && ShownUpTo(es, s, pairs, p) && p <= c && DbIter.Live(es, s, c) && DbIter.NextLive(es, s, p) == c
    ensures ShownUpTo(es, s, pairs + [(es[c].key.user, es[c].value)], c + 1)
  {
    var pair := (es[c].key.user, es[c].value);
    var pairs' := pairs + [pair];
    forall i | 0 <= i < |pairs|
      ensures Compare(pairs[i].0, pair.0) < 0 && ShownAt(es, s, pairs[i], c + 1)
    {
      assert ShownAt(es, s, pairs[i], p);
      var b :| 0 <= b < p && DbIter.Live(es, s, b) && pairs[i] == (es[b].key.user, es[b].value);
      DbIter.LiveKeysIncrease(es, s, b, c);
      assert 0 <= b < c + 1;
    }
    assert ShownAt(es, s, pair, c + 1);
    assert pairs'[|pairs|] == pair;
    forall b | 0 <= b < c + 1 && DbIter.Live(es, s, b)
      ensures (es[b].key.user, es[b].value) in pairs'
    {
      if b < p {
        assert (es[b].key.user, es[b].value) in pairs;
      }
    }
  }

  lemma ShowEnd(es: seq<Entry>, s: SeqNum, pairs: seq<(UserKey, Value)>, p: nat)
    requires ShownUpTo(es, s, pairs, p) && DbIter.NextLive(es, s, p) == |es|
    ensures ShownUpTo(es, s, pairs, |es|)
  {
    forall i | 0 <= i < |pairs|
      ensures ShownAt(es, s, pairs[i], |es|)
    {
      assert ShownAt(es, s, pairs[i], p);
      var b :| 0 <= b < p && DbIter.Live(es, s, b) && pairs[i] == (es[b].key.user, es[b].value);
      assert 0 <= b < |es|;
    }
  }

  ghost predicate AtNextLive(es: seq<Entry>, s: SeqNum, p: nat, c: Option<nat>) {
    p <= |es| && c == var n := DbIter.NextLive(es, s, p); if n < |es| then Some(n) else None
  }

  ghost predicate Shown(es: seq<Entry>, s: SeqNum, pairs: seq<(UserKey, Value)>, p: nat) { ShownUpTo(es, s, pairs, p) }

  /** What has been shown is what lies before p, and the iterator is at the next live position. */
  ghost predicate Scanned(es: seq<Entry>, s: SeqNum, pairs: seq<(UserKey, Value)>, p: nat, c: Option<nat>) {
    Shown(es, s, pairs, p) && AtNextLive(es, s, p, c)
  }

  lemma ScanStep(es: seq<Entry>, s: SeqNum, pairs: seq<(UserKey, Value)>, p: nat, c: nat, pair: (UserKey, Value))
    requires Ordered(es) && Scanned(es, s, pairs, p, Some(c)) && c < |es| && pair == (es[c].key.user, es[c].value)
    ensures Scanned(es, s, pairs + [pair], c + 1, DbIter.Moved(es, s, DbIter.Next, Some(c))) && p <= c
  {
    ShowNext(es, s, pairs, p, c);
  }

  lemma ScanStart(es: seq<Entry>, s: SeqNum)
    ensures Scanned(es, s, [], 0, DbIter.Moved(es, s, DbIter.First, None))
  {
  }

  /** Take the pair at the iterator and move on. */
  method ShowOne(it: DbIter.DBIter, ghost pairs: seq<(UserKey, Value)>, ghost p: nat) returns (pair: (UserKey, Value), ghost q: nat)
    requires it.Ok() && it.valid && Scanned(it.es, it.sequence, pairs, p, it.Cursor())
    modifies it
    ensures it.Ok() && p < q <= |it.es| && Scanned(it.es, it.sequence, pairs + [pair], q, it.Cursor())
  {
    var key, value := it.Current();
    pair, q := (key, value), it.cur + 1;
    ScanStep(it.es, it.sequence, pairs, p, it.cur, pair);
    it.Next();
  }

  /** DBIter from SeekToFirst to the end. */
  method ScanRun(es: seq<Entry>, s: SeqNum) returns (pairs: seq<(UserKey, Value)>)
    requires Ordered(es)
    ensures ShownUpTo(es, s, pairs, |es|)
  {
    var it := new DbIter.DBIter(es, s);
    it.SeekToFirst();
    pairs := [];
    ghost var p: nat := 0;
    ScanStart(es, s);
    while it.valid
      invariant it.Ok() && fresh(it) && it.es == es && it.sequence == s && p <= |es| && Scanned(es, s, pairs, p, it.Cursor())
      decreases |es| - p
    {
      var pair;
      pair, p := ShowOne(it, pairs, p);
      pairs := pairs + [pair];
    }
    ShowEnd(es, s, pairs, p);
  }

  /** A scan of the database at a snapshot: exactly the pairs the history of writes shows there, in strictly increasing key
      order. */
  method Scan(st: Engine.State, s: SeqNum) returns (pairs: seq<(UserKey, Value)>)
    requires Engine.Inv(st) && st.floor <= s
    ensures forall i, j :: 0 <= i < j < |pairs| ==> Compare(pairs[i].0, pairs[j].0) < 0
    ensures forall k, value :: (k, value) in pairs <==> Lookup(st.history, k, s) == Some(value)
  {
    ChildrenAreFamily(st);
    FamilyOrdered(Children(st));
    ghost var m := Merger.MergeExists(Children(st));
    MergeIsContents(st, m);
    var es := Walk(Children(st), m);
    pairs := ScanRun(es, s);
    forall k, value
      ensures (k, value) in pairs <==> Lookup(st.history, k, s) == Some(value)
    {
      ShownIsLookup(st, es, s, pairs, k, value);
    }
  }

  lemma FamilyOrdered(lists: seq<seq<Entry>>)
    requires Family(lists)
    ensures Merger.AllOrdered(lists) && Merger.Disjoint(lists)
  {
  }

  lemma ShownIsLookup(st: Engine.State, es: seq<Entry>, s: SeqNum, pairs: seq<(UserKey, Value)>, k: UserKey, value: Value)
    requires Engine.Inv(st) && Merger.IsMerge(Children(st), es) && st.floor <= s && ShownUpTo(es, s, pairs, |es|)
    ensures (k, value) in pairs <==> Lookup(st.history, k, s) == Some(value)
  {
    StackShowsSnapshot(st, es, s, k);
    if (k, value) in pairs {
      var i :| 0 <= i < |pairs| && pairs[i] == (k, value);
      assert ShownAt(es, s, pairs[i], |es|);
    }
    if Lookup(st.history, k, s) == Some(value) {
      var i :| DbIter.Live(es, s, i) && es[i].key.user == k;
      assert (es[i].key.user, es[i].value) in pairs;
    }
  }
}

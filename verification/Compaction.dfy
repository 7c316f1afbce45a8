/** The compaction loop: which entries it drops, and why no reader can tell. */
module Compaction {
  import opened Keys
  import opened Meaning
  import opened Versions
  import opened Inputs

  // ----- IsBaseLevelForKey

  predicate KeyInFile(f: File, k: UserKey) {
    Compare(k, f.smallest.user) >= 0 && Compare(k, f.largest.user) <= 0
  }

  /** Full scan: no file two or more levels down has k in its user-key range. */
  ghost predicate IsBase(v: Version, level: nat, k: UserKey) {
    forall l, f :: level + 2 <= l < |v| && f in v[l] ==> !KeyInFile(f, k)
  }

  /** The cursors of a running compaction over the levels below its output. */
  class Cursors {
    const v: Version
    const level: nat
    var ptrs: seq<nat>

    ghost predicate Valid()
      reads this
    {
      Shaped(v) && |ptrs| == NUM_LEVELS && forall l :: 0 <= l < |ptrs| ==> ptrs[l] <= |v[l]|
    }

    /** Every file a cursor has passed ends before k. */
    ghost predicate Behind(k: UserKey)
      requires Valid()
      reads this
    {
      forall l, j :: 0 <= l < |v| && 0 <= j < ptrs[l] ==> Compare(k, v[l][j].largest.user) > 0
    }

    constructor (v: Version, level: nat)
      requires Shaped(v)
      ensures this.v == v && this.level == level && Valid() && forall k :: Behind(k)
    {
      this.v, this.level := v, level;
      ptrs := [0, 0, 0, 0, 0, 0, 0];
    }

    /** One level of IsBaseLevelForKey: advance the cursor to the first file ending at or past k. */
    method Advance(l: nat, k: UserKey) returns (hit: bool)
      requires Valid() && Behind(k) && 1 <= l < NUM_LEVELS
      modifies this
      ensures Valid() && Behind(k)
      ensures hit <==> exists f :: f in v[l] && KeyInFile(f, k)
    {
      var files := v[l];
      var p := ptrs[l];
      while p < |files| && Compare(k, files[p].largest.user) > 0
        invariant ptrs[l] <= p <= |files|
        invariant forall j :: 0 <= j < p ==> Compare(k, files[j].largest.user) > 0
      {
        p := p + 1;
      }
      hit := p < |files| && Compare(k, files[p].smallest.user) >= 0;
      ptrs := ptrs[l := p];
      CursorFinds(files, p, k);
    }

    /** IsBaseLevelForKey with monotone cursors equals the full scan, as long as the keys asked for
        do not decrease. */
    method IsBaseLevelForKey(k: UserKey) returns (base: bool)
      requires Valid() && Behind(k)
      modifies this
      ensures Valid() && Behind(k)
      ensures base <==> forall l, f :: level + 2 <= l < NUM_LEVELS && f in v[l] ==>
                          Compare(k, f.smallest.user) < 0 || Compare(f.largest.user, k) < 0
    {
      BaseIs(v, level, k);
      var l := level + 2;
      while l < NUM_LEVELS
        invariant level + 2 <= l
        invariant Valid() && Behind(k)
        invariant forall m, f :: level + 2 <= m < l && m < |v| && f in v[m] ==> !KeyInFile(f, k)
      {
        var hit := Advance(l, k);
        if hit {
          return false;
        }
        l := l + 1;
      }
      return true;
    }
  }

  lemma BaseIs(v: Version, level: nat, k: UserKey)
    requires |v| == NUM_LEVELS
    ensures IsBase(v, level, k) <==> forall l, f :: level + 2 <= l < NUM_LEVELS && f in v[l] ==>
                                       Compare(k, f.smallest.user) < 0 || Compare(f.largest.user, k) < 0
  {
    assert forall l, f :: level + 2 <= l < |v| && f in v[l] ==>
        (KeyInFile(f, k) <==> !(Compare(k, f.smallest.user) < 0 || Compare(f.largest.user, k) < 0));
  }

  lemma CursorFinds(files: Level, p: nat, k: UserKey)
    requires FilesOk(files) && DisjointRun(files) && p <= |files|
    requires forall j :: 0 <= j < p ==> Compare(k, files[j].largest.user) > 0
    requires p < |files| ==> Compare(k, files[p].largest.user) <= 0
    ensures (p < |files| && Compare(k, files[p].smallest.user) >= 0) <==> exists f :: f in files && KeyInFile(f, k)
  {
    if p < |files| {
      assert files[p] in files;
      LaterFilesStartLater(files, p);
    }
    forall f | f in files && KeyInFile(f, k)
      ensures p < |files| && Compare(k, files[p].smallest.user) >= 0
    {
      var j :| 0 <= j < |files| && files[j] == f;
      assert j >= p;
    }
  }

  // ----- the drop rule

  /** Rule (A): a newer entry for the same user key that every live snapshot sees comes just before. */
  predicate Hidden(stream: seq<Entry>, i: nat, smallest: SeqNum)
    requires i < |stream|
  {
    i > 0 && stream[i - 1].key.WellFormed() && stream[i - 1].key.user == stream[i].key.user
    && stream[i - 1].key.seqno <= smallest
  }

  /** A deletion marker every live snapshot sees, with nothing below it to hide. */
  ghost predicate Obsolete(e: Entry, v: Version, level: nat, smallest: SeqNum) {
    e.key.kind == TYPE_DELETION && e.key.seqno <= smallest && IsBase(v, level, e.key.user)
  }

  ghost predicate Dropped(stream: seq<Entry>, i: nat, v: Version, level: nat, smallest: SeqNum)
    requires i < |stream|
  {
    stream[i].key.WellFormed() && (Hidden(stream, i, smallest) || Obsolete(stream[i], v, level, smallest))
  }

  ghost function Kept(stream: seq<Entry>, n: nat, v: Version, level: nat, smallest: SeqNum): seq<Entry>
    requires n <= |stream|
  {
    if n == 0 then []
    else Kept(stream, n - 1, v, level, smallest)
         + if Dropped(stream, n - 1, v, level, smallest) then [] else [stream[n - 1]]
  }

  ghost function Concat(fs: Level): seq<Entry> {
    if fs == [] then [] else Concat(fs[..|fs| - 1]) + fs[|fs| - 1].entries
  }

  /** An output table as the loop leaves it. */
  ghost predicate Bounded(f: File) {
    f.entries != [] && f.smallest == f.entries[0].key && f.largest == f.entries[|f.entries| - 1].key
  }

  ghost predicate Outputs(fs: Level, first: nat) {
    forall i :: 0 <= i < |fs| ==> Bounded(fs[i]) && fs[i].number == first + i
  }

  /** FinishCompactionOutputFile: close the table being built. Numbers come from NewFileNumber. */
  method CutOutput(outputs: Level, building: seq<Entry>, first: nat, sizeOf: seq<Entry> -> nat) returns (r: Level)
    requires building != [] && Outputs(outputs, first)
    ensures Concat(r) == Concat(outputs) + building
    ensures Outputs(r, first)
  {
    r := outputs + [File(first + |outputs|, sizeOf(building), building[0].key, building[|building| - 1].key, building)];
    assert r[..|r| - 1] == outputs;
  }

  /** Add an entry to the table being built, and close the table once it is big enough. */
  method AddEntry(outputs: Level, building: seq<Entry>, e: Entry, first: nat, full: seq<Entry> -> bool, sizeOf: seq<Entry> -> nat)
    returns (outputs': Level, building': seq<Entry>)
    requires Outputs(outputs, first)
    ensures Concat(outputs') + building' == Concat(outputs) + building + [e]
    ensures Outputs(outputs', first)
  {
    outputs', building' := outputs, building + [e];
    if full(building') {
      outputs' := CutOutput(outputs', building', first, sizeOf);
      building' := [];
    }
  }

  /** What the loop remembers about the entry it saw last. */
  ghost predicate Remembers(stream: seq<Entry>, i: nat, cur: UserKey, has: bool, last: SeqNum)
    requires i <= |stream|
  {
    && (has <==> i > 0 && stream[i - 1].key.WellFormed())
    && (has ==> cur == stream[i - 1].key.user && last == stream[i - 1].key.seqno)
    && (!has ==> last == MAX_SEQUENCE)
  }

  /** The body of the loop up to the decision to drop. */
  method DecideDrop(c: Cursors, stream: seq<Entry>, i: nat, smallest: SeqNum, cur: UserKey, has: bool, last: SeqNum)
    returns (drop: bool, cur': UserKey, has': bool, last': SeqNum)
    requires i < |stream| && smallest < MAX_SEQUENCE && Remembers(stream, i, cur, has, last)
    requires c.Valid() && c.Behind(stream[i].key.user)
    modifies c
    ensures c.Valid() && c.Behind(stream[i].key.user)
    ensures drop <==> Dropped(stream, i, c.v, c.level, smallest)
    ensures Remembers(stream, i + 1, cur', has', last')
  {
    var key := stream[i].key;
    drop, cur', has', last' := false, cur, has, last;
    if !key.WellFormed() {
      cur', has', last' := [], false, MAX_SEQUENCE;
    } else {
      if !has' || Compare(key.user, cur') != 0 {
        cur', has', last' := key.user, true, MAX_SEQUENCE;
      }
      if last' <= smallest {
        drop := true;
      } else if key.kind == TYPE_DELETION && key.seqno <= smallest {
        drop := c.IsBaseLevelForKey(key.user);
        BaseIs(c.v, c.level, key.user);
      }
      last' := key.seqno;
    }
  }

  /** DoCompactionWork. `stream` is what the merging input iterator yields; where an output is cut (`stopBefore`, `full`) is
      arbitrary, and never changes what is written: what some kept snapshot reads among the inputs, except a marker that
      every kept snapshot sees and no file two or more levels down could need. */
  method DoCompactionWork(c: Cursors, stream: seq<Entry>, smallest: SeqNum, firstNumber: nat,
                          stopBefore: nat -> bool, full: seq<Entry> -> bool, sizeOf: seq<Entry> -> nat)
    returns (outputs: Level)
    requires SortedRun(stream) && smallest < MAX_SEQUENCE
    requires c.Valid() && forall k :: c.Behind(k)
    modifies c
    ensures Concat(outputs) == Kept(stream, |stream|, c.v, c.level, smallest)
    ensures Outputs(outputs, firstNumber)
    ensures AllWellFormed(stream) ==> forall e :: e in Concat(outputs) <==>
              && e in stream && (exists s: SeqNum :: smallest <= s && NewestAt(Elements(stream), e.key.user, s, e))
              && (e.key.kind != TYPE_DELETION || e.key.seqno > smallest
                  || exists l, f :: c.level + 2 <= l < NUM_LEVELS && f in c.v[l]
                                    && Compare(f.smallest.user, e.key.user) <= 0 && Compare(e.key.user, f.largest.user) <= 0)
  {
    outputs := WriteOutputs(c, stream, smallest, firstNumber, stopBefore, full, sizeOf);
    KeptExactly(stream, c.v, c.level, smallest);
  }

  /** The loop over the inputs. */
  method WriteOutputs(c: Cursors, stream: seq<Entry>, smallest: SeqNum, firstNumber: nat,
                          stopBefore: nat -> bool, full: seq<Entry> -> bool, sizeOf: seq<Entry> -> nat)
    returns (outputs: Level)
    requires SortedRun(stream) && smallest < MAX_SEQUENCE
    requires c.Valid() && forall k :: c.Behind(k)
    modifies c
    ensures Concat(outputs) == Kept(stream, |stream|, c.v, c.level, smallest)
    ensures Outputs(outputs, firstNumber)
  {
    outputs := [];
    var building: seq<Entry> := [];
    var currentUserKey: UserKey := [];
    var hasCurrentUserKey := false;
    var lastSequenceForKey: SeqNum := MAX_SEQUENCE;
    var i := 0;
    while i < |stream|
      invariant 0 <= i <= |stream|
      invariant c.Valid()
      invariant i < |stream| ==> c.Behind(stream[i].key.user)
      invariant Outputs(outputs, firstNumber)
      invariant Concat(outputs) + building == Kept(stream, i, c.v, c.level, smallest)
      invariant Remembers(stream, i, currentUserKey, hasCurrentUserKey, lastSequenceForKey)
    {
      ghost var written := Concat(outputs) + building;
      if building != [] && stopBefore(i) {
        outputs := CutOutput(outputs, building, firstNumber, sizeOf);
        building := [];
      }
      assert Concat(outputs) + building == written;
      var drop;
      drop, currentUserKey, hasCurrentUserKey, lastSequenceForKey :=
        DecideDrop(c, stream, i, smallest, currentUserKey, hasCurrentUserKey, lastSequenceForKey);
      if !drop {
        outputs, building := AddEntry(outputs, building, stream[i], firstNumber, full, sizeOf);
      }
      assert Concat(outputs) + building == written + if drop then [] else [stream[i]];
      i := i + 1;
      if i < |stream| {
        NextKeyNotSmaller(stream, i);
      }
    }
    if building != [] {
      outputs := CutOutput(outputs, building, firstNumber, sizeOf);
    }
  }

  lemma NextKeyNotSmaller(stream: seq<Entry>, i: nat)
    requires SortedRun(stream) && 0 < i < |stream|
    ensures Rank(stream[i - 1].key.user) <= Rank(stream[i].key.user)
  {
    assert Precedes(stream[i - 1].key, stream[i].key);
  }

  // ----- what is kept

  lemma {:induction false} KeptIs(stream: seq<Entry>, n: nat, v: Version, level: nat, smallest: SeqNum, e: Entry)
    requires n <= |stream|
    ensures e in Kept(stream, n, v, level, smallest)
        <==> exists i :: 0 <= i < n && stream[i] == e && !Dropped(stream, i, v, level, smallest)
  {
    if n > 0 {
      KeptIs(stream, n - 1, v, level, smallest, e);
    }
  }

  lemma AppendSorted(run: seq<Entry>, e: Entry)
    requires SortedRun(run) && forall j :: 0 <= j < |run| ==> Precedes(run[j].key, e.key)
    ensures SortedRun(run + [e])
  {
  }

  lemma KeptPrecedes(stream: seq<Entry>, n: nat, v: Version, level: nat, smallest: SeqNum, e: Entry)
    requires n < |stream| && SortedRun(stream) && e in Kept(stream, n, v, level, smallest)
    ensures Precedes(e.key, stream[n].key)
  {
    KeptIs(stream, n, v, level, smallest, e);
  }

  lemma {:induction false} KeptSorted(stream: seq<Entry>, n: nat, v: Version, level: nat, smallest: SeqNum)
    requires n <= |stream| && SortedRun(stream)
    ensures SortedRun(Kept(stream, n, v, level, smallest))
  {
    if n > 0 {
      KeptSorted(stream, n - 1, v, level, smallest);
      var kept := Kept(stream, n - 1, v, level, smallest);
      forall j | 0 <= j < |kept|
        ensures Precedes(kept[j].key, stream[n - 1].key)
      {
        KeptPrecedes(stream, n - 1, v, level, smallest, kept[j]);
      }
      AppendSorted(kept, stream[n - 1]);
      assert kept + [] == kept;
    }
  }

  lemma SplitRun(head: seq<Entry>, tail: seq<Entry>)
    requires SortedRun(head + tail) && AllWellFormed(head + tail)
    ensures SortedRun(head) && SortedRun(tail) && AllWellFormed(head) && AllWellFormed(tail)
    ensures forall e, d :: e in head && d in tail ==> Precedes(e.key, d.key)
  {
    var run := head + tail;
    assert forall i :: 0 <= i < |head| ==> run[i] == head[i];
    assert forall i :: 0 <= i < |tail| ==> run[|head| + i] == tail[i];
    forall i, j | 0 <= i < j < |tail|
      ensures Precedes(tail[i].key, tail[j].key)
    {
      assert Precedes(run[|head| + i].key, run[|head| + j].key);
    }
    forall e, d | e in head && d in tail
      ensures Precedes(e.key, d.key)
    {
      var i :| 0 <= i < |head| && head[i] == e;
      var j :| 0 <= j < |tail| && tail[j] == d;
      assert Precedes(run[i].key, run[|head| + j].key);
    }
  }

  /** Cutting a sorted run into tables gives sorted tables with disjoint ranges, in order. */
  lemma {:induction false} CutSorted(fs: Level)
    requires SortedRun(Concat(fs)) && AllWellFormed(Concat(fs))
    requires forall i :: 0 <= i < |fs| ==> Bounded(fs[i])
    ensures FilesOk(fs) && DisjointRun(fs)
    ensures FilesEntries(fs) == Elements(Concat(fs))
  {
    if fs != [] {
      var front, last := fs[..|fs| - 1], fs[|fs| - 1];
      SplitRun(Concat(front), last.entries);
      CutSorted(front);
      CutStep(front, last);
      assert fs == front + [last];
    }
  }

  lemma CutStep(front: Level, last: File)
    requires FilesOk(front) && DisjointRun(front) && FileOk(last)
    requires FilesEntries(front) == Elements(Concat(front))
    requires forall e, d :: e in Concat(front) && d in last.entries ==> Precedes(e.key, d.key)
    ensures FilesOk(front + [last]) && DisjointRun(front + [last])
    ensures FilesEntries(front + [last]) == Elements(Concat(front) + last.entries)
  {
    RunPrecedes(front, last);
    AppendFile(front, last);
  }

  lemma RunPrecedes(front: Level, last: File)
    requires FilesOk(front) && FileOk(last)
    requires forall e, d :: e in FilesEntries(front) && d in last.entries ==> Precedes(e.key, d.key)
    ensures forall i :: 0 <= i < |front| ==> Precedes(front[i].largest, last.smallest)
  {
    forall i | 0 <= i < |front|
      ensures Precedes(front[i].largest, last.smallest)
    {
      var f := front[i];
      var e := f.entries[|f.entries| - 1];
      assert f in front && e in f.entries;
      assert e in FilesEntries(front);
      assert last.entries[0] in last.entries;
    }
  }

  lemma AppendFile(front: Level, last: File)
    requires FilesOk(front) && DisjointRun(front) && FileOk(last)
    requires forall i :: 0 <= i < |front| ==> Precedes(front[i].largest, last.smallest)
    ensures FilesOk(front + [last]) && DisjointRun(front + [last])
    ensures FilesEntries(front + [last]) == FilesEntries(front) + Elements(last.entries)
  {
  }

  // ----- what is reclaimed

  /** The first drop rule spares exactly what some kept snapshot reads. */
  lemma HiddenIff(stream: seq<Entry>, i: nat, smallest: SeqNum)
    requires SortedRun(stream) && AllWellFormed(stream) && i < |stream|
    ensures !Hidden(stream, i, smallest) <==> exists s: SeqNum :: smallest <= s && NewestAt(Elements(stream), stream[i].key.user, s, stream[i])
  {
    var e := stream[i];
    assert e in stream;
    if s: SeqNum :| smallest <= s && NewestAt(Elements(stream), e.key.user, s, e) {
      if Hidden(stream, i, smallest) {
        HiddenNeverNewest(stream, i, smallest, Elements(stream), e.key.user, s);
      }
    }
    if !Hidden(stream, i, smallest) {
      NotHiddenIsNewest(stream, i, smallest);
    }
  }

  lemma NotHiddenIsNewest(stream: seq<Entry>, i: nat, smallest: SeqNum)
    requires SortedRun(stream) && AllWellFormed(stream) && i < |stream| && !Hidden(stream, i, smallest)
    ensures exists s: SeqNum :: smallest <= s && NewestAt(Elements(stream), stream[i].key.user, s, stream[i])
  {
    var e := stream[i];
    var s: SeqNum := if e.key.seqno <= smallest then smallest else e.key.seqno;
    forall d | d in Elements(stream) && Visible(d, e.key.user, s)
      ensures d.key.seqno <= e.key.seqno
    {
      var j :| 0 <= j < |stream| && stream[j] == d;
      if j < i && e.key.seqno <= smallest {
        OlderAllHidden(stream, j, i, smallest);
      } else if i < j {
        assert Precedes(stream[i].key, stream[j].key);
      }
    }
    assert NewestAt(Elements(stream), e.key.user, s, e);
  }

  /** An entry is written if and only if some kept snapshot reads it among the inputs and it is not a marker that
      every kept snapshot sees and that no file two or more levels down could need. */
  lemma KeptExactly(stream: seq<Entry>, v: Version, level: nat, smallest: SeqNum)
    requires SortedRun(stream) && |v| == NUM_LEVELS
    ensures AllWellFormed(stream) ==> forall e :: e in Kept(stream, |stream|, v, level, smallest) <==>
              && e in stream && (exists s: SeqNum :: smallest <= s && NewestAt(Elements(stream), e.key.user, s, e))
              && (e.key.kind != TYPE_DELETION || e.key.seqno > smallest
                  || exists l, f :: level + 2 <= l < NUM_LEVELS && f in v[l]
                                    && Compare(f.smallest.user, e.key.user) <= 0 && Compare(e.key.user, f.largest.user) <= 0)
  {
    if AllWellFormed(stream) {
      forall e
        ensures e in Kept(stream, |stream|, v, level, smallest) <==>
              && e in stream && (exists s: SeqNum :: smallest <= s && NewestAt(Elements(stream), e.key.user, s, e))
              && (e.key.kind != TYPE_DELETION || e.key.seqno > smallest
                  || exists l, f :: level + 2 <= l < NUM_LEVELS && f in v[l]
                                    && Compare(f.smallest.user, e.key.user) <= 0 && Compare(e.key.user, f.largest.user) <= 0)
      {
        KeptOne(stream, v, level, smallest, e);
      }
    }
  }

  lemma KeptOne(stream: seq<Entry>, v: Version, level: nat, smallest: SeqNum, e: Entry)
    requires SortedRun(stream) && AllWellFormed(stream) && |v| == NUM_LEVELS
    ensures e in Kept(stream, |stream|, v, level, smallest) <==>
              && e in stream && (exists s: SeqNum :: smallest <= s && NewestAt(Elements(stream), e.key.user, s, e))
              && (e.key.kind != TYPE_DELETION || e.key.seqno > smallest
                  || exists l, f :: level + 2 <= l < NUM_LEVELS && f in v[l]
                                    && Compare(f.smallest.user, e.key.user) <= 0 && Compare(e.key.user, f.largest.user) <= 0)
  {
    KeptIs(stream, |stream|, v, level, smallest, e);
    if e in stream {
      var i :| 0 <= i < |stream| && stream[i] == e;
      HiddenIff(stream, i, smallest);
      BaseIs(v, level, e.key.user);
      OnlyAt(stream, i);
      assert Dropped(stream, i, v, level, smallest) <==> Hidden(stream, i, smallest) || Obsolete(e, v, level, smallest);
    }
  }

  lemma OnlyAt(stream: seq<Entry>, i: nat)
    requires SortedRun(stream) && i < |stream|
    ensures forall j :: 0 <= j < |stream| && stream[j] == stream[i] ==> j == i
  {
    forall j | 0 <= j < |stream| && j != i
      ensures stream[j] != stream[i]
    {
      assert if i < j then Precedes(stream[i].key, stream[j].key) else Precedes(stream[j].key, stream[i].key);
    }
  }

  /** Space is reclaimed: when every snapshot sees all the inputs and no file two or more levels down spans an input key,
      the outputs hold one entry per user key at most, and no deletion marker. */
  lemma Reclaims(stream: seq<Entry>, v: Version, level: nat, smallest: SeqNum, outs: Level, i: nat, j: nat)
    requires SortedRun(stream) && AllWellFormed(stream) && |v| == NUM_LEVELS && Concat(outs) == Kept(stream, |stream|, v, level, smallest)
    requires forall e :: e in stream ==> e.key.seqno <= smallest
    requires forall e, l, f :: e in stream && level + 2 <= l < NUM_LEVELS && f in v[l] ==>
               Compare(e.key.user, f.smallest.user) < 0 || Compare(f.largest.user, e.key.user) < 0
    requires i < |Concat(outs)| && j < |Concat(outs)|
    ensures Concat(outs)[i].key.kind != TYPE_DELETION
    ensures i != j ==> Concat(outs)[i].key.user != Concat(outs)[j].key.user
  {
    var e, d := Concat(outs)[i], Concat(outs)[j];
    KeptOne(stream, v, level, smallest, e);
    KeptOne(stream, v, level, smallest, d);
    KeptSorted(stream, |stream|, v, level, smallest);
    if i < j {
      assert Precedes(e.key, d.key);
    } else if j < i {
      assert Precedes(d.key, e.key);
    }
    assert e in Elements(stream) && d in Elements(stream);
  }

  // ----- dropping keeps meaning

  /** The entry just before position i that rule (A) finds is itself visible wherever i is. */
  lemma HiddenNeverNewest(stream: seq<Entry>, i: nat, smallest: SeqNum, es: set<Entry>, k: UserKey, s: SeqNum)
    requires SortedRun(stream) && i < |stream| && Hidden(stream, i, smallest) && smallest <= s
    requires Elements(stream) <= es
    ensures !NewestAt(es, k, s, stream[i])
  {
    assert Precedes(stream[i - 1].key, stream[i].key);
    assert stream[i - 1] in Elements(stream);
    if NewestAt(es, k, s, stream[i]) {
      assert Visible(stream[i - 1], k, s);
    }
  }

  /** Everything of the same user key after a droppable marker is dropped too. */
  lemma OlderAllHidden(stream: seq<Entry>, i: nat, j: nat, smallest: SeqNum)
    requires SortedRun(stream) && AllWellFormed(stream)
    requires i < j < |stream| && stream[i].key.user == stream[j].key.user && stream[i].key.seqno <= smallest
    ensures Hidden(stream, j, smallest)
  {
    if i < j - 1 {
      assert Precedes(stream[i].key, stream[j - 1].key);
    }
    assert Precedes(stream[j - 1].key, stream[j].key);
    assert stream[j - 1] in stream;
    assert Compare(stream[j - 1].key.user, stream[j].key.user) == 0;
  }

  /** Marker i is dropped, is what the oldest kept snapshot reads for its key, and hides a value that is not among
      the inputs: dropping it brings the value back. */
  ghost predicate Resurrects(stream: seq<Entry>, others: set<Entry>, v: Version, level: nat, smallest: SeqNum, i: nat)
    requires i < |stream|
  {
    && Obsolete(stream[i], v, level, smallest)
    && NewestAt(Elements(stream) + others, stream[i].key.user, smallest, stream[i])
    && Lookup(others, stream[i].key.user, stream[i].key.seqno).Some?
  }

  ghost predicate NoneResurrects(stream: seq<Entry>, others: set<Entry>, v: Version, level: nat, smallest: SeqNum, k: UserKey) {
    forall i {:trigger Resurrects(stream, others, v, level, smallest, i)} ::
      0 <= i < |stream| && stream[i].key.user == k ==> !Resurrects(stream, others, v, level, smallest, i)
  }

  lemma KeptWithin(stream: seq<Entry>, v: Version, level: nat, smallest: SeqNum)
    ensures Elements(Kept(stream, |stream|, v, level, smallest)) <= Elements(stream)
  {
    forall e | e in Kept(stream, |stream|, v, level, smallest)
      ensures e in stream
    {
      KeptIs(stream, |stream|, v, level, smallest, e);
    }
  }

  /** What is dropped and yet newest is a marker that rule (B) took. */
  lemma DroppedNewestIsMarker(stream: seq<Entry>, others: set<Entry>, v: Version, level: nat, smallest: SeqNum,
                              k: UserKey, s: SeqNum, i: nat)
    requires SortedRun(stream) && AllWellFormed(stream) && smallest <= s && i < |stream|
    requires NewestAt(Elements(stream) + others, k, s, stream[i])
    requires stream[i] !in Elements(Kept(stream, |stream|, v, level, smallest))
    ensures Dropped(stream, i, v, level, smallest) && Obsolete(stream[i], v, level, smallest) && Read(stream[i]) == Deleted
    ensures NewestAt(Elements(stream) + others, k, smallest, stream[i])
  {
    KeptIs(stream, |stream|, v, level, smallest, stream[i]);
    if Hidden(stream, i, smallest) {
      HiddenNeverNewest(stream, i, smallest, Elements(stream) + others, k, s);
    }
  }

  /** After a marker is dropped its key shows what the others show below it. */
  lemma ShowsOthers(stream: seq<Entry>, others: set<Entry>, v: Version, level: nat, smallest: SeqNum, k: UserKey, s: SeqNum, i: nat)
    requires SortedRun(stream) && AllWellFormed(stream) && Unique(Elements(stream) + others)
    requires smallest <= s && i < |stream| && Obsolete(stream[i], v, level, smallest) && stream[i] !in others
    requires NewestAt(Elements(stream) + others, k, s, stream[i])
    ensures Lookup(Elements(Kept(stream, |stream|, v, level, smallest)) + others, k, s) == Lookup(others, k, stream[i].key.seqno)
  {
    var kept := Kept(stream, |stream|, v, level, smallest);
    KeptWithin(stream, v, level, smallest);
    assert stream[i] in stream && Dropped(stream, i, v, level, smallest);
    forall d
      ensures d in Elements(kept) + others && Visible(d, k, s) <==> d in others && Visible(d, k, stream[i].key.seqno)
    {
      if d in kept {
        KeptIs(stream, |stream|, v, level, smallest, d);
        var j :| 0 <= j < |stream| && stream[j] == d && !Dropped(stream, j, v, level, smallest);
        MarkerHidesKept(stream, i, j, v, level, smallest, k, s);
      }
    }
    SameVisibleAt(Elements(kept) + others, s, others, stream[i].key.seqno, k);
  }

  lemma ReadsMarker(es: set<Entry>, k: UserKey, s: SeqNum, e: Entry)
    requires Unique(es) && NewestAt(es, k, s, e) && e.key.kind == TYPE_DELETION
    ensures Lookup(es, k, s) == None
  {
    OutcomeIs(es, k, s, e);
  }

  lemma QuietDrop(stream: seq<Entry>, others: set<Entry>, v: Version, level: nat, smallest: SeqNum, k: UserKey, s: SeqNum)
    requires SortedRun(stream) && AllWellFormed(stream) && Unique(Elements(stream) + others)
    requires smallest <= s && NoneResurrects(stream, others, v, level, smallest, k)
    ensures Lookup(Elements(Kept(stream, |stream|, v, level, smallest)) + others, k, s) == Lookup(Elements(stream) + others, k, s)
  {
    var before, after := Elements(stream) + others, Elements(Kept(stream, |stream|, v, level, smallest)) + others;
    KeptWithin(stream, v, level, smallest);
    OutcomeCases(before, k, s);
    if NoneAt(before, k, s) {
      assert NoneAt(after, k, s);
    } else {
      var e :| NewestAt(before, k, s, e) && Outcome(before, k, s) == Read(e);
      if e in after {
        assert NewestAt(after, k, s, e);
        OutcomeIs(after, k, s, e);
      } else {
        var i :| 0 <= i < |stream| && stream[i] == e;
        DroppedNewestIsMarker(stream, others, v, level, smallest, k, s, i);
        ShowsOthers(stream, others, v, level, smallest, k, s, i);
        assert !Resurrects(stream, others, v, level, smallest, i);
      }
    }
  }

  lemma LoudDrop(stream: seq<Entry>, others: set<Entry>, v: Version, level: nat, smallest: SeqNum, k: UserKey, i: nat)
    requires SortedRun(stream) && AllWellFormed(stream) && Unique(Elements(stream) + others)
    requires i < |stream| && stream[i].key.user == k && Resurrects(stream, others, v, level, smallest, i)
    ensures Lookup(Elements(stream) + others, k, smallest) == None
    ensures Lookup(Elements(Kept(stream, |stream|, v, level, smallest)) + others, k, smallest).Some?
  {
    var e := stream[i];
    ReadsMarker(Elements(stream) + others, k, smallest, e);
    if e in others {
      ReadsMarker(others, k, e.key.seqno, e);
    }
    ShowsOthers(stream, others, v, level, smallest, k, smallest, i);
  }

  /** When dropping keeps meaning: for a user key, no snapshot at or above the smallest can tell if and only if no
      dropped marker of the key hides a value outside the inputs. `others` is every entry outside the inputs. */
  lemma DroppingKeepsMeaning(stream: seq<Entry>, others: set<Entry>, v: Version, level: nat, smallest: SeqNum, k: UserKey)
    requires SortedRun(stream) && AllWellFormed(stream) && Unique(Elements(stream) + others)
    ensures (forall s: SeqNum :: smallest <= s ==>
               Lookup(Elements(Kept(stream, |stream|, v, level, smallest)) + others, k, s) == Lookup(Elements(stream) + others, k, s))
            <==> NoneResurrects(stream, others, v, level, smallest, k)
  {
    if NoneResurrects(stream, others, v, level, smallest, k) {
      forall s: SeqNum | smallest <= s
        ensures Lookup(Elements(Kept(stream, |stream|, v, level, smallest)) + others, k, s) == Lookup(Elements(stream) + others, k, s)
      {
        QuietDrop(stream, others, v, level, smallest, k, s);
      }
    } else {
      var i :| 0 <= i < |stream| && stream[i].key.user == k && Resurrects(stream, others, v, level, smallest, i);
      LoudDrop(stream, others, v, level, smallest, k, i);
    }
  }

  lemma MarkerHidesKept(stream: seq<Entry>, i: nat, j: nat, v: Version, level: nat, smallest: SeqNum, k: UserKey, s: SeqNum)
    requires SortedRun(stream) && AllWellFormed(stream)
    requires i < |stream| && j < |stream| && stream[i].key.user == k && stream[i].key.seqno <= smallest
    requires !Dropped(stream, j, v, level, smallest) && Dropped(stream, i, v, level, smallest)
    requires Visible(stream[j], k, s) ==> stream[j].key.seqno <= stream[i].key.seqno
    ensures !Visible(stream[j], k, s)
  {
    if j < i {
      assert Precedes(stream[j].key, stream[i].key);
    } else if i < j && stream[j].key.user == k {
      OlderAllHidden(stream, i, j, smallest);
      assert stream[j] in stream;
    }
  }
}

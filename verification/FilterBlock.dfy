/** The filter block: one bloom filter for every 2KB of table offsets, found again from a block's offset. */
module FilterBlock {
  import opened Keys
  import opened Coding
  import opened Bloom

  const BASE_LG: nat := 11
  const BASE: nat := 2048

  // ----- what has been generated

  /** Where filter i ends: where the next one starts, or at the end of them all. */
  function End(offsets: seq<nat>, i: nat, len: nat): (n: nat) { if i + 1 < |offsets| then offsets[i + 1] else len }

  /** Filter i lies inside the result and is the filter of its keys, empty if there are none. */
  ghost predicate FilterOk(hash: Hash, result: Bytes, offsets: seq<nat>, i: nat, keys: seq<Bytes>)
    requires i < |offsets|
  {
    && offsets[i] <= End(offsets, i, |result|) <= |result|
    && FilterFor(hash, keys, result[offsets[i]..End(offsets, i, |result|)])
  }

  ghost predicate FilterFor(hash: Hash, keys: seq<Bytes>, filter: Bytes) {
    if keys == [] then filter == [] else IsFilterOf(hash, keys, filter)
  }

  /** covers[i] are the keys that went into filter i. */
  ghost predicate Covers(hash: Hash, result: Bytes, offsets: seq<nat>, covers: seq<seq<Bytes>>) {
    && |covers| == |offsets|
    && forall i {:trigger covers[i]} :: 0 <= i < |offsets| ==> FilterOk(hash, result, offsets, i, covers[i])
  }

  /** Appending a filter for `keys` leaves the others as they were. */
  lemma AppendFilter(hash: Hash, result: Bytes, offsets: seq<nat>, covers: seq<seq<Bytes>>, filter: Bytes, keys: seq<Bytes>)
    requires Covers(hash, result, offsets, covers) && FilterFor(hash, keys, filter)
    ensures Covers(hash, result + filter, offsets + [|result|], covers + [keys])
  {
    var result', offsets', covers' := result + filter, offsets + [|result|], covers + [keys];
    forall i | 0 <= i < |offsets'|
      ensures FilterOk(hash, result', offsets', i, covers'[i])
    {
      if i < |offsets| {
        assert FilterOk(hash, result, offsets, i, covers[i]);
        assert End(offsets', i, |result'|) == End(offsets, i, |result|);
        assert result'[offsets[i]..End(offsets, i, |result|)] == result[offsets[i]..End(offsets, i, |result|)];
      } else {
        assert result'[|result|..|result'|] == filter;
      }
    }
  }

  // ----- the builder

  class FilterBlockBuilder {
    const hash: Hash
    const bitsPerKey: nat
    const probes: nat
    /** keys_ and start_: keys not yet in a filter. */
    var keys: seq<Bytes>
    var result: Bytes
    var offsets: seq<nat>
    ghost var covers: seq<seq<Bytes>>

    constructor (hash: Hash, bitsPerKey: nat, probes: nat)
      requires 1 <= probes <= 30
      ensures Valid() && keys == [] && covers == [] && this.hash == hash
    {
      this.hash, this.bitsPerKey, this.probes := hash, bitsPerKey, probes;
      keys, result, offsets, covers := [], [], [], [];
    }

    ghost predicate Valid() reads this { 1 <= probes <= 30 && Covers(hash, result, offsets, covers) }

    method AddKey(key: Bytes)
      requires Valid()
      modifies this
      ensures Valid() && keys == old(keys) + [key] && covers == old(covers)
    {
      keys := keys + [key];
    }

    method GenerateFilter()
      requires Valid()
      modifies this
      ensures Valid() && keys == [] && covers == old(covers) + [old(keys)]
    {
      if keys == [] {
        AppendFilter(hash, result, offsets, covers, [], []);
        assert result + [] == result;
        offsets, covers := offsets + [|result|], covers + [keys];
        return;
      }
      var filter := CreateFilter(hash, keys, bitsPerKey, probes);
      AppendFilter(hash, result, offsets, covers, filter, keys);
      offsets, result, covers := offsets + [|result|], result + filter, covers + [keys];
      keys := [];
    }

    /** The filters of every 2KB region before the block's are closed; its keys go to its own region's. */
    method StartBlock(blockOffset: nat)
      requires Valid()
      modifies this
      ensures Valid()
      ensures |old(covers)| >= blockOffset / BASE ==> covers == old(covers) && keys == old(keys)
      ensures |old(covers)| < blockOffset / BASE ==>
                |covers| == blockOffset / BASE && keys == [] && old(covers) + [old(keys)] <= covers
    {
      while blockOffset / BASE > |offsets|
        invariant Valid()
        invariant |covers| == |old(covers)| ==> covers == old(covers) && keys == old(keys)
        invariant |covers| > |old(covers)| ==> keys == [] && old(covers) + [old(keys)] <= covers
        invariant |old(covers)| <= |covers| && (|covers| <= blockOffset / BASE || covers == old(covers))
        decreases blockOffset / BASE - |offsets|
      {
        GenerateFilter();
      }
    }

    method Finish() returns (data: Bytes)
      requires Valid()
      modifies this
      ensures Valid() && Finished(hash, data, covers)
      ensures covers == if old(keys) == [] then old(covers) else old(covers) + [old(keys)]
    {
      if keys != [] {
        GenerateFilter();
      }
      data := AppendOffsets(result, offsets);
      assert Written(data, result, offsets);
    }
  }

  // ----- the finished block

  ghost predicate WordAt(data: Bytes, p: nat, n: nat) { p + 4 <= |data| && data[p..p + 4] == Fixed(n, 4) }

  /** The filters, the offset of each, the offset of the offsets, and the base. */
  ghost predicate Written(data: Bytes, result: Bytes, offsets: seq<nat>) {
    && |data| == |result| + 4 * |offsets| + 5
    && result <= data
    && (forall i {:trigger offsets[i]} :: 0 <= i < |offsets| ==> WordAt(data, |result| + 4 * i, offsets[i]))
    && WordAt(data, |result| + 4 * |offsets|, |result|)
    && data[|data| - 1] == BASE_LG
  }

  ghost predicate Finished(hash: Hash, data: Bytes, covers: seq<seq<Bytes>>) {
    exists result: Bytes, offsets: seq<nat> :: Written(data, result, offsets) && Covers(hash, result, offsets, covers)
  }

  ghost predicate WordsUpTo(data: Bytes, base: nat, offsets: seq<nat>, n: nat) {
    forall i {:trigger offsets[i]} :: 0 <= i < n <= |offsets| ==> WordAt(data, base + 4 * i, offsets[i])
  }

  lemma WordsKept(data: Bytes, more: Bytes, base: nat, offsets: seq<nat>, n: nat)
    requires n <= |offsets| && WordsUpTo(data, base, offsets, n)
    ensures WordsUpTo(data + more, base, offsets, n)
  {
    forall i | 0 <= i < n
      ensures WordAt(data + more, base + 4 * i, offsets[i])
    {
      WordKept(data, more, base + 4 * i, offsets[i]);
    }
  }

  lemma WordKept(data: Bytes, more: Bytes, p: nat, n: nat)
    requires WordAt(data, p, n)
    ensures WordAt(data + more, p, n)
  {
    assert (data + more)[p..p + 4] == data[p..p + 4];
  }

  lemma WordLast(data: Bytes, n: nat)
    ensures WordAt(data + Fixed(n, 4), |data|, n)
  {
  }

  method AppendOffsets(result: Bytes, offsets: seq<nat>) returns (data: Bytes)
    ensures Written(data, result, offsets)
  {
    data := result;
    for i := 0 to |offsets|
      invariant |data| == |result| + 4 * i && result <= data && WordsUpTo(data, |result|, offsets, i)
    {
      WordsKept(data, Fixed(offsets[i], 4), |result|, offsets, i);
      WordLast(data, offsets[i]);
      data := data + Fixed(offsets[i], 4);
    }
    WordsKept(data, Fixed(|result|, 4), |result|, offsets, |offsets|);
    WordLast(data, |result|);
    data := data + Fixed(|result|, 4);
    WordsKept(data, [BASE_LG], |result|, offsets, |offsets|);
    WordKept(data, [BASE_LG], |result| + 4 * |offsets|, |result|);
    data := data + [BASE_LG];
  }

  // ----- the reader

  function Word(data: Bytes, p: nat): (n: nat)
    requires p + 4 <= |data|
  {
    Unfixed(data[p..p + 4])
  }

  /** What the reader makes of a block offset: nothing usable, no filter, or the bounds of one. */
  datatype Region = Unknown | NoFilter | Bounds(start: nat, limit: nat)

  function ShiftRight(n: nat, k: nat): (r: nat) { if k == 0 then n else ShiftRight(n / 2, k - 1) }

  function FindFilter(data: Bytes, blockOffset: nat): (r: Region) {
    if |data| < 5 then Unknown
    else
      var lastWord, index := Word(data, |data| - 5), ShiftRight(blockOffset, data[|data| - 1]);
      if lastWord > |data| - 5 || index >= (|data| - 5 - lastWord) / 4 then Unknown
      else RegionAt(data, lastWord, index)
  }

  function RegionAt(data: Bytes, lastWord: nat, index: nat): (r: Region)
    requires lastWord + 4 * index + 8 <= |data|
    ensures r.Bounds? ==> r.start <= r.limit <= |data|
  {
    var start, limit := Word(data, lastWord + 4 * index), Word(data, lastWord + 4 * index + 4);
    if start <= limit && limit <= lastWord then Bounds(start, limit)
    else if start == limit then NoFilter
    else Unknown
  }

  /** FilterBlockReader on construction and KeyMayMatch: doubts count as matches, empty filters do not. */
  method BlockMayMatch(hash: Hash, data: Bytes, blockOffset: nat, key: Bytes) returns (r: bool)
    ensures r <==> Says(hash, data, blockOffset, key)
  {
    match FindFilter(data, blockOffset)
    case Unknown => return true;
    case NoFilter => return false;
    case Bounds(start, limit) => r := KeyMayMatch(hash, key, data[start..limit]);
  }

  ghost predicate Says(hash: Hash, data: Bytes, blockOffset: nat, key: Bytes) {
    match FindFilter(data, blockOffset)
    case Unknown => true
    case NoFilter => false
    case Bounds(start, limit) => start <= limit <= |data| && MayMatch(hash, key, data[start..limit])
  }

  /** The words the reader looks at. */
  lemma ReaderWords(data: Bytes, result: Bytes, offsets: seq<nat>, i: nat)
    requires |data| < TWO32 && Written(data, result, offsets) && i < |offsets|
    requires offsets[i] <= End(offsets, i, |result|) <= |result|
    ensures Word(data, |data| - 5) == |result|
    ensures Word(data, |result| + 4 * i) == offsets[i] && Word(data, |result| + 4 * i + 4) == End(offsets, i, |result|)
  {
    WordIs(data, |result| + 4 * |offsets|, |result|);
    assert WordAt(data, |result| + 4 * i, offsets[i]);
    WordIs(data, |result| + 4 * i, offsets[i]);
    assert i + 1 < |offsets| ==> WordAt(data, |result| + 4 * (i + 1), offsets[i + 1]);
    WordIs(data, |result| + 4 * i + 4, End(offsets, i, |result|));
  }

  /** The reader finds the filter of the region the block starts in. */
  lemma FindsFilter(data: Bytes, result: Bytes, offsets: seq<nat>, blockOffset: nat)
    requires |data| < TWO32 && Written(data, result, offsets) && blockOffset / BASE < |offsets|
    requires offsets[blockOffset / BASE] <= End(offsets, blockOffset / BASE, |result|) <= |result|
    ensures FindFilter(data, blockOffset) == Bounds(offsets[blockOffset / BASE], End(offsets, blockOffset / BASE, |result|))
  {
    ShiftIsDivision(blockOffset);
    ReaderWords(data, result, offsets, blockOffset / BASE);
  }

  /** The answer is exactly that of the filter over the keys added for the block's region; no keys, no match. */
  lemma SaysExactly(hash: Hash, data: Bytes, blockOffset: nat, key: Bytes, covers: seq<seq<Bytes>>)
    requires |data| < TWO32 && Finished(hash, data, covers) && blockOffset / 2048 < |covers|
    ensures var keys := covers[blockOffset / 2048];
            if keys == [] then !Says(hash, data, blockOffset, key)
            else exists filter :: IsFilterOf(hash, keys, filter) && (Says(hash, data, blockOffset, key) <==> MayMatch(hash, key, filter))
  {
    var result: Bytes, offsets: seq<nat> :| Written(data, result, offsets) && Covers(hash, result, offsets, covers);
    var i := blockOffset / BASE;
    assert FilterOk(hash, result, offsets, i, covers[i]);
    FindsFilter(data, result, offsets, blockOffset);
    var lo, hi := offsets[i], End(offsets, i, |result|);
    assert data[lo..hi] == result[lo..hi];
    if covers[i] != [] {
      assert IsFilterOf(hash, covers[i], result[lo..hi]);
    }
  }

  /** No false negatives: a key that was added for a block's region may match at the block's offset. */
  lemma NoFalseNegative(hash: Hash, data: Bytes, blockOffset: nat, key: Bytes, covers: seq<seq<Bytes>>)
    requires |data| < TWO32 && Finished(hash, data, covers) && blockOffset / BASE < |covers| && key in covers[blockOffset / BASE]
    ensures Says(hash, data, blockOffset, key)
  {
    var result: Bytes, offsets: seq<nat> :| Written(data, result, offsets) && Covers(hash, result, offsets, covers);
    var i := blockOffset / BASE;
    assert FilterOk(hash, result, offsets, i, covers[i]);
    FindsFilter(data, result, offsets, blockOffset);
    var k :| 0 <= k < |covers[i]| && covers[i][k] == key;
    var lo, hi := offsets[i], End(offsets, i, |result|);
    MemberMatches(hash, covers[i], result[lo..hi], k);
    assert data[lo..hi] == result[lo..hi];
  }

  lemma WordIs(data: Bytes, p: nat, n: nat)
    requires WordAt(data, p, n) && n < TWO32
    ensures Word(data, p) == n
  {
    FixedLimits();
    FixedRoundTrip(n, 4);
  }

  lemma ShiftTwice(n: nat, k: nat)
    ensures ShiftRight(n, k + 2) == ShiftRight(n / 4, k)
  {
    assert ShiftRight(n, k + 2) == ShiftRight(n / 2, k + 1) == ShiftRight(n / 2 / 2, k);
    assert n / 2 / 2 == n / 4;
  }

  lemma ShiftIsDivision(n: nat)
    ensures ShiftRight(n, BASE_LG) == n / BASE
  {
    ShiftTwice(n, 9);
    ShiftTwice(n / 4, 7);
    ShiftTwice(n / 16, 5);
    ShiftTwice(n / 64, 3);
    ShiftTwice(n / 256, 1);
    assert ShiftRight(n / 1024, 1) == n / 2048;
  }
}

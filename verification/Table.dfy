/** Tables: data blocks under an index of separators and a filter, and the point lookup through both. */
module Table {
  import opened Keys
  import opened Meaning
  import opened Coding
  import opened Cursor
  import opened TwoLevel
  import opened Separator
  import opened Bloom
  import opened FilterBlock

  // ----- the index

  ghost predicate NonEmpty(blocks: seq<seq<Entry>>) { forall b :: 0 <= b < |blocks| ==> blocks[b] != [] }

  function LastKey(block: seq<Entry>): InternalKey
    requires block != []
  {
    block[|block| - 1].key
  }

  /** Index key b separates block b from the next. */
  ghost predicate SepAt(index: seq<Entry>, blocks: seq<seq<Entry>>, b: nat)
    requires NonEmpty(blocks) && b < |index| && b < |blocks|
  {
    && !Before(index[b].key, LastKey(blocks[b]))
    && (b + 1 < |blocks| ==> Separates(index[b].key, LastKey(blocks[b]), blocks[b + 1][0].key))
  }

  ghost predicate SepsOk(index: seq<Entry>, blocks: seq<seq<Entry>>) {
    && NonEmpty(blocks) && |index| <= |blocks|
    && forall b {:trigger SepAt(index, blocks, b)} :: 0 <= b < |index| ==> SepAt(index, blocks, b)
  }

  /** Positions of two entries in the concatenation. */
  lemma BlocksOrdered(blocks: seq<seq<Entry>>, b: nat, p: nat, d: nat, q: nat)
    requires Ordered(All(blocks)) && b < |blocks| && p < |blocks[b]| && d < |blocks| && q < |blocks[d]|
    requires b < d || (b == d && p < q)
    ensures Before(blocks[b][p].key, blocks[d][q].key)
  {
    AllAt(blocks, b, p);
    AllAt(blocks, d, q);
    if b < d {
      OffsetGrows(blocks, b + 1, d);
    }
    assert Before(All(blocks)[Offset(blocks, b) + p].key, All(blocks)[Offset(blocks, d) + q].key);
  }

  lemma SepDivides(index: seq<Entry>, blocks: seq<seq<Entry>>, b: nat)
    requires SepsOk(index, blocks) && |index| == |blocks| && Ordered(All(blocks)) && b < |blocks|
    ensures Divides(index, blocks, b)
  {
    assert SepAt(index, blocks, b);
    forall p | 0 <= p < |blocks[b]|
      ensures !Before(index[b].key, blocks[b][p].key)
    {
      if p < |blocks[b]| - 1 {
        BlocksOrdered(blocks, b, p, b, |blocks[b]| - 1);
      }
    }
    forall d, p | b < d < |blocks| && 0 <= p < |blocks[d]|
      ensures Before(index[b].key, blocks[d][p].key)
    {
      SepBeforeLater(index, blocks, b, d, p);
    }
  }

  /** Separators between neighbours are an index over everything. */
  lemma SepsIndex(index: seq<Entry>, blocks: seq<seq<Entry>>)
    requires SepsOk(index, blocks) && |index| == |blocks| && Ordered(All(blocks))
    ensures Indexed(index, blocks)
  {
    forall b | 0 <= b < |blocks|
      ensures Divides(index, blocks, b)
    {
      SepDivides(index, blocks, b);
    }
    forall i, j | 0 <= i < j < |index|
      ensures Before(index[i].key, index[j].key)
    {
      assert SepAt(index, blocks, j);
      SepBeforeLater(index, blocks, i, j, |blocks[j]| - 1);
    }
  }

  lemma SepBeforeLater(index: seq<Entry>, blocks: seq<seq<Entry>>, b: nat, d: nat, p: nat)
    requires SepsOk(index, blocks) && |index| == |blocks| && Ordered(All(blocks)) && b < d < |blocks| && p < |blocks[d]|
    ensures Before(index[b].key, blocks[d][p].key)
  {
    assert SepAt(index, blocks, b);
    if b + 1 < d || p > 0 {
      BlocksOrdered(blocks, b + 1, 0, d, p);
    }
  }

  // ----- the finished table

  /** handles[b] is the file offset of block b. */
  datatype Table = Table(index: seq<Entry>, blocks: seq<seq<Entry>>, handles: seq<nat>, filter: Bytes)

  /** Every user key of the block is in the bucket. */
  ghost predicate KeysIn(block: seq<Entry>, bucket: seq<Bytes>) {
    forall p {:trigger block[p]} :: 0 <= p < |block| ==> block[p].key.user in bucket
  }

  ghost predicate Filtered(t: Table, hash: Hash, covers: seq<seq<Bytes>>) {
    && |t.filter| < TWO32 && Finished(hash, t.filter, covers) && |t.handles| == |t.blocks|
    && forall b {:trigger t.handles[b]} :: 0 <= b < |t.blocks| ==>
         t.handles[b] / BASE < |covers| && KeysIn(t.blocks[b], covers[t.handles[b] / BASE])
  }

  ghost predicate TableOk(t: Table, hash: Hash, es: seq<Entry>) {
    && SepsOk(t.index, t.blocks) && |t.index| == |t.blocks|
    && All(t.blocks) == es && Ordered(es)
    && exists covers :: Filtered(t, hash, covers)
  }

  // ----- lookup

  /** If the entry sought has the key's user key, it is in the block the index names. */
  lemma InNamedBlock(t: Table, es: seq<Entry>, k: InternalKey)
    requires SepsOk(t.index, t.blocks) && |t.index| == |t.blocks| && All(t.blocks) == es && Ordered(es)
    requires SeekIndex(es, k) < |es| && es[SeekIndex(es, k)].key.user == k.user
    ensures var b := SeekIndex(t.index, k); b < |t.blocks| && SeekIndex(t.blocks[b], k) < |t.blocks[b]|
  {
    SeekIsLocal(t, es, k);
    var b := SeekIndex(t.index, k);
    if SeekIndex(t.blocks[b], k) == |t.blocks[b]| {
      NextBlockDiffers(t, es, k, b);
    }
  }

  /** What the named block gives is the entry sought. */
  lemma NamedBlockGives(t: Table, es: seq<Entry>, k: InternalKey)
    requires SepsOk(t.index, t.blocks) && |t.index| == |t.blocks| && All(t.blocks) == es && Ordered(es)
    requires var b := SeekIndex(t.index, k); b < |t.blocks| && SeekIndex(t.blocks[b], k) < |t.blocks[b]|
    ensures var b, i := SeekIndex(t.index, k), SeekIndex(es, k);
            i < |es| && t.blocks[b][SeekIndex(t.blocks[b], k)] == es[i]
  {
    SeekIsLocal(t, es, k);
    var b := SeekIndex(t.index, k);
    AllAt(t.blocks, b, SeekIndex(t.blocks[b], k));
  }

  lemma SeekIsLocal(t: Table, es: seq<Entry>, k: InternalKey)
    requires SepsOk(t.index, t.blocks) && |t.index| == |t.blocks| && All(t.blocks) == es && Ordered(es)
    ensures var b := SeekIndex(t.index, k);
            SeekIndex(es, k) == if b < |t.blocks| then Offset(t.blocks, b) + SeekIndex(t.blocks[b], k) else |es|
  {
    SepsIndex(t.index, t.blocks);
    SeekThroughIndex(t.index, t.blocks, k);
  }

  lemma NextBlockDiffers(t: Table, es: seq<Entry>, k: InternalKey, b: nat)
    requires SepsOk(t.index, t.blocks) && |t.index| == |t.blocks| && All(t.blocks) == es
    requires b == SeekIndex(t.index, k) < |t.blocks| && SeekIndex(t.blocks[b], k) == |t.blocks[b]|
    requires Offset(t.blocks, b) + |t.blocks[b]| < |es|
    ensures es[Offset(t.blocks, b) + |t.blocks[b]|].key.user != k.user
  {
    assert SepAt(t.index, t.blocks, b);
    if b + 1 < |t.blocks| {
      AllAt(t.blocks, b + 1, 0);
      assert Before(LastKey(t.blocks[b]), k) && !Before(t.index[b].key, k);
    }
  }

  /** Table::InternalGet: the index, the filter, the block. What it hands over is the entry a seek of the whole table
      lands on; and it does hand that over whenever its user key is the one asked for. */
  method InternalGet(t: Table, k: InternalKey, hash: Hash, ghost es: seq<Entry>) returns (r: Option<Entry>)
    requires TableOk(t, hash, es)
    ensures var i := SeekIndex(es, k);
            && (r.Some? ==> i < |es| && r.value == es[i])
            && (i < |es| && es[i].key.user == k.user ==> r == Some(es[i]))
    ensures var b := SeekIndex(t.index, k);
            r.Some? <==> b < |t.index| && SeekIndex(t.blocks[b], k) < |t.blocks[b]| && Says(hash, t.filter, t.handles[b], k.user)
  {
    if SeekIndex(es, k) < |es| && es[SeekIndex(es, k)].key.user == k.user {
      InNamedBlock(t, es, k);
    }
    ghost var covers :| Filtered(t, hash, covers);
    r := None;
    var b := SeekIndex(t.index, k);
    if b < |t.index| {
      var p := SeekIndex(t.blocks[b], k);
      if p < |t.blocks[b]| {
        NamedBlockGives(t, es, k);
      }
      var may := BlockMayMatch(hash, t.filter, t.handles[b], k.user);
      if p < |t.blocks[b]| && t.blocks[b][p].key.user == k.user {
        assert t.blocks[b][p].key.user in covers[t.handles[b] / BASE];
        NoFalseNegative(hash, t.filter, t.handles[b], k.user, covers);
      }
      if may && p < |t.blocks[b]| {
        r := Some(t.blocks[b][p]);
      }
    }
  }

  /** TableCache::Get with the SaveValue callback answers like a search of the whole run. */
  method TableGet(t: Table, user: UserKey, s: SeqNum, hash: Hash, ghost es: seq<Entry>) returns (r: GetResult)
    requires TableOk(t, hash, es) && AllWellFormed(es)
    ensures r == RunGet(es, user, s)
  {
    var e := InternalGet(t, LookupKey(user, s), hash, es);
    r := NotFound;
    if e.Some? && e.value.key.user == user {
      r := Read(e.value);
    }
  }

  // ----- building

  /** Blocks written so far, the block being filled, and the index up to the last separator needed. */
  ghost predicate Growing(index: seq<Entry>, blocks: seq<seq<Entry>>, data: seq<Entry>, pending: bool) {
    && NonEmpty(blocks) && Ordered(All(blocks) + data)
    && (pending ==> data == [] && |index| + 1 == |blocks|)
    && (!pending ==> |index| == |blocks| && (data == [] ==> blocks == []))
    && SepsOk(index, if data == [] then blocks else blocks + [data])
  }

  lemma AllAppend(blocks: seq<seq<Entry>>, data: seq<Entry>, b: nat)
    requires b <= |blocks|
    ensures Flat(blocks + [data], b) == Flat(blocks, b)
    decreases b
  {
    if b > 0 {
      AllAppend(blocks, data, b - 1);
    }
  }

  lemma AllGrows(blocks: seq<seq<Entry>>, data: seq<Entry>)
    ensures All(blocks + [data]) == All(blocks) + data
  {
    AllAppend(blocks, data, |blocks|);
  }

  /** The last key written before position |All(blocks)|. */
  lemma LastBefore(blocks: seq<seq<Entry>>, data: seq<Entry>, e: Entry)
    requires NonEmpty(blocks) && blocks != [] && Ordered(All(blocks) + data + [e])
    ensures Before(LastKey(blocks[|blocks| - 1]), e.key)
  {
    var b := |blocks| - 1;
    AllAt(blocks, b, |blocks[b]| - 1);
    var all := All(blocks) + data + [e];
    var x := Offset(blocks, b) + |blocks[b]| - 1;
    assert all[x] == blocks[b][|blocks[b]| - 1] && all[|all| - 1] == e && x < |all| - 1;
  }

  lemma SepsPrefix(index: seq<Entry>, blocks: seq<seq<Entry>>, data: seq<Entry>, data': seq<Entry>)
    requires SepsOk(index, blocks + [data]) && data != [] && data' != [] && data[0] == data'[0] && |index| <= |blocks|
    ensures SepsOk(index, blocks + [data'])
  {
    var bs, bs' := blocks + [data], blocks + [data'];
    assert NonEmpty(bs') by {
      forall b | 0 <= b < |bs'| ensures bs'[b] != [] {
        if b < |blocks| {
          assert bs[b] == blocks[b];
        }
      }
    }
    forall b | 0 <= b < |index|
      ensures SepAt(index, bs', b)
    {
      assert SepAt(index, bs, b);
    }
  }

  /** The first key of a new block fixes the separator before it. */
  lemma SepAdded(index: seq<Entry>, blocks: seq<seq<Entry>>, sep: Entry, e: Entry)
    requires SepsOk(index, blocks) && |index| + 1 == |blocks| && Separates(sep.key, LastKey(blocks[|blocks| - 1]), e.key)
    ensures SepsOk(index + [sep], blocks + [[e]])
  {
    var index', bs' := index + [sep], blocks + [[e]];
    forall b | 0 <= b < |index'|
      ensures SepAt(index', bs', b)
    {
      if b < |index| {
        assert SepAt(index, blocks, b);
      }
    }
  }

  /** Where a block's keys went: a finished filter, or the one being filled. */
  ghost predicate Bucketed(block: seq<Entry>, handle: nat, covers: seq<seq<Bytes>>, keys: seq<Bytes>) {
    var r := handle / BASE;
    r <= |covers| && KeysIn(block, if r < |covers| then covers[r] else keys)
  }

  ghost predicate AllBucketed(blocks: seq<seq<Entry>>, handles: seq<nat>, covers: seq<seq<Bytes>>, keys: seq<Bytes>) {
    && |handles| == |blocks|
    && forall b {:trigger handles[b]} :: 0 <= b < |blocks| ==> Bucketed(blocks[b], handles[b], covers, keys)
  }

  /** Closing filters moves the pending keys into the bucket their blocks look in. */
  lemma BucketsClose(blocks: seq<seq<Entry>>, handles: seq<nat>, covers: seq<seq<Bytes>>, keys: seq<Bytes>, covers': seq<seq<Bytes>>, keys': seq<Bytes>)
    requires AllBucketed(blocks, handles, covers, keys)
    requires (covers' == covers && keys <= keys') || covers + [keys] <= covers'
    ensures AllBucketed(blocks, handles, covers', keys')
  {
    forall b | 0 <= b < |blocks|
      ensures Bucketed(blocks[b], handles[b], covers', keys')
    {
      assert Bucketed(blocks[b], handles[b], covers, keys);
      var r := handles[b] / BASE;
      if covers' != covers || !(keys <= keys') {
        assert r < |covers + [keys]| && covers'[r] == (covers + [keys])[r];
      }
    }
  }

  lemma AppendLast(a: seq<Entry>, b: seq<Entry>, e: Entry)
    ensures a + b + [e] == a + (b + [e])
  {
  }

  /** What the builder has so far: separators, filter buckets and the last key agree with the blocks. */
  ghost predicate Built(index: seq<Entry>, blocks: seq<seq<Entry>>, handles: seq<nat>, data: seq<Entry>, pending: bool, lastKey: InternalKey,
                        covers: seq<seq<Bytes>>, keys: seq<Bytes>) {
    && Growing(index, blocks, data, pending) && AllBucketed(blocks, handles, covers, keys) && KeysIn(data, keys)
    && (pending ==> lastKey == LastKey(blocks[|blocks| - 1]))
    && (data != [] ==> lastKey == LastKey(data))
  }

  lemma BuiltEntry(index: seq<Entry>, index': seq<Entry>, blocks: seq<seq<Entry>>, handles: seq<nat>, data: seq<Entry>, pending: bool,
                   lastKey: InternalKey, covers: seq<seq<Bytes>>, keys: seq<Bytes>, e: Entry)
    requires Built(index, blocks, handles, data, pending, lastKey, covers, keys) && Growing(index', blocks, data + [e], false)
    ensures Built(index', blocks, handles, data + [e], false, e.key, covers, keys + [e.key.user])
  {
    BucketsClose(blocks, handles, covers, keys, covers, keys + [e.key.user]);
  }

  class TableBuilder {
    const hash: Hash
    const filter: FilterBlockBuilder
    var offset: nat
    var data: seq<Entry>
    var blocks: seq<seq<Entry>>
    var handles: seq<nat>
    var index: seq<Entry>
    var pending: bool
    var lastKey: InternalKey

    constructor (hash: Hash, bitsPerKey: nat, probes: nat)
      requires 1 <= probes <= 30
      ensures Valid() && Contents() == [] && fresh(filter) && this.hash == hash
    {
      this.hash := hash;
      filter := new FilterBlockBuilder(hash, bitsPerKey, probes);
      offset, data, blocks, handles, index, pending := 0, [], [], [], [], false;
      lastKey := InternalKey([], 0, 0);
    }

    ghost predicate Valid() reads this, filter {
      && filter.Valid() && filter.hash == hash
      && Built(index, blocks, handles, data, pending, lastKey, filter.covers, filter.keys) && |filter.covers| == offset / BASE
    }

    /** Everything added. */
    ghost function Contents(): seq<Entry> reads this { All(blocks) + data }

    /** Add; `full` says the block reached its size, and `size` how many bytes it then takes in the file. */
    method Add(e: Entry, full: bool, size: nat)
      requires Valid() && Ordered(Contents() + [e])
      modifies this, filter
      ensures Valid() && Contents() == old(Contents()) + [e]
    {
      AddEntry(e);
      if full {
        Flush(size);
      }
    }

    method AddEntry(e: Entry)
      requires Valid() && Ordered(Contents() + [e])
      modifies this, filter
      ensures Valid() && Contents() == old(Contents()) + [e] && data != []
    {
      var index' := NewIndex(index, blocks, data, pending, lastKey, e);
      BuiltEntry(index, index', blocks, handles, data, pending, lastKey, filter.covers, filter.keys, e);
      AppendLast(All(blocks), data, e);
      filter.AddKey(e.key.user);
      index, pending, lastKey, data := index', false, e.key, data + [e];
    }

    method Flush(size: nat)
      requires Valid()
      modifies this, filter
      ensures Valid() && Contents() == old(Contents()) && data == []
      ensures old(data) != [] ==> pending
    {
      if data == [] {
        return;
      }
      AllGrows(blocks, data);
      assert All(blocks + [data]) + [] == All(blocks) + data;
      blocks, handles, data := blocks + [data], handles + [offset], [];
      pending := true;
      offset := offset + size;
      ghost var covers, keys := filter.covers, filter.keys;
      filter.StartBlock(offset);
      BucketsClose(blocks, handles, covers, keys, filter.covers, filter.keys);
    }

    method Finish(size: nat) returns (t: Table)
      requires Valid()
      modifies this, filter
      ensures |t.filter| < TWO32 ==> TableOk(t, hash, old(Contents()))
    {
      Flush(size);
      t := Seal();
    }

    method Seal() returns (t: Table)
      requires Valid() && data == []
      modifies this, filter
      ensures |t.filter| < TWO32 ==> TableOk(t, hash, old(All(blocks) + []))
    {
      ghost var covers, keys := filter.covers, filter.keys;
      var f := filter.Finish();
      t := Close(index, blocks, handles, pending, lastKey, f, hash, covers, keys, filter.covers);
      pending := false;
    }
  }

  /** The last index entry, and the table. */
  method Close(index: seq<Entry>, blocks: seq<seq<Entry>>, handles: seq<nat>, pending: bool, lastKey: InternalKey, filter: Bytes,
               ghost hash: Hash, ghost covers: seq<seq<Bytes>>, ghost keys: seq<Bytes>, ghost covers': seq<seq<Bytes>>) returns (t: Table)
    requires Growing(index, blocks, [], pending) && (pending ==> lastKey == LastKey(blocks[|blocks| - 1]))
    requires AllBucketed(blocks, handles, covers, keys) && Finished(hash, filter, covers')
    requires covers' == if keys == [] then covers else covers + [keys]
    ensures |t.filter| < TWO32 ==> TableOk(t, hash, All(blocks) + [])
  {
    var index' := index;
    if pending {
      var sep := FindInternalSuccessor(lastKey);
      index' := LastSep(index, blocks, sep);
    }
    t := Table(index', blocks, handles, filter);
    assert All(blocks) + [] == All(blocks);
    Assembled(t, hash, All(blocks), covers, keys, covers');
  }

  /** The index entry that waited for the first key of the next block. */
  method NewIndex(index: seq<Entry>, blocks: seq<seq<Entry>>, data: seq<Entry>, pending: bool, lastKey: InternalKey, e: Entry) returns (r: seq<Entry>)
    requires Growing(index, blocks, data, pending) && Ordered(All(blocks) + data + [e])
    requires pending ==> lastKey == LastKey(blocks[|blocks| - 1])
    ensures Growing(r, blocks, data + [e], false)
  {
    r := index;
    assert All(blocks) + data + [e] == All(blocks) + (data + [e]);
    if pending {
      LastBefore(blocks, data, e);
      var sep := FindInternalSeparator(lastKey, e.key);
      SepAdded(index, blocks, Entry(sep, []), e);
      r := index + [Entry(sep, [])];
      assert data + [e] == [e];
    } else if data != [] {
      SepsPrefix(index, blocks, data, data + [e]);
    }
  }

  method LastSep(index: seq<Entry>, blocks: seq<seq<Entry>>, sep: InternalKey) returns (r: seq<Entry>)
    requires SepsOk(index, blocks) && |index| + 1 == |blocks| && !Before(sep, LastKey(blocks[|blocks| - 1]))
    ensures SepsOk(r, blocks) && |r| == |blocks|
  {
    r := index + [Entry(sep, [])];
    forall b | 0 <= b < |r|
      ensures SepAt(r, blocks, b)
    {
      if b < |index| {
        assert SepAt(index, blocks, b);
      }
    }
  }

  lemma FilterReady(t: Table, hash: Hash, covers: seq<seq<Bytes>>, keys: seq<Bytes>, covers': seq<seq<Bytes>>)
    requires AllBucketed(t.blocks, t.handles, covers, keys) && NonEmpty(t.blocks) && Finished(hash, t.filter, covers')
    requires covers' == if keys == [] then covers else covers + [keys]
    ensures |t.filter| < TWO32 ==> Filtered(t, hash, covers')
  {
    forall b | 0 <= b < |t.blocks|
      ensures t.handles[b] / BASE < |covers'| && KeysIn(t.blocks[b], covers'[t.handles[b] / BASE])
    {
      assert Bucketed(t.blocks[b], t.handles[b], covers, keys);
      var r := t.handles[b] / BASE;
      assert t.blocks[b][0].key.user in if r < |covers| then covers[r] else keys;
    }
  }

  lemma Assembled(t: Table, hash: Hash, es: seq<Entry>, covers: seq<seq<Bytes>>, keys: seq<Bytes>, covers': seq<seq<Bytes>>)
    requires SepsOk(t.index, t.blocks) && |t.index| == |t.blocks| && All(t.blocks) == es && Ordered(es)
    requires AllBucketed(t.blocks, t.handles, covers, keys) && Finished(hash, t.filter, covers')
    requires covers' == if keys == [] then covers else covers + [keys]
    ensures |t.filter| < TWO32 ==> TableOk(t, hash, es)
  {
    FilterReady(t, hash, covers, keys, covers');
  }
}

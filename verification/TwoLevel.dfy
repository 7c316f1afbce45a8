/** The two-level iterator: an index iterator whose entries name blocks, and one data iterator at a time.
    It is a cursor over the concatenation of the blocks; blocks may be empty. */
module TwoLevel {
  import opened Keys
  import opened Meaning
  import opened Cursor

  /** Where block b starts in the concatenation. */
  function Offset(blocks: seq<seq<Entry>>, b: nat): (n: nat)
    requires b <= |blocks|
  {
    if b == 0 then 0 else Offset(blocks, b - 1) + |blocks[b - 1]|
  }

  function Flat(blocks: seq<seq<Entry>>, b: nat): (es: seq<Entry>)
    requires b <= |blocks|
    ensures |es| == Offset(blocks, b)
  {
    if b == 0 then [] else Flat(blocks, b - 1) + blocks[b - 1]
  }

  function All(blocks: seq<seq<Entry>>): (es: seq<Entry>) { Flat(blocks, |blocks|) }

  /** Index key b is at or past everything in block b and before everything after it. */
  ghost predicate Indexed(keys: seq<Entry>, blocks: seq<seq<Entry>>) {
    && |keys| == |blocks| && Ordered(keys) && Ordered(All(blocks))
    && forall b {:trigger Divides(keys, blocks, b)} :: 0 <= b < |blocks| ==> Divides(keys, blocks, b)
  }

  ghost predicate Divides(keys: seq<Entry>, blocks: seq<seq<Entry>>, b: nat)
    requires b < |keys| == |blocks|
  {
    && (forall p :: 0 <= p < |blocks[b]| ==> !Before(keys[b].key, blocks[b][p].key))
    && (forall d, p :: b < d < |blocks| && 0 <= p < |blocks[d]| ==> Before(keys[b].key, blocks[d][p].key))
  }

  lemma {:induction false} OffsetGrows(blocks: seq<seq<Entry>>, b: nat, d: nat)
    requires b <= d <= |blocks|
    ensures Offset(blocks, b) <= Offset(blocks, d)
    decreases d
  {
    if b < d {
      OffsetGrows(blocks, b, d - 1);
    }
  }

  lemma {:induction false} FlatAt(blocks: seq<seq<Entry>>, d: nat, b: nat, p: nat)
    requires b < d <= |blocks| && p < |blocks[b]|
    ensures Offset(blocks, b) + p < Offset(blocks, d) && Flat(blocks, d)[Offset(blocks, b) + p] == blocks[b][p]
    decreases d
  {
    if b < d - 1 {
      FlatAt(blocks, d - 1, b, p);
    }
  }

  /** Every position of the concatenation before block b's start is in an earlier block. */
  lemma {:induction false} Locate(blocks: seq<seq<Entry>>, b: nat, x: nat) returns (d: nat, p: nat)
    requires b <= |blocks| && x < Offset(blocks, b)
    ensures d < b && p < |blocks[d]| && x == Offset(blocks, d) + p
    decreases b
  {
    if x < Offset(blocks, b - 1) {
      d, p := Locate(blocks, b - 1, x);
    } else {
      d, p := b - 1, x - Offset(blocks, b - 1);
    }
  }

  lemma AllAt(blocks: seq<seq<Entry>>, b: nat, p: nat)
    requires b < |blocks| && p < |blocks[b]|
    ensures Offset(blocks, b) + p < |All(blocks)| && All(blocks)[Offset(blocks, b) + p] == blocks[b][p]
  {
    FlatAt(blocks, |blocks|, b, p);
  }

  /** Everything before block b's start is before t when index key b - 1 is. */
  lemma BeforeStart(keys: seq<Entry>, blocks: seq<seq<Entry>>, t: InternalKey, b: nat, x: nat)
    requires Indexed(keys, blocks) && b <= |blocks| && x < Offset(blocks, b)
    requires forall d :: 0 <= d < b ==> Before(keys[d].key, t)
    ensures x < |All(blocks)| && Before(All(blocks)[x].key, t)
  {
    var d, p := Locate(blocks, b, x);
    AllAt(blocks, d, p);
    assert Divides(keys, blocks, d);
  }

  lemma AfterBlock(keys: seq<Entry>, blocks: seq<seq<Entry>>, t: InternalKey, b: nat, x: nat)
    requires Indexed(keys, blocks) && b < |blocks| && !Before(keys[b].key, t)
    requires Offset(blocks, b + 1) <= x < |All(blocks)|
    ensures !Before(All(blocks)[x].key, t)
  {
    var d, p := Locate(blocks, |blocks|, x);
    AllAt(blocks, d, p);
    if d <= b {
      OffsetGrows(blocks, d + 1, b + 1);
    }
    assert Divides(keys, blocks, b);
  }

  lemma BeforeTarget(keys: seq<Entry>, blocks: seq<seq<Entry>>, t: InternalKey, b: nat, x: nat)
    requires Indexed(keys, blocks) && b == SeekIndex(keys, t) < |blocks| && x < Offset(blocks, b) + SeekIndex(blocks[b], t)
    ensures x < |All(blocks)| && Before(All(blocks)[x].key, t)
  {
    if x < Offset(blocks, b) {
      BeforeStart(keys, blocks, t, b, x);
    } else {
      AllAt(blocks, b, x - Offset(blocks, b));
    }
  }

  /** Seeking the index and then the block lands where a seek of the concatenation does. */
  lemma SeekThroughIndex(keys: seq<Entry>, blocks: seq<seq<Entry>>, t: InternalKey)
    requires Indexed(keys, blocks)
    ensures var b := SeekIndex(keys, t);
            if b < |blocks| then SeekIndex(All(blocks), t) == Offset(blocks, b) + SeekIndex(blocks[b], t)
            else SeekIndex(All(blocks), t) == |All(blocks)|
  {
    var b := SeekIndex(keys, t);
    var all := All(blocks);
    if b < |blocks| {
      var q := SeekIndex(blocks[b], t);
      var n := Offset(blocks, b) + q;
      OffsetGrows(blocks, b + 1, |blocks|);
      forall x | 0 <= x < n ensures Before(all[x].key, t) {
        BeforeTarget(keys, blocks, t, b, x);
      }
      if n < |all| {
        if q < |blocks[b]| {
          AllAt(blocks, b, q);
        } else {
          AfterBlock(keys, blocks, t, b, n);
        }
      }
      SeekIs(all, t, n);
    } else {
      forall x | 0 <= x < |all| ensures Before(all[x].key, t) {
        BeforeStart(keys, blocks, t, |blocks|, x);
      }
      SeekIs(all, t, |all|);
    }
  }

  /** The position sought, as the index and the block show it. */
  lemma SeekTarget(keys: seq<Entry>, blocks: seq<seq<Entry>>, t: InternalKey) returns (c: nat)
    requires Indexed(keys, blocks)
    ensures c == SeekIndex(All(blocks), t) <= |All(blocks)|
    ensures At(keys, SeekIndex(keys, t)).None? ==> c == |All(blocks)|
    ensures At(keys, SeekIndex(keys, t)).Some? ==>
              var b := At(keys, SeekIndex(keys, t)).value;
              var p := At(blocks[b], SeekIndex(blocks[b], t));
              c == if p.Some? then Offset(blocks, b) + p.value else Offset(blocks, b + 1)
  {
    SeekThroughIndex(keys, blocks, t);
    c := SeekIndex(All(blocks), t);
  }

  lemma SeekIs(es: seq<Entry>, t: InternalKey, n: nat)
    requires n <= |es| && (forall x :: 0 <= x < n ==> Before(es[x].key, t)) && (n < |es| ==> !Before(es[n].key, t))
    ensures SeekIndex(es, t) == n
  {
  }

  /** Seek of the index iterator, then of the data iterator on its block. */
  method SeekBoth(keys: seq<Entry>, blocks: seq<seq<Entry>>, t: InternalKey) returns (index: Option<nat>, pos: Option<nat>, ghost c: nat)
    requires Indexed(keys, blocks)
    ensures OnList(keys, index) && c == SeekIndex(All(blocks), t) <= |All(blocks)|
    ensures index.None? ==> c == |All(blocks)| && pos.None?
    ensures index.Some? ==> OnList(blocks[index.value], pos)
    ensures index.Some? ==> c == if pos.Some? then Offset(blocks, index.value) + pos.value else Offset(blocks, index.value + 1)
  {
    c := SeekTarget(keys, blocks, t);
    index := Moved(keys, Seek(t), None);
    pos := if index.Some? then Moved(blocks[index.value], Seek(t), None) else None;
  }

  // ----- the iterator

  /** data_iter_: none, or a cursor on the block that data_block_handle_ names. */
  datatype Data = NoData | Data(block: nat, pos: Option<nat>)

  class TwoLevelIterator {
    const keys: seq<Entry>
    const blocks: seq<seq<Entry>>
    var index: Option<nat>
    var data: Data

    constructor (keys: seq<Entry>, blocks: seq<seq<Entry>>)
      requires Indexed(keys, blocks)
      ensures Valid() && this.keys == keys && this.blocks == blocks && Cursor() == None
    {
      this.keys, this.blocks, index, data := keys, blocks, None, NoData;
    }

    ghost predicate Valid() reads this {
      && Indexed(keys, blocks) && OnList(keys, index)
      && (data.Data? ==> data.block < |blocks| && OnList(blocks[data.block], data.pos))
      && (data.Data? && index.Some? ==> data.block == index.value)
      && (index.None? ==> data.NoData?)
    }

    predicate IsValid() reads this { data.Data? && data.pos.Some? }

    /** Where the iterator stands on the concatenation. */
    ghost function Cursor(): (c: Option<nat>)
      requires Valid()
      reads this
    {
      if IsValid() then Some(Offset(blocks, data.block) + data.pos.value) else None
    }

    method Current() returns (e: Entry)
      requires Valid() && IsValid()
      ensures Cursor().value < |All(blocks)| && e == All(blocks)[Cursor().value]
    {
      AllAt(blocks, data.block, data.pos.value);
      e := blocks[data.block][data.pos.value];
    }

    /** InitDataBlock: the same block keeps its iterator, and its position. */
    method InitDataBlock()
      requires Indexed(keys, blocks) && OnList(keys, index)
      requires data.Data? ==> data.block < |blocks| && OnList(blocks[data.block], data.pos)
      modifies this
      ensures index == old(index) && Valid()
      ensures index.Some? ==> data.Data?
    {
      if index.None? {
        data := NoData;
      } else if !(data.Data? && data.block == index.value) {
        data := Data(index.value, None);
      }
    }

    /** SkipEmptyDataBlocksForward: on to the first entry at or past position c. */
    method SkipForward(ghost c: nat)
      requires Valid() && c <= |All(blocks)| && (index.Some? ==> data.Data?)
      requires if IsValid() then Cursor() == Some(c)
               else c == if index.Some? then Offset(blocks, index.value + 1) else |All(blocks)|
      modifies this
      ensures Valid() && Cursor() == At(All(blocks), c)
    {
      while !IsValid()
        invariant Valid() && (index.Some? ==> data.Data?)
        invariant if IsValid() then Cursor() == Some(c)
                  else c == if index.Some? then Offset(blocks, index.value + 1) else |All(blocks)|
        decreases !IsValid(), if index.Some? then |blocks| - index.value else 0
      {
        if index.None? {
          data := NoData;
          return;
        }
        index := Moved(keys, Move.Next, index);
        InitDataBlock();
        if data.Data? {
          data := data.(pos := Moved(blocks[data.block], First, data.pos));
        }
      }
      AllAt(blocks, data.block, data.pos.value);
    }

    /** SkipEmptyDataBlocksBackward: back to the last entry before position c. */
    method SkipBackward(ghost c: nat)
      requires Valid() && c <= |All(blocks)| && (index.Some? ==> data.Data?)
      requires if IsValid() then Cursor() == At(All(blocks), c - 1)
               else c == if index.Some? then Offset(blocks, index.value) else 0
      modifies this
      ensures Valid() && Cursor() == At(All(blocks), c - 1)
    {
      while !IsValid()
        invariant Valid() && (index.Some? ==> data.Data?)
        invariant if IsValid() then Cursor() == At(All(blocks), c - 1)
                  else c == if index.Some? then Offset(blocks, index.value) else 0
        decreases !IsValid(), if index.Some? then index.value + 1 else 0
      {
        if index.None? {
          data := NoData;
          return;
        }
        index := Moved(keys, Move.Prev, index);
        InitDataBlock();
        if data.Data? {
          data := data.(pos := Moved(blocks[data.block], Last, data.pos));
        }
      }
    }

    method Seek(target: InternalKey)
      requires Valid()
      modifies this
      ensures Valid() && Cursor() == At(All(blocks), SeekIndex(All(blocks), target))
    {
      var pos;
      ghost var c;
      index, pos, c := SeekBoth(keys, blocks, target);
      InitDataBlock();
      if data.Data? {
        data := data.(pos := pos);
      }
      SkipForward(c);
    }

    method SeekToFirst()
      requires Valid()
      modifies this
      ensures Valid() && Cursor() == At(All(blocks), 0)
    {
      index := Moved(keys, First, index);
      InitDataBlock();
      if data.Data? {
        data := data.(pos := Moved(blocks[data.block], First, data.pos));
      }
      SkipForward(0);
    }

    method SeekToLast()
      requires Valid()
      modifies this
      ensures Valid() && Cursor() == At(All(blocks), |All(blocks)| - 1)
    {
      index := Moved(keys, Last, index);
      InitDataBlock();
      if data.Data? {
        data := data.(pos := Moved(blocks[data.block], Last, data.pos));
      }
      SkipBackward(|All(blocks)|);
    }

    method Next()
      requires Valid() && IsValid()
      modifies this
      ensures Valid() && Cursor() == At(All(blocks), old(Cursor()).value + 1)
    {
      AllAt(blocks, data.block, data.pos.value);
      ghost var c := Cursor().value;
      data := data.(pos := Moved(blocks[data.block], Move.Next, data.pos));
      SkipForward(c + 1);
    }

    method Prev()
      requires Valid() && IsValid()
      modifies this
      ensures Valid() && Cursor() == At(All(blocks), old(Cursor()).value - 1)
    {
      AllAt(blocks, data.block, data.pos.value);
      ghost var c := Cursor().value;
      data := data.(pos := Moved(blocks[data.block], Move.Prev, data.pos));
      SkipBackward(c);
    }

    /** Any legal run of moves is a run of the cursor over the concatenation. */
    method PerformAll(moves: seq<Move>)
      requires Valid() && OnList(All(blocks), Cursor()) && Legal(All(blocks), moves, Cursor())
      modifies this
      ensures Valid() && Cursor() == MovedAll(All(blocks), moves, old(Cursor()))
    {
      var i := 0;
      assert moves[0..] == moves;
      while i < |moves|
        invariant 0 <= i <= |moves| && Valid() && OnList(All(blocks), Cursor()) && Legal(All(blocks), moves[i..], Cursor())
        invariant MovedAll(All(blocks), moves[i..], Cursor()) == MovedAll(All(blocks), moves, old(Cursor()))
        decreases |moves| - i
      {
        assert moves[i..][0] == moves[i] && moves[i..][1..] == moves[i + 1..];
        match moves[i] {
          case First => SeekToFirst();
          case Last => SeekToLast();
          case Seek(t) => Seek(t);
          case Next => Next();
          case Prev => Prev();
        }
        i := i + 1;
      }
    }
  }
}

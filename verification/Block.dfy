/** Prefix-compressed blocks with restart points, and the iterator that reads them back. */
module Block {
  import opened Keys
  import opened Coding

  datatype Pair = Pair(key: Bytes, value: Bytes)

  /** A comparator's "sorts before". */
  type Order = (Bytes, Bytes) -> bool

  ghost predicate Transitive(less: Order) {
    forall a, b, c :: less(a, b) && less(b, c) ==> less(a, c)
  }

  ghost predicate Increasing(less: Order, es: seq<Pair>) {
    forall i, j :: 0 <= i < j < |es| ==> less(es[i].key, es[j].key)
  }

  // ----- the layout

  /** What follows the shared bytes of the key. */
  function Delta(e: Pair, shared: nat): (d: Bytes) { if shared <= |e.key| then e.key[shared..] else [] }

  /** <shared><non_shared><value_size>, the rest of the key, the value. */
  function EncodeEntry(e: Pair, shared: nat): (r: Bytes)
    ensures |r| >= 3
  {
    Varint(shared) + Varint(|Delta(e, shared)|) + Varint(|e.value|) + Delta(e, shared) + e.value
  }

  /** Entry k starts at offs[k] and takes shared[k] bytes from key k - 1; entries at the starts take none. */
  datatype Layout = Layout(es: seq<Pair>, shared: seq<nat>, offs: seq<nat>, starts: seq<nat>) {
    ghost predicate Shape() {
      |shared| == |es| && |offs| == |es| + 1 && offs[0] == 0 && starts != [] && starts[0] == 0
    }

    ghost predicate Ok() {
      && Shape()
      && (forall k {:trigger EntryOk(k)} :: 0 <= k < |es| ==> EntryOk(k))
      && (forall r {:trigger StartOk(r)} :: 0 <= r < |starts| ==> StartOk(r))
    }

    ghost predicate EntryOk(k: nat)
      requires Shape() && k < |es|
    {
      && offs[k + 1] == offs[k] + |EncodeEntry(es[k], shared[k])|
      && shared[k] <= |es[k].key|
      && (if k == 0 then shared[k] == 0 else shared[k] <= |es[k - 1].key| && es[k].key[..shared[k]] == es[k - 1].key[..shared[k]])
    }

    ghost predicate StartOk(r: nat)
      requires Shape() && r < |starts|
    {
      && r <= starts[r] <= |es| && (starts[r] < |es| ==> shared[starts[r]] == 0)
      && (r > 0 ==> starts[r - 1] < starts[r] < |es|)
    }

    /** Where the restart array starts. */
    ghost function Limit(): (n: nat)
      requires Shape()
    {
      offs[|es|]
    }
  }

  lemma {:induction false} OffsetsGrow(l: Layout, i: nat, j: nat)
    requires l.Ok() && i <= j <= |l.es|
    ensures l.offs[i] + 3 * (j - i) <= l.offs[j]
    decreases j
  {
    if i < j {
      OffsetsGrow(l, i, j - 1);
      assert l.EntryOk(j - 1);
    }
  }

  lemma OffsetOrder(l: Layout, i: nat, j: nat)
    requires l.Ok() && i <= |l.es| && j <= |l.es|
    ensures l.offs[i] < l.offs[j] <==> i < j
  {
    if i < j {
      OffsetsGrow(l, i, j);
    } else {
      OffsetsGrow(l, j, i);
    }
  }

  // ----- bytes that follow a layout

  /** Entry k's bytes are where the layout says. */
  ghost predicate Piece(b: Bytes, l: Layout, k: nat)
    requires l.Shape() && k < |l.es|
  {
    l.offs[k] <= l.offs[k + 1] <= |b| && b[l.offs[k]..l.offs[k + 1]] == EncodeEntry(l.es[k], l.shared[k])
  }

  ghost predicate Holds(b: Bytes, l: Layout)
    requires l.Shape()
  {
    l.Limit() <= |b| && forall k {:trigger Piece(b, l, k)} :: 0 <= k < |l.es| ==> Piece(b, l, k)
  }

  ghost predicate RestartWord(b: Bytes, l: Layout, r: nat)
    requires l.Ok() && r < |l.starts|
  {
    && l.StartOk(r)
    && l.Limit() + 4 * r + 4 <= |b| && b[l.Limit() + 4 * r..l.Limit() + 4 * r + 4] == Fixed(l.offs[l.starts[r]], 4)
  }

  /** What Finish returns: the entries, the restart points, their number. */
  ghost predicate Finished(b: Bytes, l: Layout) {
    && l.Ok() && Holds(b, l) && |b| == l.Limit() + 4 * |l.starts| + 4
    && (forall r {:trigger RestartWord(b, l, r)} :: 0 <= r < |l.starts| ==> RestartWord(b, l, r))
    && b[|b| - 4..] == Fixed(|l.starts|, 4)
  }

  predicate Fits(e: Pair) { |e.key| + |e.value| < TWO32 }

  /** Sizes and offsets are uint32_t. */
  ghost predicate Small(b: Bytes, l: Layout) {
    |b| < TWO32 && forall k {:trigger Fits(l.es[k])} :: 0 <= k < |l.es| ==> Fits(l.es[k])
  }

  // ----- decoding one entry

  datatype Header = Header(shared: nat, nonShared: nat, valueLength: nat)

  /** The three lengths at the front of b. */
  function ReadHeader(b: Bytes): (r: Parsed<Header>)
    ensures r.Got? ==> |r.rest| < |b|
  {
    match Read32(b)
    case Fail(rest) => Fail(rest)
    case Got(shared, rest) =>
      match Read32(rest)
      case Fail(rest') => Fail(rest')
      case Got(nonShared, rest') =>
        match Read32(rest')
        case Fail(rest'') => Fail(rest'')
        case Got(valueLength, rest'') => Got(Header(shared, nonShared, valueLength), rest'')
  }

  /** DecodeEntry: None unless the lengths, the delta and the value fit in b. The one-byte fast path agrees. */
  function DecodeEntry(b: Bytes): (r: Parsed<Header>)
    ensures r.Got? ==> |r.rest| < |b|
  {
    if |b| < 3 then Fail(b)
    else
      match ReadHeader(b)
      case Fail(rest) => Fail(rest)
      case Got(h, rest) => if |rest| < (h.nonShared + h.valueLength) % TWO32 then Fail(rest) else Got(h, rest)
  }

  lemma HeaderRoundTrip(a: nat, b: nat, c: nat, rest: Bytes)
    requires a < TWO32 && b < TWO32 && c < TWO32
    ensures ReadHeader(Varint(a) + (Varint(b) + (Varint(c) + rest))) == Got(Header(a, b, c), rest)
  {
    Read32RoundTrip(a, Varint(b) + (Varint(c) + rest));
    Read32RoundTrip(b, Varint(c) + rest);
    Read32RoundTrip(c, rest);
  }

  lemma Regroup(a: Bytes, b: Bytes, c: Bytes, d: Bytes, e: Bytes, tail: Bytes)
    ensures a + b + c + d + e + tail == a + (b + (c + (d + e + tail)))
  {
  }

  lemma EntryRoundTrip(e: Pair, shared: nat, tail: Bytes)
    requires shared <= |e.key| && Fits(e)
    ensures DecodeEntry(EncodeEntry(e, shared) + tail) ==
            Got(Header(shared, |e.key| - shared, |e.value|), Delta(e, shared) + e.value + tail)
  {
    var rest := Delta(e, shared) + e.value + tail;
    Regroup(Varint(shared), Varint(|e.key| - shared), Varint(|e.value|), Delta(e, shared), e.value, tail);
    HeaderRoundTrip(shared, |e.key| - shared, |e.value|, rest);
    DecodeIsHeader(EncodeEntry(e, shared) + tail, Header(shared, |e.key| - shared, |e.value|), rest);
  }

  lemma DecodeIsHeader(b: Bytes, h: Header, rest: Bytes)
    requires |b| >= 3 && ReadHeader(b) == Got(h, rest) && h.nonShared + h.valueLength <= |rest| && h.nonShared + h.valueLength < TWO32
    ensures DecodeEntry(b) == Got(h, rest)
  {
    ModSmall(h.nonShared + h.valueLength, TWO32);
  }

  // ----- finished blocks

  /** GetRestartPoint */
  function RestartPoint(data: Bytes, limit: nat, index: nat): (n: nat)
    requires limit + 4 * index + 4 <= |data|
  {
    Unfixed(data[limit + 4 * index..limit + 4 * index + 4])
  }

  lemma WordRoundTrip(n: nat)
    requires n < TWO32
    ensures Unfixed(Fixed(n, 4)) == n
  {
    FixedLimits();
    FixedRoundTrip(n, 4);
  }

  lemma RestartPointIs(b: Bytes, l: Layout, r: nat)
    requires Finished(b, l) && |b| < TWO32 && r < |l.starts|
    ensures l.StartOk(r) && RestartPoint(b, l.Limit(), r) == l.offs[l.starts[r]]
  {
    assert RestartWord(b, l, r);
    OffsetsGrow(l, l.starts[r], |l.es|);
    WordRoundTrip(l.offs[l.starts[r]]);
  }

  /** Block::Block: the restart count is the last word; the restart array ends just before it. */
  function OpenBlock(data: Bytes): (r: Option<(nat, nat)>)
    ensures r.Some? ==> r.value.0 + 4 * r.value.1 + 4 == |data|
  {
    if |data| < 4 then None
    else
      var num := Unfixed(data[|data| - 4..]);
      if num > (|data| - 4) / 4 then None else Some((|data| - (1 + num) * 4, num))
  }

  lemma OpenFinds(b: Bytes, l: Layout)
    requires Finished(b, l) && |b| < TWO32
    ensures OpenBlock(b) == Some((l.Limit(), |l.starts|))
  {
    WordRoundTrip(|l.starts|);
  }

  lemma EncodedPieces(e: Pair, shared: nat)
    ensures var enc, delta := EncodeEntry(e, shared), Delta(e, shared);
            |delta| + |e.value| <= |enc| && enc[|enc| - |delta| - |e.value|..] == delta + e.value
  {
  }

  /** The entry read from the bytes b that run up to limit. */
  ghost predicate Shows(data: Bytes, limit: nat, b: Bytes, e: Pair, shared: nat, end: nat) {
    ShowsAs(data, limit, DecodeEntry(b), e, shared, end)
  }

  ghost predicate ShowsAs(data: Bytes, limit: nat, r: Parsed<Header>, e: Pair, shared: nat, end: nat) {
    && shared <= |e.key|
    && r.Got? && r.value == Header(shared, |e.key| - shared, |e.value|)
    && |r.rest| <= limit
    && var p := limit - |r.rest|;
    && p + |e.key| - shared + |e.value| == end <= |data|
    && data[p..p + |e.key| - shared] == Delta(e, shared)
    && data[p + |e.key| - shared..end] == e.value
  }

  /** What DecodeEntry makes of the bytes at entry k. */
  lemma EntryAt(b: Bytes, l: Layout, k: nat)
    requires Finished(b, l) && Small(b, l) && k < |l.es|
    ensures l.offs[k] < l.offs[k + 1] <= l.Limit() <= |b|
    ensures Shows(b, l.Limit(), b[l.offs[k]..l.Limit()], l.es[k], l.shared[k], l.offs[k + 1])
  {
    assert Piece(b, l, k) && l.EntryOk(k) && Fits(l.es[k]);
    OffsetsGrow(l, k + 1, |l.es|);
    ShowsAt(b, l.offs[k], l.offs[k + 1], l.Limit(), l.es[k], l.shared[k]);
  }

  lemma ShowsAt(b: Bytes, lo: nat, mid: nat, hi: nat, e: Pair, shared: nat)
    requires lo <= mid <= hi <= |b| && b[lo..mid] == EncodeEntry(e, shared) && shared <= |e.key| && Fits(e)
    ensures Shows(b, hi, b[lo..hi], e, shared, mid)
  {
    SliceSplit(b, lo, mid, hi);
    EntryRoundTrip(e, shared, b[mid..hi]);
    EncodedPieces(e, shared);
    TailPieces(b, lo, hi, EncodeEntry(e, shared), Delta(e, shared), e.value, b[mid..hi]);
  }

  lemma SliceSplit(b: Bytes, i: nat, j: nat, k: nat)
    requires i <= j <= k <= |b|
    ensures b[i..k] == b[i..j] + b[j..k]
  {
  }

  /** The last pieces of a slice, found from its end. */
  lemma TailPieces(data: Bytes, lo: nat, hi: nat, enc: Bytes, delta: Bytes, value: Bytes, tail: Bytes)
    requires lo <= hi <= |data| && data[lo..hi] == enc + tail
    requires |delta| + |value| <= |enc| && enc[|enc| - |delta| - |value|..] == delta + value
    ensures var p := hi - |delta + value + tail|;
            && p + |delta| + |value| == lo + |enc| && lo <= p
            && data[p..p + |delta|] == delta && data[p + |delta|..lo + |enc|] == value
  {
    var p := hi - |delta + value + tail|;
    assert |data[lo..hi]| == hi - lo;
    forall i | 0 <= i < |delta|
      ensures data[p + i] == delta[i]
    {
      assert data[p + i] == data[lo..hi][p + i - lo] == enc[p + i - lo] == enc[|enc| - |delta| - |value|..][i];
    }
    forall i | 0 <= i < |value|
      ensures data[p + |delta| + i] == value[i]
    {
      assert data[p + |delta| + i] == data[lo..hi][p + |delta| + i - lo] == enc[|enc| - |delta| - |value|..][|delta| + i];
    }
  }

  // ----- the iterator's moves, on its fields

  /** current_, restart_index_, key_ and the slice value_. */
  datatype Place = Place(current: nat, restartIndex: nat, key: Bytes, valueStart: nat, valueLength: nat) {
    function NextOffset(): (n: nat) { valueStart + valueLength }
  }

  /** A block as the reader opened it. */
  datatype View = View(data: Bytes, limit: nat, num: nat)

  ghost predicate Opened(v: View, l: Layout) {
    Finished(v.data, l) && Small(v.data, l) && v.limit == l.Limit() && v.num == |l.starts|
  }

  ghost predicate InRestart(l: Layout, r: nat, k: nat) { r < |l.starts| && l.starts[r] <= k }

  /** ParseNextKey would read entry k. */
  ghost predicate Ready(l: Layout, c: Place, k: nat) {
    && l.Shape() && k <= |l.es| && c.NextOffset() == l.offs[k] && InRestart(l, c.restartIndex, k)
    && (k < |l.es| && l.shared[k] > 0 ==> k > 0 && c.key == l.es[k - 1].key)
  }

  /** The iterator shows entry k. */
  ghost predicate AtEntry(v: View, l: Layout, c: Place, k: nat) {
    && l.Shape() && k < |l.es| && c.current == l.offs[k] < v.limit && c.key == l.es[k].key && InRestart(l, c.restartIndex, k)
    && c.NextOffset() == l.offs[k + 1] <= |v.data| && v.data[c.valueStart..c.NextOffset()] == l.es[k].value
  }

  /** Entry k, or past the end. */
  ghost predicate Stands(v: View, l: Layout, c: Place, k: nat) {
    if k < |l.es| then AtEntry(v, l, c, k) else k == |l.es| && c.current >= v.limit
  }

  lemma AtIsReady(v: View, l: Layout, c: Place, k: nat)
    requires AtEntry(v, l, c, k)
    ensures Ready(l, c, k + 1)
  {
  }

  function Invalid(v: View, c: Place): (r: Place) { c.(current := v.limit, restartIndex := v.num) }

  /** The last loop of ParseNextKey. */
  method AdvanceRestart(v: View, r: nat, current: nat, ghost l: Layout, ghost k: nat) returns (r': nat)
    requires Opened(v, l) && InRestart(l, r, k) && k <= |l.es| && current == l.offs[k]
    ensures InRestart(l, r', k)
  {
    r' := r;
    while r' + 1 < v.num
      invariant InRestart(l, r', k)
      decreases v.num - r'
    {
      RestartPointIs(v.data, l, r' + 1);
      if RestartPoint(v.data, v.limit, r' + 1) >= current {
        break;
      }
      OffsetOrder(l, l.starts[r' + 1], k);
      r' := r' + 1;
    }
  }

  /** The key is rebuilt from the previous one and the delta. */
  lemma KeyRebuilt(l: Layout, c: Place, k: nat)
    requires l.Ok() && k < |l.es| && Ready(l, c, k)
    ensures l.shared[k] <= |c.key| && c.key[..l.shared[k]] + Delta(l.es[k], l.shared[k]) == l.es[k].key
  {
    assert l.EntryOk(k);
  }

  method ParseNextKey(v: View, c: Place, ghost l: Layout, ghost k: nat) returns (ok: bool, c': Place)
    requires Opened(v, l) && Ready(l, c, k)
    ensures ok == (k < |l.es|) && Stands(v, l, c', k)
  {
    var current := c.NextOffset();
    OffsetOrder(l, k, |l.es|);
    if current >= v.limit {
      return false, Invalid(v, c);
    }
    EntryAt(v.data, l, k);
    KeyRebuilt(l, c, k);
    c' := DecodeAt(v, c, current, l.es[k], l.shared[k], l.offs[k + 1]);
    var r := AdvanceRestart(v, c.restartIndex, current, l, k);
    c' := c'.(restartIndex := r);
    ok := true;
  }

  /** Decode the entry at `current` and apply it to the key. */
  method DecodeAt(v: View, c: Place, current: nat, ghost e: Pair, ghost shared: nat, ghost end: nat) returns (c': Place)
    requires current <= v.limit <= |v.data| && Shows(v.data, v.limit, v.data[current..v.limit], e, shared, end)
    requires shared <= |c.key| && c.key[..shared] + Delta(e, shared) == e.key
    ensures c'.current == current && c'.key == e.key && c'.NextOffset() == end <= |v.data| && v.data[c'.valueStart..end] == e.value
  {
    var r := DecodeEntry(v.data[current..v.limit]);
    c' := Apply(v.data, v.limit, c, current, r, e, shared, end);
  }

  method Apply(data: Bytes, limit: nat, c: Place, current: nat, r: Parsed<Header>, ghost e: Pair, ghost shared: nat, ghost end: nat)
    returns (c': Place)
    requires ShowsAs(data, limit, r, e, shared, end) && shared <= |c.key| && c.key[..shared] + Delta(e, shared) == e.key
    ensures c'.current == current && c'.key == e.key && c'.NextOffset() == end <= |data| && data[c'.valueStart..end] == e.value
  {
    var h, p := r.value, limit - |r.rest|;
    c' := Place(current, c.restartIndex, c.key[..h.shared] + data[p..p + h.nonShared], p + h.nonShared, h.valueLength);
  }

  /** SeekToRestartPoint */
  method SeekToRestart(v: View, c: Place, index: nat, ghost l: Layout) returns (c': Place)
    requires Opened(v, l) && index < |l.starts|
    ensures Ready(l, c', l.starts[index]) && c'.restartIndex == index
  {
    RestartPointIs(v.data, l, index);
    c' := Place(c.current, index, [], RestartPoint(v.data, v.limit, index), 0);
  }

  method StepNext(v: View, c: Place, ghost l: Layout, ghost k: nat) returns (c': Place)
    requires Opened(v, l) && AtEntry(v, l, c, k)
    ensures Stands(v, l, c', k + 1)
  {
    AtIsReady(v, l, c, k);
    var ok;
    ok, c' := ParseNextKey(v, c, l, k + 1);
  }

  /** The first loop of Prev: back to a restart point strictly before the current entry, if there is one. */
  method BackUp(v: View, c: Place, ghost l: Layout, ghost k: nat) returns (found: bool, r: nat)
    requires Opened(v, l) && AtEntry(v, l, c, k)
    ensures found <==> k > 0
    ensures found ==> r < |l.starts| && l.starts[r] < k
  {
    r := c.restartIndex;
    while true
      invariant InRestart(l, r, k)
      decreases r
    {
      RestartPointIs(v.data, l, r);
      OffsetOrder(l, l.starts[r], k);
      if RestartPoint(v.data, v.limit, r) < c.current {
        return true, r;
      }
      if r == 0 {
        return false, r;
      }
      r := r - 1;
    }
  }

  /** ParseNextKey when there is an entry to read. */
  method ParseEntry(v: View, c: Place, ghost l: Layout, ghost k: nat) returns (c': Place)
    requires Opened(v, l) && Ready(l, c, k) && k < |l.es|
    ensures AtEntry(v, l, c', k) && Ready(l, c', k + 1)
  {
    var ok;
    ok, c' := ParseNextKey(v, c, l, k);
    AtIsReady(v, l, c', k);
  }

  /** Parse on from entry j, until the current entry ends at or past `stop`, where entry k starts. */
  method ParseUpTo(v: View, c: Place, stop: nat, ghost l: Layout, ghost j: nat, ghost k: nat) returns (c': Place)
    requires Opened(v, l) && Ready(l, c, j) && j < k <= |l.es| && stop == l.offs[k]
    ensures AtEntry(v, l, c', k - 1)
  {
    ghost var i := j;
    c' := ParseEntry(v, c, l, i);
    while c'.NextOffset() < stop
      invariant j <= i < k && AtEntry(v, l, c', i) && Ready(l, c', i + 1)
      decreases k - i
    {
      OffsetOrder(l, i + 1, k);
      i := i + 1;
      c' := ParseEntry(v, c', l, i);
    }
    OffsetOrder(l, i + 1, k);
  }

  /** Prev lands on the true predecessor. */
  method StepPrev(v: View, c: Place, ghost l: Layout, ghost k: nat) returns (c': Place)
    requires Opened(v, l) && AtEntry(v, l, c, k)
    ensures Stands(v, l, c', if k > 0 then k - 1 else |l.es|)
  {
    var found, r := BackUp(v, c, l, k);
    if !found {
      return Invalid(v, c);
    }
    c' := SeekToRestart(v, c, r, l);
    c' := ParseUpTo(v, c', c.current, l, l.starts[r], k);
  }

  function LastPos(es: seq<Pair>): (n: nat) { if |es| > 0 then |es| - 1 else 0 }

  method MoveToLast(v: View, c: Place, ghost l: Layout) returns (c': Place)
    requires Opened(v, l)
    ensures Stands(v, l, c', LastPos(l.es))
  {
    c' := SeekToRestart(v, c, v.num - 1, l);
    assert l.StartOk(|l.starts| - 1);
    if c'.NextOffset() >= v.limit {
      OffsetOrder(l, l.starts[|l.starts| - 1], |l.es|);
      return Invalid(v, c');
    }
    OffsetOrder(l, l.starts[|l.starts| - 1], |l.es|);
    c' := ParseUpTo(v, c', v.limit, l, l.starts[|l.starts| - 1], |l.es|);
  }

  method MoveToFirst(v: View, c: Place, ghost l: Layout) returns (c': Place)
    requires Opened(v, l)
    ensures Stands(v, l, c', 0)
  {
    c' := SeekToRestart(v, c, 0, l);
    var ok;
    ok, c' := ParseNextKey(v, c', l, 0);
  }

  // ----- seeking

  /** A linear search for the first key at or past the target. */
  ghost function FirstAtOrPast(less: Order, es: seq<Pair>, target: Bytes, i: nat): (k: nat)
    requires i <= |es|
    ensures i <= k <= |es| && (forall j :: i <= j < k ==> less(es[j].key, target)) && (k < |es| ==> !less(es[k].key, target))
    decreases |es| - i
  {
    if i == |es| || !less(es[i].key, target) then i else FirstAtOrPast(less, es, target, i + 1)
  }

  lemma {:induction false} FirstIsLater(less: Order, es: seq<Pair>, target: Bytes, i: nat, j: nat)
    requires i <= j <= |es| && forall m :: i <= m < j ==> less(es[m].key, target)
    ensures FirstAtOrPast(less, es, target, i) == FirstAtOrPast(less, es, target, j)
    decreases j - i
  {
    if i < j {
      FirstIsLater(less, es, target, i + 1, j);
    }
  }

  lemma AllBefore(less: Order, es: seq<Pair>, target: Bytes, s: nat)
    requires Transitive(less) && Increasing(less, es) && s < |es| && less(es[s].key, target)
    ensures forall m :: 0 <= m <= s ==> less(es[m].key, target)
  {
    forall m | 0 <= m <= s ensures less(es[m].key, target) {
      if m < s {
        assert less(es[m].key, es[s].key);
      }
    }
  }

  /** The key at a restart point, straight from the bytes. */
  method RestartKey(v: View, index: nat, ghost l: Layout) returns (key: Bytes)
    requires Opened(v, l) && 0 < index < |l.starts|
    ensures l.starts[index] < |l.es| && key == l.es[l.starts[index]].key
  {
    ghost var k := l.starts[index];
    RestartPointIs(v.data, l, index);
    EntryAt(v.data, l, k);
    var offset := RestartPoint(v.data, v.limit, index);
    key := KeyAt(v, offset, l.es[k], l.offs[k + 1]);
  }

  method KeyAt(v: View, offset: nat, ghost e: Pair, ghost end: nat) returns (key: Bytes)
    requires offset <= v.limit <= |v.data| && Shows(v.data, v.limit, v.data[offset..v.limit], e, 0, end)
    ensures key == e.key
  {
    var r := DecodeEntry(v.data[offset..v.limit]);
    key := KeyFrom(v.data, v.limit, r, e, end);
  }

  method KeyFrom(data: Bytes, limit: nat, r: Parsed<Header>, ghost e: Pair, ghost end: nat) returns (key: Bytes)
    requires ShowsAs(data, limit, r, e, 0, end)
    ensures key == e.key
  {
    var p := limit - |r.rest|;
    assert Delta(e, 0) == e.key;
    key := data[p..p + r.value.nonShared];
  }

  /** The binary search of Seek over the restart points. */
  method FindRestart(v: View, less: Order, target: Bytes, ghost l: Layout) returns (left: nat)
    requires Opened(v, l)
    ensures left < |l.starts| && (left > 0 ==> l.starts[left] < |l.es| && less(l.es[l.starts[left]].key, target))
  {
    left := 0;
    var right := v.num - 1;
    while left < right
      invariant 0 <= left <= right < |l.starts| && (left > 0 ==> l.starts[left] < |l.es| && less(l.es[l.starts[left]].key, target))
      decreases right - left
    {
      var mid := (left + right + 1) / 2;
      var key := RestartKey(v, mid, l);
      if less(key, target) {
        left := mid;
      } else {
        right := mid - 1;
      }
    }
  }

  /** Seek equals the linear search. */
  method SeekTo(v: View, c: Place, less: Order, target: Bytes, ghost l: Layout) returns (c': Place)
    requires Opened(v, l) && Transitive(less) && Increasing(less, l.es)
    ensures Stands(v, l, c', FirstAtOrPast(less, l.es, target, 0))
  {
    var left := FindRestart(v, less, target, l);
    c' := SeekToRestart(v, c, left, l);
    ghost var k := l.starts[left];
    assert l.StartOk(left);
    if left > 0 {
      AllBefore(less, l.es, target, k);
    }
    FirstIsLater(less, l.es, target, 0, k);
    c' := ScanTo(v, c', less, target, l, k);
  }

  method ScanTo(v: View, c: Place, less: Order, target: Bytes, ghost l: Layout, ghost start: nat) returns (c': Place)
    requires Opened(v, l) && Ready(l, c, start)
    ensures Stands(v, l, c', FirstAtOrPast(less, l.es, target, start))
  {
    ghost var k := start;
    c' := c;
    while true
      invariant Ready(l, c', k) && FirstAtOrPast(less, l.es, target, k) == FirstAtOrPast(less, l.es, target, start)
      decreases |l.es| - k
    {
      var ok;
      ok, c' := ParseNextKey(v, c', l, k);
      if !ok || !less(c'.key, target) {
        return;
      }
      AtIsReady(v, l, c', k);
      k := k + 1;
    }
  }

  /** Block::Iter over a finished block: a cursor over its entries, |es| meaning not valid. */
  class Iter {
    const view: View
    const less: Order
    ghost const layout: Layout
    var place: Place
    ghost var pos: nat

    constructor (view: View, less: Order, ghost layout: Layout)
      requires Opened(view, layout) && Transitive(less) && Increasing(less, layout.es)
      ensures Valid() && this.layout == layout && this.less == less && pos == |layout.es|
    {
      this.view, this.less, this.layout := view, less, layout;
      place := Place(view.limit, view.num, [], 0, 0);
      pos := |layout.es|;
    }

    ghost predicate Valid() reads this {
      && Opened(view, layout) && Transitive(less) && Increasing(less, layout.es)
      && Stands(view, layout, place, pos)
    }

    predicate IsValid() reads this { place.current < view.limit }

    method Current() returns (e: Pair)
      requires Valid() && IsValid()
      ensures pos < |layout.es| && e == layout.es[pos]
    {
      e := Pair(place.key, view.data[place.valueStart..place.NextOffset()]);
    }

    method Next()
      requires Valid() && IsValid()
      modifies this
      ensures Valid() && pos == old(pos) + 1 <= |layout.es|
    {
      place := StepNext(view, place, layout, pos);
      pos := pos + 1;
    }

    method Prev()
      requires Valid() && IsValid()
      modifies this
      ensures Valid() && pos == if old(pos) > 0 then old(pos) - 1 else |layout.es|
    {
      place := StepPrev(view, place, layout, pos);
      pos := if pos > 0 then pos - 1 else |layout.es|;
    }

    method Seek(target: Bytes)
      requires Valid()
      modifies this
      ensures Valid() && pos == FirstAtOrPast(less, layout.es, target, 0)
    {
      place := SeekTo(view, place, less, target, layout);
      pos := FirstAtOrPast(less, layout.es, target, 0);
    }

    method SeekToFirst()
      requires Valid()
      modifies this
      ensures Valid() && pos == 0
    {
      place := MoveToFirst(view, place, layout);
      pos := 0;
    }

    method SeekToLast()
      requires Valid()
      modifies this
      ensures Valid() && pos == LastPos(layout.es)
    {
      place := MoveToLast(view, place, layout);
      pos := LastPos(layout.es);
    }
  }

  // ----- building

  /** A layout with one more entry, which shares `s` bytes and may be a restart point. */
  ghost function Extended(l: Layout, e: Pair, s: nat, restart: bool): (r: Layout)
    requires l.Shape()
  {
    Layout(l.es + [e], l.shared + [s], l.offs + [l.Limit() + |EncodeEntry(e, s)|], if restart then l.starts + [|l.es|] else l.starts)
  }

  lemma ExtendedOk(l: Layout, e: Pair, s: nat, restart: bool)
    requires l.Ok() && s <= |e.key| && s <= |LastKey(l.es)| && LastKey(l.es)[..s] == e.key[..s] && (restart ==> s == 0 && l.es != [])
    ensures Extended(l, e, s, restart).Ok()
  {
    var r := Extended(l, e, s, restart);
    forall k | 0 <= k < |r.es|
      ensures r.EntryOk(k)
    {
      if k < |l.es| {
        assert l.EntryOk(k);
      }
    }
    forall i | 0 <= i < |r.starts|
      ensures r.StartOk(i)
    {
      assert l.StartOk(if i < |l.starts| then i else |l.starts| - 1);
    }
  }

  /** Appending the entry's bytes keeps the bytes in step with the layout. */
  lemma ExtendedHolds(b: Bytes, l: Layout, e: Pair, s: nat, restart: bool)
    requires l.Ok() && Holds(b, l) && |b| == l.Limit()
    ensures Holds(b + EncodeEntry(e, s), Extended(l, e, s, restart))
  {
    var r, b' := Extended(l, e, s, restart), b + EncodeEntry(e, s);
    forall k | 0 <= k < |r.es|
      ensures Piece(b', r, k)
    {
      if k < |l.es| {
        assert Piece(b, l, k);
        SlicePrefix(b, EncodeEntry(e, s), l.offs[k], l.offs[k + 1]);
      } else {
        SliceSuffix(b, EncodeEntry(e, s));
      }
    }
  }

  lemma SlicePrefix(a: Bytes, b: Bytes, i: nat, j: nat)
    requires i <= j <= |a|
    ensures (a + b)[i..j] == a[i..j]
  {
  }

  lemma SliceSuffix(a: Bytes, b: Bytes)
    ensures (a + b)[|a|..|a| + |b|] == b
  {
  }

  /** How many leading bytes two keys share. */
  method SharedPrefix(a: Bytes, b: Bytes) returns (n: nat)
    ensures n <= |a| && n <= |b| && a[..n] == b[..n]
    ensures n < |a| && n < |b| ==> a[n] != b[n]
  {
    n := 0;
    while n < |a| && n < |b| && a[n] == b[n]
      invariant n <= |a| && n <= |b| && a[..n] == b[..n]
    {
      assert a[..n + 1] == a[..n] + [a[n]] && b[..n + 1] == b[..n] + [b[n]];
      n := n + 1;
    }
  }

  ghost predicate RestartsAre(l: Layout, restarts: seq<nat>)
    requires l.Ok()
  {
    && |restarts| == |l.starts|
    && forall r {:trigger restarts[r]} :: 0 <= r < |restarts| ==> l.StartOk(r) && restarts[r] == l.offs[l.starts[r]]
  }

  function LastKey(es: seq<Pair>): (k: Bytes) { if es == [] then [] else es[|es| - 1].key }

  lemma ExtendedRestarts(l: Layout, restarts: seq<nat>, e: Pair, s: nat, restart: bool)
    requires l.Ok() && Extended(l, e, s, restart).Ok() && RestartsAre(l, restarts)
    ensures RestartsAre(Extended(l, e, s, restart), if restart then restarts + [l.Limit()] else restarts)
  {
    var x, rs := Extended(l, e, s, restart), if restart then restarts + [l.Limit()] else restarts;
    forall r | 0 <= r < |rs|
      ensures x.StartOk(r) && rs[r] == x.offs[x.starts[r]]
    {
      if r < |restarts| {
        var offset := restarts[r];
        assert l.StartOk(r);
        assert offset == l.offs[l.starts[r]];
      }
    }
  }

  lemma KeyKept(lastKey: Bytes, e: Pair, s: nat)
    requires s <= |e.key| && s <= |lastKey| && lastKey[..s] == e.key[..s]
    ensures lastKey[..s] + Delta(e, s) == e.key
  {
  }

  /** A restart point every `interval` entries. */
  ghost predicate EveryInterval(starts: seq<nat>, interval: nat) {
    forall r :: 0 <= r < |starts| - 1 ==> starts[r + 1] == starts[r] + interval
  }

  /** n bytes are shared, and no more could be. */
  ghost predicate LongestShared(a: Bytes, b: Bytes, n: nat) {
    n <= |a| && n <= |b| && a[..n] == b[..n] && (n < |a| && n < |b| ==> a[n] != b[n])
  }

  class BlockBuilder {
    const interval: nat
    var buffer: Bytes
    var restarts: seq<nat>
    var counter: nat
    var lastKey: Bytes
    ghost var layout: Layout

    constructor (interval: nat)
      requires interval >= 1
      ensures Valid() && layout.es == [] && this.interval == interval
    {
      this.interval, buffer, restarts, counter, lastKey := interval, [], [0], 0, [];
      layout := Layout([], [], [0], [0]);
    }

    ghost predicate Valid() reads this {
      && interval >= 1 && layout.Ok() && Holds(buffer, layout) && |buffer| == layout.Limit() && RestartsAre(layout, restarts)
      && counter <= interval && (counter > 0 ==> layout.es != [])
      && lastKey == LastKey(layout.es)
      && |layout.es| == layout.starts[|layout.starts| - 1] + counter && EveryInterval(layout.starts, interval)
    }

    method Add(key: Bytes, value: Bytes)
      requires Valid()
      modifies this
      ensures Valid() && layout.es == old(layout.es) + [Pair(key, value)]
      ensures layout.shared == old(layout.shared) + [if old(counter) >= interval then 0 else layout.shared[|old(layout.es)|]]
      ensures layout.starts == if old(counter) >= interval then old(layout.starts) + [|old(layout.es)|] else old(layout.starts)
      ensures old(counter) < interval ==> LongestShared(old(lastKey), key, layout.shared[|old(layout.es)|])
    {
      var shared, restart := 0, counter >= interval;
      if !restart {
        shared := SharedPrefix(lastKey, key);
      }
      var e := Pair(key, value);
      ExtendedOk(layout, e, shared, restart);
      ExtendedHolds(buffer, layout, e, shared, restart);
      ExtendedRestarts(layout, restarts, e, shared, restart);
      KeyKept(lastKey, e, shared);
      if restart {
        restarts := restarts + [|buffer|];
        counter := 0;
      }
      buffer := buffer + EncodeEntry(e, shared);
      lastKey := lastKey[..shared] + Delta(e, shared);
      counter := counter + 1;
      layout := Extended(layout, e, shared, restart);
    }

    /** The whole block. */
    method Finish() returns (data: Bytes)
      requires Valid()
      ensures Finished(data, layout) && EveryInterval(layout.starts, interval)
    {
      data := AppendRestarts(buffer, restarts, layout);
    }
  }

  /** The restart points written so far. */
  ghost predicate WordsUpTo(b: Bytes, l: Layout, n: nat)
    requires l.Ok()
  {
    forall r {:trigger RestartWord(b, l, r)} :: 0 <= r < n <= |l.starts| ==> RestartWord(b, l, r)
  }

  lemma WordsKept(b: Bytes, w: Bytes, l: Layout, n: nat)
    requires l.Ok() && WordsUpTo(b, l, n) && n <= |l.starts|
    ensures WordsUpTo(b + w, l, n)
  {
    forall r | 0 <= r < n
      ensures RestartWord(b + w, l, r)
    {
      assert RestartWord(b, l, r);
      SlicePrefix(b, w, l.Limit() + 4 * r, l.Limit() + 4 * r + 4);
    }
  }

  lemma HoldsKept(b: Bytes, w: Bytes, l: Layout)
    requires l.Ok() && Holds(b, l)
    ensures Holds(b + w, l)
  {
    forall k | 0 <= k < |l.es|
      ensures Piece(b + w, l, k)
    {
      assert Piece(b, l, k);
      SlicePrefix(b, w, l.offs[k], l.offs[k + 1]);
    }
  }

  method AppendRestarts(buffer: Bytes, restarts: seq<nat>, ghost l: Layout) returns (data: Bytes)
    requires l.Ok() && Holds(buffer, l) && |buffer| == l.Limit() && RestartsAre(l, restarts)
    ensures Finished(data, l)
  {
    data := buffer;
    for i := 0 to |restarts|
      invariant |data| == l.Limit() + 4 * i && Holds(data, l) && WordsUpTo(data, l, i)
    {
      assert l.StartOk(i) && restarts[i] == l.offs[l.starts[i]];
      WordsKept(data, Fixed(restarts[i], 4), l, i);
      HoldsKept(data, Fixed(restarts[i], 4), l);
      SliceSuffix(data, Fixed(restarts[i], 4));
      data := data + Fixed(restarts[i], 4);
      assert RestartWord(data, l, i);
    }
    WordsKept(data, Fixed(|restarts|, 4), l, |restarts|);
    HoldsKept(data, Fixed(|restarts|, 4), l);
    data := data + Fixed(|restarts|, 4);
  }

  /** At most this many bytes: lengths of five bytes each and a restart point for every entry. */
  function SizeBound(es: seq<Pair>): (n: nat) {
    if es == [] then 8 else SizeBound(es[..|es| - 1]) + 19 + |es[|es| - 1].key| + |es[|es| - 1].value|
  }

  lemma VarintShort(n: nat)
    requires n < TWO32
    ensures |Varint(n)| <= 5
  {
    Limits();
    VarintRoundTrip(n, 5, []);
  }

  lemma EntryShort(e: Pair, shared: nat)
    requires shared <= |e.key| && Fits(e)
    ensures |EncodeEntry(e, shared)| <= 15 + |e.key| + |e.value|
  {
    VarintShort(shared);
    VarintShort(|e.key| - shared);
    VarintShort(|e.value|);
  }

  lemma {:induction false} OffsetBound(l: Layout, k: nat)
    requires l.Ok() && k <= |l.es| && SizeBound(l.es[..k]) < TWO32
    ensures l.offs[k] + 4 * k + 8 <= SizeBound(l.es[..k])
    ensures forall i {:trigger Fits(l.es[i])} :: 0 <= i < k ==> Fits(l.es[i])
  {
    if k > 0 {
      assert l.es[..k][..k - 1] == l.es[..k - 1];
      OffsetBound(l, k - 1);
      assert l.EntryOk(k - 1);
      EntryShort(l.es[k - 1], l.shared[k - 1]);
    }
  }

  lemma BoundIsSmall(b: Bytes, l: Layout)
    requires Finished(b, l) && SizeBound(l.es) < TWO32
    ensures Small(b, l)
  {
    assert l.es[..|l.es|] == l.es;
    OffsetBound(l, |l.es|);
    assert l.StartOk(|l.starts| - 1);
  }

  lemma TakeOne(es: seq<Pair>, i: nat)
    requires i < |es|
    ensures es[..i + 1] == es[..i] + [es[i]]
  {
  }

  method Build(es: seq<Pair>, interval: nat) returns (data: Bytes, ghost l: Layout)
    requires interval >= 1
    ensures Finished(data, l) && l.es == es
  {
    var builder := new BlockBuilder(interval);
    for i := 0 to |es|
      invariant builder.Valid() && builder.layout.es == es[..i] && fresh(builder)
    {
      TakeOne(es, i);
      builder.Add(es[i].key, es[i].value);
    }
    assert es[..|es|] == es;
    data := builder.Finish();
    l := builder.layout;
  }

  method ReadAll(view: View, less: Order, ghost l: Layout) returns (r: seq<Pair>)
    requires Opened(view, l) && Transitive(less) && Increasing(less, l.es)
    ensures r == l.es
  {
    var iter := new Iter(view, less, l);
    iter.SeekToFirst();
    r := [];
    while iter.IsValid()
      invariant iter.Valid() && fresh(iter) && iter.layout == l && iter.pos <= |l.es| && r == l.es[..iter.pos]
      decreases |l.es| - iter.pos
    {
      var e := iter.Current();
      TakeOne(l.es, iter.pos);
      r := r + [e];
      iter.Next();
    }
  }

  /** Build a block from a list and read it back with the iterator: the same list, for every restart interval. */
  method BuildAndRead(es: seq<Pair>, interval: nat, less: Order) returns (r: seq<Pair>)
    requires interval >= 1 && Transitive(less) && Increasing(less, es) && SizeBound(es) < TWO32
    ensures r == es
  {
    var data;
    ghost var l;
    data, l := Build(es, interval);
    BoundIsSmall(data, l);
    OpenFinds(data, l);
    var found := OpenBlock(data);
    r := ReadAll(View(data, found.value.0, found.value.1), less, l);
  }
}

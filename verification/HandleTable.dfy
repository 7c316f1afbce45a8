/** The cache's hash table: buckets of chained handles that double as they fill. Handles are indices into an
    arena whose keys never change. */
module HandleTable {
  import opened Keys

  type Hash = Bytes -> nat

  datatype HashTable = HashTable(buckets: seq<seq<nat>>, elems: nat)

  function BucketOf(hash: Hash, n: nat, key: Bytes): (b: nat)
    requires n > 0
    ensures b < n
  {
    hash(key) % n
  }

  /** The handle is in the map under its own key, and in the right bucket. */
  ghost predicate InPlace(hash: Hash, keys: seq<Bytes>, m: map<Bytes, nat>, n: nat, b: nat, id: nat) {
    && n > 0 && id < |keys| && keys[id] in m && m[keys[id]] == id && BucketOf(hash, n, keys[id]) == b
  }

  ghost predicate NoDup(s: seq<nat>) { forall i, j :: 0 <= i < j < |s| ==> s[i] != s[j] }

  /** Bucket b holds exactly the map's handles that hash to it. */
  ghost predicate BucketOk(hash: Hash, keys: seq<Bytes>, m: map<Bytes, nat>, buckets: seq<seq<nat>>, b: nat)
    requires b < |buckets|
  {
    && NoDup(buckets[b])
    && (forall i :: 0 <= i < |buckets[b]| ==> InPlace(hash, keys, m, |buckets|, b, buckets[b][i]))
    && (forall k :: k in m && BucketOf(hash, |buckets|, k) == b ==> m[k] in buckets[b])
  }

  /** The table is the finite map m. */
  ghost predicate Represents(hash: Hash, keys: seq<Bytes>, t: HashTable, m: map<Bytes, nat>) {
    && |t.buckets| > 0 && t.elems == |m|
    && (forall k :: k in m ==> m[k] < |keys| && keys[m[k]] == k)
    && (forall b {:trigger BucketOk(hash, keys, m, t.buckets, b)} :: 0 <= b < |t.buckets| ==> BucketOk(hash, keys, m, t.buckets, b))
  }

  // ----- searching a chain

  /** FindPointer: the place of the key in the chain, or the chain's end. */
  method FindPointer(hash: Hash, keys: seq<Bytes>, chain: seq<nat>, key: Bytes) returns (p: nat)
    requires forall i :: 0 <= i < |chain| ==> chain[i] < |keys|
    ensures p <= |chain| && (forall i :: 0 <= i < p ==> keys[chain[i]] != key)
    ensures p < |chain| ==> keys[chain[p]] == key
  {
    p := 0;
    while p < |chain| && (hash(keys[chain[p]]) != hash(key) || key != keys[chain[p]])
      invariant p <= |chain| && forall i :: 0 <= i < p ==> keys[chain[i]] != key
    {
      p := p + 1;
    }
  }

  lemma ChainMeans(hash: Hash, keys: seq<Bytes>, t: HashTable, m: map<Bytes, nat>, key: Bytes, p: nat)
    requires Represents(hash, keys, t, m)
    requires var chain := t.buckets[BucketOf(hash, |t.buckets|, key)];
             && (forall i :: 0 <= i < |chain| ==> chain[i] < |keys|)
             && p <= |chain| && (forall i :: 0 <= i < p ==> keys[chain[i]] != key) && (p < |chain| ==> keys[chain[p]] == key)
    ensures var chain := t.buckets[BucketOf(hash, |t.buckets|, key)];
            && (p < |chain| <==> key in m) && (p < |chain| ==> m[key] == chain[p])
  {
    var b := BucketOf(hash, |t.buckets|, key);
    assert BucketOk(hash, keys, m, t.buckets, b);
    if key in m {
      assert m[key] in t.buckets[b];
    }
    if p < |t.buckets[b]| {
      assert InPlace(hash, keys, m, |t.buckets|, b, t.buckets[b][p]);
    }
  }

  lemma ChainInRange(hash: Hash, keys: seq<Bytes>, t: HashTable, m: map<Bytes, nat>, b: nat)
    requires Represents(hash, keys, t, m) && b < |t.buckets|
    ensures forall i :: 0 <= i < |t.buckets[b]| ==> t.buckets[b][i] < |keys|
  {
    assert BucketOk(hash, keys, m, t.buckets, b);
  }

  method Lookup(hash: Hash, keys: seq<Bytes>, t: HashTable, key: Bytes, ghost m: map<Bytes, nat>) returns (r: Option<nat>)
    requires Represents(hash, keys, t, m)
    ensures r == if key in m then Some(m[key]) else None
  {
    var b := BucketOf(hash, |t.buckets|, key);
    ChainInRange(hash, keys, t, m, b);
    var p := FindPointer(hash, keys, t.buckets[b], key);
    ChainMeans(hash, keys, t, m, key, p);
    r := if p < |t.buckets[b]| then Some(t.buckets[b][p]) else None;
  }

  // ----- inserting

  /** The chain with h in place of the handle of the same key, or at its end. */
  function Spliced(chain: seq<nat>, p: nat, h: nat): (r: seq<nat>)
    requires p <= |chain|
  {
    if p < |chain| then chain[p := h] else chain + [h]
  }

  lemma InsertBucket(hash: Hash, keys: seq<Bytes>, t: HashTable, m: map<Bytes, nat>, h: nat, p: nat, c: nat)
    requires Represents(hash, keys, t, m) && h < |keys| && c < |t.buckets|
    requires forall k :: k in m ==> m[k] != h
    requires var chain := t.buckets[BucketOf(hash, |t.buckets|, keys[h])];
             p <= |chain| && (p < |chain| <==> keys[h] in m) && (p < |chain| ==> m[keys[h]] == chain[p])
    ensures var b := BucketOf(hash, |t.buckets|, keys[h]);
            BucketOk(hash, keys, m[keys[h] := h], t.buckets[b := Spliced(t.buckets[b], p, h)], c)
  {
    var b := BucketOf(hash, |t.buckets|, keys[h]);
    var m' := m[keys[h] := h];
    var buckets' := t.buckets[b := Spliced(t.buckets[b], p, h)];
    assert BucketOk(hash, keys, m, t.buckets, c);
    forall i | 0 <= i < |buckets'[c]|
      ensures InPlace(hash, keys, m', |buckets'|, c, buckets'[c][i])
    {
      if i < |t.buckets[c]| {
        assert InPlace(hash, keys, m, |t.buckets|, c, t.buckets[c][i]);
      }
    }
    forall k | k in m' && BucketOf(hash, |buckets'|, k) == c
      ensures m'[k] in buckets'[c]
    {
      if k == keys[h] {
        assert buckets'[b][if p < |t.buckets[b]| then p else |t.buckets[b]|] == h;
      } else {
        assert m[k] in t.buckets[c];
        var i :| 0 <= i < |t.buckets[c]| && t.buckets[c][i] == m[k];
        assert buckets'[c][i] == m[k];
      }
    }
  }

  lemma MapSizes(m: map<Bytes, nat>, k: Bytes, h: nat)
    ensures |m[k := h]| == if k in m then |m| else |m| + 1
    ensures k in m ==> |m - {k}| == |m| - 1
  {
    var m' := m[k := h];
    if k in m {
      assert m'.Keys == m.Keys;
      assert (m - {k}).Keys == m.Keys - {k};
    } else {
      assert m'.Keys == m.Keys + {k};
    }
    assert |m'| == |m'.Keys| && |m| == |m.Keys| && |m - {k}| == |(m - {k}).Keys|;
  }

  /** Insert: the handle takes the place of any other with its key, which is returned. */
  method Insert(hash: Hash, keys: seq<Bytes>, t: HashTable, h: nat, ghost m: map<Bytes, nat>) returns (t': HashTable, old_: Option<nat>)
    requires Represents(hash, keys, t, m) && h < |keys| && forall k :: k in m ==> m[k] != h
    ensures Represents(hash, keys, t', m[keys[h] := h])
    ensures old_ == if keys[h] in m then Some(m[keys[h]]) else None
    ensures |t.buckets| >= t.elems ==> |t'.buckets| >= t'.elems
  {
    var b := BucketOf(hash, |t.buckets|, keys[h]);
    ChainInRange(hash, keys, t, m, b);
    var p := FindPointer(hash, keys, t.buckets[b], keys[h]);
    ChainMeans(hash, keys, t, m, keys[h], p);
    ghost var m', after := m[keys[h] := h], t.buckets[b := Spliced(t.buckets[b], p, h)];
    forall c | 0 <= c < |t.buckets|
      ensures BucketOk(hash, keys, m', after, c)
    {
      InsertBucket(hash, keys, t, m, h, p, c);
    }
    MapSizes(m, keys[h], h);
    t' := t.(buckets := t.buckets[b := Spliced(t.buckets[b], p, h)]);
    if p < |t.buckets[b]| {
      old_ := Some(t.buckets[b][p]);
    } else {
      old_ := None;
      t' := t'.(elems := t.elems + 1);
      if t'.elems > |t'.buckets| {
        t' := Resize(hash, keys, t', m[keys[h] := h]);
      }
    }
  }

  lemma RemoveBucket(hash: Hash, keys: seq<Bytes>, t: HashTable, m: map<Bytes, nat>, key: Bytes, p: nat, c: nat)
    requires Represents(hash, keys, t, m) && c < |t.buckets| && key in m
    requires var chain := t.buckets[BucketOf(hash, |t.buckets|, key)]; p < |chain| && m[key] == chain[p]
    ensures var b := BucketOf(hash, |t.buckets|, key);
            BucketOk(hash, keys, m - {key}, t.buckets[b := t.buckets[b][..p] + t.buckets[b][p + 1..]], c)
  {
    var b := BucketOf(hash, |t.buckets|, key);
    var m' := m - {key};
    var chain := t.buckets[b];
    var buckets' := t.buckets[b := chain[..p] + chain[p + 1..]];
    assert BucketOk(hash, keys, m, t.buckets, c);
    if c == b {
      var r := buckets'[b];
      assert forall i :: 0 <= i < |r| ==> r[i] == chain[if i < p then i else i + 1];
      forall i | 0 <= i < |r|
        ensures InPlace(hash, keys, m', |buckets'|, b, r[i])
      {
        var j := if i < p then i else i + 1;
        assert InPlace(hash, keys, m, |t.buckets|, b, chain[j]);
        assert InPlace(hash, keys, m, |t.buckets|, b, chain[p]);
      }
      forall k | k in m' && BucketOf(hash, |buckets'|, k) == b
        ensures m'[k] in r
      {
        assert m[k] in chain;
        var i :| 0 <= i < |chain| && chain[i] == m[k];
        assert r[if i < p then i else i - 1] == m[k];
      }
    } else {
      forall i | 0 <= i < |buckets'[c]|
        ensures InPlace(hash, keys, m', |buckets'|, c, buckets'[c][i])
      {
        assert InPlace(hash, keys, m, |t.buckets|, c, t.buckets[c][i]);
      }
    }
  }

  method Remove(hash: Hash, keys: seq<Bytes>, t: HashTable, key: Bytes, ghost m: map<Bytes, nat>) returns (t': HashTable, r: Option<nat>)
    requires Represents(hash, keys, t, m)
    ensures Represents(hash, keys, t', m - {key})
    ensures r == if key in m then Some(m[key]) else None
    ensures |t'.buckets| == |t.buckets| && t'.elems <= t.elems
  {
    var b := BucketOf(hash, |t.buckets|, key);
    ChainInRange(hash, keys, t, m, b);
    var p := FindPointer(hash, keys, t.buckets[b], key);
    ChainMeans(hash, keys, t, m, key, p);
    if p == |t.buckets[b]| {
      assert m - {key} == m;
      return t, None;
    }
    ghost var m', after := m - {key}, t.buckets[b := t.buckets[b][..p] + t.buckets[b][p + 1..]];
    forall c | 0 <= c < |t.buckets|
      ensures BucketOk(hash, keys, m', after, c)
    {
      RemoveBucket(hash, keys, t, m, key, p, c);
    }
    MapSizes(m, key, 0);
    r := Some(t.buckets[b][p]);
    t' := HashTable(t.buckets[b := t.buckets[b][..p] + t.buckets[b][p + 1..]], t.elems - 1);
  }

  // ----- resizing

  /** The handles moved so far are exactly `done`. */
  ghost predicate Moved(hash: Hash, keys: seq<Bytes>, buckets: seq<seq<nat>>, done: set<nat>) {
    && |buckets| > 0
    && (forall id :: id in done ==> id < |keys| && id in buckets[BucketOf(hash, |buckets|, keys[id])])
    && (forall b, i :: 0 <= b < |buckets| && 0 <= i < |buckets[b]| ==>
          buckets[b][i] in done && buckets[b][i] < |keys| && BucketOf(hash, |buckets|, keys[buckets[b][i]]) == b)
    && (forall b {:trigger NoDup(buckets[b])} :: 0 <= b < |buckets| ==> NoDup(buckets[b]))
  }

  lemma MoveOne(hash: Hash, keys: seq<Bytes>, buckets: seq<seq<nat>>, done: set<nat>, h: nat)
    requires Moved(hash, keys, buckets, done) && h < |keys| && h !in done
    ensures var b := BucketOf(hash, |buckets|, keys[h]);
            Moved(hash, keys, buckets[b := [h] + buckets[b]], done + {h})
  {
    var b := BucketOf(hash, |buckets|, keys[h]);
    var buckets' := buckets[b := [h] + buckets[b]];
    forall id | id in done + {h}
      ensures id in buckets'[BucketOf(hash, |buckets'|, keys[id])]
    {
      if id != h {
        assert id in buckets[BucketOf(hash, |buckets|, keys[id])];
      } else {
        assert buckets'[b][0] == h;
      }
    }
    forall c | 0 <= c < |buckets'|
      ensures NoDup(buckets'[c])
    {
      assert NoDup(buckets[c]);
    }
  }

  /** The handles of the first b buckets and the first i of the next. */
  ghost function Before_(buckets: seq<seq<nat>>, b: nat, i: nat): set<nat>
    requires b <= |buckets|
  {
    (set c, j | 0 <= c < b && 0 <= j < |buckets[c]| :: buckets[c][j]) +
    (if b < |buckets| then (set j | 0 <= j < i && j < |buckets[b]| :: buckets[b][j]) else {})
  }

  lemma StepChain(hash: Hash, keys: seq<Bytes>, t: HashTable, m: map<Bytes, nat>, b: nat, i: nat)
    requires Represents(hash, keys, t, m) && b < |t.buckets| && i < |t.buckets[b]|
    ensures t.buckets[b][i] < |keys| && t.buckets[b][i] !in Before_(t.buckets, b, i)
    ensures Before_(t.buckets, b, i + 1) == Before_(t.buckets, b, i) + {t.buckets[b][i]}
  {
    assert BucketOk(hash, keys, m, t.buckets, b);
    assert InPlace(hash, keys, m, |t.buckets|, b, t.buckets[b][i]);
    forall c, j | 0 <= c < b && 0 <= j < |t.buckets[c]|
      ensures t.buckets[c][j] != t.buckets[b][i]
    {
      assert BucketOk(hash, keys, m, t.buckets, c);
      assert InPlace(hash, keys, m, |t.buckets|, c, t.buckets[c][j]);
    }
  }

  lemma StepBucket(buckets: seq<seq<nat>>, b: nat)
    requires b < |buckets|
    ensures Before_(buckets, b, |buckets[b]|) == Before_(buckets, b + 1, 0)
  {
    forall id
      ensures id in Before_(buckets, b, |buckets[b]|) <==> id in Before_(buckets, b + 1, 0)
    {
      if id in Before_(buckets, b + 1, 0) {
        var c, j :| 0 <= c < b + 1 && 0 <= j < |buckets[c]| && buckets[c][j] == id;
      }
      if id in Before_(buckets, b, |buckets[b]|) {
        if j :| 0 <= j < |buckets[b]| && buckets[b][j] == id {
          assert buckets[b][j] in Before_(buckets, b + 1, 0);
        }
      }
    }
  }

  /** When every handle has moved, the new buckets are the same map. */
  lemma AllMoved(hash: Hash, keys: seq<Bytes>, t: HashTable, m: map<Bytes, nat>, buckets: seq<seq<nat>>)
    requires Represents(hash, keys, t, m) && Moved(hash, keys, buckets, Before_(t.buckets, |t.buckets|, 0))
    ensures Represents(hash, keys, HashTable(buckets, t.elems), m)
  {
    forall b | 0 <= b < |buckets|
      ensures BucketOk(hash, keys, m, buckets, b)
    {
      assert NoDup(buckets[b]);
      forall i | 0 <= i < |buckets[b]|
        ensures InPlace(hash, keys, m, |buckets|, b, buckets[b][i])
      {
        assert buckets[b][i] in Before_(t.buckets, |t.buckets|, 0);
        var c, j :| 0 <= c < |t.buckets| && 0 <= j < |t.buckets[c]| && t.buckets[c][j] == buckets[b][i];
        assert BucketOk(hash, keys, m, t.buckets, c);
        assert InPlace(hash, keys, m, |t.buckets|, c, t.buckets[c][j]);
      }
      forall k | k in m && BucketOf(hash, |buckets|, k) == b
        ensures m[k] in buckets[b]
      {
        var c := BucketOf(hash, |t.buckets|, k);
        assert BucketOk(hash, keys, m, t.buckets, c);
        assert m[k] in t.buckets[c];
        var j :| 0 <= j < |t.buckets[c]| && t.buckets[c][j] == m[k];
        assert m[k] in Before_(t.buckets, |t.buckets|, 0);
      }
    }
  }

  /** Resize: at least as many buckets as handles, each handle moved to the front of its new chain. */
  method Resize(hash: Hash, keys: seq<Bytes>, t: HashTable, ghost m: map<Bytes, nat>) returns (t': HashTable)
    requires Represents(hash, keys, t, m)
    ensures Represents(hash, keys, t', m) && |t'.buckets| >= 4 && |t'.buckets| >= t'.elems
  {
    var length := 4;
    while length < t.elems
      invariant length >= 4
      decreases t.elems - length
    {
      length := length * 2;
    }
    var buckets: seq<seq<nat>> := seq(length, _ => []);
    for b := 0 to |t.buckets|
      invariant |buckets| == length && Moved(hash, keys, buckets, Before_(t.buckets, b, 0))
    {
      for i := 0 to |t.buckets[b]|
        invariant |buckets| == length && Moved(hash, keys, buckets, Before_(t.buckets, b, i))
      {
        StepChain(hash, keys, t, m, b, i);
        var h := t.buckets[b][i];
        MoveOne(hash, keys, buckets, Before_(t.buckets, b, i), h);
        var c := BucketOf(hash, length, keys[h]);
        buckets := buckets[c := [h] + buckets[c]];
      }
      StepBucket(t.buckets, b);
    }
    AllMoved(hash, keys, t, m, buckets);
    t' := HashTable(buckets, t.elems);
  }
}

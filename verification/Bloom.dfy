/** The bloom filter policy. The 32-bit hash is any function of the key. */
module Bloom {
  import opened Keys
  import opened Coding

  type Hash = Bytes -> nat

  // ----- bits of bytes

  /** (x & (1 << i)) != 0 */
  predicate Bit(x: nat, i: nat) {
    if i == 0 then x % 2 == 1 else Bit(x / 2, i - 1)
  }

  /** x | (1 << i) */
  function WithBit(x: nat, i: nat): (r: nat) {
    if i > 0 then 2 * WithBit(x / 2, i - 1) + x % 2
    else if x % 2 == 1 then x else x + 1
  }

  lemma {:induction false} WithBitIs(x: nat, i: nat, j: nat)
    ensures Bit(WithBit(x, i), j) <==> i == j || Bit(x, j)
    decreases i
  {
    var r := WithBit(x, i);
    if i > 0 && j > 0 {
      WithBitIs(x / 2, i - 1, j - 1);
      assert r / 2 == WithBit(x / 2, i - 1);
    } else if j > 0 {
      assert r / 2 == x / 2;
    }
  }

  lemma {:induction false} WithBitFits(x: nat, i: nat, n: nat)
    requires i < n && x < Pow2(n)
    ensures WithBit(x, i) < Pow2(n)
    decreases i
  {
    assert Pow2(n) == 2 * Pow2(n - 1);
    if i > 0 {
      WithBitFits(x / 2, i - 1, n - 1);
    }
  }

  // ----- the filter array

  /** The bit of the array a probe looks at. */
  predicate Has(array_: Bytes, pos: nat)
    requires pos < 8 * |array_|
  {
    Bit(array_[pos / 8], pos % 8)
  }

  function SetBit(array_: Bytes, pos: nat): (r: Bytes)
    requires pos < 8 * |array_|
    ensures |r| == |array_|
  {
    var x: nat := array_[pos / 8];
    WithBitFits(x, pos % 8, 8);
    assert Pow2(8) == 256 by { assert Pow2(1) == 2 && Pow2(2) == 4 && Pow2(3) == 8 && Pow2(4) == 16 && Pow2(5) == 32; }
    var y: Byte := WithBit(x, pos % 8);
    array_[pos / 8 := y]
  }

  lemma SetBitIs(array_: Bytes, pos: nat, q: nat)
    requires pos < 8 * |array_| && q < 8 * |array_|
    ensures Has(SetBit(array_, pos), q) <==> q == pos || Has(array_, q)
  {
    WithBitIs(array_[pos / 8], pos % 8, q % 8);
    assert q / 8 == pos / 8 && q % 8 == pos % 8 <==> q == pos;
  }

  // ----- probes

  /** Rotate right 17 bits. */
  function Delta(h: nat): (d: nat) { h / 0x2_0000 + h % 0x2_0000 * 0x8000 }

  /** The j-th hash value of the double hashing. */
  function Probe(h: nat, j: nat): (p: nat)
    ensures p < TWO32
  {
    if j == 0 then h % TWO32 else (Probe(h, j - 1) + Delta(h % TWO32)) % TWO32
  }

  predicate Probed(array_: Bytes, h: nat, j: nat)
    requires |array_| > 0
  {
    Has(array_, Probe(h, j) % (8 * |array_|))
  }

  /** All k probes of this hash are set. */
  ghost predicate AllProbed(array_: Bytes, h: nat, k: nat)
    requires |array_| > 0
  {
    forall j {:trigger Probed(array_, h, j)} :: 0 <= j < k ==> Probed(array_, h, j)
  }

  /** KeyMayMatch: the last byte holds the number of probes. */
  ghost predicate MayMatch(hash: Hash, key: Bytes, filter: Bytes) {
    && |filter| >= 2
    && (filter[|filter| - 1] > 30 || AllProbed(filter[..|filter| - 1], hash(key), filter[|filter| - 1]))
  }

  method KeyMayMatch(hash: Hash, key: Bytes, filter: Bytes) returns (r: bool)
    ensures r <==> MayMatch(hash, key, filter)
  {
    if |filter| < 2 {
      return false;
    }
    var array_, k: nat := filter[..|filter| - 1], filter[|filter| - 1];
    if k > 30 {
      return true;
    }
    var h := hash(key) % TWO32;
    var delta := Delta(h);
    for j := 0 to k
      invariant h == Probe(hash(key), j)
      invariant AllProbed(array_, hash(key), j)
    {
      if !Has(array_, h % (8 * |array_|)) {
        assert !Probed(array_, hash(key), j);
        return false;
      }
      assert Probed(array_, hash(key), j);
      h := (h + delta) % TWO32;
    }
    return true;
  }

  /** Double hashing: probe j is h + j times h rotated right by 17 bits, in 32 bits. */
  lemma {:induction false} ProbeIs(h: nat, j: nat, d: nat)
    requires h < 0x1_0000_0000 && d == h / 0x2_0000 + h % 0x2_0000 * 0x8000
    ensures Probe(h, j) == (h + j * d) % 0x1_0000_0000
  {
    ModSmall(h, TWO32);
    if j == 0 {
      assert j * d == 0;
    } else {
      ProbeIs(h, j - 1, d);
      ProbeStep(h, j, d);
      AddMod(h + (j - 1) * d, d, h + j * d);
    }
  }

  lemma ProbeStep(h: nat, j: nat, d: nat)
    requires j > 0
    ensures h + j * d == h + (j - 1) * d + d
    ensures d == Delta(h % TWO32) ==> Probe(h, j) == (Probe(h, j - 1) + d) % TWO32
  {
  }

  lemma AddMod(x: nat, d: nat, y: nat)
    requires y == x + d
    ensures (x % TWO32 + d) % TWO32 == y % TWO32
  {
  }

  // ----- building

  /** Some probe of some key hits bit q of the array. */
  ghost predicate Hit(hash: Hash, keys: seq<Bytes>, k: nat, bits: nat, q: nat)
    requires bits > 0
  {
    exists i, j {:trigger Probe(hash(keys[i]), j)} :: 0 <= i < |keys| && 0 <= j < k && Probe(hash(keys[i]), j) % bits == q
  }

  /** Exactly the bits that the keys' probes hit are set. */
  ghost predicate Exactly(hash: Hash, keys: seq<Bytes>, k: nat, array_: Bytes)
    requires |array_| > 0
  {
    forall q {:trigger Has(array_, q)} :: 0 <= q < 8 * |array_| ==> (Has(array_, q) <==> Hit(hash, keys, k, 8 * |array_|, q))
  }

  /** The filter of a list of keys: their bits, and the number of probes in the last byte. */
  ghost predicate IsFilterOf(hash: Hash, keys: seq<Bytes>, filter: Bytes) {
    && |filter| >= 2 && 1 <= filter[|filter| - 1] <= 30
    && Exactly(hash, keys, filter[|filter| - 1], filter[..|filter| - 1])
  }

  /** Half way through a key: the bits of the keys before it, and of its own first j probes. */
  ghost predicate Partly(hash: Hash, keys: seq<Bytes>, key: Bytes, k: nat, j: nat, array_: Bytes)
    requires |array_| > 0
  {
    forall q {:trigger Has(array_, q)} :: 0 <= q < 8 * |array_| ==>
      (Has(array_, q) <==> Hit(hash, keys, k, 8 * |array_|, q) || Hit(hash, [key], j, 8 * |array_|, q))
  }

  lemma HitMore(hash: Hash, key: Bytes, j: nat, bits: nat, q: nat)
    requires bits > 0
    ensures Hit(hash, [key], j + 1, bits, q) <==> Hit(hash, [key], j, bits, q) || Probe(hash(key), j) % bits == q
  {
    assert [key][0] == key;
    if Probe(hash(key), j) % bits == q {
      assert Probe(hash([key][0]), j) % bits == q;
    }
  }

  lemma HitConcat(hash: Hash, keys: seq<Bytes>, key: Bytes, k: nat, bits: nat, q: nat)
    requires bits > 0
    ensures Hit(hash, keys + [key], k, bits, q) <==> Hit(hash, keys, k, bits, q) || Hit(hash, [key], k, bits, q)
  {
    var all := keys + [key];
    if Hit(hash, all, k, bits, q) {
      var i, j :| 0 <= i < |all| && 0 <= j < k && Probe(hash(all[i]), j) % bits == q;
      assert i == |keys| ==> Probe(hash([key][0]), j) % bits == q;
      assert i < |keys| ==> Probe(hash(keys[i]), j) % bits == q;
    }
    if Hit(hash, keys, k, bits, q) {
      var i, j :| 0 <= i < |keys| && 0 <= j < k && Probe(hash(keys[i]), j) % bits == q;
      assert Probe(hash(all[i]), j) % bits == q;
    }
    if Hit(hash, [key], k, bits, q) {
      var i, j :| 0 <= i < |[key]| && 0 <= j < k && Probe(hash([key][i]), j) % bits == q;
      assert Probe(hash(all[|keys|]), j) % bits == q;
    }
  }

  lemma SetProbe(hash: Hash, keys: seq<Bytes>, key: Bytes, k: nat, j: nat, array_: Bytes, pos: nat)
    requires |array_| > 0 && Partly(hash, keys, key, k, j, array_) && pos == Probe(hash(key), j) % (8 * |array_|)
    ensures Partly(hash, keys, key, k, j + 1, SetBit(array_, pos))
  {
    var array' := SetBit(array_, pos);
    forall q | 0 <= q < 8 * |array'|
      ensures Has(array', q) <==> Hit(hash, keys, k, 8 * |array'|, q) || Hit(hash, [key], j + 1, 8 * |array'|, q)
    {
      SetBitIs(array_, pos, q);
      HitMore(hash, key, j, 8 * |array_|, q);
    }
  }

  /** The inner loop of CreateFilter. */
  method AddKey(hash: Hash, before: Bytes, ghost keys: seq<Bytes>, key: Bytes, k: nat) returns (array_: Bytes)
    requires |before| > 0 && Exactly(hash, keys, k, before)
    ensures |array_| == |before| && Exactly(hash, keys + [key], k, array_)
  {
    array_ := before;
    var h := hash(key) % TWO32;
    var delta := Delta(h);
    for j := 0 to k
      invariant |array_| == |before| && h == Probe(hash(key), j) && Partly(hash, keys, key, k, j, array_)
    {
      var pos := h % (8 * |array_|);
      SetProbe(hash, keys, key, k, j, array_, pos);
      array_ := SetBit(array_, pos);
      h := (h + delta) % TWO32;
    }
    forall q | 0 <= q < 8 * |array_|
      ensures Has(array_, q) <==> Hit(hash, keys + [key], k, 8 * |array_|, q)
    {
      HitConcat(hash, keys, key, k, 8 * |array_|, q);
    }
  }

  lemma NothingSet(hash: Hash, k: nat, n: nat)
    requires n > 0
    ensures Exactly(hash, [], k, seq(n, _ => 0))
  {
    var array_: Bytes := seq(n, _ => 0);
    forall q | 0 <= q < 8 * n
      ensures !Has(array_, q)
    {
      ZeroHasNone(q % 8);
    }
  }

  lemma {:induction false} ZeroHasNone(i: nat)
    ensures !Bit(0, i)
  {
    if i > 0 {
      ZeroHasNone(i - 1);
    }
  }

  /** CreateFilter: as many bits as asked for, at least 64, in whole bytes; exactly the probed ones are set. */
  method CreateFilter(hash: Hash, keys: seq<Bytes>, bitsPerKey: nat, k: nat) returns (filter: Bytes)
    requires 1 <= k <= 30
    ensures |filter| == 1 + (if |keys| * bitsPerKey < 64 then 8 else (|keys| * bitsPerKey + 7) / 8) && filter[|filter| - 1] == k
    ensures IsFilterOf(hash, keys, filter)
  {
    var bits := if |keys| * bitsPerKey < 64 then 64 else |keys| * bitsPerKey;
    var array_: Bytes := seq((bits + 7) / 8, _ => 0);
    NothingSet(hash, k, (bits + 7) / 8);
    assert keys[..0] == [];
    for i := 0 to |keys|
      invariant |array_| == (bits + 7) / 8 && Exactly(hash, keys[..i], k, array_)
    {
      array_ := AddKey(hash, array_, keys[..i], keys[i], k);
      assert keys[..i] + [keys[i]] == keys[..i + 1];
    }
    assert keys[..|keys|] == keys;
    filter := array_ + [k];
    assert filter[..|filter| - 1] == array_;
  }

  /** Each probe of the key hits a bit that some key of the list hit. */
  ghost predicate AllHit(hash: Hash, keys: seq<Bytes>, k: nat, bits: nat, key: Bytes)
    requires bits > 0
  {
    forall j {:trigger Probe(hash(key), j)} :: 0 <= j < k ==> Hit(hash, keys, k, bits, Probe(hash(key), j) % bits)
  }

  /** A key may match if and only if each of its probes hits a bit that some key of the filter hit. */
  lemma MatchesIff(hash: Hash, keys: seq<Bytes>, filter: Bytes, key: Bytes)
    requires IsFilterOf(hash, keys, filter)
    ensures MayMatch(hash, key, filter) <==> AllHit(hash, keys, filter[|filter| - 1], 8 * (|filter| - 1), key)
  {
    var array_, k, bits := filter[..|filter| - 1], filter[|filter| - 1], 8 * (|filter| - 1);
    if AllProbed(array_, hash(key), k) {
      forall j | 0 <= j < k
        ensures Hit(hash, keys, k, bits, Probe(hash(key), j) % bits)
      {
        assert Probed(array_, hash(key), j);
      }
    }
    if AllHit(hash, keys, k, bits, key) {
      forall j | 0 <= j < k
        ensures Probed(array_, hash(key), j)
      {
        assert Hit(hash, keys, k, bits, Probe(hash(key), j) % bits);
      }
    }
  }

  /** So every key of the filter may match. */
  lemma MemberMatches(hash: Hash, keys: seq<Bytes>, filter: Bytes, i: nat)
    requires IsFilterOf(hash, keys, filter) && i < |keys|
    ensures MayMatch(hash, keys[i], filter)
  {
    MatchesIff(hash, keys, filter, keys[i]);
    var k, bits := filter[|filter| - 1], 8 * (|filter| - 1);
    forall j | 0 <= j < k
      ensures Hit(hash, keys, k, bits, Probe(hash(keys[i]), j) % bits)
    {
      assert Probe(hash(keys[i]), j) % bits == Probe(hash(keys[i]), j) % bits;
    }
  }
}

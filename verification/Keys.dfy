/** Keys of the storage engine: byte strings under the bytewise comparator, and internal keys
    (user key, sequence number, value type) under the internal comparator.

    Both comparators are shown to be strict total orders by an order embedding into the reals
    (`Rank`, `InternalRank`): proofs elsewhere get transitivity and totality from arithmetic. */
module Keys {

  type Byte = x: int | 0 <= x < 256
  type Bytes = seq<Byte>
  type UserKey = Bytes
  type Value = Bytes

  const MAX_SEQUENCE := 0xFF_FFFF_FFFF_FFFF
  type SeqNum = x: int | 0 <= x <= 0xFF_FFFF_FFFF_FFFF

  const TYPE_DELETION: Byte := 0
  const TYPE_VALUE: Byte := 1
  /** The highest-numbered value type: seeks to (k, s) start before every entry of k at s. */
  const TYPE_FOR_SEEK: Byte := 1

  datatype Option<+T> = None | Some(value: T)

  /** Every byte string of length >= 8 is one of these: the last eight bytes are the tag. */
  datatype InternalKey = InternalKey(user: UserKey, seqno: SeqNum, kind: Byte) {
    /** PackSequenceAndType */
    function Tag(): nat { seqno * 256 + kind }
    /** ParseInternalKey succeeds */
    predicate WellFormed() { kind <= TYPE_VALUE }
  }

  datatype Entry = Entry(key: InternalKey, value: Value)

  // ----- order on user keys

  ghost function Rank(k: UserKey): (r: real)
    ensures 0.0 <= r < 1.0
    ensures k != [] ==> r >= 1.0 / 257.0
  {
    if k == [] then 0.0 else (k[0] as real + 1.0 + Rank(k[1..])) / 257.0
  }

  /** Slice::compare: memcmp on the common prefix, then length. */
  function Compare(a: UserKey, b: UserKey): (r: int)
    ensures r < 0 <==> Rank(a) < Rank(b)
    ensures r > 0 <==> Rank(a) > Rank(b)
    ensures r == 0 <==> a == b
  {
    if a == [] then (if b == [] then 0 else -1)
    else if b == [] then 1
    else if a[0] < b[0] then -1
    else if a[0] > b[0] then 1
    else
      assert a == [a[0]] + a[1..] && b == [b[0]] + b[1..];
      Compare(a[1..], b[1..])
  }

  /** Lexicographic: a is a proper prefix of b, or smaller at the first place where they differ. */
  lemma {:induction false} CompareIsLexicographic(a: UserKey, b: UserKey)
    ensures Compare(a, b) < 0 <==>
            exists i :: 0 <= i <= |a| && i < |b| && a[..i] == b[..i] && (i == |a| || a[i] < b[i])
  {
    if a != [] && b != [] {
      if a[0] == b[0] {
        CompareIsLexicographic(a[1..], b[1..]);
        if i :| 0 <= i <= |a| && i < |b| && a[..i] == b[..i] && (i == |a| || a[i] < b[i]) {
          assert a[1..][..i - 1] == a[..i][1..] && b[1..][..i - 1] == b[..i][1..];
          assert 0 <= i - 1 <= |a[1..]|;
        }
        if Compare(a, b) < 0 {
          var j :| 0 <= j <= |a[1..]| && j < |b[1..]| && a[1..][..j] == b[1..][..j] && (j == |a[1..]| || a[1..][j] < b[1..][j]);
          assert a[..j + 1] == [a[0]] + a[1..][..j] && b[..j + 1] == [b[0]] + b[1..][..j];
        }
      } else if a[0] < b[0] {
        assert a[..0] == b[..0];
      } else {
        forall i | 0 < i <= |a| && i < |b|
          ensures a[..i] != b[..i]
        {
          assert a[..i][0] == a[0] && b[..i][0] == b[0];
        }
      }
    } else if a == [] && b != [] {
      assert a[..0] == b[..0];
    }
  }

  // ----- order on internal keys

  ghost function InternalRankOf(u: UserKey, tag: nat): (r: real)
    requires tag < 0x1_0000_0000_0000_0000
    ensures 0.0 < r < 1.0
    ensures u != [] ==> r > 1.0 / 257.0
    ensures u == [] ==> r < 1.0 / 257.0
  {
    if u == [] then (18446744073709551616.0 - tag as real) / 36893488147419103232.0 / 257.0
    else (u[0] as real + 1.0 + InternalRankOf(u[1..], tag)) / 257.0
  }

  ghost function InternalRank(k: InternalKey): real
  {
    InternalRankOf(k.user, k.Tag())
  }

  lemma {:induction false} InternalRankByUser(u: UserKey, s: nat, v: UserKey, t: nat)
    requires s < 0x1_0000_0000_0000_0000 && t < 0x1_0000_0000_0000_0000
    ensures Rank(u) < Rank(v) ==> InternalRankOf(u, s) < InternalRankOf(v, t)
    decreases u
  {
    if u != [] && v != [] {
      InternalRankByUser(u[1..], s, v[1..], t);
      assert Compare(u, v) < 0 <==> Rank(u) < Rank(v);
    }
  }

  lemma {:induction false} InternalRankByTag(u: UserKey, s: nat, t: nat)
    requires s < 0x1_0000_0000_0000_0000 && t < 0x1_0000_0000_0000_0000
    ensures InternalRankOf(u, s) < InternalRankOf(u, t) <==> s > t
  {
    if u != [] {
      InternalRankByTag(u[1..], s, t);
    }
  }

  /** InternalKeyComparator::Compare: increasing user key, then decreasing tag. */
  function InternalCompare(a: InternalKey, b: InternalKey): (r: int)
    ensures r < 0 <==> InternalRank(a) < InternalRank(b)
    ensures r > 0 <==> InternalRank(a) > InternalRank(b)
    ensures r == 0 <==> a == b
    ensures Rank(a.user) < Rank(b.user) ==> r < 0
    ensures Rank(a.user) > Rank(b.user) ==> r > 0
    ensures a.user == b.user && a.seqno > b.seqno ==> r < 0
    ensures a.user == b.user && a.seqno < b.seqno ==> r > 0
  {
    InternalRankByUser(a.user, a.Tag(), b.user, b.Tag());
    InternalRankByUser(b.user, b.Tag(), a.user, a.Tag());
    InternalRankByTag(a.user, a.Tag(), b.Tag());
    InternalRankByTag(a.user, b.Tag(), a.Tag());
    var r := Compare(a.user, b.user);
    if r != 0 then r
    else if a.Tag() > b.Tag() then -1
    else if a.Tag() < b.Tag() then 1
    else 0
  }

  /** a sorts strictly before b. */
  predicate Before(a: InternalKey, b: InternalKey) { InternalCompare(a, b) < 0 }

  /** LookupKey: the earliest internal key of `user` that snapshot `s` may see. */
  function LookupKey(user: UserKey, s: SeqNum): InternalKey { InternalKey(user, s, TYPE_FOR_SEEK) }
}

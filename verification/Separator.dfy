/** The comparators' key shortening: what the index block stores between two data blocks. */
module Separator {
  import opened Keys

  /** Keys that first differ at n. */
  lemma {:induction false} DifferAt(a: UserKey, b: UserKey, n: nat)
    requires n < |a| && n < |b| && a[..n] == b[..n] && a[n] < b[n]
    ensures Compare(a, b) < 0
    decreases n
  {
    if n > 0 {
      assert a[0] == a[..n][0] == b[..n][0] == b[0];
      assert a[1..][..n - 1] == a[..n][1..] && b[1..][..n - 1] == b[..n][1..];
      DifferAt(a[1..], b[1..], n - 1);
    }
  }

  /** Two strings first differ at one place only. */
  lemma FirstDifference(a: UserKey, b: UserKey, m: nat, n: nat)
    requires m < |a| && m < |b| && n <= |a| && n <= |b| && a[..m] == b[..m] && a[..n] == b[..n] && a[m] != b[m]
    requires n < |a| && n < |b| ==> a[n] != b[n]
    ensures m == n
  {
    assert forall i :: 0 <= i < n ==> a[..n][i] == b[..n][i];
    assert forall i :: 0 <= i < m ==> a[..m][i] == b[..m][i];
  }

  /** BytewiseComparatorImpl::FindShortestSeparator: the first byte that differs goes up by one and the rest is dropped,
      exactly when that stays below the limit. */
  method FindShortestSeparator(start: UserKey, limit: UserKey) returns (r: UserKey)
    ensures r == start || (Compare(start, r) < 0 && Compare(r, limit) < 0)
    ensures |r| <= |start|
    ensures forall n :: 0 <= n < |start| && n < |limit| && start[..n] == limit[..n] && start[n] < 0xff && (start[n] as int) + 1 < limit[n] ==>
              |r| == n + 1 && r[..n] == start[..n] && r[n] == (start[n] as int) + 1
    ensures r != start ==> exists n :: 0 <= n < |start| && n < |limit| && start[..n] == limit[..n] && (start[n] as int) + 1 < limit[n]
  {
    var minLength := if |start| < |limit| then |start| else |limit|;
    var n := 0;
    while n < minLength && start[n] == limit[n]
      invariant n <= minLength && start[..n] == limit[..n]
    {
      assert start[..n + 1] == start[..n] + [start[n]] && limit[..n + 1] == limit[..n] + [limit[n]];
      n := n + 1;
    }
    r := start;
    forall m | 0 <= m < minLength && start[..m] == limit[..m] && start[m] != limit[m]
      ensures m == n
    {
      FirstDifference(start, limit, m, n);
    }
    if n < minLength {
      var diff: int := start[n];
      var other: int := limit[n];
      if diff < 0xff && diff + 1 < other {
        r := start[..n] + [diff + 1];
        assert r[..n] == start[..n];
        DifferAt(start, r, n);
        DifferAt(r, limit, n);
      }
    }
  }

  /** BytewiseComparatorImpl::FindShortSuccessor */
  method FindShortSuccessor(key: UserKey) returns (r: UserKey)
    ensures r == key || Compare(key, r) < 0
    ensures |r| <= |key|
    ensures r == key <==> forall i :: 0 <= i < |key| ==> key[i] == 0xff
    ensures r != key ==> |r| > 0 && r[|r| - 1] == (key[|r| - 1] as int) + 1 && r[..|r| - 1] == key[..|r| - 1]
                         && forall i :: 0 <= i < |r| - 1 ==> key[i] == 0xff
  {
    for i := 0 to |key|
      invariant forall j :: 0 <= j < i ==> key[j] == 0xff
    {
      var byte: int := key[i];
      if byte != 0xff {
        r := key[..i] + [byte + 1];
        assert r[..i] == key[..i];
        DifferAt(key, r, i);
        assert r[i] != key[i];
        return;
      }
    }
    r := key;
  }

  /** What an index key between `last` and `next` has to be. When it is not `last` itself, even its user key is
      before the next one. */
  ghost predicate Separates(sep: InternalKey, last: InternalKey, next: InternalKey) {
    && !Before(sep, last) && Before(sep, next)
    && (sep == last || Compare(sep.user, next.user) < 0)
  }

  /** InternalKeyComparator::FindShortestSeparator */
  method FindInternalSeparator(start: InternalKey, limit: InternalKey) returns (sep: InternalKey)
    requires Before(start, limit)
    ensures Separates(sep, start, limit)
    ensures sep == start || (|sep.user| < |start.user| && sep.seqno == MAX_SEQUENCE && sep.kind == TYPE_FOR_SEEK)
    ensures forall n :: 0 <= n < |start.user| - 1 && n < |limit.user| && start.user[..n] == limit.user[..n] ==>
              (start.user[n] < 0xff && (start.user[n] as int) + 1 < limit.user[n] ==> |sep.user| == n + 1)
  {
    sep := start;
    var tmp := FindShortestSeparator(start.user, limit.user);
    if |tmp| < |start.user| && Compare(start.user, tmp) < 0 {
      sep := InternalKey(tmp, MAX_SEQUENCE, TYPE_FOR_SEEK);
    }
  }

  /** InternalKeyComparator::FindShortSuccessor */
  method FindInternalSuccessor(key: InternalKey) returns (sep: InternalKey)
    ensures !Before(sep, key)
    ensures sep == key || (|sep.user| < |key.user| && sep.seqno == MAX_SEQUENCE && sep.kind == TYPE_FOR_SEEK)
    ensures sep == key ==> forall i :: 0 <= i < |key.user| - 1 ==> key.user[i] == 0xff
  {
    sep := key;
    var tmp := FindShortSuccessor(key.user);
    if |tmp| < |key.user| && Compare(key.user, tmp) < 0 {
      sep := InternalKey(tmp, MAX_SEQUENCE, TYPE_FOR_SEEK);
    }
  }
}

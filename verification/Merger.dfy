/** The merging iterator: a cursor over the sorted merge of its children's lists. */
module Merger {
  import opened Keys
  import opened Meaning
  import opened Cursor

  // ----- the merge

  /** m holds exactly the children's entries, in order. */
  ghost predicate IsMerge(lists: seq<seq<Entry>>, m: seq<Entry>) {
    && Ordered(m)
    && (forall i {:trigger Sorted(lists[i], m)} :: 0 <= i < |lists| ==> Sorted(lists[i], m))
    && (forall c {:trigger Covered(lists, m[c])} :: 0 <= c < |m| ==> Covered(lists, m[c]))
    && Disjoint(lists)
  }

  ghost predicate Sorted(l: seq<Entry>, m: seq<Entry>) { Ordered(l) && Within(l, m) }

  ghost predicate Covered(lists: seq<seq<Entry>>, e: Entry) { exists i :: 0 <= i < |lists| && e in lists[i] }

  ghost predicate Within(l: seq<Entry>, m: seq<Entry>) { forall a :: 0 <= a < |l| ==> l[a] in m }

  /** No key is in two children. */
  ghost predicate Disjoint(lists: seq<seq<Entry>>) {
    forall i, j {:trigger Apart(lists[i], lists[j])} :: 0 <= i < j < |lists| ==> Apart(lists[i], lists[j])
  }

  ghost predicate Apart(l: seq<Entry>, r: seq<Entry>) {
    forall a, b :: 0 <= a < |l| && 0 <= b < |r| ==> l[a].key != r[b].key
  }

  /** How much of list l comes before position c of the merge. */
  ghost function Split(l: seq<Entry>, m: seq<Entry>, c: nat): (n: nat)
    requires c <= |m|
    ensures n <= |l|
  {
    if c < |m| then SeekIndex(l, m[c].key) else |l|
  }

  /** SeekIndex is the only such index. */
  lemma SeekIndexIs(l: seq<Entry>, k: InternalKey, n: nat)
    requires n <= |l| && (forall a :: 0 <= a < n ==> Before(l[a].key, k)) && (n < |l| ==> !Before(l[n].key, k))
    ensures SeekIndex(l, k) == n
  {
  }

  lemma OrderedPositions(m: seq<Entry>, i: nat, j: nat)
    requires Ordered(m) && i < |m| && j < |m|
    ensures Before(m[i].key, m[j].key) <==> i < j
    ensures m[i].key == m[j].key <==> i == j
  {
  }

  /** Entry a of a child is on the near side of c exactly when it is before the split. */
  lemma SplitSides(l: seq<Entry>, m: seq<Entry>, c: nat, a: nat, x: nat)
    requires Ordered(l) && Ordered(m) && c <= |m| && a < |l| && x < |m| && l[a] == m[x]
    ensures a < Split(l, m, c) <==> x < c
  {
    if c < |m| {
      OrderedPositions(m, x, c);
      if a >= Split(l, m, c) {
        var n := SeekIndex(l, m[c].key);
        OrderedPositions(l, n, a);
      }
    }
  }

  lemma SplitUnique(l: seq<Entry>, m: seq<Entry>, c: nat, n: nat)
    requires Ordered(l) && Ordered(m) && Within(l, m) && c <= |m| && n <= |l|
    requires forall a, x :: 0 <= a < |l| && 0 <= x < |m| && l[a] == m[x] ==> (a < n <==> x < c)
    ensures Split(l, m, c) == n
  {
    var s := Split(l, m, c);
    if s < n {
      var x :| 0 <= x < |m| && m[x] == l[s];
      SplitSides(l, m, c, s, x);
    } else if n < s {
      var x :| 0 <= x < |m| && m[x] == l[n];
      SplitSides(l, m, c, n, x);
    }
  }

  /** Passing m[c], which child j holds at a, moves j's split by one and no other. */
  lemma SplitNextOwner(l: seq<Entry>, m: seq<Entry>, c: nat, a: nat)
    requires Ordered(l) && Ordered(m) && Within(l, m) && c < |m| && a < |l| && l[a] == m[c]
    ensures Split(l, m, c) == a && Split(l, m, c + 1) == a + 1
  {
    forall b, x | 0 <= b < |l| && 0 <= x < |m| && l[b] == m[x]
      ensures (b < a <==> x < c) && (b < a + 1 <==> x < c + 1)
    {
      OrderedPositions(l, b, a);
      OrderedPositions(m, x, c);
    }
    SplitUnique(l, m, c, a);
    SplitUnique(l, m, c + 1, a + 1);
  }

  lemma SplitNextOther(l: seq<Entry>, m: seq<Entry>, c: nat)
    requires Ordered(l) && Ordered(m) && Within(l, m) && c < |m| && (forall a :: 0 <= a < |l| ==> l[a] != m[c])
    ensures Split(l, m, c + 1) == Split(l, m, c)
  {
    var n := Split(l, m, c);
    forall b, x | 0 <= b < |l| && 0 <= x < |m| && l[b] == m[x]
      ensures b < n <==> x < c + 1
    {
      SplitSides(l, m, c, b, x);
    }
    SplitUnique(l, m, c + 1, n);
  }

  lemma SplitSeek(l: seq<Entry>, m: seq<Entry>, t: InternalKey)
    requires Ordered(l) && Ordered(m) && Within(l, m)
    ensures Split(l, m, SeekIndex(m, t)) == SeekIndex(l, t)
  {
    var c, n := SeekIndex(m, t), SeekIndex(l, t);
    forall b, x | 0 <= b < |l| && 0 <= x < |m| && l[b] == m[x]
      ensures b < n <==> x < c
    {
      SeekSide(l, t, b);
      SeekSide(m, t, x);
    }
    SplitUnique(l, m, c, n);
  }

  lemma SeekSide(l: seq<Entry>, t: InternalKey, a: nat)
    requires Ordered(l) && a < |l|
    ensures a < SeekIndex(l, t) <==> Before(l[a].key, t)
  {
    var n := SeekIndex(l, t);
    if a > n {
      OrderedPositions(l, n, a);
    }
  }

  lemma SplitEnds(l: seq<Entry>, m: seq<Entry>)
    requires Ordered(l) && Ordered(m) && Within(l, m)
    ensures Split(l, m, 0) == 0 && Split(l, m, |m|) == |l|
  {
    SplitUnique(l, m, 0, 0);
  }

  /** Which child holds m[c]. */
  ghost predicate Owns(lists: seq<seq<Entry>>, m: seq<Entry>, c: nat, j: nat, a: nat) {
    c < |m| && j < |lists| && a < |lists[j]| && lists[j][a] == m[c]
  }

  lemma OwnerExists(lists: seq<seq<Entry>>, m: seq<Entry>, c: nat) returns (j: nat, a: nat)
    requires IsMerge(lists, m) && c < |m|
    ensures Owns(lists, m, c, j, a)
  {
    assert Covered(lists, m[c]);
    var i :| 0 <= i < |lists| && m[c] in lists[i];
    j := i;
    a :| 0 <= a < |lists[j]| && lists[j][a] == m[c];
  }

  lemma OtherDiffers(lists: seq<seq<Entry>>, m: seq<Entry>, c: nat, j: nat, a: nat, i: nat)
    requires IsMerge(lists, m) && Owns(lists, m, c, j, a) && i < |lists| && i != j
    ensures forall b :: 0 <= b < |lists[i]| ==> lists[i][b].key != m[c].key
  {
    if i < j {
      assert Apart(lists[i], lists[j]);
    } else {
      assert Apart(lists[j], lists[i]);
    }
  }

  // ----- there is a merge

  lemma InsertOne(m: seq<Entry>, e: Entry) returns (r: seq<Entry>)
    requires Ordered(m) && (forall a :: 0 <= a < |m| ==> m[a].key != e.key)
    ensures Ordered(r) && forall x :: x in r <==> x in m || x == e
  {
    var n := SeekIndex(m, e.key);
    r := Inserted(m, n, e);
    forall i, j | 0 <= i < j < |r|
      ensures Before(r[i].key, r[j].key)
    {
      InsertedOrder(m, e, n, i, j);
    }
    InsertedMembers(m, n, e);
  }

  lemma InsertedMembers(m: seq<Entry>, n: nat, e: Entry)
    requires n <= |m|
    ensures forall x :: x in Inserted(m, n, e) <==> x in m || x == e
  {
    assert m == m[..n] + m[n..];
  }

  function Inserted(m: seq<Entry>, n: nat, e: Entry): (r: seq<Entry>)
    requires n <= |m|
    ensures |r| == |m| + 1 && r[n] == e
    ensures forall i :: 0 <= i < n ==> r[i] == m[i]
    ensures forall i :: n < i < |r| ==> r[i] == m[i - 1]
  {
    m[..n] + [e] + m[n..]
  }

  lemma InsertedOrder(m: seq<Entry>, e: Entry, n: nat, i: nat, j: nat)
    requires Ordered(m) && (forall a :: 0 <= a < |m| ==> m[a].key != e.key) && n == SeekIndex(m, e.key) && i < j <= |m|
    ensures Before(Inserted(m, n, e)[i].key, Inserted(m, n, e)[j].key)
  {
    if j < n {
      OrderedPositions(m, i, j);
    } else if j == n {
      SeekSide(m, e.key, i);
    } else if i == n {
      SeekSide(m, e.key, j - 1);
    } else if i < n {
      OrderedPositions(m, i, j - 1);
    } else {
      OrderedPositions(m, i - 1, j - 1);
    }
  }

  lemma {:induction false} InsertAll(m: seq<Entry>, l: seq<Entry>, k: nat) returns (r: seq<Entry>)
    requires Ordered(m) && Ordered(l) && Apart(m, l) && k <= |l|
    ensures Ordered(r) && forall x :: x in r <==> x in m || x in l[..k]
  {
    if k == 0 {
      r := m;
    } else {
      r := InsertAll(m, l, k - 1);
      var e := l[k - 1];
      assert l[..k] == l[..k - 1] + [e];
      forall a | 0 <= a < |r|
        ensures r[a].key != e.key
      {
        assert r[a] in m || r[a] in l[..k - 1];
        if r[a] in l[..k - 1] {
          var b :| 0 <= b < k - 1 && l[b] == r[a];
          OrderedPositions(l, b, k - 1);
        }
      }
      r := InsertOne(r, e);
    }
  }

  ghost predicate AllOrdered(lists: seq<seq<Entry>>) { forall i :: 0 <= i < |lists| ==> Ordered(lists[i]) }

  /** Children with distinct keys always have a merge. */
  lemma {:induction false} MergeExists(lists: seq<seq<Entry>>) returns (m: seq<Entry>)
    requires AllOrdered(lists) && Disjoint(lists)
    ensures IsMerge(lists, m)
  {
    if lists == [] {
      m := [];
    } else {
      var n := |lists| - 1;
      var front, last := lists[..n], lists[n];
      assert Disjoint(front) by {
        forall i, j | 0 <= i < j < |front| ensures Apart(front[i], front[j]) { assert Apart(lists[i], lists[j]); }
      }
      var m0 := MergeExists(front);
      FrontApart(lists, m0);
      m := InsertAll(m0, last, |last|);
      assert last[..|last|] == last;
      ExtendMerge(lists, m0, m);
    }
  }

  lemma FrontApart(lists: seq<seq<Entry>>, m0: seq<Entry>)
    requires lists != [] && Disjoint(lists) && IsMerge(lists[..|lists| - 1], m0)
    ensures Apart(m0, lists[|lists| - 1])
  {
    var n := |lists| - 1;
    forall a, b | 0 <= a < |m0| && 0 <= b < |lists[n]|
      ensures m0[a].key != lists[n][b].key
    {
      assert Covered(lists[..n], m0[a]);
      var i :| 0 <= i < n && m0[a] in lists[..n][i];
      assert Apart(lists[i], lists[n]);
    }
  }

  lemma ExtendMerge(lists: seq<seq<Entry>>, m0: seq<Entry>, m: seq<Entry>)
    requires lists != [] && AllOrdered(lists) && Disjoint(lists) && IsMerge(lists[..|lists| - 1], m0)
    requires Ordered(m) && forall x :: x in m <==> x in m0 || x in lists[|lists| - 1]
    ensures IsMerge(lists, m)
  {
    var n := |lists| - 1;
    forall i | 0 <= i < |lists|
      ensures Sorted(lists[i], m)
    {
      if i < n {
        assert Sorted(lists[..n][i], m0);
      }
    }
    forall c | 0 <= c < |m|
      ensures Covered(lists, m[c])
    {
      if m[c] in m0 {
        var a :| 0 <= a < |m0| && m0[a] == m[c];
        assert Covered(lists[..n], m0[a]);
        var i :| 0 <= i < n && m0[a] in lists[..n][i];
        assert m[c] in lists[i];
      } else {
        assert m[c] in lists[n];
      }
    }
  }

  // ----- positions of the children

  ghost predicate Placed(lists: seq<seq<Entry>>, pos: seq<Option<nat>>) {
    |pos| == |lists| && forall i :: 0 <= i < |lists| ==> OnList(lists[i], pos[i])
  }

  /** Every child stands on its first entry at or past c. */
  ghost predicate Ahead(lists: seq<seq<Entry>>, m: seq<Entry>, pos: seq<Option<nat>>, c: nat)
    requires c <= |m|
  {
    |pos| == |lists| && forall i :: 0 <= i < |lists| ==> pos[i] == At(lists[i], Split(lists[i], m, c))
  }

  /** Every child stands on its last entry before c. */
  ghost predicate Behind(lists: seq<seq<Entry>>, m: seq<Entry>, pos: seq<Option<nat>>, c: nat)
    requires c <= |m|
  {
    |pos| == |lists| && forall i :: 0 <= i < |lists| ==> pos[i] == At(lists[i], Split(lists[i], m, c) - 1)
  }

  predicate Standing(lists: seq<seq<Entry>>, pos: seq<Option<nat>>, j: nat) {
    j < |lists| == |pos| && pos[j].Some? && pos[j].value < |lists[j]|
  }

  function KeyAt(lists: seq<seq<Entry>>, pos: seq<Option<nat>>, j: nat): InternalKey
    requires Standing(lists, pos, j)
  {
    lists[j][pos[j].value].key
  }

  /** FindSmallest */
  method FindSmallest(lists: seq<seq<Entry>>, pos: seq<Option<nat>>) returns (r: Option<nat>)
    requires Placed(lists, pos)
    ensures r.None? ==> forall i :: 0 <= i < |pos| ==> pos[i].None?
    ensures r.Some? ==> Standing(lists, pos, r.value)
    ensures r.Some? ==> forall i :: 0 <= i < |pos| && pos[i].Some? ==> !Before(KeyAt(lists, pos, i), KeyAt(lists, pos, r.value))
  {
    r := None;
    for i := 0 to |lists|
      invariant r.None? ==> forall k :: 0 <= k < i ==> pos[k].None?
      invariant r.Some? ==> Standing(lists, pos, r.value)
      invariant r.Some? ==> forall k :: 0 <= k < i && pos[k].Some? ==> !Before(KeyAt(lists, pos, k), KeyAt(lists, pos, r.value))
    {
      if pos[i].Some? {
        if r.None? || InternalCompare(KeyAt(lists, pos, i), KeyAt(lists, pos, r.value)) < 0 {
          r := Some(i);
        }
      }
    }
  }

  /** FindLargest */
  method FindLargest(lists: seq<seq<Entry>>, pos: seq<Option<nat>>) returns (r: Option<nat>)
    requires Placed(lists, pos)
    ensures r.None? ==> forall i :: 0 <= i < |pos| ==> pos[i].None?
    ensures r.Some? ==> Standing(lists, pos, r.value)
    ensures r.Some? ==> forall i :: 0 <= i < |pos| && pos[i].Some? ==> !Before(KeyAt(lists, pos, r.value), KeyAt(lists, pos, i))
  {
    r := None;
    for i := |lists| downto 0
      invariant r.None? ==> forall k :: i <= k < |lists| ==> pos[k].None?
      invariant r.Some? ==> Standing(lists, pos, r.value)
      invariant r.Some? ==> forall k :: i <= k < |lists| && pos[k].Some? ==> !Before(KeyAt(lists, pos, r.value), KeyAt(lists, pos, k))
    {
      if pos[i].Some? {
        if r.None? || InternalCompare(KeyAt(lists, pos, i), KeyAt(lists, pos, r.value)) > 0 {
          r := Some(i);
        }
      }
    }
  }

  /** The smallest of the children at or past c is m[c]. */
  lemma SmallestIsNext(lists: seq<seq<Entry>>, m: seq<Entry>, pos: seq<Option<nat>>, c: nat, r: Option<nat>)
    requires IsMerge(lists, m) && c <= |m| && Ahead(lists, m, pos, c)
    requires r.None? ==> forall i :: 0 <= i < |pos| ==> pos[i].None?
    requires r.Some? ==> Standing(lists, pos, r.value)
    requires r.Some? ==> forall i :: 0 <= i < |pos| && pos[i].Some? ==> !Before(KeyAt(lists, pos, i), KeyAt(lists, pos, r.value))
    ensures r.Some? <==> c < |m|
    ensures r.Some? ==> Owns(lists, m, c, r.value, pos[r.value].value)
  {
    if c < |m| {
      var j, a := OwnerExists(lists, m, c);
      assert Sorted(lists[j], m);
      SplitNextOwner(lists[j], m, c, a);
      assert pos[j] == Some(a);
      PlacedKey(lists, m, pos, c, r.value);
    }
  }

  lemma PlacedKey(lists: seq<seq<Entry>>, m: seq<Entry>, pos: seq<Option<nat>>, c: nat, i: nat)
    requires IsMerge(lists, m) && c < |m| && Ahead(lists, m, pos, c) && i < |pos| && pos[i].Some?
    ensures Standing(lists, pos, i) && !Before(KeyAt(lists, pos, i), m[c].key)
    ensures lists[i][pos[i].value] in m && (KeyAt(lists, pos, i) == m[c].key ==> lists[i][pos[i].value] == m[c])
  {
    var a := pos[i].value;
    assert pos[i] == At(lists[i], Split(lists[i], m, c));
    assert Sorted(lists[i], m);
    var x :| 0 <= x < |m| && m[x] == lists[i][a];
    OrderedPositions(m, x, c);
  }

  /** The largest of the children before c is m[c - 1]. */
  lemma LargestIsPrevious(lists: seq<seq<Entry>>, m: seq<Entry>, pos: seq<Option<nat>>, c: nat, r: Option<nat>)
    requires IsMerge(lists, m) && c <= |m| && Behind(lists, m, pos, c)
    requires r.None? ==> forall i :: 0 <= i < |pos| ==> pos[i].None?
    requires r.Some? ==> Standing(lists, pos, r.value)
    requires r.Some? ==> forall i :: 0 <= i < |pos| && pos[i].Some? ==> !Before(KeyAt(lists, pos, r.value), KeyAt(lists, pos, i))
    ensures r.Some? <==> c > 0
    ensures r.Some? ==> Owns(lists, m, c - 1, r.value, pos[r.value].value)
  {
    if c > 0 {
      var j := OwnerBehind(lists, m, pos, c);
      BehindKey(lists, m, pos, c, j);
      BehindKey(lists, m, pos, c, r.value);
    } else {
      NoneBehind(lists, m, pos);
    }
  }

  lemma OwnerBehind(lists: seq<seq<Entry>>, m: seq<Entry>, pos: seq<Option<nat>>, c: nat) returns (j: nat)
    requires IsMerge(lists, m) && 0 < c <= |m| && Behind(lists, m, pos, c)
    ensures Standing(lists, pos, j) && KeyAt(lists, pos, j) == m[c - 1].key
  {
    var a;
    j, a := OwnerExists(lists, m, c - 1);
    assert Sorted(lists[j], m);
    SplitNextOwner(lists[j], m, c - 1, a);
  }

  lemma NoneBehind(lists: seq<seq<Entry>>, m: seq<Entry>, pos: seq<Option<nat>>)
    requires IsMerge(lists, m) && Behind(lists, m, pos, 0)
    ensures forall i :: 0 <= i < |pos| ==> pos[i].None?
  {
    forall i | 0 <= i < |lists|
      ensures pos[i].None?
    {
      assert Sorted(lists[i], m);
      SplitEnds(lists[i], m);
    }
  }

  lemma BehindKey(lists: seq<seq<Entry>>, m: seq<Entry>, pos: seq<Option<nat>>, c: nat, i: nat)
    requires IsMerge(lists, m) && 0 < c <= |m| && Behind(lists, m, pos, c) && i < |pos| && pos[i].Some?
    ensures Standing(lists, pos, i) && !Before(m[c - 1].key, KeyAt(lists, pos, i))
    ensures KeyAt(lists, pos, i) == m[c - 1].key ==> lists[i][pos[i].value] == m[c - 1]
  {
    var a := pos[i].value;
    assert pos[i] == At(lists[i], Split(lists[i], m, c) - 1);
    assert Sorted(lists[i], m);
    var x :| 0 <= x < |m| && m[x] == lists[i][a];
    SplitSides(lists[i], m, c, a, x);
    OrderedPositions(m, x, c - 1);
  }

  // ----- moving the children

  /** The same move on every child. */
  method MoveAll(lists: seq<seq<Entry>>, pos: seq<Option<nat>>, mv: Move) returns (r: seq<Option<nat>>)
    requires Placed(lists, pos) && !mv.Next? && !mv.Prev?
    ensures |r| == |lists| && forall i :: 0 <= i < |lists| ==> OnList(lists[i], pos[i]) && r[i] == Moved(lists[i], mv, pos[i])
  {
    r := pos;
    for i := 0 to |lists|
      invariant |r| == |lists| && (forall k :: i <= k < |lists| ==> r[k] == pos[k])
      invariant forall k :: 0 <= k < i ==> OnList(lists[k], pos[k]) && r[k] == Moved(lists[k], mv, pos[k])
    {
      r := r[i := Moved(lists[i], mv, r[i])];
    }
  }

  /** Seek, then over an entry with the very same key. */
  method SeekPast(l: seq<Entry>, key: InternalKey) returns (c: Option<nat>, ghost n: nat)
    requires Ordered(l)
    ensures n <= |l| && c == At(l, n)
    ensures forall a :: 0 <= a < n ==> !Before(key, l[a].key)
    ensures n < |l| ==> Before(key, l[n].key)
  {
    c := Moved(l, Seek(key), None);
    n := SeekIndex(l, key);
    if c.Some? && InternalCompare(key, l[c.value].key) == 0 {
      c := Moved(l, Next, c);
      n := n + 1;
    }
  }

  lemma PastIsSplit(l: seq<Entry>, key: InternalKey, n: nat)
    requires Ordered(l) && n <= |l| && (forall a :: 0 <= a < |l| ==> l[a].key != key)
    requires (forall a :: 0 <= a < n ==> !Before(key, l[a].key)) && (n < |l| ==> Before(key, l[n].key))
    ensures SeekIndex(l, key) == n
  {
    SeekIndexIs(l, key, n);
  }

  /** Turning round to go forward: every other child moves to its first entry past the key. */
  method TurnForward(lists: seq<seq<Entry>>, ghost m: seq<Entry>, pos: seq<Option<nat>>, j: nat, ghost c: nat) returns (r: seq<Option<nat>>)
    requires IsMerge(lists, m) && Placed(lists, pos) && Standing(lists, pos, j) && Owns(lists, m, c, j, pos[j].value)
    ensures Ahead(lists, m, r, c)
  {
    r := pos;
    var key := KeyAt(lists, pos, j);
    for i := 0 to |lists|
      invariant |r| == |lists| && r[j] == pos[j] && (forall k :: i <= k < |lists| ==> r[k] == pos[k])
      invariant forall k :: 0 <= k < i && k != j ==> r[k] == At(lists[k], Split(lists[k], m, c))
    {
      if i != j {
        assert Sorted(lists[i], m);
        OtherDiffers(lists, m, c, j, pos[j].value, i);
        var child;
        ghost var n;
        child, n := SeekPast(lists[i], key);
        PastIsSplit(lists[i], key, n);
        r := r[i := child];
      }
    }
    assert Sorted(lists[j], m);
    SplitNextOwner(lists[j], m, c, pos[j].value);
  }

  /** Turning round to go back: every other child moves to its last entry before the key. */
  method TurnBack(lists: seq<seq<Entry>>, ghost m: seq<Entry>, pos: seq<Option<nat>>, j: nat, ghost c: nat) returns (r: seq<Option<nat>>)
    requires IsMerge(lists, m) && Placed(lists, pos) && Standing(lists, pos, j) && Owns(lists, m, c, j, pos[j].value)
    ensures Behind(lists, m, r, c + 1)
  {
    r := pos;
    var key := KeyAt(lists, pos, j);
    for i := 0 to |lists|
      invariant |r| == |lists| && r[j] == pos[j] && (forall k :: i <= k < |lists| ==> r[k] == pos[k])
      invariant forall k :: 0 <= k < i && k != j ==> r[k] == At(lists[k], Split(lists[k], m, c + 1) - 1)
    {
      if i != j {
        r := r[i := Moved(lists[i], Seek(key), r[i])];
        OtherDiffers(lists, m, c, j, pos[j].value, i);
        assert Sorted(lists[i], m);
        SplitNextOther(lists[i], m, c);
        if r[i].Some? {
          r := r[i := Moved(lists[i], Prev, r[i])];
        } else {
          r := r[i := Moved(lists[i], Last, r[i])];
        }
      }
    }
    assert Sorted(lists[j], m);
    SplitNextOwner(lists[j], m, c, pos[j].value);
  }

  /** Moving the child that holds m[c] forward puts every child past m[c]. */
  lemma AheadNext(lists: seq<seq<Entry>>, m: seq<Entry>, pos: seq<Option<nat>>, c: nat, j: nat)
    requires IsMerge(lists, m) && c < |m| && Ahead(lists, m, pos, c) && Standing(lists, pos, j) && Owns(lists, m, c, j, pos[j].value)
    ensures Ahead(lists, m, pos[j := Moved(lists[j], Next, pos[j])], c + 1)
  {
    var r := pos[j := Moved(lists[j], Next, pos[j])];
    forall i | 0 <= i < |lists|
      ensures r[i] == At(lists[i], Split(lists[i], m, c + 1))
    {
      if i == j {
        assert Sorted(lists[j], m);
        SplitNextOwner(lists[j], m, c, pos[j].value);
      } else {
        OtherDiffers(lists, m, c, j, pos[j].value, i);
        assert Sorted(lists[i], m);
        SplitNextOther(lists[i], m, c);
      }
    }
  }

  lemma BehindPrev(lists: seq<seq<Entry>>, m: seq<Entry>, pos: seq<Option<nat>>, c: nat, j: nat)
    requires IsMerge(lists, m) && c < |m| && Behind(lists, m, pos, c + 1) && Standing(lists, pos, j) && Owns(lists, m, c, j, pos[j].value)
    ensures Behind(lists, m, pos[j := Moved(lists[j], Prev, pos[j])], c)
  {
    var r := pos[j := Moved(lists[j], Prev, pos[j])];
    forall i | 0 <= i < |lists|
      ensures r[i] == At(lists[i], Split(lists[i], m, c) - 1)
    {
      if i == j {
        assert Sorted(lists[j], m);
        SplitNextOwner(lists[j], m, c, pos[j].value);
      } else {
        OtherDiffers(lists, m, c, j, pos[j].value, i);
        assert Sorted(lists[i], m);
        SplitNextOther(lists[i], m, c);
      }
    }
  }

  method NextPositions(lists: seq<seq<Entry>>, ghost m: seq<Entry>, pos: seq<Option<nat>>, forward: bool, j: nat, ghost c: nat)
    returns (r: seq<Option<nat>>)
    requires IsMerge(lists, m) && Placed(lists, pos) && Standing(lists, pos, j) && Owns(lists, m, c, j, pos[j].value)
    requires forward ==> Ahead(lists, m, pos, c)
    ensures Ahead(lists, m, r, c + 1)
  {
    r := pos;
    if !forward {
      r := TurnForward(lists, m, pos, j, c);
      OwnerPlace(lists, m, pos, j, c);
    }
    AheadNext(lists, m, r, c, j);
    r := r[j := Moved(lists[j], Next, r[j])];
  }

  method PrevPositions(lists: seq<seq<Entry>>, ghost m: seq<Entry>, pos: seq<Option<nat>>, forward: bool, j: nat, ghost c: nat)
    returns (r: seq<Option<nat>>)
    requires IsMerge(lists, m) && Placed(lists, pos) && Standing(lists, pos, j) && Owns(lists, m, c, j, pos[j].value)
    requires !forward ==> Behind(lists, m, pos, c + 1)
    ensures Behind(lists, m, r, c)
  {
    r := pos;
    if forward {
      r := TurnBack(lists, m, pos, j, c);
      OwnerPlace(lists, m, pos, j, c);
    }
    BehindPrev(lists, m, r, c, j);
    r := r[j := Moved(lists[j], Prev, r[j])];
  }

  lemma OwnerPlace(lists: seq<seq<Entry>>, m: seq<Entry>, pos: seq<Option<nat>>, j: nat, c: nat)
    requires IsMerge(lists, m) && Standing(lists, pos, j) && Owns(lists, m, c, j, pos[j].value)
    ensures At(lists[j], Split(lists[j], m, c)) == pos[j] == At(lists[j], Split(lists[j], m, c + 1) - 1)
  {
    assert Sorted(lists[j], m);
    SplitNextOwner(lists[j], m, c, pos[j].value);
  }

  method Smallest(lists: seq<seq<Entry>>, ghost m: seq<Entry>, pos: seq<Option<nat>>, ghost c: nat) returns (r: Option<nat>)
    requires IsMerge(lists, m) && c <= |m| && Ahead(lists, m, pos, c)
    ensures r.Some? <==> c < |m|
    ensures r.Some? ==> Standing(lists, pos, r.value) && Owns(lists, m, c, r.value, pos[r.value].value)
  {
    r := FindSmallest(lists, pos);
    SmallestIsNext(lists, m, pos, c, r);
  }

  method Largest(lists: seq<seq<Entry>>, ghost m: seq<Entry>, pos: seq<Option<nat>>, ghost c: nat) returns (r: Option<nat>)
    requires IsMerge(lists, m) && c <= |m| && Behind(lists, m, pos, c)
    ensures r.Some? <==> c > 0
    ensures r.Some? ==> Standing(lists, pos, r.value) && Owns(lists, m, c - 1, r.value, pos[r.value].value)
  {
    r := FindLargest(lists, pos);
    LargestIsPrevious(lists, m, pos, c, r);
  }

  // ----- the iterator

  class MergingIterator {
    const lists: seq<seq<Entry>>
    ghost const merge: seq<Entry>
    var pos: seq<Option<nat>>
    var current: Option<nat>
    var forward: bool
    /** Where the cursor stands on the merge. */
    ghost var cursor: Option<nat>

    constructor (lists: seq<seq<Entry>>, ghost merge: seq<Entry>)
      requires IsMerge(lists, merge)
      ensures Valid() && this.merge == merge && this.lists == lists && cursor == None
    {
      this.lists, this.merge := lists, merge;
      pos, current, forward, cursor := seq(|lists|, _ => None), None, true, None;
    }

    ghost predicate Valid() reads this {
      && IsMerge(lists, merge) && Placed(lists, pos) && OnList(merge, cursor)
      && (current.Some? <==> cursor.Some?)
      && (current.Some? ==>
            && Standing(lists, pos, current.value) && Owns(lists, merge, cursor.value, current.value, pos[current.value].value)
            && (if forward then Ahead(lists, merge, pos, cursor.value) else Behind(lists, merge, pos, cursor.value + 1)))
    }

    /** key() and value() */
    method Current() returns (e: Entry)
      requires Valid() && current.Some?
      ensures e == merge[cursor.value]
    {
      e := lists[current.value][pos[current.value].value];
    }

    method SettleForward(ghost c: nat)
      requires IsMerge(lists, merge) && c <= |merge| && Ahead(lists, merge, pos, c)
      modifies this
      ensures Valid() && cursor == At(merge, c)
    {
      current := Smallest(lists, merge, pos, c);
      forward := true;
      cursor := At(merge, c);
    }

    method SettleBack(ghost c: nat)
      requires IsMerge(lists, merge) && c <= |merge| && Behind(lists, merge, pos, c)
      modifies this
      ensures Valid() && cursor == if c > 0 then Some(c - 1) else None
    {
      current := Largest(lists, merge, pos, c);
      forward := false;
      cursor := if c > 0 then Some(c - 1) else None;
    }

    method SeekToFirst()
      requires Valid()
      modifies this
      ensures Valid() && cursor == Moved(merge, First, old(cursor))
    {
      pos := MoveAll(lists, pos, First);
      forall i | 0 <= i < |lists| ensures Split(lists[i], merge, 0) == 0 {
        assert Sorted(lists[i], merge);
        SplitEnds(lists[i], merge);
      }
      SettleForward(0);
    }

    method SeekToLast()
      requires Valid()
      modifies this
      ensures Valid() && cursor == Moved(merge, Last, old(cursor))
    {
      pos := MoveAll(lists, pos, Last);
      SettleBack(|merge|);
    }

    method Seek(target: InternalKey)
      requires Valid()
      modifies this
      ensures Valid() && cursor == Moved(merge, Move.Seek(target), old(cursor))
    {
      pos := MoveAll(lists, pos, Move.Seek(target));
      forall i | 0 <= i < |lists| ensures Split(lists[i], merge, SeekIndex(merge, target)) == SeekIndex(lists[i], target) {
        assert Sorted(lists[i], merge);
        SplitSeek(lists[i], merge, target);
      }
      SettleForward(SeekIndex(merge, target));
    }

    method Next()
      requires Valid() && current.Some?
      modifies this
      ensures Valid() && cursor == Moved(merge, Move.Next, old(cursor))
    {
      ghost var c := cursor.value;
      pos := NextPositions(lists, merge, pos, forward, current.value, c);
      SettleForward(c + 1);
    }

    method Prev()
      requires Valid() && current.Some?
      modifies this
      ensures Valid() && cursor == Moved(merge, Move.Prev, old(cursor))
    {
      ghost var c: nat := cursor.value;
      PrevIs(merge, c);
      pos := PrevPositions(lists, merge, pos, forward, current.value, c);
      SettleBack(c);
    }

    /** Any legal run of moves, in any mix of directions, is a run of the cursor over the merge. */
    method PerformAll(moves: seq<Move>)
      requires Valid() && Legal(merge, moves, cursor)
      modifies this
      ensures Valid() && cursor == MovedAll(merge, moves, old(cursor))
    {
      var i := 0;
      assert moves[0..] == moves;
      while i < |moves|
        invariant 0 <= i <= |moves| && Valid() && Legal(merge, moves[i..], cursor)
        invariant MovedAll(merge, moves[i..], cursor) == MovedAll(merge, moves, old(cursor))
        decreases |moves| - i
      {
        assert moves[i..][0] == moves[i] && moves[i..][1..] == moves[i + 1..];
        match moves[i] {
          case First => SeekToFirst();
          case Last => SeekToLast();
          case Seek(t) => Seek(t);
          case Next => Next();
          case Prev => Prev();
        }
        i := i + 1;
      }
    }
  }
}

/** The user-visible iterator: a cursor over the snapshot's live keys, driven by an internal iterator
    that shows every version of every key. */
module DbIter {
  import opened Keys
  import opened Meaning

  // ----- the abstract cursor

  /** ParseKey succeeds and the snapshot sees the entry. */
  predicate Seen(e: Entry, s: SeqNum) { e.key.WellFormed() && e.key.seqno <= s }

  /** Entry i is what the snapshot shows for its user key: the first one seen, and a value. */
  ghost predicate Live(es: seq<Entry>, s: SeqNum, i: int) {
    && 0 <= i < |es| && Seen(es[i], s) && es[i].key.kind == TYPE_VALUE
    && forall j :: 0 <= j < i && Seen(es[j], s) ==> es[j].key.user != es[i].key.user
  }

  /** The least live position at or after i, or |es|. */
  ghost function NextLive(es: seq<Entry>, s: SeqNum, i: nat): (r: nat)
    requires i <= |es|
    ensures i <= r <= |es| && (r < |es| ==> Live(es, s, r))
    ensures forall j :: i <= j < r ==> !Live(es, s, j)
    decreases |es| - i
  {
    if i == |es| || Live(es, s, i) then i else NextLive(es, s, i + 1)
  }

  /** The greatest live position before i, or -1. */
  ghost function PrevLive(es: seq<Entry>, s: SeqNum, i: nat): (r: int)
    requires i <= |es|
    ensures -1 <= r < i && (r >= 0 ==> Live(es, s, r))
    ensures forall j :: r < j < i ==> !Live(es, s, j)
  {
    if i == 0 then -1 else if Live(es, s, i - 1) then i - 1 else PrevLive(es, s, i - 1)
  }

  datatype Move = First | Last | Seek(target: UserKey) | Next | Prev

  /** A cursor over the live positions; None is the invalid iterator. */
  ghost function Moved(es: seq<Entry>, s: SeqNum, m: Move, c: Option<nat>): (r: Option<nat>)
    requires c.Some? ==> c.value < |es|
    requires m.Next? || m.Prev? ==> c.Some?
    ensures r.Some? ==> r.value < |es|
  {
    var n: int := match m
      case First => NextLive(es, s, 0)
      case Last => PrevLive(es, s, |es|)
      case Seek(t) => NextLive(es, s, SeekIndex(es, LookupKey(t, s)))
      case Next => NextLive(es, s, c.value + 1)
      case Prev => PrevLive(es, s, c.value);
    if 0 <= n < |es| then Some(n) else None
  }

  /** Next and Prev are only called on a valid iterator. */
  ghost predicate Legal(es: seq<Entry>, s: SeqNum, moves: seq<Move>, c: Option<nat>)
    requires c.Some? ==> c.value < |es|
  {
    moves == [] || ((moves[0].Next? || moves[0].Prev? ==> c.Some?) && Legal(es, s, moves[1..], Moved(es, s, moves[0], c)))
  }

  ghost function MovedAll(es: seq<Entry>, s: SeqNum, moves: seq<Move>, c: Option<nat>): Option<nat>
    requires c.Some? ==> c.value < |es|
    requires Legal(es, s, moves, c)
  {
    if moves == [] then c else MovedAll(es, s, moves[1..], Moved(es, s, moves[0], c))
  }

  // ----- facts about live positions

  lemma OrderedUsers(es: seq<Entry>, i: nat, j: nat)
    requires Ordered(es) && i <= j < |es|
    ensures Rank(es[i].key.user) <= Rank(es[j].key.user)
  {
    if i < j {
      assert Before(es[i].key, es[j].key);
    }
  }

  /** Seek's landing place splits the live positions at the target key. */
  lemma SeekSplitsLive(es: seq<Entry>, s: SeqNum, t: UserKey, i: nat)
    requires Ordered(es) && Live(es, s, i)
    ensures i >= SeekIndex(es, LookupKey(t, s)) <==> Compare(es[i].key.user, t) >= 0
  {
    var p := SeekIndex(es, LookupKey(t, s));
    if i >= p {
      OrderedUsers(es, p, i);
      assert !Before(es[p].key, LookupKey(t, s));
      assert Compare(es[p].key.user, t) >= 0;
    } else {
      assert Before(es[i].key, LookupKey(t, s));
    }
  }

  /** Nothing seen before Seek's landing place has a user key at or past the target. */
  lemma SeekLeavesSmaller(es: seq<Entry>, s: SeqNum, t: UserKey, j: nat)
    requires j < SeekIndex(es, LookupKey(t, s)) && Seen(es[j], s)
    ensures Rank(es[j].key.user) < Rank(t)
  {
    assert Before(es[j].key, LookupKey(t, s));
  }

  /** Live positions carry strictly increasing user keys. */
  lemma LiveKeysIncrease(es: seq<Entry>, s: SeqNum, i: nat, j: nat)
    requires Ordered(es) && i < j && Live(es, s, i) && Live(es, s, j)
    ensures Compare(es[i].key.user, es[j].key.user) < 0
  {
    OrderedUsers(es, i, j);
  }

  /** The live positions are the snapshot's map: one for each key that has a value, holding it. */
  lemma LiveIsLookup(es: seq<Entry>, s: SeqNum, k: UserKey)
    requires SortedRun(es) && AllWellFormed(es)
    ensures forall i :: Live(es, s, i) && es[i].key.user == k ==> Lookup(Elements(es), k, s) == Some(es[i].value)
    ensures Lookup(Elements(es), k, s).Some? ==> exists i :: Live(es, s, i) && es[i].key.user == k
  {
    SortedRunUnique(es);
    var all := Elements(es);
    forall i | Live(es, s, i) && es[i].key.user == k
      ensures Lookup(all, k, s) == Some(es[i].value)
    {
      FirstSeenIsNewest(es, s, i);
      OutcomeIs(all, k, s, es[i]);
    }
    if Lookup(all, k, s).Some? {
      OutcomeCases(all, k, s);
      var e :| NewestAt(all, k, s, e) && Outcome(all, k, s) == Read(e);
      var i :| 0 <= i < |es| && es[i] == e;
      NewestIsFirstSeen(es, s, i);
      assert Live(es, s, i);
    }
  }

  lemma FirstSeenIsNewest(es: seq<Entry>, s: SeqNum, i: nat)
    requires SortedRun(es) && AllWellFormed(es) && Live(es, s, i)
    ensures NewestAt(Elements(es), es[i].key.user, s, es[i])
  {
    forall d | d in es && Visible(d, es[i].key.user, s)
      ensures d.key.seqno <= es[i].key.seqno
    {
      var j :| 0 <= j < |es| && es[j] == d;
      assert Seen(es[j], s);
      if i < j {
        assert Precedes(es[i].key, es[j].key);
      }
    }
  }

  lemma NewestIsFirstSeen(es: seq<Entry>, s: SeqNum, i: nat)
    requires SortedRun(es) && AllWellFormed(es) && i < |es| && NewestAt(Elements(es), es[i].key.user, s, es[i])
    ensures Seen(es[i], s)
    ensures forall j :: 0 <= j < i && Seen(es[j], s) ==> es[j].key.user != es[i].key.user
  {
    assert es[i] in es;
    forall j | 0 <= j < i && Seen(es[j], s)
      ensures es[j].key.user != es[i].key.user
    {
      assert Precedes(es[j].key, es[i].key);
      assert es[j] in Elements(es);
    }
  }

  // ----- the cursor in terms of keys

  /** No live key lies strictly between `after` and `before`, either of which may be missing. */
  ghost predicate NoKeyBetween(es: seq<Entry>, s: SeqNum, after: Option<UserKey>, before: Option<UserKey>) {
    forall j {:trigger Live(es, s, j)} :: Live(es, s, j) ==>
      !((after.Some? ==> Compare(after.value, es[j].key.user) < 0) && (before.Some? ==> Compare(es[j].key.user, before.value) < 0))
  }

  ghost function KeyAt(es: seq<Entry>, c: Option<nat>): Option<UserKey>
    requires c.Some? ==> c.value < |es|
  {
    if c.Some? then Some(es[c.value].key.user) else None
  }

  /** Next goes to the least live key past the current one, or nowhere if there is none. */
  lemma NextIsSuccessor(es: seq<Entry>, s: SeqNum, c: nat)
    requires Ordered(es) && Live(es, s, c)
    ensures var r := Moved(es, s, Next, Some(c));
            && (r.Some? ==> Live(es, s, r.value) && Compare(es[c].key.user, es[r.value].key.user) < 0)
            && NoKeyBetween(es, s, Some(es[c].key.user), KeyAt(es, r))
  {
    var n := NextLive(es, s, c + 1);
    forall j | Live(es, s, j)
      ensures !(Compare(es[c].key.user, es[j].key.user) < 0 && (n < |es| ==> Compare(es[j].key.user, es[n].key.user) < 0))
    {
      NotBetweenNext(es, s, c, n, j);
    }
    if n < |es| {
      LiveKeysIncrease(es, s, c, n);
    }
  }

  lemma NotBetweenNext(es: seq<Entry>, s: SeqNum, c: nat, n: nat, j: nat)
    requires Ordered(es) && Live(es, s, c) && Live(es, s, j) && n == NextLive(es, s, c + 1)
    ensures !(Compare(es[c].key.user, es[j].key.user) < 0 && (n < |es| ==> Compare(es[j].key.user, es[n].key.user) < 0))
  {
    if j < c {
      LiveKeysIncrease(es, s, j, c);
    } else if c < j {
      NextLiveAtMost(es, s, c + 1, j);
      if n < j {
        LiveKeysIncrease(es, s, n, j);
      }
    }
  }

  /** Prev goes to the greatest live key before the current one, or nowhere. */
  lemma PrevIsPredecessor(es: seq<Entry>, s: SeqNum, c: nat)
    requires Ordered(es) && Live(es, s, c)
    ensures var r := Moved(es, s, Prev, Some(c));
            && (r.Some? ==> Live(es, s, r.value) && Compare(es[r.value].key.user, es[c].key.user) < 0)
            && NoKeyBetween(es, s, KeyAt(es, r), Some(es[c].key.user))
  {
    var n := PrevLive(es, s, c);
    forall j | Live(es, s, j)
      ensures !((n >= 0 ==> Compare(es[n].key.user, es[j].key.user) < 0) && Compare(es[j].key.user, es[c].key.user) < 0)
    {
      if c < j {
        LiveKeysIncrease(es, s, c, j);
      } else if j < n {
        LiveKeysIncrease(es, s, j, n);
      }
    }
    if n >= 0 {
      LiveKeysIncrease(es, s, n, c);
    }
  }

  /** Every live key at or past t is at or past the one that Seek(t) finds. */
  ghost predicate NoneSooner(es: seq<Entry>, s: SeqNum, t: UserKey, r: Option<nat>)
    requires r.Some? ==> r.value < |es|
  {
    forall j {:trigger Live(es, s, j)} :: Live(es, s, j) && Compare(es[j].key.user, t) >= 0 ==>
      r.Some? && Compare(es[r.value].key.user, es[j].key.user) <= 0
  }

  /** Seek goes to the least live key at or past the target, or nowhere. */
  lemma SeekFindsLeast(es: seq<Entry>, s: SeqNum, t: UserKey, c: Option<nat>)
    requires Ordered(es) && (c.Some? ==> c.value < |es|)
    ensures var r := Moved(es, s, Seek(t), c);
            (r.Some? ==> Live(es, s, r.value) && Compare(es[r.value].key.user, t) >= 0) && NoneSooner(es, s, t, r)
  {
    var n := NextLive(es, s, SeekIndex(es, LookupKey(t, s)));
    if n < |es| {
      SeekSplitsLive(es, s, t, n);
    }
    forall j | Live(es, s, j) && Compare(es[j].key.user, t) >= 0
      ensures n < |es| && Compare(es[n].key.user, es[j].key.user) <= 0
    {
      SeekIsSooner(es, s, t, n, j);
    }
  }

  lemma NextLiveAtMost(es: seq<Entry>, s: SeqNum, i: nat, j: nat)
    requires i <= j && Live(es, s, j)
    ensures NextLive(es, s, i) <= j
  {
  }

  lemma SeekIsSooner(es: seq<Entry>, s: SeqNum, t: UserKey, n: nat, j: nat)
    requires Ordered(es) && n == NextLive(es, s, SeekIndex(es, LookupKey(t, s))) && Live(es, s, j) && Compare(es[j].key.user, t) >= 0
    ensures n < |es| && Compare(es[n].key.user, es[j].key.user) <= 0
  {
    SeekSplitsLive(es, s, t, j);
    NextLiveAtMost(es, s, SeekIndex(es, LookupKey(t, s)), j);
    if n < j {
      LiveKeysIncrease(es, s, n, j);
    }
  }

  /** First goes to the least live key of all, Last to the greatest. */
  lemma EndsAreEnds(es: seq<Entry>, s: SeqNum, c: Option<nat>)
    requires Ordered(es) && (c.Some? ==> c.value < |es|)
    ensures var r := Moved(es, s, First, c); (r.Some? ==> Live(es, s, r.value)) && NoKeyBetween(es, s, None, KeyAt(es, r))
    ensures var r := Moved(es, s, Last, c); (r.Some? ==> Live(es, s, r.value)) && NoKeyBetween(es, s, KeyAt(es, r), None)
  {
    forall j | Live(es, s, j)
      ensures var first := NextLive(es, s, 0); first < |es| && Compare(es[j].key.user, es[first].key.user) >= 0
      ensures var last := PrevLive(es, s, |es|); last >= 0 && Compare(es[last].key.user, es[j].key.user) >= 0
    {
      BetweenEnds(es, s, j);
    }
  }

  lemma BetweenEnds(es: seq<Entry>, s: SeqNum, j: nat)
    requires Ordered(es) && Live(es, s, j)
    ensures var first := NextLive(es, s, 0); first < |es| && Compare(es[j].key.user, es[first].key.user) >= 0
    ensures var last := PrevLive(es, s, |es|); last >= 0 && Compare(es[last].key.user, es[j].key.user) >= 0
  {
    var first, last := NextLive(es, s, 0), PrevLive(es, s, |es|);
    if first < j {
      LiveKeysIncrease(es, s, first, j);
    }
    if j < last {
      LiveKeysIncrease(es, s, j, last);
    }
  }

  /** Skipping everything up to the current key leads to the next live position. */
  lemma SkipLeadsToNext(es: seq<Entry>, s: SeqNum, c: nat, start: nat, r: nat)
    requires Ordered(es) && Live(es, s, c) && start <= c && r <= |es|
    requires forall j :: start <= j < r && Live(es, s, j) ==> Compare(es[j].key.user, es[c].key.user) <= 0
    requires r < |es| ==> Live(es, s, r) && Compare(es[r].key.user, es[c].key.user) > 0
    ensures c < r && NextLive(es, s, c + 1) == r
  {
    if r < |es| && r <= c {
      OrderedUsers(es, r, c);
    }
    forall j | c < j < |es| && Live(es, s, j)
      ensures Compare(es[c].key.user, es[j].key.user) < 0
    {
      LiveKeysIncrease(es, s, c, j);
    }
  }

  lemma SkipIsSafe(es: seq<Entry>, s: SeqNum, c: nat, p: nat)
    requires Ordered(es) && Live(es, s, c) && p <= c && forall j :: p <= j < c ==> !Seen(es[j], s)
    ensures forall j :: 0 <= j < p ==> Rank(es[j].key.user) <= Rank(es[c].key.user)
    ensures forall j :: p <= j < |es| && Seen(es[j], s) ==> Rank(es[c].key.user) <= Rank(es[j].key.user)
  {
    forall j | 0 <= j < p
      ensures Rank(es[j].key.user) <= Rank(es[c].key.user)
    {
      OrderedUsers(es, j, c);
    }
    forall j | p <= j < |es| && Seen(es[j], s)
      ensures Rank(es[c].key.user) <= Rank(es[j].key.user)
    {
      OrderedUsers(es, c, j);
    }
  }

  lemma NothingLiveBetween(es: seq<Entry>, s: SeqNum, p: int, c: nat)
    requires -1 <= p < c && Live(es, s, c)
    requires forall j :: p < j < c ==> es[j].key.user == es[c].key.user || !Seen(es[j], s)
    ensures PrevLive(es, s, c) == PrevLive(es, s, p + 1)
  {
    assert forall j :: p < j < c ==> !Live(es, s, j);
  }

  // ----- loop invariants of the iterator

  /** Whatever has been passed and seen either is to be skipped or has a smaller key than what follows. */
  ghost predicate Passed(es: seq<Entry>, s: SeqNum, p: nat, skipping: bool, skip: UserKey)
    requires p <= |es|
  {
    forall j :: 0 <= j < p && Seen(es[j], s) ==>
      || (skipping && Rank(es[j].key.user) <= Rank(skip))
      || (p < |es| ==> Rank(es[j].key.user) < Rank(es[p].key.user))
  }

  /** Where the key to skip comes from: the caller, or a deletion marker passed on the way. */
  ghost predicate SkipOrigin(es: seq<Entry>, s: SeqNum, start: nat, p: nat, skipping0: bool, skip0: UserKey,
                             skipping: bool, skip: UserKey, marker: int)
    requires p <= |es|
  {
    && (skipping0 ==> skipping && Rank(skip0) <= Rank(skip))
    && (skipping ==>
          || (skipping0 && skip == skip0)
          || (start <= marker < p && Seen(es[marker], s) && es[marker].key.user == skip))
  }

  ghost predicate NoneLiveButSkipped(es: seq<Entry>, s: SeqNum, start: nat, p: nat, skipping0: bool, skip0: UserKey) {
    forall j :: start <= j < p && Live(es, s, j) ==> skipping0 && Compare(es[j].key.user, skip0) <= 0
  }

  lemma FoundIsNextLive(es: seq<Entry>, s: SeqNum, i: nat, c: nat, skip: UserKey)
    requires i <= c <= |es| && (c < |es| ==> Live(es, s, c)) && NoneLiveButSkipped(es, s, i, c, false, skip)
    ensures NextLive(es, s, i) == c
  {
  }

  ghost predicate NextInv(es: seq<Entry>, s: SeqNum, start: nat, p: nat, skipping0: bool, skip0: UserKey,
                          skipping: bool, skip: UserKey, marker: int)
  {
    && start <= p <= |es| && Passed(es, s, p, skipping, skip)
    && SkipOrigin(es, s, start, p, skipping0, skip0, skipping, skip, marker)
    && NoneLiveButSkipped(es, s, start, p, skipping0, skip0)
  }

  lemma UsersUpTo(es: seq<Entry>, p: nat)
    requires Ordered(es) && p < |es|
    ensures p + 1 < |es| ==> Rank(es[p].key.user) <= Rank(es[p + 1].key.user)
    ensures forall j :: 0 <= j <= p ==> Rank(es[j].key.user) <= Rank(es[p].key.user)
  {
    if p + 1 < |es| {
      OrderedUsers(es, p, p + 1);
    }
    forall j | 0 <= j <= p
      ensures Rank(es[j].key.user) <= Rank(es[p].key.user)
    {
      OrderedUsers(es, j, p);
    }
  }

  lemma PassUnseen(es: seq<Entry>, s: SeqNum, start: nat, p: nat, skipping0: bool, skip0: UserKey,
                   skipping: bool, skip: UserKey, marker: int)
    requires Ordered(es) && NextInv(es, s, start, p, skipping0, skip0, skipping, skip, marker) && p < |es|
    requires !Seen(es[p], s)
    ensures NextInv(es, s, start, p + 1, skipping0, skip0, skipping, skip, marker)
  {
    UsersUpTo(es, p);
  }

  lemma PassMarker(es: seq<Entry>, s: SeqNum, start: nat, p: nat, skipping0: bool, skip0: UserKey,
                   skipping: bool, skip: UserKey, marker: int)
    requires Ordered(es) && NextInv(es, s, start, p, skipping0, skip0, skipping, skip, marker) && p < |es|
    requires Seen(es[p], s) && es[p].key.kind == TYPE_DELETION && (skipping0 ==> Rank(skip0) <= Rank(es[p].key.user))
    ensures NextInv(es, s, start, p + 1, skipping0, skip0, true, es[p].key.user, p)
  {
    UsersUpTo(es, p);
  }

  lemma PassHidden(es: seq<Entry>, s: SeqNum, start: nat, p: nat, skipping0: bool, skip0: UserKey,
                   skipping: bool, skip: UserKey, marker: int)
    requires Ordered(es) && NextInv(es, s, start, p, skipping0, skip0, skipping, skip, marker) && p < |es|
    requires skipping && Compare(es[p].key.user, skip) <= 0
    ensures NextInv(es, s, start, p + 1, skipping0, skip0, skipping, skip, marker)
  {
    UsersUpTo(es, p);
    if !(skipping0 && skip == skip0) {
      OrderedUsers(es, marker, p);
      assert Compare(es[p].key.user, es[marker].key.user) == 0;
    }
  }

  lemma FirstUnhiddenIsLive(es: seq<Entry>, s: SeqNum, p: nat, skipping: bool, skip: UserKey)
    requires p < |es| && Passed(es, s, p, skipping, skip) && Seen(es[p], s) && es[p].key.kind == TYPE_VALUE
    requires !(skipping && Compare(es[p].key.user, skip) <= 0)
    ensures Live(es, s, p)
  {
  }

  /** One entry of the scan: either it is the answer or the invariant moves past it. */
  lemma PassEntry(es: seq<Entry>, s: SeqNum, start: nat, p: nat, skipping0: bool, skip0: UserKey,
                  skipping: bool, skip: UserKey, marker: int)
    requires Ordered(es) && NextInv(es, s, start, p, skipping0, skip0, skipping, skip, marker) && p < |es|
    requires skipping0 && Seen(es[p], s) ==> Rank(skip0) <= Rank(es[p].key.user)
    ensures if Seen(es[p], s) && es[p].key.kind == TYPE_DELETION
              then NextInv(es, s, start, p + 1, skipping0, skip0, true, es[p].key.user, p)
            else if Seen(es[p], s) && !(skipping && Compare(es[p].key.user, skip) <= 0)
              then Live(es, s, p) && (skipping0 ==> Compare(es[p].key.user, skip0) > 0)
            else NextInv(es, s, start, p + 1, skipping0, skip0, skipping, skip, marker)
  {
    if !Seen(es[p], s) {
      PassUnseen(es, s, start, p, skipping0, skip0, skipping, skip, marker);
    } else if es[p].key.kind == TYPE_DELETION {
      PassMarker(es, s, start, p, skipping0, skip0, skipping, skip, marker);
    } else if skipping && Compare(es[p].key.user, skip) <= 0 {
      PassHidden(es, s, start, p, skipping0, skip0, skipping, skip, marker);
    } else {
      FirstUnhiddenIsLive(es, s, p, skipping, skip);
    }
  }

  lemma SeekPassed(es: seq<Entry>, s: SeqNum, target: UserKey, p: nat)
    requires p == SeekIndex(es, LookupKey(target, s)) && p < |es|
    ensures Passed(es, s, p, false, [])
  {
    assert !Before(es[p].key, LookupKey(target, s));
    assert Compare(es[p].key.user, target) >= 0;
    forall j | 0 <= j < p && Seen(es[j], s)
      ensures Rank(es[j].key.user) < Rank(es[p].key.user)
    {
      SeekLeavesSmaller(es, s, target, j);
    }
  }

  /** On the way down from `start`, c is the lowest position seen so far and nothing else can be live. */
  ghost predicate PrevInv(es: seq<Entry>, s: SeqNum, start: int, p: int, valueType: Byte, c: int) {
    && -1 <= p <= start < |es|
    && (forall j :: p < j <= start && j != c ==> !Live(es, s, j))
    && (valueType == TYPE_DELETION ==> !Live(es, s, c))
    && (c == -1 ==> valueType == TYPE_DELETION)
    && (c != -1 ==> p < c <= start && Seen(es[c], s) && es[c].key.kind == valueType)
    && (forall j :: p < j < (if c == -1 then start + 1 else c) ==> !Seen(es[j], s))
  }

  lemma PrevUnseen(es: seq<Entry>, s: SeqNum, start: int, p: nat, valueType: Byte, c: int)
    requires PrevInv(es, s, start, p, valueType, c) && !Seen(es[p], s)
    ensures PrevInv(es, s, start, p - 1, valueType, c)
  {
  }

  lemma PrevReplaced(es: seq<Entry>, s: SeqNum, start: int, p: nat, valueType: Byte, c: int)
    requires Ordered(es) && PrevInv(es, s, start, p, valueType, c) && Seen(es[p], s)
    requires valueType != TYPE_DELETION ==> Compare(es[p].key.user, es[c].key.user) >= 0
    ensures PrevInv(es, s, start, p - 1, es[p].key.kind, p)
  {
    if valueType != TYPE_DELETION {
      OrderedUsers(es, p, c);
      assert es[p].key.user == es[c].key.user;
    }
  }

  lemma PrevStands(es: seq<Entry>, s: SeqNum, start: int, p: int, valueType: Byte, c: int)
    requires Ordered(es) && PrevInv(es, s, start, p, valueType, c)
    requires p >= 0 ==> valueType != TYPE_DELETION && Compare(es[p].key.user, es[c].key.user) < 0
    ensures valueType == TYPE_DELETION ==> PrevLive(es, s, start + 1) == -1
    ensures valueType != TYPE_DELETION ==> Live(es, s, c) && PrevLive(es, s, start + 1) == c
  {
    if valueType != TYPE_DELETION {
      forall j | 0 <= j < c && Seen(es[j], s)
        ensures es[j].key.user != es[c].key.user
      {
        OrderedUsers(es, j, p);
      }
    }
  }

  // ----- the two scans

  /** The loop of FindNextUserEntry, moving the internal iterator from `start` on. */
  method ScanForward(es: seq<Entry>, s: SeqNum, start: nat, skipping0: bool, skip0: UserKey) returns (p: nat)
    requires Ordered(es) && start < |es| && Passed(es, s, start, skipping0, skip0)
    requires skipping0 ==> forall j :: start <= j < |es| && Seen(es[j], s) ==> Rank(skip0) <= Rank(es[j].key.user)
    ensures start <= p <= |es|
    ensures p < |es| ==> Live(es, s, p) && (skipping0 ==> Compare(es[p].key.user, skip0) > 0)
    ensures NoneLiveButSkipped(es, s, start, p, skipping0, skip0)
  {
    var skipping, skip := skipping0, skip0;
    ghost var marker: int := -1;
    p := start;
    while p < |es|
      invariant NextInv(es, s, start, p, skipping0, skip0, skipping, skip, marker)
    {
      var e := es[p];
      PassEntry(es, s, start, p, skipping0, skip0, skipping, skip, marker);
      if Seen(e, s) {
        if e.key.kind == TYPE_DELETION {
          skip, skipping, marker := e.key.user, true, p;
        } else if skipping && Compare(e.key.user, skip) <= 0 {
        } else {
          return;
        }
      }
      p := p + 1;
    }
  }

  /** The loop of FindPrevUserEntry, moving the internal iterator back from `start`. */
  method ScanBackward(es: seq<Entry>, s: SeqNum, start: int) returns (p: int, found: bool, key: UserKey, value: Value)
    requires Ordered(es) && -1 <= start < |es|
    ensures -1 <= p <= start
    ensures !found ==> PrevLive(es, s, start + 1) == -1
    ensures found ==>
              var c := PrevLive(es, s, start + 1);
              && p < c && key == es[c].key.user && value == es[c].value
              && forall j :: p < j < c ==> !Seen(es[j], s)
  {
    var valueType := TYPE_DELETION;
    ghost var c := -1;
    p, key, value := start, [], [];
    while p >= 0
      invariant PrevInv(es, s, start, p, valueType, c)
      invariant valueType != TYPE_DELETION ==> key == es[c].key.user && value == es[c].value
    {
      var e := es[p];
      if !Seen(e, s) {
        PrevUnseen(es, s, start, p, valueType, c);
      } else {
        if valueType != TYPE_DELETION && Compare(e.key.user, key) < 0 {
          break;
        }
        PrevReplaced(es, s, start, p, valueType, c);
        valueType, c := e.key.kind, p;
        if valueType == TYPE_DELETION {
          key, value := [], [];
        } else {
          key, value := e.key.user, e.value;
        }
      }
      p := p - 1;
    }
    PrevStands(es, s, start, p, valueType, c);
    found := valueType != TYPE_DELETION;
  }

  // ----- the iterator

  class DBIter {
    const es: seq<Entry>
    const sequence: SeqNum
    /** Position of the internal iterator; -1 and |es| are invalid. */
    var pos: int
    var forward: bool
    var valid: bool
    var savedKey: UserKey
    var savedValue: Value
    /** The live position the client is at, when valid. */
    ghost var cur: int

    ghost predicate Ok()
      reads this
    {
      && Ordered(es) && -1 <= pos <= |es|
      && (valid ==>
            && Live(es, sequence, cur)
            && (forward ==> pos == cur)
            && (!forward ==>
                  && savedKey == es[cur].key.user && savedValue == es[cur].value
                  && pos < cur && forall j :: pos < j < cur ==> !Seen(es[j], sequence)))
    }

    ghost function Cursor(): Option<nat>
      requires Ok()
      reads this
    {
      if valid then Some(cur) else None
    }

    constructor (es: seq<Entry>, s: SeqNum)
      requires Ordered(es)
      ensures this.es == es && sequence == s && Ok() && Cursor() == None
    {
      this.es, sequence := es, s;
      pos, forward, valid, savedKey, savedValue, cur := -1, true, false, [], [], -1;
    }

    predicate IterValid()
      reads this
    {
      0 <= pos < |es|
    }

    /** What the client sees is the live entry at the cursor. */
    method Current() returns (key: UserKey, value: Value)
      requires Ok() && valid
      ensures key == es[cur].key.user && value == es[cur].value && Live(es, sequence, cur)
    {
      if forward {
        key, value := es[pos].key.user, es[pos].value;
      } else {
        key, value := savedKey, savedValue;
      }
    }

    /** FindNextUserEntry: the least live position from here on whose key is past the one to skip. */
    method FindNextUserEntry(skipping0: bool, skip0: UserKey)
      requires Ordered(es) && IterValid() && forward && Passed(es, sequence, pos, skipping0, skip0)
      requires skipping0 ==> forall j :: pos <= j < |es| && Seen(es[j], sequence) ==> Rank(skip0) <= Rank(es[j].key.user)
      modifies this
      ensures Ok() && forward
      ensures valid ==> old(pos) <= cur && (skipping0 ==> Compare(es[cur].key.user, skip0) > 0)
      ensures valid ==> NoneLiveButSkipped(es, sequence, old(pos), cur, skipping0, skip0)
      ensures !valid ==> NoneLiveButSkipped(es, sequence, old(pos), |es|, skipping0, skip0)
    {
      var p := ScanForward(es, sequence, pos, skipping0, skip0);
      pos := p;
      savedKey := [];
      valid := IterValid();
      cur := pos;
    }

    method SeekToFirst()
      requires Ok()
      modifies this
      ensures Ok() && Cursor() == Moved(es, sequence, First, None)
    {
      forward := true;
      savedValue := [];
      pos := 0;
      if IterValid() {
        FindNextUserEntry(false, savedKey);
      } else {
        valid := false;
      }
    }

    method Seek(target: UserKey)
      requires Ok()
      modifies this
      ensures Ok() && Cursor() == Moved(es, sequence, Move.Seek(target), None)
    {
      forward := true;
      savedValue := [];
      savedKey := [];
      ghost var start := SeekIndex(es, LookupKey(target, sequence));
      pos := SeekIndex(es, LookupKey(target, sequence));
      if IterValid() {
        SeekPassed(es, sequence, target, pos);
        FindNextUserEntry(false, savedKey);
        FoundIsNextLive(es, sequence, start, if valid then cur else |es|, savedKey);
      } else {
        valid := false;
      }
    }

    method Next()
      requires Ok() && valid
      modifies this
      ensures Ok() && Cursor() == Moved(es, sequence, Move.Next, old(Cursor()))
    {
      if !forward {
        TurnForward();
      } else {
        savedKey := es[pos].key.user;
      }
      SkipToNext();
    }

    /** The change of direction: the underlying iterator is just before the entries of the current key, or off the front. */
    method TurnForward()
      requires Ok() && valid && !forward
      modifies this`pos, this`forward
      ensures forward && 0 <= pos <= cur && forall j :: pos <= j < cur ==> !Seen(es[j], sequence)
    {
      forward := true;
      if !IterValid() {
        pos := 0;
      } else {
        pos := pos + 1;
      }
      if !IterValid() {
        assert false;
      }
    }

    /** FindNextUserEntry past the current key. */
    method SkipToNext()
      requires Ordered(es) && valid && forward && Live(es, sequence, cur) && savedKey == es[cur].key.user
      requires 0 <= pos <= cur && forall j :: pos <= j < cur ==> !Seen(es[j], sequence)
      modifies this
      ensures Ok() && Cursor() == Moved(es, sequence, Move.Next, Some(old(cur)))
    {
      ghost var c, start := cur, pos;
      SkipIsSafe(es, sequence, c, pos);
      FindNextUserEntry(true, savedKey);
      SkipLeadsToNext(es, sequence, c, start, if valid then cur else |es|);
    }

    /** FindPrevUserEntry: the greatest live position at or before here. */
    method FindPrevUserEntry()
      requires Ordered(es) && -1 <= pos < |es| && !forward
      modifies this
      ensures Ok()
      ensures cur == PrevLive(es, sequence, old(pos) + 1) && (valid <==> cur >= 0)
    {
      var p, found, key, value := ScanBackward(es, sequence, pos);
      pos := p;
      savedKey, savedValue := key, value;
      valid := found;
      if !found {
        forward := true;
      }
      cur := PrevLive(es, sequence, old(pos) + 1);
    }

    method SeekToLast()
      requires Ok()
      modifies this
      ensures Ok() && Cursor() == Moved(es, sequence, Last, None)
    {
      forward := false;
      savedValue := [];
      pos := |es| - 1;
      FindPrevUserEntry();
    }

    /** The loop of Prev that leaves the entries of the current key; `more` if something comes before them. */
    method BackUp() returns (more: bool)
      requires Ok() && valid && forward
      modifies this`pos, this`savedKey
      ensures more ==> 0 <= pos
      ensures !more ==> pos == -1
      ensures pos < cur && forall j :: pos < j < cur ==> es[j].key.user == es[cur].key.user
    {
      savedKey := es[pos].key.user;
      while true
        invariant 0 <= pos <= cur && savedKey == es[cur].key.user
        invariant forall j :: pos <= j < cur ==> es[j].key.user == es[cur].key.user
        decreases pos
      {
        pos := pos - 1;
        if !IterValid() {
          return false;
        }
        if Compare(es[pos].key.user, savedKey) < 0 {
          return true;
        }
        OrderedUsers(es, pos, cur);
        assert Compare(es[pos].key.user, savedKey) == 0;
      }
    }

    method Prev()
      requires Ok() && valid
      modifies this
      ensures Ok() && Cursor() == Moved(es, sequence, Move.Prev, old(Cursor()))
    {
      if forward {
        var more := TurnBack();
        if !more {
          return;
        }
      } else {
        NothingLiveBetween(es, sequence, pos, cur);
      }
      FindPrevUserEntry();
    }

    /** The change of direction: the underlying iterator goes before every entry of the current key, or off the front. */
    method TurnBack() returns (more: bool)
      requires Ok() && valid && forward
      modifies this
      ensures -1 <= pos < |es| && PrevLive(es, sequence, old(cur)) == PrevLive(es, sequence, pos + 1) && cur == old(cur)
      ensures more ==> !forward
      ensures !more ==> Ok() && !valid && PrevLive(es, sequence, old(cur)) == -1
    {
      more := BackUp();
      NothingLiveBetween(es, sequence, pos, cur);
      if more {
        forward := false;
      } else {
        valid := false;
        savedKey, savedValue := [], [];
      }
    }

    method Perform(m: Move)
      requires Ok() && (m.Next? || m.Prev? ==> valid)
      modifies this
      ensures Ok() && Cursor() == Moved(es, sequence, m, old(Cursor()))
    {
      match m
      case First => SeekToFirst();
      case Last => SeekToLast();
      case Seek(t) => Seek(t);
      case Next => Next();
      case Prev => Prev();
    }

    /** Any sequence of moves, direction changes included, keeps the iterator at the abstract cursor. */
    method PerformAll(moves: seq<Move>)
      requires Ok() && Legal(es, sequence, moves, Cursor())
      modifies this
      ensures Ok() && Cursor() == MovedAll(es, sequence, moves, old(Cursor()))
    {
      var i := 0;
      while i < |moves|
        invariant 0 <= i <= |moves| && Ok()
        invariant Legal(es, sequence, moves[i..], Cursor())
        invariant MovedAll(es, sequence, moves[i..], Cursor()) == MovedAll(es, sequence, moves, old(Cursor()))
      {
        assert moves[i..][0] == moves[i] && moves[i..][1..] == moves[i + 1..];
        Perform(moves[i]);
        i := i + 1;
      }
    }
  }
}

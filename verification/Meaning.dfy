/** The specification of the whole engine: a set of entries answers a (user key, snapshot)
    question with its newest entry at or below the snapshot. */
module Meaning {
  import opened Keys

  datatype GetResult = NotFound | Found(value: Value) | Deleted | Corrupt

  /** What a client of DB::Get sees: deleted and never written look the same. */
  function ToClient(r: GetResult): Option<Value> {
    if r.Found? then Some(r.value) else None
  }

  predicate Visible(e: Entry, k: UserKey, s: SeqNum) { e.key.user == k && e.key.seqno <= s }

  ghost predicate NewestAt(es: set<Entry>, k: UserKey, s: SeqNum, e: Entry) {
    e in es && Visible(e, k, s) && forall d :: d in es && Visible(d, k, s) ==> d.key.seqno <= e.key.seqno
  }

  ghost predicate NoneAt(es: set<Entry>, k: UserKey, s: SeqNum) {
    forall d :: d in es ==> !Visible(d, k, s)
  }

  /** No two entries of one user key carry the same sequence number. */
  ghost predicate Unique(es: set<Entry>) {
    forall a, b :: a in es && b in es && a.key.user == b.key.user && a.key.seqno == b.key.seqno ==> a == b
  }

  function Read(e: Entry): GetResult {
    if !e.key.WellFormed() then Corrupt
    else if e.key.kind == TYPE_VALUE then Found(e.value)
    else Deleted
  }

  ghost function Outcome(es: set<Entry>, k: UserKey, s: SeqNum): GetResult {
    if exists e :: NewestAt(es, k, s, e) then var e :| NewestAt(es, k, s, e); Read(e) else NotFound
  }

  /** The engine's specification: the value snapshot `s` shows for `k`, if any. */
  ghost function Lookup(es: set<Entry>, k: UserKey, s: SeqNum): Option<Value> {
    ToClient(Outcome(es, k, s))
  }

  lemma {:induction false} NewestExists(es: set<Entry>, k: UserKey, s: SeqNum)
    ensures NoneAt(es, k, s) || exists e :: NewestAt(es, k, s, e)
    decreases |es|
  {
    if d :| d in es && Visible(d, k, s) {
      var rest := es - {d};
      NewestExists(rest, k, s);
      if e :| NewestAt(rest, k, s, e) {
        if e.key.seqno >= d.key.seqno {
          assert NewestAt(es, k, s, e);
        } else {
          assert NewestAt(es, k, s, d);
        }
      } else {
        assert NewestAt(es, k, s, d);
      }
    }
  }

  lemma OutcomeIs(es: set<Entry>, k: UserKey, s: SeqNum, e: Entry)
    requires Unique(es) && NewestAt(es, k, s, e)
    ensures Outcome(es, k, s) == Read(e)
  {
    var d :| NewestAt(es, k, s, d) && Outcome(es, k, s) == Read(d);
    assert NewestAt(es, k, s, d);
    assert d.key.seqno == e.key.seqno;
  }

  lemma OutcomeCases(es: set<Entry>, k: UserKey, s: SeqNum)
    requires Unique(es)
    ensures (NoneAt(es, k, s) && Outcome(es, k, s) == NotFound)
         || exists e :: NewestAt(es, k, s, e) && Outcome(es, k, s) == Read(e)
  {
    NewestExists(es, k, s);
    if e :| NewestAt(es, k, s, e) {
      OutcomeIs(es, k, s, e);
    }
  }

  /** Two sets that agree on what they show, each at its own snapshot, answer alike. */
  lemma SameVisibleAt(es: set<Entry>, s: SeqNum, fs: set<Entry>, t: SeqNum, k: UserKey)
    requires Unique(es) && Unique(fs)
    requires forall e :: e in es && Visible(e, k, s) <==> e in fs && Visible(e, k, t)
    ensures Outcome(es, k, s) == Outcome(fs, k, t)
  {
    OutcomeCases(es, k, s);
    if e :| NewestAt(es, k, s, e) {
      assert NewestAt(fs, k, t, e);
      OutcomeIs(es, k, s, e);
      OutcomeIs(fs, k, t, e);
    } else {
      assert NoneAt(fs, k, t);
    }
  }

  lemma SameVisible(es: set<Entry>, fs: set<Entry>, k: UserKey, s: SeqNum)
    requires Unique(es) && Unique(fs)
    requires forall e :: Visible(e, k, s) ==> (e in es <==> e in fs)
    ensures Outcome(es, k, s) == Outcome(fs, k, s)
  {
    SameVisibleAt(es, s, fs, s, k);
  }

  ghost predicate AllNewer(es: set<Entry>, ds: set<Entry>) {
    forall e, d :: e in es && d in ds && e.key.user == d.key.user ==> e.key.seqno > d.key.seqno
  }

  /** If every entry of `es` is newer than its namesakes in `ds`, reading `es` first and `ds` only
      on a miss reads the union. */
  lemma LayeredRead(es: set<Entry>, ds: set<Entry>, k: UserKey, s: SeqNum)
    requires Unique(es) && Unique(ds) && AllNewer(es, ds)
    ensures Unique(es + ds)
    ensures Outcome(es + ds, k, s) == if NoneAt(es, k, s) then Outcome(ds, k, s) else Outcome(es, k, s)
  {
    OutcomeCases(es, k, s);
    if NoneAt(es, k, s) {
      SameVisible(es + ds, ds, k, s);
    } else {
      var e :| NewestAt(es, k, s, e);
      assert NewestAt(es + ds, k, s, e);
      OutcomeIs(es + ds, k, s, e);
    }
  }

  // ----- sorted runs of entries: memtables and tables

  ghost predicate Precedes(a: InternalKey, b: InternalKey) {
    Before(a, b) && (a.user == b.user ==> a.seqno > b.seqno)
  }

  ghost predicate SortedRun(es: seq<Entry>) {
    forall i, j :: 0 <= i < j < |es| ==> Precedes(es[i].key, es[j].key)
  }

  ghost function Elements(es: seq<Entry>): set<Entry> { set e | e in es }

  /** Strictly increasing internal keys. */
  ghost predicate Ordered(es: seq<Entry>) {
    forall i, j :: 0 <= i < j < |es| ==> Before(es[i].key, es[j].key)
  }

  /** Iterator::Seek on a run: index of the first entry at or past the target. */
  function SeekIndex(es: seq<Entry>, target: InternalKey): (r: nat)
    ensures r <= |es|
    ensures forall j :: 0 <= j < r ==> Before(es[j].key, target)
    ensures r < |es| ==> !Before(es[r].key, target)
  {
    if es == [] || !Before(es[0].key, target) then 0 else 1 + SeekIndex(es[1..], target)
  }

  /** MemTable::Get, and TableCache::Get with the SaveValue callback: look at the entry the seek
      lands on and at nothing else. */
  function RunGet(es: seq<Entry>, k: UserKey, s: SeqNum): GetResult {
    var i := SeekIndex(es, LookupKey(k, s));
    if i == |es| then NotFound
    else if !es[i].key.WellFormed() then Corrupt
    else if es[i].key.user != k then NotFound
    else Read(es[i])
  }

  lemma SortedRunUnique(es: seq<Entry>)
    requires SortedRun(es)
    ensures Unique(Elements(es))
  {
  }

  ghost predicate AllWellFormed(es: seq<Entry>) { forall e :: e in es ==> e.key.WellFormed() }

  lemma SeekBound(es: seq<Entry>, k: UserKey, s: SeqNum, i: nat, j: nat)
    requires SortedRun(es) && i <= |es| && j < |es|
    requires forall j :: 0 <= j < i ==> Before(es[j].key, LookupKey(k, s))
    requires i < |es| ==> !Before(es[i].key, LookupKey(k, s))
    requires es[j].key.WellFormed() && Visible(es[j], k, s)
    ensures i < |es| && es[i].key.user == k && es[j].key.seqno <= es[i].key.seqno
  {
    assert !Before(es[j].key, LookupKey(k, s));
    assert i <= j;
    if i < j {
      assert Precedes(es[i].key, es[j].key);
    }
  }

  lemma SeekLandsOnNewest(es: seq<Entry>, k: UserKey, s: SeqNum)
    requires SortedRun(es) && AllWellFormed(es)
    ensures var i := SeekIndex(es, LookupKey(k, s));
            if i < |es| && es[i].key.user == k then NewestAt(Elements(es), k, s, es[i])
            else NoneAt(Elements(es), k, s)
  {
    var i := SeekIndex(es, LookupKey(k, s));
    forall d | d in es && Visible(d, k, s)
      ensures i < |es| && es[i].key.user == k && d.key.seqno <= es[i].key.seqno
    {
      var j :| 0 <= j < |es| && es[j] == d;
      SeekBound(es, k, s, i, j);
    }
  }

  /** One seek answers the question for the whole run. */
  lemma RunGetIsOutcome(es: seq<Entry>, k: UserKey, s: SeqNum)
    requires SortedRun(es) && AllWellFormed(es)
    ensures Unique(Elements(es))
    ensures RunGet(es, k, s) == Outcome(Elements(es), k, s)
    ensures RunGet(es, k, s) == NotFound <==> NoneAt(Elements(es), k, s)
  {
    SortedRunUnique(es);
    SeekLandsOnNewest(es, k, s);
    var i := SeekIndex(es, LookupKey(k, s));
    if i < |es| && es[i].key.user == k {
      OutcomeIs(Elements(es), k, s, es[i]);
    }
  }
}

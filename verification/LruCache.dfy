/** One shard of the LRU cache: reference counts, two lists, a hash table, and a deleter for every entry. */
module LruCache {
  import opened Keys
  import opened HandleTable

  datatype Handle = Handle(charge: nat, refs: nat, inCache: bool)

  /** Handles by number; lru and inUse oldest first; the deleter calls made, in order. */
  datatype Shard = Shard(keys: seq<Bytes>, handles: seq<Handle>, lru: seq<nat>, inUse: seq<nat>, usage: int, deletions: seq<nat>)

  // ----- lists

  /** LRU_Remove */
  function Without(s: seq<nat>, x: nat): (r: seq<nat>)
    ensures |r| <= |s|
  {
    if s == [] then [] else if s[0] == x then s[1..] else [s[0]] + Without(s[1..], x)
  }

  lemma {:induction false} WithoutIs(s: seq<nat>, x: nat)
    requires NoDup(s)
    ensures NoDup(Without(s, x)) && forall y :: y in Without(s, x) <==> y in s && y != x
    ensures x in s ==> |Without(s, x)| < |s|
  {
    if s != [] {
      var tail := s[1..];
      assert NoDup(tail);
      WithoutIs(tail, x);
      assert forall y :: y in s <==> y == s[0] || y in tail;
      assert s[0] !in tail;
      if s[0] != x {
        PrependNoDup(s[0], Without(tail, x));
      }
    }
  }

  lemma PrependNoDup(x: nat, s: seq<nat>)
    requires NoDup(s) && x !in s
    ensures NoDup([x] + s) && forall y :: y in [x] + s <==> y == x || y in s
  {
  }

  lemma AppendNoDup(s: seq<nat>, x: nat)
    requires NoDup(s) && x !in s
    ensures NoDup(s + [x]) && forall y :: y in s + [x] <==> y in s || y == x
  {
  }

  /** The charges of a list of handles. */
  function Charges(hs: seq<Handle>, s: seq<nat>): (n: nat)
    requires forall i :: 0 <= i < |s| ==> s[i] < |hs|
  {
    if s == [] then 0 else Charges(hs, s[..|s| - 1]) + hs[s[|s| - 1]].charge
  }

  ghost predicate InRange(n: nat, s: seq<nat>) { forall i :: 0 <= i < |s| ==> s[i] < n }

  lemma {:induction false} ChargesFirst(hs: seq<Handle>, s: seq<nat>)
    requires InRange(|hs|, s) && s != []
    ensures Charges(hs, s) == hs[s[0]].charge + Charges(hs, s[1..])
  {
    if |s| > 1 {
      ChargesFirst(hs, s[..|s| - 1]);
      assert s[..|s| - 1][1..] == s[1..][..|s[1..]| - 1];
    }
  }

  lemma {:induction false} ChargesWithout(hs: seq<Handle>, s: seq<nat>, x: nat)
    requires InRange(|hs|, s) && x in s
    ensures InRange(|hs|, Without(s, x)) && Charges(hs, s) == Charges(hs, Without(s, x)) + hs[x].charge
  {
    ChargesFirst(hs, s);
    if s[0] != x {
      ChargesWithout(hs, s[1..], x);
      var r := [s[0]] + Without(s[1..], x);
      ChargesFirst(hs, r);
      assert r[1..] == Without(s[1..], x);
    }
  }

  lemma ChargesAppend(hs: seq<Handle>, s: seq<nat>, x: nat)
    requires InRange(|hs|, s) && x < |hs|
    ensures InRange(|hs|, s + [x]) && Charges(hs, s + [x]) == Charges(hs, s) + hs[x].charge
  {
    assert (s + [x])[..|s|] == s;
  }

  /** Charges do not change with reference counts. */
  lemma {:induction false} ChargesSame(hs: seq<Handle>, hs': seq<Handle>, s: seq<nat>)
    requires |hs| <= |hs'| && (forall i :: 0 <= i < |hs| ==> hs'[i].charge == hs[i].charge) && InRange(|hs|, s)
    ensures Charges(hs', s) == Charges(hs, s)
  {
    if s != [] {
      ChargesSame(hs, hs', s[..|s| - 1]);
    }
  }

  // ----- invariant

  /** What the lists and counters say of handle id. */
  ghost predicate Placed(s: Shard, held: seq<nat>, id: nat)
    requires |s.keys| == |s.handles| == |held| && id < |held|
  {
    var h := s.handles[id];
    && (id in s.lru <==> h.inCache && h.refs == 1)
    && (id in s.inUse <==> h.inCache && h.refs >= 2)
    && (id in s.deletions <==> h.refs == 0)
    && h.refs == held[id] + if h.inCache then 1 else 0
  }

  /** Every cached entry is on the list its count says; a deleter ran once for each entry without references; the usage
      is the charge of what is cached. */
  ghost predicate Core(s: Shard, held: seq<nat>) {
    && |s.keys| == |s.handles| == |held|
    && NoDup(s.lru) && NoDup(s.inUse) && NoDup(s.deletions)
    && InRange(|held|, s.lru) && InRange(|held|, s.inUse) && InRange(|held|, s.deletions)
    && s.usage == Charges(s.handles, s.lru) + Charges(s.handles, s.inUse)
    && forall id {:trigger Placed(s, held, id)} :: 0 <= id < |held| ==> Placed(s, held, id)
  }

  /** The map holds exactly the cached entries, apart from one on its way out. */
  ghost predicate Mapped(s: Shard, m: map<Bytes, nat>, leaving: set<nat>)
    requires |s.keys| == |s.handles|
  {
    forall id {:trigger MappedAt(s, m, leaving, id)} :: 0 <= id < |s.handles| ==> MappedAt(s, m, leaving, id)
  }

  ghost predicate MappedAt(s: Shard, m: map<Bytes, nat>, leaving: set<nat>, id: nat)
    requires id < |s.keys| == |s.handles|
  {
    s.handles[id].inCache && id !in leaving <==> s.keys[id] in m && m[s.keys[id]] == id
  }

  // ----- reference counting

  /** Ref */
  function Ref(s: Shard, id: nat): (r: Shard)
    requires id < |s.handles|
  {
    var h := s.handles[id];
    var s' := if h.refs == 1 && h.inCache then s.(lru := Without(s.lru, id), inUse := s.inUse + [id]) else s;
    s'.(handles := s.handles[id := h.(refs := h.refs + 1)])
  }

  /** Unref */
  function Unref(s: Shard, id: nat): (r: Shard)
    requires id < |s.handles| && s.handles[id].refs > 0
  {
    var h := s.handles[id].(refs := s.handles[id].refs - 1);
    var s' := s.(handles := s.handles[id := h]);
    if h.refs == 0 then s'.(deletions := s.deletions + [id])
    else if h.inCache && h.refs == 1 then s'.(inUse := Without(s.inUse, id), lru := s.lru + [id])
    else s'
  }

  /** FinishErase, for an entry the hash table has let go. */
  function FinishErase(s: Shard, id: nat): (r: Shard)
    requires id < |s.handles| && s.handles[id].refs > 0
    ensures r.keys == s.keys && |r.handles| == |s.handles| && r.lru == Without(s.lru, id)
  {
    var h := s.handles[id];
    Unref(s.(lru := Without(s.lru, id), inUse := Without(s.inUse, id), usage := s.usage - h.charge,
             handles := s.handles[id := h.(inCache := false)]), id)
  }

  /** Moving a handle from the LRU list to the end of the in-use list. */
  lemma MoveToInUse(s: Shard, held: seq<nat>, id: nat)
    requires Core(s, held) && id in s.lru && id !in s.inUse
    ensures id < |held|
    ensures var lru, inUse := Without(s.lru, id), s.inUse + [id];
            && NoDup(lru) && NoDup(inUse) && InRange(|held|, lru) && InRange(|held|, inUse)
            && (forall y :: y in lru <==> y in s.lru && y != id) && (forall y :: y in inUse <==> y in s.inUse || y == id)
            && s.usage == Charges(s.handles, lru) + Charges(s.handles, inUse)
  {
    WithoutIs(s.lru, id);
    AppendNoDup(s.inUse, id);
    ChargesWithout(s.handles, s.lru, id);
    ChargesAppend(s.handles, s.inUse, id);
  }

  lemma RefPins(s: Shard, held: seq<nat>, id: nat)
    requires Core(s, held) && id < |held| && s.handles[id].refs == 1 && s.handles[id].inCache
    ensures Core(Ref(s, id), held[id := held[id] + 1])
  {
    var r, held' := Ref(s, id), held[id := held[id] + 1];
    assert Placed(s, held, id);
    MoveToInUse(s, held, id);
    ChargesSame(s.handles, r.handles, Without(s.lru, id));
    ChargesSame(s.handles, r.handles, s.inUse + [id]);
    assert r.lru == Without(s.lru, id) && r.inUse == s.inUse + [id] && r.deletions == s.deletions && r.usage == s.usage;
    forall j | 0 <= j < |held'|
      ensures Placed(r, held', j)
    {
      assert Placed(s, held, j);
    }
  }

  lemma RefOther(s: Shard, held: seq<nat>, id: nat)
    requires Core(s, held) && id < |held| && s.handles[id].refs > 0 && !(s.handles[id].refs == 1 && s.handles[id].inCache)
    ensures Core(Ref(s, id), held[id := held[id] + 1])
  {
    var r, held' := Ref(s, id), held[id := held[id] + 1];
    assert Placed(s, held, id);
    ChargesSame(s.handles, r.handles, s.lru);
    ChargesSame(s.handles, r.handles, s.inUse);
    forall j | 0 <= j < |held'|
      ensures Placed(r, held', j)
    {
      assert Placed(s, held, j);
    }
  }

  lemma RefKeeps(s: Shard, held: seq<nat>, id: nat)
    requires Core(s, held) && id < |held| && s.handles[id].refs > 0
    ensures Core(Ref(s, id), held[id := held[id] + 1])
  {
    if s.handles[id].refs == 1 && s.handles[id].inCache {
      RefPins(s, held, id);
    } else {
      RefOther(s, held, id);
    }
  }

  /** Moving a handle from the in-use list to the end of the LRU list. */
  lemma MoveToLru(s: Shard, held: seq<nat>, id: nat)
    requires Core(s, held) && id in s.inUse && id !in s.lru
    ensures id < |held|
    ensures var lru, inUse := s.lru + [id], Without(s.inUse, id);
            && NoDup(lru) && NoDup(inUse) && InRange(|held|, lru) && InRange(|held|, inUse)
            && (forall y :: y in lru <==> y in s.lru || y == id) && (forall y :: y in inUse <==> y in s.inUse && y != id)
            && s.usage == Charges(s.handles, lru) + Charges(s.handles, inUse)
  {
    WithoutIs(s.inUse, id);
    AppendNoDup(s.lru, id);
    ChargesWithout(s.handles, s.inUse, id);
    ChargesAppend(s.handles, s.lru, id);
  }

  lemma UnrefIdles(s: Shard, held: seq<nat>, id: nat)
    requires Core(s, held) && id < |held| && held[id] > 0 && s.handles[id].inCache && s.handles[id].refs == 2
    ensures Core(Unref(s, id), held[id := held[id] - 1])
  {
    var r, held' := Unref(s, id), held[id := held[id] - 1];
    assert Placed(s, held, id);
    MoveToLru(s, held, id);
    ChargesSame(s.handles, r.handles, s.lru + [id]);
    ChargesSame(s.handles, r.handles, Without(s.inUse, id));
    assert r.lru == s.lru + [id] && r.inUse == Without(s.inUse, id) && r.deletions == s.deletions && r.usage == s.usage;
    forall j | 0 <= j < |held'|
      ensures Placed(r, held', j)
    {
      assert Placed(s, held, j);
    }
  }

  lemma UnrefOther(s: Shard, held: seq<nat>, id: nat)
    requires Core(s, held) && id < |held| && held[id] > 0 && s.handles[id].refs > 0 && !(s.handles[id].inCache && s.handles[id].refs == 2)
    ensures Core(Unref(s, id), held[id := held[id] - 1])
  {
    var r, held' := Unref(s, id), held[id := held[id] - 1];
    assert Placed(s, held, id);
    if r.handles[id].refs == 0 {
      AppendNoDup(s.deletions, id);
    }
    ChargesSame(s.handles, r.handles, s.lru);
    ChargesSame(s.handles, r.handles, s.inUse);
    forall j | 0 <= j < |held'|
      ensures Placed(r, held', j)
    {
      assert Placed(s, held, j);
    }
  }

  lemma UnrefKeeps(s: Shard, held: seq<nat>, id: nat)
    requires Core(s, held) && id < |held| && held[id] > 0
    ensures s.handles[id].refs > 0 && Core(Unref(s, id), held[id := held[id] - 1])
  {
    assert Placed(s, held, id);
    if s.handles[id].inCache && s.handles[id].refs == 2 {
      UnrefIdles(s, held, id);
    } else {
      UnrefOther(s, held, id);
    }
  }

  /** The entry leaves its list and the usage; the deleter runs now if nobody holds it. */
  lemma EraseKeeps(s: Shard, held: seq<nat>, id: nat)
    requires Core(s, held) && id < |held| && s.handles[id].inCache
    ensures s.handles[id].refs > 0 && Core(FinishErase(s, id), held)
  {
    assert Placed(s, held, id);
    var r := FinishErase(s, id);
    WithoutIs(s.lru, id);
    WithoutIs(s.inUse, id);
    if s.handles[id].refs == 1 {
      ChargesWithout(s.handles, s.lru, id);
      WithoutAbsent(s.inUse, id);
      AppendNoDup(s.deletions, id);
    } else {
      ChargesWithout(s.handles, s.inUse, id);
      WithoutAbsent(s.lru, id);
    }
    ChargesSame(s.handles, r.handles, r.lru);
    ChargesSame(s.handles, r.handles, r.inUse);
    forall j | 0 <= j < |held|
      ensures Placed(r, held, j)
    {
      assert Placed(s, held, j);
    }
  }

  lemma {:induction false} WithoutAbsent(s: seq<nat>, x: nat)
    requires x !in s
    ensures Without(s, x) == s
  {
    if s != [] {
      WithoutAbsent(s[1..], x);
    }
  }

  /** A new entry, held by the caller and by the cache. */
  function Added(s: Shard, key: Bytes, charge: nat): (r: Shard) {
    Shard(s.keys + [key], s.handles + [Handle(charge, 2, true)], s.lru, s.inUse + [|s.handles|], s.usage + charge, s.deletions)
  }

  /** An entry that the new one displaces is cached. */
  ghost predicate AddedOk(s: Shard, m: map<Bytes, nat>, key: Bytes) {
    key in m ==> m[key] < |s.handles| && s.handles[m[key]].refs > 0
  }

  /** The new entry in place of an old one of its key, before anything is evicted. */
  ghost function AfterAdd(s: Shard, m: map<Bytes, nat>, key: Bytes, charge: nat, capacity: nat): Shard
    requires AddedOk(s, m, key)
  {
    if capacity == 0 then Uncached(s, key, charge)
    else if key in m then FinishErase(Added(s, key, charge), m[key])
    else Added(s, key, charge)
  }

  /** With no capacity: held by the caller only. */
  function Uncached(s: Shard, key: Bytes, charge: nat): (r: Shard) {
    s.(keys := s.keys + [key], handles := s.handles + [Handle(charge, 1, false)])
  }

  lemma AddedKeeps(s: Shard, held: seq<nat>, key: Bytes, charge: nat)
    requires Core(s, held)
    ensures Core(Added(s, key, charge), held + [1]) && Core(Uncached(s, key, charge), held + [1])
  {
    var r, u, held' := Added(s, key, charge), Uncached(s, key, charge), held + [1];
    ChargesSame(s.handles, r.handles, s.lru);
    ChargesSame(s.handles, r.handles, s.inUse);
    ChargesSame(s.handles, u.handles, s.lru);
    ChargesSame(s.handles, u.handles, s.inUse);
    ChargesAppend(r.handles, s.inUse, |held|);
    AppendNoDup(s.inUse, |held|);
    forall j | 0 <= j < |held'|
      ensures Placed(r, held', j) && Placed(u, held', j)
    {
      if j < |held| {
        assert Placed(s, held, j);
      }
    }
  }

  lemma {:induction false} RepresentsMore(hash: Hash, keys: seq<Bytes>, t: HashTable, m: map<Bytes, nat>, key: Bytes)
    requires Represents(hash, keys, t, m)
    ensures Represents(hash, keys + [key], t, m)
  {
    forall b | 0 <= b < |t.buckets|
      ensures BucketOk(hash, keys + [key], m, t.buckets, b)
    {
      assert BucketOk(hash, keys, m, t.buckets, b);
      forall i | 0 <= i < |t.buckets[b]|
        ensures InPlace(hash, keys + [key], m, |t.buckets|, b, t.buckets[b][i])
      {
        assert InPlace(hash, keys, m, |t.buckets|, b, t.buckets[b][i]);
      }
    }
  }

  ghost predicate Own(keys: seq<Bytes>, m: map<Bytes, nat>) { forall k :: k in m ==> m[k] < |keys| && keys[m[k]] == k }

  /** The new entry took its key; the old one is leaving. */
  lemma MappedAdded(s: Shard, m: map<Bytes, nat>, key: Bytes, charge: nat)
    requires |s.keys| == |s.handles| && Mapped(s, m, {}) && Own(s.keys, m)
    ensures Mapped(Added(s, key, charge), m[key := |s.handles|], if key in m then {m[key]} else {})
    ensures Mapped(Uncached(s, key, charge), m, {})
  {
    var leaving := if key in m then {m[key]} else {};
    var a, u, m' := Added(s, key, charge), Uncached(s, key, charge), m[key := |s.handles|];
    forall id | 0 <= id < |a.handles|
      ensures MappedAt(a, m', leaving, id) && MappedAt(u, m, {}, id)
    {
      if id < |s.handles| {
        assert MappedAt(s, m, {}, id);
      }
    }
  }

  lemma MappedLeaving(s: Shard, m: map<Bytes, nat>, key: Bytes)
    requires |s.keys| == |s.handles| && Mapped(s, m, {}) && Own(s.keys, m) && key in m
    ensures m[key] < |s.handles| && s.handles[m[key]].inCache && Mapped(s, m - {key}, {m[key]})
  {
    assert MappedAt(s, m, {}, m[key]);
    var m', leaving := m - {key}, {m[key]};
    forall id | 0 <= id < |s.handles|
      ensures MappedAt(s, m', leaving, id)
    {
      assert MappedAt(s, m, {}, id);
    }
  }

  lemma MappedRef(s: Shard, m: map<Bytes, nat>, id: nat)
    requires |s.keys| == |s.handles| && Mapped(s, m, {}) && id < |s.handles|
    ensures Mapped(Ref(s, id), m, {}) && (s.handles[id].refs > 0 ==> Mapped(Unref(s, id), m, {}))
  {
    var r := Ref(s, id);
    forall j | 0 <= j < |s.handles|
      ensures MappedAt(r, m, {}, j) && (s.handles[id].refs > 0 ==> MappedAt(Unref(s, id), m, {}, j))
    {
      assert MappedAt(s, m, {}, j);
    }
  }

  lemma MappedErased(s: Shard, held: seq<nat>, m: map<Bytes, nat>, id: nat)
    requires Core(s, held) && id < |held| && s.handles[id].inCache && Mapped(s, m, {id})
    ensures s.handles[id].refs > 0 && Mapped(FinishErase(s, id), m, {})
  {
    assert Placed(s, held, id);
    var r := FinishErase(s, id);
    forall j | 0 <= j < |s.handles|
      ensures MappedAt(r, m, {}, j)
    {
      assert MappedAt(s, m, {id}, j);
    }
  }

  /** Letting go of a key that was removed from the table. */
  lemma LeaveKeeps(s: Shard, held: seq<nat>, m: map<Bytes, nat>, key: Bytes)
    requires Core(s, held) && Mapped(s, m, {}) && Own(s.keys, m) && key in m
    ensures m[key] < |s.handles| && s.handles[m[key]].refs > 0
    ensures Core(FinishErase(s, m[key]), held) && Mapped(FinishErase(s, m[key]), m - {key}, {})
  {
    MappedLeaving(s, m, key);
    EraseKeeps(s, held, m[key]);
    MappedErased(s, held, m - {key}, m[key]);
  }

  lemma FoundIsLive(s: Shard, held: seq<nat>, m: map<Bytes, nat>, key: Bytes)
    requires Core(s, held) && Mapped(s, m, {}) && Own(s.keys, m) && key in m
    ensures m[key] < |held| && s.handles[m[key]].inCache && s.handles[m[key]].refs > 0
  {
    assert MappedAt(s, m, {}, m[key]);
    assert Placed(s, held, m[key]);
  }

  lemma MapsOwn(hash: Hash, keys: seq<Bytes>, t: HashTable, m: map<Bytes, nat>)
    requires Represents(hash, keys, t, m)
    ensures Own(keys, m)
  {
  }

  // ----- eviction

  /** b is a after its n least recently used entries have gone, oldest first: their deleters ran in that order, the usage
      fell by their charges, and nothing else changed. */
  ghost predicate EvictsOldest(a: Shard, n: nat, b: Shard)
    requires InRange(|a.handles|, a.lru)
  {
    && n <= |a.lru| && b.lru == a.lru[n..] && b.inUse == a.inUse && b.keys == a.keys
    && b.deletions == a.deletions + a.lru[..n] && b.usage == a.usage - Charges(a.handles, a.lru[..n])
    && Freed(a.handles, a.lru[..n], b.handles)
  }

  /** The handles of these entries have no reference left; the others are as they were. */
  ghost predicate Freed(hs: seq<Handle>, ids: seq<nat>, hs': seq<Handle>) {
    && |hs| == |hs'|
    && forall id :: 0 <= id < |hs| ==> hs'[id] == if id in ids then Handle(hs[id].charge, 0, false) else hs[id]
  }

  /** The map without the keys of these entries. */
  ghost function DropIds(m: map<Bytes, nat>, ids: seq<nat>): map<Bytes, nat> { map k | k in m && m[k] !in ids :: m[k] }

  lemma EvictFirst(s: Shard, held: seq<nat>)
    requires Core(s, held) && s.lru != []
    ensures s.lru[0] < |s.handles| && s.handles[s.lru[0]].refs > 0 && EvictsOldest(s, 1, FinishErase(s, s.lru[0]))
  {
    var id := s.lru[0];
    assert id in s.lru && Placed(s, held, id);
    var r := FinishErase(s, id);
    WithoutAbsent(s.inUse, id);
    assert s.lru[..1] == [id] && [id][..0] == [];
    assert Charges(s.handles, [id]) == s.handles[id].charge;
  }

  lemma EvictsNone(s: Shard)
    requires InRange(|s.handles|, s.lru)
    ensures EvictsOldest(s, 0, s)
  {
    assert s.lru[..0] == [] && s.lru[0..] == s.lru && s.deletions + [] == s.deletions;
  }

  lemma FreedOneMore(hs: seq<Handle>, lru: seq<nat>, n: nat, mid: seq<Handle>, hs': seq<Handle>)
    requires n < |lru| && NoDup(lru) && InRange(|hs|, lru) && Freed(hs, lru[..n], mid) && Freed(mid, [lru[n]], hs')
    ensures Freed(hs, lru[..n + 1], hs') && mid[lru[n]] == hs[lru[n]]
  {
    assert lru[..n + 1] == lru[..n] + [lru[n]];
    assert lru[n] !in lru[..n];
  }

  lemma EvictsOneMore(a: Shard, n: nat, b: Shard, c: Shard)
    requires InRange(|a.handles|, a.lru) && NoDup(a.lru) && EvictsOldest(a, n, b) && InRange(|b.handles|, b.lru) && EvictsOldest(b, 1, c)
    ensures EvictsOldest(a, n + 1, c)
  {
    var id := a.lru[n];
    assert b.lru[..1] == [id] && [id][..0] == [];
    assert a.lru[..n + 1] == a.lru[..n] + [id];
    FreedOneMore(a.handles, a.lru, n, b.handles, c.handles);
    ChargesAppend(a.handles, a.lru[..n], id);
    assert Charges(b.handles, [id]) == b.handles[id].charge;
    assert c.lru == a.lru[n + 1..] && c.deletions == a.deletions + a.lru[..n + 1];
  }

  /** From shard a and map m0 to shard b and map m by n evictions, each while more than `limit` was in use. */
  ghost predicate Evicting(a: Shard, m0: map<Bytes, nat>, n: nat, b: Shard, m: map<Bytes, nat>, limit: int) {
    && InRange(|a.handles|, a.lru) && NoDup(a.lru) && EvictsOldest(a, n, b) && m == DropIds(m0, a.lru[..n])
    && forall i :: 0 <= i < n ==> a.usage - Charges(a.handles, a.lru[..i]) > limit
  }

  lemma EvictingNone(s: Shard, m: map<Bytes, nat>, limit: int)
    requires InRange(|s.handles|, s.lru) && NoDup(s.lru)
    ensures Evicting(s, m, 0, s, m, limit)
  {
    EvictsNone(s);
    assert s.lru[..0] == [] && DropIds(m, []) == m;
  }

  lemma EvictingStep(a: Shard, m0: map<Bytes, nat>, n: nat, b: Shard, mb: map<Bytes, nat>, c: Shard, mc: map<Bytes, nat>, limit: int)
    requires Evicting(a, m0, n, b, mb, limit) && b.usage > limit && b.lru != [] && InRange(|b.handles|, b.lru) && EvictsOldest(b, 1, c)
    requires mc == DropIds(mb, [b.lru[0]])
    ensures Evicting(a, m0, n + 1, c, mc, limit) && |c.lru| < |b.lru|
  {
    EvictsOneMore(a, n, b, c);
    DropOneMore(m0, a.lru, n);
    assert b.lru[0] == a.lru[n];
  }

  lemma DropOneMore(m: map<Bytes, nat>, lru: seq<nat>, n: nat)
    requires n < |lru|
    ensures DropIds(DropIds(m, lru[..n]), [lru[n]]) == DropIds(m, lru[..n + 1])
  {
    assert lru[..n + 1] == lru[..n] + [lru[n]];
  }

  lemma DropKey(s: Shard, m: map<Bytes, nat>, id: nat)
    requires |s.keys| == |s.handles| && Mapped(s, m, {}) && Own(s.keys, m) && id < |s.handles| && s.handles[id].inCache
    ensures m - {s.keys[id]} == DropIds(m, [id])
  {
    assert MappedAt(s, m, {}, id);
    assert forall k :: k in m && m[k] == id ==> k == s.keys[id];
  }

  /** Remove the key from the table and finish erasing its entry. */
  method Evicted(hash: Hash, s: Shard, t: HashTable, key: Bytes, ghost held: seq<nat>, ghost m: map<Bytes, nat>) returns (s': Shard, t': HashTable)
    requires Core(s, held) && Mapped(s, m, {}) && Represents(hash, s.keys, t, m)
    ensures Core(s', held) && Mapped(s', m - {key}, {}) && Represents(hash, s'.keys, t', m - {key})
    ensures key !in m ==> s' == s
    ensures key in m ==> m[key] < |s.handles| && s.handles[m[key]].refs > 0 && s' == FinishErase(s, m[key])
  {
    var r;
    t', r := HandleTable.Remove(hash, s.keys, t, key, m);
    s' := s;
    if r.Some? {
      MapsOwn(hash, s.keys, t, m);
      LeaveKeeps(s, held, m, key);
      s' := FinishErase(s, r.value);
    } else {
      assert m - {key} == m;
    }
  }

  class Cache {
    const capacity: nat
    const hash: Hash
    var s: Shard
    var table: HashTable
    /** The cached entry of each key. */
    ghost var m: map<Bytes, nat>
    /** Handles given out and not released. */
    ghost var held: seq<nat>

    constructor (capacity: nat, hash: Hash)
      ensures Valid() && m == map[] && s.deletions == [] && this.capacity == capacity
    {
      this.capacity, this.hash := capacity, hash;
      s := Shard([], [], [], [], 0, []);
      table := HashTable([[], [], [], []], 0);
      m, held := map[], [];
    }

    ghost predicate Valid() reads this { Core(s, held) && Mapped(s, m, {}) && Represents(hash, s.keys, table, m) }

    /** Lookup pins what it finds. */
    method Lookup(key: Bytes) returns (r: Option<nat>)
      requires Valid()
      modifies this
      ensures Valid() && m == old(m) && s.deletions == old(s.deletions) && s.usage == old(s.usage)
      ensures r == if key in m then Some(m[key]) else None
      ensures r.Some? ==> r.value < |old(held)| && held == old(held)[r.value := old(held)[r.value] + 1]
      ensures r.Some? ==> s.lru == Without(old(s.lru), r.value)
      ensures r.None? ==> held == old(held) && s == old(s)
    {
      r := HandleTable.Lookup(hash, s.keys, table, key, m);
      if r.Some? {
        MapsOwn(hash, s.keys, table, m);
        FoundIsLive(s, held, m, key);
        RefKeeps(s, held, r.value);
        RefLeavesLru(s, held, r.value);
        MappedRef(s, m, r.value);
        s := Ref(s, r.value);
        held := held[r.value := held[r.value] + 1];
      }
    }

    /** Release: the deleter runs exactly when this was the last reference; a cached entry that nobody holds any more becomes
        the most recently used. */
    method Release(id: nat)
      requires Valid() && id < |held| && held[id] > 0
      modifies this
      ensures Valid() && m == old(m) && held == old(held)[id := old(held)[id] - 1]
      ensures s.deletions == if held[id] == 0 && !old(s.handles[id].inCache) then old(s.deletions) + [id] else old(s.deletions)
      ensures s.lru == if held[id] == 0 && old(s.handles[id].inCache) then old(s.lru) + [id] else old(s.lru)
      ensures s.usage == old(s.usage)
    {
      assert Placed(s, held, id);
      UnrefKeeps(s, held, id);
      MappedRef(s, m, id);
      s := Unref(s, id);
      held := held[id := held[id] - 1];
    }

    /** FinishErase(table_.Remove(key)) */
    method Erase(key: Bytes)
      requires Valid()
      modifies this
      ensures Valid() && held == old(held) && m == old(m) - {key}
      ensures key !in old(m) ==> s == old(s)
      ensures key in old(m) ==> old(m)[key] < |old(s.handles)| && old(s.handles)[old(m)[key]].refs > 0 && s == FinishErase(old(s), old(m)[key])
    {
      s, table := Evicted(hash, s, table, key, held, m);
      m := m - {key};
    }

    /** The oldest unpinned entry goes. */
    method EvictOldest()
      requires Valid() && s.lru != []
      modifies this
      ensures Valid() && held == old(held) && EvictsOldest(old(s), 1, s) && m == DropIds(old(m), [old(s.lru)[0]])
    {
      var id := s.lru[0];
      assert id in s.lru && Placed(s, held, id) && MappedAt(s, m, {}, id);
      EvictFirst(s, held);
      MapsOwn(hash, s.keys, table, m);
      DropKey(s, m, id);
      Erase(s.keys[id]);
    }

    /** The loop of Insert and Prune: evict oldest first while more than `limit` is in use. */
    method EvictWhile(limit: int) returns (ghost n: nat)
      requires Valid()
      modifies this
      ensures Valid() && held == old(held) && Evicting(old(s), old(m), n, s, m, limit)
      ensures s.lru == [] || s.usage <= limit
    {
      n := 0;
      ghost var a, m0 := s, m;
      EvictingNone(s, m, limit);
      while s.usage > limit && s.lru != []
        invariant Valid() && held == old(held) && Evicting(a, m0, n, s, m, limit)
        decreases |s.lru|
      {
        ghost var b, mb := s, m;
        EvictOldest();
        EvictingStep(a, m0, n, b, mb, s, m, limit);
        n := n + 1;
      }
    }

    /** Prune: every unpinned entry goes, oldest first, and no other. */
    method Prune()
      requires Valid()
      modifies this
      ensures Valid() && held == old(held) && EvictsOldest(old(s), |old(s.lru)|, s) && m == DropIds(old(m), old(s.lru))
      ensures forall k :: k in old(m) ==> (k in m <==> old(m)[k] < |held| && held[old(m)[k]] > 0)
    {
      ghost var n := EvictWhile(-1);
      PruneEmpties(old(s), held, n, s);
      MapsOwn(hash, old(s).keys, old(table), old(m));
      forall k | k in old(m)
        ensures k in m <==> old(m)[k] < |held| && held[old(m)[k]] > 0
      {
        UnpinnedIsIdle(old(s), held, old(m), k);
      }
    }

    /** Insert: the new entry takes the key, then unpinned entries go, oldest first, until the usage fits or none is left;
        pinned entries, the new one among them, stay. */
    method Insert(key: Bytes, charge: nat) returns (id: nat, ghost n: nat)
      requires Valid()
      modifies this
      ensures Valid() && id == |old(held)| && held == old(held) + [1]
      ensures AddedOk(old(s), old(m), key)
      ensures var a, m0 := AfterAdd(old(s), old(m), key, charge, capacity), if capacity > 0 then old(m)[key := id] else old(m);
              Evicting(a, m0, n, s, m, capacity) && (s.lru == [] || s.usage <= capacity)
      ensures capacity > 0 ==> key in m && m[key] == id
    {
      id := |s.handles|;
      AddNew(key, charge);
      ghost var a, m0 := s, m;
      n := EvictWhile(capacity);
      if capacity > 0 {
        PinnedStays(a, held, m0, n, s, m, capacity, key);
      }
    }

    /** The first half of Insert. */
    method AddNew(key: Bytes, charge: nat)
      requires Valid()
      modifies this
      ensures Valid() && held == old(held) + [1] && AddedOk(old(s), old(m), key)
      ensures s == AfterAdd(old(s), old(m), key, charge, capacity)
      ensures m == if capacity > 0 then old(m)[key := |old(held)|] else old(m)
    {
      AddedKeeps(s, held, key, charge);
      RepresentsMore(hash, s.keys, table, m, key);
      MapsOwn(hash, s.keys, table, m);
      MappedAdded(s, m, key, charge);
      if key in m {
        FoundIsLive(s, held, m, key);
      }
      held := held + [1];
      if capacity > 0 {
        AddCached(key, charge);
      } else {
        s := Uncached(s, key, charge);
      }
    }

    method AddCached(key: Bytes, charge: nat)
      requires |s.keys| == |s.handles| && Core(Added(s, key, charge), held) && Represents(hash, s.keys + [key], table, m)
      requires Own(s.keys, m) && (key in m ==> s.handles[m[key]].inCache) && AddedOk(s, m, key)
      requires Mapped(Added(s, key, charge), m[key := |s.handles|], if key in m then {m[key]} else {})
      modifies this
      ensures Valid() && held == old(held) && m == old(m)[key := |old(s.handles)|]
      ensures s == AfterAdd(old(s), old(m), key, charge, 1)
    {
      var id := |s.handles|;
      s := Added(s, key, charge);
      var t, r := HandleTable.Insert(hash, s.keys, table, id, m);
      m := m[key := id];
      table := t;
      if r.Some? {
        EraseKeeps(s, held, r.value);
        MappedErased(s, held, m, r.value);
        s := FinishErase(s, r.value);
      }
    }

    /** The destructor, once every handle is released: every entry's deleter has run, each exactly once. */
    method Destroy()
      requires Valid() && forall id :: 0 <= id < |held| ==> held[id] == 0
      modifies this
      ensures NoDup(s.deletions) && forall id :: 0 <= id < |old(held)| ==> id in s.deletions
    {
      Prune();
      forall id | 0 <= id < |held|
        ensures id in s.deletions
      {
        assert Placed(s, held, id);
      }
    }
  }

  lemma RefLeavesLru(s: Shard, held: seq<nat>, id: nat)
    requires Core(s, held) && id < |held|
    ensures Ref(s, id).lru == Without(s.lru, id)
  {
    assert Placed(s, held, id);
    if id !in s.lru {
      WithoutAbsent(s.lru, id);
    }
  }

  lemma {:induction false} ChargesMore(hs: seq<Handle>, s: seq<nat>, n: nat)
    requires InRange(|hs|, s) && n <= |s|
    ensures Charges(hs, s[..n]) <= Charges(hs, s)
    decreases |s|
  {
    if n < |s| {
      ChargesMore(hs, s[..|s| - 1], n);
      assert s[..|s| - 1][..n] == s[..n];
    } else {
      assert s[..n] == s;
    }
  }

  /** The usage is never negative, so a negative limit evicts all. */
  lemma PruneEmpties(a: Shard, held: seq<nat>, n: nat, b: Shard)
    requires Core(a, held) && EvictsOldest(a, n, b) && (b.lru == [] || b.usage <= -1)
    ensures n == |a.lru| && a.lru[..n] == a.lru
  {
    ChargesMore(a.handles, a.lru, n);
  }

  lemma UnpinnedIsIdle(s: Shard, held: seq<nat>, m: map<Bytes, nat>, k: Bytes)
    requires Core(s, held) && Mapped(s, m, {}) && Own(s.keys, m) && k in m
    ensures m[k] < |held| && (m[k] in s.lru <==> held[m[k]] == 0)
  {
    assert MappedAt(s, m, {}, m[k]) && Placed(s, held, m[k]);
  }

  /** A held entry is not evicted. */
  lemma PinnedStays(a: Shard, held: seq<nat>, m0: map<Bytes, nat>, n: nat, b: Shard, m: map<Bytes, nat>, limit: int, key: Bytes)
    requires Core(a, held) && Evicting(a, m0, n, b, m, limit) && key in m0 && m0[key] < |held| && held[m0[key]] > 0
    ensures key in m && m[key] == m0[key]
  {
    assert Placed(a, held, m0[key]);
    assert m0[key] !in a.lru;
  }
}

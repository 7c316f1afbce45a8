/** The memtable's skip list: one writer, any number of lock-free readers. Nodes live in an arena and are
    never removed; every load and every store of a link is one atomic step. */
module SkipList {
  import opened Keys

  const MAX_HEIGHT := 12
  const NULL := -1

  datatype Node = Node(key: InternalKey, next: seq<int>)

  /** nodes[0] is the head. */
  datatype List = List(nodes: seq<Node>, maxHeight: nat)

  /** For each level the nodes linked at it, in order, head first. */
  type Chains = seq<seq<nat>>

  // ----- invariant

  function After(c: seq<nat>, p: nat): (n: int) {
    if p + 1 < |c| then c[p + 1] else NULL
  }

  /** c is what following the level-l links from the head visits. */
  ghost predicate Linked(nodes: seq<Node>, l: nat, c: seq<nat>) {
    && c != [] && c[0] == 0 && (forall i :: 1 <= i < |c| ==> c[i] > 0)
    && (forall i :: 0 <= i < |c| ==> c[i] < |nodes|)
    && (forall i :: 0 <= i < |c| ==> l < |nodes[c[i]].next|)
    && (forall i :: 0 <= i < |c| ==> nodes[c[i]].next[l] == After(c, i))
  }

  ghost predicate Sorted(nodes: seq<Node>, c: seq<nat>)
    requires forall i :: 0 <= i < |c| ==> c[i] < |nodes|
  {
    forall i, j :: 1 <= i < j < |c| ==> Before(nodes[c[i]].key, nodes[c[j]].key)
  }

  ghost predicate LevelOk(nodes: seq<Node>, l: nat, c: seq<nat>) {
    Linked(nodes, l, c) && Sorted(nodes, c)
  }

  ghost predicate Sublist(c: seq<nat>, d: seq<nat>) {
    forall i :: 0 <= i < |c| ==> c[i] in d
  }

  /** Each level strictly sorted, and a sublist of the level below. */
  ghost predicate Ok(list: List, cs: Chains) {
    && |cs| == MAX_HEIGHT && 1 <= list.maxHeight <= MAX_HEIGHT
    && (forall l {:trigger LevelOk(list.nodes, l, cs[l])} :: 0 <= l < MAX_HEIGHT ==> LevelOk(list.nodes, l, cs[l]))
    && (forall l {:trigger Sublist(cs[l], cs[l - 1])} :: 0 < l < MAX_HEIGHT ==> Sublist(cs[l], cs[l - 1]))
    && (forall l :: list.maxHeight <= l < MAX_HEIGHT ==> cs[l] == [0])
  }

  /** The links determine the chain. */
  lemma {:induction false} LinkedAgree(nodes: seq<Node>, l: nat, c: seq<nat>, d: seq<nat>, k: nat)
    requires Linked(nodes, l, c) && Linked(nodes, l, d) && k < |c|
    ensures k < |d| && c[k] == d[k]
  {
    if k > 0 {
      LinkedAgree(nodes, l, c, d, k - 1);
      assert nodes[c[k - 1]].next[l] == After(c, k - 1) == After(d, k - 1);
    }
  }

  lemma LinkedUnique(nodes: seq<Node>, l: nat, c: seq<nat>, d: seq<nat>)
    requires Linked(nodes, l, c) && Linked(nodes, l, d)
    ensures c == d
  {
    LinkedAgree(nodes, l, c, d, |c| - 1);
    LinkedAgree(nodes, l, d, c, |d| - 1);
    forall k | 0 <= k < |c|
      ensures c[k] == d[k]
    {
      LinkedAgree(nodes, l, c, d, k);
    }
  }

  // ----- searching

  /** What a search looks for: FindGreaterOrEqual, FindLessThan, FindLast. */
  datatype Goal = AtOrPast(key: InternalKey) | Under(key: InternalKey) | Last

  /** The search has to go past a node with key k. */
  predicate Left(goal: Goal, k: InternalKey) {
    goal.Last? || Before(k, goal.key)
  }

  /** Position p of chain c is the last one the search has to go past. */
  ghost predicate Cut(nodes: seq<Node>, c: seq<nat>, goal: Goal, p: nat) {
    && p < |c|
    && (forall i :: 0 <= i < |c| ==> c[i] < |nodes|)
    && (forall i :: 1 <= i <= p ==> Left(goal, nodes[c[i]].key))
    && (forall i :: p < i < |c| ==> !Left(goal, nodes[c[i]].key))
  }

  /** r is the right answer on chain c: the first node at or past the key (or NULL); the last node
      before the key (or the head); the last node (or the head). */
  ghost predicate Answers(nodes: seq<Node>, c: seq<nat>, goal: Goal, r: int) {
    exists p: nat :: Cut(nodes, c, goal, p) && r == if goal.AtOrPast? then After(c, p) else c[p]
  }

  /** Sortedness turns what is known of one node into what is known of all before it. */
  lemma StandingCovers(nodes: seq<Node>, l: nat, c: seq<nat>, goal: Goal, p: nat)
    requires LevelOk(nodes, l, c) && p < |c| && (p == 0 || Left(goal, nodes[c[p]].key))
    ensures forall i :: 1 <= i <= p ==> Left(goal, nodes[c[i]].key)
  {
    forall i | 1 <= i <= p
      ensures Left(goal, nodes[c[i]].key)
    {
      if i < p {
        assert Before(nodes[c[i]].key, nodes[c[p]].key);
      }
    }
  }

  lemma StoppingCuts(nodes: seq<Node>, l: nat, c: seq<nat>, goal: Goal, p: nat)
    requires LevelOk(nodes, l, c) && p < |c| && (p == 0 || Left(goal, nodes[c[p]].key))
    requires p + 1 < |c| ==> !Left(goal, nodes[c[p + 1]].key)
    ensures Cut(nodes, c, goal, p)
  {
    StandingCovers(nodes, l, c, goal, p);
    forall i | p < i < |c|
      ensures !Left(goal, nodes[c[i]].key)
    {
      if p + 1 < i {
        assert Before(nodes[c[p + 1]].key, nodes[c[i]].key);
      }
    }
  }

  function SearchResult(goal: Goal, x: int, next: int): (r: int) {
    if goal.AtOrPast? then next else x
  }

  /** The search stands on node x, which is position p of its level. */
  ghost predicate Standing(list: List, cs: Chains, goal: Goal, level: nat, x: nat, p: nat) {
    && level < |cs| && p < |cs[level]| && x == cs[level][p] < |list.nodes|
    && (p == 0 || Left(goal, list.nodes[x].key))
  }

  /** The link a search loads is there, and leads to a node or to NULL. */
  predicate CanLoad(list: List, level: nat, x: nat) {
    && x < |list.nodes| && level < |list.nodes[x].next|
    && var next := list.nodes[x].next[level]; next == NULL || 0 <= next < |list.nodes|
  }

  predicate GoesRight(list: List, goal: Goal, level: nat, x: nat)
    requires CanLoad(list, level, x)
  {
    var next := list.nodes[x].next[level];
    next != NULL && Left(goal, list.nodes[next].key)
  }

  /** What one load at a standing search learns: step right, or the level's cut is found. */
  lemma SearchStep(list: List, cs: Chains, goal: Goal, level: nat, x: nat, p: nat)
    requires Ok(list, cs) && level < MAX_HEIGHT && Standing(list, cs, goal, level, x, p)
    ensures CanLoad(list, level, x)
    ensures GoesRight(list, goal, level, x) ==> Standing(list, cs, goal, level, list.nodes[x].next[level], p + 1)
    ensures !GoesRight(list, goal, level, x) ==>
              && PrevAt(list.nodes, cs[level], goal, x)
              && Answers(list.nodes, cs[level], goal, SearchResult(goal, x, list.nodes[x].next[level]))
  {
    assert LevelOk(list.nodes, level, cs[level]);
    if !GoesRight(list, goal, level, x) {
      StoppingCuts(list.nodes, level, cs[level], goal, p);
    }
  }

  /** Node x is where the goal's key belongs on chain c. */
  ghost predicate PrevAt(nodes: seq<Node>, c: seq<nat>, goal: Goal, x: nat) {
    exists p: nat :: Cut(nodes, c, goal, p) && c[p] == x
  }

  ghost predicate Prevs(list: List, cs: Chains, key: InternalKey, from: nat, prev: seq<nat>) {
    && |prev| == |cs| == MAX_HEIGHT
    && forall l {:trigger prev[l]} :: from <= l < list.maxHeight <= MAX_HEIGHT ==> PrevAt(list.nodes, cs[l], AtOrPast(key), prev[l])
  }

  lemma PrevsGrow(list: List, cs: Chains, key: InternalKey, level: nat, prev: seq<nat>, x: nat)
    requires level < MAX_HEIGHT && Prevs(list, cs, key, level + 1, prev)
    requires PrevAt(list.nodes, cs[level], AtOrPast(key), x)
    ensures Prevs(list, cs, key, level, prev[level := x])
  {
  }

  lemma HeadStands(list: List, cs: Chains, goal: Goal, level: nat)
    requires Ok(list, cs) && level < MAX_HEIGHT
    ensures Standing(list, cs, goal, level, 0, 0)
  {
    assert LevelOk(list.nodes, level, cs[level]);
  }

  lemma Descend(list: List, cs: Chains, goal: Goal, level: nat, x: nat, p: nat) returns (q: nat)
    requires Ok(list, cs) && 0 < level < MAX_HEIGHT && Standing(list, cs, goal, level, x, p)
    ensures Standing(list, cs, goal, level - 1, x, q)
  {
    assert LevelOk(list.nodes, level - 1, cs[level - 1]) && LevelOk(list.nodes, level, cs[level]);
    assert Sublist(cs[level], cs[level - 1]);
    q :| 0 <= q < |cs[level - 1]| && cs[level - 1][q] == cs[level][p];
  }

  ghost predicate FillingAt(list: List, cs: Chains, key: InternalKey, level: nat, x: nat, p: nat, prev: seq<nat>) {
    Standing(list, cs, AtOrPast(key), level, x, p) && Prevs(list, cs, key, level + 1, prev)
  }

  /** FindGreaterOrEqual, filling prev at every level of the list with the node after which `key` belongs. */
  method FindGreaterOrEqual(list: List, ghost cs: Chains, key: InternalKey, prev0: seq<nat>)
    returns (r: int, prev: seq<nat>)
    requires Ok(list, cs) && |prev0| == MAX_HEIGHT
    ensures Answers(list.nodes, cs[0], AtOrPast(key), r)
    ensures Prevs(list, cs, key, 0, prev)
  {
    ghost var goal := AtOrPast(key);
    var x: nat, level := 0, list.maxHeight - 1;
    prev := prev0;
    ghost var p: nat := 0;
    HeadStands(list, cs, goal, level);
    while true
      invariant 0 <= level < list.maxHeight && FillingAt(list, cs, key, level, x, p, prev)
      decreases level, |cs[level]| - p
    {
      SearchStep(list, cs, goal, level, x, p);
      var next := list.nodes[x].next[level];
      if GoesRight(list, AtOrPast(key), level, x) {
        x, p := next, p + 1;
      } else {
        PrevsGrow(list, cs, key, level, prev, x);
        prev := prev[level := x];
        if level == 0 {
          return next, prev;
        }
        p := Descend(list, cs, goal, level, x, p);
        level := level - 1;
      }
    }
  }

  /** FindLessThan: the last node before `key`, or the head. */
  method FindLessThan(list: List, ghost cs: Chains, key: InternalKey) returns (r: nat)
    requires Ok(list, cs)
    ensures Answers(list.nodes, cs[0], Under(key), r)
  {
    ghost var goal := Under(key);
    var x: nat, level := 0, list.maxHeight - 1;
    ghost var p: nat := 0;
    HeadStands(list, cs, goal, level);
    while true
      invariant 0 <= level < list.maxHeight && Standing(list, cs, goal, level, x, p)
      decreases level, |cs[level]| - p
    {
      SearchStep(list, cs, goal, level, x, p);
      var next := list.nodes[x].next[level];
      if next == NULL || InternalCompare(list.nodes[next].key, key) >= 0 {
        if level == 0 {
          return x;
        }
        p := Descend(list, cs, goal, level, x, p);
        level := level - 1;
      } else {
        x, p := next, p + 1;
      }
    }
  }

  /** FindLast: the last node of the list, or the head. */
  method FindLast(list: List, ghost cs: Chains) returns (r: nat)
    requires Ok(list, cs)
    ensures LevelOk(list.nodes, 0, cs[0]) && r == cs[0][|cs[0]| - 1]
  {
    var x: nat, level := 0, list.maxHeight - 1;
    ghost var p: nat := 0;
    HeadStands(list, cs, Last, level);
    while true
      invariant 0 <= level < list.maxHeight && Standing(list, cs, Last, level, x, p)
      decreases level, |cs[level]| - p
    {
      SearchStep(list, cs, Last, level, x, p);
      var next := list.nodes[x].next[level];
      if next == NULL {
        if level == 0 {
          assert LevelOk(list.nodes, 0, cs[0]);
          return x;
        }
        p := Descend(list, cs, Last, level, x, p);
        level := level - 1;
      } else {
        x, p := next, p + 1;
      }
    }
  }

  // ----- the writer's stores

  function SetNext(list: List, n: nat, l: nat, v: int): (r: List)
    requires n < |list.nodes| && l < |list.nodes[n].next|
    ensures |r.nodes| == |list.nodes| && r.maxHeight == list.maxHeight
    ensures SameBut(list.nodes, r.nodes, n, l)
    ensures |r.nodes[n].next| == |list.nodes[n].next| && r.nodes[n].next[l] == v
  {
    var node := list.nodes[n];
    list.(nodes := list.nodes[n := node.(next := node.next[l := v])])
  }

  /** Only the level-l link of node n may differ. */
  ghost predicate SameBut(nodes: seq<Node>, nodes': seq<Node>, n: nat, l: nat) {
    && |nodes| == |nodes'|
    && (forall k :: 0 <= k < |nodes| ==> nodes'[k].key == nodes[k].key)
    && (forall k :: 0 <= k < |nodes| && k != n ==> nodes'[k] == nodes[k])
    && (forall k :: 0 <= k < |nodes| ==> |nodes'[k].next| == |nodes[k].next|)
    && (forall k, m :: 0 <= k < |nodes| && 0 <= m < |nodes[k].next| && m != l ==> nodes'[k].next[m] == nodes[k].next[m])
  }

  function Spliced(c: seq<nat>, p: nat, x: nat): (r: seq<nat>)
    requires p < |c|
    ensures |r| == |c| + 1 && r[p + 1] == x
    ensures forall i :: 0 <= i <= p ==> r[i] == c[i]
    ensures forall i :: p + 1 < i < |r| ==> r[i] == c[i - 1]
  {
    c[..p + 1] + [x] + c[p + 1..]
  }

  /** A store to a link of another level, or of a node not linked here, changes nothing here. */
  lemma StoreElsewhere(nodes: seq<Node>, nodes': seq<Node>, n: nat, l: nat, m: nat, c: seq<nat>)
    requires LevelOk(nodes, m, c) && SameBut(nodes, nodes', n, l)
    requires m != l || forall i :: 0 <= i < |c| ==> c[i] != n
    ensures LevelOk(nodes', m, c)
  {
  }

  /** Publishing x after position p splices it into the level's chain. */
  lemma PublishSplices(nodes: seq<Node>, nodes': seq<Node>, l: nat, c: seq<nat>, p: nat, x: nat)
    requires Linked(nodes, l, c) && p < |c| && SameBut(nodes, nodes', c[p], l)
    requires forall i :: 0 <= i < |c| && i != p ==> c[i] != c[p]
    requires 0 < x < |nodes| && x != c[p]
    requires l < |nodes[x].next| && nodes[x].next[l] == After(c, p)
    requires nodes'[c[p]].next[l] == x
    ensures Linked(nodes', l, Spliced(c, p, x))
  {
    var d := Spliced(c, p, x);
    forall i | 0 <= i < |d|
      ensures d[i] < |nodes'| && l < |nodes'[d[i]].next| && nodes'[d[i]].next[l] == After(d, i)
    {
      if i < p {
        assert d[i] == c[i] && nodes[c[i]].next[l] == After(c, i);
      } else if p + 1 < i {
        assert d[i] == c[i - 1] && nodes[c[i - 1]].next[l] == After(c, i - 1);
      }
    }
  }

  lemma ChainInjective(nodes: seq<Node>, l: nat, c: seq<nat>, i: nat, j: nat)
    requires LevelOk(nodes, l, c) && i < j < |c|
    ensures c[i] != c[j]
  {
    if 1 <= i {
      assert Before(nodes[c[i]].key, nodes[c[j]].key);
    }
  }

  /** `key` is strictly between positions p and p + 1. */
  ghost predicate Gap(nodes: seq<Node>, c: seq<nat>, key: InternalKey, p: nat) {
    Cut(nodes, c, AtOrPast(key), p) && forall i :: 1 <= i < |c| ==> nodes[c[i]].key != key
  }

  lemma SplicedSorted(nodes: seq<Node>, nodes': seq<Node>, l: nat, c: seq<nat>, p: nat, x: nat)
    requires LevelOk(nodes, l, c) && x < |nodes| <= |nodes'| && Gap(nodes, c, nodes[x].key, p)
    requires forall k :: 0 <= k < |nodes| ==> nodes'[k].key == nodes[k].key
    ensures Sorted(nodes', Spliced(c, p, x))
  {
    var d := Spliced(c, p, x);
    forall i, j | 1 <= i < j < |d|
      ensures Before(nodes'[d[i]].key, nodes'[d[j]].key)
    {
      if i == p + 1 {
        assert !Before(nodes[c[j - 1]].key, nodes[x].key);
      } else if j == p + 1 {
        assert Left(AtOrPast(nodes[x].key), nodes[c[i]].key);
      } else {
        assert Before(nodes[c[if i <= p then i else i - 1]].key, nodes[c[if j <= p then j else j - 1]].key);
      }
    }
  }

  /** Every node keeps its place, key and height. */
  ghost predicate Extends(nodes: seq<Node>, nodes': seq<Node>) {
    |nodes| <= |nodes'| && forall k :: 0 <= k < |nodes| ==> nodes'[k].key == nodes[k].key
  }

  /** Node x is where `key`, which is not on chain c, belongs. */
  ghost predicate Slot(nodes: seq<Node>, c: seq<nat>, key: InternalKey, x: nat) {
    exists p: nat :: Gap(nodes, c, key, p) && c[p] == x
  }

  ghost predicate Slots(list: List, cs: Chains, key: InternalKey, from: nat, to: nat, prev: seq<nat>) {
    && |prev| == |cs| == MAX_HEIGHT
    && forall l {:trigger prev[l]} :: from <= l < to <= MAX_HEIGHT ==> Slot(list.nodes, cs[l], key, prev[l])
  }

  lemma SlotExtends(nodes: seq<Node>, nodes': seq<Node>, c: seq<nat>, key: InternalKey, x: nat)
    requires Slot(nodes, c, key, x) && Extends(nodes, nodes')
    ensures Slot(nodes', c, key, x)
  {
    var p: nat :| Gap(nodes, c, key, p) && c[p] == x;
    assert Cut(nodes', c, AtOrPast(key), p);
    assert Gap(nodes', c, key, p);
  }

  lemma SlotsExtend(list: List, list': List, cs: Chains, key: InternalKey, from: nat, to: nat, prev: seq<nat>)
    requires Slots(list, cs, key, from, to, prev) && Extends(list.nodes, list'.nodes)
    ensures Slots(list', cs, key, from, to, prev)
  {
    forall l | from <= l < to <= MAX_HEIGHT
      ensures Slot(list'.nodes, cs[l], key, prev[l])
    {
      SlotExtends(list.nodes, list'.nodes, cs[l], key, prev[l]);
    }
  }

  /** No allocated node has this key. */
  ghost predicate Unused(nodes: seq<Node>, key: InternalKey) {
    forall k :: 1 <= k < |nodes| ==> nodes[k].key != key
  }

  lemma PrevIsSlot(list: List, cs: Chains, level: nat, key: InternalKey, x: nat)
    requires Ok(list, cs) && level < MAX_HEIGHT && Unused(list.nodes, key)
    requires PrevAt(list.nodes, cs[level], AtOrPast(key), x)
    ensures Slot(list.nodes, cs[level], key, x)
  {
    assert LevelOk(list.nodes, level, cs[level]);
    var p: nat :| Cut(list.nodes, cs[level], AtOrPast(key), p) && cs[level][p] == x;
    assert Gap(list.nodes, cs[level], key, p);
  }

  lemma PrevsAreSlots(list: List, cs: Chains, key: InternalKey, prev: seq<nat>)
    requires Ok(list, cs) && Unused(list.nodes, key) && Prevs(list, cs, key, 0, prev)
    ensures Slots(list, cs, key, 0, list.maxHeight, prev)
  {
    forall l | 0 <= l < list.maxHeight
      ensures Slot(list.nodes, cs[l], key, prev[l])
    {
      PrevIsSlot(list, cs, l, key, prev[l]);
    }
  }

  /** prev for a node of this height: the head above the levels in use. */
  function FillPrev(prev: seq<nat>, maxHeight: nat, height: nat): (r: seq<nat>)
    ensures |r| == |prev|
    ensures forall l :: 0 <= l < |prev| ==> r[l] == if maxHeight <= l < height then 0 else prev[l]
  {
    seq(|prev|, l requires 0 <= l < |prev| => if maxHeight <= l < height then 0 else prev[l])
  }

  function Max(a: nat, b: nat): nat { if a > b then a else b }

  lemma FillSlots(list: List, cs: Chains, key: InternalKey, prev: seq<nat>, height: nat)
    requires Ok(list, cs) && height <= MAX_HEIGHT && Slots(list, cs, key, 0, list.maxHeight, prev)
    ensures Slots(list, cs, key, 0, height, FillPrev(prev, list.maxHeight, height))
  {
    var prev' := FillPrev(prev, list.maxHeight, height);
    forall l | 0 <= l < height
      ensures Slot(list.nodes, cs[l], key, prev'[l])
    {
      if l < list.maxHeight {
        assert Slot(list.nodes, cs[l], key, prev[l]);
      } else {
        assert LevelOk(list.nodes, l, cs[l]);
        assert Gap(list.nodes, cs[l], key, 0);
      }
    }
  }

  /** Storing the new height. */
  lemma RaiseKeeps(list: List, cs: Chains, height: nat)
    requires Ok(list, cs) && list.maxHeight <= height <= MAX_HEIGHT
    ensures Ok(list.(maxHeight := height), cs)
  {
    var list' := list.(maxHeight := height);
    forall l | 0 <= l < MAX_HEIGHT
      ensures LevelOk(list'.nodes, l, cs[l])
    {
      assert LevelOk(list.nodes, l, cs[l]);
    }
  }

  /** Allocating a node, its links holding anything. */
  lemma AllocKeeps(list: List, cs: Chains, node: Node)
    requires Ok(list, cs)
    ensures Ok(list.(nodes := list.nodes + [node]), cs)
    ensures Extends(list.nodes, list.nodes + [node])
  {
    var list' := list.(nodes := list.nodes + [node]);
    forall l | 0 <= l < MAX_HEIGHT
      ensures LevelOk(list'.nodes, l, cs[l])
    {
      assert LevelOk(list.nodes, l, cs[l]);
      AllocLevel(list.nodes, node, l, cs[l]);
    }
  }

  lemma AllocLevel(nodes: seq<Node>, node: Node, l: nat, c: seq<nat>)
    requires LevelOk(nodes, l, c)
    ensures LevelOk(nodes + [node], l, c)
  {
    var nodes' := nodes + [node];
    assert forall k :: 0 <= k < |nodes| ==> nodes'[k] == nodes[k];
  }

  lemma SlotAvoids(nodes: seq<Node>, l: nat, c: seq<nat>, x: nat, prev: nat)
    requires LevelOk(nodes, l, c) && 0 < x < |nodes| && Slot(nodes, c, nodes[x].key, prev)
    ensures forall i :: 0 <= i < |c| ==> c[i] != x
    ensures prev < |nodes| && l < |nodes[prev].next| && prev != x
  {
  }

  /** Filling in a link of the node not yet published at that level. */
  lemma InitKeeps(list: List, cs: Chains, x: nat, i: nat, v: int, prev: nat)
    requires Ok(list, cs) && i < MAX_HEIGHT && 0 < x < |list.nodes| && i < |list.nodes[x].next|
    requires Slot(list.nodes, cs[i], list.nodes[x].key, prev)
    ensures Ok(SetNext(list, x, i, v), cs)
  {
    var list' := SetNext(list, x, i, v);
    forall l | 0 <= l < MAX_HEIGHT
      ensures LevelOk(list'.nodes, l, cs[l])
    {
      assert LevelOk(list.nodes, l, cs[l]);
      if l == i {
        SlotAvoids(list.nodes, l, cs[l], x, prev);
      }
      StoreElsewhere(list.nodes, list'.nodes, x, i, l, cs[l]);
    }
  }

  lemma PublishLevel(list: List, cs: Chains, x: nat, i: nat, p: nat)
    requires Ok(list, cs) && i < MAX_HEIGHT && 0 < x < |list.nodes| && i < |list.nodes[x].next|
    requires Gap(list.nodes, cs[i], list.nodes[x].key, p) && i < |list.nodes[cs[i][p]].next|
    requires list.nodes[x].next[i] == list.nodes[cs[i][p]].next[i]
    ensures LevelOk(SetNext(list, cs[i][p], i, x).nodes, i, Spliced(cs[i], p, x))
  {
    var c := cs[i];
    var list' := SetNext(list, c[p], i, x);
    assert LevelOk(list.nodes, i, cs[i]);
    forall k | 0 <= k < |c| && k != p
      ensures c[k] != c[p]
    {
      if k < p {
        ChainInjective(list.nodes, i, c, k, p);
      } else {
        ChainInjective(list.nodes, i, c, p, k);
      }
    }
    SlotAvoids(list.nodes, i, c, x, c[p]);
    PublishSplices(list.nodes, list'.nodes, i, c, p, x);
    SplicedSorted(list.nodes, list'.nodes, i, c, p, x);
  }

  lemma SplicedIsSublist(c: seq<nat>, d: seq<nat>, p: nat, x: nat)
    requires p < |c| && Sublist(c, d) && x in d
    ensures Sublist(Spliced(c, p, x), d)
  {
  }

  lemma SplicedHolds(c: seq<nat>, p: nat, x: nat)
    requires p < |c|
    ensures Sublist(c, Spliced(c, p, x)) && x in Spliced(c, p, x)
  {
    var d := Spliced(c, p, x);
    forall i | 0 <= i < |c|
      ensures c[i] in d
    {
      assert d[if i <= p then i else i + 1] == c[i];
    }
    assert d[p + 1] == x;
  }

  lemma SpliceSublists(cs: Chains, x: nat, i: nat, p: nat, l: nat)
    requires i < |cs| && 0 < l < |cs| && p < |cs[i]| && Sublist(cs[l], cs[l - 1])
    requires i > 0 ==> x in cs[i - 1]
    ensures Sublist(cs[i := Spliced(cs[i], p, x)][l], cs[i := Spliced(cs[i], p, x)][l - 1])
  {
    if l == i {
      SplicedIsSublist(cs[i], cs[i - 1], p, x);
    } else if l == i + 1 {
      SplicedHolds(cs[i], p, x);
    }
  }

  lemma SpliceLevels(list: List, cs: Chains, x: nat, i: nat, p: nat, l: nat)
    requires Ok(list, cs) && i < list.maxHeight && 0 < x < |list.nodes| && i < |list.nodes[x].next|
    requires Gap(list.nodes, cs[i], list.nodes[x].key, p) && i < |list.nodes[cs[i][p]].next|
    requires list.nodes[x].next[i] == list.nodes[cs[i][p]].next[i]
    requires l < MAX_HEIGHT
    ensures LevelOk(SetNext(list, cs[i][p], i, x).nodes, l, cs[i := Spliced(cs[i], p, x)][l])
  {
    if l == i {
      PublishLevel(list, cs, x, i, p);
    } else {
      assert LevelOk(list.nodes, l, cs[l]);
      StoreElsewhere(list.nodes, SetNext(list, cs[i][p], i, x).nodes, cs[i][p], i, l, cs[l]);
    }
  }

  /** Publishing the node at level i. */
  lemma PublishKeeps(list: List, cs: Chains, x: nat, i: nat, p: nat)
    requires Ok(list, cs) && i < list.maxHeight && 0 < x < |list.nodes| && i < |list.nodes[x].next|
    requires Gap(list.nodes, cs[i], list.nodes[x].key, p) && i < |list.nodes[cs[i][p]].next|
    requires list.nodes[x].next[i] == list.nodes[cs[i][p]].next[i]
    requires i > 0 ==> x in cs[i - 1]
    ensures Ok(SetNext(list, cs[i][p], i, x), cs[i := Spliced(cs[i], p, x)])
  {
    var list' := SetNext(list, cs[i][p], i, x);
    var cs' := cs[i := Spliced(cs[i], p, x)];
    forall l | 0 <= l < MAX_HEIGHT
      ensures LevelOk(list'.nodes, l, cs'[l])
    {
      SpliceLevels(list, cs, x, i, p, l);
    }
    forall l | 0 < l < MAX_HEIGHT
      ensures Sublist(cs'[l], cs'[l - 1])
    {
      assert Sublist(cs[l], cs[l - 1]);
      SpliceSublists(cs, x, i, p, l);
    }
  }

  // ----- one writer and any number of readers, interleaved at every load and store

  datatype Reader = Idle | Searching(goal: Goal, level: nat, x: nat) | Found(goal: Goal, node: int)

  datatype Writer =
    | Resting
    | Locating(key: InternalKey, level: nat, x: nat, prev: seq<nat>)
    | Located(key: InternalKey, prev: seq<nat>)
    | Sized(key: InternalKey, height: nat, prev: seq<nat>)
    | Linking(node: nat, height: nat, prev: seq<nat>, i: nat, ready: bool)

  datatype System = System(list: List, writer: Writer, readers: seq<Reader>)

  ghost predicate Stands(list: List, cs: Chains, goal: Goal, level: nat, x: nat) {
    level < MAX_HEIGHT && exists p: nat :: Standing(list, cs, goal, level, x, p)
  }

  ghost predicate ReaderOk(list: List, cs: Chains, r: Reader) {
    && (r.Searching? ==> Stands(list, cs, r.goal, r.level, r.x))
    && (r.Found? && r.node != NULL ==> |cs| > 0 && r.node in cs[0])
  }

  ghost predicate LinkingOk(list: List, cs: Chains, x: nat, height: nat, prev: seq<nat>, i: nat, ready: bool) {
    && i < height <= list.maxHeight <= MAX_HEIGHT
    && 0 < x < |list.nodes| && |list.nodes[x].next| == height
    && Slots(list, cs, list.nodes[x].key, i, height, prev)
    && (i > 0 ==> x in cs[i - 1] && x in cs[0])
    && (ready ==> prev[i] < |list.nodes| && i < |list.nodes[prev[i]].next| && list.nodes[x].next[i] == list.nodes[prev[i]].next[i])
  }

  ghost predicate WriterOk(list: List, cs: Chains, w: Writer) {
    match w
    case Resting => true
    case Locating(key, level, x, prev) =>
      && Unused(list.nodes, key) && Stands(list, cs, AtOrPast(key), level, x)
      && level < list.maxHeight && Slots(list, cs, key, level + 1, list.maxHeight, prev)
    case Located(key, prev) => Slots(list, cs, key, 0, list.maxHeight, prev)
    case Sized(key, height, prev) => 1 <= height <= list.maxHeight && Slots(list, cs, key, 0, height, prev)
    case Linking(x, height, prev, i, ready) => LinkingOk(list, cs, x, height, prev, i, ready)
  }

  ghost predicate Inv(s: System, cs: Chains) {
    && Ok(s.list, cs) && WriterOk(s.list, cs, s.writer)
    && forall j :: 0 <= j < |s.readers| ==> ReaderOk(s.list, cs, s.readers[j])
  }

  function ReaderLoad(list: List, goal: Goal, level: nat, x: nat): (r: Reader)
    requires CanLoad(list, level, x)
  {
    var next := list.nodes[x].next[level];
    if GoesRight(list, goal, level, x) then Searching(goal, level, next)
    else if level == 0 then Found(goal, SearchResult(goal, x, next))
    else Searching(goal, level - 1, x)
  }

  function WriterLoad(list: List, key: InternalKey, level: nat, x: nat, prev: seq<nat>): (w: Writer)
    requires CanLoad(list, level, x) && level < |prev|
  {
    if GoesRight(list, AtOrPast(key), level, x) then Locating(key, level, list.nodes[x].next[level], prev)
    else if level == 0 then Located(key, prev[0 := x])
    else Locating(key, level - 1, x, prev[level := x])
  }

  datatype Step =
    | ReaderBegins(j: nat, goal: Goal)
    | ReaderLoads(j: nat)
    | ReaderAdvances(j: nat)
    | InsertBegins(key: InternalKey, prev: seq<nat>)
    | WriterLoads
    | HeightStored(height: nat)
    | NodeAllocated(garbage: seq<int>)
    | LinkFilled
    | LinkPublished

  /** What a step needs of the state; every link read must be there to read. */
  ghost predicate Enabled(s: System, e: Step) {
    match e
    case ReaderBegins(j, _) => j < |s.readers| && s.list.maxHeight > 0
    case ReaderLoads(j) => j < |s.readers| && s.readers[j].Searching? && CanLoad(s.list, s.readers[j].level, s.readers[j].x)
    case ReaderAdvances(j) => j < |s.readers| && s.readers[j].Found? && s.readers[j].node >= 0 && CanLoad(s.list, 0, s.readers[j].node)
    case InsertBegins(key, prev) => s.writer.Resting? && Unused(s.list.nodes, key) && |prev| == MAX_HEIGHT && s.list.maxHeight > 0
    case WriterLoads => s.writer.Locating? && CanLoad(s.list, s.writer.level, s.writer.x) && s.writer.level < |s.writer.prev|
    case HeightStored(height) => s.writer.Located? && 1 <= height <= MAX_HEIGHT
    case NodeAllocated(garbage) => s.writer.Sized? && |garbage| == s.writer.height
    case LinkFilled => s.writer.Linking? && !s.writer.ready && Linkable(s.list, s.writer)
    case LinkPublished => s.writer.Linking? && s.writer.ready && Linkable(s.list, s.writer)
  }

  predicate Linkable(list: List, w: Writer)
    requires w.Linking?
  {
    && w.node < |list.nodes| && w.i < |list.nodes[w.node].next|
    && w.i < |w.prev| && w.prev[w.i] < |list.nodes| && w.i < |list.nodes[w.prev[w.i]].next|
  }

  function Do(s: System, e: Step): (r: System)
    requires Enabled(s, e)
  {
    var w := s.writer;
    match e
    case ReaderBegins(j, goal) => s.(readers := s.readers[j := Searching(goal, s.list.maxHeight - 1, 0)])
    case ReaderLoads(j) => s.(readers := s.readers[j := ReaderLoad(s.list, s.readers[j].goal, s.readers[j].level, s.readers[j].x)])
    case ReaderAdvances(j) => s.(readers := s.readers[j := Found(s.readers[j].goal, s.list.nodes[s.readers[j].node].next[0])])
    case InsertBegins(key, prev) => s.(writer := Locating(key, s.list.maxHeight - 1, 0, prev))
    case WriterLoads => s.(writer := WriterLoad(s.list, w.key, w.level, w.x, w.prev))
    case HeightStored(height) =>
      s.(list := s.list.(maxHeight := Max(s.list.maxHeight, height)),
         writer := Sized(w.key, height, FillPrev(w.prev, s.list.maxHeight, height)))
    case NodeAllocated(garbage) =>
      s.(list := s.list.(nodes := s.list.nodes + [Node(w.key, garbage)]),
         writer := Linking(|s.list.nodes|, w.height, w.prev, 0, false))
    case LinkFilled =>
      s.(list := SetNext(s.list, w.node, w.i, s.list.nodes[w.prev[w.i]].next[w.i]), writer := w.(ready := true))
    case LinkPublished =>
      s.(list := SetNext(s.list, w.prev[w.i], w.i, w.node),
         writer := if w.i + 1 < w.height then w.(i := w.i + 1, ready := false) else Resting)
  }

  // ----- every step keeps the invariant

  /** Levels only gain nodes. */
  ghost predicate Grows(cs: Chains, cs': Chains) {
    |cs'| == |cs| && forall l {:trigger Sublist(cs[l], cs'[l])} :: 0 <= l < |cs| ==> Sublist(cs[l], cs'[l])
  }

  lemma GrowsStands(list: List, cs: Chains, list': List, cs': Chains, goal: Goal, level: nat, x: nat)
    requires Ok(list, cs) && Ok(list', cs') && Extends(list.nodes, list'.nodes) && Grows(cs, cs')
    requires Stands(list, cs, goal, level, x)
    ensures Stands(list', cs', goal, level, x)
  {
    var p: nat :| Standing(list, cs, goal, level, x, p);
    assert LevelOk(list.nodes, level, cs[level]) && LevelOk(list'.nodes, level, cs'[level]);
    assert Sublist(cs[level], cs'[level]);
    var q :| 0 <= q < |cs'[level]| && cs'[level][q] == x;
    assert Standing(list', cs', goal, level, x, q);
  }

  /** A reader stays where it can go on from, whatever the writer stores. */
  lemma GrowsReader(list: List, cs: Chains, list': List, cs': Chains, r: Reader)
    requires Ok(list, cs) && Ok(list', cs') && Extends(list.nodes, list'.nodes) && Grows(cs, cs')
    requires ReaderOk(list, cs, r)
    ensures ReaderOk(list', cs', r)
  {
    if r.Searching? {
      GrowsStands(list, cs, list', cs', r.goal, r.level, r.x);
    } else if r.Found? {
      assert Sublist(cs[0], cs'[0]);
    }
  }

  lemma StandsLoads(list: List, cs: Chains, goal: Goal, level: nat, x: nat)
    requires Ok(list, cs) && Stands(list, cs, goal, level, x)
    ensures CanLoad(list, level, x)
    ensures var next := list.nodes[x].next[level];
            && (GoesRight(list, goal, level, x) ==> Stands(list, cs, goal, level, next))
            && (!GoesRight(list, goal, level, x) ==>
                  && PrevAt(list.nodes, cs[level], goal, x)
                  && Answers(list.nodes, cs[level], goal, SearchResult(goal, x, next))
                  && (level > 0 ==> Stands(list, cs, goal, level - 1, x)))
  {
    var p: nat :| Standing(list, cs, goal, level, x, p);
    SearchStep(list, cs, goal, level, x, p);
    if !GoesRight(list, goal, level, x) && level > 0 {
      var q := Descend(list, cs, goal, level, x, p);
    }
  }

  lemma HeadStandsAt(list: List, cs: Chains, goal: Goal, level: nat)
    requires Ok(list, cs) && level < MAX_HEIGHT
    ensures Stands(list, cs, goal, level, 0)
  {
    HeadStands(list, cs, goal, level);
  }

  lemma AnswerIsLinked(list: List, cs: Chains, goal: Goal, r: int)
    requires Ok(list, cs) && Answers(list.nodes, cs[0], goal, r)
    ensures r == NULL || r in cs[0]
  {
  }

  lemma ReaderLoadOk(list: List, cs: Chains, goal: Goal, level: nat, x: nat)
    requires Ok(list, cs) && Stands(list, cs, goal, level, x)
    ensures CanLoad(list, level, x) && ReaderOk(list, cs, ReaderLoad(list, goal, level, x))
  {
    StandsLoads(list, cs, goal, level, x);
    if !GoesRight(list, goal, level, x) && level == 0 {
      AnswerIsLinked(list, cs, goal, SearchResult(goal, x, list.nodes[x].next[0]));
    }
  }

  lemma LinkedSuccessor(list: List, cs: Chains, n: nat)
    requires Ok(list, cs) && n in cs[0]
    ensures CanLoad(list, 0, n) && (list.nodes[n].next[0] == NULL || list.nodes[n].next[0] in cs[0])
  {
    assert LevelOk(list.nodes, 0, cs[0]);
  }

  lemma WriterLoadOk(list: List, cs: Chains, key: InternalKey, level: nat, x: nat, prev: seq<nat>)
    requires Ok(list, cs) && WriterOk(list, cs, Locating(key, level, x, prev))
    ensures CanLoad(list, level, x) && WriterOk(list, cs, WriterLoad(list, key, level, x, prev))
  {
    StandsLoads(list, cs, AtOrPast(key), level, x);
    if !GoesRight(list, AtOrPast(key), level, x) {
      PrevIsSlot(list, cs, level, key, x);
      SlotsGrow(list, cs, key, level, prev, x);
    }
  }

  lemma SlotsGrow(list: List, cs: Chains, key: InternalKey, level: nat, prev: seq<nat>, x: nat)
    requires level < list.maxHeight <= MAX_HEIGHT && Slots(list, cs, key, level + 1, list.maxHeight, prev)
    requires Slot(list.nodes, cs[level], key, x)
    ensures Slots(list, cs, key, level, list.maxHeight, prev[level := x])
  {
  }

  /** The store of the height, with prev completed by the head. */
  lemma SizedOk(list: List, cs: Chains, key: InternalKey, prev: seq<nat>, height: nat)
    requires Ok(list, cs) && 1 <= height <= MAX_HEIGHT && Slots(list, cs, key, 0, list.maxHeight, prev)
    ensures var list' := list.(maxHeight := Max(list.maxHeight, height));
            Ok(list', cs) && WriterOk(list', cs, Sized(key, height, FillPrev(prev, list.maxHeight, height)))
  {
    var list' := list.(maxHeight := Max(list.maxHeight, height));
    RaiseKeeps(list, cs, Max(list.maxHeight, height));
    FillSlots(list, cs, key, prev, height);
    SlotsExtend(list, list', cs, key, 0, height, FillPrev(prev, list.maxHeight, height));
  }

  lemma AllocatedOk(list: List, cs: Chains, key: InternalKey, height: nat, prev: seq<nat>, garbage: seq<int>)
    requires Ok(list, cs) && WriterOk(list, cs, Sized(key, height, prev)) && |garbage| == height
    ensures var list' := list.(nodes := list.nodes + [Node(key, garbage)]);
            Ok(list', cs) && LinkingOk(list', cs, |list.nodes|, height, prev, 0, false)
  {
    var list' := list.(nodes := list.nodes + [Node(key, garbage)]);
    assert LevelOk(list.nodes, 0, cs[0]);
    AllocKeeps(list, cs, Node(key, garbage));
    SlotsExtend(list, list', cs, key, 0, height, prev);
  }

  lemma LinkingSlot(list: List, cs: Chains, x: nat, height: nat, prev: seq<nat>, i: nat, ready: bool)
    requires Ok(list, cs) && LinkingOk(list, cs, x, height, prev, i, ready)
    ensures Slot(list.nodes, cs[i], list.nodes[x].key, prev[i])
    ensures prev[i] < |list.nodes| && i < |list.nodes[prev[i]].next| && prev[i] != x
  {
    assert LevelOk(list.nodes, i, cs[i]);
    assert Slot(list.nodes, cs[i], list.nodes[x].key, prev[i]);
    SlotAvoids(list.nodes, i, cs[i], x, prev[i]);
  }

  lemma FilledOk(list: List, cs: Chains, x: nat, height: nat, prev: seq<nat>, i: nat)
    requires Ok(list, cs) && LinkingOk(list, cs, x, height, prev, i, false)
    ensures prev[i] < |list.nodes| && i < |list.nodes[prev[i]].next|
    ensures var list' := SetNext(list, x, i, list.nodes[prev[i]].next[i]);
            Ok(list', cs) && LinkingOk(list', cs, x, height, prev, i, true)
  {
    LinkingSlot(list, cs, x, height, prev, i, false);
    var list' := SetNext(list, x, i, list.nodes[prev[i]].next[i]);
    InitKeeps(list, cs, x, i, list.nodes[prev[i]].next[i], prev[i]);
    SlotsExtend(list, list', cs, list.nodes[x].key, i, height, prev);
  }

  lemma SlotsOutlive(list: List, cs: Chains, key: InternalKey, i: nat, height: nat, prev: seq<nat>, c: seq<nat>)
    requires i < |cs| && Slots(list, cs, key, i, height, prev)
    ensures Slots(list, cs[i := c], key, i + 1, height, prev)
  {
  }

  /** The store that publishes the node at level i: the level's chain gains exactly the node. */
  lemma PublishedOk(list: List, cs: Chains, x: nat, height: nat, prev: seq<nat>, i: nat) returns (p: nat)
    requires Ok(list, cs) && LinkingOk(list, cs, x, height, prev, i, true)
    ensures prev[i] < |list.nodes| && i < |list.nodes[prev[i]].next| && p < |cs[i]|
    ensures var list' := SetNext(list, prev[i], i, x);
            var cs' := cs[i := Spliced(cs[i], p, x)];
            && Ok(list', cs') && Grows(cs, cs')
            && (i + 1 < height ==> LinkingOk(list', cs', x, height, prev, i + 1, false))
            && x in cs'[0]
  {
    LinkingSlot(list, cs, x, height, prev, i, true);
    p :| p >= 0 && Gap(list.nodes, cs[i], list.nodes[x].key, p) && cs[i][p] == prev[i];
    PublishKeeps(list, cs, x, i, p);
    SpliceGrows(cs, i, p, x);
    SlotsOutlive(list, cs, list.nodes[x].key, i, height, prev, Spliced(cs[i], p, x));
    SlotsExtend(list, SetNext(list, prev[i], i, x), cs[i := Spliced(cs[i], p, x)], list.nodes[x].key, i + 1, height, prev);
  }

  lemma SpliceGrows(cs: Chains, i: nat, p: nat, x: nat)
    requires i < |cs| && p < |cs[i]|
    ensures var cs' := cs[i := Spliced(cs[i], p, x)];
            Grows(cs, cs') && x in cs'[i] && (i > 0 ==> cs'[0] == cs[0])
  {
    SplicedHolds(cs[i], p, x);
  }

  lemma SameGrows(cs: Chains)
    ensures Grows(cs, cs)
  {
  }

  lemma WriterStep(s: System, cs: Chains, e: Step) returns (cs': Chains)
    requires Inv(s, cs) && Enabled(s, e)
    requires !(e.ReaderBegins? || e.ReaderLoads? || e.ReaderAdvances?)
    ensures Ok(Do(s, e).list, cs') && WriterOk(Do(s, e).list, cs', Do(s, e).writer)
    ensures Grows(cs, cs') && Extends(s.list.nodes, Do(s, e).list.nodes)
  {
    cs' := cs;
    SameGrows(cs);
    var w := s.writer;
    match e
    case InsertBegins(key, prev) => HeadStandsAt(s.list, cs, AtOrPast(key), s.list.maxHeight - 1);
    case WriterLoads => WriterLoadOk(s.list, cs, w.key, w.level, w.x, w.prev);
    case HeightStored(height) => SizedOk(s.list, cs, w.key, w.prev, height);
    case NodeAllocated(garbage) => AllocatedOk(s.list, cs, w.key, w.height, w.prev, garbage);
    case LinkFilled => FilledOk(s.list, cs, w.node, w.height, w.prev, w.i);
    case LinkPublished =>
      var p := PublishedOk(s.list, cs, w.node, w.height, w.prev, w.i);
      cs' := cs[w.i := Spliced(cs[w.i], p, w.node)];
  }

  lemma ReaderStep(s: System, cs: Chains, e: Step)
    requires Inv(s, cs) && Enabled(s, e)
    requires e.ReaderBegins? || e.ReaderLoads? || e.ReaderAdvances?
    ensures Inv(Do(s, e), cs)
  {
    match e
    case ReaderBegins(j, goal) => HeadStandsAt(s.list, cs, goal, s.list.maxHeight - 1);
    case ReaderLoads(j) =>
      assert ReaderOk(s.list, cs, s.readers[j]);
      ReaderLoadOk(s.list, cs, s.readers[j].goal, s.readers[j].level, s.readers[j].x);
    case ReaderAdvances(j) =>
      assert ReaderOk(s.list, cs, s.readers[j]);
      LinkedSuccessor(s.list, cs, s.readers[j].node);
  }

  /** Every load and store keeps the levels sorted, nested and growing, and every search on track. */
  lemma StepKeepsInv(s: System, cs: Chains, e: Step) returns (cs': Chains)
    requires Inv(s, cs) && Enabled(s, e)
    ensures Inv(Do(s, e), cs') && Grows(cs, cs') && Extends(s.list.nodes, Do(s, e).list.nodes)
  {
    if e.ReaderBegins? || e.ReaderLoads? || e.ReaderAdvances? {
      cs' := cs;
      SameGrows(cs);
      ReaderStep(s, cs, e);
    } else {
      cs' := WriterStep(s, cs, e);
      var s' := Do(s, e);
      assert s'.readers == s.readers;
      forall j | 0 <= j < |s'.readers|
        ensures ReaderOk(s'.list, cs', s'.readers[j])
      {
        GrowsReader(s.list, cs, s'.list, cs', s.readers[j]);
      }
    }
  }

  // ----- whole runs

  function Nulls(n: nat): (r: seq<int>) ensures |r| == n && forall l :: 0 <= l < n ==> r[l] == NULL {
    seq(n, _ => NULL)
  }

  function Heads(n: nat): (r: Chains) ensures |r| == n && forall l :: 0 <= l < n ==> r[l] == [0] {
    seq(n, _ => [0])
  }

  function EmptyList(): (r: List) { List([Node(InternalKey([], 0, 0), Nulls(MAX_HEIGHT))], 1) }

  lemma EmptyOk()
    ensures Ok(EmptyList(), Heads(MAX_HEIGHT))
  {
    forall l | 0 <= l < MAX_HEIGHT
      ensures LevelOk(EmptyList().nodes, l, Heads(MAX_HEIGHT)[l])
    {
    }
  }

  ghost predicate Initial(s: System) {
    s.list == EmptyList() && s.writer.Resting? && forall j :: 0 <= j < |s.readers| ==> s.readers[j].Idle?
  }

  ghost predicate Run(ss: seq<System>, es: seq<Step>) {
    && |ss| == |es| + 1 && Initial(ss[0])
    && forall k :: 0 <= k < |es| ==> Enabled(ss[k], es[k]) && ss[k + 1] == Do(ss[k], es[k])
  }

  lemma {:induction false} RunChains(ss: seq<System>, es: seq<Step>, n: nat) returns (css: seq<Chains>)
    requires Run(ss, es) && n <= |es|
    ensures |css| == n + 1
    ensures forall k :: 0 <= k <= n ==> Inv(ss[k], css[k])
    ensures forall k :: 0 <= k < n ==> Grows(css[k], css[k + 1])
  {
    if n == 0 {
      EmptyOk();
      css := [Heads(MAX_HEIGHT)];
    } else {
      css := RunChains(ss, es, n - 1);
      var cs := StepKeepsInv(ss[n - 1], css[n - 1], es[n - 1]);
      css := css + [cs];
    }
  }

  /** Step e at s ends a search of reader j. */
  ghost predicate Finishes(s: System, e: Step) {
    && Enabled(s, e) && e.ReaderLoads?
    && ReaderLoad(s.list, s.readers[e.j].goal, s.readers[e.j].level, s.readers[e.j].x).Found?
  }

  /** The reader leaves step e with the right answer for the level-0 list. */
  ghost predicate EndsRight(s: System, cs: Chains, e: Step)
    requires Finishes(s, e)
  {
    && Inv(s, cs)
    && var r := Do(s, e).readers[e.j]; r.goal == s.readers[e.j].goal && Answers(s.list.nodes, cs[0], r.goal, r.node)
  }

  lemma FinishIsRight(s: System, cs: Chains, e: Step)
    requires Inv(s, cs) && Finishes(s, e)
    ensures EndsRight(s, cs, e)
  {
    var r := s.readers[e.j];
    assert ReaderOk(s.list, cs, r);
    StandsLoads(s.list, cs, r.goal, r.level, r.x);
  }

  /** A search never reads past a node or a link: whenever it is under way it can take its next load. */
  lemma SearchNeverStuck(s: System, cs: Chains, j: nat)
    requires Inv(s, cs) && j < |s.readers| && s.readers[j].Searching?
    ensures Enabled(s, ReaderLoads(j))
  {
    var r := s.readers[j];
    assert ReaderOk(s.list, cs, r);
    StandsLoads(s.list, cs, r.goal, r.level, r.x);
  }

  /** In every interleaving: the level-0 list only grows, and each search, however many stores it raced with,
      ends with the right answer for the level-0 list at the moment of its last load. */
  lemma EverySearchIsRight(ss: seq<System>, es: seq<Step>) returns (css: seq<Chains>)
    requires Run(ss, es)
    ensures |css| == |ss|
    ensures forall k :: 0 <= k < |ss| ==> Inv(ss[k], css[k])
    ensures forall k :: 0 <= k < |es| ==> Grows(css[k], css[k + 1])
    ensures forall k :: 0 <= k < |es| && Finishes(ss[k], es[k]) ==>
              EndsRight(ss[k], css[k], es[k])
    ensures forall k, j: nat :: 0 <= k < |ss| && j < |ss[k].readers| && ss[k].readers[j].Searching? ==> Enabled(ss[k], ReaderLoads(j))
  {
    css := RunChains(ss, es, |es|);
    forall k | 0 <= k < |es| && Finishes(ss[k], es[k])
      ensures EndsRight(ss[k], css[k], es[k])
    {
      FinishIsRight(ss[k], css[k], es[k]);
    }
    forall k, j: nat | 0 <= k < |ss| && j < |ss[k].readers| && ss[k].readers[j].Searching?
      ensures Enabled(ss[k], ReaderLoads(j))
    {
      SearchNeverStuck(ss[k], css[k], j);
    }
  }

  // ----- the list as an object

  class Table {
    var list: List
    ghost var chains: Chains

    ghost predicate Valid() reads this {
      Ok(list, chains) && Linked(list.nodes, 0, chains[0])
    }

    /** The keys in level-0 order. */
    ghost function Contents(): seq<InternalKey>
      requires Valid()
      reads this
    {
      KeysOf(list.nodes, chains[0][1..])
    }

    constructor ()
      ensures Valid() && Contents() == []
    {
      list := EmptyList();
      chains := Heads(MAX_HEIGHT);
      EmptyOk();
      assert LevelOk(EmptyList().nodes, 0, Heads(MAX_HEIGHT)[0]);
    }

    /** Insert, with the random height as an argument. */
    method Insert(key: InternalKey, height: nat, garbage: seq<int>)
      requires Valid() && Unused(list.nodes, key) && 1 <= height <= MAX_HEIGHT && |garbage| == height
      modifies this
      ensures Valid()
      ensures InsertedSomewhere(old(Contents()), key, Contents())
      ensures Increasing(Contents())
      ensures list.nodes[|list.nodes| - 1].key == key && |list.nodes| == old(|list.nodes|) + 1
      ensures Tall(old(chains), chains, old(|list.nodes|), height) && list.maxHeight == Max(old(list.maxHeight), height)
    {
      ghost var before := chains;
      ghost var nodes0 := list.nodes;
      var after;
      ghost var p: nat;
      after, chains, p := Inserted(list, chains, key, height, garbage);
      list := after;
      assert LevelOk(list.nodes, 0, chains[0]);
      InsertedKeys(nodes0, list.nodes, before[0], p, |nodes0|);
      IncreasingKeys(list.nodes, 0, chains[0]);
    }

    /** Contains: true exactly when the key is in the list. */
    method Contains(key: InternalKey) returns (found: bool)
      requires Valid()
      ensures found <==> key in Contents()
    {
      var r, _ := FindGreaterOrEqual(list, chains, key, seq(MAX_HEIGHT, _ => 0));
      assert LevelOk(list.nodes, 0, chains[0]);
      AnswerDecides(list.nodes, chains[0], key, r);
      found := r != NULL && InternalCompare(key, list.nodes[r].key) == 0;
    }
  }

  ghost predicate InsertedAt(ks: seq<InternalKey>, key: InternalKey, r: seq<InternalKey>, p: nat) {
    p <= |ks| && r == ks[..p] + [key] + ks[p..]
  }

  ghost predicate InsertedSomewhere(ks: seq<InternalKey>, key: InternalKey, r: seq<InternalKey>) {
    exists p: nat :: InsertedAt(ks, key, r, p)
  }

  function KeysOf(nodes: seq<Node>, c: seq<nat>): (r: seq<InternalKey>)
    requires forall i :: 0 <= i < |c| ==> c[i] < |nodes|
  {
    seq(|c|, i requires 0 <= i < |c| => nodes[c[i]].key)
  }

  ghost predicate Increasing(ks: seq<InternalKey>) {
    forall i, j :: 0 <= i < j < |ks| ==> Before(ks[i], ks[j])
  }

  lemma IncreasingKeys(nodes: seq<Node>, l: nat, c: seq<nat>)
    requires LevelOk(nodes, l, c)
    ensures Increasing(KeysOf(nodes, c[1..]))
  {
    var ks := KeysOf(nodes, c[1..]);
    forall i, j | 0 <= i < j < |ks|
      ensures Before(ks[i], ks[j])
    {
      assert ks[i] == nodes[c[i + 1]].key && ks[j] == nodes[c[j + 1]].key;
    }
  }

  lemma InsertedKeys(nodes: seq<Node>, nodes': seq<Node>, c: seq<nat>, p: nat, x: nat)
    requires (forall i :: 0 <= i < |c| ==> c[i] < |nodes|) && p < |c| && x < |nodes'| && Extends(nodes, nodes')
    ensures forall i :: 0 <= i < |Spliced(c, p, x)| ==> Spliced(c, p, x)[i] < |nodes'|
    ensures InsertedAt(KeysOf(nodes, c[1..]), nodes'[x].key, KeysOf(nodes', Spliced(c, p, x)[1..]), p)
  {
  }

  lemma SortedAt(nodes: seq<Node>, c: seq<nat>, i: nat, j: nat)
    requires (forall k :: 0 <= k < |c| ==> c[k] < |nodes|) && Sorted(nodes, c) && 1 <= i < |c| && j < |c|
    ensures i < j ==> Before(nodes[c[i]].key, nodes[c[j]].key)
  {
  }

  lemma KeyPosition(nodes: seq<Node>, c: seq<nat>, key: InternalKey, p: nat, i: nat)
    requires LevelOk(nodes, 0, c) && Cut(nodes, c, AtOrPast(key), p) && 1 <= i < |c| && nodes[c[i]].key == key
    ensures i == p + 1
  {
    if p + 1 < |c| {
      SortedAt(nodes, c, p + 1, i);
    }
  }

  lemma InKeys(nodes: seq<Node>, c: seq<nat>, key: InternalKey)
    requires forall i :: 0 <= i < |c| ==> c[i] < |nodes|
    requires c != []
    ensures key in KeysOf(nodes, c[1..]) <==> exists i :: 1 <= i < |c| && nodes[c[i]].key == key
  {
    var ks := KeysOf(nodes, c[1..]);
    if i :| 1 <= i < |c| && nodes[c[i]].key == key {
      assert ks[i - 1] == key;
    }
  }

  lemma AnswerDecides(nodes: seq<Node>, c: seq<nat>, key: InternalKey, r: int)
    requires LevelOk(nodes, 0, c) && Answers(nodes, c, AtOrPast(key), r)
    ensures r == NULL || 0 <= r < |nodes|
    ensures key in KeysOf(nodes, c[1..]) <==> r != NULL && nodes[r].key == key
  {
    var p: nat :| Cut(nodes, c, AtOrPast(key), p) && r == After(c, p);
    assert r != NULL ==> r == c[p + 1];
    InKeys(nodes, c, key);
    if i :| 1 <= i < |c| && nodes[c[i]].key == key {
      KeyPosition(nodes, c, key, p, i);
    }
  }

  /** Insert as its sequence of stores. */
  /** Node x is on the lists of the lowest `height` levels; the others are as they were. */
  ghost predicate Tall(cs0: Chains, cs: Chains, x: nat, height: nat) {
    && |cs| == |cs0| && height <= |cs|
    && (forall l :: 0 <= l < height ==> x in cs[l]) && forall l :: height <= l < |cs| ==> cs[l] == cs0[l]
  }

  lemma Taller(cs0: Chains, was: Chains, cs: Chains, x: nat, i: nat, q: nat)
    requires Tall(cs0, was, x, i) && i < |was| && q < |was[i]| && cs == was[i := Spliced(was[i], q, x)]
    ensures Tall(cs0, cs, x, i + 1)
  {
    assert cs[i][q + 1] == x;
  }

  method Inserted(before: List, ghost cs0: Chains, key: InternalKey, height: nat, garbage: seq<int>)
    returns (list: List, ghost cs: Chains, ghost p: nat)
    requires Ok(before, cs0) && Unused(before.nodes, key) && 1 <= height <= MAX_HEIGHT && |garbage| == height
    ensures Ok(list, cs) && Extends(before.nodes, list.nodes) && |list.nodes| == |before.nodes| + 1
    ensures p < |cs0[0]| && cs[0] == Spliced(cs0[0], p, |before.nodes|)
    ensures list.nodes[|before.nodes|].key == key
    ensures Tall(cs0, cs, |before.nodes|, height) && |list.nodes[|before.nodes|].next| == height
    ensures list.maxHeight == Max(before.maxHeight, height)
  {
    var _, prev := FindGreaterOrEqual(before, cs0, key, seq(MAX_HEIGHT, _ => 0));
    PrevsAreSlots(before, cs0, key, prev);
    SizedOk(before, cs0, key, prev, height);
    prev := FillPrev(prev, before.maxHeight, height);
    list := before.(maxHeight := Max(before.maxHeight, height));
    AllocatedOk(list, cs0, key, height, prev, garbage);
    var x := |list.nodes|;
    list := list.(nodes := list.nodes + [Node(key, garbage)]);
    cs := cs0;
    p := 0;
    for i := 0 to height
      invariant Ok(list, cs) && Extends(before.nodes, list.nodes) && |list.nodes| == x + 1
      invariant i < height ==> LinkingOk(list, cs, x, height, prev, i, false)
      invariant if i == 0 then cs == cs0 else p < |cs0[0]| && cs[0] == Spliced(cs0[0], p, x)
      invariant list.nodes[x].key == key && |list.nodes[x].next| == height && list.maxHeight == Max(before.maxHeight, height)
      invariant Tall(cs0, cs, x, i)
    {
      ghost var q: nat;
      ghost var was := cs;
      list, cs, q := LinkLevel(list, cs, x, height, prev, i);
      Taller(cs0, was, cs, x, i, q);
      if i == 0 {
        p := q;
      }
    }
  }

  /** One turn of the linking loop: fill the link in, then publish it. */
  method LinkLevel(before: List, ghost cs0: Chains, x: nat, height: nat, prev: seq<nat>, i: nat)
    returns (list: List, ghost cs: Chains, ghost q: nat)
    requires Ok(before, cs0) && LinkingOk(before, cs0, x, height, prev, i, false)
    ensures Ok(list, cs) && Extends(before.nodes, list.nodes) && |list.nodes| == |before.nodes|
    ensures i + 1 < height ==> LinkingOk(list, cs, x, height, prev, i + 1, false)
    ensures q < |cs0[i]| && cs == cs0[i := Spliced(cs0[i], q, x)]
    ensures |list.nodes[x].next| == height && list.maxHeight == before.maxHeight
  {
    FilledOk(before, cs0, x, height, prev, i);
    list := SetNext(before, x, i, before.nodes[prev[i]].next[i]);
    q := PublishedOk(list, cs0, x, height, prev, i);
    list := SetNext(list, prev[i], i, x);
    cs := cs0[i := Spliced(cs0[i], q, x)];
  }
}

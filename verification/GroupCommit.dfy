/** Group commit: concurrent writers queue up, the one at the head logs and applies a batch for a prefix
    of the queue, and hands the head on. Threads interleave at every release of the mutex. */
module GroupCommit {
  import opened Keys
  import opened WriteBatch

  // ----- BuildBatchGroup

  datatype Request = Request(batch: Option<Batch>, sync: bool)

  function OpsOf(rs: seq<Request>): Batch {
    if rs == [] then [] else OpsOf(rs[..|rs| - 1]) + (if rs[|rs| - 1].batch.Some? then rs[|rs| - 1].batch.value else [])
  }

  function SizeOf(rs: seq<Request>): nat {
    if rs == [] then 0 else SizeOf(rs[..|rs| - 1]) + (if rs[|rs| - 1].batch.Some? then ByteSize(rs[|rs| - 1].batch.value) else 0)
  }

  function MaxSize(first: nat): nat { if first <= 131072 then first + 131072 else 1048576 }

  /** Request i may not join the group of the requests before it: a sync write behind a non-sync leader, or
      too many bytes. */
  predicate Blocked(rs: seq<Request>, i: nat)
    requires 0 < i < |rs| && rs[0].batch.Some?
  {
    || (rs[i].sync && !rs[0].sync)
    || (rs[i].batch.Some? && SizeOf(rs[..i + 1]) > MaxSize(ByteSize(rs[0].batch.value)))
  }

  /** The group is the longest prefix of the queue with no blocked request in it. */
  ghost predicate IsGroup(rs: seq<Request>, n: nat)
    requires rs != [] && rs[0].batch.Some?
  {
    && 1 <= n <= |rs| && (forall i :: 0 < i < n ==> !Blocked(rs, i))
    && (n < |rs| ==> Blocked(rs, n))
  }

  lemma GroupOfOne(rs: seq<Request>)
    requires rs != [] && rs[0].batch.Some?
    ensures OpsOf(rs[..1]) == rs[0].batch.value && SizeOf(rs[..1]) == ByteSize(rs[0].batch.value)
  {
    assert rs[..1] == [rs[0]] && [rs[0]][..0] == [];
  }

  lemma GroupStep(rs: seq<Request>, n: nat)
    requires n < |rs|
    ensures rs[n].batch.None? ==> OpsOf(rs[..n + 1]) == OpsOf(rs[..n]) && SizeOf(rs[..n + 1]) == SizeOf(rs[..n])
    ensures rs[n].batch.Some? ==> OpsOf(rs[..n + 1]) == OpsOf(rs[..n]) + rs[n].batch.value
    ensures rs[n].batch.Some? ==> SizeOf(rs[..n + 1]) == SizeOf(rs[..n]) + ByteSize(rs[n].batch.value)
  {
    assert rs[..n + 1][..n] == rs[..n];
  }

  method BuildBatchGroup(rs: seq<Request>) returns (n: nat, updates: Batch)
    requires rs != [] && rs[0].batch.Some?
    ensures IsGroup(rs, n)
    ensures updates == OpsOf(rs[..n])
    ensures forall i :: 0 <= i < n && rs[i].sync ==> rs[0].sync
    ensures var first := ByteSize(rs[0].batch.value);
            var limit := if first <= 128 * 1024 then first + 128 * 1024 else 1024 * 1024;
            && (forall i :: 0 < i < n && rs[i].batch.Some? ==> SizeOf(rs[..i + 1]) <= limit)
            && (n < |rs| ==> (rs[n].sync && !rs[0].sync) || (rs[n].batch.Some? && SizeOf(rs[..n + 1]) > limit))
  {
    var first := rs[0];
    updates := first.batch.value;
    var size := ByteSize(first.batch.value);
    var maxSize := if size <= 131072 then size + 131072 else 1048576;
    n := 1;
    GroupOfOne(rs);
    while n < |rs|
      invariant 1 <= n <= |rs|
      invariant updates == OpsOf(rs[..n]) && size == SizeOf(rs[..n])
      invariant forall i :: 0 < i < n ==> !Blocked(rs, i)
    {
      var w := rs[n];
      GroupStep(rs, n);
      if w.sync && !first.sync {
        break;
      }
      if w.batch.Some? {
        size := size + ByteSize(w.batch.value);
        if size > maxSize {
          break;
        }
        updates := updates + w.batch.value;
      }
      n := n + 1;
    }
    forall i | 0 <= i < n && rs[i].sync
      ensures rs[0].sync
    {
      assert i > 0 ==> !Blocked(rs, i);
    }
    forall i | 0 < i < n && rs[i].batch.Some?
      ensures SizeOf(rs[..i + 1]) <= maxSize
    {
      assert !Blocked(rs, i);
    }
  }

  // ----- the state machine

  datatype Phase =
    | Waiting                                  // in the wait loop of Write
    | MakingRoom                               // at the head, in MakeRoomForWrite
    | Logging(n: nat, base: nat)               // mutex released, about to append to the log
    | Inserting(n: nat, base: nat, ok: bool)   // about to insert into the memtable
    | Finishing(n: nat, base: nat, ok: bool)   // about to retake the mutex and pop the group
    | Returned(ok: bool)

  datatype Writer = Writer(request: Request, phase: Phase, done: bool, status: bool, signaled: bool)

  /** A group that has been popped, numbered from just past `base`. `logged` if its leader got as far as
      the log. */
  datatype Group = Group(members: seq<nat>, requests: seq<Request>, base: nat, ok: bool, logged: bool)

  /** `arrivals` and `groups` are auxiliary: all writers in order of arrival, and how they were served. */
  datatype State = State(
    queue: seq<nat>, writers: map<nat, Writer>, lastSequence: nat, mem: seq<(nat, Op)>,
    arrivals: seq<nat>, groups: seq<Group>)

  datatype Step =
    | Arrive(w: nat, request: Request)
    | Wake(w: nat)
    | NoRoom(w: nat)
    | NullBatch(w: nat)
    | Begin(w: nat, n: nat)
    | Append(w: nat, ok: bool)
    | Insert(w: nat)
    | Finish(w: nat)

  ghost predicate Known(st: State, ws: seq<nat>) { forall i :: 0 <= i < |ws| ==> ws[i] in st.writers }

  ghost function Requests(st: State, ws: seq<nat>): (r: seq<Request>)
    requires Known(st, ws)
    ensures |r| == |ws| && forall i :: 0 <= i < |r| ==> r[i] == st.writers[ws[i]].request
  {
    seq(|ws|, i requires 0 <= i < |ws| => st.writers[ws[i]].request)
  }

  /** MemTableInserter: consecutive sequence numbers. */
  function Numbered(ops: Batch, start: nat): (r: seq<(nat, Op)>)
    ensures |r| == |ops| && forall i :: 0 <= i < |r| ==> r[i] == (start + i, ops[i])
  {
    seq(|ops|, i requires 0 <= i < |ops| => (start + i, ops[i]))
  }

  /** The loop at the end of Write: the leader pops itself and its group, tells the others the outcome and
      signals them, and then signals the new head. */
  ghost predicate Pops(st: State, n: nat, ok: bool, st': State) {
    && 1 <= n <= |st.queue| && Known(st, st.queue)
    && st'.queue == st.queue[n..] && st'.writers.Keys == st.writers.Keys
    && forall x :: x in st.writers ==>
         st'.writers[x] ==
           if x == st.queue[0] then st.writers[x].(phase := Returned(ok))
           else if x in st.queue[..n] then st.writers[x].(done := true, status := ok, signaled := true)
           else if n < |st.queue| && x == st.queue[n] then st.writers[x].(signaled := true)
           else st.writers[x]
  }

  ghost predicate Leads(st: State, w: nat) { st.queue != [] && st.queue[0] == w && Known(st, st.queue) }

  ghost predicate Next(st: State, step: Step, st': State) {
    match step
    case Arrive(w, request) =>
      && w !in st.writers
      && st' == st.(queue := st.queue + [w], arrivals := st.arrivals + [w],
                    writers := st.writers[w := Writer(request, if st.queue == [] then MakingRoom else Waiting, false, false, false)])
    case Wake(w) =>
      && w in st.writers && st.writers[w].phase == Waiting
      && var x := st.writers[w];
         st' == st.(writers := st.writers[w :=
           if x.done then x.(phase := Returned(x.status))
           else if st.queue != [] && st.queue[0] == w then x.(phase := MakingRoom)
           else x.(signaled := false)])
    case NoRoom(w) =>
      && Leads(st, w) && st.writers[w].phase == MakingRoom && Pops(st, 1, false, st')
      && st' == st.(queue := st'.queue, writers := st'.writers,
                    groups := st.groups + [Group([w], [st.writers[w].request], 0, false, false)])
    case NullBatch(w) =>
      && Leads(st, w) && st.writers[w].phase == MakingRoom && st.writers[w].request.batch == None && Pops(st, 1, true, st')
      && st' == st.(queue := st'.queue, writers := st'.writers,
                    groups := st.groups + [Group([w], [st.writers[w].request], 0, true, false)])
    case Begin(w, n) =>
      && Leads(st, w) && st.writers[w].phase == MakingRoom && st.writers[w].request.batch.Some?
      && IsGroup(Requests(st, st.queue), n)
      && st' == st.(writers := st.writers[w := st.writers[w].(phase := Logging(n, st.lastSequence))])
    case Append(w, ok) =>
      && Leads(st, w) && st.writers[w].phase.Logging?
      && var p := st.writers[w].phase;
         st' == st.(writers := st.writers[w := st.writers[w].(phase := Inserting(p.n, p.base, ok))])
    case Insert(w) =>
      && Leads(st, w) && st.writers[w].phase.Inserting?
      && var p := st.writers[w].phase;
         && p.n <= |st.queue|
         && st' == st.(mem := if p.ok then st.mem + Numbered(OpsOf(Requests(st, st.queue)[..p.n]), p.base + 1) else st.mem,
                       writers := st.writers[w := st.writers[w].(phase := Finishing(p.n, p.base, p.ok))])
    case Finish(w) =>
      && Leads(st, w) && st.writers[w].phase.Finishing?
      && var p := st.writers[w].phase;
         && Pops(st, p.n, p.ok, st')
         && var rs := Requests(st, st.queue)[..p.n];
            st' == st.(queue := st'.queue, writers := st'.writers, lastSequence := p.base + |OpsOf(rs)|,
                       groups := st.groups + [Group(st.queue[..p.n], rs, p.base, p.ok, true)])
  }

  // ----- invariant

  ghost function Served(gs: seq<Group>): seq<nat> {
    if gs == [] then [] else Served(gs[..|gs| - 1]) + gs[|gs| - 1].members
  }

  /** What a group puts into the memtable. */
  ghost function AppliedOf(g: Group): seq<(nat, Op)> {
    if g.ok && g.logged then Numbered(OpsOf(g.requests), g.base + 1) else []
  }

  ghost function Applied(gs: seq<Group>): seq<(nat, Op)> {
    if gs == [] then [] else Applied(gs[..|gs| - 1]) + AppliedOf(gs[|gs| - 1])
  }

  /** Logged groups, failed ones included, take consecutive stretches of sequence numbers, the last of which
      ends at `last`. */
  ghost predicate NumberedUpTo(gs: seq<Group>, last: nat) {
    if gs == [] then last == 0
    else
      var g, front := gs[|gs| - 1], gs[..|gs| - 1];
      if !g.logged then NumberedUpTo(front, last)
      else last == g.base + |OpsOf(g.requests)| && NumberedUpTo(front, g.base)
  }

  ghost predicate Distinct(ws: seq<nat>) { forall i, j :: 0 <= i < j < |ws| ==> ws[i] != ws[j] }

  ghost predicate Active(p: Phase) { p.MakingRoom? || p.Logging? || p.Inserting? || p.Finishing? }

  /** Nobody but the head does anything, and the head is running or has been woken. */
  ghost predicate QueueOk(st: State) {
    && Known(st, st.queue)
    && (forall i :: 0 <= i < |st.queue| ==> !st.writers[st.queue[i]].done)
    && (forall i :: 1 <= i < |st.queue| ==> st.writers[st.queue[i]].phase == Waiting)
    && (st.queue != [] ==> var h := st.writers[st.queue[0]]; Active(h.phase) || (h.phase == Waiting && h.signaled))
  }

  /** A running group is a prefix of the queue, numbered from just past the last sequence number. */
  ghost predicate GroupOk(st: State, p: Phase)
    requires st.queue != [] && Known(st, st.queue)
  {
    p.Logging? || p.Inserting? || p.Finishing? ==>
      && 1 <= p.n <= |st.queue| && p.base == st.lastSequence
      && forall i :: 0 <= i < p.n && st.writers[st.queue[i]].request.sync ==> st.writers[st.queue[0]].request.sync
  }

  /** What the head has put into the memtable and not yet popped. */
  ghost function InFlight(st: State): seq<(nat, Op)>
    requires Known(st, st.queue)
  {
    if st.queue == [] then []
    else
      var p := st.writers[st.queue[0]].phase;
      if p.Finishing? && p.ok && p.n <= |st.queue| then Numbered(OpsOf(Requests(st, st.queue)[..p.n]), p.base + 1) else []
  }

  /** A served writer has been told, or will be: it has returned its group's outcome or is woken to. */
  ghost predicate Told(x: Writer, ok: bool) {
    x.phase == Returned(ok) || (x.phase == Waiting && x.done && x.signaled && x.status == ok)
  }

  ghost predicate GroupServed(writers: map<nat, Writer>, g: Group) {
    && g.members != [] && |g.members| == |g.requests|
    && (forall i :: 0 <= i < |g.members| ==>
          g.members[i] in writers && writers[g.members[i]].request == g.requests[i] && Told(writers[g.members[i]], g.ok))
    && (g.logged ==> forall i :: 0 <= i < |g.requests| && g.requests[i].sync ==> g.requests[0].sync)
    && (!g.logged && g.ok ==> forall i :: 0 <= i < |g.requests| ==> g.requests[i].batch == None)
  }

  /** Everyone who ever arrived was served in a group or is still queued, in order of arrival. */
  ghost predicate ArrivalsOk(st: State) {
    && st.arrivals == Served(st.groups) + st.queue && Distinct(st.arrivals)
    && (forall w :: w in st.writers <==> w in st.arrivals)
  }

  ghost predicate GroupsOk(writers: map<nat, Writer>, gs: seq<Group>) {
    forall i :: 0 <= i < |gs| ==> GroupServed(writers, gs[i])
  }

  ghost predicate Inv(st: State) {
    && QueueOk(st)
    && (st.queue != [] ==> GroupOk(st, st.writers[st.queue[0]].phase))
    && ArrivalsOk(st)
    && GroupsOk(st.writers, st.groups)
    && NumberedUpTo(st.groups, st.lastSequence)
    && st.mem == Applied(st.groups) + InFlight(st)
  }

  // ----- facts about lists

  lemma {:induction false} ServedContains(gs: seq<Group>, i: nat, x: nat)
    requires i < |gs| && x in gs[i].members
    ensures x in Served(gs)
  {
    if i < |gs| - 1 {
      ServedContains(gs[..|gs| - 1], i, x);
    }
  }

  lemma MemberNotQueued(st: State, i: nat, j: nat)
    requires ArrivalsOk(st)
    requires i < |st.groups| && j < |st.groups[i].members|
    ensures st.groups[i].members[j] !in st.queue
  {
    var x := st.groups[i].members[j];
    ServedContains(st.groups, i, x);
    var a :| 0 <= a < |Served(st.groups)| && Served(st.groups)[a] == x;
    assert st.arrivals[a] == x;
    forall b | 0 <= b < |st.queue|
      ensures st.queue[b] != x
    {
      assert st.arrivals[|Served(st.groups)| + b] == st.queue[b];
    }
  }

  lemma QueueDistinct(st: State)
    requires ArrivalsOk(st)
    ensures Distinct(st.queue)
  {
    forall i, j | 0 <= i < j < |st.queue|
      ensures st.queue[i] != st.queue[j]
    {
      var n := |Served(st.groups)|;
      assert st.arrivals[n + i] == st.queue[i] && st.arrivals[n + j] == st.queue[j];
    }
  }

  lemma SameRequests(st: State, st': State, ws: seq<nat>)
    requires Known(st, ws) && Known(st', ws)
    requires forall i :: 0 <= i < |ws| ==> st'.writers[ws[i]].request == st.writers[ws[i]].request
    ensures Requests(st', ws) == Requests(st, ws)
  {
  }

  /** Served groups stay served when only unserved writers change. */
  lemma ServedKept(st: State, st': State)
    requires ArrivalsOk(st) && GroupsOk(st.writers, st.groups)
    requires forall x :: x in st.writers && x !in st.queue ==> x in st'.writers && st'.writers[x] == st.writers[x]
    ensures GroupsOk(st'.writers, st.groups)
  {
    forall i | 0 <= i < |st.groups|
      ensures GroupServed(st'.writers, st.groups[i])
    {
      var g := st.groups[i];
      forall j | 0 <= j < |g.members|
        ensures g.members[j] in st'.writers && st'.writers[g.members[j]] == st.writers[g.members[j]]
      {
        MemberNotQueued(st, i, j);
      }
    }
  }

  // ----- steps of the head

  /** Changing the head's phase disturbs nobody else. */
  lemma HeadMoves(st: State, st': State, w: nat, p: Phase)
    requires Inv(st) && Leads(st, w) && Active(p)
    requires st' == st.(writers := st.writers[w := st.writers[w].(phase := p)], mem := st'.mem)
    requires GroupOk(st, p)
    requires st'.mem == Applied(st.groups) + InFlight(st')
    ensures Inv(st')
  {
    QueueDistinct(st);
    ServedKept(st, st');
    SameRequests(st, st', st.queue);
  }

  lemma BeginInv(st: State, w: nat, n: nat, st': State)
    requires Inv(st) && Next(st, Begin(w, n), st')
    ensures Inv(st')
  {
    var rs := Requests(st, st.queue);
    forall i | 0 <= i < n && st.writers[st.queue[i]].request.sync
      ensures st.writers[st.queue[0]].request.sync
    {
      assert i > 0 ==> !Blocked(rs, i);
      assert rs[i].sync;
    }
    HeadMoves(st, st', w, Logging(n, st.lastSequence));
  }

  lemma AppendInv(st: State, w: nat, ok: bool, st': State)
    requires Inv(st) && Next(st, Append(w, ok), st')
    ensures Inv(st')
  {
    var p := st.writers[w].phase;
    HeadMoves(st, st', w, Inserting(p.n, p.base, ok));
  }

  lemma InsertInv(st: State, w: nat, st': State)
    requires Inv(st) && Next(st, Insert(w), st')
    ensures Inv(st')
  {
    var p := st.writers[w].phase;
    assert InFlight(st) == [];
    InsertFlies(st, w, st');
    HeadMoves(st, st', w, Finishing(p.n, p.base, p.ok));
  }

  lemma InsertFlies(st: State, w: nat, st': State)
    requires Next(st, Insert(w), st') && st.mem == Applied(st.groups)
    ensures Known(st', st'.queue) && st'.mem == Applied(st.groups) + InFlight(st')
  {
    var p := st.writers[w].phase;
    SameRequests(st, st', st.queue);
    FlightOf(st', p, Requests(st, st.queue)[..p.n]);
  }

  lemma FlightOf(st: State, p: Phase, rs: seq<Request>)
    requires Known(st, st.queue) && st.queue != [] && p.Inserting? && p.n <= |st.queue|
    requires st.writers[st.queue[0]].phase == Finishing(p.n, p.base, p.ok) && rs == Requests(st, st.queue)[..p.n]
    ensures InFlight(st) == if p.ok then Numbered(OpsOf(rs), p.base + 1) else []
  {
  }

  // ----- arriving

  lemma ArriveArrivals(st: State, w: nat, request: Request, st': State)
    requires ArrivalsOk(st) && Next(st, Arrive(w, request), st')
    ensures ArrivalsOk(st')
  {
    assert w !in st.arrivals;
    assert st'.arrivals == Served(st.groups) + st'.queue;
  }

  lemma ArriveQueue(st: State, w: nat, request: Request, st': State)
    requires QueueOk(st) && Next(st, Arrive(w, request), st')
    ensures QueueOk(st')
    ensures forall i :: 0 <= i < |st.queue| ==> st'.queue[i] == st.queue[i] && st'.writers[st.queue[i]] == st.writers[st.queue[i]]
  {
  }

  lemma ArriveInv(st: State, w: nat, request: Request, st': State)
    requires Inv(st) && Next(st, Arrive(w, request), st')
    ensures Inv(st')
  {
    ArriveArrivals(st, w, request, st');
    ArriveQueue(st, w, request, st');
    ServedKept(st, st');
    if st.queue != [] {
      SamePrefix(st, st');
    }
  }

  lemma SamePrefix(st: State, st': State)
    requires Known(st, st.queue) && Known(st', st'.queue) && st.queue != [] && |st.queue| <= |st'.queue|
    requires st'.lastSequence == st.lastSequence
    requires forall i :: 0 <= i < |st.queue| ==> st'.queue[i] == st.queue[i] && st'.writers[st.queue[i]] == st.writers[st.queue[i]]
    requires GroupOk(st, st.writers[st.queue[0]].phase)
    ensures InFlight(st') == InFlight(st)
    ensures GroupOk(st', st'.writers[st'.queue[0]].phase)
  {
    var p := st.writers[st.queue[0]].phase;
    if p.Finishing? {
      assert Requests(st', st'.queue)[..p.n] == Requests(st, st.queue)[..p.n];
    }
  }

  // ----- waking

  lemma WakeServed(writers: map<nat, Writer>, gs: seq<Group>, w: nat)
    requires GroupsOk(writers, gs) && w in writers && writers[w].phase == Waiting
    ensures writers[w].done ==> GroupsOk(writers[w := writers[w].(phase := Returned(writers[w].status))], gs)
  {
    if writers[w].done {
      var writers' := writers[w := writers[w].(phase := Returned(writers[w].status))];
      forall i | 0 <= i < |gs|
        ensures GroupServed(writers', gs[i])
      {
        forall j | 0 <= j < |gs[i].members|
          ensures writers'[gs[i].members[j]].request == gs[i].requests[j] && Told(writers'[gs[i].members[j]], gs[i].ok)
        {
          assert Told(writers[gs[i].members[j]], gs[i].ok);
        }
      }
    }
  }

  lemma WakeDoneInv(st: State, w: nat, st': State)
    requires Inv(st) && Next(st, Wake(w), st') && st.writers[w].done
    ensures Inv(st')
  {
    WakeServed(st.writers, st.groups, w);
    assert w !in st.queue;
    if st.queue != [] {
      SamePrefix(st, st');
    }
  }

  lemma WakeQueuedInv(st: State, w: nat, st': State)
    requires Inv(st) && Next(st, Wake(w), st') && !st.writers[w].done
    ensures Inv(st')
  {
    QueueDistinct(st);
    WakerIsQueued(st, w);
    ServedKept(st, st');
    if st.queue[0] == w {
      HeadMoves(st, st', w, MakingRoom);
    } else {
      SameRequests(st, st', st.queue);
      SameFlight(st, st');
    }
  }

  lemma SameFlight(st: State, st': State)
    requires Known(st, st.queue) && Known(st', st.queue) && st.queue != [] && st'.queue == st.queue
    requires st'.lastSequence == st.lastSequence && Requests(st', st.queue) == Requests(st, st.queue)
    requires st'.writers[st.queue[0]].phase == st.writers[st.queue[0]].phase
    requires GroupOk(st, st.writers[st.queue[0]].phase)
    ensures InFlight(st') == InFlight(st)
    ensures GroupOk(st', st'.writers[st'.queue[0]].phase)
  {
    var rs, rs' := Requests(st, st.queue), Requests(st', st.queue);
    forall i | 0 <= i < |st.queue|
      ensures st'.writers[st.queue[i]].request == st.writers[st.queue[i]].request
    {
      assert rs[i] == rs'[i];
    }
  }

  lemma WakerIsQueued(st: State, w: nat)
    requires ArrivalsOk(st) && GroupsOk(st.writers, st.groups)
    requires w in st.writers && st.writers[w].phase == Waiting && !st.writers[w].done
    ensures w in st.queue
  {
    if w !in st.queue {
      assert w in st.arrivals;
      var i := ServedGroup(st.groups, w);
    }
  }

  lemma {:induction false} ServedGroup(gs: seq<Group>, x: nat) returns (i: nat)
    requires x in Served(gs)
    ensures i < |gs| && x in gs[i].members
  {
    if x in gs[|gs| - 1].members {
      i := |gs| - 1;
    } else {
      i := ServedGroup(gs[..|gs| - 1], x);
    }
  }

  // ----- popping

  lemma PopsQueue(st: State, n: nat, ok: bool, st': State)
    requires QueueOk(st) && Distinct(st.queue) && Pops(st, n, ok, st')
    ensures QueueOk(st') && (st'.queue != [] ==> st'.writers[st'.queue[0]].phase == Waiting)
  {
    forall i | 0 <= i < |st'.queue|
      ensures st'.queue[i] == st.queue[n + i] && st'.queue[i] in st'.writers
      ensures st'.writers[st'.queue[i]] == if i == 0 then st.writers[st.queue[n]].(signaled := true) else st.writers[st.queue[n + i]]
    {
      assert st.queue[n + i] !in st.queue[..n];
    }
  }

  ghost predicate GroupOfPop(st: State, n: nat, ok: bool, g: Group) {
    && 1 <= n <= |st.queue| && Known(st, st.queue)
    && g.members == st.queue[..n] && g.requests == Requests(st, st.queue)[..n] && g.ok == ok
    && (g.logged ==> forall i :: 0 <= i < |g.requests| && g.requests[i].sync ==> g.requests[0].sync)
    && (!g.logged && g.ok ==> forall i :: 0 <= i < |g.requests| ==> g.requests[i].batch == None)
  }

  lemma PopsGroup(st: State, n: nat, ok: bool, st': State, g: Group)
    requires QueueOk(st) && Distinct(st.queue) && Pops(st, n, ok, st') && GroupOfPop(st, n, ok, g)
    ensures GroupServed(st'.writers, g)
  {
    forall i | 0 <= i < n
      ensures g.members[i] in st'.writers && st'.writers[g.members[i]].request == g.requests[i]
      ensures Told(st'.writers[g.members[i]], ok)
    {
      assert g.members[i] == st.queue[i];
      assert i > 0 ==> st.writers[st.queue[i]].phase == Waiting;
    }
  }

  lemma GroupsSnoc(writers: map<nat, Writer>, gs: seq<Group>, g: Group)
    requires GroupsOk(writers, gs) && GroupServed(writers, g)
    ensures GroupsOk(writers, gs + [g])
    ensures Served(gs + [g]) == Served(gs) + g.members
    ensures Applied(gs + [g]) == Applied(gs) + AppliedOf(g)
  {
    assert (gs + [g])[..|gs|] == gs;
  }

  lemma PopArrivals(st: State, n: nat, ok: bool, g: Group, st': State)
    requires ArrivalsOk(st) && Pops(st, n, ok, st') && g.members == st.queue[..n]
    requires st'.arrivals == st.arrivals && Served(st'.groups) == Served(st.groups) + g.members
    ensures ArrivalsOk(st')
  {
    Regroup(Served(st.groups), st.queue, n);
  }

  lemma Regroup(a: seq<nat>, b: seq<nat>, n: nat)
    requires n <= |b|
    ensures a + b == a + b[..n] + b[n..]
  {
  }

  lemma PopInv(st: State, n: nat, ok: bool, g: Group, st': State)
    requires Inv(st) && Pops(st, n, ok, st') && GroupOfPop(st, n, ok, g)
    requires st' == st.(queue := st'.queue, writers := st'.writers, lastSequence := st'.lastSequence, groups := st.groups + [g])
    requires NumberedUpTo(st.groups + [g], st'.lastSequence)
    requires InFlight(st) == AppliedOf(g)
    ensures Inv(st')
  {
    QueueDistinct(st);
    PopsQueue(st, n, ok, st');
    PopsGroup(st, n, ok, st', g);
    PopKeepsServed(st, n, ok, st');
    GroupsSnoc(st'.writers, st.groups, g);
    PopArrivals(st, n, ok, g, st');
    WaitingHead(st');
    assert Applied(st.groups) + InFlight(st) == Applied(st'.groups) + [];
  }

  lemma PopKeepsServed(st: State, n: nat, ok: bool, st': State)
    requires ArrivalsOk(st) && GroupsOk(st.writers, st.groups) && Pops(st, n, ok, st')
    ensures GroupsOk(st'.writers, st.groups)
  {
    ServedKept(st, st');
  }

  lemma WaitingHead(st: State)
    requires Known(st, st.queue) && (st.queue != [] ==> st.writers[st.queue[0]].phase == Waiting)
    ensures InFlight(st) == []
    ensures st.queue != [] ==> GroupOk(st, st.writers[st.queue[0]].phase)
  {
  }

  lemma NumbersSnoc(gs: seq<Group>, g: Group, last: nat, last': nat)
    requires NumberedUpTo(gs, last)
    requires if g.logged then g.base == last && last' == last + |OpsOf(g.requests)| else last' == last
    ensures NumberedUpTo(gs + [g], last')
  {
    assert (gs + [g])[..|gs|] == gs;
  }

  lemma SinglePopInv(st: State, w: nat, ok: bool, st': State)
    requires Inv(st) && Leads(st, w) && st.writers[w].phase == MakingRoom && Pops(st, 1, ok, st')
    requires ok ==> st.writers[w].request.batch == None
    requires st' == st.(queue := st'.queue, writers := st'.writers,
                        groups := st.groups + [Group([w], [st.writers[w].request], 0, ok, false)])
    ensures Inv(st')
  {
    var g := Group([w], [st.writers[w].request], 0, ok, false);
    assert Requests(st, st.queue)[..1] == g.requests && st.queue[..1] == g.members;
    assert GroupOfPop(st, 1, ok, g);
    NumbersSnoc(st.groups, g, st.lastSequence, st.lastSequence);
    PopInv(st, 1, ok, g, st');
  }

  lemma FinishInv(st: State, w: nat, st': State)
    requires Inv(st) && Next(st, Finish(w), st')
    ensures Inv(st')
  {
    var p := st.writers[w].phase;
    var rs := Requests(st, st.queue)[..p.n];
    var g := Group(st.queue[..p.n], rs, p.base, p.ok, true);
    FinishesGroup(st, w, g);
    NumbersSnoc(st.groups, g, st.lastSequence, st'.lastSequence);
    PopInv(st, p.n, p.ok, g, st');
  }

  lemma FinishesGroup(st: State, w: nat, g: Group)
    requires Leads(st, w) && st.writers[w].phase.Finishing? && GroupOk(st, st.writers[w].phase)
    requires var p := st.writers[w].phase; g == Group(st.queue[..p.n], Requests(st, st.queue)[..p.n], p.base, p.ok, true)
    ensures GroupOfPop(st, st.writers[w].phase.n, st.writers[w].phase.ok, g)
    ensures InFlight(st) == AppliedOf(g)
  {
    var rs := Requests(st, st.queue);
    forall i | 0 <= i < |g.requests| && g.requests[i].sync
      ensures g.requests[0].sync
    {
      assert g.requests[i] == rs[i] && g.requests[0] == rs[0];
    }
  }

  /** Every step of every thread keeps the invariant. */
  lemma StepKeepsInv(st: State, step: Step, st': State)
    requires Inv(st) && Next(st, step, st')
    ensures Inv(st')
  {
    match step
    case Arrive(w, request) => ArriveInv(st, w, request, st');
    case Wake(w) => if st.writers[w].done { WakeDoneInv(st, w, st'); } else { WakeQueuedInv(st, w, st'); }
    case Begin(w, n) => BeginInv(st, w, n, st');
    case Append(w, ok) => AppendInv(st, w, ok, st');
    case Insert(w) => InsertInv(st, w, st');
    case NoRoom(w) => SinglePopInv(st, w, false, st');
    case NullBatch(w) => SinglePopInv(st, w, true, st');
    case Finish(w) => FinishInv(st, w, st');
  }

  // ----- every run

  function Initial(): State { State([], map[], 0, [], [], []) }

  ghost predicate Run(states: seq<State>, steps: seq<Step>) {
    && |states| == |steps| + 1 && states[0] == Initial()
    && forall i :: 0 <= i < |steps| ==> Next(states[i], steps[i], states[i + 1])
  }

  lemma {:induction false} RunKeepsInv(states: seq<State>, steps: seq<Step>, i: nat)
    requires Run(states, steps) && i < |states|
    ensures Inv(states[i])
  {
    if i > 0 {
      RunKeepsInv(states, steps, i - 1);
      StepKeepsInv(states[i - 1], steps[i - 1], states[i]);
    }
  }

  /** A step of the head itself: no help from another thread is needed. */
  ghost predicate HeadStep(st: State, step: Step) {
    st.queue != [] && !step.Arrive? && step.w == st.queue[0]
  }

  /** How many steps a head in this phase is from having returned. */
  ghost function Distance(p: Phase): nat {
    match p
    case Waiting => 5
    case MakingRoom => 4
    case Logging(_, _) => 3
    case Inserting(_, _, _) => 2
    case Finishing(_, _, _) => 1
    case Returned(_) => 0
  }

  /** Some prefix of the queue is the group. */
  lemma {:induction false} GroupExists(rs: seq<Request>, from: nat) returns (n: nat)
    requires rs != [] && rs[0].batch.Some? && 1 <= from <= |rs| && forall i :: 0 < i < from ==> !Blocked(rs, i)
    ensures IsGroup(rs, n)
    decreases |rs| - from
  {
    if from == |rs| || Blocked(rs, from) {
      n := from;
    } else {
      n := GroupExists(rs, from + 1);
    }
  }

  /** No lost wakeup, no deadlock: whenever someone is queued, the head is running or has been signaled, and a step of its
      own is enabled that does not fail and brings it closer to having returned. */
  lemma HeadCanMove(st: State) returns (step: Step, st': State)
    requires Inv(st) && st.queue != []
    ensures st.writers[st.queue[0]].phase == Waiting ==> st.writers[st.queue[0]].signaled && step == Wake(st.queue[0])
    ensures HeadStep(st, step) && Next(st, step, st') && !step.NoRoom? && step != Append(st.queue[0], false)
    ensures st.queue[0] in st'.writers && Distance(st'.writers[st.queue[0]].phase) < Distance(st.writers[st.queue[0]].phase)
  {
    HeadIsReady(st);
    step, st' := ReadyCanMove(st, st.queue[0]);
  }

  /** What the head needs to make a step. */
  ghost predicate Ready(st: State, w: nat) {
    && Leads(st, w) && w in st.writers && !st.writers[w].done
    && var p := st.writers[w].phase;
       && !p.Returned? && (p.Waiting? ==> st.writers[w].signaled)
       && (p.Inserting? || p.Finishing? ==> 1 <= p.n <= |st.queue|)
  }

  lemma HeadIsReady(st: State)
    requires Inv(st) && st.queue != []
    ensures Ready(st, st.queue[0])
  {
  }

  lemma ReadyCanMove(st: State, w: nat) returns (step: Step, st': State)
    requires Ready(st, w)
    ensures st.writers[w].phase == Waiting ==> step == Wake(w)
    ensures HeadStep(st, step) && Next(st, step, st') && !step.NoRoom? && step != Append(w, false)
    ensures w in st'.writers && Distance(st'.writers[w].phase) < Distance(st.writers[w].phase)
  {
    var p := st.writers[w].phase;
    if p.Waiting? {
      step, st' := WakeEnabled(st);
    } else if p.MakingRoom? {
      step, st' := RoomEnabled(st);
    } else if p.Logging? {
      step, st' := AppendEnabled(st);
    } else if p.Inserting? {
      step, st' := InsertEnabled(st);
    } else {
      step, st' := FinishEnabled(st);
    }
  }

  lemma WakeEnabled(st: State) returns (step: Step, st': State)
    requires st.queue != [] && Known(st, st.queue) && st.writers[st.queue[0]].phase == Waiting && !st.writers[st.queue[0]].done
    ensures step == Wake(st.queue[0]) && Next(st, step, st')
    ensures st.queue[0] in st'.writers && st'.writers[st.queue[0]].phase.MakingRoom?
  {
    var w := st.queue[0];
    step, st' := Wake(w), st.(writers := st.writers[w := st.writers[w].(phase := MakingRoom)]);
  }

  lemma AppendEnabled(st: State) returns (step: Step, st': State)
    requires st.queue != [] && Known(st, st.queue) && st.writers[st.queue[0]].phase.Logging?
    ensures step == Append(st.queue[0], true) && Next(st, step, st')
    ensures st.queue[0] in st'.writers && st'.writers[st.queue[0]].phase.Inserting?
  {
    var w, p := st.queue[0], st.writers[st.queue[0]].phase;
    step, st' := Append(w, true), st.(writers := st.writers[w := st.writers[w].(phase := Inserting(p.n, p.base, true))]);
  }

  /** A head with room returns at once if its batch is null, and else forms its group. */
  lemma RoomEnabled(st: State) returns (step: Step, st': State)
    requires st.queue != [] && Known(st, st.queue) && st.writers[st.queue[0]].phase == MakingRoom
    ensures step == NullBatch(st.queue[0]) || (step.Begin? && step.w == st.queue[0])
    ensures Next(st, step, st') && st.queue[0] in st'.writers && Distance(st'.writers[st.queue[0]].phase) < 4
  {
    var w, x := st.queue[0], st.writers[st.queue[0]];
    if x.request.batch == None {
      step := NullBatch(w);
      st' := st.(queue := st.queue[1..], writers := PoppedWriters(st, 1, true),
                 groups := st.groups + [Group([w], [x.request], 0, true, false)]);
      PoppedPops(st, 1, true, st');
    } else {
      var n := GroupExists(Requests(st, st.queue), 1);
      step := Begin(w, n);
      st' := st.(writers := st.writers[w := x.(phase := Logging(n, st.lastSequence))]);
    }
  }

  lemma InsertEnabled(st: State) returns (step: Step, st': State)
    requires st.queue != [] && Known(st, st.queue)
    requires var p := st.writers[st.queue[0]].phase; p.Inserting? && 1 <= p.n <= |st.queue|
    ensures step == Insert(st.queue[0]) && Next(st, step, st')
    ensures st.queue[0] in st'.writers && st'.writers[st.queue[0]].phase.Finishing?
  {
    var w, p := st.queue[0], st.writers[st.queue[0]].phase;
    var rs := Requests(st, st.queue)[..p.n];
    step := Insert(w);
    st' := st.(mem := if p.ok then st.mem + Numbered(OpsOf(rs), p.base + 1) else st.mem,
               writers := st.writers[w := st.writers[w].(phase := Finishing(p.n, p.base, p.ok))]);
  }

  lemma FinishEnabled(st: State) returns (step: Step, st': State)
    requires st.queue != [] && Known(st, st.queue)
    requires var p := st.writers[st.queue[0]].phase; p.Finishing? && 1 <= p.n <= |st.queue|
    ensures step == Finish(st.queue[0]) && Next(st, step, st')
    ensures st.queue[0] in st'.writers && st'.writers[st.queue[0]].phase.Returned?
  {
    var p := st.writers[st.queue[0]].phase;
    var rs := Requests(st, st.queue)[..p.n];
    step := Finish(st.queue[0]);
    st' := st.(queue := st.queue[p.n..], writers := PoppedWriters(st, p.n, p.ok), lastSequence := p.base + |OpsOf(rs)|,
               groups := st.groups + [Group(st.queue[..p.n], rs, p.base, p.ok, true)]);
    PoppedPops(st, p.n, p.ok, st');
  }

  lemma PoppedPops(st: State, n: nat, ok: bool, st': State)
    requires 1 <= n <= |st.queue| && Known(st, st.queue) && st'.queue == st.queue[n..] && st'.writers == PoppedWriters(st, n, ok)
    ensures Pops(st, n, ok, st')
  {
  }

  ghost function PoppedWriters(st: State, n: nat, ok: bool): map<nat, Writer>
    requires 1 <= n <= |st.queue|
  {
    map x | x in st.writers ::
      if x == st.queue[0] then st.writers[x].(phase := Returned(ok))
      else if x in st.queue[..n] then st.writers[x].(done := true, status := ok, signaled := true)
      else if n < |st.queue| && x == st.queue[n] then st.writers[x].(signaled := true)
      else st.writers[x]
  }

  // ----- who owns what in the memtable

  /** Logged groups that are in the memtable: those popped, and the head's own while it is about to pop it. */
  ghost function Groups(st: State): seq<Group>
    requires Known(st, st.queue)
  {
    if Flying(st) == 0 then st.groups
    else
      var p := st.writers[st.queue[0]].phase;
      st.groups + [Group(st.queue[..p.n], Requests(st, st.queue)[..p.n], p.base, true, true)]
  }

  /** How many of the queue have their batch in the memtable already. */
  ghost function Flying(st: State): nat
    requires Known(st, st.queue)
  {
    if st.queue == [] then 0
    else
      var p := st.writers[st.queue[0]].phase;
      if p.Finishing? && p.ok && p.n <= |st.queue| then p.n else 0
  }

  /** Writer w's Write has succeeded: it has returned success or been told it, or its leader is about to tell it. */
  ghost predicate Succeeded(st: State, w: nat)
    requires Known(st, st.queue) && w in st.writers
  {
    || st.writers[w].phase == Returned(true)
    || (st.writers[w].phase == Waiting && st.writers[w].done && st.writers[w].status)
    || w in st.queue[..Flying(st)]
  }

  ghost function Contribution(st: State, w: nat): Batch
    requires Known(st, st.queue) && w in st.writers
  {
    if Succeeded(st, w) && st.writers[w].request.batch.Some? then st.writers[w].request.batch.value else []
  }

  /** The batches of the successful writers among ws, in that order. */
  ghost function Contributions(st: State, ws: seq<nat>): Batch
    requires Known(st, st.queue) && Known(st, ws)
  {
    if ws == [] then [] else Contributions(st, ws[..|ws| - 1]) + Contribution(st, ws[|ws| - 1])
  }

  function Ops(es: seq<(nat, Op)>): (r: Batch)
    ensures |r| == |es| && forall i :: 0 <= i < |r| ==> r[i] == es[i].1
  {
    seq(|es|, i requires 0 <= i < |es| => es[i].1)
  }

  lemma OpsConcat(a: seq<(nat, Op)>, b: seq<(nat, Op)>)
    ensures Ops(a + b) == Ops(a) + Ops(b)
  {
  }

  lemma KnownConcat(st: State, a: seq<nat>, b: seq<nat>)
    requires Known(st, a) && Known(st, b)
    ensures Known(st, a + b)
  {
  }

  lemma {:induction false} ContributionsSnoc(st: State, ws: seq<nat>, w: nat)
    requires Known(st, st.queue) && Known(st, ws) && w in st.writers
    ensures Known(st, ws + [w]) && Contributions(st, ws + [w]) == Contributions(st, ws) + Contribution(st, w)
  {
    assert (ws + [w])[..|ws|] == ws;
  }

  lemma {:induction false} ContributionsConcat(st: State, a: seq<nat>, b: seq<nat>)
    requires Known(st, st.queue) && Known(st, a) && Known(st, b)
    ensures Known(st, a + b) && Contributions(st, a + b) == Contributions(st, a) + Contributions(st, b)
    decreases |b|
  {
    KnownConcat(st, a, b);
    if b == [] {
      assert a + b == a;
    } else {
      var front, w := b[..|b| - 1], b[|b| - 1];
      ContributionsConcat(st, a, front);
      ContributionsSnoc(st, a + front, w);
      assert a + b == (a + front) + [w];
      BatchAssoc(Contributions(st, a), Contributions(st, front), Contribution(st, w));
    }
  }

  lemma BatchAssoc(a: Batch, b: Batch, c: Batch)
    ensures (a + b) + c == a + (b + c)
  {
  }

  /** Group g served its members: they succeeded exactly if it did. */
  ghost predicate Lands(st: State, g: Group)
    requires Known(st, st.queue)
  {
    && |g.members| == |g.requests| && Known(st, g.members)
    && (forall k :: 0 <= k < |g.members| ==> st.writers[g.members[k]].request == g.requests[k])
    && (forall k :: 0 <= k < |g.members| ==> (Succeeded(st, g.members[k]) <==> g.ok))
    && (!g.logged && g.ok ==> forall k :: 0 <= k < |g.requests| ==> g.requests[k].batch == None)
  }

  ghost predicate AllLand(st: State, gs: seq<Group>)
    requires Known(st, st.queue)
  {
    forall i :: 0 <= i < |gs| ==> Lands(st, gs[i])
  }

  /** The first k members of a group contribute the operations of their requests, or nothing if it failed. */
  lemma {:induction false} MembersContribute(st: State, g: Group, k: nat)
    requires Known(st, st.queue) && Lands(st, g) && k <= |g.members|
    ensures Known(st, g.members[..k])
    ensures Contributions(st, g.members[..k]) == if g.ok && g.logged then OpsOf(g.requests[..k]) else []
  {
    if k > 0 {
      MembersContribute(st, g, k - 1);
      assert g.members[..k][..k - 1] == g.members[..k - 1] && g.requests[..k][..k - 1] == g.requests[..k - 1];
    }
  }

  lemma GroupContributes(st: State, g: Group)
    requires Known(st, st.queue) && Lands(st, g)
    ensures Contributions(st, g.members) == Ops(AppliedOf(g))
  {
    MembersContribute(st, g, |g.members|);
    assert g.members[..|g.members|] == g.members && g.requests[..|g.members|] == g.requests;
  }

  lemma {:induction false} ServedContribute(st: State, gs: seq<Group>)
    requires Known(st, st.queue) && AllLand(st, gs)
    ensures Known(st, Served(gs)) && Contributions(st, Served(gs)) == Ops(Applied(gs))
    decreases |gs|
  {
    if gs != [] {
      var front, g := gs[..|gs| - 1], gs[|gs| - 1];
      ServedContribute(st, front);
      assert Lands(st, g);
      GroupContributes(st, g);
      ContributionsConcat(st, Served(front), g.members);
      OpsConcat(Applied(front), AppliedOf(g));
    }
  }

  lemma {:induction false} FailedContributeNothing(st: State, ws: seq<nat>)
    requires Known(st, st.queue) && Known(st, ws) && forall i :: 0 <= i < |ws| ==> !Succeeded(st, ws[i])
    ensures Contributions(st, ws) == []
    decreases |ws|
  {
    if ws != [] {
      FailedContributeNothing(st, ws[..|ws| - 1]);
    }
  }

  lemma PoppedLands(st: State, g: Group)
    requires Known(st, st.queue) && GroupServed(st.writers, g) && forall i :: 0 <= i < |g.members| ==> g.members[i] !in st.queue
    ensures Lands(st, g)
  {
    forall k | 0 <= k < |g.members|
      ensures Succeeded(st, g.members[k]) <==> g.ok
    {
      assert Told(st.writers[g.members[k]], g.ok);
    }
  }

  lemma GroupsLand(st: State)
    requires Inv(st)
    ensures AllLand(st, Groups(st)) && st.mem == Applied(Groups(st))
  {
    forall i | 0 <= i < |st.groups|
      ensures Lands(st, st.groups[i])
    {
      GroupLands(st, i);
    }
    if Flying(st) > 0 {
      FlyingLands(st);
      var g := Groups(st)[|st.groups|];
      assert Groups(st) == st.groups + [g] && Groups(st)[..|st.groups|] == st.groups;
    }
  }

  lemma GroupLands(st: State, i: nat)
    requires Inv(st) && i < |st.groups|
    ensures Lands(st, st.groups[i])
  {
    assert GroupServed(st.writers, st.groups[i]);
    forall k | 0 <= k < |st.groups[i].members|
      ensures st.groups[i].members[k] !in st.queue
    {
      MemberNotQueued(st, i, k);
    }
    PoppedLands(st, st.groups[i]);
  }

  lemma FlyingLands(st: State)
    requires Known(st, st.queue) && Flying(st) > 0
    ensures |Groups(st)| == |st.groups| + 1 && Lands(st, Groups(st)[|st.groups|])
    ensures AppliedOf(Groups(st)[|st.groups|]) == InFlight(st)
  {
    var n := Flying(st);
    forall k | 0 <= k < n
      ensures st.queue[k] in st.queue[..n]
    {
      assert st.queue[..n][k] == st.queue[k];
    }
  }

  /** Arrivals are those served or in flight, and then those whose batch is nowhere yet. */
  lemma ArrivalsSplit(st: State)
    requires Inv(st)
    ensures Flying(st) <= |st.queue| && st.arrivals == Served(Groups(st)) + st.queue[Flying(st)..]
  {
    var n := Flying(st);
    if n > 0 {
      assert Groups(st)[..|st.groups|] == st.groups;
      Regroup(Served(st.groups), st.queue, n);
    } else {
      assert st.queue[0..] == st.queue;
    }
  }

  lemma QueuedNotSucceeded(st: State)
    requires Inv(st)
    ensures Flying(st) <= |st.queue|
    ensures forall i :: Flying(st) <= i < |st.queue| ==> !Succeeded(st, st.queue[i])
  {
    QueueDistinct(st);
  }

  /** The memtable is exactly the batches of the successful writers, in order of arrival, each once: arrivals are distinct
      and are all the writers there are. Nothing of a failed or unserved writer is in it. */
  lemma MemTableIsSuccesses(states: seq<State>, steps: seq<Step>, i: nat)
    requires Run(states, steps) && i < |states|
    ensures var st := states[i];
            && Distinct(st.arrivals) && (forall w :: w in st.writers <==> w in st.arrivals)
            && Known(st, st.queue) && Known(st, st.arrivals) && Ops(st.mem) == Contributions(st, st.arrivals)
  {
    RunKeepsInv(states, steps, i);
    StateIsSuccesses(states[i]);
  }

  lemma StateIsSuccesses(st: State)
    requires Inv(st)
    ensures Known(st, st.arrivals) && Ops(st.mem) == Contributions(st, st.arrivals)
  {
    GroupsLand(st);
    ArrivalsSplit(st);
    QueuedNotSucceeded(st);
    SplitContributes(st, Groups(st), st.queue[Flying(st)..]);
  }

  lemma SplitContributes(st: State, gs: seq<Group>, rest: seq<nat>)
    requires Known(st, st.queue) && AllLand(st, gs) && Known(st, rest) && forall i :: 0 <= i < |rest| ==> !Succeeded(st, rest[i])
    ensures Known(st, Served(gs) + rest) && Contributions(st, Served(gs) + rest) == Ops(Applied(gs))
  {
    ServedContribute(st, gs);
    FailedContributeNothing(st, rest);
    ContributionsConcat(st, Served(gs), rest);
  }

  /** Where the stretch of the a-th writer to arrive starts in the memtable. */
  ghost function Start(st: State, a: nat): nat
    requires Known(st, st.queue) && Known(st, st.arrivals) && a <= |st.arrivals|
  {
    |Contributions(st, st.arrivals[..a])|
  }

  /** Entries `es` hold the batch at consecutive sequence numbers starting somewhere. */
  ghost predicate HoldsBatch(es: seq<(nat, Op)>, ops: Batch, at: nat) {
    at + |ops| <= |es| && forall i {:trigger ops[i]} :: 0 <= i < |ops| ==> es[at + i] == (es[at].0 + i, ops[i])
  }

  lemma {:induction false} StartsIncrease(st: State, a: nat, b: nat)
    requires Known(st, st.queue) && Known(st, st.arrivals) && a <= b <= |st.arrivals|
    ensures Start(st, a) <= Start(st, b)
    decreases b
  {
    if a < b {
      StartsIncrease(st, a, b - 1);
      assert st.arrivals[..b][..b - 1] == st.arrivals[..b - 1];
    }
  }

  lemma StartsChain(st: State, a: nat, b: nat)
    requires Known(st, st.queue) && Known(st, st.arrivals) && a < b <= |st.arrivals| && Ops(st.mem) == Contributions(st, st.arrivals)
    ensures Start(st, a) <= Start(st, a + 1) <= Start(st, b) <= Start(st, |st.arrivals|) == |st.mem|
    ensures Start(st, a + 1) == Start(st, a) + |Contribution(st, st.arrivals[a])|
  {
    assert st.arrivals[..|st.arrivals|] == st.arrivals;
    StartsIncrease(st, a, a + 1);
    StartsIncrease(st, a + 1, b);
    StartsIncrease(st, b, |st.arrivals|);
    assert st.arrivals[..a + 1][..a] == st.arrivals[..a];
  }

  /** Each writer owns its own stretch of the memtable: the a-th to arrive the one from Start(a) to Start(a + 1). Stretches
      follow order of arrival, fill the memtable, are empty for a writer that has not succeeded, and for one that has
      they hold its batch at consecutive sequence numbers. */
  lemma WritersOwnStretches(states: seq<State>, steps: seq<Step>, i: nat, a: nat, b: nat)
    requires Run(states, steps) && i < |states| && a < b <= |states[i].arrivals|
    ensures var st := states[i];
            && Known(st, st.queue) && Known(st, st.arrivals)
            && Start(st, a) <= Start(st, a + 1) <= Start(st, b) <= Start(st, |st.arrivals|) == |st.mem|
            && var w := st.arrivals[a];
               && Start(st, a + 1) == Start(st, a) + |Contribution(st, w)|
               && (Succeeded(st, w) && st.writers[w].request.batch.Some? ==> HoldsBatch(st.mem, st.writers[w].request.batch.value, Start(st, a)))
  {
    RunKeepsInv(states, steps, i);
    var st := states[i];
    StateIsSuccesses(st);
    StartsChain(st, a, b);
    if Succeeded(st, st.arrivals[a]) && st.writers[st.arrivals[a]].request.batch.Some? {
      OwnerHolds(st, a);
    }
  }

  lemma OwnerHolds(st: State, a: nat)
    requires Inv(st) && Known(st, st.arrivals) && a < |st.arrivals|
    requires Succeeded(st, st.arrivals[a]) && st.writers[st.arrivals[a]].request.batch.Some?
    ensures HoldsBatch(st.mem, st.writers[st.arrivals[a]].request.batch.value, Start(st, a))
  {
    var gs := Groups(st);
    ArrivalsSplit(st);
    if a >= |Served(gs)| {
      UnservedFails(st, a);
    }
    assert Served(gs)[..a] == st.arrivals[..a];
    GroupsLand(st);
    ServedContribute(st, gs);
    GroupsNumbered(st, gs, a, st.writers[st.arrivals[a]].request.batch.value);
  }

  lemma UnservedFails(st: State, a: nat)
    requires Inv(st) && Known(st, st.arrivals) && |Served(Groups(st))| <= a < |st.arrivals|
    ensures !Succeeded(st, st.arrivals[a])
  {
    ArrivalsSplit(st);
    QueuedNotSucceeded(st);
    TailAt(st.arrivals, Served(Groups(st)), st.queue, Flying(st), a);
  }

  lemma TailAt(all: seq<nat>, s: seq<nat>, q: seq<nat>, n: nat, a: nat)
    requires n <= |q| && all == s + q[n..] && |s| <= a < |all|
    ensures n <= n + a - |s| < |q| && all[a] == q[n + a - |s|]
  {
  }

  lemma {:induction false} GroupsNumbered(st: State, gs: seq<Group>, a: nat, b: Batch)
    requires Known(st, st.queue) && AllLand(st, gs) && a < |Served(gs)| && Known(st, Served(gs))
    requires Succeeded(st, Served(gs)[a]) && st.writers[Served(gs)[a]].request.batch == Some(b)
    ensures HoldsBatch(Applied(gs), b, |Contributions(st, Served(gs)[..a])|)
    decreases |gs|
  {
    var front, g := gs[..|gs| - 1], gs[|gs| - 1];
    LastGroup(gs, front, g);
    FrontLands(st, gs, front, g);
    Prefix(Served(front), g.members, a);
    if a < |Served(front)| {
      GroupsNumbered(st, front, a, b);
      FrontNumbered(st, front, g, a, b);
    } else {
      LastGroupNumbered(st, front, g, a - |Served(front)|, b);
    }
  }

  lemma FrontNumbered(st: State, front: seq<Group>, g: Group, a: nat, b: Batch)
    requires Known(st, st.queue) && Known(st, Served(front)) && a < |Served(front)|
    requires HoldsBatch(Applied(front), b, |Contributions(st, Served(front)[..a])|)
    ensures (Served(front) + g.members)[..a] == Served(front)[..a]
    ensures HoldsBatch(Applied(front) + AppliedOf(g), b, |Contributions(st, (Served(front) + g.members)[..a])|)
  {
    HoldsLeft(Applied(front), AppliedOf(g), b, |Contributions(st, Served(front)[..a])|);
    assert (Served(front) + g.members)[..a] == Served(front)[..a];
  }

  lemma LastGroup(gs: seq<Group>, front: seq<Group>, g: Group)
    requires gs != [] && front == gs[..|gs| - 1] && g == gs[|gs| - 1]
    ensures gs == front + [g] && Served(gs) == Served(front) + g.members && Applied(gs) == Applied(front) + AppliedOf(g)
  {
  }

  lemma FrontLands(st: State, gs: seq<Group>, front: seq<Group>, g: Group)
    requires Known(st, st.queue) && AllLand(st, gs) && gs == front + [g] && Known(st, Served(front) + g.members)
    ensures AllLand(st, front) && Lands(st, g) && Known(st, Served(front))
  {
    assert gs[|front|] == g;
    assert forall i :: 0 <= i < |front| ==> front[i] == gs[i];
    var all := Served(front) + g.members;
    assert forall i :: 0 <= i < |Served(front)| ==> Served(front)[i] == all[i];
  }

  lemma Prefix(x: seq<nat>, y: seq<nat>, a: nat)
    requires a < |x + y|
    ensures a < |x| ==> (x + y)[..a] == x[..a] && (x + y)[a] == x[a]
    ensures a >= |x| ==> (x + y)[..a] == x + y[..a - |x|] && (x + y)[a] == y[a - |x|]
  {
  }

  lemma LastGroupNumbered(st: State, front: seq<Group>, g: Group, k: nat, b: Batch)
    requires Known(st, st.queue) && AllLand(st, front) && Lands(st, g) && k < |g.members| && Known(st, Served(front))
    requires Succeeded(st, g.members[k]) && g.requests[k].batch == Some(b)
    ensures Known(st, Served(front) + g.members[..k])
    ensures HoldsBatch(Applied(front) + AppliedOf(g), b, |Contributions(st, Served(front) + g.members[..k])|)
  {
    GroupLogged(st, g, k);
    HeldAfter(Applied(front), g, k, b, |OpsOf(g.requests[..k])|);
    LastGroupStarts(st, front, g, k);
  }

  lemma HeldAfter(es: seq<(nat, Op)>, g: Group, k: nat, b: Batch, at: nat)
    requires g.ok && g.logged && k < |g.requests| && g.requests[k].batch == Some(b) && at == |OpsOf(g.requests[..k])|
    ensures HoldsBatch(es + AppliedOf(g), b, |es| + at)
  {
    RequestHeld(g, k, b);
    HoldsRight(es, AppliedOf(g), b, at);
  }

  lemma LastGroupStarts(st: State, front: seq<Group>, g: Group, k: nat)
    requires Known(st, st.queue) && AllLand(st, front) && Lands(st, g) && k < |g.members| && g.ok && g.logged && Known(st, Served(front))
    ensures Known(st, Served(front) + g.members[..k])
    ensures |Contributions(st, Served(front) + g.members[..k])| == |Applied(front)| + |OpsOf(g.requests[..k])|
  {
    ServedContribute(st, front);
    MembersContribute(st, g, k);
    ContributionsConcat(st, Served(front), g.members[..k]);
  }

  lemma GroupLogged(st: State, g: Group, k: nat)
    requires Known(st, st.queue) && Lands(st, g) && k < |g.members| && Succeeded(st, g.members[k]) && g.requests[k].batch.Some?
    ensures g.ok && g.logged
  {
  }

  lemma RequestHeld(g: Group, k: nat, b: Batch)
    requires g.ok && g.logged && k < |g.requests| && g.requests[k].batch == Some(b)
    ensures HoldsBatch(AppliedOf(g), b, |OpsOf(g.requests[..k])|)
  {
    var ops, at := OpsOf(g.requests), |OpsOf(g.requests[..k])|;
    OpsHoldRequest(g.requests, k);
    NumberedHolds(ops, g.base, b, at);
    assert AppliedOf(g) == Numbered(ops, g.base + 1);
  }

  lemma {:induction false} OpsHoldRequest(rs: seq<Request>, k: nat)
    requires k < |rs| && rs[k].batch.Some?
    ensures |OpsOf(rs[..k])| + |rs[k].batch.value| <= |OpsOf(rs)|
    ensures OpsOf(rs)[|OpsOf(rs[..k])|..|OpsOf(rs[..k])| + |rs[k].batch.value|] == rs[k].batch.value
    decreases |rs|
  {
    var front, at := rs[..|rs| - 1], |OpsOf(rs[..k])|;
    if k < |rs| - 1 {
      OpsHoldRequest(front, k);
      assert front[..k] == rs[..k];
      assert OpsOf(rs)[at..at + |rs[k].batch.value|] == OpsOf(front)[at..at + |rs[k].batch.value|];
    }
  }

  lemma NumberedHolds(ops: Batch, base: nat, b: Batch, at: nat)
    requires at + |b| <= |ops| && ops[at..at + |b|] == b
    ensures HoldsBatch(Numbered(ops, base + 1), b, at)
  {
    forall i | 0 <= i < |b|
      ensures ops[at + i] == b[i]
    {
      assert ops[at..at + |b|][i] == b[i];
    }
  }

  lemma HoldsLeft(es: seq<(nat, Op)>, more: seq<(nat, Op)>, b: Batch, at: nat)
    requires HoldsBatch(es, b, at)
    ensures HoldsBatch(es + more, b, at)
  {
  }

  lemma HoldsRight(es: seq<(nat, Op)>, more: seq<(nat, Op)>, b: Batch, at: nat)
    requires HoldsBatch(more, b, at)
    ensures HoldsBatch(es + more, b, |es| + at)
  {
    forall i | 0 <= i < |b|
      ensures (es + more)[|es| + at + i] == (more[at].0 + i, b[i])
    {
    }
  }

  lemma {:induction false} AppliedIncreasing(gs: seq<Group>, last: nat)
    requires NumberedUpTo(gs, last)
    ensures forall i :: 0 <= i < |Applied(gs)| ==> 1 <= Applied(gs)[i].0 <= last
    ensures forall i, j :: 0 <= i < j < |Applied(gs)| ==> Applied(gs)[i].0 < Applied(gs)[j].0
    decreases |gs|
  {
    if gs != [] {
      var g, front := gs[|gs| - 1], gs[..|gs| - 1];
      AppliedIncreasing(front, if g.logged then g.base else last);
    }
  }

  /** Sequence numbers in the memtable strictly increase, so in order of arrival too, and only those of the group in
      flight are past the last published one. */
  lemma NumbersIncrease(states: seq<State>, steps: seq<Step>, i: nat)
    requires Run(states, steps) && i < |states|
    ensures var st := states[i];
            && (forall a, b :: 0 <= a < b < |st.mem| ==> st.mem[a].0 < st.mem[b].0)
            && Known(st, st.queue) && (Flying(st) == 0 ==> forall a :: 0 <= a < |st.mem| ==> 1 <= st.mem[a].0 <= st.lastSequence)
  {
    RunKeepsInv(states, steps, i);
    var st := states[i];
    GroupsLand(st);
    if Flying(st) == 0 {
      AppliedIncreasing(st.groups, st.lastSequence);
    } else {
      var g := Groups(st)[|st.groups|];
      NumbersSnoc(st.groups, g, st.lastSequence, st.lastSequence + |OpsOf(g.requests)|);
      AppliedIncreasing(Groups(st), st.lastSequence + |OpsOf(g.requests)|);
    }
  }

  /** How many operations the logged groups have, failed ones included. */
  ghost function LoggedOps(gs: seq<Group>): nat {
    if gs == [] then 0 else LoggedOps(gs[..|gs| - 1]) + if gs[|gs| - 1].logged then |OpsOf(gs[|gs| - 1].requests)| else 0
  }

  lemma {:induction false} NumberedIsCount(gs: seq<Group>, last: nat, i: nat)
    requires NumberedUpTo(gs, last) && i <= |gs|
    ensures last == LoggedOps(gs)
    ensures i < |gs| && gs[i].logged ==> gs[i].base == LoggedOps(gs[..i])
    decreases |gs|
  {
    if gs != [] {
      var g, front := gs[|gs| - 1], gs[..|gs| - 1];
      var j := if i < |front| then i else |front|;
      NumberedIsCount(front, if g.logged then g.base else last, j);
      assert gs[..j] == front[..j] && front[..|front|] == front;
    }
  }

  /** No number is skipped or used twice: the last sequence number is the number of operations logged so far, and each
      logged group starts where the groups before it ended. */
  lemma NumbersRunOn(states: seq<State>, steps: seq<Step>, i: nat, g: nat)
    requires Run(states, steps) && i < |states| && g <= |states[i].groups|
    ensures states[i].lastSequence == LoggedOps(states[i].groups)
    ensures g < |states[i].groups| && states[i].groups[g].logged ==> states[i].groups[g].base == LoggedOps(states[i].groups[..g])
  {
    RunKeepsInv(states, steps, i);
    NumberedIsCount(states[i].groups, states[i].lastSequence, g);
  }

  /** A sync write is only ever logged by a leader that syncs. */
  lemma SyncIsSynced(st: State, g: nat, k: nat)
    requires Inv(st) && g < |st.groups| && k < |st.groups[g].members|
    requires st.groups[g].logged && st.writers[st.groups[g].members[k]].request.sync
    ensures st.writers[st.groups[g].members[0]].request.sync
  {
    var group := st.groups[g];
    assert GroupServed(st.writers, group);
    assert group.requests[k].sync;
  }
}

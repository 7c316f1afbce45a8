/** The engine as a state machine: writes, memtable switches, flushes, moves, compactions, snapshots and
    reopenings after a crash, in any order. A step keeps the invariant if and only if it is safe, and after safe
    steps every read of a live snapshot answers as the history of writes does. */
module Engine {
  import opened Keys
  import opened Meaning
  import opened Versions
  import opened Inputs
  import opened Compaction
  import opened VersionSteps
  import opened WriteBatch

  /** `memLog` and `immLog` are the records of the log files behind the two memtables. `history` and `floor` are
      auxiliary: every entry ever written, and the largest smallest_snapshot any compaction has used. */
  datatype State = State(
    mem: seq<Entry>, imm: Option<seq<Entry>>, memLog: seq<seq<Entry>>, immLog: seq<seq<Entry>>, version: Version,
    lastSequence: SeqNum, nextFile: nat, snapshots: seq<SeqNum>, history: set<Entry>, floor: SeqNum)

  datatype Step =
    | Write(ops: seq<Op>)
    | SwitchMemTable
    | Flush(f: File, level: nat)
    | FlushEmpty
    | Move(f: File, level: nat)
    | Compact(level: nat, in0: Level, in1: Level, stream: seq<Entry>, outs: Level)
    | TakeSnapshot
    | ReleaseSnapshot(i: nat)
    | Reopen(cuts: seq<nat>, tables: Level)

  // ----- steps

  /** MemTableInserter: consecutive sequence numbers in batch order. */
  function OpEntry(op: Op, s: SeqNum): Entry {
    match op
    case Put(k, v) => Entry(InternalKey(k, s, TYPE_VALUE), v)
    case Delete(k) => Entry(InternalKey(k, s, TYPE_DELETION), [])
  }

  function BatchEntries(ops: seq<Op>, last: SeqNum): (r: seq<Entry>)
    requires last + |ops| <= MAX_SEQUENCE
    ensures |r| == |ops|
    ensures forall i :: 0 <= i < |ops| ==> r[i] == OpEntry(ops[i], last + 1 + i)
  {
    if ops == [] then []
    else BatchEntries(ops[..|ops| - 1], last) + [OpEntry(ops[|ops| - 1], last + |ops|)]
  }

  ghost function ImmEntries(st: State): set<Entry> { if st.imm.Some? then Elements(st.imm.value) else {} }
  ghost function MemEntries(st: State): set<Entry> { Elements(st.mem) + ImmEntries(st) }
  ghost function Contents(st: State): set<Entry> { MemEntries(st) + VersionEntries(st.version) }

  /** DoCompactionWork: the oldest snapshot, or the last sequence number when there is none. */
  function SmallestSnapshot(st: State): SeqNum { if st.snapshots == [] then st.lastSequence else st.snapshots[0] }

  ghost predicate WriteStep(st: State, ops: seq<Op>, st': State) {
    && st.lastSequence + |ops| < MAX_SEQUENCE
    && SortedRun(st'.mem)
    && var batch := BatchEntries(ops, st.lastSequence);
       && Elements(st'.mem) == Elements(st.mem) + Elements(batch)
       && st' == st.(mem := st'.mem, memLog := st.memLog + [batch], lastSequence := st.lastSequence + |ops|,
                     history := st.history + Elements(batch))
  }

  ghost predicate SwitchStep(st: State, st': State) {
    st.imm == None && st' == st.(mem := [], imm := Some(st.mem), memLog := [], immLog := st.memLog)
  }

  /** WriteLevel0Table and LogAndApply of its edit. */
  ghost predicate FlushesTo(st: State, f: File, level: nat, st': State) {
    && st.imm.Some? && st.imm.value != []
    && f.entries == st.imm.value && Bounded(f) && f.number == st.nextFile
    && FlushStep(st.version, st'.version, f, level)
    && st' == st.(imm := None, immLog := [], version := st'.version, nextFile := st.nextFile + 1)
  }

  ghost predicate FlushEmptyStep(st: State, st': State) {
    st.imm == Some([]) && st' == st.(imm := None, immLog := [], nextFile := st.nextFile + 1)
  }

  ghost predicate MoveStep(st: State, f: File, level: nat, st': State) {
    && CompactStep(st.version, st'.version, level, [f], [], [f])
    && st' == st.(version := st'.version)
  }

  ghost predicate CompactionStep(st: State, level: nat, in0: Level, in1: Level, stream: seq<Entry>, outs: Level, st': State) {
    && CompactStep(st.version, st'.version, level, in0, in1, outs)
    && Compacted(st.version, level, in0, in1, stream, SmallestSnapshot(st), outs)
    && Outputs(outs, st.nextFile)
    && st' == st.(version := st'.version, nextFile := st.nextFile + |outs|, floor := SmallestSnapshot(st))
  }

  ghost function Recorded(log: seq<seq<Entry>>): set<Entry> { set i, e | 0 <= i < |log| && e in log[i] :: e }

  /** The logs that recovery replays, oldest record first. */
  function Logs(st: State): seq<seq<Entry>> { st.immLog + st.memLog }

  /** Where recovery cuts the n records that it replays. */
  ghost predicate Cuts(cuts: seq<nat>, n: nat) {
    && |cuts| > 0 && cuts[0] == 0 && cuts[|cuts| - 1] <= n
    && forall i, j :: 0 <= i < j < |cuts| ==> cuts[i] <= cuts[j]
  }

  /** RecoverLogFile: table i holds the records from one cut to the next. */
  ghost predicate Replays(log: seq<seq<Entry>>, cuts: seq<nat>, tables: Level) {
    && Cuts(cuts, |log|) && |tables| == |cuts| - 1
    && (forall i :: 0 <= i < |tables| ==> Bounded(tables[i]) && SortedRun(tables[i].entries))
    && forall i :: 0 <= i < |tables| ==> Elements(tables[i].entries) == Recorded(log[cuts[i]..cuts[i + 1]])
  }

  /** A crash and DB::Open: the manifest gives the version back, each memtable's worth of records becomes a level-0
      table with a fresh number, and the records after the last cut stay in their log, which is reused. Snapshots are
      gone. A record whose batch was never applied counts as written before the crash. */
  ghost predicate ReopenStep(st: State, cuts: seq<nat>, tables: Level, st': State) {
    && Replays(Logs(st), cuts, tables) && Outputs(tables, st.nextFile)
    && SortedRun(st'.mem) && Elements(st'.mem) == Recorded(Logs(st)[cuts[|cuts| - 1]..])
    && |st'.version| == |st.version| > 0 && (forall l :: 0 < l < |st.version| ==> st'.version[l] == st.version[l])
    && Installs(st.version[0], {}, FileSet(tables), st'.version[0])
    && st' == st.(mem := st'.mem, imm := None, memLog := Logs(st)[cuts[|cuts| - 1]..], immLog := [], version := st'.version,
                  nextFile := st.nextFile + |tables|, snapshots := [])
  }

  ghost predicate Next(st: State, step: Step, st': State) {
    match step
    case Write(ops) => WriteStep(st, ops, st')
    case SwitchMemTable => SwitchStep(st, st')
    case Flush(f, level) => FlushesTo(st, f, level, st')
    case FlushEmpty => FlushEmptyStep(st, st')
    case Move(f, level) => MoveStep(st, f, level, st')
    case Compact(level, in0, in1, stream, outs) => CompactionStep(st, level, in0, in1, stream, outs, st')
    case TakeSnapshot => st' == st.(snapshots := st.snapshots + [st.lastSequence])
    case ReleaseSnapshot(i) => i < |st.snapshots| && st' == st.(snapshots := st.snapshots[..i] + st.snapshots[i + 1..])
    case Reopen(cuts, tables) => ReopenStep(st, cuts, tables, st')
  }

  /** What a step needs to be harmless, read off the state before it. A moved file must not share its last user key with
      the next file of its level. Of a compaction, every key split out of the inputs has a droppable marker as its
      newest input entry, and no dropped marker hides a value outside the inputs. */
  ghost predicate Safe(st: State, step: Step) {
    match step
    case Move(f, level) => level == 0 || (level < |st.version| && SplitFree(st.version[level], {f}))
    case Compact(level, in0, in1, stream, outs) =>
      && level < |st.version| && SplitsDropped(st.version, level, in0, stream, SmallestSnapshot(st))
      && forall k :: HidesNothing(st.version, level, in0, in1, stream, SmallestSnapshot(st), MemEntries(st), k)
    case _ => true
  }

  const EMPTY_VERSION: Version := [[], [], [], [], [], [], []]

  function Initial(): State { State([], None, [], [], EMPTY_VERSION, 0, 2, [], {}, 0) }

  ghost predicate Run(states: seq<State>, steps: seq<Step>) {
    && |states| == |steps| + 1 && states[0] == Initial()
    && forall i :: 0 <= i < |steps| ==> Next(states[i], steps[i], states[i + 1])
  }

  /** The first n steps of a run are safe. */
  ghost predicate SafeSteps(states: seq<State>, steps: seq<Step>, n: nat)
    requires n <= |steps| && n <= |states|
  {
    forall i :: 0 <= i < n ==> Safe(states[i], steps[i])
  }

  // ----- invariant

  ghost predicate UpTo(es: set<Entry>, s: SeqNum) { forall e :: e in es ==> e.key.seqno <= s }

  ghost predicate NumbersBelow(v: Version, n: nat) {
    forall l, f :: 0 <= l < |v| && f in v[l] ==> f.number < n
  }

  /** A file number names one file, at one level. */
  ghost predicate OneHome(v: Version) {
    forall l, m, f, g {:trigger At(v, l, f), At(v, m, g)} :: At(v, l, f) && At(v, m, g) && f.number == g.number ==> l == m && f == g
  }

  ghost predicate At(v: Version, l: nat, f: File) { l < |v| && f in v[l] }

  ghost predicate SnapshotsOk(st: State) {
    && st.floor <= st.lastSequence
    && (forall i :: 0 <= i < |st.snapshots| ==> st.floor <= st.snapshots[i] <= st.lastSequence)
    && (forall i, j :: 0 <= i < j < |st.snapshots| ==> st.snapshots[i] <= st.snapshots[j])
  }

  ghost predicate MemTablesOk(st: State) {
    && SortedRun(st.mem) && AllWellFormed(st.mem)
    && (st.imm.Some? ==> SortedRun(st.imm.value) && AllWellFormed(st.imm.value))
    && AllNewer(Elements(st.mem), ImmEntries(st))
    && AllNewer(MemEntries(st), VersionEntries(st.version))
  }

  ghost predicate RecordsIncrease(log: seq<seq<Entry>>) {
    forall i, j :: 0 <= i < j < |log| ==> AllNewer(Elements(log[j]), Elements(log[i]))
  }

  /** The logs hold the memtables, later records newer. */
  ghost predicate LogsOk(st: State) {
    && Recorded(st.memLog) == Elements(st.mem) && Recorded(st.immLog) == ImmEntries(st)
    && RecordsIncrease(st.memLog) && RecordsIncrease(st.immLog)
  }

  /** The engine's contents answer every question at or above the floor as the whole history does. */
  ghost predicate SameMeaning(es: set<Entry>, history: set<Entry>, floor: SeqNum) {
    forall k, s: SeqNum :: floor <= s ==> Lookup(es, k, s) == Lookup(history, k, s)
  }

  ghost predicate Inv(st: State) {
    && VersionOk(st.version) && SortedBySmallest(st.version[0]) && NumbersBelow(st.version, st.nextFile) && OneHome(st.version)
    && MemTablesOk(st) && LogsOk(st) && SnapshotsOk(st) && st.lastSequence < MAX_SEQUENCE
    && Contents(st) <= st.history && UpTo(st.history, st.lastSequence) && Unique(st.history)
    && SameMeaning(Contents(st), st.history, st.floor)
  }

  lemma EmptyVersionOk()
    ensures VersionOk(EMPTY_VERSION) && SortedBySmallest(EMPTY_VERSION[0]) && OneHome(EMPTY_VERSION) && VersionEntries(EMPTY_VERSION) == {}
  {
    var v := EMPTY_VERSION;
    assert forall i :: 0 <= i < |v| ==> v[i] == [];
  }

  lemma InitialInv()
    ensures Inv(Initial())
  {
    EmptyVersionOk();
    var st := Initial();
    assert forall i :: 0 <= i < |st.version| ==> st.version[i] == [];
    assert MemEntries(st) == {} && Contents(st) == {};
  }

  // ----- write

  lemma BatchFacts(ops: seq<Op>, last: SeqNum, old_: set<Entry>)
    requires last + |ops| <= MAX_SEQUENCE && UpTo(old_, last)
    ensures Unique(Elements(BatchEntries(ops, last)))
    ensures UpTo(Elements(BatchEntries(ops, last)), last + |ops|)
    ensures AllNewer(Elements(BatchEntries(ops, last)), old_)
    ensures AllWellFormed(BatchEntries(ops, last))
  {
  }

  lemma WriteKeepsMeaning(es: set<Entry>, history: set<Entry>, batch: set<Entry>, floor: SeqNum)
    requires SameMeaning(es, history, floor) && Unique(es) && Unique(history) && Unique(batch)
    requires AllNewer(batch, es) && AllNewer(batch, history)
    ensures SameMeaning(batch + es, batch + history, floor)
  {
    forall k, s: SeqNum | floor <= s
      ensures Lookup(batch + es, k, s) == Lookup(batch + history, k, s)
    {
      SameOnTop(batch, es, history, k, s);
    }
  }

  lemma SameOnTop(batch: set<Entry>, es: set<Entry>, history: set<Entry>, k: UserKey, s: SeqNum)
    requires Unique(es) && Unique(history) && Unique(batch) && AllNewer(batch, es) && AllNewer(batch, history)
    requires Lookup(es, k, s) == Lookup(history, k, s)
    ensures Lookup(batch + es, k, s) == Lookup(batch + history, k, s)
  {
    LayeredRead(batch, es, k, s);
    LayeredRead(batch, history, k, s);
  }

  lemma WriteMemTables(st: State, batch: set<Entry>, mem': seq<Entry>)
    requires MemTablesOk(st) && SortedRun(mem') && Elements(mem') == Elements(st.mem) + batch
    requires forall e :: e in batch ==> e.key.WellFormed()
    requires AllNewer(batch, Contents(st))
    ensures MemTablesOk(st.(mem := mem'))
  {
    forall e | e in mem'
      ensures e.key.WellFormed()
    {
      assert e in Elements(mem');
    }
    var st' := st.(mem := mem');
    assert ImmEntries(st') == ImmEntries(st);
  }

  lemma RecordedSplit(log: seq<seq<Entry>>, k: nat)
    requires k <= |log|
    ensures Recorded(log) == Recorded(log[..k]) + Recorded(log[k..])
  {
    forall e | e in Recorded(log)
      ensures e in Recorded(log[..k]) + Recorded(log[k..])
    {
      var i :| 0 <= i < |log| && e in log[i];
      if i < k {
        assert log[..k][i] == log[i];
      } else {
        assert log[k..][i - k] == log[i];
      }
    }
  }

  lemma WriteLog(log: seq<seq<Entry>>, batch: seq<Entry>)
    requires RecordsIncrease(log) && AllNewer(Elements(batch), Recorded(log))
    ensures RecordsIncrease(log + [batch]) && Recorded(log + [batch]) == Recorded(log) + Elements(batch)
  {
    var log' := log + [batch];
    RecordedSplit(log', |log|);
    assert log'[..|log|] == log && log'[|log|..] == [batch];
    assert [batch][0] == batch;
    assert Recorded([batch]) == Elements(batch);
    forall i | 0 <= i < |log|
      ensures AllNewer(Elements(batch), Elements(log[i]))
    {
      forall e | e in Elements(log[i])
        ensures e in Recorded(log)
      {
        assert e in log[i];
      }
    }
  }

  lemma WriteInv(st: State, ops: seq<Op>, st': State)
    requires Inv(st) && WriteStep(st, ops, st')
    ensures Inv(st')
  {
    var batch := Elements(BatchEntries(ops, st.lastSequence));
    BatchFacts(ops, st.lastSequence, st.history);
    assert AllNewer(batch, Contents(st));
    assert st' == st.(mem := st'.mem).(lastSequence := st'.lastSequence, history := st'.history, memLog := st'.memLog);
    WriteMemTables(st, batch, st'.mem);
    WriteLog(st.memLog, BatchEntries(ops, st.lastSequence));
    assert Contents(st') == batch + Contents(st);
    assert st'.history == batch + st.history;
    WriteKeepsMeaning(Contents(st), st.history, batch, st.floor);
    LayeredRead(batch, st.history, [], 0);
  }

  // ----- memtable switch and flush

  lemma SwitchInv(st: State, st': State)
    requires Inv(st) && SwitchStep(st, st')
    ensures Inv(st')
  {
    assert Contents(st') == Contents(st);
  }

  lemma FlushInv(st: State, f: File, level: nat, st': State)
    requires Inv(st) && FlushesTo(st, f, level, st')
    ensures Inv(st')
  {
    assert Elements(f.entries) == ImmEntries(st) <= MemEntries(st);
    FlushKeeps(st.version, st'.version, f, level);
    assert MemEntries(st) == Elements(st.mem) + Elements(f.entries);
    assert Contents(st') == Contents(st);
    FlushNumbers(st.version, st'.version, f, level, st.nextFile);
    FlushHomes(st.version, st'.version, f, level, st.nextFile);
  }

  lemma FlushNumbers(v: Version, v': Version, f: File, level: nat, n: nat)
    requires FlushStep(v, v', f, level) && NumbersBelow(v, n) && f.number == n
    ensures NumbersBelow(v', n + 1)
  {
    forall l, g | 0 <= l < |v'| && g in v'[l]
      ensures g.number < n + 1
    {
      assert g in v[l] || g == f;
    }
  }

  lemma FlushHomes(v: Version, v': Version, f: File, level: nat, n: nat)
    requires FlushStep(v, v', f, level) && NumbersBelow(v, n) && f.number == n && OneHome(v)
    ensures OneHome(v')
  {
    forall l, m, g, h | At(v', l, g) && At(v', m, h) && g.number == h.number
      ensures l == m && g == h
    {
      HomeAfterFlush(v, v', f, level, l, g);
      HomeAfterFlush(v, v', f, level, m, h);
      assert At(v, l, g) ==> g.number < n;
      assert At(v, m, h) ==> h.number < n;
    }
  }

  lemma HomeAfterFlush(v: Version, v': Version, f: File, level: nat, l: nat, g: File)
    requires FlushStep(v, v', f, level) && At(v', l, g)
    ensures At(v, l, g) || (l == level && g == f)
  {
  }

  lemma FlushEmptyInv(st: State, st': State)
    requires Inv(st) && FlushEmptyStep(st, st')
    ensures Inv(st')
  {
    assert Contents(st') == Contents(st);
  }

  // ----- move and compaction

  /** New numbers, and a file that only moves, keep every number at one level. */
  lemma CompactHomes(v: Version, v': Version, level: nat, in0: Level, in1: Level, outs: Level, n: nat)
    requires CompactStep(v, v', level, in0, in1, outs) && OneHome(v) && NumbersBelow(v, n)
    requires Outputs(outs, n) || (in0 == outs && |outs| == 1 && in1 == [])
    ensures OneHome(v')
  {
    forall l, m, f, g | At(v', l, f) && At(v', m, g) && f.number == g.number
      ensures l == m && f == g
    {
      HomeAfter(v, v', level, in0, in1, outs, l, f);
      HomeAfter(v, v', level, in0, in1, outs, m, g);
      if !Outputs(outs, n) {
        assert outs[0] in in0;
        assert At(v, level, outs[0]);
      } else {
        NewOrOld(v, outs, n, l, f);
        NewOrOld(v, outs, n, m, g);
      }
    }
  }

  lemma HomeAfter(v: Version, v': Version, level: nat, in0: Level, in1: Level, outs: Level, l: nat, f: File)
    requires CompactStep(v, v', level, in0, in1, outs) && At(v', l, f)
    ensures (At(v, l, f) && !(l == level && f in in0)) || (l == level + 1 && f in outs)
  {
  }

  lemma NewOrOld(v: Version, outs: Level, n: nat, l: nat, f: File)
    requires NumbersBelow(v, n) && Outputs(outs, n) && (At(v, l, f) || f in outs)
    ensures f in outs <==> f.number >= n
    ensures f in outs ==> f.number - n < |outs| && outs[f.number - n] == f
    ensures f !in outs ==> At(v, l, f)
  {
    if f in outs {
      var i :| 0 <= i < |outs| && outs[i] == f;
    }
  }

  lemma CompactNumbers(v: Version, v': Version, level: nat, in0: Level, in1: Level, outs: Level, n: nat, m: nat)
    requires CompactStep(v, v', level, in0, in1, outs) && NumbersBelow(v, n) && n <= m
    requires forall o :: o in outs ==> o.number < m
    ensures NumbersBelow(v', m)
  {
    forall l, g | 0 <= l < |v'| && g in v'[l]
      ensures g.number < m
    {
      assert g in v[l] || g in outs;
    }
  }

  lemma MovedFileIsOutput(v: Version, level: nat, f: File)
    requires Shaped(v) && GoodInputs(v, level, [f], [])
    ensures f in v[level] && OutputsOf([f], [], [f])
  {
    assert f in [f];
    assert f in v[level];
  }

  lemma MoveEntries(v: Version, v': Version, level: nat, f: File)
    requires CompactStep(v, v', level, [f], [], [f])
    ensures VersionEntries(v') == VersionEntries(v)
  {
    CompactEntries(v, v', level, [f], [], [f]);
    assert FilesEntries([]) == {};
  }

  lemma MoveKeeps(v: Version, v': Version, level: nat, f: File)
    requires VersionOk(v) && SortedBySmallest(v[0]) && CompactStep(v, v', level, [f], [], [f])
    ensures SortedBySmallest(v'[0])
    ensures VersionOk(v') <==> level == 0 || SplitFree(v[level], {f})
  {
    MovedFileIsOutput(v, level, f);
    CompactShaped(v, v', level, [f], [], [f]);
    MoveRecency(v, v', level, f);
  }

  /** A move keeps the invariant if and only if it is safe. */
  lemma MoveInv(st: State, f: File, level: nat, st': State)
    requires Inv(st) && MoveStep(st, f, level, st')
    ensures Inv(st') <==> Safe(st, Move(f, level))
  {
    MoveKeeps(st.version, st'.version, level, f);
    MoveEntries(st.version, st'.version, level, f);
    MoveFrame(st, f, level, st');
  }

  lemma MoveFrame(st: State, f: File, level: nat, st': State)
    requires Inv(st) && MoveStep(st, f, level, st') && VersionEntries(st'.version) == VersionEntries(st.version)
    ensures NumbersBelow(st'.version, st'.nextFile) && OneHome(st'.version) && MemTablesOk(st') && LogsOk(st') && SnapshotsOk(st')
    ensures Contents(st') == Contents(st)
  {
    assert MemEntries(st') == MemEntries(st) && ImmEntries(st') == ImmEntries(st);
    CompactHomes(st.version, st'.version, level, [f], [], [f], st.nextFile);
    MovedFileIsOutput(st.version, level, f);
    CompactNumbers(st.version, st'.version, level, [f], [], [f], st.nextFile, st.nextFile);
  }

  lemma MemEntriesUnique(st: State)
    requires MemTablesOk(st)
    ensures Unique(MemEntries(st))
  {
    SortedRunUnique(st.mem);
    if st.imm.Some? {
      SortedRunUnique(st.imm.value);
    }
    LayeredRead(Elements(st.mem), ImmEntries(st), [], 0);
  }

  ghost predicate SameFor(es: set<Entry>, history: set<Entry>, floor: SeqNum, k: UserKey) {
    forall s: SeqNum :: floor <= s ==> Lookup(es, k, s) == Lookup(history, k, s)
  }

  lemma SameByKey(es: set<Entry>, history: set<Entry>, floor: SeqNum)
    ensures SameMeaning(es, history, floor) <==> forall k :: SameFor(es, history, floor, k)
  {
    if forall k :: SameFor(es, history, floor, k) {
      forall k, s: SeqNum | floor <= s
        ensures Lookup(es, k, s) == Lookup(history, k, s)
      {
        assert SameFor(es, history, floor, k);
      }
    }
  }

  /** The answers stay those of the history if and only if no dropped marker hides a value elsewhere. */
  lemma CompactionMeaning(st: State, level: nat, in0: Level, in1: Level, stream: seq<Entry>, outs: Level, st': State)
    requires Inv(st) && CompactionStep(st, level, in0, in1, stream, outs, st')
    ensures SameMeaning(Contents(st'), st.history, st'.floor) <==>
            forall k :: HidesNothing(st.version, level, in0, in1, stream, SmallestSnapshot(st), MemEntries(st), k)
  {
    forall k
      ensures SameFor(Contents(st'), st.history, st'.floor, k)
              <==> HidesNothing(st.version, level, in0, in1, stream, SmallestSnapshot(st), MemEntries(st), k)
    {
      CompactionMeaningAt(st, level, in0, in1, stream, outs, st', k);
    }
    SameByKey(Contents(st'), st.history, st'.floor);
  }

  lemma CompactionMeaningAt(st: State, level: nat, in0: Level, in1: Level, stream: seq<Entry>, outs: Level, st': State, k: UserKey)
    requires Inv(st) && CompactionStep(st, level, in0, in1, stream, outs, st')
    ensures SameFor(Contents(st'), st.history, st'.floor, k)
            <==> HidesNothing(st.version, level, in0, in1, stream, SmallestSnapshot(st), MemEntries(st), k)
  {
    MemEntriesUnique(st);
    CompactionKeepsMeaning(st.version, st'.version, level, in0, in1, stream, SmallestSnapshot(st), outs, MemEntries(st), k);
    assert Contents(st') == MemEntries(st) + VersionEntries(st'.version);
    forall s: SeqNum | st'.floor <= s
      ensures Lookup(MemEntries(st) + VersionEntries(st.version), k, s) == Lookup(st.history, k, s)
    {
      assert Lookup(Contents(st), k, s) == Lookup(st.history, k, s);
    }
  }

  /** What a compaction keeps in any case. */
  lemma CompactionFrame(st: State, level: nat, in0: Level, in1: Level, outs: Level, st': State)
    requires Inv(st) && CompactStep(st.version, st'.version, level, in0, in1, outs) && Outputs(outs, st.nextFile)
    requires st' == st.(version := st'.version, nextFile := st.nextFile + |outs|, floor := SmallestSnapshot(st))
    requires VersionEntries(st'.version) <= VersionEntries(st.version)
    ensures NumbersBelow(st'.version, st'.nextFile) && OneHome(st'.version) && MemTablesOk(st') && LogsOk(st') && SnapshotsOk(st')
    ensures Contents(st') <= st'.history
  {
    CompactHomes(st.version, st'.version, level, in0, in1, outs, st.nextFile);
    assert MemEntries(st') == MemEntries(st) && ImmEntries(st') == ImmEntries(st);
    CompactNumbers(st.version, st'.version, level, in0, in1, outs, st.nextFile, st'.nextFile);
  }

  /** A compaction keeps the invariant if and only if it is safe. */
  lemma CompactionInv(st: State, level: nat, in0: Level, in1: Level, stream: seq<Entry>, outs: Level, st': State)
    requires Inv(st) && CompactionStep(st, level, in0, in1, stream, outs, st')
    ensures Inv(st') <==> Safe(st, Compact(level, in0, in1, stream, outs))
  {
    CompactionKeepsInvariant(st.version, st'.version, level, in0, in1, stream, SmallestSnapshot(st), outs);
    CompactionFrame(st, level, in0, in1, outs, st');
    CompactionVerdict(st, level, in0, in1, stream, outs, st');
  }

  lemma CompactionVerdict(st: State, level: nat, in0: Level, in1: Level, stream: seq<Entry>, outs: Level, st': State)
    requires Inv(st) && CompactionStep(st, level, in0, in1, stream, outs, st')
    requires SortedBySmallest(st'.version[0]) && NumbersBelow(st'.version, st'.nextFile) && OneHome(st'.version)
    requires VersionOk(st'.version) <==> SplitsDropped(st.version, level, in0, stream, SmallestSnapshot(st))
    requires MemTablesOk(st') && LogsOk(st') && SnapshotsOk(st') && Contents(st') <= st'.history
    ensures Inv(st') <==> Safe(st, Compact(level, in0, in1, stream, outs))
  {
    CompactionMeaning(st, level, in0, in1, stream, outs, st');
  }

  /** Inputs that split no user key are safe, whatever the stream. */
  lemma ClosedCompactionIsSafe(st: State, level: nat, in0: Level, in1: Level, stream: seq<Entry>, outs: Level, st': State)
    requires Inv(st) && CompactionStep(st, level, in0, in1, stream, outs, st') && KeyClosed(st.version, level, in0, in1)
    ensures Safe(st, Compact(level, in0, in1, stream, outs))
  {
    ClosedInputsAreSafe(st.version, level, in0, in1, stream, SmallestSnapshot(st), MemEntries(st));
  }

  // ----- snapshots

  lemma SnapshotInv(st: State, st': State)
    requires Inv(st) && st' == st.(snapshots := st'.snapshots) && SnapshotsOk(st')
    ensures Inv(st')
  {
    assert Contents(st') == Contents(st);
  }

  lemma ReleaseKeepsOrder(st: State, i: nat, st': State)
    requires SnapshotsOk(st) && i < |st.snapshots|
    requires st' == st.(snapshots := st.snapshots[..i] + st.snapshots[i + 1..])
    ensures SnapshotsOk(st')
  {
    var s, s' := st.snapshots, st'.snapshots;
    assert forall j :: 0 <= j < |s'| ==> s'[j] == s[if j < i then j else j + 1];
  }

  // ----- reopening

  lemma LogsIncrease(st: State)
    requires MemTablesOk(st) && LogsOk(st)
    ensures RecordsIncrease(Logs(st)) && Recorded(Logs(st)) == MemEntries(st)
  {
    var a, b, log := st.immLog, st.memLog, Logs(st);
    RecordedSplit(log, |a|);
    assert log[..|a|] == a && log[|a|..] == b;
    forall i, j | 0 <= i < j < |log|
      ensures AllNewer(Elements(log[j]), Elements(log[i]))
    {
      if i < |a| <= j {
        RecordIn(a, i);
        RecordIn(b, j - |a|);
      } else if j < |a| {
        assert AllNewer(Elements(a[j]), Elements(a[i]));
      } else {
        assert AllNewer(Elements(b[j - |a|]), Elements(b[i - |a|]));
      }
    }
  }

  lemma RecordIn(log: seq<seq<Entry>>, i: nat)
    requires i < |log|
    ensures Elements(log[i]) <= Recorded(log)
  {
    forall e | e in Elements(log[i])
      ensures e in Recorded(log)
    {
      assert e in log[i];
    }
  }

  /** Later stretches of the logs are newer. */
  lemma StretchNewer(log: seq<seq<Entry>>, a: nat, b: nat, c: nat, d: nat)
    requires RecordsIncrease(log) && a <= b <= c <= d <= |log|
    ensures AllNewer(Recorded(log[c..d]), Recorded(log[a..b]))
  {
    forall e, x | e in Recorded(log[c..d]) && x in Recorded(log[a..b]) && e.key.user == x.key.user
      ensures e.key.seqno > x.key.seqno
    {
      var j :| 0 <= j < |log[c..d]| && e in log[c..d][j];
      var i :| 0 <= i < |log[a..b]| && x in log[a..b][i];
      assert log[c..d][j] == log[c + j] && log[a..b][i] == log[a + i];
      assert e in Elements(log[c + j]) && x in Elements(log[a + i]);
    }
  }

  lemma {:induction false} TablesCover(log: seq<seq<Entry>>, cuts: seq<nat>, tables: Level, n: nat)
    requires Replays(log, cuts, tables) && n <= |tables|
    ensures FilesEntries(tables[..n]) == Recorded(log[..cuts[n]])
  {
    if n == 0 {
      assert log[..cuts[0]] == [];
    } else {
      TablesCover(log, cuts, tables, n - 1);
      var front := log[..cuts[n]];
      RecordedSplit(front, cuts[n - 1]);
      assert front[..cuts[n - 1]] == log[..cuts[n - 1]] && front[cuts[n - 1]..] == log[cuts[n - 1]..cuts[n]];
      assert tables[..n] == tables[..n - 1] + [tables[n - 1]];
      FilesSnoc(tables[..n - 1], tables[n - 1]);
    }
  }

  lemma FilesSnoc(fs: Level, f: File)
    ensures FilesEntries(fs + [f]) == FilesEntries(fs) + Elements(f.entries)
  {
    forall e | e in FilesEntries(fs) + Elements(f.entries)
      ensures e in FilesEntries(fs + [f])
    {
      if e in FilesEntries(fs) {
        var g :| g in fs && e in g.entries;
        assert g in fs + [f];
      } else {
        assert f in fs + [f];
      }
    }
  }

  /** The tables and the new memtable together hold what the memtables held. */
  lemma ReopenCovers(st: State, cuts: seq<nat>, tables: Level, st': State)
    requires MemTablesOk(st) && LogsOk(st) && ReopenStep(st, cuts, tables, st')
    ensures FilesEntries(tables) + Elements(st'.mem) == MemEntries(st)
  {
    var log, last := Logs(st), cuts[|cuts| - 1];
    LogsIncrease(st);
    RecordedSplit(log, last);
    TablesCover(log, cuts, tables, |tables|);
    assert tables[..|tables|] == tables;
  }

  ghost predicate TablesOrdered(tables: Level) {
    forall i, j :: 0 <= i < j < |tables| ==> FileNewer(tables[j], tables[i])
  }

  lemma ReplayedOrder(log: seq<seq<Entry>>, cuts: seq<nat>, tables: Level)
    requires RecordsIncrease(log) && Replays(log, cuts, tables)
    ensures TablesOrdered(tables)
    ensures AllNewer(Recorded(log[cuts[|cuts| - 1]..]), Recorded(log[..cuts[|cuts| - 1]]))
  {
    forall i, j | 0 <= i < j < |tables|
      ensures FileNewer(tables[j], tables[i])
    {
      StretchNewer(log, cuts[i], cuts[i + 1], cuts[j], cuts[j + 1]);
      SetsToFiles(tables[j], tables[i], Recorded(log[cuts[j]..cuts[j + 1]]), Recorded(log[cuts[i]..cuts[i + 1]]));
    }
    StretchNewer(log, 0, cuts[|cuts| - 1], cuts[|cuts| - 1], |log|);
    assert log[0..cuts[|cuts| - 1]] == log[..cuts[|cuts| - 1]] && log[cuts[|cuts| - 1]..|log|] == log[cuts[|cuts| - 1]..];
  }

  lemma SetsToFiles(f: File, g: File, es: set<Entry>, ds: set<Entry>)
    requires Elements(f.entries) == es && Elements(g.entries) == ds && AllNewer(es, ds)
    ensures FileNewer(f, g)
  {
    forall e, d | e in f.entries && d in g.entries && e.key.user == d.key.user
      ensures e.key.seqno > d.key.seqno
    {
      assert e in es && d in ds;
    }
  }

  lemma ReopenLevelZero(fs: Level, tables: Level, fs': Level, first: nat)
    requires NumbersOrder(fs) && Installs(fs, {}, FileSet(tables), fs') && Outputs(tables, first) && TablesOrdered(tables)
    requires forall g :: g in fs ==> g.number < first
    requires LevelNewer(tables, fs)
    ensures SortedBySmallest(fs') && NumbersOrder(fs')
  {
    forall f, g | f in fs' && g in fs' && f != g
      ensures f.number != g.number && (f.number > g.number ==> FileNewer(f, g))
    {
      if f in FileSet(tables) {
        var i :| 0 <= i < |tables| && tables[i] == f;
        if g in FileSet(tables) {
          var j :| 0 <= j < |tables| && tables[j] == g;
        }
      }
    }
  }

  lemma ReopenVersion(v: Version, tables: Level, v': Version, first: nat)
    requires VersionOk(v) && NumbersBelow(v, first) && FilesOk(tables) && Outputs(tables, first) && TablesOrdered(tables)
    requires |v'| == |v| && (forall l :: 0 < l < |v| ==> v'[l] == v[l]) && Installs(v[0], {}, FileSet(tables), v'[0])
    requires AllNewer(FilesEntries(tables), VersionEntries(v))
    ensures VersionOk(v') && SortedBySmallest(v'[0]) && NumbersBelow(v', first + |tables|) && (OneHome(v) ==> OneHome(v'))
    ensures VersionEntries(v') == VersionEntries(v) + FilesEntries(tables)
  {
    ZeroNumbers(v[0]);
    ReopenLevelZero(v[0], tables, v'[0], first);
    MembersOk(v'[0]);
    forall i, j | 0 <= i < j < |v'|
      ensures LevelNewer(v'[i], v'[j])
    {
      ReopenedNewer(v, tables, v', i, j);
    }
    Assemble(v');
    ReopenEntries(v, tables, v');
    ReopenNumbers(v, tables, v', first);
  }

  lemma ReopenedNewer(v: Version, tables: Level, v': Version, i: nat, j: nat)
    requires VersionOk(v) && AllNewer(FilesEntries(tables), VersionEntries(v)) && i < j < |v| == |v'|
    requires (forall l :: 0 < l < |v| ==> v'[l] == v[l]) && Installs(v[0], {}, FileSet(tables), v'[0])
    ensures LevelNewer(v'[i], v'[j])
  {
    LevelsNewer(v, i, j);
    TablesNewer(v, tables, j);
  }

  lemma HomeAfterReopen(v: Version, tables: Level, v': Version, l: nat, f: File)
    requires |v'| == |v| > 0 && (forall l :: 0 < l < |v| ==> v'[l] == v[l]) && Installs(v[0], {}, FileSet(tables), v'[0])
    requires At(v', l, f)
    ensures At(v, l, f) || (l == 0 && f in tables)
  {
  }

  lemma ReopenNumbers(v: Version, tables: Level, v': Version, first: nat)
    requires NumbersBelow(v, first) && Outputs(tables, first)
    requires |v'| == |v| > 0 && (forall l :: 0 < l < |v| ==> v'[l] == v[l]) && Installs(v[0], {}, FileSet(tables), v'[0])
    ensures NumbersBelow(v', first + |tables|) && (OneHome(v) ==> OneHome(v'))
  {
    if OneHome(v) {
      forall l, m, f, g | At(v', l, f) && At(v', m, g) && f.number == g.number
        ensures l == m && f == g
      {
        HomeAfterReopen(v, tables, v', l, f);
        HomeAfterReopen(v, tables, v', m, g);
        NewOrOld(v, tables, first, l, f);
        NewOrOld(v, tables, first, m, g);
      }
    }
    forall l, g | 0 <= l < |v'| && g in v'[l]
      ensures g.number < first + |tables|
    {
      assert g in v[l] || g in tables;
    }
  }

  lemma TablesNewer(v: Version, tables: Level, j: nat)
    requires j < |v| && AllNewer(FilesEntries(tables), VersionEntries(v))
    ensures LevelNewer(tables, v[j])
  {
    forall f, g, e, d | f in tables && g in v[j] && e in f.entries && d in g.entries && e.key.user == d.key.user
      ensures e.key.seqno > d.key.seqno
    {
      assert e in FilesEntries(tables) && d in VersionEntries(v);
    }
  }

  lemma ReopenEntries(v: Version, tables: Level, v': Version)
    requires |v'| == |v| > 0 && (forall l :: 0 < l < |v| ==> v'[l] == v[l]) && Installs(v[0], {}, FileSet(tables), v'[0])
    ensures VersionEntries(v') == VersionEntries(v) + FilesEntries(tables)
  {
    forall e | e in VersionEntries(v')
      ensures e in VersionEntries(v) + FilesEntries(tables)
    {
      var i, g :| 0 <= i < |v'| && g in v'[i] && e in g.entries;
      assert g in v[i] || g in tables;
    }
    forall e | e in VersionEntries(v) + FilesEntries(tables)
      ensures e in VersionEntries(v')
    {
      if e in FilesEntries(tables) {
        var g :| g in tables && e in g.entries;
        assert g in v'[0];
      } else {
        var i, g :| 0 <= i < |v| && g in v[i] && e in g.entries;
        assert g in v'[i];
      }
    }
  }

  lemma TablesWellFormed(tables: Level, first: nat, es: set<Entry>)
    requires Outputs(tables, first) && (forall i :: 0 <= i < |tables| ==> SortedRun(tables[i].entries))
    requires FilesEntries(tables) <= es && forall e :: e in es ==> e.key.WellFormed()
    ensures FilesOk(tables)
  {
    forall i | 0 <= i < |tables|
      ensures FileOk(tables[i])
    {
      forall e | e in tables[i].entries
        ensures e.key.WellFormed()
      {
        assert tables[i] in tables;
        assert e in FilesEntries(tables);
      }
    }
  }

  lemma MemEntriesWellFormed(st: State)
    requires MemTablesOk(st)
    ensures forall e :: e in MemEntries(st) ==> e.key.WellFormed()
  {
  }

  lemma ReopenMem(st: State, cuts: seq<nat>, tables: Level, st': State)
    requires MemTablesOk(st) && LogsOk(st) && ReopenStep(st, cuts, tables, st') && VersionEntries(st'.version) == VersionEntries(st.version) + FilesEntries(tables)
    ensures MemTablesOk(st') && LogsOk(st')
  {
    var log, last := Logs(st), cuts[|cuts| - 1];
    LogsIncrease(st);
    ReopenCovers(st, cuts, tables, st');
    ReplayedOrder(log, cuts, tables);
    TablesCover(log, cuts, tables, |tables|);
    assert tables[..|tables|] == tables;
    MemEntriesWellFormed(st);
    forall e | e in st'.mem
      ensures e.key.WellFormed()
    {
      assert e in Elements(st'.mem);
    }
    assert Recorded(st'.immLog) == {};
    assert RecordsIncrease(st'.memLog) by {
      assert forall i :: 0 <= i < |log[last..]| ==> log[last..][i] == log[last + i];
    }
  }

  /** Reopening after a crash, wherever recovery cuts the logs into tables, re-establishes the invariant: every answer of
      the latest sequence number is back. */
  lemma ReopenInv(st: State, cuts: seq<nat>, tables: Level, st': State)
    requires Inv(st) && ReopenStep(st, cuts, tables, st')
    ensures Inv(st') && Contents(st') == Contents(st)
  {
    LogsIncrease(st);
    ReopenCovers(st, cuts, tables, st');
    ReplayedOrder(Logs(st), cuts, tables);
    MemEntriesWellFormed(st);
    TablesWellFormed(tables, st.nextFile, MemEntries(st));
    ReopenVersion(st.version, tables, st'.version, st.nextFile);
    ReopenMem(st, cuts, tables, st');
    assert MemEntries(st') == Elements(st'.mem);
    assert Contents(st') == Contents(st);
  }

  /** No compaction may drop more than the oldest reader allows, and it drops as much: its smallest snapshot is live, or the
      last sequence number if none is, and is no later than any reader's. */
  lemma OldestReader(st: State)
    requires Inv(st)
    ensures SmallestSnapshot(st) <= st.lastSequence && forall s :: s in st.snapshots ==> SmallestSnapshot(st) <= s
    ensures if st.snapshots == [] then SmallestSnapshot(st) == st.lastSequence else SmallestSnapshot(st) in st.snapshots
  {
    forall s | s in st.snapshots
      ensures SmallestSnapshot(st) <= s
    {
      var i :| 0 <= i < |st.snapshots| && st.snapshots[i] == s;
    }
  }

  // ----- every run

  /** A step keeps the invariant if and only if it is safe. */
  lemma StepKeepsInv(st: State, step: Step, st': State)
    requires Inv(st) && Next(st, step, st')
    ensures Inv(st') <==> Safe(st, step)
  {
    match step
    case Write(ops) => WriteInv(st, ops, st');
    case SwitchMemTable => SwitchInv(st, st');
    case Flush(f, level) => FlushInv(st, f, level, st');
    case FlushEmpty => FlushEmptyInv(st, st');
    case Move(f, level) => MoveInv(st, f, level, st');
    case Compact(level, in0, in1, stream, outs) => CompactionInv(st, level, in0, in1, stream, outs, st');
    case TakeSnapshot => SnapshotInv(st, st');
    case ReleaseSnapshot(i) =>
      ReleaseKeepsOrder(st, i, st');
      SnapshotInv(st, st');
    case Reopen(cuts, tables) => ReopenInv(st, cuts, tables, st');
  }

  lemma {:induction false} RunKeepsInv(states: seq<State>, steps: seq<Step>, i: nat)
    requires Run(states, steps) && i < |states| && SafeSteps(states, steps, i)
    ensures Inv(states[i])
  {
    if i == 0 {
      InitialInv();
    } else {
      RunKeepsInv(states, steps, i - 1);
      StepKeepsInv(states[i - 1], steps[i - 1], states[i]);
    }
  }

  /** DBImpl::Get: memtable, then immutable memtable, then the version. */
  method DbGet(st: State, k: UserKey, s: SeqNum) returns (r: Option<Value>)
    requires Inv(st) && st.floor <= s
    ensures r == Lookup(st.history, k, s)
  {
    ReadOrder(st, k, s);
    var m := RunGet(st.mem, k, s);
    RunGetIsOutcome(st.mem, k, s);
    if m != NotFound {
      return ToClient(m);
    }
    if st.imm.Some? {
      m := RunGet(st.imm.value, k, s);
      RunGetIsOutcome(st.imm.value, k, s);
      if m != NotFound {
        return ToClient(m);
      }
    }
    m := Versions.Get(st.version, k, s);
    r := ToClient(m);
  }

  lemma ReadOrder(st: State, k: UserKey, s: SeqNum)
    requires Inv(st) && st.floor <= s
    ensures Lookup(st.history, k, s) ==
            ToClient(if !NoneAt(Elements(st.mem), k, s) then Outcome(Elements(st.mem), k, s)
                     else if !NoneAt(ImmEntries(st), k, s) then Outcome(ImmEntries(st), k, s)
                     else Outcome(VersionEntries(st.version), k, s))
  {
    assert Lookup(Contents(st), k, s) == Lookup(st.history, k, s);
    SortedRunUnique(st.mem);
    if st.imm.Some? {
      SortedRunUnique(st.imm.value);
    }
    LayeredRead(Elements(st.mem), ImmEntries(st), k, s);
    EntriesUnique(st.version, 0);
    LayeredRead(MemEntries(st), VersionEntries(st.version), k, s);
  }

  /** In every state reached by safe steps, the contents answer every live snapshot and the latest sequence number as
      the whole history of writes does. */
  lemma EveryLiveReadIsRight(states: seq<State>, steps: seq<Step>, i: nat, k: UserKey, s: SeqNum)
    requires Run(states, steps) && i < |states| && SafeSteps(states, steps, i)
    requires s in states[i].snapshots || s == states[i].lastSequence
    ensures Lookup(Contents(states[i]), k, s) == Lookup(states[i].history, k, s)
  {
    RunKeepsInv(states, steps, i);
    assert states[i].floor <= s;
  }

  // ----- what the history means

  ghost predicate HistoryOk(st: State) { UpTo(st.history, st.lastSequence) && Unique(st.history) }

  lemma {:induction false} RunHistoryOk(states: seq<State>, steps: seq<Step>, i: nat)
    requires Run(states, steps) && i < |states|
    ensures HistoryOk(states[i])
  {
    if i > 0 {
      RunHistoryOk(states, steps, i - 1);
      StepExtendsHistory(states[i - 1], steps[i - 1], states[i], [], 0);
    }
  }

  lemma StepExtendsHistory(st: State, step: Step, st': State, k: UserKey, s: SeqNum)
    requires HistoryOk(st) && Next(st, step, st') && s <= st.lastSequence
    ensures HistoryOk(st') && st.lastSequence <= st'.lastSequence
    ensures Lookup(st'.history, k, s) == Lookup(st.history, k, s)
  {
    if step.Write? {
      var batch := Elements(BatchEntries(step.ops, st.lastSequence));
      BatchFacts(step.ops, st.lastSequence, st.history);
      assert NoneAt(batch, k, s);
      LayeredRead(batch, st.history, k, s);
      assert st'.history == batch + st.history;
    }
  }

  /** A snapshot never changes: what sequence number s showed when it was taken, it shows in every later
      state. With EveryLiveReadIsRight, so does the engine for as long as the snapshot is held. */
  lemma {:induction false} SnapshotNeverChanges(states: seq<State>, steps: seq<Step>, i: nat, j: nat, k: UserKey, s: SeqNum)
    requires Run(states, steps) && i <= j < |states| && s <= states[i].lastSequence
    ensures s <= states[j].lastSequence
    ensures Lookup(states[j].history, k, s) == Lookup(states[i].history, k, s)
    decreases j
  {
    if i < j {
      SnapshotNeverChanges(states, steps, i, j - 1, k, s);
      RunExtendsHistory(states, steps, j, k, s);
    }
  }

  lemma RunExtendsHistory(states: seq<State>, steps: seq<Step>, j: nat, k: UserKey, s: SeqNum)
    requires Run(states, steps) && 0 < j < |states| && s <= states[j - 1].lastSequence
    ensures states[j - 1].lastSequence <= states[j].lastSequence
    ensures Lookup(states[j].history, k, s) == Lookup(states[j - 1].history, k, s)
  {
    RunHistoryOk(states, steps, j - 1);
    StepExtendsHistory(states[j - 1], steps[j - 1], states[j], k, s);
  }

  /** A client's idea of a batch: apply the operations in order to a map. */
  function Apply(ops: seq<Op>, k: UserKey, was: Option<Value>): Option<Value> {
    if ops == [] then was
    else
      var op := ops[|ops| - 1];
      if op.key != k then Apply(ops[..|ops| - 1], k, was)
      else if op.Put? then Some(op.value) else None
  }

  lemma OneMoreOp(op: Op, rest: set<Entry>, k: UserKey, was: SeqNum, now: SeqNum, es: set<Entry>)
    requires now == was + 1 && Unique(rest) && UpTo(rest, was) && es == {OpEntry(op, now)} + rest
    ensures Unique(es) && UpTo(es, now)
    ensures Lookup(es, k, now) == if op.key != k then Lookup(rest, k, was) else if op.Put? then Some(op.value) else None
  {
    var e := OpEntry(op, now);
    LayeredRead({e}, rest, k, now);
    if op.key == k {
      assert NewestAt({e}, k, now, e);
      OutcomeIs({e}, k, now, e);
    } else {
      assert NoneAt({e}, k, now);
      SameBelow(rest, k, was, now);
    }
  }

  lemma {:induction false} BatchShowsLastOp(ops: seq<Op>, last: SeqNum, history: set<Entry>, k: UserKey,
                                            es: set<Entry>, now: SeqNum)
    requires now == last + |ops| && UpTo(history, last) && Unique(history)
    requires es == Elements(BatchEntries(ops, last)) + history
    ensures Unique(es) && UpTo(es, now)
    ensures Lookup(es, k, now) == Apply(ops, k, Lookup(history, k, last))
  {
    if ops == [] {
      assert es == history && now == last;
      assert Lookup(es, k, now) == Lookup(history, k, last);
    } else {
      var init, op, was := ops[..|ops| - 1], ops[|ops| - 1], now - 1;
      var rest := Elements(BatchEntries(init, last)) + history;
      BatchSnoc(ops, last, history, now);
      BatchShowsLastOp(init, last, history, k, rest, was);
      OneMoreOp(op, rest, k, was, now, es);
    }
  }

  lemma BatchSnoc(ops: seq<Op>, last: SeqNum, history: set<Entry>, now: SeqNum)
    requires ops != [] && now == last + |ops|
    ensures Elements(BatchEntries(ops, last)) + history
         == {OpEntry(ops[|ops| - 1], now)} + (Elements(BatchEntries(ops[..|ops| - 1], last)) + history)
  {
    var init := BatchEntries(ops[..|ops| - 1], last);
    var e := OpEntry(ops[|ops| - 1], now);
    assert BatchEntries(ops, last) == init + [e];
    assert Elements(init + [e]) == Elements(init) + {e};
  }

  lemma SameBelow(es: set<Entry>, k: UserKey, s: SeqNum, t: SeqNum)
    requires Unique(es) && UpTo(es, s) && s <= t
    ensures Outcome(es, k, s) == Outcome(es, k, t)
  {
    OutcomeCases(es, k, s);
    if e :| NewestAt(es, k, s, e) {
      assert NewestAt(es, k, t, e);
      OutcomeIs(es, k, s, e);
      OutcomeIs(es, k, t, e);
    } else {
      assert NoneAt(es, k, t);
    }
  }

  /** The latest view is a map that each write updates by its batch and nothing else changes. */
  lemma WritesActOnTheMap(st: State, step: Step, st': State, k: UserKey)
    requires Next(st, step, st') && HistoryOk(st)
    ensures step.Write? ==> Lookup(st'.history, k, st'.lastSequence) == Apply(step.ops, k, Lookup(st.history, k, st.lastSequence))
    ensures !step.Write? ==> Lookup(st'.history, k, st'.lastSequence) == Lookup(st.history, k, st.lastSequence)
  {
    if step.Write? {
      WriteAddsHistory(st, step.ops, st');
      BatchShowsLastOp(step.ops, st.lastSequence, st.history, k, st'.history, st'.lastSequence);
    } else {
      OnlyWritesAddHistory(st, step, st');
    }
  }

  lemma WriteAddsHistory(st: State, ops: seq<Op>, st': State)
    requires WriteStep(st, ops, st')
    ensures st.lastSequence + |ops| <= MAX_SEQUENCE
    ensures st'.history == Elements(BatchEntries(ops, st.lastSequence)) + st.history
    ensures st'.lastSequence == st.lastSequence + |ops|
  {
  }

  lemma OnlyWritesAddHistory(st: State, step: Step, st': State)
    requires Next(st, step, st') && !step.Write?
    ensures st'.history == st.history && st'.lastSequence == st.lastSequence
  {
  }

  // ----- sequence numbers

  /** How many operations the steps wrote. */
  ghost function Written(steps: seq<Step>): (n: nat) {
    if steps == [] then 0
    else Written(steps[..|steps| - 1]) + match steps[|steps| - 1] case Write(ops) => |ops| case _ => 0
  }

  /** Over a run, reopenings included, the last sequence number counts the operations written. */
  lemma {:induction false} LastSequenceCounts(states: seq<State>, steps: seq<Step>)
    requires Run(states, steps)
    ensures states[|steps|].lastSequence == Written(steps)
    decreases |steps|
  {
    if steps != [] {
      var n := |steps| - 1;
      assert Run(states[..n + 1], steps[..n]);
      LastSequenceCounts(states[..n + 1], steps[..n]);
      Counts(states[n], steps[n], states[n + 1]);
    }
  }

  lemma Counts(st: State, step: Step, st': State)
    requires Next(st, step, st')
    ensures st'.lastSequence == st.lastSequence + match step case Write(ops) => |ops| case _ => 0
  {
  }
}

/** Durability: the write-ahead log, memtable switch, flush, compaction, manifest commit, garbage
    collection and reopening, with a crash possible between any two steps. */
module Recovery {
  import opened Keys
  import opened Meaning

  // ----- disk

  /** A log record: a batch that has been appended in full, and its last sequence number. */
  datatype Rec = Rec(entries: set<Entry>, last: nat)

  datatype Meta = Meta(logNumber: nat, nextFile: nat, lastSequence: nat)

  /** A manifest record. The snapshot record that opens a manifest carries no numbers. */
  datatype Edit = Edit(added: set<nat>, deleted: set<nat>, meta: Option<Meta>)

  datatype Disk = Disk(logs: map<nat, seq<Rec>>, tables: map<nat, set<Entry>>, manifests: map<nat, seq<Edit>>, current: nat)

  datatype Replayed = Replayed(files: set<nat>, meta: Option<Meta>)

  /** VersionSet::Recover: delete, then add; the last numbers seen win. */
  function Replay(es: seq<Edit>): Replayed {
    if es == [] then Replayed({}, None)
    else
      var r, e := Replay(es[..|es| - 1]), es[|es| - 1];
      Replayed(r.files - e.deleted + e.added, if e.meta.Some? then e.meta else r.meta)
  }

  ghost function TableEntries(tables: map<nat, set<Entry>>, fs: set<nat>): set<Entry> {
    set f, e | f in fs && f in tables && e in tables[f] :: e
  }

  ghost function RecEntries(rs: seq<Rec>): set<Entry> { set i, e | 0 <= i < |rs| && e in rs[i].entries :: e }

  /** Entries of the logs numbered from `lo` on. */
  ghost function LogEntries(logs: map<nat, seq<Rec>>, lo: nat): set<Entry> {
    set n, e | n in logs && lo <= n && e in RecEntries(logs[n]) :: e
  }

  ghost predicate Below(fs: set<nat>, n: nat) { forall f :: f in fs ==> f < n }
  ghost predicate UpTo(es: set<Entry>, s: nat) { forall e :: e in es ==> e.key.seqno <= s }
  ghost predicate RecsOk(rs: seq<Rec>) { forall i :: 0 <= i < |rs| ==> UpTo(rs[i].entries, rs[i].last) }

  /** What reopening would rebuild: the tables of the current manifest and the logs it still needs. */
  ghost function Recovered(d: Disk, r: Replayed): set<Entry>
    requires r.meta.Some?
  {
    TableEntries(d.tables, r.files) + LogEntries(d.logs, r.meta.value.logNumber)
  }

  /** Disk d is recoverable as r: the manifest replays to r, every table it lists exists, and what would be
      rebuilt is the history of appended records but for what compactions have dropped. */
  ghost predicate Recoverable(d: Disk, r: Replayed, history: set<Entry>, dropped: set<Entry>) {
    && d.current in d.manifests && Replay(d.manifests[d.current]) == r && r.meta.Some?
    && r.files <= d.tables.Keys && Below(r.files, r.meta.value.nextFile)
    && d.current < r.meta.value.nextFile && r.meta.value.logNumber < r.meta.value.nextFile
    && UpTo(TableEntries(d.tables, r.files), r.meta.value.lastSequence)
    && (forall n :: n in d.logs ==> RecsOk(d.logs[n]))
    && Recovered(d, r) <= history <= Recovered(d, r) + dropped
  }

  // ----- process

  datatype Flush = NoFlush | Building(n: nat) | Built(out: set<nat>) | FlushCommitted(out: set<nat>)

  datatype Comp =
    | NoComp
    | Comp(version: set<nat>, inputs: set<nat>, outs: set<nat>, committed: bool)
    | CompInstalled(outs: set<nat>)

  /** `files` is the current version; `refs` are older versions that readers still hold. */
  datatype Memory = Memory(
    mem: set<Entry>, imm: Option<set<Entry>>, inflight: Option<Rec>, logFile: nat, logNumber: nat, files: set<nat>,
    refs: seq<set<nat>>, pending: set<nat>, nextFile: nat, lastSequence: nat, flush: Flush, comp: Comp, gc: bool)

  datatype Stage = Replaying | LogCreated(newLog: nat) | ManifestStarted(newLog: nat) | ManifestReady(newLog: nat) | Switched(newLog: nat)

  datatype Process =
    | Down
    | Opening(base: set<nat>, added: set<nat>, rest: map<nat, seq<Rec>>, nextFile: nat, manifest: nat, lastSequence: nat, stage: Stage)
    | Up(m: Memory)

  /** `history` and `dropped` are auxiliary. */
  datatype State = State(disk: Disk, proc: Process, history: set<Entry>, dropped: set<Entry>)

  datatype Step =
    | AppendLog(rec: Rec) | ApplyMem | SwitchMem
    | FlushAlloc | FlushBuild | FlushCommit | FlushInstall
    | CompStart(inputs: set<nat>) | CompAlloc | CompWrite(n: nat, content: set<Entry>) | CompCommit | CompInstall | CompRelease
    | Ref | Unref(i: nat)
    | DeleteLog(n: nat) | DeleteTable(n: nat) | DeleteManifest(n: nat) | GcDone
    | Crash
    | OpenStart | ReplaySome(n: nat, k: nat) | LogDone(n: nat) | OpenLog | OpenManifest | OpenEdit | OpenSwitch | OpenDone

  ghost function ImmEntries(m: Memory): set<Entry> { if m.imm.Some? then m.imm.value else {} }
  ghost function FlightEntries(m: Memory): set<Entry> { if m.inflight.Some? then m.inflight.value.entries else {} }

  /** DeleteObsoleteFiles: pending outputs and every file of every version with a reference. */
  ghost function Live(m: Memory): set<nat> {
    m.pending + m.files + (set i, f | 0 <= i < |m.refs| && f in m.refs[i] :: f) + (if m.comp.Comp? then m.comp.version else {})
  }

  ghost predicate WriterStep(st: State, m: Memory, step: Step, st': State) {
    match step
    case AppendLog(rec) =>
      && m.inflight == None && m.logFile in st.disk.logs
      && UpTo(rec.entries, rec.last) && rec.last >= m.lastSequence
      && st' == st.(disk := st.disk.(logs := st.disk.logs[m.logFile := st.disk.logs[m.logFile] + [rec]]),
                    proc := Up(m.(inflight := Some(rec))), history := st.history + rec.entries)
    case ApplyMem =>
      && m.inflight.Some?
      && st' == st.(proc := Up(m.(mem := m.mem + m.inflight.value.entries, inflight := None, lastSequence := m.inflight.value.last)))
    case SwitchMem =>
      && m.inflight == None && m.imm == None
      && st' == st.(disk := st.disk.(logs := st.disk.logs[m.nextFile := []]),
                    proc := Up(m.(mem := {}, imm := Some(m.mem), logFile := m.nextFile, nextFile := m.nextFile + 1)))
    case _ => false
  }

  ghost predicate FlushStep(st: State, m: Memory, step: Step, st': State) {
    && !m.gc && (m.comp.Comp? ==> !m.comp.committed) && !m.comp.CompInstalled?
    && match step
       case FlushAlloc =>
         && m.flush == NoFlush && m.imm.Some?
         && st' == st.(proc := Up(m.(flush := Building(m.nextFile), pending := m.pending + {m.nextFile}, nextFile := m.nextFile + 1)))
       case FlushBuild =>  // BuildTable; an empty memtable leaves no file
         && m.flush.Building? && m.imm.Some?
         && var n := m.flush.n;
            if m.imm.value == {} then st' == st.(proc := Up(m.(flush := Built({}), pending := m.pending - {n})))
            else st' == st.(disk := st.disk.(tables := st.disk.tables[n := m.imm.value]),
                            proc := Up(m.(flush := Built({n}), pending := m.pending - {n})))
       case FlushCommit =>
         && m.flush.Built? && st.disk.current in st.disk.manifests
         && st' == st.(disk := Logged(st.disk, Edit(m.flush.out, {}, Some(Meta(m.logFile, m.nextFile, m.lastSequence)))),
                       proc := Up(m.(flush := FlushCommitted(m.flush.out))))
       case FlushInstall =>
         && m.flush.FlushCommitted?
         && st' == st.(proc := Up(m.(files := m.files + m.flush.out, logNumber := m.logFile, imm := None, flush := NoFlush, gc := true)))
       case _ => false
  }

  /** descriptor_log_->AddRecord */
  function Logged(d: Disk, e: Edit): Disk
    requires d.current in d.manifests
  {
    d.(manifests := d.manifests[d.current := d.manifests[d.current] + [e]])
  }

  ghost predicate CompStep(st: State, m: Memory, step: Step, st': State) {
    && !m.gc && m.flush == NoFlush
    && match step
       case CompStart(inputs) =>
         && m.comp == NoComp && inputs <= m.files
         && st' == st.(proc := Up(m.(comp := Comp(m.files, inputs, {}, false))))
       case CompAlloc =>
         && m.comp.Comp? && !m.comp.committed
         && st' == st.(proc := Up(m.(pending := m.pending + {m.nextFile}, nextFile := m.nextFile + 1)))
       case CompWrite(n, content) =>
         && m.comp.Comp? && !m.comp.committed && n in m.pending && n !in m.comp.outs
         && content <= TableEntries(st.disk.tables, m.comp.inputs)
         && st' == st.(disk := st.disk.(tables := st.disk.tables[n := content]),
                       proc := Up(m.(comp := m.comp.(outs := m.comp.outs + {n}))))
       case CompCommit =>
         && m.comp.Comp? && !m.comp.committed && st.disk.current in st.disk.manifests
         && var lost := TableEntries(st.disk.tables, m.comp.inputs) - TableEntries(st.disk.tables, m.comp.outs);
            st' == st.(disk := Logged(st.disk, Edit(m.comp.outs, m.comp.inputs, Some(Meta(m.logNumber, m.nextFile, m.lastSequence)))),
                       proc := Up(m.(comp := m.comp.(committed := true))), dropped := st.dropped + lost)
       case CompInstall =>
         && m.comp.Comp? && m.comp.committed
         && st' == st.(proc := Up(m.(files := m.files - m.comp.inputs + m.comp.outs, comp := CompInstalled(m.comp.outs))))
       case CompRelease =>  // CleanupCompaction, ReleaseInputs, DeleteObsoleteFiles
         && m.comp.CompInstalled?
         && st' == st.(proc := Up(m.(pending := m.pending - m.comp.outs, comp := NoComp, gc := true)))
       case _ => false
  }

  ghost predicate ReaderStep(st: State, m: Memory, step: Step, st': State) {
    match step
    case Ref => st' == st.(proc := Up(m.(refs := m.refs + [m.files])))
    case Unref(i) => i < |m.refs| && st' == st.(proc := Up(m.(refs := m.refs[..i] + m.refs[i + 1..])))
    case _ => false
  }

  ghost predicate GcStep(st: State, m: Memory, step: Step, st': State) {
    && m.gc
    && match step
       case DeleteLog(n) => n < m.logNumber && st' == st.(disk := st.disk.(logs := st.disk.logs - {n}))
       case DeleteTable(n) => n !in Live(m) && st' == st.(disk := st.disk.(tables := st.disk.tables - {n}))
       case DeleteManifest(n) => n < st.disk.current && st' == st.(disk := st.disk.(manifests := st.disk.manifests - {n}))
       case GcDone => st' == st.(proc := Up(m.(gc := false)))
       case _ => false
  }

  function NewerLogs(logs: map<nat, seq<Rec>>, lo: nat): map<nat, seq<Rec>> { map n | n in logs && lo <= n :: logs[n] }

  function MaxOf(a: nat, b: nat): nat { if a < b then b else a }

  ghost predicate OpenStep(st: State, step: Step, st': State) {
    match step
    case OpenStart =>
      && st.proc == Down && st.disk.current in st.disk.manifests
      && var r := Replay(st.disk.manifests[st.disk.current]);
         && r.meta.Some?
         && var meta := r.meta.value;
            st' == st.(proc := Opening(r.files, {}, NewerLogs(st.disk.logs, meta.logNumber), meta.nextFile + 1, meta.nextFile,
                                       meta.lastSequence, Replaying))
    case ReplaySome(n, k) =>  // RecoverLogFile: a memtable's worth of records becomes a table
      && st.proc.Opening? && st.proc.stage == Replaying && n in st.proc.rest && 1 <= k <= |st.proc.rest[n]|
      && (forall m :: m in st.proc.rest ==> n <= m)
      && var p, recs := st.proc, st.proc.rest[n][..k];
         st' == st.(disk := st.disk.(tables := st.disk.tables[p.nextFile := RecEntries(recs)]),
                    proc := p.(added := p.added + {p.nextFile}, rest := p.rest[n := p.rest[n][k..]], nextFile := p.nextFile + 1,
                               lastSequence := MaxOf(p.lastSequence, MaxLast(recs))))
    case LogDone(n) =>  // MarkFileNumberUsed
      && st.proc.Opening? && st.proc.stage == Replaying && n in st.proc.rest && st.proc.rest[n] == []
      && st' == st.(proc := st.proc.(rest := st.proc.rest - {n}, nextFile := MaxOf(st.proc.nextFile, n + 1)))
    case OpenLog =>
      && st.proc.Opening? && st.proc.stage == Replaying && st.proc.rest == map[]
      && st' == st.(disk := st.disk.(logs := st.disk.logs[st.proc.nextFile := []]),
                    proc := st.proc.(stage := LogCreated(st.proc.nextFile), nextFile := st.proc.nextFile + 1))
    case OpenManifest =>  // WriteSnapshot
      && st.proc.Opening? && st.proc.stage.LogCreated?
      && st' == st.(disk := st.disk.(manifests := st.disk.manifests[st.proc.manifest := [Edit(st.proc.base, {}, None)]]),
                    proc := st.proc.(stage := ManifestStarted(st.proc.stage.newLog)))
    case OpenEdit =>
      && st.proc.Opening? && st.proc.stage.ManifestStarted? && st.proc.manifest in st.disk.manifests
      && var p := st.proc;
         var e := Edit(p.added, {}, Some(Meta(p.stage.newLog, p.nextFile, p.lastSequence)));
         st' == st.(disk := st.disk.(manifests := st.disk.manifests[p.manifest := st.disk.manifests[p.manifest] + [e]]),
                    proc := p.(stage := ManifestReady(p.stage.newLog)))
    case OpenSwitch =>  // SetCurrentFile
      && st.proc.Opening? && st.proc.stage.ManifestReady?
      && st' == st.(disk := st.disk.(current := st.proc.manifest), proc := st.proc.(stage := Switched(st.proc.stage.newLog)))
    case OpenDone =>
      && st.proc.Opening? && st.proc.stage.Switched?
      && var p := st.proc;
         st' == st.(proc := Up(Memory({}, None, None, p.stage.newLog, p.stage.newLog, p.base + p.added, [], {}, p.nextFile,
                                      p.lastSequence, NoFlush, NoComp, true)))
    case _ => false
  }

  function MaxLast(rs: seq<Rec>): nat { if rs == [] then 0 else MaxOf(rs[|rs| - 1].last, MaxLast(rs[..|rs| - 1])) }

  ghost predicate Next(st: State, step: Step, st': State) {
    || (step == Crash && st' == st.(proc := Down))
    || OpenStep(st, step, st')
    || (st.proc.Up? && WriterStep(st, st.proc.m, step, st'))
    || (st.proc.Up? && FlushStep(st, st.proc.m, step, st'))
    || (st.proc.Up? && CompStep(st, st.proc.m, step, st'))
    || (st.proc.Up? && ReaderStep(st, st.proc.m, step, st'))
    || (st.proc.Up? && GcStep(st, st.proc.m, step, st'))
  }

  // ----- invariant of a running process

  /** What the manifest says while an edit has been logged but not yet installed in memory. */
  ghost function ManifestFiles(m: Memory): set<nat> {
    if m.flush.FlushCommitted? then m.files + m.flush.out
    else if m.comp.Comp? && m.comp.committed then m.files - m.comp.inputs + m.comp.outs
    else m.files
  }

  ghost function ManifestLog(m: Memory): nat { if m.flush.FlushCommitted? then m.logFile else m.logNumber }

  /** Entries of the logs from logNumber up to, not including, the one being written. */
  ghost function OldLogEntries(logs: map<nat, seq<Rec>>, lo: nat, hi: nat): set<Entry> {
    set n, e | n in logs && lo <= n < hi && e in RecEntries(logs[n]) :: e
  }

  /** The log being written holds the memtable and the write in flight; older needed logs hold the immutable
      memtable. */
  ghost predicate LogsOk(logs: map<nat, seq<Rec>>, m: Memory) {
    && m.logFile in logs && m.logNumber <= m.logFile < m.nextFile && (forall n :: n in logs ==> n <= m.logFile)
    && RecEntries(logs[m.logFile]) == m.mem + FlightEntries(m)
    && OldLogEntries(logs, m.logNumber, m.logFile) == ImmEntries(m)
  }

  ghost function VersionFiles(m: Memory): set<nat> {
    m.files + (set i, f | 0 <= i < |m.refs| && f in m.refs[i] :: f) + (if m.comp.Comp? then m.comp.version else {})
  }

  /** Files that must be on disk: those of every referenced version, and finished outputs. */
  ghost function Needed(m: Memory): set<nat> {
    VersionFiles(m) + (if m.comp.Comp? then m.comp.outs else {})
    + (if m.flush.Built? || m.flush.FlushCommitted? then m.flush.out else {})
  }

  ghost predicate NumbersOk(m: Memory) {
    && Below(Needed(m) + m.pending, m.nextFile)
    && (forall n :: n in m.pending && !(m.comp.CompInstalled? && n in m.comp.outs) ==> n !in VersionFiles(m))
    && (m.flush.Building? ==> m.flush.n in m.pending && (m.comp.Comp? ==> m.flush.n !in m.comp.outs))
    && (m.flush.Built? || m.flush.FlushCommitted? ==> m.flush.out !! m.pending)
  }

  ghost predicate FlushOk(tables: map<nat, set<Entry>>, m: Memory) {
    && (m.flush != NoFlush ==> m.imm.Some? && !m.comp.CompInstalled? && (m.comp.Comp? ==> !m.comp.committed))
    && (m.flush.Built? || m.flush.FlushCommitted? ==> TableEntries(tables, m.flush.out) == ImmEntries(m))
  }

  ghost predicate CompOk(tables: map<nat, set<Entry>>, m: Memory) {
    && (m.comp.Comp? ==> m.comp.inputs <= m.comp.version && m.comp.inputs <= m.files && m.comp.outs <= m.pending
                         && TableEntries(tables, m.comp.outs) <= TableEntries(tables, m.comp.inputs))
    && (m.comp.CompInstalled? ==> m.comp.outs <= m.files)
    && (m.gc ==> m.flush == NoFlush && !m.comp.CompInstalled? && (m.comp.Comp? ==> !m.comp.committed))
  }

  ghost predicate SequenceOk(tables: map<nat, set<Entry>>, m: Memory) {
    && UpTo(m.mem + ImmEntries(m) + TableEntries(tables, m.files), m.lastSequence)
    && (m.inflight.Some? ==> UpTo(m.inflight.value.entries, m.inflight.value.last) && m.inflight.value.last >= m.lastSequence)
  }

  ghost predicate ManifestOk(m: Memory, r: Replayed) {
    r.meta.Some? && r.files == ManifestFiles(m) && r.meta.value.logNumber == ManifestLog(m) && r.meta.value.nextFile <= m.nextFile
  }

  ghost predicate UpInv(d: Disk, m: Memory, r: Replayed) {
    && ManifestOk(m, r) && Needed(m) <= d.tables.Keys
    && LogsOk(d.logs, m) && NumbersOk(m) && FlushOk(d.tables, m) && CompOk(d.tables, m) && SequenceOk(d.tables, m)
  }

  // ----- invariant of a process that is opening the database

  ghost predicate OpenInv(d: Disk, p: Process, r: Replayed)
    requires p.Opening? && r.meta.Some?
  {
    && Below(p.base + p.added, p.nextFile) && p.manifest < p.nextFile
    && p.base + p.added <= d.tables.Keys
    && UpTo(TableEntries(d.tables, p.base + p.added), p.lastSequence)
    && (forall n :: n in p.rest ==> RecsOk(p.rest[n]))
    && (match p.stage
        case Replaying =>
          && p.base == r.files && p.manifest == r.meta.value.nextFile && (forall f :: f in p.added ==> p.manifest < f)
          && (forall n :: n in d.logs && r.meta.value.logNumber <= n ==> n < p.nextFile || n in p.rest)
          && TableEntries(d.tables, p.added) + LogEntries(p.rest, 0) == LogEntries(d.logs, r.meta.value.logNumber)
        case LogCreated(newLog) => OpenLogged(d, p, r, newLog)
        case ManifestStarted(newLog) =>
          && OpenLogged(d, p, r, newLog)
          && p.manifest in d.manifests && d.manifests[p.manifest] == [Edit(p.base, {}, None)]
        case ManifestReady(newLog) =>
          && OpenLogged(d, p, r, newLog)
          && p.manifest in d.manifests
          && d.manifests[p.manifest] == [Edit(p.base, {}, None), Edit(p.added, {}, Some(Meta(newLog, p.nextFile, p.lastSequence)))]
        case Switched(newLog) =>
          && NewLogOk(d.logs, newLog, p.nextFile) && r.files == p.base + p.added
          && r.meta.value == Meta(newLog, p.nextFile, p.lastSequence))
  }

  ghost predicate NewLogOk(logs: map<nat, seq<Rec>>, newLog: nat, nextFile: nat) {
    newLog < nextFile && newLog in logs && logs[newLog] == [] && forall n :: n in logs ==> n <= newLog
  }

  ghost predicate OpenLogged(d: Disk, p: Process, r: Replayed, newLog: nat)
    requires p.Opening? && r.meta.Some?
  {
    && p.base == r.files && p.manifest == r.meta.value.nextFile && (forall f :: f in p.added ==> p.manifest < f)
    && NewLogOk(d.logs, newLog, p.nextFile) && newLog > r.meta.value.logNumber
    && TableEntries(d.tables, p.added) == LogEntries(d.logs, r.meta.value.logNumber)
  }

  ghost function CurrentReplay(d: Disk): Replayed { if d.current in d.manifests then Replay(d.manifests[d.current]) else Replayed({}, None) }

  ghost predicate Inv(st: State) {
    var r := CurrentReplay(st.disk);
    && Recoverable(st.disk, r, st.history, st.dropped)
    && match st.proc
       case Down => true
       case Opening(_, _, _, _, _, _, _) => OpenInv(st.disk, st.proc, r)
       case Up(m) => UpInv(st.disk, m, r)
  }

  // ----- frames

  lemma TablesFrame(t: map<nat, set<Entry>>, t': map<nat, set<Entry>>, fs: set<nat>)
    requires forall f :: f in fs ==> (f in t <==> f in t') && (f in t ==> t[f] == t'[f])
    ensures TableEntries(t, fs) == TableEntries(t', fs)
  {
  }

  lemma TablesUnion(t: map<nat, set<Entry>>, a: set<nat>, b: set<nat>)
    ensures TableEntries(t, a + b) == TableEntries(t, a) + TableEntries(t, b)
  {
  }

  lemma OneTable(t: map<nat, set<Entry>>, n: nat)
    requires n in t
    ensures TableEntries(t, {n}) == t[n]
  {
    assert n in {n};
  }

  lemma RecEntriesSplit(rs: seq<Rec>, k: nat)
    requires k <= |rs|
    ensures RecEntries(rs) == RecEntries(rs[..k]) + RecEntries(rs[k..])
  {
    forall e | e in RecEntries(rs)
      ensures e in RecEntries(rs[..k]) + RecEntries(rs[k..])
    {
      var i :| 0 <= i < |rs| && e in rs[i].entries;
      if i < k {
        assert rs[..k][i] == rs[i];
      } else {
        assert rs[k..][i - k] == rs[i];
      }
    }
  }

  lemma RecEntriesSnoc(rs: seq<Rec>, rec: Rec)
    ensures RecEntries(rs + [rec]) == RecEntries(rs) + rec.entries
  {
    RecEntriesSplit(rs + [rec], |rs|);
    assert (rs + [rec])[..|rs|] == rs && (rs + [rec])[|rs|..] == [rec];
    assert [rec][0] == rec;
    assert RecEntries([rec]) == rec.entries;
  }

  lemma LogsSplit(logs: map<nat, seq<Rec>>, m: Memory)
    requires LogsOk(logs, m)
    ensures LogEntries(logs, m.logNumber) == ImmEntries(m) + m.mem + FlightEntries(m)
    ensures LogEntries(logs, m.logFile) == m.mem + FlightEntries(m)
  {
    assert LogEntries(logs, m.logNumber) == OldLogEntries(logs, m.logNumber, m.logFile) + RecEntries(logs[m.logFile]);
    assert LogEntries(logs, m.logFile) == RecEntries(logs[m.logFile]);
  }

  lemma ReplaySnoc(es: seq<Edit>, e: Edit)
    ensures Replay(es + [e]) == Replayed(Replay(es).files - e.deleted + e.added, if e.meta.Some? then e.meta else Replay(es).meta)
  {
    assert (es + [e])[..|es|] == es;
  }

  lemma OldLogsFrame(logs: map<nat, seq<Rec>>, logs': map<nat, seq<Rec>>, lo: nat, hi: nat)
    requires forall n :: lo <= n < hi ==> (n in logs <==> n in logs') && (n in logs ==> logs[n] == logs'[n])
    ensures OldLogEntries(logs, lo, hi) == OldLogEntries(logs', lo, hi)
  {
    forall e | e in OldLogEntries(logs, lo, hi)
      ensures e in OldLogEntries(logs', lo, hi)
    {
      var n :| n in logs && lo <= n < hi && e in RecEntries(logs[n]);
      assert n in logs';
    }
    forall e | e in OldLogEntries(logs', lo, hi)
      ensures e in OldLogEntries(logs, lo, hi)
    {
      var n :| n in logs' && lo <= n < hi && e in RecEntries(logs'[n]);
      assert n in logs;
    }
  }

  lemma LogsFrame(logs: map<nat, seq<Rec>>, logs': map<nat, seq<Rec>>, lo: nat)
    requires forall n :: lo <= n ==> (n in logs <==> n in logs') && (n in logs ==> logs[n] == logs'[n])
    ensures LogEntries(logs, lo) == LogEntries(logs', lo)
  {
    forall e | e in LogEntries(logs, lo)
      ensures e in LogEntries(logs', lo)
    {
      var n :| n in logs && lo <= n && e in RecEntries(logs[n]);
      assert n in logs';
    }
    forall e | e in LogEntries(logs', lo)
      ensures e in LogEntries(logs, lo)
    {
      var n :| n in logs' && lo <= n && e in RecEntries(logs'[n]);
      assert n in logs;
    }
  }

  /** While the manifest and its tables stay, recoverability is a matter of the logs. */
  lemma RecoverableFrame(d: Disk, d': Disk, r: Replayed, history: set<Entry>, extra: set<Entry>, dropped: set<Entry>)
    requires Recoverable(d, r, history, dropped)
    requires d'.current == d.current && d'.current in d'.manifests && d'.manifests[d'.current] == d.manifests[d.current]
    requires forall f :: f in r.files ==> f in d'.tables && d'.tables[f] == d.tables[f]
    requires forall n :: n in d'.logs ==> RecsOk(d'.logs[n])
    requires LogEntries(d'.logs, r.meta.value.logNumber) == LogEntries(d.logs, r.meta.value.logNumber) + extra
    ensures Recoverable(d', r, history + extra, dropped)
  {
    TablesFrame(d.tables, d'.tables, r.files);
  }

  // ----- writers

  lemma AppendLogLogs(logs: map<nat, seq<Rec>>, m: Memory, rec: Rec)
    requires LogsOk(logs, m) && m.inflight == None
    ensures LogsOk(logs[m.logFile := logs[m.logFile] + [rec]], m.(inflight := Some(rec)))
  {
    var logs' := logs[m.logFile := logs[m.logFile] + [rec]];
    RecEntriesSnoc(logs[m.logFile], rec);
    OldLogsFrame(logs, logs', m.logNumber, m.logFile);
  }

  lemma AppendLogInv(st: State, rec: Rec, st': State)
    requires Inv(st) && st.proc.Up? && WriterStep(st, st.proc.m, AppendLog(rec), st')
    ensures Inv(st')
  {
    var m, m', d, d' := st.proc.m, st'.proc.m, st.disk, st'.disk;
    var r := CurrentReplay(d);
    AppendLogLogs(d.logs, m, rec);
    AppendLogRecoverable(d, d', m, m', r, rec, st.history, st.dropped);
  }

  lemma AppendLogRecoverable(d: Disk, d': Disk, m: Memory, m': Memory, r: Replayed, rec: Rec, history: set<Entry>, dropped: set<Entry>)
    requires Recoverable(d, r, history, dropped) && ManifestOk(m, r) && LogsOk(d.logs, m) && LogsOk(d'.logs, m')
    requires m.inflight == None && m' == m.(inflight := Some(rec)) && UpTo(rec.entries, rec.last)
    requires d' == d.(logs := d.logs[m.logFile := d.logs[m.logFile] + [rec]])
    ensures Recoverable(d', r, history + rec.entries, dropped) && CurrentReplay(d') == r
  {
    LogsSplit(d.logs, m);
    LogsSplit(d'.logs, m');
    RecoverableFrame(d, d', r, history, rec.entries, dropped);
  }

  lemma ApplyMemInv(st: State, st': State)
    requires Inv(st) && st.proc.Up? && WriterStep(st, st.proc.m, ApplyMem, st')
    ensures Inv(st')
  {
  }

  lemma OldLogsGrow(logs: map<nat, seq<Rec>>, lo: nat, last: nat, hi: nat)
    requires lo <= last < hi && last in logs && forall n :: n in logs && last < n ==> hi <= n
    ensures OldLogEntries(logs, lo, hi) == OldLogEntries(logs, lo, last) + RecEntries(logs[last])
  {
    forall e | e in OldLogEntries(logs, lo, hi)
      ensures e in OldLogEntries(logs, lo, last) + RecEntries(logs[last])
    {
      var n :| n in logs && lo <= n < hi && e in RecEntries(logs[n]);
      assert n <= last;
    }
    forall e | e in OldLogEntries(logs, lo, last) + RecEntries(logs[last])
      ensures e in OldLogEntries(logs, lo, hi)
    {
      if e !in RecEntries(logs[last]) {
        var n :| n in logs && lo <= n < last && e in RecEntries(logs[n]);
        assert n < hi;
      }
    }
  }

  lemma SwitchLogs(logs: map<nat, seq<Rec>>, m: Memory)
    requires LogsOk(logs, m) && m.inflight == None && m.imm == None
    ensures LogsOk(logs[m.nextFile := []], m.(mem := {}, imm := Some(m.mem), logFile := m.nextFile, nextFile := m.nextFile + 1))
    ensures LogEntries(logs[m.nextFile := []], m.logNumber) == LogEntries(logs, m.logNumber)
  {
    var logs' := logs[m.nextFile := []];
    var m' := m.(mem := {}, imm := Some(m.mem), logFile := m.nextFile, nextFile := m.nextFile + 1);
    OldLogsFrame(logs, logs', m.logNumber, m.logFile);
    OldLogsGrow(logs', m.logNumber, m.logFile, m.nextFile);
    assert RecEntries([]) == {};
    LogsSplit(logs, m);
    LogsSplit(logs', m');
  }

  lemma SwitchMemInv(st: State, st': State)
    requires Inv(st) && st.proc.Up? && WriterStep(st, st.proc.m, SwitchMem, st')
    ensures Inv(st')
  {
    var m, d, d' := st.proc.m, st.disk, st'.disk;
    var r := CurrentReplay(d);
    SwitchLogs(d.logs, m);
    RecoverableFrame(d, d', r, st.history, {}, st.dropped);
    assert st.history + {} == st.history;
  }

  // ----- flush

  lemma FlushAllocInv(st: State, st': State)
    requires Inv(st) && st.proc.Up? && FlushStep(st, st.proc.m, FlushAlloc, st')
    ensures Inv(st')
  {
  }

  /** Writing a table that no version lists changes nothing that is needed. */
  lemma WriteTableFrame(d: Disk, m: Memory, r: Replayed, n: nat, content: set<Entry>, history: set<Entry>, dropped: set<Entry>)
    requires Recoverable(d, r, history, dropped) && n !in r.files
    ensures Recoverable(d.(tables := d.tables[n := content]), r, history, dropped)
  {
    RecoverableFrame(d, d.(tables := d.tables[n := content]), r, history, {}, dropped);
    assert history + {} == history;
  }

  lemma FlushBuildInv(st: State, st': State)
    requires Inv(st) && st.proc.Up? && FlushStep(st, st.proc.m, FlushBuild, st')
    ensures Inv(st')
  {
    var m := st.proc.m;
    if m.imm.value != {} {
      FlushWritesInv(st, m.flush.n, st');
    } else {
      assert TableEntries(st.disk.tables, {}) == {};
    }
  }

  lemma FlushWritesInv(st: State, n: nat, st': State)
    requires Inv(st) && st.proc.Up? && FlushStep(st, st.proc.m, FlushBuild, st') && st.proc.m.imm.value != {} && n == st.proc.m.flush.n
    ensures Inv(st')
  {
    var m, d, d' := st.proc.m, st.disk, st'.disk;
    WriteTableFrame(d, m, CurrentReplay(d), n, m.imm.value, st.history, st.dropped);
    TablesFrame(d.tables, d'.tables, m.files);
    if m.comp.Comp? {
      TablesFrame(d.tables, d'.tables, m.comp.inputs);
      TablesFrame(d.tables, d'.tables, m.comp.outs);
    }
    OneTable(d'.tables, n);
  }

  /** Committing an edit: the new manifest replays to r'. */
  lemma CommitRecoverable(d: Disk, e: Edit, r: Replayed, r': Replayed, history: set<Entry>, dropped: set<Entry>, dropped': set<Entry>)
    requires Recoverable(d, r, history, dropped) && e.meta.Some? && dropped <= dropped'
    requires r' == Replayed(r.files - e.deleted + e.added, e.meta)
    requires r'.files <= d.tables.Keys && Below(r'.files, e.meta.value.nextFile)
    requires d.current < e.meta.value.nextFile && e.meta.value.logNumber < e.meta.value.nextFile
    requires UpTo(TableEntries(d.tables, r'.files), e.meta.value.lastSequence)
    requires Recovered(d, r') <= history <= Recovered(d, r') + dropped'
    ensures CurrentReplay(Logged(d, e)) == r' && Recoverable(Logged(d, e), r', history, dropped')
  {
    ReplaySnoc(d.manifests[d.current], e);
    assert Recovered(Logged(d, e), r') == Recovered(d, r');
  }

  lemma FlushCommitInv(st: State, st': State)
    requires Inv(st) && st.proc.Up? && FlushStep(st, st.proc.m, FlushCommit, st')
    ensures Inv(st')
  {
    var m, d := st.proc.m, st.disk;
    var r := CurrentReplay(d);
    var e := Edit(m.flush.out, {}, Some(Meta(m.logFile, m.nextFile, m.lastSequence)));
    var r' := Replayed(r.files - {} + m.flush.out, e.meta);
    LogsSplit(d.logs, m);
    TablesUnion(d.tables, m.files, m.flush.out);
    assert r'.files == m.files + m.flush.out;
    assert Recovered(d, r') == Recovered(d, r);
    CommitRecoverable(d, e, r, r', st.history, st.dropped, st.dropped);
  }

  lemma FlushInstallLogs(logs: map<nat, seq<Rec>>, m: Memory, m': Memory)
    requires LogsOk(logs, m) && m' == m.(logNumber := m.logFile, imm := None, files := m'.files, flush := NoFlush, gc := true)
    ensures LogsOk(logs, m')
  {
    assert OldLogEntries(logs, m.logFile, m.logFile) == {};
  }

  lemma FlushInstallInv(st: State, st': State)
    requires Inv(st) && st.proc.Up? && FlushStep(st, st.proc.m, FlushInstall, st')
    ensures Inv(st')
  {
    var m, m', d := st.proc.m, st'.proc.m, st.disk;
    FlushInstallLogs(d.logs, m, m');
    TablesUnion(d.tables, m.files, m.flush.out);
  }

  // ----- compaction

  lemma CompStartInv(st: State, inputs: set<nat>, st': State)
    requires Inv(st) && st.proc.Up? && CompStep(st, st.proc.m, CompStart(inputs), st')
    ensures Inv(st')
  {
    assert TableEntries(st.disk.tables, {}) == {};
    assert VersionFiles(st'.proc.m) == VersionFiles(st.proc.m);
  }

  lemma CompAllocInv(st: State, st': State)
    requires Inv(st) && st.proc.Up? && CompStep(st, st.proc.m, CompAlloc, st')
    ensures Inv(st')
  {
  }

  lemma CompWriteInv(st: State, n: nat, content: set<Entry>, st': State)
    requires Inv(st) && st.proc.Up? && CompStep(st, st.proc.m, CompWrite(n, content), st')
    ensures Inv(st')
  {
    var m, d, d' := st.proc.m, st.disk, st'.disk;
    var r := CurrentReplay(d);
    assert n !in VersionFiles(m);
    WriteTableFrame(d, m, r, n, content, st.history, st.dropped);
    TablesFrame(d.tables, d'.tables, m.files);
    TablesFrame(d.tables, d'.tables, m.comp.inputs);
    TablesFrame(d.tables, d'.tables, m.comp.outs);
    TablesUnion(d'.tables, m.comp.outs, {n});
    OneTable(d'.tables, n);
  }

  /** Replacing the inputs by the outputs loses only what the outputs leave out. */
  lemma CompContents(t: map<nat, set<Entry>>, files: set<nat>, inputs: set<nat>, outs: set<nat>)
    requires inputs <= files && TableEntries(t, outs) <= TableEntries(t, inputs)
    ensures TableEntries(t, files - inputs + outs) <= TableEntries(t, files)
    ensures TableEntries(t, files) <= TableEntries(t, files - inputs + outs) + (TableEntries(t, inputs) - TableEntries(t, outs))
  {
    TablesUnion(t, files - inputs, outs);
    TablesUnion(t, files - inputs, inputs);
    assert files - inputs + inputs == files;
  }

  lemma CompCommitInv(st: State, st': State)
    requires Inv(st) && st.proc.Up? && CompStep(st, st.proc.m, CompCommit, st')
    ensures Inv(st')
  {
    var m, d := st.proc.m, st.disk;
    var r := CurrentReplay(d);
    var e := Edit(m.comp.outs, m.comp.inputs, Some(Meta(m.logNumber, m.nextFile, m.lastSequence)));
    var r' := Replayed(r.files - e.deleted + e.added, e.meta);
    CompContents(d.tables, m.files, m.comp.inputs, m.comp.outs);
    assert Recovered(d, r') <= Recovered(d, r);
    CommitRecoverable(d, e, r, r', st.history, st.dropped, st'.dropped);
  }

  lemma CompInstallInv(st: State, st': State)
    requires Inv(st) && st.proc.Up? && CompStep(st, st.proc.m, CompInstall, st')
    ensures Inv(st')
  {
    var m, d := st.proc.m, st.disk;
    CompContents(d.tables, m.files, m.comp.inputs, m.comp.outs);
  }

  lemma CompReleaseInv(st: State, st': State)
    requires Inv(st) && st.proc.Up? && CompStep(st, st.proc.m, CompRelease, st')
    ensures Inv(st')
  {
  }

  // ----- readers

  lemma RefInv(st: State, st': State)
    requires Inv(st) && st.proc.Up? && ReaderStep(st, st.proc.m, Ref, st')
    ensures Inv(st')
  {
    RefFiles(st.proc.m, st'.proc.m);
  }

  lemma RefFiles(m: Memory, m': Memory)
    requires m' == m.(refs := m.refs + [m.files])
    ensures VersionFiles(m') == VersionFiles(m)
  {
    forall f | f in VersionFiles(m)
      ensures f in VersionFiles(m')
    {
      if i :| 0 <= i < |m.refs| && f in m.refs[i] {
        assert m'.refs[i] == m.refs[i];
      }
    }
    forall f | f in VersionFiles(m')
      ensures f in VersionFiles(m)
    {
      if i :| 0 <= i < |m'.refs| && f in m'.refs[i] {
        assert i < |m.refs| ==> m'.refs[i] == m.refs[i];
      }
    }
  }

  lemma UnrefInv(st: State, i: nat, st': State)
    requires Inv(st) && st.proc.Up? && ReaderStep(st, st.proc.m, Unref(i), st')
    ensures Inv(st')
  {
    var m, m' := st.proc.m, st'.proc.m;
    assert forall j :: 0 <= j < |m'.refs| ==> m'.refs[j] == m.refs[if j < i then j else j + 1];
    assert VersionFiles(m') <= VersionFiles(m);
  }

  // ----- garbage collection

  lemma DeleteLogInv(st: State, n: nat, st': State)
    requires Inv(st) && st.proc.Up? && GcStep(st, st.proc.m, DeleteLog(n), st')
    ensures Inv(st')
  {
    var m, d, d' := st.proc.m, st.disk, st'.disk;
    var r := CurrentReplay(d);
    OldLogsFrame(d.logs, d'.logs, m.logNumber, m.logFile);
    LogsFrame(d.logs, d'.logs, m.logNumber);
    RecoverableFrame(d, d', r, st.history, {}, st.dropped);
    assert st.history + {} == st.history;
  }

  /** A table that DeleteObsoleteFiles removes is needed by nobody. */
  lemma GarbageIsNotNeeded(d: Disk, m: Memory, r: Replayed, n: nat)
    requires UpInv(d, m, r) && m.gc && n !in Live(m)
    ensures n !in Needed(m) && n !in r.files
  {
  }

  lemma DeleteTableInv(st: State, n: nat, st': State)
    requires Inv(st) && st.proc.Up? && GcStep(st, st.proc.m, DeleteTable(n), st')
    ensures Inv(st')
  {
    var m, d, d' := st.proc.m, st.disk, st'.disk;
    var r := CurrentReplay(d);
    GarbageIsNotNeeded(d, m, r, n);
    RecoverableFrame(d, d', r, st.history, {}, st.dropped);
    assert st.history + {} == st.history;
    TablesFrame(d.tables, d'.tables, m.files);
    if m.comp.Comp? {
      TablesFrame(d.tables, d'.tables, m.comp.inputs);
      TablesFrame(d.tables, d'.tables, m.comp.outs);
    }
  }

  lemma DeleteManifestInv(st: State, n: nat, st': State)
    requires Inv(st) && st.proc.Up? && GcStep(st, st.proc.m, DeleteManifest(n), st')
    ensures Inv(st')
  {
    var d, d' := st.disk, st'.disk;
    RecoverableFrame(d, d', CurrentReplay(d), st.history, {}, st.dropped);
    assert st.history + {} == st.history;
  }

  lemma GcDoneInv(st: State, st': State)
    requires Inv(st) && st.proc.Up? && GcStep(st, st.proc.m, GcDone, st')
    ensures Inv(st')
  {
  }

  // ----- opening

  lemma OpenStartInv(st: State, st': State)
    requires Inv(st) && OpenStep(st, OpenStart, st')
    ensures Inv(st')
  {
    var d, p := st.disk, st'.proc;
    var r := CurrentReplay(d);
    var lo := r.meta.value.logNumber;
    assert TableEntries(d.tables, {}) == {} && p.base + p.added == r.files;
    forall e | e in LogEntries(d.logs, lo)
      ensures e in LogEntries(p.rest, 0)
    {
      var n :| n in d.logs && lo <= n && e in RecEntries(d.logs[n]);
      assert n in p.rest && p.rest[n] == d.logs[n];
    }
    assert LogEntries(p.rest, 0) <= LogEntries(d.logs, lo);
  }

  lemma {:induction false} MaxLastBounds(rs: seq<Rec>)
    requires RecsOk(rs)
    ensures UpTo(RecEntries(rs), MaxLast(rs))
  {
    if rs != [] {
      var front, last := rs[..|rs| - 1], rs[|rs| - 1];
      MaxLastBounds(front);
      RecEntriesSnoc(front, last);
      assert rs == front + [last];
    }
  }

  lemma RestShrinks(rest: map<nat, seq<Rec>>, n: nat, k: nat)
    requires n in rest && k <= |rest[n]|
    ensures LogEntries(rest, 0) == RecEntries(rest[n][..k]) + LogEntries(rest[n := rest[n][k..]], 0)
  {
    var rest' := rest[n := rest[n][k..]];
    RecEntriesSplit(rest[n], k);
    forall e | e in LogEntries(rest, 0)
      ensures e in RecEntries(rest[n][..k]) + LogEntries(rest', 0)
    {
      var m :| m in rest && e in RecEntries(rest[m]);
      assert m in rest';
    }
    forall e | e in LogEntries(rest', 0)
      ensures e in LogEntries(rest, 0)
    {
      var m :| m in rest' && e in RecEntries(rest'[m]);
      assert m in rest;
    }
  }

  lemma ReplaySomeInv(st: State, n: nat, k: nat, st': State)
    requires Inv(st) && OpenStep(st, ReplaySome(n, k), st')
    ensures Inv(st')
  {
    var d, d', p, p' := st.disk, st'.disk, st.proc, st'.proc;
    var r, t, recs := CurrentReplay(d), p.nextFile, p.rest[n][..k];
    assert t !in p.base + p.added;
    RecoverableFrame(d, d', r, st.history, {}, st.dropped);
    assert st.history + {} == st.history;
    TablesFrame(d.tables, d'.tables, p.base + p.added);
    TablesFrame(d.tables, d'.tables, p.added);
    TablesUnion(d'.tables, p.added, {t});
    TablesUnion(d'.tables, p.base + p.added, {t});
    OneTable(d'.tables, t);
    assert p'.base + p'.added == p.base + p.added + {t};
    MaxLastBounds(recs);
    RestShrinks(p.rest, n, k);
  }

  lemma LogDoneInv(st: State, n: nat, st': State)
    requires Inv(st) && OpenStep(st, LogDone(n), st')
    ensures Inv(st')
  {
    var p, p' := st.proc, st'.proc;
    assert RecEntries([]) == {};
    forall e | e in LogEntries(p.rest, 0)
      ensures e in LogEntries(p'.rest, 0)
    {
      var m :| m in p.rest && e in RecEntries(p.rest[m]);
      assert m in p'.rest;
    }
    assert LogEntries(p'.rest, 0) <= LogEntries(p.rest, 0);
  }

  lemma EmptyLog(logs: map<nat, seq<Rec>>, n: nat, lo: nat)
    requires n !in logs
    ensures LogEntries(logs[n := []], lo) == LogEntries(logs, lo)
  {
    assert RecEntries([]) == {};
    forall e | e in LogEntries(logs, lo)
      ensures e in LogEntries(logs[n := []], lo)
    {
      var m :| m in logs && lo <= m && e in RecEntries(logs[m]);
      assert logs[n := []][m] == logs[m];
    }
  }

  lemma OpenLogInv(st: State, st': State)
    requires Inv(st) && OpenStep(st, OpenLog, st')
    ensures Inv(st')
  {
    var d, d', p := st.disk, st'.disk, st.proc;
    var r := CurrentReplay(d);
    var lo := r.meta.value.logNumber;
    assert forall n :: n in d.logs ==> n < p.nextFile;
    EmptyLog(d.logs, p.nextFile, lo);
    RecoverableFrame(d, d', r, st.history, {}, st.dropped);
    assert st.history + {} == st.history;
    assert LogEntries(p.rest, 0) == {};
  }

  lemma OpenManifestInv(st: State, st': State)
    requires Inv(st) && OpenStep(st, OpenManifest, st')
    ensures Inv(st')
  {
    RecoverableFrame(st.disk, st'.disk, CurrentReplay(st.disk), st.history, {}, st.dropped);
    assert st.history + {} == st.history;
  }

  lemma OpenEditInv(st: State, st': State)
    requires Inv(st) && OpenStep(st, OpenEdit, st')
    ensures Inv(st')
  {
    RecoverableFrame(st.disk, st'.disk, CurrentReplay(st.disk), st.history, {}, st.dropped);
    assert st.history + {} == st.history;
  }

  lemma OpenSwitchInv(st: State, st': State)
    requires Inv(st) && OpenStep(st, OpenSwitch, st')
    ensures Inv(st')
  {
    var d, d', p := st.disk, st'.disk, st.proc;
    var r, newLog := CurrentReplay(d), p.stage.newLog;
    var snap, edit := Edit(p.base, {}, None), Edit(p.added, {}, Some(Meta(newLog, p.nextFile, p.lastSequence)));
    ReplaySnoc([], snap);
    ReplaySnoc([snap], edit);
    assert [] + [snap] == [snap] && [snap] + [edit] == [snap, edit];
    var r' := Replayed(p.base + p.added, edit.meta);
    assert {} - {} + p.base == p.base && p.base - {} + p.added == p.base + p.added;
    assert CurrentReplay(d') == r';
    TablesUnion(d.tables, p.base, p.added);
    NewLogEmpty(d.logs, newLog, p.nextFile);
    assert Recovered(d', r') == Recovered(d, r);
  }

  lemma NewLogEmpty(logs: map<nat, seq<Rec>>, newLog: nat, nextFile: nat)
    requires NewLogOk(logs, newLog, nextFile)
    ensures LogEntries(logs, newLog) == {} && OldLogEntries(logs, newLog, newLog) == {} && RecEntries(logs[newLog]) == {}
  {
    assert RecEntries([]) == {};
  }

  lemma OpenDoneInv(st: State, st': State)
    requires Inv(st) && OpenStep(st, OpenDone, st')
    ensures Inv(st')
  {
    var d, p := st.disk, st.proc;
    NewLogEmpty(d.logs, p.stage.newLog, p.nextFile);
  }

  // ----- every run

  lemma UpStepInv(st: State, step: Step, st': State)
    requires Inv(st) && st.proc.Up? && (WriterStep(st, st.proc.m, step, st') || FlushStep(st, st.proc.m, step, st'))
    ensures Inv(st')
  {
    match step
    case AppendLog(rec) => AppendLogInv(st, rec, st');
    case ApplyMem => ApplyMemInv(st, st');
    case SwitchMem => SwitchMemInv(st, st');
    case FlushAlloc => FlushAllocInv(st, st');
    case FlushBuild => FlushBuildInv(st, st');
    case FlushCommit => FlushCommitInv(st, st');
    case FlushInstall => FlushInstallInv(st, st');
  }

  lemma CompStepInv(st: State, step: Step, st': State)
    requires Inv(st) && st.proc.Up? && CompStep(st, st.proc.m, step, st')
    ensures Inv(st')
  {
    match step
    case CompStart(inputs) => CompStartInv(st, inputs, st');
    case CompAlloc => CompAllocInv(st, st');
    case CompWrite(n, content) => CompWriteInv(st, n, content, st');
    case CompCommit => CompCommitInv(st, st');
    case CompInstall => CompInstallInv(st, st');
    case CompRelease => CompReleaseInv(st, st');
  }

  lemma ReaderGcStepInv(st: State, step: Step, st': State)
    requires Inv(st) && st.proc.Up? && (ReaderStep(st, st.proc.m, step, st') || GcStep(st, st.proc.m, step, st'))
    ensures Inv(st')
  {
    match step
    case Ref => RefInv(st, st');
    case Unref(i) => UnrefInv(st, i, st');
    case DeleteLog(n) => DeleteLogInv(st, n, st');
    case DeleteTable(n) => DeleteTableInv(st, n, st');
    case DeleteManifest(n) => DeleteManifestInv(st, n, st');
    case GcDone => GcDoneInv(st, st');
  }

  lemma OpenStepInv(st: State, step: Step, st': State)
    requires Inv(st) && OpenStep(st, step, st')
    ensures Inv(st')
  {
    match step
    case OpenStart => OpenStartInv(st, st');
    case ReplaySome(n, k) => ReplaySomeInv(st, n, k, st');
    case LogDone(n) => LogDoneInv(st, n, st');
    case OpenLog => OpenLogInv(st, st');
    case OpenManifest => OpenManifestInv(st, st');
    case OpenEdit => OpenEditInv(st, st');
    case OpenSwitch => OpenSwitchInv(st, st');
    case OpenDone => OpenDoneInv(st, st');
  }

  /** Every step keeps the invariant, a crash included. */
  lemma StepKeepsInv(st: State, step: Step, st': State)
    requires Inv(st) && Next(st, step, st')
    ensures Inv(st')
  {
    if step == Crash && st' == st.(proc := Down) {
    } else if OpenStep(st, step, st') {
      OpenStepInv(st, step, st');
    } else if WriterStep(st, st.proc.m, step, st') || FlushStep(st, st.proc.m, step, st') {
      UpStepInv(st, step, st');
    } else if CompStep(st, st.proc.m, step, st') {
      CompStepInv(st, step, st');
    } else {
      ReaderGcStepInv(st, step, st');
    }
  }

  /** NewDB: manifest 1, with one record. */
  function Initial(): State {
    State(Disk(map[], map[], map[1 := [Edit({}, {}, Some(Meta(0, 2, 0)))]], 1), Down, {}, {})
  }

  ghost predicate Run(states: seq<State>, steps: seq<Step>) {
    && |states| == |steps| + 1 && states[0] == Initial()
    && forall i :: 0 <= i < |steps| ==> Next(states[i], steps[i], states[i + 1])
  }

  lemma InitialInv()
    ensures Inv(Initial())
  {
    var d := Initial().disk;
    var e := Edit({}, {}, Some(Meta(0, 2, 0)));
    ReplaySnoc([], e);
    assert [] + [e] == [e];
    assert CurrentReplay(d) == Replayed({}, e.meta);
  }

  lemma {:induction false} RunKeepsInv(states: seq<State>, steps: seq<Step>, i: nat)
    requires Run(states, steps) && i < |states|
    ensures Inv(states[i])
  {
    if i == 0 {
      InitialInv();
    } else {
      RunKeepsInv(states, steps, i - 1);
      StepKeepsInv(states[i - 1], steps[i - 1], states[i]);
    }
  }

  /** Crash safety: in every reachable state, whatever the process is in the middle of, the disk alone
      recovers the history of fully appended records but for what committed compactions dropped. */
  lemma CrashSafe(states: seq<State>, steps: seq<Step>, i: nat)
    requires Run(states, steps) && i < |states|
    ensures var st := states[i]; Recoverable(st.disk, CurrentReplay(st.disk), st.history, st.dropped)
  {
    RunKeepsInv(states, steps, i);
  }

  /** No step but the commit of a compaction adds to what may be lost. */
  lemma {:induction false} OnlyCompactionsDrop(states: seq<State>, steps: seq<Step>, i: nat)
    requires Run(states, steps) && i < |states| && forall j :: 0 <= j < i ==> !steps[j].CompCommit?
    ensures states[i].dropped == {}
  {
    if i > 0 {
      OnlyCompactionsDrop(states, steps, i - 1);
      assert Next(states[i - 1], steps[i - 1], states[i]);
    }
  }

  /** Everything a running process answers from. */
  ghost function Contents(st: State): set<Entry>
    requires st.proc.Up?
  {
    TableEntries(st.disk.tables, st.proc.m.files) + ImmEntries(st.proc.m) + st.proc.m.mem
  }

  /** Reopening: when an open completes, the tables alone hold exactly what was recoverable, the last sequence
      number covers all of it, and no log is needed any more. */
  lemma ReopenRebuilds(states: seq<State>, steps: seq<Step>, i: nat)
    requires Run(states, steps) && i < |steps| && steps[i] == OpenDone
    ensures states[i + 1].proc.Up?
    ensures var st := states[i + 1];
            && Contents(st) <= st.history <= Contents(st) + st.dropped
            && UpTo(Contents(st), st.proc.m.lastSequence)
  {
    RunKeepsInv(states, steps, i + 1);
    JustOpened(states[i], states[i + 1]);
    OpenedContents(states[i + 1]);
  }

  lemma JustOpened(st: State, st': State)
    requires Next(st, OpenDone, st')
    ensures st'.proc.Up? && st'.proc.m.inflight == None && st'.proc.m.flush == NoFlush && st'.proc.m.comp == NoComp
  {
  }

  lemma OpenedContents(st: State)
    requires Inv(st) && st.proc.Up? && st.proc.m.inflight == None && st.proc.m.flush == NoFlush && st.proc.m.comp == NoComp
    ensures Contents(st) <= st.history <= Contents(st) + st.dropped && UpTo(Contents(st), st.proc.m.lastSequence)
  {
    LogsSplit(st.disk.logs, st.proc.m);
    assert Recovered(st.disk, CurrentReplay(st.disk)) == Contents(st);
  }

  /** Safe garbage collection: in every reachable state every table of every referenced version, and every
      finished output not yet installed, is on disk, and so is the log of each memtable. */
  lemma NothingNeededIsDeleted(states: seq<State>, steps: seq<Step>, i: nat)
    requires Run(states, steps) && i < |states| && states[i].proc.Up?
    ensures var st := states[i]; Needed(st.proc.m) <= st.disk.tables.Keys
    ensures var st := states[i];
            && st.proc.m.logFile in st.disk.logs
            && LogEntries(st.disk.logs, st.proc.m.logNumber) == ImmEntries(st.proc.m) + st.proc.m.mem + FlightEntries(st.proc.m)
  {
    RunKeepsInv(states, steps, i);
    LogsSplit(states[i].disk.logs, states[i].proc.m);
  }

  // ----- the last sequence number survives

  ghost predicate RecsUpTo(rs: seq<Rec>, top: nat) { forall i :: 0 <= i < |rs| ==> rs[i].last <= top }

  ghost predicate LogsUpTo(logs: map<nat, seq<Rec>>, top: nat) { forall n :: n in logs ==> RecsUpTo(logs[n], top) }

  /** Some record of the logs from `lo` on reaches `top`. */
  ghost predicate Reaches(logs: map<nat, seq<Rec>>, lo: nat, top: nat) {
    exists n, i :: n in logs && lo <= n && 0 <= i < |logs[n]| && logs[n][i].last == top
  }

  /** What the disk says of the last sequence number, manifest and needed logs together, is `top`. */
  ghost predicate DiskTop(d: Disk, r: Replayed, top: nat) {
    && r.meta.Some? && r.meta.value.lastSequence <= top && LogsUpTo(d.logs, top)
    && (r.meta.value.lastSequence == top || Reaches(d.logs, r.meta.value.logNumber, top))
  }

  ghost predicate UpTop(d: Disk, m: Memory, top: nat) {
    && m.lastSequence <= top && (m.inflight.None? ==> m.lastSequence == top)
    && (m.inflight.Some? ==>
          && m.inflight.value.last == top && m.logFile in d.logs && |d.logs[m.logFile]| > 0
          && d.logs[m.logFile][|d.logs[m.logFile]| - 1] == m.inflight.value)
  }

  ghost predicate OpenTop(p: Process, top: nat)
    requires p.Opening?
  {
    && p.lastSequence <= top && LogsUpTo(p.rest, top)
    && (p.lastSequence == top || (p.stage == Replaying && Reaches(p.rest, 0, top)))
  }

  /** `top` is the last sequence number ever appended to a log. */
  ghost predicate TopInv(st: State, top: nat) {
    && DiskTop(st.disk, CurrentReplay(st.disk), top)
    && (st.proc.Up? ==> UpTop(st.disk, st.proc.m, top))
    && (st.proc.Opening? ==> OpenTop(st.proc, top))
  }

  lemma AppendTop(st: State, rec: Rec, st': State, top: nat)
    requires Inv(st) && TopInv(st, top) && st.proc.Up? && WriterStep(st, st.proc.m, AppendLog(rec), st')
    ensures top <= rec.last && TopInv(st', rec.last)
  {
    var m, d, d' := st.proc.m, st.disk, st'.disk;
    assert m.inflight.None? && m.lastSequence == top;
    assert CurrentReplay(d') == CurrentReplay(d);
    var log := d'.logs[m.logFile];
    assert log[|log| - 1] == rec;
    assert m.logFile in d'.logs;
    forall n | n in d'.logs
      ensures RecsUpTo(d'.logs[n], rec.last)
    {
      assert n in d.logs && RecsUpTo(d.logs[n], top);
    }
    var r := CurrentReplay(d);
    assert r.meta.value.logNumber <= m.logFile;
    assert Reaches(d'.logs, r.meta.value.logNumber, rec.last);
  }

  lemma ReachesFrame(logs: map<nat, seq<Rec>>, logs': map<nat, seq<Rec>>, lo: nat, top: nat)
    requires Reaches(logs, lo, top) && forall n :: n in logs && lo <= n ==> n in logs' && logs'[n] == logs[n]
    ensures Reaches(logs', lo, top)
  {
    var n, i :| n in logs && lo <= n && 0 <= i < |logs[n]| && logs[n][i].last == top;
    assert n in logs' && logs'[n][i].last == top;
  }

  /** Steps that leave the manifest and the needed logs alone. */
  lemma DiskTopFrame(d: Disk, d': Disk, top: nat)
    requires DiskTop(d, CurrentReplay(d), top) && CurrentReplay(d') == CurrentReplay(d) && LogsUpTo(d'.logs, top)
    requires forall n :: n in d.logs && CurrentReplay(d).meta.value.logNumber <= n ==> n in d'.logs && d'.logs[n] == d.logs[n]
    ensures DiskTop(d', CurrentReplay(d'), top)
  {
    var r := CurrentReplay(d);
    if r.meta.value.lastSequence != top {
      ReachesFrame(d.logs, d'.logs, r.meta.value.logNumber, top);
    }
  }

  /** A commit of the current number: the write in flight, if any, is still in its log. */
  lemma CommitTop(d: Disk, m: Memory, e: Edit, top: nat)
    requires d.current in d.manifests && LogsUpTo(d.logs, top) && UpTop(d, m, top)
    requires e.meta.Some? && e.meta.value.lastSequence == m.lastSequence && e.meta.value.logNumber <= m.logFile
    ensures DiskTop(Logged(d, e), CurrentReplay(Logged(d, e)), top)
  {
    ReplaySnoc(d.manifests[d.current], e);
    var d' := Logged(d, e);
    if m.inflight.Some? {
      var i := |d.logs[m.logFile]| - 1;
      assert d'.logs[m.logFile][i].last == top;
      assert Reaches(d'.logs, e.meta.value.logNumber, top);
    }
  }

  lemma WriterTop(st: State, step: Step, st': State, top: nat)
    requires Inv(st) && TopInv(st, top) && st.proc.Up? && WriterStep(st, st.proc.m, step, st') && !step.AppendLog?
    ensures TopInv(st', top)
  {
    if step.SwitchMem? {
      var d, d' := st.disk, st'.disk;
      assert CurrentReplay(d') == CurrentReplay(d);
      forall n | n in d'.logs
        ensures RecsUpTo(d'.logs[n], top)
      {
        assert n != st.proc.m.nextFile ==> n in d.logs && RecsUpTo(d.logs[n], top);
      }
      DiskTopFrame(d, d', top);
    }
  }

  lemma FlushTop(st: State, step: Step, st': State, top: nat)
    requires Inv(st) && TopInv(st, top) && st.proc.Up? && FlushStep(st, st.proc.m, step, st')
    ensures TopInv(st', top)
  {
    var m := st.proc.m;
    if step.FlushCommit? {
      CommitTop(st.disk, m, Edit(m.flush.out, {}, Some(Meta(m.logFile, m.nextFile, m.lastSequence))), top);
    } else {
      assert CurrentReplay(st'.disk) == CurrentReplay(st.disk);
      DiskTopFrame(st.disk, st'.disk, top);
    }
  }

  lemma CompTop(st: State, step: Step, st': State, top: nat)
    requires Inv(st) && TopInv(st, top) && st.proc.Up? && CompStep(st, st.proc.m, step, st')
    ensures TopInv(st', top)
  {
    var m := st.proc.m;
    if step.CompCommit? {
      CommitTop(st.disk, m, Edit(m.comp.outs, m.comp.inputs, Some(Meta(m.logNumber, m.nextFile, m.lastSequence))), top);
    } else {
      assert CurrentReplay(st'.disk) == CurrentReplay(st.disk);
      DiskTopFrame(st.disk, st'.disk, top);
    }
  }

  lemma ReaderGcTop(st: State, step: Step, st': State, top: nat)
    requires Inv(st) && TopInv(st, top) && st.proc.Up? && (ReaderStep(st, st.proc.m, step, st') || GcStep(st, st.proc.m, step, st'))
    ensures TopInv(st', top)
  {
    var d, d', m := st.disk, st'.disk, st.proc.m;
    assert CurrentReplay(d') == CurrentReplay(d);
    forall n | n in d'.logs
      ensures RecsUpTo(d'.logs[n], top)
    {
      assert n in d.logs && RecsUpTo(d.logs[n], top);
    }
    DiskTopFrame(d, d', top);
  }

  lemma {:induction false} MaxLastIs(rs: seq<Rec>, top: nat)
    requires RecsUpTo(rs, top)
    ensures MaxLast(rs) <= top && forall i :: 0 <= i < |rs| ==> rs[i].last <= MaxLast(rs)
  {
    if rs != [] {
      MaxLastIs(rs[..|rs| - 1], top);
    }
  }

  lemma ReplayTop(st: State, n: nat, k: nat, st': State, top: nat)
    requires Inv(st) && TopInv(st, top) && OpenStep(st, ReplaySome(n, k), st')
    ensures TopInv(st', top)
  {
    var d, d', p, p' := st.disk, st'.disk, st.proc, st'.proc;
    var recs := p.rest[n][..k];
    assert CurrentReplay(d') == CurrentReplay(d);
    DiskTopFrame(d, d', top);
    assert RecsUpTo(p.rest[n], top);
    MaxLastIs(recs, top);
    forall x | x in p'.rest
      ensures RecsUpTo(p'.rest[x], top)
    {
      assert x in p.rest && RecsUpTo(p.rest[x], top);
    }
    if p'.lastSequence != top {
      RestReaches(p.rest, n, k, top);
    }
  }

  lemma RestReaches(rest: map<nat, seq<Rec>>, n: nat, k: nat, top: nat)
    requires Reaches(rest, 0, top) && n in rest && k <= |rest[n]| && MaxLast(rest[n][..k]) < top
    requires RecsUpTo(rest[n][..k], top)
    ensures Reaches(rest[n := rest[n][k..]], 0, top)
  {
    var rest': map<nat, seq<Rec>> := rest[n := rest[n][k..]];
    var x, i :| x in rest && 0 <= i < |rest[x]| && rest[x][i].last == top;
    MaxLastIs(rest[n][..k], top);
    assert forall j :: 0 <= j < k ==> rest[n][j] == rest[n][..k][j];
    if x == n {
      assert rest'[n][i - k].last == top;
    } else {
      assert x in rest' && rest'[x][i].last == top;
    }
  }

  lemma OpenTopStep(st: State, step: Step, st': State, top: nat)
    requires Inv(st) && TopInv(st, top) && OpenStep(st, step, st')
    ensures TopInv(st', top)
  {
    if step.OpenStart? {
      OpenStartTop(st, st', top);
    } else if step.ReplaySome? {
      ReplayTop(st, step.n, step.k, st', top);
    } else if step.LogDone? {
      LogDoneTop(st, step.n, st', top);
    } else if step.OpenSwitch? {
      SwitchTop(st, st', top);
    } else {
      OtherOpenStep(st, step, st');
      OpenOtherTop(st, step, st', top);
    }
  }

  lemma OtherOpenStep(st: State, step: Step, st': State)
    requires OpenStep(st, step, st') && !step.OpenStart? && !step.ReplaySome? && !step.LogDone? && !step.OpenSwitch?
    ensures step.OpenLog? || step.OpenManifest? || step.OpenEdit? || step.OpenDone?
  {
  }

  lemma OpenStartTop(st: State, st': State, top: nat)
    requires Inv(st) && TopInv(st, top) && OpenStep(st, OpenStart, st')
    ensures TopInv(st', top)
  {
    var d, p := st.disk, st'.proc;
    var lo := CurrentReplay(d).meta.value.logNumber;
    forall n | n in p.rest
      ensures RecsUpTo(p.rest[n], top)
    {
      assert n in d.logs && RecsUpTo(d.logs[n], top);
    }
    if p.lastSequence != top {
      var n, i :| n in d.logs && lo <= n && 0 <= i < |d.logs[n]| && d.logs[n][i].last == top;
      assert n in p.rest && p.rest[n][i].last == top;
    }
  }

  lemma LogDoneTop(st: State, n: nat, st': State, top: nat)
    requires Inv(st) && TopInv(st, top) && OpenStep(st, LogDone(n), st')
    ensures TopInv(st', top)
  {
    var p, p' := st.proc, st'.proc;
    forall x | x in p'.rest
      ensures RecsUpTo(p'.rest[x], top)
    {
      assert x in p.rest && RecsUpTo(p.rest[x], top);
    }
    if p.lastSequence != top {
      var x, i :| x in p.rest && 0 <= i < |p.rest[x]| && p.rest[x][i].last == top;
      assert x in p'.rest && p'.rest[x][i].last == top;
    }
  }

  lemma SwitchTop(st: State, st': State, top: nat)
    requires Inv(st) && TopInv(st, top) && OpenStep(st, OpenSwitch, st')
    ensures TopInv(st', top)
  {
    OpenSwitchInv(st, st');
    assert CurrentReplay(st'.disk).meta.value.lastSequence == st.proc.lastSequence;
  }

  lemma OpenOtherTop(st: State, step: Step, st': State, top: nat)
    requires Inv(st) && TopInv(st, top) && OpenStep(st, step, st') && (step.OpenLog? || step.OpenManifest? || step.OpenEdit? || step.OpenDone?)
    ensures TopInv(st', top)
  {
    var d, d' := st.disk, st'.disk;
    assert CurrentReplay(d') == CurrentReplay(d);
    if step.OpenLog? {
      assert forall n :: n in d.logs ==> n != st.proc.nextFile;
    }
    forall n | n in d'.logs
      ensures RecsUpTo(d'.logs[n], top)
    {
      assert n in d.logs ==> RecsUpTo(d.logs[n], top);
    }
    DiskTopFrame(d, d', top);
  }

  lemma StepKeepsTop(st: State, step: Step, st': State, top: nat)
    requires Inv(st) && TopInv(st, top) && Next(st, step, st')
    ensures step.AppendLog? ==> top <= step.rec.last
    ensures TopInv(st', if step.AppendLog? then step.rec.last else top)
  {
    if step == Crash && st' == st.(proc := Down) {
    } else if OpenStep(st, step, st') {
      OpenTopStep(st, step, st', top);
    } else if WriterStep(st, st.proc.m, step, st') {
      if step.AppendLog? {
        AppendTop(st, step.rec, st', top);
      } else {
        WriterTop(st, step, st', top);
      }
    } else if FlushStep(st, st.proc.m, step, st') {
      FlushTop(st, step, st', top);
    } else if CompStep(st, st.proc.m, step, st') {
      CompTop(st, step, st', top);
    } else {
      ReaderGcTop(st, step, st', top);
    }
  }

  lemma InitialTop()
    ensures TopInv(Initial(), 0)
  {
    var e := Edit({}, {}, Some(Meta(0, 2, 0)));
    ReplaySnoc([], e);
    assert [] + [e] == [e];
  }

  /** `top` is 0 or the last number of some append among the first n steps, and no smaller than that of any. */
  ghost predicate IsTop(steps: seq<Step>, n: nat, top: nat)
    requires n <= |steps|
  {
    && (top == 0 || exists j :: 0 <= j < n && steps[j].AppendLog? && steps[j].rec.last == top)
    && forall j :: 0 <= j < n && steps[j].AppendLog? ==> steps[j].rec.last <= top
  }

  lemma TopGrows(steps: seq<Step>, n: nat, top: nat)
    requires n < |steps| && IsTop(steps, n, top) && (steps[n].AppendLog? ==> top <= steps[n].rec.last)
    ensures IsTop(steps, n + 1, if steps[n].AppendLog? then steps[n].rec.last else top)
  {
  }

  lemma {:induction false} RunKeepsTop(states: seq<State>, steps: seq<Step>, i: nat) returns (top: nat)
    requires Run(states, steps) && i < |states|
    ensures TopInv(states[i], top) && IsTop(steps, i, top)
  {
    if i == 0 {
      InitialTop();
      top := 0;
    } else {
      var was := RunKeepsTop(states, steps, i - 1);
      RunKeepsInv(states, steps, i - 1);
      StepKeepsTop(states[i - 1], steps[i - 1], states[i], was);
      TopGrows(steps, i - 1, was);
      top := if steps[i - 1].AppendLog? then steps[i - 1].rec.last else was;
    }
  }

  /** The last sequence number survives every crash: whenever the database is open and no write is between log and
      memtable, and so whenever an open completes, it is that of the latest record ever appended, neither more nor less. */
  lemma LastSequenceSurvives(states: seq<State>, steps: seq<Step>, i: nat)
    requires Run(states, steps) && i < |states| && states[i].proc.Up?
    requires states[i].proc.m.inflight.None? || (i > 0 && steps[i - 1] == OpenDone)
    ensures var last := states[i].proc.m.lastSequence;
            && (last == 0 || exists j :: 0 <= j < i && steps[j].AppendLog? && steps[j].rec.last == last)
            && forall j :: 0 <= j < i && steps[j].AppendLog? ==> steps[j].rec.last <= last
  {
    var top := RunKeepsTop(states, steps, i);
    if i > 0 && steps[i - 1] == OpenDone {
      JustOpened(states[i - 1], states[i]);
    }
  }

  // ----- opening always completes, and garbage always goes

  ghost function StageRank(p: Process): nat {
    match p
    case Down => 6
    case Up(_) => 0
    case Opening(_, _, _, _, _, _, stage) =>
      match stage
      case Replaying => 5
      case LogCreated(_) => 4
      case ManifestStarted(_) => 3
      case ManifestReady(_) => 2
      case Switched(_) => 1
  }

  /** Logs still to be read, those with records counted twice. */
  ghost function LogsLeft(p: Process): nat {
    if p.Opening? then |p.rest.Keys| + |Unread(p.rest)| else 0
  }

  ghost function Unread(rest: map<nat, seq<Rec>>): set<nat> { set n | n in rest && rest[n] != [] }

  lemma {:induction false} LeastOf(s: set<nat>) returns (n: nat)
    requires s != {}
    ensures n in s && forall m :: m in s ==> n <= m
    decreases |s|
  {
    var x :| x in s;
    if s - {x} == {} {
      assert s == {x};
      n := x;
    } else {
      var y := LeastOf(s - {x});
      n := if x < y then x else y;
      assert forall m :: m in s ==> m == x || m in s - {x};
    }
  }

  /** Whatever the crash left behind, the database can be opened: from every state in which it is not up some step of
      opening is enabled, and brings it closer to being up. */
  lemma OpenCanMove(st: State) returns (step: Step, st': State)
    requires Inv(st) && !st.proc.Up?
    ensures Next(st, step, st')
    ensures StageRank(st'.proc) < StageRank(st.proc) || (StageRank(st'.proc) == StageRank(st.proc) && LogsLeft(st'.proc) < LogsLeft(st.proc))
  {
    var p := st.proc;
    if p.Down? {
      var meta := CurrentReplay(st.disk).meta.value;
      step := OpenStart;
      st' := st.(proc := Opening(CurrentReplay(st.disk).files, {}, NewerLogs(st.disk.logs, meta.logNumber), meta.nextFile + 1, meta.nextFile,
                                 meta.lastSequence, Replaying));
    } else if p.stage.Replaying? {
      step, st' := ReplayCanMove(st);
    } else {
      step, st' := LaterStages(st);
    }
    assert OpenStep(st, step, st');
  }

  lemma ReplayCanMove(st: State) returns (step: Step, st': State)
    requires st.proc.Opening? && st.proc.stage.Replaying?
    ensures OpenStep(st, step, st')
    ensures StageRank(st'.proc) < StageRank(st.proc) || (StageRank(st'.proc) == StageRank(st.proc) && LogsLeft(st'.proc) < LogsLeft(st.proc))
  {
    var p := st.proc;
    if p.rest.Keys == {} {
      assert p.rest == map[];
      step := OpenLog;
      st' := st.(disk := st.disk.(logs := st.disk.logs[p.nextFile := []]),
                 proc := p.(stage := LogCreated(p.nextFile), nextFile := p.nextFile + 1));
    } else {
      var n := LeastOf(p.rest.Keys);
      if p.rest[n] == [] {
        step := LogDone(n);
        st' := st.(proc := p.(rest := p.rest - {n}, nextFile := MaxOf(p.nextFile, n + 1)));
        DoneShrinks(p.rest, n);
      } else {
        var k := |p.rest[n]|;
        var recs := p.rest[n][..k];
        step := ReplaySome(n, k);
        st' := st.(disk := st.disk.(tables := st.disk.tables[p.nextFile := RecEntries(recs)]),
                   proc := p.(added := p.added + {p.nextFile}, rest := p.rest[n := p.rest[n][k..]], nextFile := p.nextFile + 1,
                              lastSequence := MaxOf(p.lastSequence, MaxLast(recs))));
        ReplayShrinks(p.rest, n);
      }
    }
  }

  lemma DoneShrinks(rest: map<nat, seq<Rec>>, n: nat)
    requires n in rest && rest[n] == []
    ensures var rest' := rest - {n};
            |rest'.Keys| < |rest.Keys| && Unread(rest') == Unread(rest)
  {
    var rest' := rest - {n};
    assert rest'.Keys == rest.Keys - {n};
  }

  lemma ReplayShrinks(rest: map<nat, seq<Rec>>, n: nat)
    requires n in rest && rest[n] != []
    ensures var rest' := rest[n := rest[n][|rest[n]|..]];
            rest'.Keys == rest.Keys && |Unread(rest')| < |Unread(rest)|
  {
    var rest' := rest[n := rest[n][|rest[n]|..]];
    assert rest[n][|rest[n]|..] == [];
    assert Unread(rest') == Unread(rest) - {n} && n in Unread(rest);
  }

  lemma LaterStages(st: State) returns (step: Step, st': State)
    requires Inv(st) && st.proc.Opening? && !st.proc.stage.Replaying?
    ensures OpenStep(st, step, st') && StageRank(st'.proc) < StageRank(st.proc)
  {
    var p := st.proc;
    match p.stage
    case LogCreated(newLog) =>
      step := OpenManifest;
      st' := st.(disk := st.disk.(manifests := st.disk.manifests[p.manifest := [Edit(p.base, {}, None)]]), proc := p.(stage := ManifestStarted(newLog)));
    case ManifestStarted(newLog) =>
      var e := Edit(p.added, {}, Some(Meta(newLog, p.nextFile, p.lastSequence)));
      step := OpenEdit;
      st' := st.(disk := st.disk.(manifests := st.disk.manifests[p.manifest := st.disk.manifests[p.manifest] + [e]]),
                 proc := p.(stage := ManifestReady(newLog)));
    case ManifestReady(newLog) =>
      step, st' := OpenSwitch, st.(disk := st.disk.(current := p.manifest), proc := p.(stage := Switched(newLog)));
    case Switched(newLog) =>
      step := OpenDone;
      st' := st.(proc := Up(Memory({}, None, None, newLog, newLog, p.base + p.added, [], {}, p.nextFile, p.lastSequence, NoFlush, NoComp, true)));
  }

  /** DeleteObsoleteFiles can remove every table that is in no version anyone holds and is not being written, every log
      before the current ones and every manifest before the current one. */
  lemma GarbageCanGo(st: State, n: nat) returns (st': State)
    requires st.proc.Up? && st.proc.m.gc
    requires n !in st.proc.m.pending && n !in st.proc.m.files && (forall i :: 0 <= i < |st.proc.m.refs| ==> n !in st.proc.m.refs[i])
    requires st.proc.m.comp.Comp? ==> n !in st.proc.m.comp.version
    ensures Next(st, DeleteTable(n), st') && st'.disk.tables.Keys == st.disk.tables.Keys - {n} && st'.proc == st.proc
    ensures n < st.proc.m.logNumber ==> Next(st, DeleteLog(n), st.(disk := st.disk.(logs := st.disk.logs - {n})))
    ensures n < st.disk.current ==> Next(st, DeleteManifest(n), st.(disk := st.disk.(manifests := st.disk.manifests - {n})))
  {
    st' := st.(disk := st.disk.(tables := st.disk.tables - {n}));
    assert n !in Live(st.proc.m);
    assert GcStep(st, st.proc.m, DeleteTable(n), st');
  }
}

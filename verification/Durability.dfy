/**
 What survives a crash: the write-ahead logs, the tables, the MANIFEST and CURRENT as a disk, the
 process that writes them as a state machine, and recovery from every disk a crash can leave behind.
 */
module Durability {
  import opened Levels

  /** A write batch as the log sees it: its first sequence number, its length and its contents. */
  datatype Batch = Batch(sequence: nat, count: nat, contents: int)

  function Last(b: Batch): int {
    b.sequence + b.count - 1
  }

  // ----- the disk -----

  datatype Edit = Edit(added: set<nat>, removed: set<nat>, log: Option<nat>, next: Option<nat>, last: Option<nat>)

  /** Records before `tail` are known to be on stable storage. */
  datatype LogFile = LogFile(synced: seq<Batch>, tail: seq<Batch>)

  function Records(l: LogFile): seq<Batch> {
    l.synced + l.tail
  }

  datatype Manifest = Manifest(synced: seq<Edit>, tail: seq<Edit>)

  /** A table is known by the batches it accounts for. */
  datatype Disk = Disk(logs: map<nat, LogFile>, tables: map<nat, set<Batch>>, manifests: map<nat, Manifest>,
                       current: nat)

  datatype FileName = Log(number: nat) | Table(number: nat) | Descriptor(number: nat)

  /** What VersionSet::Recover learns from a MANIFEST. */
  datatype View = View(version: set<nat>, log: Option<nat>, next: Option<nat>, last: Option<nat>)

  function Pick(first: Option<nat>, second: Option<nat>): Option<nat> {
    if second.Some? then second else first
  }

  function ApplyEdit(v: View, e: Edit): View {
    View(v.version - e.removed + e.added, Pick(v.log, e.log), Pick(v.next, e.next), Pick(v.last, e.last))
  }

  function Replay(edits: seq<Edit>): View {
    if |edits| == 0 then View({}, None, None, None)
    else ApplyEdit(Replay(edits[..|edits| - 1]), edits[|edits| - 1])
  }

  predicate InTable(d: Disk, n: nat, b: Batch) {
    n in d.tables && b in d.tables[n]
  }

  predicate InLog(d: Disk, n: nat, b: Batch) {
    n in d.logs && (b in d.logs[n].synced || b in d.logs[n].tail)
  }

  predicate InSyncedLog(d: Disk, n: nat, b: Batch) {
    n in d.logs && b in d.logs[n].synced
  }

  ghost predicate InTables(d: Disk, tables: set<nat>, b: Batch) {
    exists n: nat :: n in tables && InTable(d, n, b)
  }

  ghost predicate InLogs(d: Disk, from: nat, b: Batch) {
    exists n: nat :: from <= n && InLog(d, n, b)
  }

  ghost predicate InOlderLogs(d: Disk, from: nat, below: nat, b: Batch) {
    exists n: nat :: from <= n < below && InLog(d, n, b)
  }

  predicate Complete(v: View) {
    v.log.Some? && v.next.Some? && v.last.Some?
  }

  /** Recovery from this view restores the batch. */
  ghost predicate Holds(d: Disk, v: View, b: Batch)
    requires Complete(v)
  {
    InTables(d, v.version, b) || InLogs(d, v.log.value, b)
  }

  /** Losing every unsynced record would not lose the batch. */
  ghost predicate Secured(d: Disk, v: View, b: Batch)
    requires Complete(v)
  {
    InTables(d, v.version, b) || exists n: nat :: v.log.value <= n && InSyncedLog(d, n, b)
  }

  // ----- the process -----

  datatype Phase = Recovering | Opening | Running
  datatype Change = Nothing | Flushing(edit: Edit) | Compacting(edit: Edit)

  /**
   `imm` holds the batches of the immutable memtable; while opening, those replayed from old logs
   into tables that no MANIFEST names yet. `writing` is in the log but not yet in the memtable.
   */
  datatype Process =
    | Down
    | Up(phase: Phase, version: set<nat>, logNumber: nat, next: nat, manifest: nat, last: nat,
         mem: set<Batch>, imm: Option<set<Batch>>, logfile: nat, writing: Option<Batch>,
         pending: set<nat>, change: Change, doomed: set<FileName>)

  /**
   The history: every batch ever logged, those a recovery would restore, those promised to survive
   (synced, or in an installed table) and those a crash has dropped.
   */
  datatype State = State(disk: Disk, process: Process, logged: set<Batch>, live: set<Batch>, durable: set<Batch>,
                         lost: set<Batch>)

  function ImmSet(p: Process): set<Batch>
    requires p.Up?
  {
    if p.imm.Some? then p.imm.value else {}
  }

  ghost predicate ViewOk(s: State, v: View) {
    && Complete(v)
    && v.log.value < v.next.value && s.disk.current < v.next.value
    && (forall n :: n in v.version ==> n in s.disk.tables && n < v.next.value)
    && (forall b :: b in s.live <==> Holds(s.disk, v, b))
    && (forall b :: b in s.durable ==> Secured(s.disk, v, b))
    && (forall b :: InTables(s.disk, v.version, b) ==> Last(b) <= v.last.value)
  }

  function CurrentManifest(d: Disk): Manifest {
    if d.current in d.manifests then d.manifests[d.current] else Manifest([], [])
  }

  function SyncedView(d: Disk): View {
    Replay(CurrentManifest(d).synced)
  }

  /** The views a crash can leave: with or without the one record not yet synced. */
  ghost predicate DiskOk(s: State) {
    && s.disk.current in s.disk.manifests
    && ViewOk(s, SyncedView(s.disk))
    && |CurrentManifest(s.disk).tail| <= 1
    && (CurrentManifest(s.disk).tail != [] ==>
          ViewOk(s, ApplyEdit(SyncedView(s.disk), CurrentManifest(s.disk).tail[0])))
  }

  function Snapshot(version: set<nat>): Edit {
    Edit(version, {}, None, None, None)
  }

  ghost predicate EditOk(s: State)
    requires s.process.Up? && !s.process.change.Nothing?
  {
    var p, e := s.process, s.process.change.edit;
    && e.log.Some? && e.next.Some? && e.last.Some? && p.manifest < e.next.value <= p.next && e.last.value <= p.last
    && ViewOk(s, ApplyEdit(SyncedView(s.disk), e))
    && (p.change.Flushing? ==> p.imm.Some? && e.log.value == p.logfile)
    && (p.change.Compacting? ==> e.log.value == p.logNumber && p.phase == Running)
    && (forall b :: InTables(s.disk, p.version - e.removed + e.added, b) <==>
          InTables(s.disk, p.version, b) || (p.change.Flushing? && b in ImmSet(p)))
    && if p.manifest == s.disk.current then CurrentManifest(s.disk).tail == [e]
       else
         && p.phase == Opening && CurrentManifest(s.disk).tail == [] && p.manifest in s.disk.manifests
         && s.disk.manifests[p.manifest] == Manifest([], [Snapshot(p.version), e])
  }

  ghost predicate ChangeOk(s: State)
    requires s.process.Up?
  {
    if s.process.change.Nothing? then CurrentManifest(s.disk).tail == [] else EditOk(s)
  }

  /** The running process and its disk tell the same story. */
  ghost predicate LogsOk(s: State)
    requires s.process.Up?
  {
    var p, d := s.process, s.disk;
    && p.logfile in d.logs && p.logNumber <= p.logfile < p.next
    && (forall n :: n in d.logs ==> n <= p.logfile)
    && (forall b :: InLog(d, p.logfile, b) <==> b in p.mem || p.writing == Some(b))
    && (forall b :: InOlderLogs(d, p.logNumber, p.logfile, b) ==> b in ImmSet(p) || InTables(d, p.version, b))
    && (forall b :: b in ImmSet(p) ==> InOlderLogs(d, p.logNumber, p.logfile, b))
    && (forall b :: b in p.mem || b in ImmSet(p) ==> Last(b) <= p.last)
    && (p.writing.Some? ==> p.phase == Running && p.writing.value.sequence == p.last + 1)
    && (p.phase == Running ==> p.manifest == d.current)
    && (p.phase == Opening ==> p.imm.Some?)
  }

  predicate IsDoomed(p: Process, f: FileName)
    requires p.Up?
  {
    match f
    case Log(n) => n < p.logNumber
    case Table(n) => n !in p.version && n !in p.pending
    case Descriptor(n) => n < p.manifest
  }

  ghost predicate UpOk(s: State)
    requires s.process.Up?
  {
    var p, d, v := s.process, s.disk, SyncedView(s.disk);
    && Complete(v) && p.version == v.version && p.logNumber == v.log.value
    && v.next.value <= p.next && v.last.value <= p.last
    && p.manifest < p.next
    && (forall n :: n in p.pending ==> n in d.tables && n < p.next && n !in p.version)
    && ChangeOk(s)
    && (p.doomed != {} ==> p.phase == Running && p.change.Nothing? && forall f :: f in p.doomed ==> IsDoomed(p, f))
    && if p.phase == Recovering then
         p.writing.None? && p.imm.None? && p.mem == {} && p.change.Nothing?
       else LogsOk(s)
  }

  ghost predicate Inv(s: State) {
    && DiskOk(s)
    && s.logged == s.live + s.lost
    && if s.process.Up? then UpOk(s) else CurrentManifest(s.disk).tail == []
  }

  // ----- steps -----

  datatype Step =
    | AddRecord(batch: Batch)
    | SyncLog
    | InsertIntoMemTable
    | SwitchMemTable(number: nat)
    | BuildTable(number: nat, contents: set<Batch>)
    | WriteFlushEdit(added: set<nat>)
    | WriteCompactionEdit(removed: set<nat>, added: set<nat>)
    | Install
    | ChooseObsolete(pinned: set<nat>)
    | RemoveFile(name: FileName)
    | Crash(kept: nat, survivors: Disk, restorable: set<Batch>)
    | StartRecovery(reuseManifest: bool)
    | FinishRecovery(reused: Option<nat>, number: nat, recovered: set<Batch>, last: nat)

  /** Write: the front writer appends its batch, numbered after everything before it, to the log. */
  ghost predicate AddRecordStep(s: State, b: Batch, s': State) {
    s.process.Up? && s.process.phase == Running && s.process.writing.None? && s.process.logfile in s.disk.logs &&
    var p, d := s.process, s.disk;
    && b.sequence == p.last + 1
    && s' == s.(disk := d.(logs := d.logs[p.logfile := d.logs[p.logfile].(tail := d.logs[p.logfile].tail + [b])]),
                process := p.(writing := Some(b)), logged := s.logged + {b}, live := s.live + {b})
  }

  ghost predicate SyncLogStep(s: State, s': State) {
    s.process.Up? && s.process.writing.Some? && s.process.logfile in s.disk.logs &&
    var p, d := s.process, s.disk;
    var log := d.logs[p.logfile];
    s' == s.(disk := d.(logs := d.logs[p.logfile := LogFile(log.synced + log.tail, [])]),
             durable := s.durable + set b | b in log.synced + log.tail)
  }

  ghost predicate InsertStep(s: State, s': State) {
    s.process.Up? && s.process.writing.Some? &&
    var p, b := s.process, s.process.writing.value;
    s' == s.(process := p.(mem := p.mem + {b}, writing := None, last := p.last + b.count))
  }

  /** MakeRoomForWrite: only when there is no immutable memtable. */
  ghost predicate SwitchStep(s: State, number: nat, s': State) {
    s.process.Up? && s.process.phase == Running && s.process.writing.None? && s.process.imm.None? &&
    var p, d := s.process, s.disk;
    && number >= p.next
    && s' == s.(disk := d.(logs := d.logs[number := LogFile([], [])]),
                process := p.(imm := Some(p.mem), mem := {}, logfile := number, next := number + 1))
  }

  /** The background thread is between jobs: no edit on its way to the MANIFEST, no file waiting to be removed. */
  predicate BackgroundFree(p: Process)
    requires p.Up?
  {
    p.change.Nothing? && p.doomed == {}
  }

  /** A complete table under a fresh number, from a memtable or a compaction. */
  ghost predicate BuildTableStep(s: State, number: nat, contents: set<Batch>, s': State) {
    s.process.Up? && BackgroundFree(s.process) && s.process.phase != Opening &&
    var p, d := s.process, s.disk;
    && number >= p.next
    && s' == s.(disk := d.(tables := d.tables[number := contents]),
                process := p.(pending := p.pending + {number}, next := number + 1))
  }

  /** LogAndApply writes the edit's record: to the open MANIFEST or, the first time, after a snapshot in a new one. */
  function LogEdit(s: State, e: Edit): Disk
    requires s.process.Up?
  {
    var p, d := s.process, s.disk;
    if p.manifest == d.current then
      d.(manifests := d.manifests[d.current := CurrentManifest(d).(tail := CurrentManifest(d).tail + [e])])
    else
      d.(manifests := d.manifests[p.manifest := Manifest([], [Snapshot(p.version), e])])
  }

  /** CompactMemTable, and the end of opening: logs before the current one are no longer needed. */
  ghost predicate WriteFlushEditStep(s: State, added: set<nat>, s': State) {
    s.process.Up? && BackgroundFree(s.process) && s.process.phase != Recovering && s.process.imm.Some? &&
    var p, d := s.process, s.disk;
    && added <= p.pending && (forall b :: b in p.imm.value <==> InTables(d, added, b))
    && var e := Edit(added, {}, Some(p.logfile), Some(p.next), Some(p.last));
       s' == s.(disk := LogEdit(s, e), process := p.(change := Flushing(e), pending := p.pending - added))
  }

  /**
   InstallCompactionResults: the outputs account for what the inputs did; the log number stays.  A trivial
   move names its file on both sides.
   */
  ghost predicate WriteCompactionEditStep(s: State, removed: set<nat>, added: set<nat>, s': State) {
    s.process.Up? && BackgroundFree(s.process) && s.process.phase == Running &&
    var p, d := s.process, s.disk;
    && added <= p.pending + removed && removed <= p.version
    && (forall b :: InTables(d, removed, b) <==> InTables(d, added, b))
    && var e := Edit(added, removed, Some(p.logNumber), Some(p.next), Some(p.last));
       s' == s.(disk := LogEdit(s, e), process := p.(change := Compacting(e)))
  }

  /** The record is synced, CURRENT names its MANIFEST and the new version is in use. */
  ghost predicate InstallStep(s: State, s': State) {
    s.process.Up? && !s.process.change.Nothing? && s.process.manifest in s.disk.manifests &&
    var p, d := s.process, s.disk;
    var e, m := p.change.edit, d.manifests[p.manifest];
    && e.log.Some?
    && s'.disk == d.(manifests := d.manifests[p.manifest := Manifest(m.synced + m.tail, [])], current := p.manifest)
    && s'.process ==
      p.(phase := Running, version := p.version - e.removed + e.added, logNumber := e.log.value, change := Nothing,
                        imm := if p.change.Flushing? then None else p.imm,
                        pending := p.pending - e.added)
    && s'.logged == s.logged && s'.live == s.live && s'.lost == s.lost
    && s'.durable == s.durable + if p.change.Flushing? then ImmSet(p) else {}
  }

  predicate OnDisk(d: Disk, f: FileName) {
    match f
    case Log(n) => n in d.logs
    case Table(n) => n in d.tables
    case Descriptor(n) => n in d.manifests
  }

  /** RemoveObsoleteFiles decides under the mutex; `pinned` are tables older versions still use. */
  ghost predicate ChooseObsoleteStep(s: State, pinned: set<nat>, s': State) {
    s.process.Up? && BackgroundFree(s.process) && s.process.phase == Running &&
    var p := s.process;
    && s'.process.Up?
    && (forall f :: f in s'.process.doomed <==>
          OnDisk(s.disk, f) && IsDoomed(p, f) && !(f.Table? && f.number in pinned))
    && s' == s.(process := p.(doomed := s'.process.doomed))
  }

  function Without(d: Disk, f: FileName): Disk {
    match f
    case Log(n) => d.(logs := d.logs - {n})
    case Table(n) => d.(tables := d.tables - {n})
    case Descriptor(n) => d.(manifests := d.manifests - {n})
  }

  /** ... and removes the files one by one with the mutex released. */
  ghost predicate RemoveFileStep(s: State, f: FileName, s': State) {
    && s.process.Up? && f in s.process.doomed
    && s' == s.(disk := Without(s.disk, f), process := s.process.(doomed := s.process.doomed - {f}))
  }

  /** A log after a crash: every synced record and some of the others, in order. */
  ghost predicate LogSurvives(before: LogFile, after: LogFile) {
    after.tail == [] && exists k: nat :: k <= |before.tail| && after.synced == before.synced + before.tail[..k]
  }

  ghost predicate DiskSurvives(d: Disk, kept: nat, d': Disk) {
    && kept <= |CurrentManifest(d).tail|
    && d'.current == d.current && d'.current in d'.manifests
    && CurrentManifest(d') == Manifest(CurrentManifest(d).synced + CurrentManifest(d).tail[..kept], [])
    && (forall n :: n in d'.logs ==> n in d.logs && LogSurvives(d.logs[n], d'.logs[n]))
    && (forall n :: n in d.logs && d.logs[n].synced != [] ==> n in d'.logs)
    && (forall n :: n in SyncedView(d').version && n in d.tables ==> n in d'.tables && d'.tables[n] == d.tables[n])
  }

  /** At any moment the machine may stop; unsynced records, files without any and unused tables may vanish. */
  ghost predicate CrashStep(s: State, kept: nat, survivors: Disk, restorable: set<Batch>, s': State) {
    var v := SyncedView(survivors);
    && DiskSurvives(s.disk, kept, survivors)
    && Complete(v) && (forall b :: b in restorable <==> Holds(survivors, v, b))
    && s' == s.(disk := survivors, process := Down, live := restorable, lost := s.lost + (s.live - restorable))
  }

  /** VersionSet::Recover: the MANIFEST is replayed; it is appended to, or a new one takes the next file number. */
  ghost predicate StartRecoveryStep(s: State, reuseManifest: bool, s': State) {
    s.process.Down? && Complete(SyncedView(s.disk)) &&
    var v := SyncedView(s.disk);
    s' == s.(process := Up(Recovering, v.version, v.log.value, v.next.value + 1,
                           if reuseManifest then s.disk.current else v.next.value, v.last.value,
                           {}, None, 0, None, {}, Nothing, {}))
  }

  ghost predicate Replayed(d: Disk, from: nat, reused: Option<nat>, b: Batch) {
    exists n: nat :: from <= n && reused != Some(n) && InLog(d, n, b)
  }

  /**
   DBImpl::Recover and the rest of Open: every log from the MANIFEST's number on has been replayed into the
   pending tables, except that the last one may be kept open with its memtable; otherwise a new log starts.
   With nothing to record the database opens at once.
   */
  ghost predicate FinishRecoveryStep(s: State, reused: Option<nat>, number: nat, recovered: set<Batch>, last: nat,
                                     s': State) {
    s.process.Up? && s.process.phase == Recovering &&
    var p, d := s.process, s.disk;
    && (forall b :: b in recovered <==> InTables(d, p.pending, b))
    && (forall b :: InTables(d, p.pending, b) <==> Replayed(d, p.logNumber, reused, b))
    && (reused.Some? ==> reused.value == number && number in d.logs && p.logNumber <= number)
    && (reused.None? ==> number >= p.next && number !in d.logs)
    && (forall n :: n in d.logs ==> n <= number)
    && last >= p.last && (forall b :: InLogs(d, p.logNumber, b) ==> Last(b) <= last)
    && (last > p.last ==> exists b :: InLogs(d, p.logNumber, b) && Last(b) == last)
    && var save := p.pending != {} || p.manifest != d.current;
       var disk := if reused.Some? then d else d.(logs := d.logs[number := LogFile([], [])]);
       var mem := set b | InLog(disk, number, b) && b in disk.logs[number].synced + disk.logs[number].tail;
       s' == s.(disk := disk,
                process := p.(phase := if save then Opening else Running, logfile := number, mem := mem, last := last,
                              next := if number < p.next then p.next else number + 1,
                              imm := if save then Some(recovered) else None))
  }

  ghost predicate Next(s: State, step: Step, s': State) {
    match step
    case AddRecord(b) => AddRecordStep(s, b, s')
    case SyncLog => SyncLogStep(s, s')
    case InsertIntoMemTable => InsertStep(s, s')
    case SwitchMemTable(n) => SwitchStep(s, n, s')
    case BuildTable(n, contents) => BuildTableStep(s, n, contents, s')
    case WriteFlushEdit(added) => WriteFlushEditStep(s, added, s')
    case WriteCompactionEdit(removed, added) => WriteCompactionEditStep(s, removed, added, s')
    case Install => InstallStep(s, s')
    case ChooseObsolete(pinned) => ChooseObsoleteStep(s, pinned, s')
    case RemoveFile(f) => RemoveFileStep(s, f, s')
    case Crash(kept, survivors, restorable) => CrashStep(s, kept, survivors, restorable, s')
    case StartRecovery(reuse) => StartRecoveryStep(s, reuse, s')
    case FinishRecovery(reused, n, recovered, last) => FinishRecoveryStep(s, reused, n, recovered, last, s')
  }

  // ----- every step keeps the invariant -----

  /** A view stays good when the step adds the same batches to what it holds and to what is live. */
  lemma ViewKept(s: State, s': State, v: View)
    requires ViewOk(s, v) && s'.disk.current == s.disk.current
    requires forall n :: n in v.version ==> n in s'.disk.tables && s'.disk.tables[n] == s.disk.tables[n]
    requires forall b :: b in s.live ==> b in s'.live
    requires forall n, b :: v.log.value <= n && InLog(s.disk, n, b) ==> InLog(s'.disk, n, b)
    requires forall n, b :: v.log.value <= n && InSyncedLog(s.disk, n, b) ==> InSyncedLog(s'.disk, n, b)
    requires forall n, b :: v.log.value <= n && InLog(s'.disk, n, b) ==> InLog(s.disk, n, b) || b in s'.live
    requires forall b :: b in s'.live && b !in s.live ==> InLogs(s'.disk, v.log.value, b)
    requires forall b :: b in s'.durable && b !in s.durable ==> Secured(s'.disk, v, b)
    ensures ViewOk(s', v)
  {
    forall b ensures InTables(s'.disk, v.version, b) <==> InTables(s.disk, v.version, b) {
      SameTables(s.disk, s'.disk, v.version, b);
    }
    forall b ensures b in s'.live <==> Holds(s'.disk, v, b) {
      if InLogs(s'.disk, v.log.value, b) {
        var n: nat :| v.log.value <= n && InLog(s'.disk, n, b);
        assert b in s.live ==> b in s'.live;
        assert InLog(s.disk, n, b) ==> Holds(s.disk, v, b);
      }
      if b in s.live && InLogs(s.disk, v.log.value, b) {
        var n: nat :| v.log.value <= n && InLog(s.disk, n, b);
        assert InLog(s'.disk, n, b);
      }
    }
    forall b | b in s'.durable ensures Secured(s'.disk, v, b) {
      if b in s.durable {
        assert Secured(s.disk, v, b);
        if !InTables(s.disk, v.version, b) {
          var n: nat :| v.log.value <= n && InSyncedLog(s.disk, n, b);
          assert InSyncedLog(s'.disk, n, b);
        }
      }
    }
  }

  lemma SameTables(d: Disk, d': Disk, tables: set<nat>, b: Batch)
    requires forall n :: n in tables && n in d.tables ==> n in d'.tables && d'.tables[n] == d.tables[n]
    requires forall n :: n in tables && n in d'.tables ==> n in d.tables
    ensures InTables(d', tables, b) <==> InTables(d, tables, b)
  {
    if InTables(d, tables, b) {
      var n: nat :| n in tables && InTable(d, n, b);
      assert InTable(d', n, b);
    }
    if InTables(d', tables, b) {
      var n: nat :| n in tables && InTable(d', n, b);
      assert InTable(d, n, b);
    }
  }

  /** What the steps between two MANIFEST writes leave alone. */
  ghost predicate Quiet(s: State, s': State) {
    && s.process.Up? && s'.process.Up? &&
    var p, p', d, d' := s.process, s'.process, s.disk, s'.disk;
    && d'.current == d.current && d'.manifests == d.manifests && p'.manifest == p.manifest && p'.change == p.change
    && p'.version == p.version && p'.logNumber == p.logNumber && p.next <= p'.next && p.last <= p'.last
    && (forall n :: n in d.tables && n < p.next ==> n in d'.tables && d'.tables[n] == d.tables[n])
    && (!p.change.Nothing? ==> p'.phase == p.phase)
    && (p.change.Flushing? ==> p'.imm == p.imm && p'.logfile == p.logfile)
    && (forall n, b :: p.logNumber <= n && InLog(d, n, b) ==> InLog(d', n, b))
    && (forall n, b :: p.logNumber <= n && InSyncedLog(d, n, b) ==> InSyncedLog(d', n, b))
    && (forall n, b :: p.logNumber <= n && InLog(d', n, b) ==> InLog(d, n, b) || b in s'.live)
    && (forall b :: b in s.live ==> b in s'.live)
    && (forall b :: b in s'.live && b !in s.live ==> p.phase != Recovering && InLog(d', p.logfile, b))
    && (forall b :: b in s'.durable && b !in s.durable ==> p.phase != Recovering && InSyncedLog(d', p.logfile, b))
    && s'.logged == s'.live + s'.lost
  }

  lemma QuietView(s: State, s': State, v: View)
    requires Quiet(s, s') && ViewOk(s, v) && s.process.logNumber <= v.log.value
    requires s.process.phase != Recovering ==> v.log.value <= s.process.logfile
    requires v.next.value <= s.process.next
    ensures ViewOk(s', v)
  {
    ViewKept(s, s', v);
  }

  /** A step that leaves the MANIFEST alone keeps the disk and the edit on its way. */
  lemma QuietKeepsDisk(s: State, s': State)
    requires Inv(s) && Quiet(s, s')
    ensures DiskOk(s') && ChangeOk(s') && s'.logged == s'.live + s'.lost
  {
    var p, v := s.process, SyncedView(s.disk);
    QuietView(s, s', v);
    if !p.change.Nothing? {
      var e := p.change.edit;
      QuietView(s, s', ApplyEdit(v, e));
      var t := p.version - e.removed + e.added;
      forall b ensures InTables(s'.disk, p.version, b) <==> InTables(s.disk, p.version, b) {
        QuietTables(s, s', v, b);
      }
      forall b ensures InTables(s'.disk, t, b) <==> InTables(s.disk, t, b) {
        QuietTables(s, s', ApplyEdit(v, e), b);
      }
    }
  }

  lemma QuietTables(s: State, s': State, v: View, b: Batch)
    requires Quiet(s, s') && ViewOk(s, v) && v.next.value <= s.process.next
    ensures InTables(s'.disk, v.version, b) <==> InTables(s.disk, v.version, b)
  {
    SameTables(s.disk, s'.disk, v.version, b);
  }

  lemma QuietVersion(s: State, s': State)
    requires Inv(s) && Quiet(s, s')
    ensures forall b :: InTables(s'.disk, s.process.version, b) <==> InTables(s.disk, s.process.version, b)
  {
    forall b ensures InTables(s'.disk, s.process.version, b) <==> InTables(s.disk, s.process.version, b) {
      QuietTables(s, s', SyncedView(s.disk), b);
    }
  }

  lemma AddRecordIsQuiet(s: State, b: Batch, s': State)
    requires Inv(s) && AddRecordStep(s, b, s')
    ensures Quiet(s, s')
  {
    var p, d, d' := s.process, s.disk, s'.disk;
    assert forall n, x :: InLog(d', n, x) <==> InLog(d, n, x) || (n == p.logfile && x == b);
    assert forall n, x :: InSyncedLog(d', n, x) <==> InSyncedLog(d, n, x);
  }

  lemma SameOlderLogs(d: Disk, d': Disk, from: nat, below: nat)
    requires forall n: nat, x :: n < below ==> (InLog(d', n, x) <==> InLog(d, n, x))
    ensures forall x :: InOlderLogs(d', from, below, x) <==> InOlderLogs(d, from, below, x)
  {
  }

  lemma AddRecordLogs(s: State, b: Batch, s': State)
    requires s.process.Up? && LogsOk(s) && AddRecordStep(s, b, s')
    requires forall x :: InTables(s'.disk, s.process.version, x) <==> InTables(s.disk, s.process.version, x)
    ensures LogsOk(s')
  {
    var p, d, d' := s.process, s.disk, s'.disk;
    assert forall n, x :: InLog(d', n, x) <==> InLog(d, n, x) || (n == p.logfile && x == b);
    SameOlderLogs(d, d', p.logNumber, p.logfile);
  }

  lemma AddRecordKeepsInv(s: State, b: Batch, s': State)
    requires Inv(s) && AddRecordStep(s, b, s')
    ensures Inv(s')
  {
    AddRecordIsQuiet(s, b, s');
    QuietKeepsDisk(s, s');
    QuietVersion(s, s');
    AddRecordLogs(s, b, s');
    hide DiskOk, ChangeOk, ViewOk, Quiet, LogsOk, InTables;
  }

  lemma SyncLogLogs(s: State, s': State)
    requires s.process.Up? && LogsOk(s) && SyncLogStep(s, s')
    requires forall x :: InTables(s'.disk, s.process.version, x) <==> InTables(s.disk, s.process.version, x)
    ensures LogsOk(s')
  {
    var p, d, d' := s.process, s.disk, s'.disk;
    assert forall n, x :: InLog(d', n, x) <==> InLog(d, n, x);
    SameOlderLogs(d, d', p.logNumber, p.logfile);
  }

  lemma SyncLogKeepsInv(s: State, s': State)
    requires Inv(s) && SyncLogStep(s, s')
    ensures Inv(s')
  {
    var p, d, d' := s.process, s.disk, s'.disk;
    assert Quiet(s, s') by {
      assert forall n, x :: InLog(d', n, x) <==> InLog(d, n, x);
      assert forall n, x :: InSyncedLog(d', n, x) <==> InSyncedLog(d, n, x) || (n == p.logfile && InLog(d, n, x));
    }
    QuietKeepsDisk(s, s');
    QuietVersion(s, s');
    SyncLogLogs(s, s');
    hide DiskOk, ChangeOk, ViewOk, Quiet, LogsOk, InTables;
  }

  lemma InsertIsQuiet(s: State, s': State)
    requires Inv(s) && InsertStep(s, s')
    ensures Quiet(s, s')
  {
    hide DiskOk, ChangeOk, ViewOk, LogsOk;
  }

  lemma InsertLogs(s: State, s': State)
    requires s.process.Up? && LogsOk(s) && InsertStep(s, s')
    ensures LogsOk(s')
  {
    hide InOlderLogs, InTables;
  }

  lemma InsertKeepsInv(s: State, s': State)
    requires Inv(s) && InsertStep(s, s')
    ensures Inv(s')
  {
    hide DiskOk, ChangeOk, ViewOk, Quiet, LogsOk;
    InsertIsQuiet(s, s');
    QuietKeepsDisk(s, s');
    if s.process.phase != Recovering {
      InsertLogs(s, s');
    }
  }

  lemma SwitchIsQuiet(s: State, number: nat, s': State)
    requires Inv(s) && SwitchStep(s, number, s')
    ensures Quiet(s, s')
  {
    var p, d, d' := s.process, s.disk, s'.disk;
    assert forall n, x :: InLog(d', n, x) <==> InLog(d, n, x);
    assert forall n, x :: InSyncedLog(d', n, x) <==> InSyncedLog(d, n, x);
  }

  lemma SwitchKeepsInv(s: State, number: nat, s': State)
    requires Inv(s) && SwitchStep(s, number, s')
    ensures Inv(s')
  {
    hide DiskOk, ChangeOk, ViewOk, Quiet, LogsOk, InTables;
    SwitchIsQuiet(s, number, s');
    QuietKeepsDisk(s, s');
    QuietVersion(s, s');
    SwitchLogs(s, number, s');
  }

  lemma SwitchLogs(s: State, number: nat, s': State)
    requires s.process.Up? && LogsOk(s) && SwitchStep(s, number, s')
    requires forall x :: InTables(s'.disk, s.process.version, x) <==> InTables(s.disk, s.process.version, x)
    ensures LogsOk(s')
  {
    hide InTables;
    var p, d, d' := s.process, s.disk, s'.disk;
    assert forall n, x :: InLog(d', n, x) <==> InLog(d, n, x);
    forall x
      ensures InOlderLogs(d', p.logNumber, number, x) <==> InOlderLogs(d, p.logNumber, p.logfile, x) || x in p.mem
    {
      assert x in p.mem ==> InLog(d', p.logfile, x);
    }
  }

  lemma VersionIsNumbered(s: State)
    requires Inv(s) && s.process.Up?
    ensures forall n :: n in s.process.version ==> n in s.disk.tables && n < s.process.next
  {
    hide LogsOk, ChangeOk;
  }

  lemma BuildTableIsQuiet(s: State, number: nat, contents: set<Batch>, s': State)
    requires Inv(s) && BuildTableStep(s, number, contents, s')
    ensures Quiet(s, s')
  {
    hide DiskOk, ChangeOk, ViewOk, LogsOk;
    assert forall n, x :: InLog(s'.disk, n, x) <==> InLog(s.disk, n, x);
    assert forall n, x :: InSyncedLog(s'.disk, n, x) <==> InSyncedLog(s.disk, n, x);
  }

  lemma BuildTableLogs(s: State, number: nat, contents: set<Batch>, s': State)
    requires s.process.Up? && LogsOk(s) && BuildTableStep(s, number, contents, s')
    requires forall x :: InTables(s'.disk, s.process.version, x) <==> InTables(s.disk, s.process.version, x)
    ensures LogsOk(s')
  {
    hide InTables;
    var p, d, d' := s.process, s.disk, s'.disk;
    assert forall n, x :: InLog(d', n, x) <==> InLog(d, n, x);
    assert forall x :: InOlderLogs(d', p.logNumber, p.logfile, x) <==> InOlderLogs(d, p.logNumber, p.logfile, x);
  }

  lemma BuildTableKeepsInv(s: State, number: nat, contents: set<Batch>, s': State)
    requires Inv(s) && BuildTableStep(s, number, contents, s')
    ensures Inv(s')
  {
    hide DiskOk, ChangeOk, ViewOk, Quiet, LogsOk, InTables;
    VersionIsNumbered(s);
    BuildTableIsQuiet(s, number, contents, s');
    QuietKeepsDisk(s, s');
    QuietVersion(s, s');
    if s.process.phase != Recovering {
      BuildTableLogs(s, number, contents, s');
    }
  }

  /** Views depend on the logs, the tables and CURRENT only. */
  lemma ViewSame(s: State, s': State, v: View)
    requires ViewOk(s, v) && s'.live == s.live && s'.durable == s.durable
    requires s'.disk.logs == s.disk.logs && s'.disk.tables == s.disk.tables && s'.disk.current == s.disk.current
    ensures ViewOk(s', v)
  {
    assert forall n, b :: InLog(s'.disk, n, b) <==> InLog(s.disk, n, b);
    assert forall n, b :: InSyncedLog(s'.disk, n, b) <==> InSyncedLog(s.disk, n, b);
    ViewKept(s, s', v);
  }

  lemma TablesSplit(d: Disk, a: set<nat>, c: set<nat>, b: Batch)
    ensures InTables(d, a + c, b) <==> InTables(d, a, b) || InTables(d, c, b)
  {
    if InTables(d, a, b) {
      var n: nat :| n in a && InTable(d, n, b);
      assert n in a + c;
    }
    if InTables(d, c, b) {
      var n: nat :| n in c && InTable(d, n, b);
      assert n in a + c;
    }
  }

  /** The view of a flush edit: the old logs' batches are now in the added tables. */
  lemma FlushViewOk(s: State, added: set<nat>, e: Edit)
    requires Inv(s) && s.process.Up? && s.process.phase != Recovering && s.process.imm.Some? &&
      added <= s.process.pending
    requires forall b :: b in s.process.imm.value <==> InTables(s.disk, added, b)
    requires e == Edit(added, {}, Some(s.process.logfile), Some(s.process.next), Some(s.process.last))
    ensures ViewOk(s, ApplyEdit(SyncedView(s.disk), e))
  {
    var p, d, v := s.process, s.disk, SyncedView(s.disk);
    var v' := ApplyEdit(v, e);
    assert v'.version == p.version + added;
    forall b ensures InTables(d, v'.version, b) <==> InTables(d, p.version, b) || b in p.imm.value {
      TablesSplit(d, p.version, added, b);
    }
    forall b ensures b in s.live <==> Holds(d, v', b) {
      if InLogs(d, p.logNumber, b) {
        var n: nat :| p.logNumber <= n && InLog(d, n, b);
        assert n < p.logfile ==> InOlderLogs(d, p.logNumber, p.logfile, b);
        assert n >= p.logfile ==> InLogs(d, p.logfile, b);
      }
      assert InOlderLogs(d, p.logNumber, p.logfile, b) ==> InLogs(d, p.logNumber, b);
    }
    forall b | b in s.durable ensures Secured(d, v', b) {
      assert Secured(d, v, b);
      if !InTables(d, v.version, b) {
        var n: nat :| p.logNumber <= n && InSyncedLog(d, n, b);
        assert InLog(d, n, b);
        assert n < p.logfile ==> InOlderLogs(d, p.logNumber, p.logfile, b);
      }
    }
  }

  lemma CompactionViewOk(s: State, removed: set<nat>, added: set<nat>, e: Edit)
    requires Inv(s) && s.process.Up? && s.process.phase != Recovering
    requires added <= s.process.pending + removed && removed <= s.process.version
    requires forall b :: InTables(s.disk, removed, b) <==> InTables(s.disk, added, b)
    requires e == Edit(added, removed, Some(s.process.logNumber), Some(s.process.next), Some(s.process.last))
    ensures ViewOk(s, ApplyEdit(SyncedView(s.disk), e))
    ensures forall b :: InTables(s.disk, s.process.version - removed + added, b) <==>
      InTables(s.disk, s.process.version, b)
  {
    var p, d, v := s.process, s.disk, SyncedView(s.disk);
    var v' := ApplyEdit(v, e);
    assert v'.version == p.version - removed + added;
    assert p.version == p.version - removed + removed;
    forall b ensures InTables(d, v'.version, b) <==> InTables(d, p.version, b) {
      TablesSplit(d, p.version - removed, added, b);
      TablesSplit(d, p.version - removed, removed, b);
    }
    forall b | b in s.durable ensures Secured(d, v', b) {
      assert Secured(d, v, b);
    }
    assert forall b :: Holds(d, v', b) <==> Holds(d, v, b);
  }

  lemma SameDataKeepsLogs(s: State, s': State)
    requires s.process.Up? && s'.process.Up? && LogsOk(s) && s'.disk.logs == s.disk.logs &&
      s'.disk.tables == s.disk.tables
    requires s'.disk.current == s.disk.current
    requires s'.process ==
      s.process.(change := s'.process.change, pending := s'.process.pending, doomed := s'.process.doomed)
    ensures LogsOk(s')
  {
    var p, d, d' := s.process, s.disk, s'.disk;
    assert forall n, b :: InLog(d', n, b) <==> InLog(d, n, b);
    assert forall n, b :: InTable(d', n, b) <==> InTable(d, n, b);
    assert forall b :: InTables(d', p.version, b) <==> InTables(d, p.version, b);
    assert forall b :: InOlderLogs(d', p.logNumber, p.logfile, b) <==> InOlderLogs(d, p.logNumber, p.logfile, b);
  }

  /** Writing an edit whose view is good keeps the invariant. */
  lemma LogEditKeepsInv(s: State, change: Change, pending: set<nat>, s': State)
    requires Inv(s) && s.process.Up? && BackgroundFree(s.process) && s.process.phase != Recovering && !change.Nothing?
    requires s' == s.(disk := LogEdit(s, change.edit), process := s.process.(change := change, pending := pending))
    requires pending <= s.process.pending
    requires ViewOk(s, ApplyEdit(SyncedView(s.disk), change.edit))
    requires change.edit.log.Some? && change.edit.next == Some(s.process.next) &&
      change.edit.last == Some(s.process.last)
    requires change.Flushing? ==> s.process.imm.Some? && change.edit.log.value == s.process.logfile
    requires change.Compacting? ==> change.edit.log.value == s.process.logNumber && s.process.phase == Running
    requires forall b :: InTables(s.disk, s.process.version - change.edit.removed + change.edit.added, b) <==>
      InTables(s.disk, s.process.version, b) || (change.Flushing? && b in ImmSet(s.process))
    ensures Inv(s')
  {
    hide ViewOk, LogsOk, InTables, Replay;
    var p, v := s.process, SyncedView(s.disk);
    assert SyncedView(s'.disk) == v;
    ViewSame(s, s', v);
    ViewSame(s, s', ApplyEdit(v, change.edit));
    SameDataKeepsLogs(s, s');
    TablesUntouched(s.disk, s'.disk, p.version - change.edit.removed + change.edit.added);
    TablesUntouched(s.disk, s'.disk, p.version);
    assert DiskOk(s');
    assert ChangeOk(s');
  }

  lemma TablesUntouched(d: Disk, d': Disk, tables: set<nat>)
    requires d'.tables == d.tables
    ensures forall b :: InTables(d', tables, b) <==> InTables(d, tables, b)
  {
    assert forall n, b :: InTable(d', n, b) <==> InTable(d, n, b);
  }

  lemma WriteFlushEditKeepsInv(s: State, added: set<nat>, s': State)
    requires Inv(s) && WriteFlushEditStep(s, added, s')
    ensures Inv(s')
  {
    var p, d := s.process, s.disk;
    var e := Edit(added, {}, Some(p.logfile), Some(p.next), Some(p.last));
    FlushViewOk(s, added, e);
    assert p.version - e.removed + e.added == p.version + added;
    forall b ensures InTables(d, p.version + added, b) <==> b in p.imm.value || InTables(d, p.version, b) {
      TablesSplit(d, p.version, added, b);
    }
    LogEditKeepsInv(s, Flushing(e), p.pending - added, s');
  }

  lemma WriteCompactionEditKeepsInv(s: State, removed: set<nat>, added: set<nat>, s': State)
    requires Inv(s) && WriteCompactionEditStep(s, removed, added, s')
    ensures Inv(s')
  {
    var p := s.process;
    var e := Edit(added, removed, Some(p.logNumber), Some(p.next), Some(p.last));
    CompactionViewOk(s, removed, added, e);
    LogEditKeepsInv(s, Compacting(e), p.pending, s');
  }

  lemma ReplaySnapshot(version: set<nat>, e: Edit)
    ensures Replay([Snapshot(version), e]) == ApplyEdit(View(version, None, None, None), e)
  {
    var edits := [Snapshot(version), e];
    assert edits[..1] == [Snapshot(version)] && edits[..1][..0] == [];
    assert Replay(edits[..1]) == View(version, None, None, None);
  }

  lemma ReplayAppend(edits: seq<Edit>, e: Edit)
    ensures Replay(edits + [e]) == ApplyEdit(Replay(edits), e)
  {
    assert (edits + [e])[..|edits|] == edits;
  }

  /** The installed MANIFEST replays to the view of the edit. */
  lemma InstalledView(s: State, s': State)
    requires Inv(s) && InstallStep(s, s')
    ensures SyncedView(s'.disk) == ApplyEdit(SyncedView(s.disk), s.process.change.edit)
    ensures CurrentManifest(s'.disk).tail == [] && s'.disk.current in s'.disk.manifests
  {
    var p, e := s.process, s.process.change.edit;
    if p.manifest == s.disk.current {
      ReplayAppend(CurrentManifest(s.disk).synced, e);
    } else {
      ReplaySnapshot(p.version, e);
      assert [] + [Snapshot(p.version), e] == [Snapshot(p.version), e];
    }
  }

  lemma InstallKeepsInv(s: State, s': State)
    requires Inv(s) && InstallStep(s, s')
    ensures Inv(s')
  {
    var p, d, d', e := s.process, s.disk, s'.disk, s.process.change.edit;
    var v' := ApplyEdit(SyncedView(d), e);
    InstalledView(s, s');
    assert forall n, b :: InLog(d', n, b) <==> InLog(d, n, b);
    assert forall n, b :: InTable(d', n, b) <==> InTable(d, n, b);
    InstalledViewOk(s, s', v');
    assert DiskOk(s');
    hide ViewOk;
    assert forall b :: InTables(d', v'.version, b) <==> InTables(d, v'.version, b);
    assert forall b :: InOlderLogs(d', p.logNumber, p.logfile, b) <==> InOlderLogs(d, p.logNumber, p.logfile, b);
    assert LogsOk(s');
  }

  lemma InstalledViewOk(s: State, s': State, v: View)
    requires Inv(s) && InstallStep(s, s') && v == ApplyEdit(SyncedView(s.disk), s.process.change.edit)
    ensures ViewOk(s', v)
  {
    var p := s.process;
    var mid := s.(disk := s'.disk.(current := s.disk.current));
    ViewSame(s, mid, v);
    assert forall n, b :: InLog(s'.disk, n, b) <==> InLog(mid.disk, n, b);
    assert forall n, b :: InTable(s'.disk, n, b) <==> InTable(mid.disk, n, b);
    assert forall n, b :: InSyncedLog(s'.disk, n, b) <==> InSyncedLog(mid.disk, n, b);
    assert forall b :: Holds(s'.disk, v, b) <==> Holds(mid.disk, v, b);
    forall b | b in s'.durable ensures Secured(s'.disk, v, b) {
      assert b in s.durable ==> Secured(mid.disk, v, b);
      assert b in ImmSet(p) ==> b in s.durable || InTables(s.disk, v.version, b);
      assert InTables(s.disk, v.version, b) ==> InTables(s'.disk, v.version, b);
    }
  }

  lemma ChooseObsoleteKeepsInv(s: State, pinned: set<nat>, s': State)
    requires Inv(s) && ChooseObsoleteStep(s, pinned, s')
    ensures Inv(s')
  {
    ViewSame(s, s', SyncedView(s.disk));
    SameDataKeepsLogs(s, s');
  }

  lemma RemoveFileKeepsInv(s: State, f: FileName, s': State)
    requires Inv(s) && RemoveFileStep(s, f, s')
    ensures Inv(s')
  {
    var p, d, d' := s.process, s.disk, s'.disk;
    assert IsDoomed(p, f);
    assert forall n, b :: p.logNumber <= n ==> (InLog(d', n, b) <==> InLog(d, n, b));
    assert forall n, b :: p.logNumber <= n ==> (InSyncedLog(d', n, b) <==> InSyncedLog(d, n, b));
    ViewKept(s, s', SyncedView(d));
    forall b ensures InTables(d', p.version, b) <==> InTables(d, p.version, b) {
      SameTables(d, d', p.version, b);
    }
    hide ViewOk;
    assert forall b :: InOlderLogs(d', p.logNumber, p.logfile, b) <==> InOlderLogs(d, p.logNumber, p.logfile, b);
    assert LogsOk(s');
  }

  /** The MANIFEST a crash leaves replays to one of the two good views. */
  lemma CrashViewOk(s: State, kept: nat, survivors: Disk)
    requires Inv(s) && DiskSurvives(s.disk, kept, survivors)
    ensures ViewOk(s, SyncedView(survivors))
  {
    var m := CurrentManifest(s.disk);
    if kept == 1 {
      assert m.tail[..1] == [m.tail[0]];
      ReplayAppend(m.synced, m.tail[0]);
    } else {
      assert m.synced + m.tail[..0] == m.synced;
    }
  }

  /** Whatever prefix of the unsynced records a crash keeps, recovery is possible and every promise holds. */
  lemma CrashKeepsInv(s: State, kept: nat, survivors: Disk, restorable: set<Batch>, s': State)
    requires Inv(s) && CrashStep(s, kept, survivors, restorable, s')
    ensures Inv(s') && s'.live <= s.live
  {
    var d, d' := s.disk, survivors;
    var v := SyncedView(d');
    CrashViewOk(s, kept, survivors);
    forall b ensures InTables(d', v.version, b) <==> InTables(d, v.version, b) {
      SameTables(d, d', v.version, b);
    }
    forall n, b | InLog(d', n, b) ensures InLog(d, n, b) {
      assert LogSurvives(d.logs[n], d'.logs[n]);
    }
    forall n, b | InSyncedLog(d, n, b) ensures InSyncedLog(d', n, b) {
      assert LogSurvives(d.logs[n], d'.logs[n]);
    }
    forall b | Holds(d', v, b) ensures b in s.live {
      assert Holds(d, v, b);
    }
    forall b | b in s.durable ensures Secured(d', v, b) {
      assert Secured(d, v, b);
    }
  }

  lemma StartRecoveryKeepsInv(s: State, reuseManifest: bool, s': State)
    requires Inv(s) && StartRecoveryStep(s, reuseManifest, s')
    ensures Inv(s')
  {
    ViewSame(s, s', SyncedView(s.disk));
  }

  lemma FinishRecoveryIsQuiet(s: State, reused: Option<nat>, number: nat, recovered: set<Batch>, last: nat, s': State)
    requires Inv(s) && FinishRecoveryStep(s, reused, number, recovered, last, s')
    ensures Quiet(s, s') && s.process.logNumber < s.process.next
  {
    var d, d' := s.disk, s'.disk;
    assert forall n, b :: InLog(d', n, b) <==> InLog(d, n, b);
    assert forall n, b :: InSyncedLog(d', n, b) <==> InSyncedLog(d, n, b);
  }

  /** The logs before the one that stays open are exactly those replayed into tables. */
  lemma OlderLogsAreReplayed(s: State, reused: Option<nat>, number: nat, recovered: set<Batch>, last: nat, s': State,
                             b: Batch)
    requires s.process.Up? && FinishRecoveryStep(s, reused, number, recovered, last, s')
    ensures InOlderLogs(s'.disk, s.process.logNumber, number, b) <==> b in recovered
    ensures b in recovered || (InLog(s'.disk, number, b) && s.process.logNumber <= number) ==> Last(b) <= last
  {
    var p, d, d' := s.process, s.disk, s'.disk;
    assert forall n :: InLog(d', n, b) <==> InLog(d, n, b);
    if InOlderLogs(d', p.logNumber, number, b) {
      var n: nat :| p.logNumber <= n < number && InLog(d', n, b);
      assert Replayed(d, p.logNumber, reused, b);
    }
    if b in recovered {
      assert InTables(d, p.pending, b) && Replayed(d, p.logNumber, reused, b);
      var n: nat :| p.logNumber <= n && reused != Some(n) && InLog(d, n, b);
      assert InLog(d', n, b) && n != number;
      assert InLogs(d, p.logNumber, b);
    }
    assert InLog(d, number, b) && p.logNumber <= number ==> InLogs(d, p.logNumber, b);
  }

  lemma FinishRecoveryKeepsInv(s: State, reused: Option<nat>, number: nat, recovered: set<Batch>, last: nat, s': State)
    requires Inv(s) && FinishRecoveryStep(s, reused, number, recovered, last, s')
    ensures Inv(s')
  {
    hide DiskOk, ChangeOk, ViewOk, Quiet, LogsOk, InOlderLogs, Replayed;
    FinishRecoveryIsQuiet(s, reused, number, recovered, last, s');
    QuietKeepsDisk(s, s');
    QuietVersion(s, s');
    FinishRecoveryLogs(s, reused, number, recovered, last, s');
  }

  lemma FinishRecoveryLogs(s: State, reused: Option<nat>, number: nat, recovered: set<Batch>, last: nat, s': State)
    requires s.process.Up? && UpOk(s) && FinishRecoveryStep(s, reused, number, recovered, last, s')
    requires s.process.logNumber < s.process.next
    requires forall x :: InTables(s'.disk, s.process.version, x) <==> InTables(s.disk, s.process.version, x)
    ensures LogsOk(s')
  {
    hide ChangeOk, InOlderLogs, Replayed;
    var p, d, d' := s.process, s.disk, s'.disk;
    forall b ensures InOlderLogs(d', p.logNumber, number, b) <==> b in recovered
      ensures b in recovered || (InLog(d', number, b) && p.logNumber <= number) ==> Last(b) <= last
    {
      OlderLogsAreReplayed(s, reused, number, recovered, last, s', b);
    }
    assert p.pending == {} ==> forall b :: !InTables(d, p.pending, b);
  }

  lemma NextKeepsInv(s: State, step: Step, s': State)
    requires Inv(s) && Next(s, step, s')
    ensures Inv(s')
  {
    match step
    case AddRecord(b) => AddRecordKeepsInv(s, b, s');
    case SyncLog => SyncLogKeepsInv(s, s');
    case InsertIntoMemTable => InsertKeepsInv(s, s');
    case SwitchMemTable(n) => SwitchKeepsInv(s, n, s');
    case BuildTable(n, contents) => BuildTableKeepsInv(s, n, contents, s');
    case WriteFlushEdit(added) => WriteFlushEditKeepsInv(s, added, s');
    case WriteCompactionEdit(removed, added) => WriteCompactionEditKeepsInv(s, removed, added, s');
    case Install => InstallKeepsInv(s, s');
    case ChooseObsolete(pinned) => ChooseObsoleteKeepsInv(s, pinned, s');
    case RemoveFile(f) => RemoveFileKeepsInv(s, f, s');
    case Crash(kept, survivors, restorable) => CrashKeepsInv(s, kept, survivors, restorable, s');
    case StartRecovery(reuse) => StartRecoveryKeepsInv(s, reuse, s');
    case FinishRecovery(reused, n, recovered, last) => FinishRecoveryKeepsInv(s, reused, n, recovered, last, s');
  }

  // ----- whole runs -----

  /** NewDB's first MANIFEST: no files, log number 0, file number 2 next. */
  ghost predicate Initial(s: State) {
    && s.disk == Disk(map[], map[], map[1 := Manifest([Edit({}, {}, Some(0), Some(2), Some(0))], [])], 1)
    && s.process == Down && s.logged == {} && s.live == {} && s.durable == {} && s.lost == {}
  }

  lemma InitialInv(s: State)
    requires Initial(s)
    ensures Inv(s)
  {
    var e := Edit({}, {}, Some(0), Some(2), Some(0));
    ReplayAppend([], e);
    assert [] + [e] == [e];
  }

  ghost predicate IsRun(states: seq<State>, steps: seq<Step>) {
    && |states| == |steps| + 1 && Initial(states[0])
    && forall i :: 0 <= i < |steps| ==> Next(states[i], steps[i], states[i + 1])
  }

  lemma {:induction false} RunsKeepInv(states: seq<State>, steps: seq<Step>, i: nat)
    requires IsRun(states, steps) && i <= |steps|
    ensures Inv(states[i])
  {
    if i == 0 {
      InitialInv(states[0]);
    } else {
      RunsKeepInv(states, steps, i - 1);
      NextKeepsInv(states[i - 1], steps[i - 1], states[i]);
    }
  }

  /** What a reader of the running database can reach. */
  ghost predicate Served(s: State, b: Batch)
    requires s.process.Up?
  {
    InTables(s.disk, s.process.version, b) || b in s.process.mem || b in ImmSet(s.process)
  }

  lemma ServedIsLive(s: State, b: Batch)
    requires Inv(s) && s.process.Up? && s.process.phase != Recovering
    ensures Served(s, b) || s.process.writing == Some(b) <==> b in s.live
  {
    var p, d, v := s.process, s.disk, SyncedView(s.disk);
    if InLogs(d, p.logNumber, b) {
      var n: nat :| p.logNumber <= n && InLog(d, n, b);
      assert n < p.logfile ==> InOlderLogs(d, p.logNumber, p.logfile, b);
    }
    assert InOlderLogs(d, p.logNumber, p.logfile, b) ==> InLogs(d, p.logNumber, b);
    assert InLog(d, p.logfile, b) ==> InLogs(d, p.logNumber, b);
    assert b in s.live <==> Holds(d, v, b);
  }

  /**
   Durability: in every reachable state a promised batch is in a table the installed MANIFEST names or is a synced
   record of a log that recovery will replay, every other logged batch is still restorable unless a crash dropped it,
   and once the database is open it serves exactly those.
   */
  lemma Durable(states: seq<State>, steps: seq<Step>, i: nat)
    requires IsRun(states, steps) && i <= |steps|
    ensures Complete(SyncedView(states[i].disk))
    ensures SyncedView(states[i].disk).version <= states[i].disk.tables.Keys
    ensures forall b :: b in states[i].durable ==> Secured(states[i].disk, SyncedView(states[i].disk), b)
    ensures forall b :: b in states[i].live <==> Holds(states[i].disk, SyncedView(states[i].disk), b)
    ensures states[i].durable <= states[i].live && states[i].logged == states[i].live + states[i].lost
    ensures states[i].process.Up? && states[i].process.phase != Recovering ==>
              forall b :: Served(states[i], b) || states[i].process.writing == Some(b) <==> b in states[i].live
  {
    var s := states[i];
    RunsKeepInv(states, steps, i);
    forall b | b in s.durable ensures b in s.live {
      SecuredIsHeld(s.disk, SyncedView(s.disk), b);
    }
    if s.process.Up? && s.process.phase != Recovering {
      forall b ensures Served(s, b) || s.process.writing == Some(b) <==> b in s.live {
        ServedIsLive(s, b);
      }
    }
  }

  lemma SecuredIsHeld(d: Disk, v: View, b: Batch)
    requires Complete(v) && Secured(d, v, b)
    ensures Holds(d, v, b)
  {
    if !InTables(d, v.version, b) {
      var n: nat :| v.log.value <= n && InSyncedLog(d, n, b);
      assert InLog(d, n, b);
    }
  }

  /** Nothing takes a promise back. */
  lemma {:induction false} PromisesStay(states: seq<State>, steps: seq<Step>, j: nat, i: nat)
    requires IsRun(states, steps) && j <= i <= |steps|
    ensures states[j].durable <= states[i].durable
  {
    if j < i {
      PromisesStay(states, steps, j, i - 1);
      assert Next(states[i - 1], steps[i - 1], states[i]);
    }
  }

  /** Whatever happens, recovery restores the batch and an open database serves it. */
  ghost predicate Survives(s: State, b: Batch) {
    && b in s.live && Complete(SyncedView(s.disk)) && Secured(s.disk, SyncedView(s.disk), b)
    && (s.process.Up? && s.process.phase != Recovering ==> Served(s, b) || s.process.writing == Some(b))
  }

  lemma PromisedSurvives(states: seq<State>, steps: seq<Step>, j: nat, i: nat, b: Batch)
    requires IsRun(states, steps) && j <= i <= |steps| && b in states[j].durable
    ensures Survives(states[i], b)
  {
    PromisesStay(states, steps, j, i);
    Durable(states, steps, i);
  }

  /**
   What WriteOptions::sync promises: once the log has been synced, the batch being written and every other batch
   of that log are restored after any later crash, however little of the unsynced data it leaves.
   */
  lemma SyncedWritesSurvive(states: seq<State>, steps: seq<Step>, j: nat, i: nat, b: Batch)
    requires IsRun(states, steps) && j < i <= |steps| && steps[j].SyncLog? && states[j].process.Up?
    requires states[j].process.writing == Some(b) || InLog(states[j].disk, states[j].process.logfile, b)
    ensures Survives(states[i], b)
  {
    RunsKeepInv(states, steps, j);
    assert Next(states[j], steps[j], states[j + 1]);
    PromisedSurvives(states, steps, j + 1, i, b);
  }

  /** The same of every batch of a flushed memtable once its edit is installed, although no write was ever synced. */
  lemma FlushedWritesSurvive(states: seq<State>, steps: seq<Step>, j: nat, i: nat, b: Batch)
    requires IsRun(states, steps) && j < i <= |steps| && steps[j].Install? && states[j].process.Up?
    requires states[j].process.change.Flushing? && b in ImmSet(states[j].process)
    ensures Survives(states[i], b)
  {
    RunsKeepInv(states, steps, j);
    assert Next(states[j], steps[j], states[j + 1]);
    PromisedSurvives(states, steps, j + 1, i, b);
  }

  /** The view recovery finds when a crash keeps this many of the MANIFEST's unsynced records. */
  function ViewAfter(d: Disk, kept: nat): View
    requires kept <= |CurrentManifest(d).tail|
  {
    Replay(CurrentManifest(d).synced + CurrentManifest(d).tail[..kept])
  }

  /** The worst of those crashes: no unsynced record of any log is left. */
  function Barest(d: Disk, kept: nat): Disk
    requires kept <= |CurrentManifest(d).tail|
  {
    var m := CurrentManifest(d);
    Disk(map n | n in d.logs :: LogFile(d.logs[n].synced, []), d.tables,
         d.manifests[d.current := Manifest(m.synced + m.tail[..kept], [])], d.current)
  }

  ghost predicate SurvivesCrashes(s: State, b: Batch) {
    forall kept, survivors, restorable, s' :: CrashStep(s, kept, survivors, restorable, s') ==> b in s'.live
  }

  /**
   Which batches a crash can take: a batch survives every crash exactly if it is in a table or a synced record
   under every view the crash can leave. Any other batch is lost by some crash.
   */
  lemma SurvivesCrashesIff(s: State, b: Batch)
    requires Inv(s)
    ensures SurvivesCrashes(s, b) <==>
            forall kept: nat :: kept <= |CurrentManifest(s.disk).tail| ==>
                                  Complete(ViewAfter(s.disk, kept)) && Secured(s.disk, ViewAfter(s.disk, kept), b)
  {
    if SurvivesCrashes(s, b) {
      forall kept: nat | kept <= |CurrentManifest(s.disk).tail|
        ensures Complete(ViewAfter(s.disk, kept)) && Secured(s.disk, ViewAfter(s.disk, kept), b)
      {
        var restorable, s' := BarestCrash(s, kept);
        assert CrashStep(s, kept, Barest(s.disk, kept), restorable, s') ==> b in s'.live;
      }
    } else {
      var kept, survivors, restorable, s' :| CrashStep(s, kept, survivors, restorable, s') && b !in s'.live;
      if Complete(ViewAfter(s.disk, kept)) && Secured(s.disk, ViewAfter(s.disk, kept), b) {
        SecuredIsKept(s, kept, survivors, b);
      }
    }
  }

  /** The worst crash can happen in every state, and it leaves the secured batches and no others. */
  lemma BarestCrash(s: State, kept: nat) returns (restorable: set<Batch>, s': State)
    requires Inv(s) && kept <= |CurrentManifest(s.disk).tail|
    ensures CrashStep(s, kept, Barest(s.disk, kept), restorable, s') && Complete(ViewAfter(s.disk, kept))
    ensures forall b :: b in s'.live <==> Secured(s.disk, ViewAfter(s.disk, kept), b)
  {
    var d, d', v := s.disk, Barest(s.disk, kept), ViewAfter(s.disk, kept);
    forall n | n in d.logs ensures LogSurvives(d.logs[n], d'.logs[n]) {
      assert d.logs[n].synced + d.logs[n].tail[..0] == d.logs[n].synced;
    }
    CrashViewOk(s, kept, d');
    forall b ensures Holds(d', v, b) <==> Secured(d, v, b) {
      BarestHolds(d, kept, v, b);
    }
    restorable := set b | b in s.live && Secured(d, v, b);
    forall b | Secured(d, v, b) ensures b in s.live {
      SecuredIsHeld(d, v, b);
      AfterCrashHolds(s, kept, b);
    }
    s' := s.(disk := d', process := Down, live := restorable, lost := s.lost + (s.live - restorable));
  }

  lemma BarestHolds(d: Disk, kept: nat, v: View, b: Batch)
    requires kept <= |CurrentManifest(d).tail| && Complete(v)
    ensures Holds(Barest(d, kept), v, b) <==> Secured(d, v, b)
  {
    var d' := Barest(d, kept);
    SameTables(d, d', v.version, b);
    if InLogs(d', v.log.value, b) {
      var n: nat :| v.log.value <= n && InLog(d', n, b);
      assert InSyncedLog(d, n, b);
    }
    if n: nat :| v.log.value <= n && InSyncedLog(d, n, b) {
      assert InLog(d', n, b);
    }
  }

  lemma AfterCrashHolds(s: State, kept: nat, b: Batch)
    requires Inv(s) && kept <= |CurrentManifest(s.disk).tail| && Complete(ViewAfter(s.disk, kept))
    requires Holds(s.disk, ViewAfter(s.disk, kept), b)
    ensures b in s.live
  {
    var m := CurrentManifest(s.disk);
    if kept == 1 {
      assert m.tail[..1] == [m.tail[0]];
      ReplayAppend(m.synced, m.tail[0]);
    } else {
      assert m.synced + m.tail[..0] == m.synced;
    }
  }

  lemma SecuredIsKept(s: State, kept: nat, survivors: Disk, b: Batch)
    requires Inv(s) && DiskSurvives(s.disk, kept, survivors)
    requires Complete(ViewAfter(s.disk, kept)) && Secured(s.disk, ViewAfter(s.disk, kept), b)
    ensures Complete(SyncedView(survivors)) && Holds(survivors, SyncedView(survivors), b)
  {
    var d, v := s.disk, ViewAfter(s.disk, kept);
    CrashViewOk(s, kept, survivors);
    if n: nat :| n in v.version && InTable(d, n, b) {
      assert InTable(survivors, n, b);
    } else {
      var n: nat :| v.log.value <= n && InSyncedLog(d, n, b);
      assert LogSurvives(d.logs[n], survivors.logs[n]);
      assert InLog(survivors, n, b);
    }
  }

  // ----- the background work gets done -----

  /**
   An immutable memtable can always be flushed when the background thread is free: one table under any fresh number,
   one edit, and its batches are promised and the logs before the current one are no longer needed.
   */
  lemma FlushCompletes(s: State, number: nat) returns (built: State, logged: State, done: State)
    requires s.process.Up? && s.process.phase == Running && s.process.imm.Some? && BackgroundFree(s.process)
    requires s.process.manifest == s.disk.current && s.disk.current in s.disk.manifests && number >= s.process.next
    ensures Next(s, BuildTable(number, s.process.imm.value), built)
    ensures Next(built, WriteFlushEdit({number}), logged) && Next(logged, Install, done)
    ensures done.process.Up? && done.process.imm.None? && BackgroundFree(done.process)
    ensures done.process.version == s.process.version + {number} && done.process.logNumber == s.process.logfile
    ensures done.durable == s.durable + s.process.imm.value
  {
    var p := s.process;
    built := s.(disk := s.disk.(tables := s.disk.tables[number := p.imm.value]),
                process := p.(pending := p.pending + {number}, next := number + 1));
    forall b ensures b in p.imm.value <==> InTables(built.disk, {number}, b) {
      assert InTable(built.disk, number, b) <==> b in p.imm.value;
    }
    var e := Edit({number}, {}, Some(p.logfile), Some(number + 1), Some(p.last));
    logged := built.(disk := LogEdit(built, e),
                     process := built.process.(change := Flushing(e), pending := built.process.pending - {number}));
    done := Installed(logged);
  }

  /** What the installation step makes of a state. */
  lemma Installed(s: State) returns (s': State)
    requires s.process.Up? && !s.process.change.Nothing? && s.process.manifest in s.disk.manifests
    requires s.process.change.edit.log.Some?
    ensures InstallStep(s, s')
  {
    var p, d := s.process, s.disk;
    var e, m := p.change.edit, d.manifests[p.manifest];
    s' := s.(disk := d.(manifests := d.manifests[p.manifest := Manifest(m.synced + m.tail, [])], current := p.manifest),
             process := p.(phase := Running, version := p.version - e.removed + e.added, logNumber := e.log.value,
                           change := Nothing, imm := if p.change.Flushing? then None else p.imm,
                           pending := p.pending - e.added),
             durable := s.durable + if p.change.Flushing? then ImmSet(p) else {});
  }

  /** So can any tables of the version be compacted into one that accounts for the same batches. */
  lemma CompactionCompletes(s: State, removed: set<nat>, number: nat)
    returns (contents: set<Batch>, built: State, logged: State, done: State)
    requires s.process.Up? && s.process.phase == Running && BackgroundFree(s.process) && removed <= s.process.version
    requires s.process.manifest == s.disk.current && s.disk.current in s.disk.manifests && number >= s.process.next
    requires number !in removed
    ensures Next(s, BuildTable(number, contents), built)
    ensures Next(built, WriteCompactionEdit(removed, {number}), logged) && Next(logged, Install, done)
    ensures done.process.Up? && BackgroundFree(done.process) && done.process.imm == s.process.imm
    ensures done.process.version == s.process.version - removed + {number}
    ensures done.process.logNumber == s.process.logNumber && done.durable == s.durable
  {
    var p := s.process;
    contents := set n, b | n in removed && n in s.disk.tables && b in s.disk.tables[n] :: b;
    built := s.(disk := s.disk.(tables := s.disk.tables[number := contents]),
                process := p.(pending := p.pending + {number}, next := number + 1));
    forall b ensures InTables(built.disk, removed, b) <==> InTables(built.disk, {number}, b) {
      assert InTable(built.disk, number, b) <==> b in contents;
      SameTables(s.disk, built.disk, removed, b);
      if b in contents {
        var n: nat :| n in removed && n in s.disk.tables && b in s.disk.tables[n];
        assert InTable(s.disk, n, b);
      }
      if n: nat :| n in removed && InTable(s.disk, n, b) {
        assert b in s.disk.tables[n];
      }
    }
    var e := Edit({number}, removed, Some(p.logNumber), Some(number + 1), Some(p.last));
    logged := built.(disk := LogEdit(built, e), process := built.process.(change := Compacting(e)));
    done := Installed(logged);
  }

  /** The steps lead from one state to another. */
  ghost predicate Leads(s: State, steps: seq<Step>, s': State)
    decreases |steps|
  {
    if steps == [] then s' == s else exists t :: Next(s, steps[0], t) && Leads(t, steps[1..], s')
  }

  lemma {:induction false} RemovesAll(s: State) returns (steps: seq<Step>, s': State)
    requires s.process.Up?
    ensures Leads(s, steps, s') && s'.process == s.process.(doomed := {})
    ensures forall f :: OnDisk(s'.disk, f) <==> OnDisk(s.disk, f) && f !in s.process.doomed
    decreases s.process.doomed
  {
    if s.process.doomed == {} {
      steps, s' := [], s;
    } else {
      var f :| f in s.process.doomed;
      var t := s.(disk := Without(s.disk, f), process := s.process.(doomed := s.process.doomed - {f}));
      var more;
      more, s' := RemovesAll(t);
      steps := [RemoveFile(f)] + more;
      assert steps[1..] == more && Next(s, steps[0], t);
      forall g ensures OnDisk(t.disk, g) <==> OnDisk(s.disk, g) && g != f {
        RemovesOne(s.disk, f, g);
      }
    }
  }

  lemma RemovesOne(d: Disk, f: FileName, g: FileName)
    ensures OnDisk(Without(d, f), g) <==> OnDisk(d, g) && g != f
  {
  }

  function ObsoleteFiles(p: Process, d: Disk, pinned: set<nat>): set<FileName>
    requires p.Up?
  {
    (set n | n in d.logs && IsDoomed(p, Log(n)) :: Log(n)) +
    (set n | n in d.tables && IsDoomed(p, Table(n)) && n !in pinned :: Table(n)) +
    (set n | n in d.manifests && IsDoomed(p, Descriptor(n)) :: Descriptor(n))
  }

  lemma ObsoleteFilesMean(p: Process, d: Disk, pinned: set<nat>, f: FileName)
    requires p.Up?
    ensures f in ObsoleteFiles(p, d, pinned) <==>
            OnDisk(d, f) && IsDoomed(p, f) && !(f.Table? && f.number in pinned)
  {
  }

  /**
   Nothing piles up: with the background thread free, removing obsolete files leaves on the disk exactly the logs,
   tables and MANIFESTs that are still needed or that older versions still use.
   */
  lemma ObsoleteFilesGo(s: State, pinned: set<nat>) returns (steps: seq<Step>, s': State)
    requires s.process.Up? && s.process.phase == Running && BackgroundFree(s.process)
    ensures Leads(s, steps, s') && s'.process == s.process
    ensures forall n :: n in s'.disk.logs <==> n in s.disk.logs && n >= s.process.logNumber
    ensures forall n :: n in s'.disk.tables <==>
                        n in s.disk.tables && (n in s.process.version || n in s.process.pending || n in pinned)
    ensures forall n :: n in s'.disk.manifests <==> n in s.disk.manifests && n >= s.process.manifest
  {
    hide ObsoleteFiles;
    var p, d := s.process, s.disk;
    var doomed := ObsoleteFiles(p, d, pinned);
    var chosen := s.(process := p.(doomed := doomed));
    forall f ensures f in doomed <==> OnDisk(d, f) && IsDoomed(p, f) && !(f.Table? && f.number in pinned) {
      ObsoleteFilesMean(p, d, pinned, f);
    }
    var more;
    more, s' := RemovesAll(chosen);
    steps := [ChooseObsolete(pinned)] + more;
    LeadsOn(s, steps[0], chosen, more, s');
    assert forall n :: n in s'.disk.logs <==> OnDisk(s'.disk, Log(n));
    assert forall n :: n in s'.disk.tables <==> OnDisk(s'.disk, Table(n));
    assert forall n :: n in s'.disk.manifests <==> OnDisk(s'.disk, Descriptor(n));
  }

  lemma LeadsOn(s: State, step: Step, t: State, more: seq<Step>, s': State)
    requires Next(s, step, t) && Leads(t, more, s')
    ensures Leads(s, [step] + more, s')
  {
    hide Next;
    assert ([step] + more)[1..] == more;
  }

  // ----- recovery gets done -----

  lemma {:induction false} Highest(batches: set<Batch>, floor: nat) returns (last: nat)
    ensures last >= floor && (forall b :: b in batches ==> Last(b) <= last)
    ensures last > floor ==> exists b :: b in batches && Last(b) == last
  {
    if batches == {} {
      last := floor;
    } else {
      var b :| b in batches;
      last := Highest(batches - {b}, floor);
      if Last(b) > last {
        last := Last(b);
      }
    }
  }

  lemma {:induction false} AboveAll(numbers: set<nat>, floor: nat) returns (number: nat)
    ensures number >= floor && forall n :: n in numbers ==> n < number
  {
    if numbers == {} {
      number := floor;
    } else {
      var n :| n in numbers;
      number := AboveAll(numbers - {n}, floor);
      assert forall m :: m in numbers ==> m in numbers - {n} || m == n;
      if n >= number {
        number := n + 1;
      }
    }
  }

  /** The batches in the logs from a number on. */
  function LoggedFrom(d: Disk, from: nat): set<Batch> {
    set n, b | n in d.logs && from <= n && b in Records(d.logs[n]) :: b
  }

  lemma LoggedFromMeans(d: Disk, from: nat, b: Batch)
    ensures b in LoggedFrom(d, from) <==> InLogs(d, from, b)
    ensures InLogs(d, from, b) <==> Replayed(d, from, None, b)
  {
    if n: nat :| from <= n && InLog(d, n, b) {
      assert b in Records(d.logs[n]);
    }
    if b in LoggedFrom(d, from) {
      var n :| n in d.logs && from <= n && b in Records(d.logs[n]);
      assert InLog(d, n, b);
    }
  }

  lemma NewLogIsEmpty(d: Disk, n: nat)
    requires n in d.logs && d.logs[n] == LogFile([], [])
    ensures (set b | InLog(d, n, b) && b in d.logs[n].synced + d.logs[n].tail) == {}
  {
  }

  /** What replaying every needed log into one table, and starting a new log, makes of a recovering process. */
  lemma ReplaysLogs(s: State) returns (built: State, opening: State, table: nat, recovered: set<Batch>, last: nat,
                                       number: nat)
    requires Inv(s) && s.process.Up? && s.process.phase == Recovering && s.process.pending == {}
    requires BackgroundFree(s.process)
    ensures Next(s, BuildTable(table, recovered), built)
    ensures Next(built, FinishRecovery(None, number, recovered, last), opening)
    ensures opening.process.Up? && opening.process.phase == Opening && opening.process.pending == {table}
    ensures opening.process.imm == Some(recovered) && BackgroundFree(opening.process) && opening.live == s.live
    ensures forall b :: b in recovered <==> InTables(opening.disk, {table}, b)
  {
    var p, d := s.process, s.disk;
    table := p.next;
    recovered := LoggedFrom(d, p.logNumber);
    built := s.(disk := d.(tables := d.tables[table := recovered]),
                process := p.(pending := p.pending + {table}, next := table + 1));
    forall b ensures b in recovered <==> InTables(built.disk, {table}, b)
      ensures b in recovered <==> InLogs(built.disk, p.logNumber, b)
      ensures b in recovered <==> Replayed(built.disk, p.logNumber, None, b)
    {
      LoggedFromMeans(d, p.logNumber, b);
      LoggedFromMeans(built.disk, p.logNumber, b);
      assert LoggedFrom(built.disk, p.logNumber) == LoggedFrom(d, p.logNumber);
      assert InTable(built.disk, table, b) <==> b in recovered;
    }
    last := Highest(recovered, p.last);
    number := AboveAll(d.logs.Keys, table + 1);
    var disk := built.disk.(logs := d.logs[number := LogFile([], [])]);
    NewLogIsEmpty(disk, number);
    opening := built.(disk := disk,
                      process := built.process.(phase := Opening, logfile := number, mem := {}, last := last,
                                                next := number + 1, imm := Some(recovered)));
    forall b ensures InTables(disk, {table}, b) <==> InTables(built.disk, {table}, b) {
      SameTables(built.disk, disk, {table}, b);
    }
  }

  /** After any crash the database can be opened, and then it serves every batch that is still live. */
  lemma RecoveryCompletes(s: State) returns (steps: seq<Step>, s': State)
    requires Inv(s) && s.process.Down?
    ensures Leads(s, steps, s') && Inv(s') && s'.live == s.live
    ensures s'.process.Up? && s'.process.phase == Running && forall b :: b in s.live <==> Served(s', b)
  {
    hide Inv, Next, Served;
    var started := Started(s);
    NextKeepsInv(s, StartRecovery(false), started);
    var built, opening, table, recovered, last, number := ReplaysLogs(started);
    NextKeepsInv(started, BuildTable(table, recovered), built);
    NextKeepsInv(built, FinishRecovery(None, number, recovered, last), opening);
    var logged;
    logged, s' := Opens(opening, table, recovered);
    steps := [StartRecovery(false), BuildTable(table, recovered), FinishRecovery(None, number, recovered, last),
              WriteFlushEdit({table}), Install];
    FiveSteps(s, started, built, opening, logged, s', steps);
    forall b ensures b in s.live <==> Served(s', b) {
      ServedIsLive(s', b);
    }
  }

  lemma Started(s: State) returns (s': State)
    requires Inv(s) && s.process.Down?
    ensures Next(s, StartRecovery(false), s') && s'.process.Up? && s'.process.phase == Recovering
    ensures s'.process.pending == {} && BackgroundFree(s'.process) && s'.live == s.live
  {
    var v := SyncedView(s.disk);
    s' := s.(process := Up(Recovering, v.version, v.log.value, v.next.value + 1, v.next.value, v.last.value,
                           {}, None, 0, None, {}, Nothing, {}));
  }

  /** The edit that ends opening can be written and installed. */
  lemma Opens(s: State, table: nat, recovered: set<Batch>) returns (logged: State, s': State)
    requires Inv(s) && s.process.Up? && s.process.phase == Opening && s.process.pending == {table}
    requires s.process.imm == Some(recovered) && BackgroundFree(s.process)
    requires forall b :: b in recovered <==> InTables(s.disk, {table}, b)
    ensures Next(s, WriteFlushEdit({table}), logged) && Next(logged, Install, s') && Inv(s') && s'.live == s.live
    ensures s'.process.Up? && s'.process.phase == Running && s'.process.writing.None?
  {
    hide Inv;
    var p := s.process;
    var e := Edit({table}, {}, Some(p.logfile), Some(p.next), Some(p.last));
    logged := s.(disk := LogEdit(s, e), process := p.(change := Flushing(e), pending := p.pending - {table}));
    NextKeepsInv(s, WriteFlushEdit({table}), logged);
    ManifestThere(logged);
    s' := Installed(logged);
    NextKeepsInv(logged, Install, s');
    OpeningWritesNothing(s);
  }

  lemma OpeningWritesNothing(s: State)
    requires Inv(s) && s.process.Up? && s.process.phase == Opening
    ensures s.process.writing.None?
  {
  }

  lemma ManifestThere(s: State)
    requires Inv(s) && s.process.Up? && !s.process.change.Nothing?
    ensures s.process.manifest in s.disk.manifests
  {
  }

  lemma FiveSteps(a: State, b: State, c: State, d: State, e: State, f: State, steps: seq<Step>)
    requires |steps| == 5 && Next(a, steps[0], b) && Next(b, steps[1], c) && Next(c, steps[2], d)
    requires Next(d, steps[3], e) && Next(e, steps[4], f)
    ensures Leads(a, steps, f)
  {
    hide Next;
    assert Leads(f, steps[5..], f);
    assert steps[4..][1..] == steps[5..] && Leads(e, steps[4..], f);
    assert steps[3..][1..] == steps[4..] && Leads(d, steps[3..], f);
    assert steps[2..][1..] == steps[3..] && Leads(c, steps[2..], f);
    assert steps[1..][1..] == steps[2..] && Leads(b, steps[1..], f);
  }

  /** A crash of the process alone: the operating system still has everything that was written. */
  ghost predicate LosesNothing(s: State, step: Step) {
    step.Crash? ==> forall n, b :: InLog(s.disk, n, b) ==> InLog(step.survivors, n, b)
  }

  /** If only the process ever crashes, every batch ever logged survives, synced or not. */
  lemma {:induction false} ProcessCrashesLoseNothing(states: seq<State>, steps: seq<Step>, i: nat)
    requires IsRun(states, steps) && i <= |steps|
    requires forall j :: 0 <= j < i ==> LosesNothing(states[j], steps[j])
    ensures states[i].lost == {} && states[i].live == states[i].logged
  {
    RunsKeepInv(states, steps, i);
    if i > 0 {
      ProcessCrashesLoseNothing(states, steps, i - 1);
      RunsKeepInv(states, steps, i - 1);
      var s, s', step := states[i - 1], states[i], steps[i - 1];
      assert Next(s, step, s') && LosesNothing(s, step);
      if step.Crash? {
        CrashViewOk(s, step.kept, step.survivors);
        var v := SyncedView(step.survivors);
        forall b | b in s.live ensures b in s'.live {
          assert Holds(s.disk, v, b);
          SameTables(s.disk, step.survivors, v.version, b);
          if !InTables(s.disk, v.version, b) {
            var n: nat :| v.log.value <= n && InLog(s.disk, n, b);
            assert InLog(step.survivors, n, b);
          }
        }
      }
    }
  }

  /** Sequence numbers are never reused: a new batch is numbered after every batch the database holds. */
  lemma FreshSequence(states: seq<State>, steps: seq<Step>, i: nat, b: Batch)
    requires IsRun(states, steps) && i < |steps| && steps[i].AddRecord? && b in states[i].live
    ensures Last(b) < steps[i].batch.sequence
  {
    var s := states[i];
    RunsKeepInv(states, steps, i);
    assert Next(s, steps[i], states[i + 1]);
    ServedIsLive(s, b);
  }
}

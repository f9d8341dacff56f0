/** Runs with files: writes that go to the log first, appends and syncs that fail, flushes and compactions
    that write tables, the manifest, garbage collection, and crashes with a recovery after each. File
    contents survive a crash; an installed manifest record is atomic. */
module Durability {
  import opened Entries
  import opened Options
  import opened CompactionRules
  import opened History
  import opened GroupSets
  import opened Layers
  import opened Database
  import opened Stores
  import opened Reopening

  datatype Event =
    | BeginGroup(ops: seq<Op>) | AppendRecord(ok: bool, tears: bool) | SyncLog | FailSync | Insert | Acknowledge | Refuse | SwitchLog
    | StartFlush | WriteFlush | EndFlush(depth: int) | FailFlush
    | StartJob(job: Job) | OpenOutput | FinishOutput(index: nat, contents: set<Entry>) | InstallJob(numbers: seq<nat>) | FailJob
    | MoveDown(table: Version, level: nat) | CollectGarbage | Unpin(version: set<nat>)
    | Observe(action: Action)   // snapshots and readers come and go
    | Crash(power: bool, choice: set<nat>, cuts: seq<Cut>, log: nat)

  /** The files that DeleteObsoleteFiles spares. */
  ghost function LiveTables(s: Store): set<nat> {
    s.pending + set v, n | v in s.live && n in v :: n
  }

  ghost function Numbers(outputs: seq<Output>): set<nat> {
    set i | 0 <= i < |outputs| :: outputs[i].number
  }

  ghost function TablesIn(inputs: Version): set<nat> {
    set p | p in inputs :: p.table
  }

  /** What the cuts put into table n. */
  ghost function CutFor(j: Job, numbers: seq<nat>, n: nat): set<Entry>
    requires |numbers| == |Kept(j.input, |j.input|, j.rule)|
  {
    set i | 0 <= i < |numbers| && numbers[i] == n :: Kept(j.input, |j.input|, j.rule)[i]
  }

  /** The finished outputs are the kept entries, cut into tables. */
  ghost predicate OutputsFilled(outputs: seq<Output>, j: Job, numbers: seq<nat>)
    requires |numbers| == |Kept(j.input, |j.input|, j.rule)|
  {
    && (forall i :: 0 <= i < |outputs| ==> outputs[i].contents == Some(CutFor(j, numbers, outputs[i].number)))
    && forall k :: 0 <= k < |numbers| ==> numbers[k] in Numbers(outputs)
  }

  ghost predicate CanHappen(s: Store, e: Event) {
    match e
    case BeginGroup(ops) => !s.failed && Enabled(s.db, BeginWrite(ops))
    // A record that was appended whole may fall on a torn log, or tear it with a lost trailer.
    case AppendRecord(ok, tears) => s.stage == Begun && s.logNumber in s.logs
    case SyncLog => s.stage == Logged && s.db.inserted == 0 && s.logNumber in s.logs
    case FailSync => s.stage == Logged && s.db.inserted == 0 && s.logNumber in s.logs && |s.db.history| !in s.synced
    case Insert => s.stage == Logged && Enabled(s.db, InsertNext)
    case Acknowledge => s.stage == Logged && Enabled(s.db, EndWrite(true)) && s.logNumber in s.logs
    case Refuse => s.stage == Refused && Enabled(s.db, EndWrite(false))
    case SwitchLog => !s.failed && Enabled(s.db, SwitchMemtable)
    case StartFlush => s.db.hasImm && s.flushing == None
    case WriteFlush => s.flushing.Some? && s.flushing.value.contents == None
    case EndFlush(depth) =>
      s.flushing.Some? && s.flushing.value.contents.Some? && Enabled(s.db, FlushImm(depth, s.flushing.value.number))
    case FailFlush => s.flushing.Some?
    case StartJob(j) => Enabled(s.db, StartCompaction(j)) && s.outputs == []
    case OpenOutput => s.db.running.Some?
    case FinishOutput(i, contents) => i < |s.outputs| && s.outputs[i].contents == None && contents != {}
    case InstallJob(numbers) => Enabled(s.db, InstallCompaction(numbers)) && OutputsFilled(s.outputs, s.db.running.value, numbers)
    case FailJob => s.db.running.Some?
    case MoveDown(table, level) => Enabled(s.db, MoveTable(table, level))
    // It is the background thread that collects, and not while it flushes a memtable.
    case CollectGarbage => !s.failed && s.flushing == None
    case Unpin(v) => v != s.installed
    case Observe(a) => (a.TakeSnapshot? || a.ReleaseSnapshot? || a.BeginRead? || a.EndRead?) && Enabled(s.db, a)
    case Crash(power, choice, cuts, log) => GoodCuts(Halted(s, power), choice, cuts, log)
  }

  /** The front writer's record goes to the log. */
  ghost function Appended(s: Store, ok: bool, tears: bool): Store
    requires s.logNumber in s.logs
  {
    var after := Recorded(s.logs[s.logNumber], s.torn, |s.db.history|, ok, tears);
    s.(logs := s.logs[s.logNumber := after], torn := s.torn || tears, stage := if ok then Logged else Refused)
  }

  /** The sync failed: the record may or may not show up, and no write is let in any more. */
  ghost function SyncFailed(s: Store): Store
    requires s.logNumber in s.logs
  {
    var log, i := s.logs[s.logNumber], |s.db.history|;
    s.(logs := s.logs[s.logNumber := Log(log.sure - {i}, log.maybe + {i})], stage := Refused, failed := true)
  }

  /** The process stops, or the machine: then what was not synced of the logs may be gone. Tables and the
      manifest are synced before anyone relies on them. */
  ghost function Halted(s: Store, power: bool): Store {
    if power then s.(logs := map n | n in s.logs :: Log(s.logs[n].sure * s.synced, s.logs[n].maybe + s.logs[n].sure),
                     doubtful := s.doubtful + set i | s.base <= i < |s.db.history| && i !in s.synced)
    else s
  }

  ghost function Acknowledged(s: Store): Store
    requires s.logNumber in s.logs
  {
    var i := |s.db.history|;
    s.(db := WriteEnded(s.db, true), stage := Idle, doubtful := if i in s.logs[s.logNumber].sure then s.doubtful else s.doubtful + {i})
  }

  ghost function LogSwitched(s: Store): Store {
    s.(db := Switched(s.db), logs := s.logs[s.nextFile := Log({}, {})], torn := false, logNumber := s.nextFile,
       nextFile := s.nextFile + 1, split := |s.db.history|)
  }

  ghost function FlushEnded(s: Store, depth: int): Store
    requires s.flushing.Some?
  {
    var n := s.flushing.value.number;
    // An empty memtable makes no table.
    var after := if Imm(s.db) == {} then s.installed else s.installed + {n};
    s.(db := ImmFlushed(s.db, depth, n), flushing := None,
       installed := after, live := s.live + {after},
       manifestLog := s.logNumber, manifestGroups := |s.db.history|, manifestNext := s.nextFile, base := s.split)
  }

  ghost function JobInstalled(s: Store, numbers: seq<nat>): Store
    requires s.db.running.Some? && Cuts(s.db.version, s.db.running.value, numbers)
  {
    var after := s.installed - TablesIn(s.db.running.value.inputs) + Numbers(s.outputs);
    s.(db := CompactionInstalled(s.db, numbers), pending := s.pending - Numbers(s.outputs), outputs := [],
       installed := after, live := s.live + {after},
       manifestGroups := |s.db.history|, manifestNext := s.nextFile)
  }

  ghost function Collected(s: Store): Store {
    s.(logs := map n | n in s.logs && n >= s.manifestLog :: s.logs[n],
       tables := map n | n in s.tables && n in LiveTables(s) :: s.tables[n])
  }

  ghost function Happens(s: Store, e: Event): Store
    requires CanHappen(s, e)
  {
    match e
    case BeginGroup(ops) => s.(db := WriteBegun(s.db, ops), stage := Begun)
    case AppendRecord(ok, tears) => Appended(s, ok, tears)
    case SyncLog => s.(synced := s.synced + s.logs[s.logNumber].sure)
    case FailSync => SyncFailed(s)
    case Insert => s.(db := OneInserted(s.db))
    case Acknowledge => Acknowledged(s)
    case Refuse => s.(db := WriteEnded(s.db, false), stage := Idle)
    case SwitchLog => LogSwitched(s)
    case StartFlush => s.(flushing := Some(Output(s.nextFile, None)), pending := s.pending + {s.nextFile}, nextFile := s.nextFile + 1)
    case WriteFlush =>
      var n := s.flushing.value.number;
      s.(tables := if Imm(s.db) == {} then s.tables else s.tables[n := Imm(s.db)], flushing := Some(Output(n, Some(Imm(s.db)))),
         pending := s.pending - {n})
    case EndFlush(depth) => FlushEnded(s, depth)
    case FailFlush => s.(pending := s.pending - {s.flushing.value.number}, flushing := None, failed := true)
    case StartJob(j) => s.(db := CompactionStarted(s.db, j))
    case OpenOutput => s.(outputs := s.outputs + [Output(s.nextFile, None)], pending := s.pending + {s.nextFile}, nextFile := s.nextFile + 1)
    case FinishOutput(i, contents) =>
      var n := s.outputs[i].number;
      s.(tables := s.tables[n := contents], outputs := s.outputs[i := Output(n, Some(contents))])
    case InstallJob(numbers) => JobInstalled(s, numbers)
    case FailJob => s.(db := CompactionAbandoned(s.db), pending := s.pending - Numbers(s.outputs), outputs := [], failed := true)
    case MoveDown(table, level) => s.(db := TableMoved(s.db, table, level), manifestGroups := |s.db.history|, manifestNext := s.nextFile)
    case CollectGarbage => Collected(s)
    case Unpin(v) => s.(live := s.live - {v})
    case Observe(a) => s.(db := Do(s.db, a))
    case Crash(power, choice, cuts, log) => Reopened(Halted(s, power), choice, cuts, log)
  }

  // ---------- Steps on the log ----------

  lemma FilesStay(s: Store, t: Store)
    requires VersionOk(s) && TablesOk(s) && OutputsOk(s) && SameVersion(s, t) && SameTables(s, t) && SameOutputs(s, t)
    ensures VersionOk(t) && TablesOk(t) && OutputsOk(t)
  {
    VersionStays(s, t);
    TablesStay(s, t);
    OutputsStay(s, t);
  }

  lemma BeginGroupFine(s: Store, ops: seq<Op>)
    requires StoreFine(s) && CanHappen(s, BeginGroup(ops))
    ensures StoreFine(Happens(s, BeginGroup(ops)))
  {
    var t := Happens(s, BeginGroup(ops));
    WriteBegunOk(s.db, ops);
    BegunMemory(s, t, ops);
    BegunLogs(s, t);
    FilesStay(s, t);
  }

  lemma BegunMemory(s: Store, t: Store, ops: seq<Op>)
    requires MemoryOk(s) && s.db.pending == None && t == s.(db := WriteBegun(s.db, ops), stage := Begun)
    ensures MemoryOk(t) && Imm(t.db) == Imm(s.db)
  {
    assert GroupEntries(ops, s.db.lastSequence, 0) == {} == GroupEntries([], s.db.lastSequence, 0);
  }

  lemma BegunLogs(s: Store, t: Store)
    requires LogsOk(s) && Covered(s) && s.stage == Idle && t == s.(db := t.db, stage := Begun) && t.db.history == s.db.history
    ensures LogsOk(t) && Covered(t)
  {
    assert SureIn(t) == SureIn(s);
  }

  /** The current log gains or loses what it says of the group that is being written. */
  lemma CurrentLogChanges(s: Store, t: Store, log: Log)
    requires LogsOk(s) && Covered(s) && s.logNumber in s.logs
    requires t == s.(logs := s.logs[s.logNumber := log], torn := t.torn, stage := t.stage, failed := t.failed)
    requires (t.stage == Logged || t.stage == Refused) && s.split <= |s.db.history|
    requires |s.db.history| !in s.synced
    requires forall i :: i != |s.db.history| ==> (i in log.sure <==> i in s.logs[s.logNumber].sure) && (i in log.maybe <==> i in s.logs[s.logNumber].maybe)
    ensures LogsOk(t) && Covered(t)
  {
    forall n: nat, i: nat | n != s.logNumber || i != |s.db.history| ensures HasRecord(t.logs, n, i) <==> HasRecord(s.logs, n, i) {
    }
    forall i | i in SureIn(s) && i != |s.db.history| ensures i in SureIn(t) {
      var n :| n in s.logs && n >= s.manifestLog && i in s.logs[n].sure;
      assert n in t.logs && i in t.logs[n].sure;
    }
  }

  lemma AppendRecordFine(s: Store, ok: bool, tears: bool)
    requires StoreFine(s) && CanHappen(s, AppendRecord(ok, tears))
    ensures StoreFine(Happens(s, AppendRecord(ok, tears)))
  {
    var t := Happens(s, AppendRecord(ok, tears));
    NotYetSynced(s);
    CurrentLogChanges(s, t, t.logs[s.logNumber]);
    FilesStay(s, t);
  }

  lemma NotYetSynced(s: Store)
    requires LogsOk(s) && Covered(s) && s.base <= s.split <= |s.db.history| && s.stage == Begun
    ensures |s.db.history| !in s.synced
  {
    if |s.db.history| in SureIn(s) {
      var n :| n in s.logs && n >= s.manifestLog && |s.db.history| in s.logs[n].sure;
      assert HasRecord(s.logs, n, |s.db.history|);
    }
  }

  lemma SyncLogFine(s: Store)
    requires StoreFine(s) && CanHappen(s, SyncLog)
    ensures StoreFine(Happens(s, SyncLog))
  {
    var t := Happens(s, SyncLog);
    assert SureIn(t) == SureIn(s);
    FilesStay(s, t);
  }

  lemma FailSyncFine(s: Store)
    requires StoreFine(s) && CanHappen(s, FailSync)
    ensures StoreFine(Happens(s, FailSync))
  {
    var t := Happens(s, FailSync);
    CurrentLogChanges(s, t, t.logs[s.logNumber]);
    FilesStay(s, t);
  }

  lemma InsertFine(s: Store)
    requires StoreFine(s) && CanHappen(s, Insert)
    ensures StoreFine(Happens(s, Insert))
  {
    var t := Happens(s, Insert);
    OneInsertedOk(s.db);
    InsertedMemory(s, t);
    LogsStay(s, t);
    FilesStay(s, t);
  }

  lemma InsertedMemory(s: Store, t: Store)
    requires MemoryOk(s) && s.stage == Logged && s.db.inserted < |Ops(s.db)| && t == s.(db := OneInserted(s.db))
    ensures MemoryOk(t) && Imm(t.db) == Imm(s.db)
  {
    GroupGrows(Ops(s.db), s.db.lastSequence, s.db.inserted);
    assert Mem(t.db) == Mem(s.db) + {NextEntry(s.db)};
  }

  /** One more group in the history. */
  lemma HistoryGrows(d: Db, applied: bool, lo: nat, mid: nat)
    requires WritesOk(d) && lo <= mid <= |d.history|
    ensures var h := WriteEnded(d, applied).history;
      && EntriesOf(h, Among(Applied(h), lo, mid)) == EntriesOf(d.history, Among(Applied(d.history), lo, mid))
      && EntriesOf(h, Among(Applied(h), mid, |h|))
           == EntriesOf(d.history, Among(Applied(d.history), mid, |d.history|)) + if applied then GroupEntries(Ops(d), d.lastSequence, |Ops(d)|) else {}
  {
    var h, n := WriteEnded(d, applied).history, |d.history|;
    assert Among(Applied(h), lo, mid) == Among(Applied(d.history), lo, mid);
    SameOpsSameEntries(h, d.history, Among(Applied(h), lo, mid));
    SameOpsSameEntries(h, d.history, Among(Applied(d.history), mid, n));
    assert h[..n] == d.history;
    if applied {
      assert Among(Applied(h), mid, |h|) == Among(Applied(d.history), mid, n) + {n};
      TwoChoices(h, Among(Applied(d.history), mid, n), {n});
      OneGroup(h, n);
    } else {
      assert Among(Applied(h), mid, |h|) == Among(Applied(d.history), mid, n);
    }
  }

  lemma EndedMemory(s: Store, t: Store, applied: bool)
    requires MemoryOk(s) && WritesOk(s.db) && s.db.inserted == if applied then |Ops(s.db)| else 0
    requires t.db == WriteEnded(s.db, applied) && t.stage == Idle && t.base == s.base && t.split == s.split
    ensures MemoryOk(t)
  {
    HistoryGrows(s.db, applied, s.base, s.split);
    RecordStays(s.db, applied);
    assert GroupEntries([], t.db.lastSequence, 0) == {} && GroupEntries(Ops(s.db), s.db.lastSequence, 0) == {};
    assert Imm(t.db) == Imm(s.db) && Mem(t.db) == Mem(s.db);
  }

  lemma AcknowledgeFine(s: Store)
    requires StoreFine(s) && CanHappen(s, Acknowledge)
    ensures StoreFine(Happens(s, Acknowledge))
  {
    var t := Happens(s, Acknowledge);
    WriteEndedOk(s.db, true);
    EndedMemory(s, t, true);
    AcknowledgedSure(s, t);
    EndedLogs(s, t);
    EndedFiles(s, t, true);
    FilesStay(s, t);
  }

  lemma EndedFiles(s: Store, t: Store, applied: bool)
    requires t.db == WriteEnded(s.db, applied) && t == s.(db := t.db, stage := t.stage, doubtful := t.doubtful)
    requires s.db.running == None ==> s.outputs == []
    ensures SameVersion(s, t) && SameTables(s, t) && SameOutputs(s, t)
  {
  }

  lemma AcknowledgedSure(s: Store, t: Store)
    requires s.logNumber in s.logs && s.manifestLog <= s.logNumber && t == Acknowledged(s)
    ensures |s.db.history| in t.doubtful || |s.db.history| in SureIn(t)
  {
  }

  lemma EndedLogs(s: Store, t: Store)
    requires LogsOk(s) && Covered(s) && t.logs == s.logs && t.logNumber == s.logNumber && t.manifestLog == s.manifestLog && t.nextFile == s.nextFile
    requires t.base == s.base && t.split == s.split && t.synced == s.synced && s.db.history <= t.db.history && |t.db.history| == |s.db.history| + 1
    requires t.doubtful <= s.doubtful + {|s.db.history|} && s.doubtful <= t.doubtful
    requires t.db.history[|s.db.history|].applied ==> |s.db.history| in t.doubtful || |s.db.history| in SureIn(t)
    ensures LogsOk(t) && Covered(t)
  {
    assert SureIn(t) == SureIn(s);
    assert forall i :: 0 <= i < |s.db.history| ==> t.db.history[i] == s.db.history[i];
  }

  lemma RefuseFine(s: Store)
    requires StoreFine(s) && CanHappen(s, Refuse)
    ensures StoreFine(Happens(s, Refuse))
  {
    var t := Happens(s, Refuse);
    WriteEndedOk(s.db, false);
    EndedMemory(s, t, false);
    EndedLogs(s, t);
    EndedFiles(s, t, false);
    FilesStay(s, t);
  }

  lemma SwitchLogFine(s: Store)
    requires StoreFine(s) && CanHappen(s, SwitchLog)
    ensures StoreFine(Happens(s, SwitchLog))
  {
    var t := Happens(s, SwitchLog);
    SwitchedOk(s.db);
    SwitchedMemory(s, t);
    SwitchedLogs(s, t);
    FilesStay(s, t);
  }

  lemma SwitchedMemory(s: Store, t: Store)
    requires MemoryOk(s) && s.db.pending == None && !s.db.hasImm && t == LogSwitched(s)
    ensures MemoryOk(t)
  {
    assert Mem(t.db) == {} && Imm(t.db) == Mem(s.db);
    assert GroupEntries([], s.db.lastSequence, 0) == {};
    NothingAmong(s.db.history, |s.db.history|);
  }

  lemma NothingAmong(groups: seq<Group>, n: nat)
    ensures EntriesOf(groups, Among(Applied(groups), n, n)) == {}
  {
  }

  lemma SwitchedLogs(s: Store, t: Store)
    requires LogsOk(s) && Covered(s) && s.stage == Idle && s.base == s.split <= |s.db.history| && t == LogSwitched(s)
    ensures LogsOk(t) && Covered(t)
  {
    forall n: nat, i: nat | HasRecord(t.logs, n, i) ensures n != t.logNumber && HasRecord(s.logs, n, i) {
    }
    forall i | i in SureIn(s) ensures i in SureIn(t) {
      var n :| n in s.logs && n >= s.manifestLog && i in s.logs[n].sure;
      assert n in t.logs && i in t.logs[n].sure;
    }
  }

  // ---------- Steps on tables ----------

  lemma MemoryAndLogsStay(s: Store, t: Store)
    requires MemoryOk(s) && LogsOk(s) && Covered(s) && SameMemory(s, t) && SameLogs(s, t)
    ensures MemoryOk(t) && LogsOk(t) && Covered(t)
  {
    MemoryStays(s, t);
    LogsStay(s, t);
  }

  lemma NotLive(s: Store, n: nat)
    requires TablesOk(s) && n >= s.nextFile
    ensures (forall v :: v in s.live ==> n !in v) && n !in s.tables && n !in s.pending && n !in s.installed
  {
  }

  lemma StartFlushFine(s: Store)
    requires StoreFine(s) && CanHappen(s, StartFlush)
    ensures StoreFine(Happens(s, StartFlush))
  {
    var t := Happens(s, StartFlush);
    MemoryAndLogsStay(s, t);
    VersionStays(s, t);
    NewFlushOutput(s, t);
  }

  lemma NewFlushOutput(s: Store, t: Store)
    requires TablesOk(s) && OutputsOk(s) && CanHappen(s, StartFlush) && t == Happens(s, StartFlush)
    ensures TablesOk(t) && OutputsOk(t)
  {
    NotLive(s, s.nextFile);
    OutputsProtected(s, t);
  }

  /** What protects the outputs stays. */
  lemma OutputsProtected(s: Store, t: Store)
    requires OutputsOk(s) && (forall i :: 0 <= i < |s.outputs| ==> s.outputs[i].number in t.pending)
    requires t.nextFile >= s.nextFile && t.live <= s.live
    requires forall i :: 0 <= i < |s.outputs| && s.outputs[i].number in s.tables ==>
               s.outputs[i].number in t.tables && t.tables[s.outputs[i].number] == s.tables[s.outputs[i].number]
    ensures forall i :: 0 <= i < |s.outputs| ==> Protected(t, s.outputs[i])
  {
    forall i | 0 <= i < |s.outputs| ensures Protected(t, s.outputs[i]) {
      assert Protected(s, s.outputs[i]);
    }
  }

  /** Writing a protected file touches no version. */
  lemma WriteKeepsTables(s: Store, t: Store, o: Output, contents: set<Entry>)
    requires TablesOk(s) && Unlisted(s, o)
    requires t == s.(tables := s.tables[o.number := contents], flushing := t.flushing, outputs := t.outputs, pending := t.pending) && t.pending <= s.pending
    ensures TablesOk(t)
  {
    assert o.number !in s.installed;
  }

  lemma WriteFlushFine(s: Store)
    requires StoreFine(s) && CanHappen(s, WriteFlush)
    ensures StoreFine(Happens(s, WriteFlush))
  {
    var t := Happens(s, WriteFlush);
    MemoryAndLogsStay(s, t);
    VersionStays(s, t);
    WrittenFlush(s, t);
  }

  lemma WrittenFlush(s: Store, t: Store)
    requires TablesOk(s) && OutputsOk(s) && CanHappen(s, WriteFlush) && t == Happens(s, WriteFlush)
    ensures TablesOk(t) && OutputsOk(t)
  {
    if Imm(s.db) != {} {
      WriteKeepsTables(s, t, s.flushing.value, Imm(s.db));
    }
    OutputsProtected(s, t);
  }

  lemma EndFlushFine(s: Store, depth: int)
    requires StoreFine(s) && CanHappen(s, EndFlush(depth))
    ensures StoreFine(Happens(s, EndFlush(depth)))
  {
    var t := Happens(s, EndFlush(depth));
    ImmFlushedOk(s.db, depth, s.flushing.value.number);
    FlushedMemory(s, t, depth);
    FlushedLogs(s, t);
    FlushedVersion(s, t, depth);
    FlushedTables(s, t, depth);
    FlushedOutputs(s, t, depth);
  }

  lemma FlushedMemory(s: Store, t: Store, depth: int)
    requires MemoryOk(s) && s.flushing.Some? && t == FlushEnded(s, depth)
    ensures MemoryOk(t)
  {
    NothingAmong(s.db.history, s.split);
    assert Mem(t.db) == Mem(s.db) && Imm(t.db) == {};
  }

  lemma FlushedLogs(s: Store, t: Store)
    requires LogsOk(s) && Covered(s) && s.base <= s.split
    requires t.logs == s.logs && t.logNumber == t.manifestLog == s.logNumber && t.nextFile == s.nextFile && t.stage == s.stage
    requires t.db.history == s.db.history && t.doubtful == s.doubtful && t.synced == s.synced && t.base == t.split == s.split
    ensures LogsOk(t) && Covered(t)
  {
    forall i | s.split <= i < |s.db.history| && s.db.history[i].applied && i !in s.doubtful ensures i in SureIn(t) {
      var n :| n in s.logs && n >= s.manifestLog && i in s.logs[n].sure;
      assert HasRecord(s.logs, n, i);
    }
    forall i | i in s.synced && i >= t.base ensures i in SureIn(t) {
      var n :| n in s.logs && n >= s.manifestLog && i in s.logs[n].sure;
      assert HasRecord(s.logs, n, i);
    }
  }

  /** The tables now answer for the groups of the flushed memtable too. */
  lemma FlushedVersion(s: Store, t: Store, depth: int)
    requires Ok(s.db) && MemoryOk(s) && VersionOk(s) && s.flushing.Some? && t == FlushEnded(s, depth)
    ensures VersionOk(t)
  {
    var h, lo, hi := s.db.history, s.base, s.split;
    FlushedEntries(s.db.version, Imm(s.db), depth, s.flushing.value.number);
    PrefixWrites(h, lo);
    PrefixWrites(h, hi);
    assert Among(Applied(h), 0, hi) == Among(Applied(h), 0, lo) + Among(Applied(h), lo, hi);
    TwoChoices(h, Among(Applied(h), 0, lo), Among(Applied(h), lo, hi));
    WrittenWithin(h[..lo]);
    WrittenWithin(h[..hi]);
    ChoiceWithin(h, Among(Applied(h), lo, hi), lo, hi);
    CompleteOnTop(EntriesIn(s.db.version), Written(h[..lo]), Imm(s.db), s.db.floor, Last(h[..lo]));
    assert h[..|h|] == h;
  }

  lemma FlushedTables(s: Store, t: Store, depth: int)
    requires TablesOk(s) && OutputsOk(s) && CanHappen(s, EndFlush(depth)) && t == FlushEnded(s, depth)
    ensures TablesOk(t)
  {
    var n := s.flushing.value.number;
    assert n !in s.installed;
    forall m | m in t.installed ensures m in t.tables && t.tables[m] == TableAt(t.db.version, m) {
      FlushedTableAt(s.db.version, Imm(s.db), depth, n, m);
    }
  }

  lemma FlushedTableAt(v: Version, imm: set<Entry>, depth: int, number: nat, n: nat)
    requires forall p :: p in v ==> p.table != number
    ensures TableAt(Flushed(v, imm, depth, number), n) == if n == number then imm else TableAt(v, n)
  {
    var w := Flushed(v, imm, depth, number);
    forall e ensures e in TableAt(w, n) <==> e in (if n == number then imm else TableAt(v, n)) {
      if n == number && e in imm {
        assert Placed(e, depth, number) in w;
      }
    }
  }

  lemma FlushedOutputs(s: Store, t: Store, depth: int)
    requires TablesOk(s) && OutputsOk(s) && CanHappen(s, EndFlush(depth)) && t == FlushEnded(s, depth)
    ensures OutputsOk(t)
  {
    forall i | 0 <= i < |s.outputs| ensures Protected(t, s.outputs[i]) {
      assert Protected(s, s.outputs[i]);
    }
  }

  lemma FailFlushFine(s: Store)
    requires StoreFine(s) && CanHappen(s, FailFlush)
    ensures StoreFine(Happens(s, FailFlush))
  {
    var t := Happens(s, FailFlush);
    MemoryAndLogsStay(s, t);
    VersionStays(s, t);
    OutputsProtected(s, t);
  }

  lemma StartJobFine(s: Store, j: Job)
    requires StoreFine(s) && CanHappen(s, StartJob(j))
    ensures StoreFine(Happens(s, StartJob(j)))
  {
    var t := Happens(s, StartJob(j));
    CompactionStartedOk(s.db, j);
    MemoryAndLogsStay(s, t);
    FilesStay(s, t);
  }

  lemma OpenOutputFine(s: Store)
    requires StoreFine(s) && CanHappen(s, OpenOutput)
    ensures StoreFine(Happens(s, OpenOutput))
  {
    var t := Happens(s, OpenOutput);
    MemoryAndLogsStay(s, t);
    VersionStays(s, t);
    NewJobOutput(s, t);
  }

  lemma NewJobOutput(s: Store, t: Store)
    requires TablesOk(s) && OutputsOk(s) && CanHappen(s, OpenOutput) && t == Happens(s, OpenOutput)
    ensures TablesOk(t) && OutputsOk(t)
  {
    NotLive(s, s.nextFile);
    OutputsProtected(s, t);
  }

  lemma FinishOutputFine(s: Store, k: nat, contents: set<Entry>)
    requires StoreFine(s) && CanHappen(s, FinishOutput(k, contents))
    ensures StoreFine(Happens(s, FinishOutput(k, contents)))
  {
    var t := Happens(s, FinishOutput(k, contents));
    MemoryAndLogsStay(s, t);
    VersionStays(s, t);
    FinishedOutput(s, t, k, contents);
  }

  lemma FinishedOutput(s: Store, t: Store, k: nat, contents: set<Entry>)
    requires TablesOk(s) && OutputsOk(s) && CanHappen(s, FinishOutput(k, contents)) && t == Happens(s, FinishOutput(k, contents))
    ensures TablesOk(t) && OutputsOk(t)
  {
    assert Protected(s, s.outputs[k]);
    WriteKeepsTables(s, t, s.outputs[k], contents);
    forall i | 0 <= i < |t.outputs| ensures Protected(t, t.outputs[i]) && t.outputs[i].contents != Some({}) {
      assert Protected(s, s.outputs[i]);
    }
  }

  /** The outputs are finished, and cut as the numbers say. */
  ghost predicate JobReady(s: Store, numbers: seq<nat>) {
    && s.db.running.Some? && JobFits(s.db.version, s.db.running.value) && Cuts(s.db.version, s.db.running.value, numbers)
    && OutputsFilled(s.outputs, s.db.running.value, numbers)
  }

  lemma InstallJobFine(s: Store, numbers: seq<nat>)
    requires StoreFine(s) && CanHappen(s, InstallJob(numbers))
    ensures StoreFine(Happens(s, InstallJob(numbers)))
  {
    var t := JobInstalled(s, numbers);
    CompactionInstalledOk(s.db, numbers);
    assert JobReady(s, numbers);
    InstalledElsewhere(s, t, numbers);
    MemoryAndLogsStay(s, t);
    InstalledFiles(s, t, numbers);
  }

  lemma InstalledElsewhere(s: Store, t: Store, numbers: seq<nat>)
    requires JobReady(s, numbers) && t == JobInstalled(s, numbers)
    ensures SameMemory(s, t) && SameLogs(s, t)
  {
  }

  lemma InstalledFiles(s: Store, t: Store, numbers: seq<nat>)
    requires Ok(s.db) && VersionOk(s) && TablesOk(s) && OutputsOk(s) && JobReady(s, numbers) && t == JobInstalled(s, numbers)
    ensures VersionOk(t) && TablesOk(t) && OutputsOk(t)
  {
    InstalledVersion(s, t, numbers);
    InstalledTables(s, t, numbers);
    InstalledOutputs(s, t, numbers);
  }

  /** What the version answers for stays complete from the job's snapshot on. */
  lemma InstalledVersion(s: Store, t: Store, numbers: seq<nat>)
    requires VersionOk(s) && JobReady(s, numbers) && t == JobInstalled(s, numbers)
    requires AllWellFormed(s.db.history) && AgeOrdered(s.db.version)
    requires s.db.floor <= s.db.running.value.rule.smallestSnapshot <= Last(s.db.history)
    ensures VersionOk(t)
  {
    var h, j := s.db.history, s.db.running.value;
    WrittenWithin(h[..s.base]);
    assert All({}, {}, s.db.version) == EntriesIn(s.db.version);
    InstallStaysComplete({}, {}, s.db.version, j, numbers, Written(h[..s.base]), s.db.floor);
    assert All({}, {}, t.db.version) == EntriesIn(t.db.version);
    assert h[..|h|] == h;
  }

  lemma InstalledTables(s: Store, t: Store, numbers: seq<nat>)
    requires TablesOk(s) && OutputsOk(s) && JobReady(s, numbers) && t == JobInstalled(s, numbers)
    ensures TablesOk(t)
  {
    var j := s.db.running.value;
    forall p | p in t.db.version ensures p.table in t.installed && (p.depth > 0 || p.depth + p.table == 0) {
      InstalledIn(s, j, numbers, p);
    }
    forall n | n in Numbers(s.outputs) ensures OutputHolds(s, j, numbers, n) {
      OutputsHold(s, j, numbers, n);
    }
    forall n | n in t.installed ensures n in t.tables && t.tables[n] == TableAt(t.db.version, n) {
      InstalledTableAt(s.db.version, j, numbers, n);
      assert n in Numbers(s.outputs) ==> OutputHolds(s, j, numbers, n);
    }
  }

  ghost predicate OutputHolds(s: Store, j: Job, numbers: seq<nat>, n: nat)
    requires |numbers| == |Kept(j.input, |j.input|, j.rule)|
  {
    n in s.tables && s.tables[n] == CutFor(j, numbers, n) && n !in s.installed && n in numbers
  }

  lemma OutputsHold(s: Store, j: Job, numbers: seq<nat>, n: nat)
    requires TablesOk(s) && OutputsOk(s) && |numbers| == |Kept(j.input, |j.input|, j.rule)|
    requires OutputsFilled(s.outputs, j, numbers) && n in Numbers(s.outputs)
    ensures OutputHolds(s, j, numbers, n)
  {
    var i :| 0 <= i < |s.outputs| && s.outputs[i].number == n;
    assert Protected(s, s.outputs[i]);
  }

  lemma InstalledIn(s: Store, j: Job, numbers: seq<nat>, p: Placed)
    requires TablesOk(s) && JobTakes(s.db.version, j) && Cuts(s.db.version, j, numbers) && OutputsFilled(s.outputs, j, numbers)
    requires p in Installed(s.db.version, j, numbers)
    ensures p.table in s.installed - TablesIn(j.inputs) + Numbers(s.outputs) && (p.depth > 0 || p.depth + p.table == 0)
  {
    if p in s.db.version - j.inputs {
      assert p.table !in TablesIn(j.inputs);
    } else {
      var i, k := FromInput(j, numbers, p);
    }
  }

  lemma InstalledTableAt(v: Version, j: Job, numbers: seq<nat>, n: nat)
    requires JobTakes(v, j) && Cuts(v, j, numbers)
    ensures n in numbers ==> TableAt(Installed(v, j, numbers), n) == CutFor(j, numbers, n)
    ensures n !in numbers ==> TableAt(Installed(v, j, numbers), n) == if n in TablesIn(j.inputs) then {} else TableAt(v, n)
  {
    var w := Installed(v, j, numbers);
    forall e ensures e in TableAt(w, n) <==> if n in numbers then e in CutFor(j, numbers, n) else n !in TablesIn(j.inputs) && e in TableAt(v, n) {
      InstalledHolds(v, j, numbers, n, e);
    }
  }

  lemma InstalledHolds(v: Version, j: Job, numbers: seq<nat>, n: nat, e: Entry)
    requires JobTakes(v, j) && Cuts(v, j, numbers)
    ensures e in TableAt(Installed(v, j, numbers), n) <==> if n in numbers then e in CutFor(j, numbers, n) else n !in TablesIn(j.inputs) && e in TableAt(v, n)
  {
    var w, K := Installed(v, j, numbers), Kept(j.input, |j.input|, j.rule);
    if e in TableAt(w, n) {
      var p :| p in w && p.table == n && p.entry == e;
      if p !in v - j.inputs {
        var i, k := FromInput(j, numbers, p);
      }
    } else if n in numbers {
      forall k | 0 <= k < |numbers| && numbers[k] == n ensures K[k] != e {
        assert Placed(K[k], j.rule.level + 1, numbers[k]) in w;
      }
    } else if n !in TablesIn(j.inputs) {
      forall p | p in v && p.table == n ensures p.entry != e {
        assert p !in j.inputs;
        assert p in w;
      }
    }
  }

  lemma InstalledOutputs(s: Store, t: Store, numbers: seq<nat>)
    requires TablesOk(s) && OutputsOk(s) && JobReady(s, numbers) && t == JobInstalled(s, numbers)
    ensures OutputsOk(t)
  {
    if s.flushing.Some? {
      assert s.flushing.value.number !in Numbers(s.outputs);
      assert s.installed in s.live;
    }
  }

  lemma FailJobFine(s: Store)
    requires StoreFine(s) && CanHappen(s, FailJob)
    ensures StoreFine(Happens(s, FailJob))
  {
    var t := Happens(s, FailJob);
    CompactionAbandonedOk(s.db);
    MemoryAndLogsStay(s, t);
    VersionStays(s, t);
    AbandonedOutputs(s, t);
  }

  lemma AbandonedOutputs(s: Store, t: Store)
    requires TablesOk(s) && OutputsOk(s) && CanHappen(s, FailJob) && t == Happens(s, FailJob)
    ensures TablesOk(t) && OutputsOk(t)
  {
    if s.flushing.Some? {
      assert s.flushing.value.number !in Numbers(s.outputs);
    }
  }

  lemma MoveDownFine(s: Store, table: Version, level: nat)
    requires StoreFine(s) && CanHappen(s, MoveDown(table, level))
    ensures StoreFine(Happens(s, MoveDown(table, level)))
  {
    var t := Happens(s, MoveDown(table, level));
    TableMovedOk(s.db, table, level);
    MemoryAndLogsStay(s, t);
    MovedTables(s, t, table, level);
    OutputsStay(s, t);
  }

  lemma MovedTables(s: Store, t: Store, table: Version, level: nat)
    requires s.db.floor <= Last(s.db.history) && VersionOk(s) && TablesOk(s) && MayMove(s.db.version, table, level)
    requires t == s.(db := TableMoved(s.db, table, level), manifestGroups := |s.db.history|, manifestNext := s.nextFile)
    ensures VersionOk(t) && TablesOk(t)
  {
    MovedEntries(s.db.version, table, level);
    assert s.db.history[..|s.db.history|] == s.db.history;
    forall n ensures TableAt(t.db.version, n) == TableAt(s.db.version, n) {
      MovedTableAt(s.db.version, table, level, n);
    }
  }

  lemma MovedTableAt(v: Version, table: Version, level: nat, n: nat)
    requires MayMove(v, table, level)
    ensures TableAt(Moved(v, table, level), n) == TableAt(v, n)
  {
    var w := Moved(v, table, level);
    forall p | p in v ensures p.entry in TableAt(w, p.table) {
      assert p in table ==> Placed(p.entry, level + 1, p.table) in w;
    }
  }

  /** Garbage collection spares every protected output and everything that a version needs. */
  lemma CollectGarbageFine(s: Store)
    requires StoreFine(s) && CanHappen(s, CollectGarbage)
    ensures StoreFine(Happens(s, CollectGarbage))
  {
    var t := Happens(s, CollectGarbage);
    MemoryStays(s, t);
    VersionStays(s, t);
    CollectedLogs(s, t);
    forall v | v in s.live ensures v <= t.tables.Keys {
      assert forall n :: n in v ==> n in s.tables && n in LiveTables(s);
    }
    forall i | 0 <= i < |s.outputs| ensures Protected(t, s.outputs[i]) {
      assert Protected(s, s.outputs[i]);
    }
  }

  lemma CollectedLogs(s: Store, t: Store)
    requires LogsOk(s) && Covered(s) && t == Collected(s)
    ensures LogsOk(t) && Covered(t)
  {
    forall n: nat, i: nat | HasRecord(t.logs, n, i) ensures HasRecord(s.logs, n, i) {
    }
    forall i | i in SureIn(s) ensures i in SureIn(t) {
      var n :| n in s.logs && n >= s.manifestLog && i in s.logs[n].sure;
      assert n in t.logs && i in t.logs[n].sure;
    }
  }

  lemma UnpinFine(s: Store, v: set<nat>)
    requires StoreFine(s) && CanHappen(s, Unpin(v))
    ensures StoreFine(Happens(s, Unpin(v)))
  {
    var t := Happens(s, Unpin(v));
    MemoryAndLogsStay(s, t);
    VersionStays(s, t);
    OutputsStay(s, t);
  }

  lemma ObserveFine(s: Store, a: Action)
    requires StoreFine(s) && CanHappen(s, Observe(a))
    ensures StoreFine(Happens(s, Observe(a)))
  {
    var t := Happens(s, Observe(a));
    StepOk(s.db, a);
    Observed(s, t, a);
    MemoryAndLogsStay(s, t);
    FilesStay(s, t);
  }

  lemma Observed(s: Store, t: Store, a: Action)
    requires CanHappen(s, Observe(a)) && t == Happens(s, Observe(a)) && (s.db.running == None ==> s.outputs == [])
    ensures SameMemory(s, t) && SameLogs(s, t) && SameVersion(s, t) && SameTables(s, t) && SameOutputs(s, t)
  {
  }

  // ---------- Runs ----------

  lemma HaltedFine(s: Store, power: bool)
    requires StoreFine(s)
    ensures StoreFine(Halted(s, power))
  {
    if power {
      HaltedLogs(s);
      FilesStay(s, Halted(s, true));
    }
  }

  lemma HaltedLogs(s: Store)
    requires LogsOk(s) && Covered(s) && s.base <= |s.db.history|
    ensures LogsOk(Halted(s, true)) && Covered(Halted(s, true)) && SureIn(Halted(s, true)) == SureIn(s) * s.synced
  {
    var t := Halted(s, true);
    forall n: nat, i: nat ensures HasRecord(t.logs, n, i) <==> HasRecord(s.logs, n, i) {
    }
    forall i | i in SureIn(s) && i in s.synced ensures i in SureIn(t) {
      var n :| n in s.logs && n >= s.manifestLog && i in s.logs[n].sure;
      assert n in t.logs && i in t.logs[n].sure;
    }
  }

  lemma LogEventFine(s: Store, e: Event)
    requires StoreFine(s) && CanHappen(s, e)
    requires OnLog(e)
    ensures StoreFine(Happens(s, e))
  {
    match e
    case BeginGroup(ops) => BeginGroupFine(s, ops);
    case AppendRecord(ok, tears) => AppendRecordFine(s, ok, tears);
    case SyncLog => SyncLogFine(s);
    case FailSync => FailSyncFine(s);
    case Insert => InsertFine(s);
    case Acknowledge => AcknowledgeFine(s);
    case Refuse => RefuseFine(s);
    case SwitchLog => SwitchLogFine(s);
  }

  lemma FlushEventFine(s: Store, e: Event)
    requires StoreFine(s) && CanHappen(s, e) && (e.StartFlush? || e.WriteFlush? || e.EndFlush? || e.FailFlush?)
    ensures StoreFine(Happens(s, e))
  {
    match e
    case StartFlush => StartFlushFine(s);
    case WriteFlush => WriteFlushFine(s);
    case EndFlush(depth) => EndFlushFine(s, depth);
    case FailFlush => FailFlushFine(s);
  }

  lemma JobEventFine(s: Store, e: Event)
    requires StoreFine(s) && CanHappen(s, e) && (e.StartJob? || e.OpenOutput? || e.FinishOutput? || e.InstallJob? || e.FailJob?)
    ensures StoreFine(Happens(s, e))
  {
    match e
    case StartJob(j) => StartJobFine(s, j);
    case OpenOutput => OpenOutputFine(s);
    case FinishOutput(i, contents) => FinishOutputFine(s, i, contents);
    case InstallJob(numbers) => InstallJobFine(s, numbers);
    case FailJob => FailJobFine(s);
  }

  lemma OtherEventFine(s: Store, e: Event)
    requires StoreFine(s) && CanHappen(s, e) && (e.MoveDown? || e.CollectGarbage? || e.Unpin? || e.Observe? || e.Crash?)
    ensures StoreFine(Happens(s, e))
  {
    if e.MoveDown? {
      MoveDownFine(s, e.table, e.level);
    } else if e.CollectGarbage? {
      CollectGarbageFine(s);
    } else if e.Unpin? {
      UnpinFine(s, e.version);
    } else if e.Observe? {
      ObserveFine(s, e.action);
    } else {
      CrashFine(s, e.power, e.choice, e.cuts, e.log);
    }
  }

  lemma CrashFine(s: Store, power: bool, choice: set<nat>, cuts: seq<Cut>, log: nat)
    requires StoreFine(s) && CanHappen(s, Crash(power, choice, cuts, log))
    ensures StoreFine(Happens(s, Crash(power, choice, cuts, log)))
  {
    HaltedFine(s, power);
    ReopenedFine(Halted(s, power), choice, cuts, log);
  }

  /** Every event keeps the invariant; in particular, no table of a pinned version, no finished or
      unfinished output, and no log that mem_ or imm_ still needs is ever missing. */
  lemma EventKeepsStore(s: Store, e: Event)
    requires StoreFine(s) && CanHappen(s, e)
    ensures StoreFine(Happens(s, e))
  {
    if e.StartFlush? || e.WriteFlush? || e.EndFlush? || e.FailFlush? {
      FlushEventFine(s, e);
    } else if e.StartJob? || e.OpenOutput? || e.FinishOutput? || e.InstallJob? || e.FailJob? {
      JobEventFine(s, e);
    } else if e.MoveDown? || e.CollectGarbage? || e.Unpin? || e.Observe? || e.Crash? {
      OtherEventFine(s, e);
    } else {
      LogEventFine(s, e);
    }
  }

  ghost predicate Plausible(s: Store, events: seq<Event>)
    decreases |events|
  {
    events == [] || (CanHappen(s, events[0]) && Plausible(Happens(s, events[0]), events[1..]))
  }

  ghost function AfterEvents(s: Store, events: seq<Event>): Store
    requires Plausible(s, events)
    decreases |events|
  {
    if events == [] then s else AfterEvents(Happens(s, events[0]), events[1..])
  }

  lemma {:induction false} RunKeepsStore(s: Store, events: seq<Event>)
    requires StoreFine(s) && Plausible(s, events)
    ensures StoreFine(AfterEvents(s, events))
    decreases |events|
  {
    if events != [] {
      EventKeepsStore(s, events[0]);
      RunKeepsStore(Happens(s, events[0]), events[1..]);
    }
  }

  /** A new database: an empty log with the next number that is free, of which the manifest need not know, and no table. */
  function Opened(lastUsed: nat): Store {
    Store(EMPTY, map[lastUsed + 1 := Log({}, {})], false, map[], {}, 0, 0, 0, {{}}, lastUsed + 1, lastUsed + 2, {}, None, [], Idle, false, 0, 0, {}, {})
  }

  lemma OpenedFine(lastUsed: nat)
    ensures StoreFine(Opened(lastUsed))
  {
    var s := Opened(lastUsed);
    EmptyOk();
    NothingAmong([], 0);
    assert GroupEntries([], 0, 0) == {};
    assert EntriesIn(s.db.version) == {} == Written(s.db.history[..0]);
  }

  // ---------- What is never lost ----------

  /** Every group that was acknowledged, but for those that a torn log took, is there as it was. */
  ghost predicate Keeps(s: Store, t: Store) {
    forall i :: 0 <= i < |s.db.history| && s.db.history[i].applied && i !in s.doubtful ==>
      i < |t.db.history| && t.db.history[i] == s.db.history[i] && i !in t.doubtful
  }

  lemma EventKeepsAcknowledged(s: Store, e: Event)
    requires StoreFine(s) && CanHappen(s, e) && !(e.Crash? && e.power)
    ensures Keeps(s, Happens(s, e))
  {
    match e
    case Crash(power, choice, cuts, log) => CrashKeeps(s, choice, cuts, log);
    case _ =>
      HistoryOnlyGrows(s, e);
      GrownKeeps(s, Happens(s, e));
  }

  lemma CrashKeeps(s: Store, choice: set<nat>, cuts: seq<Cut>, log: nat)
    requires StoreFine(s) && CanHappen(s, Crash(false, choice, cuts, log))
    ensures Keeps(s, Happens(s, Crash(false, choice, cuts, log)))
  {
    AcknowledgedSurvive(s, choice);
  }

  lemma GrownKeeps(s: Store, t: Store)
    requires s.db.history <= t.db.history && t.doubtful <= s.doubtful + {|s.db.history|}
    ensures Keeps(s, t)
  {
  }

  lemma HistoryOnlyGrows(s: Store, e: Event)
    requires CanHappen(s, e) && !e.Crash?
    ensures var t := Happens(s, e);
      s.db.history <= t.db.history && t.doubtful <= s.doubtful + {|s.db.history|} && s.synced <= t.synced
  {
    if OnLog(e) {
      LogHistoryGrows(s, e);
    } else {
      HistoryStays(s, e);
    }
  }

  predicate OnLog(e: Event) {
    e.BeginGroup? || e.AppendRecord? || e.SyncLog? || e.FailSync? || e.Insert? || e.Acknowledge? || e.Refuse? || e.SwitchLog?
  }

  lemma LogHistoryGrows(s: Store, e: Event)
    requires CanHappen(s, e) && OnLog(e)
    ensures var t := Happens(s, e);
      s.db.history <= t.db.history && t.doubtful <= s.doubtful + {|s.db.history|} && s.synced <= t.synced
  {
  }

  lemma HistoryStays(s: Store, e: Event)
    requires CanHappen(s, e) && !OnLog(e) && !e.Crash?
    ensures Happens(s, e).db.history == s.db.history && Happens(s, e).doubtful == s.doubtful && Happens(s, e).synced == s.synced
  {
  }

  /** However often its process crashes and recovers, the database loses no group that was acknowledged on a
      log in step. */
  lemma {:induction false} RunKeepsAcknowledged(s: Store, events: seq<Event>)
    requires StoreFine(s) && Plausible(s, events) && forall e :: e in events ==> !(e.Crash? && e.power)
    ensures Keeps(s, AfterEvents(s, events))
    decreases |events|
  {
    if events != [] {
      EventKeepsStore(s, events[0]);
      EventKeepsAcknowledged(s, events[0]);
      RunKeepsAcknowledged(Happens(s, events[0]), events[1..]);
    }
  }

  /** Every group that was acknowledged, and has been synced, is there as it was and stays synced. */
  ghost predicate KeepsSynced(s: Store, t: Store) {
    forall i :: 0 <= i < |s.db.history| && s.db.history[i].applied && i in s.synced ==>
      i < |t.db.history| && t.db.history[i] == s.db.history[i] && i in t.synced
  }

  lemma EventKeepsSynced(s: Store, e: Event)
    requires StoreFine(s) && CanHappen(s, e)
    ensures KeepsSynced(s, Happens(s, e))
  {
    match e
    case Crash(power, choice, cuts, log) => CrashKeepsSynced(s, power, choice, cuts, log);
    case _ => GrownKeepsSynced(s, e);
  }

  lemma GrownKeepsSynced(s: Store, e: Event)
    requires CanHappen(s, e) && !e.Crash?
    ensures KeepsSynced(s, Happens(s, e))
  {
    HistoryOnlyGrows(s, e);
  }

  lemma CrashKeepsSynced(s: Store, power: bool, choice: set<nat>, cuts: seq<Cut>, log: nat)
    requires StoreFine(s) && CanHappen(s, Crash(power, choice, cuts, log))
    ensures KeepsSynced(s, Happens(s, Crash(power, choice, cuts, log)))
  {
    HaltedFine(s, power);
    HaltedDb(s, power);
    SyncedAreSure(s, power);
    ReopenedKeepsSynced(s, Halted(s, power), choice, cuts, log);
  }

  lemma ReopenedKeepsSynced(s: Store, h: Store, choice: set<nat>, cuts: seq<Cut>, log: nat)
    requires StoreFine(h) && h.db == s.db && forall i :: i in s.synced ==> i < h.base || i in SureIn(h)
    ensures KeepsSynced(s, Reopened(h, choice, cuts, log))
  {
    SureSurvive(h, choice);
  }

  lemma SyncedAreSure(s: Store, power: bool)
    requires StoreFine(s)
    ensures forall i :: i in s.synced ==> i < Halted(s, power).base || i in SureIn(Halted(s, power))
  {
    if power {
      HaltedLogs(s);
    }
  }

  /** Exactly which acknowledged groups may be lost when the machine stops: those that are in no table and
      were not synced. */
  lemma MayBeLostToPower(s: Store, i: nat)
    requires StoreFine(s) && i < |s.db.history| && s.db.history[i].applied
    ensures (exists choice :: !(i < |Survivors(Halted(s, true), choice)| && Survivors(Halted(s, true), choice)[i].applied))
            <==> s.base <= i && i !in s.synced
  {
    HaltedFine(s, true);
    HaltedDb(s, true);
    HaltedLogs(s);
    MayBeLost(Halted(s, true), i);
  }

  /** A write that was acknowledged after a successful sync is never lost, whatever fails and however often
      the process or the machine stops. */
  lemma {:induction false} RunKeepsSynced(s: Store, events: seq<Event>)
    requires StoreFine(s) && Plausible(s, events)
    ensures KeepsSynced(s, AfterEvents(s, events))
    decreases |events|
  {
    if events != [] {
      EventKeepsStore(s, events[0]);
      EventKeepsSynced(s, events[0]);
      RunKeepsSynced(Happens(s, events[0]), events[1..]);
    }
  }

  /** A flush that goes between what the running compaction keeps. */
  ghost predicate MixesIn(s: Store, e: Event) {
    e.EndFlush? && s.flushing.Some? && Mixes(s.db, FlushImm(e.depth, s.flushing.value.number))
  }

  /** Tables stay apart over crashes as well. */
  lemma EventKeepsTidy(s: Store, e: Event)
    requires StoreFine(s) && Tidy(s.db) && CanHappen(s, e) && !MixesIn(s, e)
    ensures Tidy(Happens(s, e).db)
  {
    if e.Crash? {
      CrashTidy(s, e.power, e.choice, e.cuts, e.log);
    } else {
      OtherEventTidy(s, e);
    }
  }

  lemma CrashTidy(s: Store, power: bool, choice: set<nat>, cuts: seq<Cut>, log: nat)
    requires StoreFine(s) && Tidy(s.db) && CanHappen(s, Crash(power, choice, cuts, log))
    ensures Tidy(Happens(s, Crash(power, choice, cuts, log)).db)
  {
    HaltedFine(s, power);
    HaltedDb(s, power);
    ReopenedTidy(Halted(s, power), choice, cuts, log);
  }

  lemma HaltedDb(s: Store, power: bool)
    ensures Halted(s, power).db == s.db && Halted(s, power).base == s.base
  {
  }

  lemma OtherEventTidy(s: Store, e: Event)
    requires Ok(s.db) && Tidy(s.db) && CanHappen(s, e) && !MixesIn(s, e) && !e.Crash?
    ensures Tidy(Happens(s, e).db)
  {
    match e
    case EndFlush(depth) => StepTidy(s.db, FlushImm(depth, s.flushing.value.number));
    case StartJob(j) => StepTidy(s.db, StartCompaction(j));
    case InstallJob(numbers) => StepTidy(s.db, InstallCompaction(numbers));
    case MoveDown(table, level) => StepTidy(s.db, MoveTable(table, level));
    case Observe(a) => StepTidy(s.db, a);
    case _ =>
  }

  // ---------- What a torn log loses ----------

  const ONE_OP := [Op(VALUE, 0, "value")]

  /** The trailer of a full block is lost, unnoticed; the record is appended, inserted and acknowledged. A
      crash then need not find it. */
  lemma TornLogLoses() returns (events: seq<Event>)
    ensures Plausible(Opened(0), events)
    ensures var s := AfterEvents(Opened(0), events);
      && StoreFine(s) && |s.db.history| == 1 && s.db.history[0].applied && !s.failed
      && Survivors(s, {}) == [] && CanHappen(s, Crash(false, {}, [], 2))
  {
    events := TornRun();
    OpenedFine(0);
    RunKeepsStore(Opened(0), events);
    TornEnd(AfterEvents(Opened(0), events));
  }

  lemma TornRun() returns (events: seq<Event>)
    ensures Plausible(Opened(0), events)
    ensures var s := AfterEvents(Opened(0), events);
      && s.db.history == [Group(ONE_OP, true)] && s.db.pending == None && s.manifestGroups == 0 && s.manifestNext == 0 && !s.failed
      && s.logs == map[1 := Log({}, {0})] && s.installed == {}
  {
    var s0 := Opened(0);
    var e1, e2, e3, e4 := BeginGroup(ONE_OP), AppendRecord(true, true), Insert, Acknowledge;
    var s1 := Happens(s0, e1);
    var s2 := Happens(s1, e2);
    var s3 := Happens(s2, e3);
    var s4 := Happens(s3, e4);
    assert {} + {0} == {0} && s1.logs == map[1 := Log({}, {})];
    assert s2.logs == map[1 := Log({}, {})][1 := Log({}, {0})];
    events := [e1, e2, e3, e4];
    FourEvents(s0, e1, e2, e3, e4);
  }

  lemma FourEvents(s: Store, e1: Event, e2: Event, e3: Event, e4: Event)
    requires CanHappen(s, e1) && CanHappen(Happens(s, e1), e2) && CanHappen(Happens(Happens(s, e1), e2), e3)
    requires CanHappen(Happens(Happens(Happens(s, e1), e2), e3), e4)
    ensures Plausible(s, [e1, e2, e3, e4])
    ensures AfterEvents(s, [e1, e2, e3, e4]) == Happens(Happens(Happens(Happens(s, e1), e2), e3), e4)
  {
    var s1 := Happens(s, e1);
    var s2 := Happens(s1, e2);
    var s3 := Happens(s2, e3);
    assert [e4] + [] == [e4] && [e3] + [e4] == [e3, e4] && [e2] + [e3, e4] == [e2, e3, e4] && [e1] + [e2, e3, e4] == [e1, e2, e3, e4];
    OneThenMore(s3, e4, []);
    OneThenMore(s2, e3, [e4]);
    OneThenMore(s1, e2, [e3, e4]);
    OneThenMore(s, e1, [e2, e3, e4]);
  }

  lemma OneThenMore(s: Store, e: Event, more: seq<Event>)
    requires CanHappen(s, e) && Plausible(Happens(s, e), more)
    ensures Plausible(s, [e] + more) && AfterEvents(s, [e] + more) == AfterEvents(Happens(s, e), more)
  {
    assert ([e] + more)[1..] == more;
  }

  lemma TornEnd(s: Store)
    requires StoreFine(s) && s.db.history == [Group(ONE_OP, true)] && s.db.pending == None && s.manifestGroups == 0 && s.manifestNext == 0
    requires s.logs == map[1 := Log({}, {0})] && s.installed == {}
    ensures Survivors(s, {}) == [] && GoodCuts(s, {}, [], 2)
  {
    forall i ensures i !in Readable(s, {}) {
    }
    assert Extent(s, {}, 1) == Extent(s, {}, 0) == 0;
  }
}

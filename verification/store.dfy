/** The files beside the in-memory state: logs, tables, and what the manifest says about them. A log is
    told by the numbers of the groups whose records it has. */
module Stores {
  import opened Entries
  import opened Options
  import opened History
  import opened GroupSets
  import opened Layers
  import opened Database

  /** A table that is being written: its number, and what it holds once it is finished. */
  datatype Output = Output(number: nat, contents: Option<set<Entry>>)

  /** The groups that a reader of the log gets back, and those that it may or may not get back: an append
      or a sync of theirs failed, or one before in the same log and left the file out of step. */
  datatype Log = Log(sure: set<nat>, maybe: set<nat>)

  /** The record of group i goes to the log: the reader gets it back for sure if the append succeeded and the
      file was and is in step. */
  function Recorded(log: Log, torn: bool, i: nat, ok: bool, tears: bool): Log {
    if ok && !torn && !tears then Log(log.sure + {i}, log.maybe) else Log(log.sure, log.maybe + {i})
  }

  /** How far the front writer's group is: not begun, built, in the log, or refused by it. */
  datatype Stage = Idle | Begun | Logged | Refused

  datatype Store = Store(
    db: Db,
    logs: map<nat, Log>,
    torn: bool,                 // the current log's file is not where its writer thinks it is
    tables: map<nat, set<Entry>>,
    installed: set<nat>,        // the tables of the current version, as the manifest lists them
    manifestLog: nat,           // logs below this number are not needed
    manifestGroups: nat,        // how many groups the manifest's last sequence number covers
    manifestNext: nat,          // the manifest's next file number
    live: set<set<nat>>,        // the table lists of all versions that someone has pinned
    logNumber: nat,             // logfile_number_
    nextFile: nat,
    pending: set<nat>,          // pending_outputs_
    flushing: Option<Output>,
    outputs: seq<Output>,       // of the running compaction
    stage: Stage,
    failed: bool,               // bg_error_ is set
    base: nat,                  // the groups below are in tables
    split: nat,                 // the groups from base on are in imm_, from split on in mem_
    doubtful: set<nat>,         // groups that were acknowledged, and whose records may not be there
    synced: set<nat>            // groups that are on the disk for good
  )

  // ---------- Memory and logs ----------

  ghost predicate MemoryOk(s: Store) {
    var d := s.db;
    && d.memtables != [] && d.lastSequence == Last(d.history) && d.inserted <= |Ops(d)|
    && s.base <= s.split <= |d.history| && (!d.hasImm ==> s.base == s.split)
    && Imm(d) == EntriesOf(d.history, Among(Applied(d.history), s.base, s.split))
    && Mem(d) == EntriesOf(d.history, Among(Applied(d.history), s.split, |d.history|)) + GroupEntries(Ops(d), d.lastSequence, d.inserted)
    && (d.pending == None <==> s.stage == Idle) && (s.stage != Logged ==> d.inserted == 0)
  }

  ghost function SureIn(s: Store): set<nat> {
    set n, i | n in s.logs && n >= s.manifestLog && i in s.logs[n].sure :: i
  }

  ghost function MaybeIn(s: Store): set<nat> {
    set n, i | n in s.logs && n >= s.manifestLog && i in s.logs[n].maybe :: i
  }

  ghost predicate HasRecord(logs: map<nat, Log>, n: nat, i: nat) {
    n in logs && (i in logs[n].sure || i in logs[n].maybe)
  }

  ghost predicate LogsOk(s: Store) {
    && s.logNumber in s.logs && s.manifestLog <= s.logNumber < s.nextFile && (forall n :: n in s.logs ==> 0 < n <= s.logNumber)
    && (forall n: nat, i: nat {:trigger HasRecord(s.logs, n, i)} :: HasRecord(s.logs, n, i) && s.manifestLog <= n < s.logNumber ==> s.base <= i < s.split)
    && (forall i: nat {:trigger HasRecord(s.logs, s.logNumber, i)} :: HasRecord(s.logs, s.logNumber, i) ==>
          s.split <= i <= |s.db.history| && (i == |s.db.history| ==> s.stage == Logged || s.stage == Refused))
  }

  /** Of the groups that are not in tables, every one that was acknowledged has its record in a log,
      unless that log was torn, and so has every one that was synced. */
  ghost predicate Covered(s: Store) {
    && (forall i :: s.base <= i < |s.db.history| && s.db.history[i].applied ==> i in s.doubtful || i in SureIn(s))
    && (forall i :: i in s.doubtful ==> i < |s.db.history|)
    && forall i :: i in s.synced ==> i < s.base || i in SureIn(s)
  }

  // ---------- Tables ----------

  ghost function TableAt(v: Version, n: nat): set<Entry> {
    set p | p in v && p.table == n :: p.entry
  }

  ghost function TablesHold(tables: map<nat, set<Entry>>, names: set<nat>): set<Entry> {
    set n, e | n in names && n in tables && e in tables[n] :: e
  }

  /** The tables of the version answer for the groups below base. */
  ghost predicate VersionOk(s: Store) {
    && s.base <= s.manifestGroups <= |s.db.history| && s.db.floor <= Last(s.db.history[..s.manifestGroups])
    && Complete(EntriesIn(s.db.version), Written(s.db.history[..s.base]), s.db.floor)
  }

  ghost predicate TablesOk(s: Store) {
    && (forall p :: p in s.db.version ==> p.table in s.installed && (p.depth > 0 || p.depth + p.table == 0))
    && (forall n :: n in s.installed ==> n in s.tables && s.tables[n] == TableAt(s.db.version, n))
    && (forall n :: n in s.installed ==> n < s.manifestNext) && s.manifestNext <= s.nextFile
    && s.installed in s.live && (forall v :: v in s.live ==> v <= s.tables.Keys)
    && forall n :: n in s.tables || n in s.pending ==> n < s.nextFile
  }

  lemma InstalledHold(s: Store)
    requires TablesOk(s)
    ensures TablesHold(s.tables, s.installed) == EntriesIn(s.db.version) && s.installed <= s.tables.Keys
  {
    forall e ensures e in TablesHold(s.tables, s.installed) <==> e in EntriesIn(s.db.version) {
      if e in EntriesIn(s.db.version) {
        var p :| p in s.db.version && p.entry == e;
        assert e in TableAt(s.db.version, p.table);
      }
    }
  }

  /** The file of an output: not part of any version yet, and complete once finished. */
  ghost predicate Unlisted(s: Store, o: Output) {
    && o.number < s.nextFile
    && (forall v :: v in s.live ==> o.number !in v)
    && (o.contents.Some? && o.contents.value != {} ==> o.number in s.tables && s.tables[o.number] == o.contents.value)
  }

  /** And it is protected from the collection. */
  ghost predicate Protected(s: Store, o: Output) {
    o.number in s.pending && Unlisted(s, o)
  }

  /** The table of a flush is protected until it is written; from then on until it is installed, the thread
      that would collect it is busy with it. */
  ghost predicate OutputsOk(s: Store) {
    && (forall i :: 0 <= i < |s.outputs| ==> Protected(s, s.outputs[i]) && s.outputs[i].contents != Some({}))
    && (forall i, j :: 0 <= i < j < |s.outputs| ==> s.outputs[i].number != s.outputs[j].number)
    && (s.flushing.Some? ==>
          && s.db.hasImm && Unlisted(s, s.flushing.value) && (s.flushing.value.contents == None ==> s.flushing.value.number in s.pending)
          && (forall i :: 0 <= i < |s.outputs| ==> s.outputs[i].number != s.flushing.value.number)
          && (s.flushing.value.contents.Some? ==> s.flushing.value.contents.value == Imm(s.db)))
    && (s.db.running == None ==> s.outputs == [])
  }

  ghost predicate StoreFine(s: Store) {
    Ok(s.db) && MemoryOk(s) && LogsOk(s) && Covered(s) && VersionOk(s) && TablesOk(s) && OutputsOk(s)
  }

  // ---------- What others do not touch ----------

  ghost predicate SameMemory(s: Store, t: Store) {
    && t.db.memtables == s.db.memtables && t.db.hasImm == s.db.hasImm && t.db.history == s.db.history
    && t.db.lastSequence == s.db.lastSequence && t.db.pending == s.db.pending && t.db.inserted == s.db.inserted
    && t.stage == s.stage && t.base == s.base && t.split == s.split
  }

  ghost predicate SameLogs(s: Store, t: Store) {
    && t.logs == s.logs && t.manifestLog == s.manifestLog && t.logNumber == s.logNumber && t.nextFile >= s.nextFile
    && t.base == s.base && t.split == s.split && t.stage == s.stage && t.db.history == s.db.history && t.doubtful == s.doubtful
    && t.synced == s.synced
  }

  ghost predicate SameVersion(s: Store, t: Store) {
    && t.db.version == s.db.version && t.db.floor == s.db.floor && t.base == s.base && t.manifestGroups == s.manifestGroups
    && s.db.history <= t.db.history
  }

  ghost predicate SameTables(s: Store, t: Store) {
    && t.db.version == s.db.version && t.tables == s.tables && t.installed == s.installed && t.live == s.live
    && t.manifestNext == s.manifestNext && t.pending == s.pending && t.nextFile >= s.nextFile
  }

  ghost predicate SameOutputs(s: Store, t: Store) {
    && t.tables == s.tables && t.pending == s.pending && t.live <= s.live && t.nextFile >= s.nextFile
    && t.flushing == s.flushing && t.outputs == s.outputs
    && ((t.db.hasImm == s.db.hasImm && Imm(t.db) == Imm(s.db)) || s.flushing == None)
    && (t.db.running == None ==> s.outputs == [])
  }

  lemma MemoryStays(s: Store, t: Store)
    requires MemoryOk(s) && SameMemory(s, t)
    ensures MemoryOk(t)
  {
  }

  lemma LogsStay(s: Store, t: Store)
    requires LogsOk(s) && Covered(s) && SameLogs(s, t)
    ensures LogsOk(t) && Covered(t)
  {
  }

  lemma VersionStays(s: Store, t: Store)
    requires VersionOk(s) && SameVersion(s, t)
    ensures VersionOk(t)
  {
    assert t.db.history[..s.base] == s.db.history[..s.base];
    assert t.db.history[..s.manifestGroups] == s.db.history[..s.manifestGroups];
  }

  lemma TablesStay(s: Store, t: Store)
    requires TablesOk(s) && SameTables(s, t)
    ensures TablesOk(t)
  {
  }

  lemma OutputsStay(s: Store, t: Store)
    requires OutputsOk(s) && SameOutputs(s, t)
    ensures OutputsOk(t)
  {
  }
}

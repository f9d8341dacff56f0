/** DBImpl in steps: each method is what one thread does between taking the mutex and
    letting go of it, or one access by a thread that does not hold it. Writers, readers and
    the background thread may interleave them in any order. */
module Database {
  import opened Entries
  import opened Options
  import opened CompactionRules
  import opened History
  import opened Layers
  import opened MemTables
  import VersionSearch
  import DbIter

  /** A Get or iterator in flight, with what it pinned under the mutex. */
  datatype Read = Read(snapshot: nat, mem: nat, imm: bool, version: Version)

  ghost function MemOf(memtables: seq<set<Entry>>, r: Read): set<Entry>
    requires r.mem < |memtables|
  {
    memtables[r.mem]
  }

  /** imm_ was the memtable before. */
  ghost function ImmOf(memtables: seq<set<Entry>>, r: Read): set<Entry>
    requires r.mem < |memtables|
  {
    if r.imm && r.mem > 0 then memtables[r.mem - 1] else {}
  }

  ghost function Pinned(memtables: seq<set<Entry>>, r: Read): set<Entry>
    requires r.mem < |memtables|
  {
    All(MemOf(memtables, r), ImmOf(memtables, r), r.version)
  }

  /** E answers every read at s as the complete record H does. */
  ghost predicate Sees(E: set<Entry>, H: set<Entry>, s: nat) {
    forall u :: View(E, u, s) == View(H, u, s)
  }

  /** E has lost nothing that a read at or above the floor could need. */
  ghost predicate Complete(E: set<Entry>, H: set<Entry>, floor: nat) {
    E <= H && forall s {:trigger Sees(E, H, s)} :: s >= floor ==> Sees(E, H, s)
  }

  /** s lies between two groups. */
  ghost predicate Boundary(groups: seq<Group>, s: nat) {
    exists n {:trigger groups[..n]} :: 0 <= n <= |groups| && s == Last(groups[..n])
  }

  ghost predicate ReadOk(memtables: seq<set<Entry>>, groups: seq<Group>, H: set<Entry>, r: Read) {
    && r.mem < |memtables|
    && Layered(MemOf(memtables, r), ImmOf(memtables, r), r.version)
    && Pinned(memtables, r) <= H && Sees(Pinned(memtables, r), H, r.snapshot)
    && Boundary(groups, r.snapshot) && r.snapshot <= Last(groups)
  }

  ghost predicate AllOk(readers: set<Read>, memtables: seq<set<Entry>>, groups: seq<Group>, H: set<Entry>) {
    forall r {:trigger r in readers} :: r in readers ==> ReadOk(memtables, groups, H, r)
  }

  // ---------- One more entry ----------

  lemma AddedToBoth(E: set<Entry>, H: set<Entry>, e: Entry, floor: nat)
    requires Complete(E, H, floor) && Distinct(H + {e}) && Parses(e)
    requires forall o :: o in H ==> o.sequence < e.sequence
    ensures Complete(E + {e}, H + {e}, floor)
  {
    forall s | s >= floor ensures Sees(E + {e}, H + {e}, s) {
      assert Sees(E, H, s);
      forall u ensures View(E + {e}, u, s) == View(H + {e}, u, s) {
        AddedToOne(E, e, u, s);
        AddedToOne(H, e, u, s);
      }
    }
  }

  /** The newest entry of all answers the reads it is a candidate for, and no others. */
  lemma AddedToOne(E: set<Entry>, e: Entry, u: UserKey, s: nat)
    requires Distinct(E + {e}) && Parses(e) && forall o :: o in E ==> o.sequence < e.sequence
    ensures View(E + {e}, u, s) == if e.key == u && e.sequence <= s then Shown(e) else View(E, u, s)
  {
  }

  lemma StoreGrows(mem: set<Entry>, imm: set<Entry>, v: Version, H: set<Entry>, e: Entry, floor: nat)
    requires Layered(mem, imm, v) && Complete(All(mem, imm, v), H, floor)
    requires Distinct(H + {e}) && Parses(e) && forall o :: o in H ==> o.sequence < e.sequence
    ensures Layered(mem + {e}, imm, v) && Complete(All(mem + {e}, imm, v), H + {e}, floor)
  {
    assert All(mem + {e}, imm, v) == All(mem, imm, v) + {e};
    AddedToBoth(All(mem, imm, v), H, e, floor);
  }

  lemma PinnedGrows(memtables: seq<set<Entry>>, after: seq<set<Entry>>, groups: seq<Group>, H: set<Entry>, r: Read, e: Entry)
    requires memtables != [] && ReadOk(memtables, groups, H, r) && Distinct(H + {e}) && Parses(e)
    requires Last(groups) < e.sequence && forall o :: o in H ==> o.sequence < e.sequence
    requires after == memtables[|memtables| - 1 := memtables[|memtables| - 1] + {e}]
    ensures ReadOk(after, groups, H + {e}, r)
  {
    var E := Pinned(memtables, r);
    if r.mem == |memtables| - 1 {
      assert Pinned(after, r) == E + {e};
    } else {
      assert Pinned(after, r) == E;
    }
    forall u ensures View(Pinned(after, r), u, r.snapshot) == View(H + {e}, u, r.snapshot) {
      assert Distinct(E + {e});
      assert View(E, u, r.snapshot) == View(H, u, r.snapshot);
      AddedToOne(E, e, u, r.snapshot);
      AddedToOne(H, e, u, r.snapshot);
    }
  }

  /** What has been written lies below the next sequence number, and its numbers are unique. */
  lemma RecordBounds(groups: seq<Group>, ops: seq<Op>, n: nat)
    requires AllWellFormed(groups) && WellFormed(ops) && n <= |ops|
    ensures var H := Written(groups) + GroupEntries(ops, Last(groups), n);
      Within(H, 0, Last(groups) + n) && Numbered(H) && Distinct(H)
  {
    WrittenWithin(groups);
    OnTop(Written(groups), ops, Last(groups), n);
  }

  lemma LastGrows(groups: seq<Group>, g: Group)
    ensures Last(groups + [g]) == Last(groups) + |g.ops|
    ensures forall s :: Boundary(groups, s) ==> Boundary(groups + [g], s)
    ensures Boundary(groups + [g], Last(groups + [g]))
  {
    var after := groups + [g];
    assert after[..|groups|] == groups && after[..|after|] == after;
    forall s | Boundary(groups, s) ensures Boundary(after, s) {
      var n :| 0 <= n <= |groups| && s == Last(groups[..n]);
      assert after[..n] == groups[..n];
    }
  }

  /** The state that the mutex protects, with the record of what was written. */
  datatype Db = Db(
    memtables: seq<set<Entry>>,   // every memtable so far; the last one is mem_
    hasImm: bool,                 // imm_ is set; it is the memtable before mem_
    version: Version,
    lastSequence: nat,
    snapshots: seq<nat>,          // live snapshots, oldest first
    pending: Option<seq<Op>>,     // the group that the front writer inserts without the mutex
    inserted: nat,                // how much of it is in mem_
    running: Option<Job>,         // the compaction in progress
    readers: set<Read>,           // everyone who has pinned a version
    history: seq<Group>,          // the groups that writers have finished
    floor: nat                    // the lowest snapshot at which reads are still promised
  )

  ghost function Ops(d: Db): seq<Op> {
    if d.pending.Some? then d.pending.value else []
  }

  /** Every entry ever inserted. */
  ghost function Record(d: Db): set<Entry>
    requires d.inserted <= |Ops(d)|
  {
    Written(d.history) + GroupEntries(Ops(d), Last(d.history), d.inserted)
  }

  ghost function Mem(d: Db): set<Entry>
    requires d.memtables != []
  {
    d.memtables[|d.memtables| - 1]
  }

  ghost function Imm(d: Db): set<Entry> {
    if d.hasImm && |d.memtables| >= 2 then d.memtables[|d.memtables| - 2] else {}
  }

  ghost predicate WritesOk(d: Db) {
    && AllWellFormed(d.history) && d.lastSequence == Last(d.history)
    && WellFormed(Ops(d)) && d.inserted <= |Ops(d)|
  }

  ghost predicate StoreOk(d: Db) {
    && d.inserted <= |Ops(d)| && d.memtables != [] && (d.hasImm ==> |d.memtables| >= 2)
    && Layered(Mem(d), Imm(d), d.version)
    && Complete(All(Mem(d), Imm(d), d.version), Record(d), d.floor) && d.floor <= d.lastSequence
  }

  ghost predicate SnapshotsOk(d: Db) {
    && (forall i, j :: 0 <= i < j < |d.snapshots| ==> d.snapshots[i] <= d.snapshots[j])
    && forall i :: 0 <= i < |d.snapshots| ==> d.floor <= d.snapshots[i] <= d.lastSequence && Boundary(d.history, d.snapshots[i])
  }

  /** Every snapshot that is live while a compaction runs is at or above the one it drops by. */
  ghost predicate CompactionOk(d: Db) {
    d.running.Some? ==>
      && JobFits(d.version, d.running.value)
      && d.floor <= d.running.value.rule.smallestSnapshot <= d.lastSequence
      && forall i :: 0 <= i < |d.snapshots| ==> d.running.value.rule.smallestSnapshot <= d.snapshots[i]
  }

  ghost predicate ReadersOk(d: Db) {
    d.inserted <= |Ops(d)| && AllOk(d.readers, d.memtables, d.history, Record(d))
  }

  ghost predicate Ok(d: Db) {
    WritesOk(d) && StoreOk(d) && SnapshotsOk(d) && CompactionOk(d) && ReadersOk(d)
  }

  // ---------- The steps ----------

  /** The front writer takes the group it has built and lets go of the mutex. */
  ghost function WriteBegun(d: Db, ops: seq<Op>): Db {
    d.(pending := Some(ops), inserted := 0)
  }

  ghost function NextEntry(d: Db): Entry
    requires d.inserted < |Ops(d)|
  {
    EntryOf(Ops(d), d.lastSequence, d.inserted)
  }

  /** It inserts the next op into mem_. */
  ghost function OneInserted(d: Db): Db
    requires d.memtables != [] && d.inserted < |Ops(d)|
  {
    var last := |d.memtables| - 1;
    d.(memtables := d.memtables[last := d.memtables[last] + {NextEntry(d)}], inserted := d.inserted + 1)
  }

  /** With the mutex again, it moves the last sequence number past the group, applied or not. */
  ghost function WriteEnded(d: Db, applied: bool): Db {
    d.(pending := None, inserted := 0, lastSequence := d.lastSequence + |Ops(d)|, history := d.history + [Group(Ops(d), applied)])
  }

  /** mem_ becomes imm_. */
  ghost function Switched(d: Db): Db {
    d.(memtables := d.memtables + [{}], hasImm := true)
  }

  ghost function SnapshotTaken(d: Db): Db {
    d.(snapshots := d.snapshots + [d.lastSequence])
  }

  ghost function SnapshotReleased(d: Db, k: nat): Db
    requires k < |d.snapshots|
  {
    d.(snapshots := d.snapshots[..k] + d.snapshots[k + 1..])
  }

  /** The version of imm_'s table is installed and imm_ is dropped. */
  ghost function ImmFlushed(d: Db, depth: int, number: nat): Db {
    d.(version := Flushed(d.version, Imm(d), depth, number), hasImm := false)
  }

  /** Where a compaction that starts now drops by. */
  ghost function SmallestSnapshot(d: Db): nat {
    if d.snapshots == [] then d.lastSequence else d.snapshots[0]
  }

  ghost function CompactionStarted(d: Db, j: Job): Db {
    d.(running := Some(j))
  }

  ghost function CompactionInstalled(d: Db, numbers: seq<nat>): Db
    requires d.running.Some? && Cuts(d.version, d.running.value, numbers)
  {
    d.(version := Installed(d.version, d.running.value, numbers), running := None, floor := d.running.value.rule.smallestSnapshot)
  }

  /** An error or a shutdown ends the compaction. */
  ghost function CompactionAbandoned(d: Db): Db {
    d.(running := None)
  }

  ghost function TableMoved(d: Db, table: Version, level: nat): Db {
    d.(version := Moved(d.version, table, level))
  }

  ghost function ReaderAt(d: Db, snapshot: nat): Read
    requires d.memtables != []
  {
    Read(snapshot, |d.memtables| - 1, d.hasImm, d.version)
  }

  ghost function ReadBegun(d: Db, snapshot: nat): Db
    requires d.memtables != []
  {
    d.(readers := d.readers + {ReaderAt(d, snapshot)})
  }

  ghost function ReadEnded(d: Db, r: Read): Db {
    d.(readers := d.readers - {r})
  }

  // ---------- What every step keeps ----------

  lemma WriteBegunOk(d: Db, ops: seq<Op>)
    requires Ok(d) && d.pending == None && WellFormed(ops)
    ensures Ok(WriteBegun(d, ops))
  {
    assert GroupEntries(ops, Last(d.history), 0) == {} == GroupEntries([], Last(d.history), 0);
    assert Record(WriteBegun(d, ops)) == Record(d);
  }

  lemma NextRecord(d: Db)
    requires WritesOk(d) && d.inserted < |Ops(d)| && d.memtables != []
    ensures Record(OneInserted(d)) == Record(d) + {NextEntry(d)}
    ensures Distinct(Record(d) + {NextEntry(d)}) && Parses(NextEntry(d)) && Last(d.history) < NextEntry(d).sequence
    ensures forall o :: o in Record(d) ==> o.sequence < NextEntry(d).sequence
  {
    GroupGrows(Ops(d), d.lastSequence, d.inserted);
    RecordBounds(d.history, Ops(d), d.inserted);
    RecordBounds(d.history, Ops(d), d.inserted + 1);
  }

  lemma OneInsertedOk(d: Db)
    requires Ok(d) && d.inserted < |Ops(d)|
    ensures Ok(OneInserted(d))
  {
    InsertedStoreOk(d);
    InsertedReadersOk(d);
    InsertedRestOk(d);
  }

  lemma InsertedStoreOk(d: Db)
    requires WritesOk(d) && StoreOk(d) && d.inserted < |Ops(d)|
    ensures StoreOk(OneInserted(d))
  {
    NextRecord(d);
    StoreGrows(Mem(d), Imm(d), d.version, Record(d), NextEntry(d), d.floor);
    assert Imm(OneInserted(d)) == Imm(d);
  }

  lemma InsertedReadersOk(d: Db)
    requires WritesOk(d) && ReadersOk(d) && d.memtables != [] && d.inserted < |Ops(d)|
    ensures ReadersOk(OneInserted(d))
  {
    NextRecord(d);
    ReadersGrow(d.readers, d.memtables, OneInserted(d).memtables, d.history, Record(d), NextEntry(d));
  }

  lemma InsertedRestOk(d: Db)
    requires WritesOk(d) && SnapshotsOk(d) && CompactionOk(d) && d.memtables != [] && d.inserted < |Ops(d)|
    ensures WritesOk(OneInserted(d)) && SnapshotsOk(OneInserted(d)) && CompactionOk(OneInserted(d))
  {
  }

  lemma ReadersGrow(readers: set<Read>, memtables: seq<set<Entry>>, after: seq<set<Entry>>, groups: seq<Group>, H: set<Entry>, e: Entry)
    requires AllOk(readers, memtables, groups, H) && memtables != []
    requires Distinct(H + {e}) && Parses(e) && Last(groups) < e.sequence && forall o :: o in H ==> o.sequence < e.sequence
    requires after == memtables[|memtables| - 1 := memtables[|memtables| - 1] + {e}]
    ensures AllOk(readers, after, groups, H + {e})
  {
    forall r | r in readers ensures ReadOk(after, groups, H + {e}, r) {
      PinnedGrows(memtables, after, groups, H, r, e);
    }
  }

  lemma RecordStays(d: Db, applied: bool)
    requires WritesOk(d) && d.inserted == if applied then |Ops(d)| else 0
    ensures Record(WriteEnded(d, applied)) == Record(d) && WritesOk(WriteEnded(d, applied))
  {
  }

  lemma ReadersLater(readers: set<Read>, memtables: seq<set<Entry>>, groups: seq<Group>, g: Group, H: set<Entry>)
    requires AllOk(readers, memtables, groups, H)
    ensures AllOk(readers, memtables, groups + [g], H)
  {
    LastGrows(groups, g);
  }

  lemma WriteEndedOk(d: Db, applied: bool)
    requires Ok(d) && d.pending.Some? && d.inserted == if applied then |Ops(d)| else 0
    ensures Ok(WriteEnded(d, applied))
  {
    RecordStays(d, applied);
    SnapshotsLater(d, applied);
    ReadersLater(d.readers, d.memtables, d.history, Group(Ops(d), applied), Record(d));
    assert Mem(WriteEnded(d, applied)) == Mem(d) && Imm(WriteEnded(d, applied)) == Imm(d);
  }

  lemma SnapshotsLater(d: Db, applied: bool)
    requires WritesOk(d) && SnapshotsOk(d) && CompactionOk(d)
    ensures SnapshotsOk(WriteEnded(d, applied)) && CompactionOk(WriteEnded(d, applied))
  {
    LastGrows(d.history, Group(Ops(d), applied));
  }

  lemma SwitchedOk(d: Db)
    requires Ok(d) && d.pending == None && !d.hasImm
    ensures Ok(Switched(d))
  {
    var e := Switched(d);
    assert Mem(e) == {} && Imm(e) == Mem(d) && Imm(d) == {};
    assert All(Mem(e), Imm(e), e.version) == All(Mem(d), Imm(d), d.version);
    assert Record(e) == Record(d);
    PinnedStays(d.readers, d.memtables, e.memtables, d.history, Record(d));
  }

  /** A new memtable does not concern those who have pinned older ones. */
  lemma PinnedStays(readers: set<Read>, before: seq<set<Entry>>, after: seq<set<Entry>>, groups: seq<Group>, H: set<Entry>)
    requires before <= after && AllOk(readers, before, groups, H)
    ensures AllOk(readers, after, groups, H)
  {
  }

  lemma SnapshotTakenOk(d: Db)
    requires Ok(d)
    ensures Ok(SnapshotTaken(d))
  {
    assert d.history[..|d.history|] == d.history;
    assert Boundary(d.history, d.lastSequence);
    assert Record(SnapshotTaken(d)) == Record(d);
  }

  lemma SnapshotReleasedOk(d: Db, k: nat)
    requires Ok(d) && k < |d.snapshots|
    ensures Ok(SnapshotReleased(d, k))
  {
    var e := SnapshotReleased(d, k);
    assert forall i :: 0 <= i < |e.snapshots| ==> e.snapshots[i] == d.snapshots[if i < k then i else i + 1];
    assert Record(e) == Record(d);
  }

  lemma ImmFlushedOk(d: Db, depth: int, number: nat)
    requires Ok(d) && d.hasImm && MayFlushTo(d.version, Imm(d), depth, number)
    ensures Ok(ImmFlushed(d, depth, number))
  {
    var e := ImmFlushed(d, depth, number);
    FlushKeepsLayers(Mem(d), Imm(d), d.version, depth, number);
    assert Mem(e) == Mem(d) && Imm(e) == {} && Record(e) == Record(d);
    if d.running.Some? {
      FlushKeepsJob(Imm(d), d.version, depth, number, d.running.value);
    }
  }

  lemma CompactionStartedOk(d: Db, j: Job)
    requires Ok(d) && d.running == None && JobFits(d.version, j) && j.rule.smallestSnapshot == SmallestSnapshot(d)
    ensures Ok(CompactionStarted(d, j))
  {
    assert Record(CompactionStarted(d, j)) == Record(d);
  }

  lemma CompactionInstalledOk(d: Db, numbers: seq<nat>)
    requires Ok(d) && d.running.Some? && Cuts(d.version, d.running.value, numbers)
    ensures Ok(CompactionInstalled(d, numbers))
  {
    var e, j := CompactionInstalled(d, numbers), d.running.value;
    InstallKeepsLayers(Mem(d), Imm(d), d.version, j, numbers);
    RecordBounds(d.history, Ops(d), d.inserted);
    InstallStaysComplete(Mem(d), Imm(d), d.version, j, numbers, Record(d), d.floor);
    assert Mem(e) == Mem(d) && Imm(e) == Imm(d) && Record(e) == Record(d);
  }

  /** What is complete from some floor on stays so from the job's snapshot on. */
  lemma InstallStaysComplete(mem: set<Entry>, imm: set<Entry>, v: Version, j: Job, numbers: seq<nat>, H: set<Entry>, floor: nat)
    requires Layered(mem, imm, v) && JobFits(v, j) && Cuts(v, j, numbers) && floor <= j.rule.smallestSnapshot
    requires Complete(All(mem, imm, v), H, floor) && Distinct(H) && forall e :: e in H ==> Parses(e)
    ensures Complete(All(mem, imm, Installed(v, j, numbers)), H, j.rule.smallestSnapshot)
  {
    var E, F := All(mem, imm, v), All(mem, imm, Installed(v, j, numbers));
    assert Distinct(E) && forall e :: e in E ==> Parses(e);
    InstallKeepsLayers(mem, imm, v, j, numbers);
    assert F <= E;
    forall s | s >= j.rule.smallestSnapshot ensures Sees(F, H, s) {
      assert Sees(E, H, s);
      forall u ensures View(F, u, s) == View(H, u, s) {
        InstallKeepsReads(mem, imm, v, j, numbers, u, s);
        assert View(E, u, s) == View(H, u, s);
      }
    }
  }

  lemma TableMovedOk(d: Db, table: Version, level: nat)
    requires Ok(d) && d.running == None && MayMove(d.version, table, level)
    ensures Ok(TableMoved(d, table, level))
  {
    var e := TableMoved(d, table, level);
    MoveKeepsLayers(Mem(d), Imm(d), d.version, table, level);
    assert Mem(e) == Mem(d) && Imm(e) == Imm(d) && Record(e) == Record(d);
  }

  lemma ReadBegunOk(d: Db, s: nat)
    requires Ok(d) && (s == d.lastSequence || s in d.snapshots)
    ensures Ok(ReadBegun(d, s))
  {
    var e, r := ReadBegun(d, s), ReaderAt(d, s);
    assert d.history[..|d.history|] == d.history;
    assert Boundary(d.history, s) && d.floor <= s <= d.lastSequence;
    assert MemOf(d.memtables, r) == Mem(d) && ImmOf(d.memtables, r) == Imm(d);
    assert Sees(Pinned(d.memtables, r), Record(d), s);
    assert Record(e) == Record(d);
  }

  // ---------- Runs ----------

  datatype Action =
    | BeginWrite(ops: seq<Op>) | InsertNext | EndWrite(applied: bool) | SwitchMemtable
    | TakeSnapshot | ReleaseSnapshot(index: nat)
    | FlushImm(depth: int, number: nat)
    | StartCompaction(job: Job) | InstallCompaction(numbers: seq<nat>) | AbandonCompaction | MoveTable(table: Version, level: nat)
    | BeginRead(snapshot: nat) | EndRead(reader: Read)

  ghost predicate Enabled(d: Db, a: Action) {
    match a
    case BeginWrite(ops) => d.pending == None && WellFormed(ops)
    case InsertNext => d.memtables != [] && d.inserted < |Ops(d)|
    // All of the group went in, or the log failed and none did.
    case EndWrite(applied) => d.pending.Some? && d.inserted == if applied then |Ops(d)| else 0
    case SwitchMemtable => d.pending == None && !d.hasImm
    case TakeSnapshot => true
    case ReleaseSnapshot(k) => k < |d.snapshots|
    case FlushImm(depth, number) => d.hasImm && depth < NUM_LEVELS && MayFlushTo(d.version, Imm(d), depth, number)
    case StartCompaction(j) =>
      && d.running == None && JobFits(d.version, j) && Aside(d.version, j.inputs, j.rule.level)
      && j.rule.smallestSnapshot == SmallestSnapshot(d) && j.rule.level + 1 < NUM_LEVELS
    case InstallCompaction(numbers) => d.running.Some? && Cuts(d.version, d.running.value, numbers)
    case AbandonCompaction => true
    case MoveTable(table, level) => d.running == None && level + 1 < NUM_LEVELS && MayMove(d.version, table, level)
    case BeginRead(s) => d.memtables != [] && (s == d.lastSequence || s in d.snapshots)
    case EndRead(r) => true
  }

  ghost function Do(d: Db, a: Action): Db
    requires Enabled(d, a)
  {
    match a
    case BeginWrite(ops) => WriteBegun(d, ops)
    case InsertNext => OneInserted(d)
    case EndWrite(applied) => WriteEnded(d, applied)
    case SwitchMemtable => Switched(d)
    case TakeSnapshot => SnapshotTaken(d)
    case ReleaseSnapshot(k) => SnapshotReleased(d, k)
    case FlushImm(depth, number) => ImmFlushed(d, depth, number)
    case StartCompaction(j) => CompactionStarted(d, j)
    case InstallCompaction(numbers) => CompactionInstalled(d, numbers)
    case AbandonCompaction => CompactionAbandoned(d)
    case MoveTable(table, level) => TableMoved(d, table, level)
    case BeginRead(s) => ReadBegun(d, s)
    case EndRead(r) => ReadEnded(d, r)
  }

  lemma StepOk(d: Db, a: Action)
    requires Ok(d) && Enabled(d, a)
    ensures Ok(Do(d, a))
  {
    match a
    case BeginWrite(ops) => WriteBegunOk(d, ops);
    case InsertNext => OneInsertedOk(d);
    case EndWrite(applied) => WriteEndedOk(d, applied);
    case SwitchMemtable => SwitchedOk(d);
    case TakeSnapshot => SnapshotTakenOk(d);
    case ReleaseSnapshot(k) => SnapshotReleasedOk(d, k);
    case FlushImm(depth, number) => ImmFlushedOk(d, depth, number);
    case StartCompaction(j) => CompactionStartedOk(d, j);
    case InstallCompaction(numbers) => CompactionInstalledOk(d, numbers);
    case AbandonCompaction => CompactionAbandonedOk(d);
    case MoveTable(table, level) => TableMovedOk(d, table, level);
    case BeginRead(s) => ReadBegunOk(d, s);
    case EndRead(r) => ReadEndedOk(d, r);
  }

  lemma CompactionAbandonedOk(d: Db)
    requires Ok(d)
    ensures Ok(CompactionAbandoned(d))
  {
    assert Record(CompactionAbandoned(d)) == Record(d);
  }

  lemma ReadEndedOk(d: Db, r: Read)
    requires Ok(d)
    ensures Ok(ReadEnded(d, r))
  {
    assert Record(ReadEnded(d, r)) == Record(d);
  }

  ghost predicate Possible(d: Db, run: seq<Action>)
    decreases |run|
  {
    run == [] || (Enabled(d, run[0]) && Possible(Do(d, run[0]), run[1..]))
  }

  ghost function AfterRun(d: Db, run: seq<Action>): Db
    requires Possible(d, run)
    decreases |run|
  {
    if run == [] then d else AfterRun(Do(d, run[0]), run[1..])
  }

  const EMPTY := Db([{}], false, {}, 0, [], None, 0, None, {}, [], 0)

  lemma EmptyOk()
    ensures Ok(EMPTY)
  {
    assert Record(EMPTY) == {} && All({}, {}, {}) == {};
    assert Complete({}, {}, 0);
  }

  /** The invariant holds after every run of every interleaving. */
  lemma {:induction false} RunOk(d: Db, run: seq<Action>)
    requires Ok(d) && Possible(d, run)
    ensures Ok(AfterRun(d, run))
    decreases |run|
  {
    if run != [] {
      StepOk(d, run[0]);
      RunOk(Do(d, run[0]), run[1..]);
    }
  }

  // ---------- Tables that do not overlap ----------

  /** Tables have their levels, those of each level above 0 are apart, and no entry is stored twice. */
  ghost predicate Neat(v: Version) {
    Leveled(v) && Apart(v) && Single(v)
  }

  /** That holds of every version in use, and the running compaction has its stretch of the output
      level to itself. */
  ghost predicate Tidy(d: Db) {
    && Neat(d.version) && (forall r :: r in d.readers ==> Neat(r.version))
    && (d.running.Some? ==> KeptAside(d.version, d.running.value) && d.running.value.rule.level + 1 < NUM_LEVELS)
  }

  /** A flush that goes between what the compaction keeps, at its output level: exactly one after which some
      way to cut the outputs leaves tables that overlap (FlushAndInstall). */
  ghost predicate Mixes(d: Db, a: Action) {
    && a.FlushImm? && d.running.Some?
    && FlushedInside(Imm(d), a.depth, d.running.value)
  }

  lemma StepTidy(d: Db, a: Action)
    requires Ok(d) && Tidy(d) && Enabled(d, a) && !Mixes(d, a)
    ensures Tidy(Do(d, a))
  {
    match a
    case FlushImm(depth, number) =>
      FlushKeepsLeveled(d.version, Imm(d), depth, number);
      FlushKeepsApart(d.version, Imm(d), depth, number);
      FlushKeepsSingle(d.version, Imm(d), depth, number);
      if d.running.Some? {
        FlushKeepsKeptAside(d.version, Imm(d), depth, number, d.running.value);
      }
    case StartCompaction(j) => AsideOfKept(d.version, j);
    case InstallCompaction(numbers) =>
      InstallKeepsLeveled(d.version, d.running.value, numbers);
      InstallKeepsApart(d.version, d.running.value, numbers);
      InstallKeepsSingle(d.version, d.running.value, numbers);
    case MoveTable(table, level) =>
      MoveKeepsLeveled(d.version, table, level);
      MoveKeepsApart(d.version, table, level);
      MoveKeepsSingle(d.version, table, level);
    case _ =>
  }

  lemma EmptyTidy()
    ensures Tidy(EMPTY)
  {
  }

  /** No step of the run flushes a memtable between what a running compaction keeps. */
  ghost predicate Unmixed(d: Db, run: seq<Action>)
    requires Possible(d, run)
    decreases |run|
  {
    run == [] || (!Mixes(d, run[0]) && Unmixed(Do(d, run[0]), run[1..]))
  }

  lemma {:induction false} RunTidy(d: Db, run: seq<Action>)
    requires Ok(d) && Tidy(d) && Possible(d, run) && Unmixed(d, run)
    ensures Ok(AfterRun(d, run)) && Tidy(AfterRun(d, run))
    decreases |run|
  {
    if run != [] {
      StepOk(d, run[0]);
      StepTidy(d, run[0]);
      RunTidy(Do(d, run[0]), run[1..]);
    }
  }

  // ---------- What changes and what does not ----------

  /** F has the entries of E and others that no read at s can use. */
  ghost predicate GrownAbove(E: set<Entry>, F: set<Entry>, s: nat) {
    E <= F && forall e :: e in F - E ==> e.sequence > s
  }

  /** Later states only add entries above the last sequence number, and only to mem_. */
  ghost predicate Extends(d: Db, e: Db) {
    && |d.memtables| <= |e.memtables| && d.history <= e.history && d.lastSequence <= e.lastSequence
    && (forall i :: 0 <= i < |d.memtables| - 1 ==> e.memtables[i] == d.memtables[i])
    && (d.memtables != [] ==> GrownAbove(Mem(d), e.memtables[|d.memtables| - 1], d.lastSequence))
  }

  lemma StepExtends(d: Db, a: Action)
    requires Ok(d) && Enabled(d, a)
    ensures Extends(d, Do(d, a))
  {
  }

  lemma ExtendsFurther(d: Db, e: Db, f: Db)
    requires Extends(d, e) && Extends(e, f)
    ensures Extends(d, f)
  {
  }

  lemma {:induction false} RunExtends(d: Db, run: seq<Action>)
    requires Ok(d) && Possible(d, run)
    ensures Extends(d, AfterRun(d, run))
    decreases |run|
  {
    if run != [] {
      StepOk(d, run[0]);
      StepExtends(d, run[0]);
      RunExtends(Do(d, run[0]), run[1..]);
      ExtendsFurther(d, Do(d, run[0]), AfterRun(d, run));
    }
  }

  // ---------- What readers see ----------

  /** The snapshot s shows exactly the first n groups, each whole or not at all. */
  ghost predicate ShowsGroups(E: set<Entry>, s: nat, groups: seq<Group>, n: nat) {
    n <= |groups| && s == Last(groups[..n]) && forall u :: View(E, u, s) == State(groups[..n], u)
  }

  lemma RecordShowsGroups(d: Db, s: nat)
    requires WritesOk(d) && Boundary(d.history, s) && s <= Last(d.history)
    ensures exists n :: ShowsGroups(Record(d), s, d.history, n)
  {
    var n :| 0 <= n <= |d.history| && s == Last(d.history[..n]);
    forall u ensures View(Record(d), u, s) == State(d.history[..n], u) {
      ReadsAnEarlierState(d.history, n, u);
      RecordBounds(d.history, Ops(d), d.inserted);
      GroupWithin(Ops(d), Last(d.history), d.inserted);
      LaterEntries(Written(d.history), GroupEntries(Ops(d), Last(d.history), d.inserted), u, s);
    }
    assert ShowsGroups(Record(d), s, d.history, n);
  }

  /** At any moment of any run, whatever flushes and compactions have done since, what a
      reader has pinned shows it the state after some whole number of groups. */
  lemma ReaderSeesWholeGroups(d: Db, r: Read)
    requires Ok(d) && r in d.readers
    ensures r.mem < |d.memtables| && exists n :: ShowsGroups(Pinned(d.memtables, r), r.snapshot, d.history, n)
  {
    RecordShowsGroups(d, r.snapshot);
    var n :| ShowsGroups(Record(d), r.snapshot, d.history, n);
    assert Sees(Pinned(d.memtables, r), Record(d), r.snapshot);
    assert ShowsGroups(Pinned(d.memtables, r), r.snapshot, d.history, n);
  }

  /** So an iterator over what a reader has pinned lists the state after some whole number of groups:
      its keys are the keys that have a value then, and its values are those values. */
  lemma IteratorListsWholeGroups(d: Db, r: Read, L: seq<Entry>)
    requires Ok(d) && r in d.readers && r.mem < |d.memtables| && Sorted(L) && Elements(L) == Pinned(d.memtables, r)
    ensures exists n :: 0 <= n <= |d.history| && r.snapshot == Last(d.history[..n])
              && forall u, v :: (u, v) in DbIter.Table(L, r.snapshot) <==> State(d.history[..n], u) == Some(v)
  {
    ReaderSeesWholeGroups(d, r);
    var n: nat :| ShowsGroups(Pinned(d.memtables, r), r.snapshot, d.history, n);
    RecordBounds(d.history, Ops(d), d.inserted);
    assert ReadOk(d.memtables, d.history, Record(d), r);
    ListsGroups(L, r.snapshot, d.history, n);
  }

  lemma ListsGroups(L: seq<Entry>, s: nat, groups: seq<Group>, n: nat)
    requires Sorted(L) && Distinct(Elements(L)) && ShowsGroups(Elements(L), s, groups, n)
    ensures forall u, v :: (u, v) in DbIter.Table(L, s) <==> State(groups[..n], u) == Some(v)
  {
    forall u, v ensures (u, v) in DbIter.Table(L, s) <==> State(groups[..n], u) == Some(v) {
      DbIter.TableIsTheView(L, s, u, v);
    }
  }

  /** A reader that comes without a snapshot sees every finished group. */
  lemma NewReaderSeesAll(d: Db, u: UserKey)
    requires Ok(d)
    ensures View(All(Mem(d), Imm(d), d.version), u, d.lastSequence) == State(d.history, u)
  {
    assert Sees(All(Mem(d), Imm(d), d.version), Record(d), d.lastSequence);
    ReadsTheState(d.history, u);
    RecordBounds(d.history, Ops(d), d.inserted);
    GroupWithin(Ops(d), Last(d.history), d.inserted);
    LaterEntries(Written(d.history), GroupEntries(Ops(d), Last(d.history), d.inserted), u, d.lastSequence);
  }

  /** A Get that looks at the three layers at different moments of a run, with anything happening
      in between, returns the state at its snapshot: the last write of the key in the groups before it.
      Of the tables it looks only into those that the search by ranges picks. */
  lemma GetIsExact(d: Db, run: seq<Action>, r: Read, u: UserKey, levels: seq<seq<VersionSearch.Table>>,
                   inMem: Answer, inImm: Answer, inVersion: Answer)
    requires Ok(d) && Tidy(d) && r in d.readers && Possible(d, run)
    requires VersionSearch.Filed(levels) && VersionSearch.Contains(r.version, levels)
    requires r.mem < |d.memtables| && MemAnswers(MemOf(d.memtables, r), u, r.snapshot, inMem)
    requires var e := AfterRun(d, run);
      r.mem < |e.memtables| && (inMem == Unknown ==> MemAnswers(ImmOf(e.memtables, r), u, r.snapshot, inImm))
    requires inMem == Unknown && inImm == Unknown ==> VersionSearch.Searched(levels, u, r.snapshot, inVersion)
    ensures exists n :: 0 <= n <= |d.history| && r.snapshot == Last(d.history[..n])
              && Meaning(Combined(inMem, inImm, inVersion)) == State(d.history[..n], u)
  {
    RunExtends(d, run);
    RecordBounds(d.history, Ops(d), d.inserted);
    assert ImmOf(AfterRun(d, run).memtables, r) == ImmOf(d.memtables, r);
    if inMem == Unknown && inImm == Unknown {
      PinnedClean(d, r);
      VersionSearch.SearchFindsFirst(r.version, levels, u, r.snapshot, inVersion);
    }
    SearchIsView(MemOf(d.memtables, r), ImmOf(d.memtables, r), r.version, u, r.snapshot, inMem, inImm, inVersion);
    ReaderSeesWholeGroups(d, r);
    var n :| ShowsGroups(Pinned(d.memtables, r), r.snapshot, d.history, n);
  }

  lemma PinnedClean(d: Db, r: Read)
    requires Ok(d) && Tidy(d) && r in d.readers
    ensures VersionSearch.Clean(r.version)
  {
    RecordBounds(d.history, Ops(d), d.inserted);
    assert ReadOk(d.memtables, d.history, Record(d), r);
    forall p | p in r.version ensures p.entry in Pinned(d.memtables, r) {
      assert p.entry in EntriesIn(r.version);
    }
    assert EntriesIn(r.version) <= Pinned(d.memtables, r);
  }

  /** A memtable keeps its answers at a snapshot while newer entries go in, so a Get may read
      the one it pinned at any moment of its stay. */
  lemma AnswersStand(d: Db, run: seq<Action>, r: Read, u: UserKey, a: Answer)
    requires Ok(d) && r in d.readers && Possible(d, run)
    requires r.mem < |d.memtables| && MemAnswers(MemOf(d.memtables, r), u, r.snapshot, a)
    ensures r.mem < |AfterRun(d, run).memtables| && MemAnswers(MemOf(AfterRun(d, run).memtables, r), u, r.snapshot, a)
  {
    RunExtends(d, run);
    assert ReadOk(d.memtables, d.history, Record(d), r);
    PinnedMemGrows(d, AfterRun(d, run), r, u, a);
  }

  lemma PinnedMemGrows(d: Db, e: Db, r: Read, u: UserKey, a: Answer)
    requires Extends(d, e) && r.mem < |d.memtables| && r.snapshot <= d.lastSequence
    requires MemAnswers(MemOf(d.memtables, r), u, r.snapshot, a)
    ensures MemAnswers(MemOf(e.memtables, r), u, r.snapshot, a)
  {
  }
}

/** What a crash leaves, what a recovery makes of it, and that the database so opened is in order. */
module Reopening {
  import opened Entries
  import opened Options
  import opened History
  import opened GroupSets
  import opened Layers
  import opened Database
  import opened Stores

  /** Every group that has begun, the front writer's included. */
  ghost function AllGroups(s: Store): seq<Group> {
    if s.db.pending.Some? then s.db.history + [Group(Ops(s.db), false)] else s.db.history
  }

  /** What the log readers of the recovery hand over. The choice says which doubtful records they find. */
  ghost function Readable(s: Store, choice: set<nat>): set<nat> {
    SureIn(s) + MaybeIn(s) * choice
  }

  /** The groups whose entries are there after the recovery. */
  ghost function Surviving(s: Store, choice: set<nat>): set<nat> {
    Among(Applied(s.db.history), 0, s.base) + Readable(s, choice)
  }

  /** How many groups the last sequence number covers: those of the manifest, and up to the last one read. */
  ghost function Extent(s: Store, choice: set<nat>, n: nat): (m: nat)
    ensures s.manifestGroups <= n ==> s.manifestGroups <= m <= n
    ensures forall i :: m <= i < n ==> i !in Readable(s, choice)
    ensures m > s.manifestGroups ==> m - 1 in Readable(s, choice)
  {
    if n <= s.manifestGroups || n - 1 in Readable(s, choice) then n else Extent(s, choice, n - 1)
  }

  /** The history as the recovery finds it: each group whole or not at all. */
  ghost function Survivors(s: Store, choice: set<nat>): seq<Group> {
    Raised(AllGroups(s)[..Extent(s, choice, |AllGroups(s)|)], Surviving(s, choice))
  }

  /** What Recover puts together: the tables of the manifest, and what the logs that it does not disown hand over. */
  ghost function Recovered(s: Store, choice: set<nat>): set<Entry> {
    TablesHold(s.tables, s.installed) + EntriesOf(AllGroups(s), Readable(s, choice))
  }

  lemma ReadableBounds(s: Store, choice: set<nat>)
    requires LogsOk(s) && MemoryOk(s)
    ensures forall i :: i in Readable(s, choice) ==> s.base <= i < |AllGroups(s)|
  {
    forall i | i in Readable(s, choice) ensures s.base <= i < |AllGroups(s)| {
      var n :| n in s.logs && n >= s.manifestLog && (i in s.logs[n].sure || i in s.logs[n].maybe);
      assert HasRecord(s.logs, n, i);
    }
  }

  lemma BegunGroups(s: Store)
    requires Ok(s.db)
    ensures AllWellFormed(AllGroups(s)) && s.db.history <= AllGroups(s) && |AllGroups(s)| <= |s.db.history| + 1
  {
  }

  lemma SurvivingWrote(s: Store, choice: set<nat>)
    requires StoreFine(s)
    ensures EntriesOf(AllGroups(s), Surviving(s, choice)) == Written(s.db.history[..s.base]) + EntriesOf(AllGroups(s), Readable(s, choice))
  {
    TwoChoices(AllGroups(s), Among(Applied(s.db.history), 0, s.base), Readable(s, choice));
    SameOpsSameEntries(AllGroups(s), s.db.history, Among(Applied(s.db.history), 0, s.base));
    PrefixWrites(s.db.history, s.base);
  }

  lemma SurvivingBelow(s: Store, choice: set<nat>)
    requires MemoryOk(s) && LogsOk(s) && s.base <= s.manifestGroups <= |s.db.history|
    ensures forall i :: i in Surviving(s, choice) ==> i < Extent(s, choice, |AllGroups(s)|)
  {
    ReadableBounds(s, choice);
  }

  /** The survivors wrote what is in the tables' record and what was read. */
  lemma SurvivorsWrote(s: Store, choice: set<nat>)
    requires StoreFine(s)
    ensures AllWellFormed(Survivors(s, choice)) && s.manifestGroups <= |Survivors(s, choice)|
    ensures Written(Survivors(s, choice)) == Written(s.db.history[..s.base]) + EntriesOf(AllGroups(s), Readable(s, choice))
    ensures Last(s.db.history[..s.manifestGroups]) <= Last(Survivors(s, choice))
  {
    var m := Extent(s, choice, |AllGroups(s)|);
    BegunGroups(s);
    SurvivingBelow(s, choice);
    SurvivingWrote(s, choice);
    RaisedPrefix(AllGroups(s), m, Surviving(s, choice));
    LastAscends(AllGroups(s), s.manifestGroups, m);
    assert s.db.history[..s.manifestGroups] == AllGroups(s)[..s.manifestGroups];
  }

  lemma RaisedPrefix(groups: seq<Group>, m: nat, I: set<nat>)
    requires AllWellFormed(groups) && m <= |groups| && forall i :: i in I ==> i < m
    ensures AllWellFormed(Raised(groups[..m], I)) && Written(Raised(groups[..m], I)) == EntriesOf(groups, I)
    ensures Last(Raised(groups[..m], I)) == Last(groups[..m])
  {
    RaisedWrites(groups[..m], I);
    SameOpsSameEntries(groups[..m], groups, I);
  }

  /** What was read is newer than what the tables hold. */
  lemma ReadableIsNewer(s: Store, choice: set<nat>)
    requires StoreFine(s)
    ensures var H, F := Written(s.db.history[..s.base]), EntriesOf(AllGroups(s), Readable(s, choice));
      && Within(H, 0, Last(s.db.history[..s.base])) && Distinct(H + F)
      && forall e :: e in F ==> e.sequence > Last(s.db.history[..s.base]) && Parses(e)
  {
    BegunGroups(s);
    ReadableBounds(s, choice);
    WrittenWithin(s.db.history[..s.base]);
    ChoiceWithin(AllGroups(s), Readable(s, choice), s.base, |AllGroups(s)|);
    assert AllGroups(s)[..s.base] == s.db.history[..s.base];
    SurvivorsWrote(s, choice);
    WrittenWithin(Survivors(s, choice));
  }

  /** What recovery puts together has lost nothing of the survivors. */
  lemma RecoveredComplete(s: Store, choice: set<nat>)
    requires StoreFine(s)
    ensures Complete(Recovered(s, choice), Written(Survivors(s, choice)), s.db.floor)
    ensures s.db.floor <= Last(Survivors(s, choice))
  {
    InstalledHold(s);
    SurvivorsWrote(s, choice);
    ReadableIsNewer(s, choice);
    CompleteOnTop(EntriesIn(s.db.version), Written(s.db.history[..s.base]), EntriesOf(AllGroups(s), Readable(s, choice)),
                  s.db.floor, Last(s.db.history[..s.base]));
  }

  /** The read of any key after a crash is the state after the groups that survive. */
  lemma CrashRecoversTheState(s: Store, choice: set<nat>, u: UserKey)
    requires StoreFine(s)
    ensures View(Recovered(s, choice), u, Last(Survivors(s, choice))) == State(Survivors(s, choice), u)
  {
    var h := Survivors(s, choice);
    RecoveredComplete(s, choice);
    SurvivorsWrote(s, choice);
    assert Sees(Recovered(s, choice), Written(h), Last(h));
    ReadsTheState(h, u);
  }

  /** No group that was acknowledged is missing whose entries are in tables, or whose record is in a log for sure. */
  lemma SureSurvive(s: Store, choice: set<nat>)
    requires StoreFine(s)
    ensures forall i :: 0 <= i < |s.db.history| && s.db.history[i].applied && (i < s.base || i in SureIn(s)) ==>
              i < |Survivors(s, choice)| && Survivors(s, choice)[i] == s.db.history[i]
  {
    var h := Survivors(s, choice);
    forall i | 0 <= i < |s.db.history| && s.db.history[i].applied && (i < s.base || i in SureIn(s))
      ensures i < |h| && h[i] == s.db.history[i]
    {
      if i < s.base {
        assert i in Among(Applied(s.db.history), 0, s.base);
      } else {
        assert i in Readable(s, choice);
      }
    }
  }

  /** Whatever is found of doubtful records, no group is there in part, and no acknowledged one is
      missing, but for those acknowledged while the log was torn. */
  lemma AcknowledgedSurvive(s: Store, choice: set<nat>)
    requires StoreFine(s)
    ensures forall i :: 0 <= i < |Survivors(s, choice)| ==> Survivors(s, choice)[i].ops == AllGroups(s)[i].ops
    ensures forall i :: 0 <= i < |s.db.history| && s.db.history[i].applied && i !in s.doubtful ==>
              i < |Survivors(s, choice)| && Survivors(s, choice)[i] == s.db.history[i]
  {
    SureSurvive(s, choice);
  }

  /** Exactly which acknowledged groups a crash may lose: those that are in no table and of which no
      log has a record for sure. */
  lemma MayBeLost(s: Store, i: nat)
    requires StoreFine(s) && i < |s.db.history| && s.db.history[i].applied
    ensures (exists choice :: !(i < |Survivors(s, choice)| && Survivors(s, choice)[i].applied)) <==> s.base <= i && i !in SureIn(s)
  {
    forall choice ensures i < |Survivors(s, choice)| && Survivors(s, choice)[i].applied <==> i in Surviving(s, choice) {
      assert i in Surviving(s, choice) ==> i < s.base || i in Readable(s, choice);
    }
    if s.base <= i && i !in SureIn(s) {
      assert i !in Surviving(s, {});
    }
    if i < s.base {
      assert i in Among(Applied(s.db.history), 0, s.base);
    }
  }

  /** Exactly which refused groups a crash may bring back, whole: those of which a log may have the record. */
  lemma MayReturn(s: Store, i: nat)
    requires StoreFine(s) && i < |AllGroups(s)| && !(i < |s.db.history| && s.db.history[i].applied)
    ensures (exists choice :: i < |Survivors(s, choice)| && Survivors(s, choice)[i].applied) <==> i in SureIn(s) + MaybeIn(s)
  {
    forall choice ensures i < |Survivors(s, choice)| && Survivors(s, choice)[i].applied <==> i in Readable(s, choice) {
      ReadableBounds(s, choice);
      assert i !in Among(Applied(s.db.history), 0, s.base);
    }
    if i in SureIn(s) + MaybeIn(s) {
      assert i in Readable(s, {i});
    }
  }

  // ---------- The database after the recovery ----------

  /** The replay of the logs is cut into level-0 tables: this one has what was read of the groups from
      the end of the one before up to upTo. */
  datatype Cut = Cut(number: nat, upTo: nat)

  function StartOf(s: Store, cuts: seq<Cut>, k: nat): nat
    requires k <= |cuts|
  {
    if k == 0 then s.base else cuts[k - 1].upTo
  }

  ghost function CutEntries(s: Store, choice: set<nat>, cuts: seq<Cut>, k: nat): set<Entry>
    requires k < |cuts|
  {
    EntriesOf(AllGroups(s), Among(Readable(s, choice), StartOf(s, cuts, k), cuts[k].upTo))
  }

  /** The cuts take all that was read, in order; their numbers are new, ascend, and are used up when the new
      log gets its own. */
  ghost predicate GoodCuts(s: Store, choice: set<nat>, cuts: seq<Cut>, log: nat) {
    NumbersAscend(s, cuts, log) && InTurn(s, cuts) && AllTaken(s, cuts, Readable(s, choice))
  }

  /** Numbers are given out from the one behind the manifest's on; that of a log which has been read is
      skipped only once its tables are written, so that a table may have the number of a later log. */
  ghost predicate NumbersAscend(s: Store, cuts: seq<Cut>, log: nat) {
    && s.manifestNext < log && (forall n :: n in s.logs ==> n < log)
    && (forall k :: 0 <= k < |cuts| ==> s.manifestNext < cuts[k].number < log)
    && forall j, k :: 0 <= j < k < |cuts| ==> cuts[j].number < cuts[k].number
  }

  ghost predicate InTurn(s: Store, cuts: seq<Cut>) {
    forall j, k: nat {:trigger cuts[j], StartOf(s, cuts, k)} :: 0 <= j < k < |cuts| ==> cuts[j].upTo <= StartOf(s, cuts, k)
  }

  ghost predicate AllTaken(s: Store, cuts: seq<Cut>, I: set<nat>) {
    forall i :: i in I ==> Taken(s, cuts, i)
  }

  ghost predicate Taken(s: Store, cuts: seq<Cut>, i: nat) {
    exists k :: 0 <= k < |cuts| && InCut(s, cuts, k, i)
  }

  predicate InCut(s: Store, cuts: seq<Cut>, k: nat, i: nat)
    requires k < |cuts|
  {
    StartOf(s, cuts, k) <= i < cuts[k].upTo
  }

  ghost function NewTables(s: Store, choice: set<nat>, cuts: seq<Cut>): Version {
    set k: nat, e | k < |cuts| && e in CutEntries(s, choice, cuts, k) :: Placed(e, 0 - cuts[k].number, cuts[k].number)
  }

  ghost function NewNumbers(s: Store, choice: set<nat>, cuts: seq<Cut>): set<nat> {
    set p | p in NewTables(s, choice, cuts) :: p.table
  }

  ghost function ReopenedVersion(s: Store, choice: set<nat>, cuts: seq<Cut>): Version {
    s.db.version + NewTables(s, choice, cuts)
  }

  /** The tables of the manifest are as they were; the new ones are level-0 tables. The old logs have been
      read, and a new one is begun; the manifest learns of it all. */
  ghost function Reopened(s: Store, choice: set<nat>, cuts: seq<Cut>, log: nat): Store {
    var h, v := Survivors(s, choice), ReopenedVersion(s, choice, cuts);
    var installed := s.installed + NewNumbers(s, choice, cuts);
    Store(
      Db([{}], false, v, Last(h), [], None, 0, None, {}, h, s.db.floor),
      s.logs[log := Log({}, {})], false,
      (map n | n in installed :: if n in s.installed && n in s.tables then s.tables[n] else TableAt(v, n)), installed,
      log, |h|, log + 1,
      {installed}, log, log + 1, {}, None, [], Idle, false, |h|, |h|, {}, Applied(h))
  }

  lemma NewTablesHold(s: Store, choice: set<nat>, cuts: seq<Cut>, log: nat)
    requires GoodCuts(s, choice, cuts, log) && MemoryOk(s) && LogsOk(s)
    ensures EntriesIn(NewTables(s, choice, cuts)) == EntriesOf(AllGroups(s), Readable(s, choice))
  {
    var v, I := NewTables(s, choice, cuts), Readable(s, choice);
    forall e ensures e in EntriesIn(v) <==> e in EntriesOf(AllGroups(s), I) {
      if e in EntriesOf(AllGroups(s), I) {
        var i :| i in I && i < |AllGroups(s)| && e in GroupAt(AllGroups(s), i);
        assert Taken(s, cuts, i);
        var k :| 0 <= k < |cuts| && InCut(s, cuts, k, i);
        assert i in Among(I, StartOf(s, cuts, k), cuts[k].upTo);
        assert e in CutEntries(s, choice, cuts, k);
        assert Placed(e, 0 - cuts[k].number, cuts[k].number) in v;
      }
    }
  }

  /** Where an entry of a new table comes from. */
  lemma CutOf(s: Store, choice: set<nat>, cuts: seq<Cut>, p: Placed) returns (k: nat, i: nat)
    requires Ok(s.db) && p in NewTables(s, choice, cuts)
    ensures k < |cuts| && p == Placed(p.entry, 0 - cuts[k].number, cuts[k].number)
    ensures i in Readable(s, choice) && InCut(s, cuts, k, i) && i < |AllGroups(s)| && p.entry in GroupAt(AllGroups(s), i)
    ensures Last(AllGroups(s)[..i]) < p.entry.sequence <= Last(AllGroups(s)[..i + 1])
  {
    k :| 0 <= k < |cuts| && p.entry in CutEntries(s, choice, cuts, k) && p == Placed(p.entry, 0 - cuts[k].number, cuts[k].number);
    i :| i in Among(Readable(s, choice), StartOf(s, cuts, k), cuts[k].upTo) && i < |AllGroups(s)| && p.entry in GroupAt(AllGroups(s), i);
    BegunGroups(s);
    GroupNumbers(AllGroups(s), i);
  }

  /** Tables made later come first and hold newer entries; older ones hold none of what was read. */
  lemma ReopenedOrdered(s: Store, choice: set<nat>, cuts: seq<Cut>, log: nat)
    requires StoreFine(s) && GoodCuts(s, choice, cuts, log)
    ensures AgeOrdered(ReopenedVersion(s, choice, cuts))
  {
    var v, w := s.db.version, NewTables(s, choice, cuts);
    forall p: Placed, q: Placed | p in v + w && q in v + w && p.entry.key == q.entry.key && p.depth < q.depth
      ensures p.entry.sequence > q.entry.sequence
    {
      if p in w && q in w {
        NewerCut(s, choice, cuts, log, p, q);
      } else if p in w {
        NewerThanTables(s, choice, cuts, p, q);
      } else if q in w {
        OldBehind(s, choice, cuts, log, p, q);
      }
    }
  }

  lemma OldBehind(s: Store, choice: set<nat>, cuts: seq<Cut>, log: nat, p: Placed, q: Placed)
    requires Ok(s.db) && TablesOk(s) && GoodCuts(s, choice, cuts, log)
    requires p in s.db.version && q in NewTables(s, choice, cuts)
    ensures q.depth < p.depth && p.table < s.manifestNext < q.table
  {
    var k, i := CutOf(s, choice, cuts, q);
    assert p.table in s.installed;
  }

  lemma NewerCut(s: Store, choice: set<nat>, cuts: seq<Cut>, log: nat, p: Placed, q: Placed)
    requires Ok(s.db) && GoodCuts(s, choice, cuts, log)
    requires p in NewTables(s, choice, cuts) && q in NewTables(s, choice, cuts) && p.depth < q.depth
    ensures p.entry.sequence > q.entry.sequence
  {
    var k, i := CutOf(s, choice, cuts, p);
    var j, m := CutOf(s, choice, cuts, q);
    CutsAscend(s, cuts, log, j, m, k, i);
    LastAscends(AllGroups(s), m + 1, i);
  }

  lemma CutsAscend(s: Store, cuts: seq<Cut>, log: nat, j: nat, m: nat, k: nat, i: nat)
    requires NumbersAscend(s, cuts, log) && InTurn(s, cuts) && j < |cuts| && k < |cuts| && cuts[j].number < cuts[k].number
    requires InCut(s, cuts, j, m) && InCut(s, cuts, k, i)
    ensures m < i
  {
    assert j < k;
  }

  lemma NewerThanTables(s: Store, choice: set<nat>, cuts: seq<Cut>, p: Placed, q: Placed)
    requires StoreFine(s) && p in NewTables(s, choice, cuts) && q in s.db.version
    ensures p.entry.sequence > q.entry.sequence
  {
    var k, i := CutOf(s, choice, cuts, p);
    ReadableIsNewer(s, choice);
    assert p.entry in EntriesOf(AllGroups(s), Readable(s, choice));
    assert q.entry in EntriesIn(s.db.version);
  }

  lemma ReopenedDbOk(s: Store, choice: set<nat>, cuts: seq<Cut>, log: nat)
    requires StoreFine(s) && GoodCuts(s, choice, cuts, log)
    ensures Ok(Reopened(s, choice, cuts, log).db)
    ensures Complete(EntriesIn(ReopenedVersion(s, choice, cuts)), Written(Survivors(s, choice)), s.db.floor)
  {
    var d := Reopened(s, choice, cuts, log).db;
    SurvivorsWrote(s, choice);
    RecoveredComplete(s, choice);
    InstalledHold(s);
    NewTablesHold(s, choice, cuts, log);
    TwoParts(s.db.version, NewTables(s, choice, cuts));
    ReopenedOrdered(s, choice, cuts, log);
    OnlyTables(d);
  }

  /** A database with nothing in memory and nobody using it. */
  lemma OnlyTables(d: Db)
    requires d == Db([{}], false, d.version, Last(d.history), [], None, 0, None, {}, d.history, d.floor)
    requires AllWellFormed(d.history) && AgeOrdered(d.version) && d.floor <= Last(d.history)
    requires Complete(EntriesIn(d.version), Written(d.history), d.floor)
    ensures Ok(d)
  {
    assert All(Mem(d), Imm(d), d.version) == EntriesIn(d.version);
    assert Record(d) == Written(d.history);
  }

  lemma NewTableAt(s: Store, choice: set<nat>, cuts: seq<Cut>, log: nat, p: Placed)
    requires Ok(s.db) && GoodCuts(s, choice, cuts, log) && p in NewTables(s, choice, cuts)
    ensures s.manifestNext < p.table < log && p.depth + p.table == 0
  {
    var k, i := CutOf(s, choice, cuts, p);
  }

  lemma OldTableAt(s: Store, choice: set<nat>, cuts: seq<Cut>, log: nat, n: nat)
    requires Ok(s.db) && GoodCuts(s, choice, cuts, log) && n < s.manifestNext
    ensures TableAt(ReopenedVersion(s, choice, cuts), n) == TableAt(s.db.version, n)
  {
    forall p | p in NewTables(s, choice, cuts) ensures p.table != n {
      NewTableAt(s, choice, cuts, log, p);
    }
  }

  lemma ReopenedTablesOk(s: Store, choice: set<nat>, cuts: seq<Cut>, log: nat)
    requires Ok(s.db) && TablesOk(s) && GoodCuts(s, choice, cuts, log)
    ensures TablesOk(Reopened(s, choice, cuts, log))
  {
    var t := Reopened(s, choice, cuts, log);
    forall p | p in NewTables(s, choice, cuts) ensures p.table < t.nextFile && p.depth + p.table == 0 && p.table in t.installed {
      NewTableAt(s, choice, cuts, log, p);
    }
    forall n | n in t.installed ensures n in t.tables && t.tables[n] == TableAt(t.db.version, n) && n < t.nextFile {
      if n in s.installed {
        OldTableAt(s, choice, cuts, log, n);
      }
    }
  }

  lemma ReopenedMemoryOk(s: Store, choice: set<nat>, cuts: seq<Cut>, log: nat)
    ensures MemoryOk(Reopened(s, choice, cuts, log))
  {
    var t := Reopened(s, choice, cuts, log);
    assert EntriesOf(t.db.history, Among(Applied(t.db.history), |t.db.history|, |t.db.history|)) == {};
    assert GroupEntries([], t.db.lastSequence, 0) == {};
  }

  lemma ReopenedLogsOk(s: Store, choice: set<nat>, cuts: seq<Cut>, log: nat)
    requires LogsOk(s) && NumbersAscend(s, cuts, log)
    ensures LogsOk(Reopened(s, choice, cuts, log)) && Covered(Reopened(s, choice, cuts, log))
  {
  }

  /** The database opened after a crash is in order: the tables of the manifest, with those made of the
      logs in front, hold the state after the survivors, and writing may go on. */
  lemma ReopenedFine(s: Store, choice: set<nat>, cuts: seq<Cut>, log: nat)
    requires StoreFine(s) && GoodCuts(s, choice, cuts, log)
    ensures StoreFine(Reopened(s, choice, cuts, log))
    ensures forall n :: n in s.installed ==> n in Reopened(s, choice, cuts, log).tables && Reopened(s, choice, cuts, log).tables[n] == s.tables[n]
  {
    var t := Reopened(s, choice, cuts, log);
    ReopenedDbOk(s, choice, cuts, log);
    ReopenedTablesOk(s, choice, cuts, log);
    ReopenedMemoryOk(s, choice, cuts, log);
    ReopenedLogsOk(s, choice, cuts, log);
    SurvivorsWrote(s, choice);
    assert t.db.history[..|t.db.history|] == t.db.history;
  }

  lemma NewTablesLeveled(s: Store, choice: set<nat>, cuts: seq<Cut>, log: nat)
    requires Ok(s.db) && TablesOk(s) && Leveled(s.db.version) && GoodCuts(s, choice, cuts, log)
    ensures Leveled(ReopenedVersion(s, choice, cuts))
  {
    forall p | p in NewTables(s, choice, cuts) ensures p.depth + p.table == 0 && p.table > s.manifestNext {
      NewTableAt(s, choice, cuts, log, p);
    }
    forall p | p in s.db.version ensures p.table < s.manifestNext {
    }
  }

  /** No entry is stored twice, and the tables of deeper levels are those of before. */
  lemma ReopenedTidy(s: Store, choice: set<nat>, cuts: seq<Cut>, log: nat)
    requires StoreFine(s) && Tidy(s.db) && GoodCuts(s, choice, cuts, log)
    ensures Tidy(Reopened(s, choice, cuts, log).db)
  {
    var v, w := s.db.version, NewTables(s, choice, cuts);
    forall p | p in w ensures p.depth <= 0 {
      NewTableAt(s, choice, cuts, log, p);
    }
    NewTablesLeveled(s, choice, cuts, log);
    forall p, q, r | p in v + w && q in v + w && r in v + w ensures !Splits(p, q, r) {
      assert p in v && q in v && r in v ==> !Splits(p, q, r);
    }
    forall p: Placed, q: Placed | p in v + w && q in v + w && p.entry == q.entry ensures p == q {
      if p in w && q in w {
        if p.depth < q.depth {
          NewerCut(s, choice, cuts, log, p, q);
        } else if q.depth < p.depth {
          NewerCut(s, choice, cuts, log, q, p);
        }
        NewTableAt(s, choice, cuts, log, p);
        NewTableAt(s, choice, cuts, log, q);
      } else if p in w {
        NewerThanTables(s, choice, cuts, p, q);
      } else if q in w {
        NewerThanTables(s, choice, cuts, q, p);
      }
    }
  }
}

/** Recovery and garbage collection as DBImpl does them: RecoverLogFile, and the loop of
    DeleteObsoleteFiles over a directory. */
module Recovery {
  import opened Entries
  import opened History
  import opened Options

  // ---------- RecoverLogFile ----------

  /** What the log reader hands over: a corruption report or a record too small for a batch, or a
      batch. Of a batch that is not intact the ops are those that still parse. */
  datatype LogItem = Damaged | Batch(first: nat, ops: seq<Op>, count: nat, intact: bool)

  /** The entries that replaying items lo up to hi inserts. */
  ghost function Replayed(items: seq<LogItem>, lo: nat, hi: nat): set<Entry>
    requires lo <= hi <= |items|
  {
    if lo == hi then {}
    else Replayed(items, lo, hi - 1) + InsertedBy(items[hi - 1])
  }

  /** Op i of a batch gets sequence number first + i. */
  ghost function InsertedBy(item: LogItem): set<Entry> {
    if item.Batch? then set i | 0 <= i < |item.ops| :: Entry(item.ops[i].key, item.first + i, item.ops[i].kind, item.ops[i].value)
    else {}
  }

  /** One past the last sequence number that a batch claims. */
  function EndOf(item: LogItem): nat {
    if item.Batch? then item.first + item.count else 0
  }

  /** last is the highest sequence number that a batch claims, or what it was before. */
  ghost predicate IsLast(items: seq<LogItem>, before: nat, last: nat) {
    && last >= before && (forall i :: 0 <= i < |items| ==> EndOf(items[i]) <= last + 1)
    && (last == before || exists i :: 0 <= i < |items| && EndOf(items[i]) == last + 1)
  }

  lemma LastGrows(items: seq<LogItem>, item: LogItem, before: nat, last: nat)
    requires IsLast(items, before, last)
    ensures IsLast(items + [item], before, if EndOf(item) > last + 1 then EndOf(item) - 1 else last)
  {
    if EndOf(item) > last + 1 {
      assert (items + [item])[|items|] == item;
    } else if last != before {
      var i :| 0 <= i < |items| && EndOf(items[i]) == last + 1;
      assert (items + [item])[i] == items[i];
    }
  }

  predicate Good(item: LogItem) {
    item.Batch? && item.intact
  }

  ghost function Union(tables: seq<set<Entry>>): set<Entry> {
    set i, e | 0 <= i < |tables| && e in tables[i] :: e
  }

  lemma UnionGrows(tables: seq<set<Entry>>, t: set<Entry>)
    ensures Union(tables + [t]) == Union(tables) + t
  {
    forall e ensures e in Union(tables + [t]) <==> e in Union(tables) + t {
      if e in Union(tables) {
        var i :| 0 <= i < |tables| && e in tables[i];
        assert (tables + [t])[i] == tables[i];
      }
      if e in t {
        assert (tables + [t])[|tables|] == t;
      }
    }
  }

  lemma {:induction false} ReplayedSplit(items: seq<LogItem>, lo: nat, mid: nat, hi: nat)
    requires lo <= mid <= hi <= |items|
    ensures Replayed(items, lo, hi) == Replayed(items, lo, mid) + Replayed(items, mid, hi)
    decreases hi
  {
    if mid < hi {
      ReplayedSplit(items, lo, mid, hi - 1);
    }
  }

  class MemTable {
    var entries: set<Entry>

    constructor ()
      ensures entries == {}
    {
      entries := {};
    }

    /** WriteBatchInternal::InsertInto: the ops that parse go in, whether or not the batch is intact. */
    method InsertFrom(item: LogItem) returns (ok: bool)
      requires item.Batch?
      modifies this
      ensures entries == old(entries) + InsertedBy(item) && ok == item.intact
    {
      ghost var before := entries;
      var i := 0;
      while i < |item.ops|
        invariant 0 <= i <= |item.ops|
        invariant entries == before + set k | 0 <= k < i :: Entry(item.ops[k].key, item.first + k, item.ops[k].kind, item.ops[k].value)
      {
        entries := entries + {Entry(item.ops[i].key, item.first + i, item.ops[i].kind, item.ops[i].value)};
        i := i + 1;
      }
      ok := item.intact;
    }
  }

  /** The tables were cut from the replay in order: table k holds what items cuts[k] to cuts[k + 1] inserted. */
  ghost predicate CutFrom(items: seq<LogItem>, tables: seq<set<Entry>>, cuts: seq<nat>) {
    && |cuts| == |tables| + 1 && cuts[0] == 0 && cuts[|tables|] <= |items|
    && (forall i, j :: 0 <= i <= j < |cuts| ==> cuts[i] <= cuts[j])
    && forall k {:trigger tables[k]} :: 0 <= k < |tables| ==> cuts[k] <= cuts[k + 1] <= |items| && tables[k] == Replayed(items, cuts[k], cuts[k + 1])
  }

  lemma AnotherCut(items: seq<LogItem>, tables: seq<set<Entry>>, cuts: seq<nat>, to: nat)
    requires CutFrom(items, tables, cuts) && cuts[|tables|] <= to <= |items|
    ensures CutFrom(items, tables + [Replayed(items, cuts[|tables|], to)], cuts + [to])
  {
  }

  lemma {:induction false} ReplayedLater(a: seq<LogItem>, b: seq<LogItem>, lo: nat, hi: nat)
    requires lo <= hi <= |b|
    ensures Replayed(a + b, |a| + lo, |a| + hi) == Replayed(b, lo, hi)
    decreases hi
  {
    if lo < hi {
      ReplayedLater(a, b, lo, hi - 1);
    }
  }

  lemma {:induction false} ReplayedFirst(a: seq<LogItem>, b: seq<LogItem>, lo: nat, hi: nat)
    requires lo <= hi <= |a|
    ensures Replayed(a + b, lo, hi) == Replayed(a, lo, hi)
    decreases hi
  {
    if lo < hi {
      ReplayedFirst(a, b, lo, hi - 1);
    }
  }

  /** Nothing but damage from item k on. */
  ghost predicate OnlyDamage(items: seq<LogItem>, k: nat) {
    forall i :: k <= i < |items| ==> items[i] == Damaged
  }

  lemma {:induction false} DamageInsertsNothing(items: seq<LogItem>, lo: nat, hi: nat)
    requires lo <= hi <= |items| && forall i :: lo <= i < hi ==> items[i] == Damaged
    ensures Replayed(items, lo, hi) == {}
    decreases hi
  {
    if lo < hi {
      DamageInsertsNothing(items, lo, hi - 1);
    }
  }

  /** The tables of one log and then of the next are cut from both, one after the other. */
  lemma CutsOfTwoLogs(a: seq<LogItem>, aTables: seq<set<Entry>>, aCuts: seq<nat>, b: seq<LogItem>, bTables: seq<set<Entry>>, bCuts: seq<nat>)
    returns (cuts: seq<nat>)
    requires CutFrom(a, aTables, aCuts) && OnlyDamage(a, aCuts[|aTables|]) && CutFrom(b, bTables, bCuts) && OnlyDamage(b, bCuts[|bTables|])
    ensures CutFrom(a + b, aTables + bTables, cuts) && OnlyDamage(a + b, cuts[|aTables + bTables|])
  {
    var n := |aTables|;
    cuts := aCuts + seq(|bTables|, i requires 0 <= i < |bTables| => |a| + bCuts[i + 1]);
    forall k {:trigger (aTables + bTables)[k]} | 0 <= k < |aTables + bTables|
      ensures cuts[k] <= cuts[k + 1] <= |a + b| && (aTables + bTables)[k] == Replayed(a + b, cuts[k], cuts[k + 1])
    {
      if k < n {
        assert aTables[k] == Replayed(a, aCuts[k], aCuts[k + 1]);
        ReplayedFirst(a, b, aCuts[k], aCuts[k + 1]);
      } else {
        assert bTables[k - n] == Replayed(b, bCuts[k - n], bCuts[k - n + 1]);
        ReplayedLater(a, b, bCuts[k - n], bCuts[k - n + 1]);
        if k == n {
          OverDamage(a, b, aCuts[n], bCuts[1]);
        }
      }
    }
  }

  lemma OverDamage(a: seq<LogItem>, b: seq<LogItem>, k: nat, hi: nat)
    requires k <= |a| && OnlyDamage(a, k) && hi <= |b|
    ensures Replayed(a + b, k, |a| + hi) == Replayed(a + b, |a|, |a| + hi)
  {
    ReplayedSplit(a + b, k, |a|, |a| + hi);
    DamageInsertsNothing(a + b, k, |a|);
  }

  // ---------- The replay of one log ----------

  /** The first i items have been replayed: held is what mem has, if it is not null. */
  ghost predicate Replaying(items: seq<LogItem>, i: nat, held: Option<set<Entry>>, tables: seq<set<Entry>>, cuts: seq<nat>) {
    && CutFrom(items, tables, cuts) && cuts[|tables|] <= i <= |items|
    && Union(tables) == Replayed(items, 0, cuts[|tables|])
    && Replayed(items, cuts[|tables|], i) == (if held.Some? then held.value else {})
    && (held == None ==> forall k :: cuts[|tables|] <= k < i ==> items[k] == Damaged)
  }

  lemma DamageReplayed(items: seq<LogItem>, i: nat, held: Option<set<Entry>>, tables: seq<set<Entry>>, cuts: seq<nat>)
    requires Replaying(items, i, held, tables, cuts) && i < |items| && items[i] == Damaged
    ensures Replaying(items, i + 1, held, tables, cuts)
  {
  }

  lemma BatchReplayed(items: seq<LogItem>, i: nat, held: Option<set<Entry>>, tables: seq<set<Entry>>, cuts: seq<nat>)
    requires Replaying(items, i, held, tables, cuts) && i < |items| && items[i].Batch?
    ensures Replaying(items, i + 1, Some((if held.Some? then held.value else {}) + InsertedBy(items[i])), tables, cuts)
  {
  }

  lemma TableCut(items: seq<LogItem>, i: nat, held: set<Entry>, tables: seq<set<Entry>>, cuts: seq<nat>)
    requires Replaying(items, i, Some(held), tables, cuts)
    ensures Replaying(items, i, None, tables + [held], cuts + [i])
  {
    ReplayedSplit(items, 0, cuts[|tables|], i);
    UnionGrows(tables, held);
    AnotherCut(items, tables, cuts, i);
  }

  lemma NothingReplayed(items: seq<LogItem>)
    ensures Replaying(items, 0, None, [], [0])
  {
  }

  lemma AllReplayed(items: seq<LogItem>, tables: seq<set<Entry>>, cuts: seq<nat>)
    requires Replaying(items, |items|, None, tables, cuts)
    ensures Union(tables) == Replayed(items, 0, |items|) && CutFrom(items, tables, cuts) && OnlyDamage(items, cuts[|tables|])
  {
    ReplayedSplit(items, 0, cuts[|tables|], |items|);
  }

  lemma LastStep(items: seq<LogItem>, i: nat, before: nat, last: nat)
    requires i < |items| && IsLast(items[..i], before, last)
    ensures IsLast(items[..i + 1], before, if EndOf(items[i]) > last + 1 then EndOf(items[i]) - 1 else last)
  {
    assert items[..i + 1] == items[..i] + [items[i]];
    LastGrows(items[..i], items[i], before, last);
  }

  /** The mem of RecoverLogFile: null until the first batch after a flush. */
  ghost function Held(mem: MemTable?): Option<set<Entry>>
    reads mem
  {
    if mem == null then None else Some(mem.entries)
  }

  /** Replays one log into level-0 tables. Unless it fails, every op that the log handed over is in
      exactly the tables made, which were cut from the replay in order; and max_sequence covers
      every batch. It fails only if a table cannot be written, or if something was wrong with the
      log and paranoid_checks is set. */
  method RecoverLogFile(items: seq<LogItem>, paranoid: bool, faulty: bool, maxSequence: nat)
    returns (ok: bool, tables: seq<set<Entry>>, last: nat, ghost cuts: seq<nat>)
    ensures ok ==> (paranoid ==> forall i :: 0 <= i < |items| ==> Good(items[i]))
    ensures ok || faulty || (paranoid && exists i :: 0 <= i < |items| && !Good(items[i]))
    ensures ok ==> Union(tables) == Replayed(items, 0, |items|) && CutFrom(items, tables, cuts)
    ensures ok ==> OnlyDamage(items, cuts[|tables|])
    ensures ok ==> IsLast(items, maxSequence, last)
  {
    ok, tables, last, cuts := true, [], maxSequence, [0];
    var mem: MemTable? := null;
    var i := 0;
    NothingReplayed(items);
    while i < |items|
      invariant 0 <= i <= |items| && ok
      invariant paranoid ==> forall k :: 0 <= k < i ==> Good(items[k])
      invariant mem != null ==> fresh(mem)
      invariant Replaying(items, i, Held(mem), tables, cuts)
      invariant IsLast(items[..i], maxSequence, last)
    {
      LastStep(items, i, maxSequence, last);
      if items[i] == Damaged {
        if paranoid {
          ok := false;
          return;
        }
        DamageReplayed(items, i, Held(mem), tables, cuts);
      } else {
        BatchReplayed(items, i, Held(mem), tables, cuts);
        if mem == null {
          mem := new MemTable();
        }
        var intact := mem.InsertFrom(items[i]);
        if !intact && paranoid {
          ok := false;
          return;
        }
        if items[i].first + items[i].count > last + 1 {
          last := items[i].first + items[i].count - 1;
        }
        var full: bool := *;
        if full {
          ok, tables, cuts := WriteLevel0Table(mem, faulty, items, tables, cuts, i + 1);
          if !ok {
            return;
          }
          mem := null;
        }
      }
      i := i + 1;
    }
    assert items[..i] == items;
    if mem != null {
      ok, tables, cuts := WriteLevel0Table(mem, faulty, items, tables, cuts, i);
    }
    if ok {
      AllReplayed(items, tables, cuts);
    }
  }

  method WriteLevel0Table(mem: MemTable, faulty: bool, ghost items: seq<LogItem>, tables: seq<set<Entry>>, ghost cuts: seq<nat>, ghost i: nat)
    returns (ok: bool, after: seq<set<Entry>>, ghost cutsAfter: seq<nat>)
    requires Replaying(items, i, Some(mem.entries), tables, cuts)
    ensures ok || faulty
    ensures ok ==> Replaying(items, i, None, after, cutsAfter)
  {
    TableCut(items, i, mem.entries, tables, cuts);
    var written: bool := *;
    ok, after, cutsAfter := written || !faulty, tables + [mem.entries], cuts + [i];
  }

  // ---------- File numbers ----------

  function Total(counts: seq<nat>): nat {
    if counts == [] then 0 else Total(counts[..|counts| - 1]) + counts[|counts| - 1]
  }

  ghost predicate Ascending(numbers: seq<nat>, low: nat, high: nat) {
    && (forall k :: 0 <= k < |numbers| ==> low < numbers[k] < high)
    && forall j, k :: 0 <= j < k < |numbers| ==> numbers[j] < numbers[k]
  }

  /** The numbers that Recover and Open give out, with so many tables made of each log: NewFileNumber for
      every table, MarkFileNumberUsed once a log has been replayed, and NewFileNumber for the new log. */
  method NumberFiles(manifestNext: nat, logs: seq<nat>, counts: seq<nat>) returns (numbers: seq<nat>, newLog: nat)
    requires |counts| == |logs|
    ensures |numbers| == Total(counts) && Ascending(numbers, manifestNext, newLog)
    ensures manifestNext < newLog && forall i :: 0 <= i < |logs| ==> logs[i] < newLog
  {
    var nextFileNumber := manifestNext + 1;
    numbers := [];
    var i := 0;
    while i < |logs|
      invariant 0 <= i <= |logs| && manifestNext < nextFileNumber && forall k :: 0 <= k < i ==> logs[k] < nextFileNumber
      invariant |numbers| == Total(counts[..i]) && Ascending(numbers, manifestNext, nextFileNumber)
    {
      assert counts[..i + 1][..i] == counts[..i];
      ghost var before := |numbers|;
      var t := 0;
      while t < counts[i]
        invariant 0 <= t <= counts[i] && manifestNext < nextFileNumber && forall k :: 0 <= k < i ==> logs[k] < nextFileNumber
        invariant |numbers| == before + t && Ascending(numbers, manifestNext, nextFileNumber)
      {
        numbers := numbers + [nextFileNumber];
        nextFileNumber := nextFileNumber + 1;
        t := t + 1;
      }
      if nextFileNumber <= logs[i] {
        nextFileNumber := logs[i] + 1;
      }
      i := i + 1;
    }
    assert counts[..i] == counts;
    newLog := nextFileNumber;
  }

  /** When the batches of a log have ascending numbers, as a writer gives them, newer tables hold
      newer entries, so that the rebuilt version is in the order that Get relies on. */
  lemma LaterTablesAreNewer(items: seq<LogItem>, tables: seq<set<Entry>>, cuts: seq<nat>, j: nat, k: nat)
    requires CutFrom(items, tables, cuts) && j < k < |tables|
    requires forall i, m :: 0 <= i < m < |items| && items[i].Batch? && items[m].Batch? ==>
               items[i].first + |items[i].ops| <= items[m].first
    ensures forall e, f :: e in tables[j] && f in tables[k] ==> e.sequence < f.sequence
  {
    forall e, f | e in tables[j] && f in tables[k] ensures e.sequence < f.sequence {
      var a := ReplayedFrom(items, cuts[j], cuts[j + 1], e);
      var b := ReplayedFrom(items, cuts[k], cuts[k + 1], f);
      assert a < cuts[j + 1] <= cuts[k] <= b;
    }
  }

  lemma {:induction false} ReplayedFrom(items: seq<LogItem>, lo: nat, hi: nat, e: Entry) returns (i: nat)
    requires lo <= hi <= |items| && e in Replayed(items, lo, hi)
    ensures lo <= i < hi && e in InsertedBy(items[i])
    decreases hi
  {
    if e in InsertedBy(items[hi - 1]) {
      i := hi - 1;
    } else {
      i := ReplayedFrom(items, lo, hi - 1, e);
    }
  }

  // ---------- DeleteObsoleteFiles ----------

  datatype FileType = LogFile | DescriptorFile | TableFile | TempFile | CurrentFile | DBLockFile | InfoLogFile | OtherFile

  datatype File = File(kind: FileType, number: nat)

  /** What the current state still needs, and whatever is none of the engine's business. */
  ghost predicate Needed(f: File, live: set<nat>, logNumber: nat, prevLogNumber: nat, manifestNumber: nat) {
    match f.kind
    case LogFile => f.number >= logNumber || f.number == prevLogNumber
    case DescriptorFile => f.number >= manifestNumber
    case TableFile => f.number in live
    case TempFile => f.number in live
    case _ => true
  }

  class Directory {
    var files: set<File>

    method DeleteFile(f: File)
      modifies this
      ensures files == old(files) - {f}
    {
      files := files - {f};
    }

    /** live starts as a copy of pending_outputs_; the tables of every version are added to it. After
        a background error nothing is deleted, since the state on disk is then not certain. */
    method DeleteObsoleteFiles(filenames: seq<File>, pendingOutputs: set<nat>, versions: seq<set<nat>>,
                               logNumber: nat, prevLogNumber: nat, manifestNumber: nat, bgError: bool)
      requires forall f :: f in files <==> f in filenames
      modifies this
      ensures bgError ==> files == old(files)
      ensures !bgError ==> forall f :: f in files <==>
                f in old(files) && Needed(f, pendingOutputs + AllOf(versions), logNumber, prevLogNumber, manifestNumber)
    {
      if bgError {
        return;
      }
      var live := pendingOutputs;
      var v := 0;
      while v < |versions|
        invariant 0 <= v <= |versions| && live == pendingOutputs + AllOf(versions[..v])
      {
        assert versions[..v + 1][..v] == versions[..v];
        live := live + versions[v];
        v := v + 1;
      }
      assert versions[..|versions|] == versions;
      var i := 0;
      while i < |filenames|
        invariant 0 <= i <= |filenames|
        invariant forall f :: f in files <==>
                    f in old(files) && (f in filenames[..i] ==> Needed(f, live, logNumber, prevLogNumber, manifestNumber))
      {
        var f := filenames[i];
        var keep := true;
        match f.kind {
          case LogFile => keep := f.number >= logNumber || f.number == prevLogNumber;
          case DescriptorFile => keep := f.number >= manifestNumber;
          case TableFile => keep := f.number in live;
          case TempFile => keep := f.number in live;
          case _ =>
        }
        if !keep {
          DeleteFile(f);
        }
        assert filenames[..i + 1] == filenames[..i] + [f];
        i := i + 1;
      }
      assert filenames[..|filenames|] == filenames;
    }
  }

  ghost function AllOf(versions: seq<set<nat>>): set<nat> {
    if versions == [] then {} else AllOf(versions[..|versions| - 1]) + versions[|versions| - 1]
  }
}

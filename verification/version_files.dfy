/** Every version of the database is a list of table files for each level, so that what is said of such lists
    is said of every version. */
module VersionFiles {
  import opened Entries
  import opened Options
  import opened CompactionRules
  import opened Layers
  import opened Database
  import opened FileSelection
  import opened ChosenJobs
  import opened VersionSearch

  /** Any two entries of the version are in order, one way or the other. */
  ghost predicate Comparable(v: Version) {
    Single(v) && Distinct(EntriesIn(v)) && forall p :: p in v ==> Parses(p.entry)
  }

  // ---------- Sorting ----------

  lemma {:induction false} InsertEntry(s: seq<Entry>, e: Entry) returns (t: seq<Entry>)
    requires Sorted(s) && forall i :: 0 <= i < |s| ==> Before(s[i], e) || Before(e, s[i])
    ensures Sorted(t) && Elements(t) == Elements(s) + {e} && |t| == |s| + 1
    decreases |s|
  {
    if s == [] || Before(e, s[0]) {
      t := [e] + s;
    } else {
      var rest := InsertEntry(s[1..], e);
      t := [s[0]] + rest;
      assert s == [s[0]] + s[1..];
      forall j | 0 <= j < |rest| ensures Before(s[0], rest[j]) {
        assert rest[j] in Elements(rest);
      }
    }
  }

  /** A finite set of entries that are comparable, in order. */
  lemma {:induction false} SortedEntries(E: set<Entry>) returns (s: seq<Entry>)
    requires forall a, b :: a in E && b in E && a != b ==> Before(a, b) || Before(b, a)
    ensures Sorted(s) && Elements(s) == E && (E != {} ==> s != [])
    decreases |E|
  {
    if E == {} {
      s := [];
    } else {
      var e :| e in E;
      var rest := SortedEntries(E - {e});
      forall i | 0 <= i < |rest| ensures Before(rest[i], e) || Before(e, rest[i]) {
        assert rest[i] in Elements(rest);
      }
      s := InsertEntry(rest, e);
    }
  }

  // ---------- The tables of a version ----------

  /** What table n holds. */
  ghost function Held(v: Version, n: nat): set<Entry> {
    set p | p in v && p.table == n :: p.entry
  }

  ghost predicate IsTable(v: Version, t: Table) {
    TableOk(t) && Elements(t.entries) == Held(v, t.file.number)
  }

  lemma {:induction false} TableOf(v: Version, n: nat) returns (t: Table)
    requires Comparable(v) && exists p :: p in v && p.table == n
    ensures IsTable(v, t) && t.file.number == n
  {
    var E := Held(v, n);
    forall a, b | a in E && b in E && a != b ensures Before(a, b) || Before(b, a) {
      var p :| p in v && p.table == n && p.entry == a;
      var q :| q in v && q.table == n && q.entry == b;
      Ordered(v, p, q);
    }
    var s := SortedEntries(E);
    var p :| p in v && p.table == n;
    assert p.entry in E;
    assert forall e :: e in s ==> e in Elements(s);
    t := Table(File(n, 0, s[0], s[|s| - 1]), s);
  }

  /** The tables in the order of their smallest keys. */
  ghost predicate InOrder(tables: seq<Table>) {
    forall i, k :: 0 <= i < k < |tables| ==> Before(tables[i].file.smallest, tables[k].file.smallest)
  }

  lemma {:induction false} InsertTable(tables: seq<Table>, t: Table) returns (all: seq<Table>)
    requires InOrder(tables)
    requires forall i :: 0 <= i < |tables| ==> Before(tables[i].file.smallest, t.file.smallest) || Before(t.file.smallest, tables[i].file.smallest)
    ensures InOrder(all) && forall u :: u in all <==> u in tables || u == t
    decreases |tables|
  {
    if tables == [] || Before(t.file.smallest, tables[0].file.smallest) {
      all := [t] + tables;
    } else {
      var rest := InsertTable(tables[1..], t);
      all := [tables[0]] + rest;
      assert tables == [tables[0]] + tables[1..];
      forall j | 0 <= j < |rest| ensures Before(tables[0].file.smallest, rest[j].file.smallest) {
        assert rest[j] in rest;
      }
    }
  }

  ghost predicate HasNumber(tables: seq<Table>, n: nat) {
    exists t :: t in tables && t.file.number == n
  }

  ghost predicate OneToANumber(tables: seq<Table>) {
    forall t, u :: t in tables && u in tables && t.file.number == u.file.number ==> t == u
  }

  lemma OneMoreTable(rest: seq<Table>, t: Table, tables: seq<Table>)
    requires (forall u :: u in tables <==> u in rest || u == t) && OneToANumber(rest) && !HasNumber(rest, t.file.number)
    ensures OneToANumber(tables) && forall n :: HasNumber(tables, n) <==> HasNumber(rest, n) || n == t.file.number
  {
    forall n | HasNumber(rest, n) ensures HasNumber(tables, n) {
      var u :| u in rest && u.file.number == n;
      assert u in tables;
    }
    assert t in tables;
  }

  /** The tables with these numbers. */
  lemma {:induction false} TablesOf(v: Version, numbers: set<nat>) returns (tables: seq<Table>)
    requires Comparable(v) && forall n :: n in numbers ==> exists p :: p in v && p.table == n
    ensures InOrder(tables) && (forall t :: t in tables ==> IsTable(v, t) && t.file.number in numbers)
    ensures OneToANumber(tables) && forall n :: HasNumber(tables, n) <==> n in numbers
    decreases |numbers|
  {
    if numbers == {} {
      tables := [];
    } else {
      var n :| n in numbers;
      var rest := TablesOf(v, numbers - {n});
      var t := TableOf(v, n);
      forall i | 0 <= i < |rest|
        ensures Before(rest[i].file.smallest, t.file.smallest) || Before(t.file.smallest, rest[i].file.smallest)
      {
        assert rest[i] in rest;
        SmallestDiffer(v, rest[i], t);
      }
      tables := InsertTable(rest, t);
      OneMoreTable(rest, t, tables);
    }
  }

  lemma {:induction false} SmallestDiffer(v: Version, t: Table, u: Table)
    requires Comparable(v) && IsTable(v, t) && IsTable(v, u) && t.file.number != u.file.number
    ensures Before(t.file.smallest, u.file.smallest) || Before(u.file.smallest, t.file.smallest)
  {
    assert t.entries[0] in Elements(t.entries) && u.entries[0] in Elements(u.entries);
    var p :| p in v && p.table == t.file.number && p.entry == t.entries[0];
    var q :| q in v && q.table == u.file.number && q.entry == u.entries[0];
    Ordered(v, p, q);
  }

  // ---------- Level after level ----------

  ghost function LevelOf(p: Placed): int {
    if p.depth <= 0 then 0 else p.depth
  }

  ghost function NumbersAt(v: Version, l: nat): set<nat> {
    set p | p in v && LevelOf(p) == l :: p.table
  }

  /** The lists are those of the first levels of the version. */
  ghost predicate Lists(v: Version, levels: seq<seq<Table>>) {
    forall l :: 0 <= l < |levels| ==> Lists1(v, l, levels[l])
  }

  ghost predicate Lists1(v: Version, l: nat, tables: seq<Table>) {
    && InOrder(tables) && (forall t :: t in tables ==> IsTable(v, t) && t.file.number in NumbersAt(v, l))
    && OneToANumber(tables) && forall n :: n in NumbersAt(v, l) ==> HasNumber(tables, n)
  }

  lemma {:induction false} LevelsOf(v: Version, n: nat) returns (levels: seq<seq<Table>>)
    requires Comparable(v)
    ensures |levels| == n && Lists(v, levels)
  {
    levels := [];
    if n > 0 {
      var before := LevelsOf(v, n - 1);
      var tables := TablesOf(v, NumbersAt(v, n - 1));
      levels := before + [tables];
    }
  }

  lemma {:induction false} ListsAreFiled(v: Version, levels: seq<seq<Table>>)
    requires Leveled(v) && Lists(v, levels)
    ensures Filed(levels)
  {
    forall l: nat, t, m: nat, u | At(levels, l, t) && At(levels, m, u) && t.file.number == u.file.number ensures l == m && t == u {
      assert Lists1(v, l, levels[l]) && Lists1(v, m, levels[m]);
      var p :| p in v && LevelOf(p) == l && p.table == t.file.number;
      var q :| q in v && LevelOf(q) == m && q.table == u.file.number;
    }
    forall l: nat, t | At(levels, l, t) ensures TableOk(t) {
      assert Lists1(v, l, levels[l]);
    }
    forall l: nat | 1 <= l < |levels| ensures InOrder(levels[l]) {
      assert Lists1(v, l, levels[l]);
    }
  }

  lemma {:induction false} ListsContain(v: Version, levels: seq<seq<Table>>)
    requires Leveled(v) && Lists(v, levels) && |levels| == NUM_LEVELS
    ensures Contains(v, levels)
  {
    forall l: nat, t, p | StoredAt(levels, l, t, p) ensures p in v {
      assert Lists1(v, l, levels[l]);
      assert p.entry in Elements(t.entries);
      var q :| q in v && q.table == t.file.number && q.entry == p.entry;
      var r :| r in v && LevelOf(r) == l && r.table == t.file.number;
      assert q.depth == r.depth;
    }
    forall p | p in v ensures Somewhere(levels, p) {
      var l: nat := LevelOf(p);
      assert Lists1(v, l, levels[l]) && p.table in NumbersAt(v, l);
      assert HasNumber(levels[l], p.table);
      var t :| t in levels[l] && t.file.number == p.table;
      assert p.entry in Held(v, p.table) && IsTable(v, t) && p.entry in Elements(t.entries);
      assert StoredAt(levels, l, t, p);
    }
  }

  /** Every version has its table files. */
  lemma {:induction false} HasFiles(v: Version) returns (levels: seq<seq<Table>>)
    requires Leveled(v) && Comparable(v)
    ensures |levels| == NUM_LEVELS && Filed(levels) && Contains(v, levels) && Lists(v, levels)
  {
    levels := LevelsOf(v, NUM_LEVELS);
    ListsAreFiled(v, levels);
    ListsContain(v, levels);
  }

  // ---------- In the database ----------

  lemma {:induction false} CurrentClean(d: Db)
    requires Ok(d) && Tidy(d)
    ensures Clean(d.version) && AgeOrdered(d.version)
  {
    RecordBounds(d.history, Ops(d), d.inserted);
    forall p | p in d.version ensures p.entry in Record(d) {
      assert p.entry in EntriesIn(d.version);
      assert p.entry in All(Mem(d), Imm(d), d.version);
    }
  }

  /** Whatever a reader has pinned in a run is a list of files for each level: GetIsExact speaks of every Get. */
  lemma {:induction false} ReaderHasFiles(d: Db, r: Read) returns (levels: seq<seq<Table>>)
    requires Ok(d) && Tidy(d) && r in d.readers
    ensures |levels| == NUM_LEVELS && Filed(levels) && Contains(r.version, levels)
  {
    PinnedClean(d, r);
    levels := HasFiles(r.version);
  }

  ghost function FileLists(levels: seq<seq<Table>>): (files: seq<seq<File>>)
    ensures |files| == |levels| && forall l :: 0 <= l < |levels| ==> files[l] == FilesOf(levels[l])
  {
    seq(|levels|, l requires 0 <= l < |levels| => FilesOf(levels[l]))
  }

  /** So is the current version, and what is said of the choice of inputs is said of every one. */
  lemma {:induction false} CurrentIsOrderly(d: Db) returns (levels: seq<seq<Table>>)
    requires Ok(d) && Tidy(d)
    ensures |levels| == NUM_LEVELS && Filed(levels) && Contains(d.version, levels) && Orderly(FileLists(levels), d.version)
  {
    CurrentClean(d);
    levels := HasFiles(d.version);
    FilesAreShaped(d.version, levels);
    FilesDescribe(d.version, levels);
  }

  lemma {:induction false} FilesAreShaped(v: Version, levels: seq<seq<Table>>)
    requires Filed(levels) && Contains(v, levels) && Clean(v)
    ensures Shape(FileLists(levels))
  {
    var files := FileLists(levels);
    forall l: nat | 1 <= l < |levels| ensures Sane(files[l]) && Disjoint(files[l]) {
      ListDisjoint(v, levels, l);
    }
    forall l: nat, f: File | l < |levels| && f in files[l] ensures !Before(f.largest, f.smallest) {
      var t := TableWith(levels, l, f);
    }
  }

  lemma {:induction false} TableWith(levels: seq<seq<Table>>, l: nat, f: File) returns (t: Table)
    requires Filed(levels) && l < |levels| && f in FilesOf(levels[l])
    ensures At(levels, l, t) && t.file == f && TableOk(t) && !Before(f.largest, f.smallest)
  {
    var i :| 0 <= i < |levels[l]| && FilesOf(levels[l])[i] == f;
    t := levels[l][i];
    assert At(levels, l, t);
  }

  lemma {:induction false} FilesDescribe(v: Version, levels: seq<seq<Table>>)
    requires Filed(levels) && Contains(v, levels)
    ensures Describes(FileLists(levels), v)
  {
    FileEnds(v, levels, FileLists(levels));
    FilesStore(v, levels, FileLists(levels));
    FileNumbers(levels, FileLists(levels));
  }

  lemma {:induction false} FileEnds(v: Version, levels: seq<seq<Table>>, files: seq<seq<File>>)
    requires Filed(levels) && Contains(v, levels) && files == FileLists(levels)
    ensures EndsStored(files, v)
  {
    forall l: nat, f | InLevel(files, l, f) ensures End(f.smallest, l, f) in v && End(f.largest, l, f) in v {
      var t := TableWith(levels, l, f);
      StoredInVersion(v, levels, l, t, f.smallest);
      StoredInVersion(v, levels, l, t, f.largest);
    }
  }

  lemma {:induction false} FilesStore(v: Version, levels: seq<seq<Table>>, files: seq<seq<File>>)
    requires Filed(levels) && Contains(v, levels) && files == FileLists(levels)
    ensures forall p {:trigger Stored(files, p)} :: p in v ==> Stored(files, p)
  {
    forall p | p in v ensures Stored(files, p) {
      assert Somewhere(levels, p);
      var l: nat, t :| StoredAt(levels, l, t, p);
      StoredHolds(levels, files, l, t, p);
    }
  }

  lemma {:induction false} StoredHolds(levels: seq<seq<Table>>, files: seq<seq<File>>, l: nat, t: Table, p: Placed)
    requires Filed(levels) && StoredAt(levels, l, t, p) && files == FileLists(levels)
    ensures Holds(files, l, t.file, p)
  {
    assert At(levels, l, t);
    InTable(t, p.entry);
    FileListed(levels, l, t);
  }

  lemma FileListed(levels: seq<seq<Table>>, l: nat, t: Table)
    requires At(levels, l, t)
    ensures t.file in FilesOf(levels[l])
  {
    var i :| 0 <= i < |levels[l]| && levels[l][i] == t;
    assert FilesOf(levels[l])[i] == t.file;
  }

  lemma InTable(t: Table, e: Entry)
    requires TableOk(t) && e in t.entries
    ensures !Before(e, t.file.smallest) && !Before(t.file.largest, e)
  {
  }

  lemma {:induction false} FileNumbers(levels: seq<seq<Table>>, files: seq<seq<File>>)
    requires Filed(levels) && files == FileLists(levels)
    ensures NumbersTell(files)
  {
    forall l: nat, f, m: nat, g | InLevel(files, l, f) && InLevel(files, m, g) && f.number == g.number ensures l == m && f == g {
      var t := TableWith(levels, l, f);
      var u := TableWith(levels, m, g);
    }
  }

  /** What the code chooses from the files of the current version may be started as a compaction, in
      the middle of whatever else goes on, exactly if no boundary table is left at the output level. */
  lemma ChosenStarts(d: Db, levels: seq<seq<Table>>, level: nat, inputs0: seq<File>, inputs1: seq<File>, j: Job)
    requires |levels| == NUM_LEVELS && Orderly(FileLists(levels), d.version) && d.running == None
    requires level + 1 < NUM_LEVELS && Chosen(FileLists(levels), level, inputs0, inputs1)
    requires j.inputs == Taken(d.version, inputs0 + inputs1) && j.rule.level == level && OnRecord(d.version, j.rule)
    requires Sorted(j.input) && Elements(j.input) == EntriesIn(j.inputs) && j.rule.smallestSnapshot == SmallestSnapshot(d)
    ensures Enabled(d, StartCompaction(j)) <==> !BoundaryLeft(FilesOf(levels[level + 1]), inputs1)
  {
    ChosenFits(FileLists(levels), level, d.version, inputs0, inputs1, j);
    StartsIfFits(d, j);
  }

  lemma StartsIfFits(d: Db, j: Job)
    requires Aside(d.version, j.inputs, j.rule.level) && d.running == None
    requires j.rule.smallestSnapshot == SmallestSnapshot(d) && j.rule.level + 1 < NUM_LEVELS
    ensures Enabled(d, StartCompaction(j)) <==> JobFits(d.version, j)
  {
  }

  /** A single chosen table that meets none below may be moved. */
  lemma ChosenMovesNow(d: Db, levels: seq<seq<Table>>, level: nat, f: File)
    requires |levels| == NUM_LEVELS && Orderly(FileLists(levels), d.version) && d.running == None
    requires level + 1 < NUM_LEVELS && Chosen(FileLists(levels), level, [f], [])
    ensures Enabled(d, MoveTable(Taken(d.version, [f] + []), level))
  {
    ChosenMoves(FileLists(levels), level, d.version, f);
  }
}

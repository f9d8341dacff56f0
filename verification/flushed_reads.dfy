/** What a flush in the middle of a compaction does to Get, in the terms of Get itself. */
module FlushedReads {
  import opened Entries
  import opened CompactionRules
  import opened MemTables
  import opened Layers
  import opened FileSelection
  import opened VersionSearch
  import opened VersionFiles

  /** The memtable has values of keys that the version does not have, one to a key. */
  ghost predicate NewValues(v: Version, imm: set<Entry>) {
    && (forall e :: e in imm ==> e.kind == VALUE && forall p :: p in v ==> p.entry.key != e.key)
    && forall e, f :: e in imm && f in imm && e.key == f.key ==> e == f
  }

  /** A compaction is under way, and a memtable of such values is flushed. */
  ghost predicate Setting(v: Version, j: Job, imm: set<Entry>, depth: int, number: nat) {
    && Clean(v) && Leveled(v) && JobTakes(v, j) && KeptAside(v, j) && j.rule.level + 1 < NUM_LEVELS
    && MayFlushTo(v, imm, depth, number) && depth < NUM_LEVELS && NewValues(v, imm)
  }

  /** Whatever the lists of files are, a Get answers what a search of everything would. */
  ghost predicate GetIsRight(v: Version) {
    forall levels, u, s, a ::
      |levels| == NUM_LEVELS && Filed(levels) && Contains(v, levels) && Searched(levels, u, s, a) ==> VersionAnswers(v, u, s, a)
  }

  ghost function After(v: Version, j: Job, imm: set<Entry>, depth: int, number: nat, numbers: seq<nat>): Version
    requires |numbers| == |Kept(j.input, |j.input|, j.rule)|
  {
    Installed(Flushed(v, imm, depth, number), j, numbers)
  }

  /** Get stays right, however the outputs are cut, if and only if the memtable does not go between them. */
  lemma {:induction false} GetStaysRight(v: Version, j: Job, imm: set<Entry>, depth: int, number: nat)
    requires Setting(v, j, imm, depth, number)
    ensures (forall numbers :: Cuts(Flushed(v, imm, depth, number), j, numbers) ==> GetIsRight(After(v, j, imm, depth, number, numbers)))
            <==> !FlushedInside(imm, depth, j)
  {
    if FlushedInside(imm, depth, j) {
      GetGoesWrong(v, j, imm, depth, number);
    } else {
      forall numbers | Cuts(Flushed(v, imm, depth, number), j, numbers) ensures GetIsRight(After(v, j, imm, depth, number, numbers)) {
        AfterClean(v, j, imm, depth, number, numbers);
        FlushBesideInstall(v, j, imm, depth, number, numbers);
        CleanIsRight(After(v, j, imm, depth, number, numbers));
      }
    }
  }

  lemma {:induction false} CleanIsRight(v: Version)
    requires Clean(v)
    ensures GetIsRight(v)
  {
    forall levels, u, s, a | |levels| == NUM_LEVELS && Filed(levels) && Contains(v, levels) && Searched(levels, u, s, a)
      ensures VersionAnswers(v, u, s, a)
    {
      SearchFindsFirst(v, levels, u, s, a);
    }
  }

  /** Entries are in order, and tables at their levels, whether or not the tables are apart. */
  lemma {:induction false} AfterClean(v: Version, j: Job, imm: set<Entry>, depth: int, number: nat, numbers: seq<nat>)
    requires Setting(v, j, imm, depth, number) && Cuts(Flushed(v, imm, depth, number), j, numbers)
    ensures Comparable(After(v, j, imm, depth, number, numbers)) && Leveled(After(v, j, imm, depth, number, numbers))
  {
    var w := Flushed(v, imm, depth, number);
    FlushedComparable(v, imm, depth, number);
    JobStillTakes(v, j, imm, depth, number);
    FlushKeepsLeveled(v, imm, depth, number);
    InstallKeepsLeveled(w, j, numbers);
    InstallKeepsSingle(w, j, numbers);
    LosesOnly(w, j, numbers);
  }

  lemma {:induction false} FlushedComparable(v: Version, imm: set<Entry>, depth: int, number: nat)
    requires Clean(v) && NewValues(v, imm)
    ensures Comparable(Flushed(v, imm, depth, number))
  {
    var w := Flushed(v, imm, depth, number);
    FlushedEntries(v, imm, depth, number);
    forall p | p in v ensures p.entry !in imm && p.entry in EntriesIn(v) {
    }
    forall a, b | a in EntriesIn(w) && b in EntriesIn(w) && a.key == b.key && a.sequence == b.sequence && Parses(a) && Parses(b)
      ensures a == b
    {
      assert a in EntriesIn(v) || a in imm;
      assert b in EntriesIn(v) || b in imm;
    }
  }

  lemma {:induction false} JobStillTakes(v: Version, j: Job, imm: set<Entry>, depth: int, number: nat)
    requires JobTakes(v, j) && MayFlushTo(v, imm, depth, number)
    ensures JobTakes(Flushed(v, imm, depth, number), j)
  {
  }

  lemma {:induction false} LosesOnly(w: Version, j: Job, numbers: seq<nat>)
    requires JobTakes(w, j) && Cuts(w, j, numbers) && Comparable(w) && Single(Installed(w, j, numbers))
    ensures Comparable(Installed(w, j, numbers))
  {
    var W := Installed(w, j, numbers);
    InstallLosesOnly(w, j, numbers);
    forall p | p in W ensures Parses(p.entry) {
      assert p.entry in EntriesIn(W) && p.entry in EntriesIn(w);
    }
  }

  // ---------- When it goes wrong ----------

  /** What is in the version when the outputs are one table, number n. */
  ghost predicate OneOutput(v: Version, j: Job, imm: set<Entry>, depth: int, number: nat, n: nat, W: Version) {
    && n != number && (forall p :: p in v ==> p.table != n)
    && forall p :: p in W <==>
         || p in v - j.inputs || (p.entry in imm && p.depth == depth && p.table == number)
         || (p.entry in Kept(j.input, |j.input|, j.rule) && p.depth == j.rule.level + 1 && p.table == n)
  }

  lemma {:induction false} CutAsOne(v: Version, j: Job, imm: set<Entry>, depth: int, number: nat, e: Entry) returns (n: nat, numbers: seq<nat>)
    requires Setting(v, j, imm, depth, number) && e in imm
    ensures Cuts(Flushed(v, imm, depth, number), j, numbers)
    ensures OneOutput(v, j, imm, depth, number, n, After(v, j, imm, depth, number, numbers))
  {
    var w, K := Flushed(v, imm, depth, number), Kept(j.input, |j.input|, j.rule);
    n := Unused(w);
    numbers := seq(|K|, _ => n);
    assert Placed(e, depth, number) in w;
    forall p ensures p in Outputs(j, numbers) <==> p.entry in K && p.depth == j.rule.level + 1 && p.table == n {
      OneTableOut(j, numbers, n, p);
    }
    forall p ensures p in w <==> p in v || (p.entry in imm && p.depth == depth && p.table == number) {
      assert p.entry in imm && p.depth == depth && p.table == number ==> p == Placed(p.entry, depth, number);
    }
  }

  lemma {:induction false} OneTableOut(j: Job, numbers: seq<nat>, n: nat, p: Placed)
    requires |numbers| == |Kept(j.input, |j.input|, j.rule)| && forall i :: 0 <= i < |numbers| ==> numbers[i] == n
    ensures p in Outputs(j, numbers) <==> p.entry in Kept(j.input, |j.input|, j.rule) && p.depth == j.rule.level + 1 && p.table == n
  {
    var K := Kept(j.input, |j.input|, j.rule);
    if p.entry in K && p.depth == j.rule.level + 1 && p.table == n {
      var i :| 0 <= i < |K| && K[i] == p.entry;
      assert p == Placed(K[i], j.rule.level + 1, numbers[i]);
    }
  }

  /** No other entry has the key. */
  lemma {:induction false} Alone(v: Version, j: Job, imm: set<Entry>, depth: int, number: nat, n: nat, W: Version, e: Entry, p: Placed)
    requires Setting(v, j, imm, depth, number) && OneOutput(v, j, imm, depth, number, n, W) && e in imm
    requires p in W && p.entry.key == e.key
    ensures p.entry == e && p.table == number && p.depth == depth
  {
    if p.entry in Kept(j.input, |j.input|, j.rule) && p.table == n {
      var q := InputOf(j, p.entry);
    }
  }

  lemma {:induction false} NotFoundIsWrong(v: Version, j: Job, imm: set<Entry>, depth: int, number: nat, n: nat, W: Version, e: Entry)
    requires Setting(v, j, imm, depth, number) && OneOutput(v, j, imm, depth, number, n, W) && e in imm
    ensures !VersionAnswers(W, e.key, e.sequence, NotFound)
  {
    assert Placed(e, depth, number) in W && Candidate(e, e.key, e.sequence);
    forall p | First(W, e.key, e.sequence, p) ensures AnswerOf(p.entry) != NotFound {
      Alone(v, j, imm, depth, number, n, W, e, p);
    }
  }

  /** A table without the key does not know it. */
  lemma {:induction false} KnowsNothing(t: Table, u: UserKey, s: nat)
    requires forall e :: e in t.entries ==> e.key != u
    ensures TableAnswer(t.entries, u, s) == Unknown
  {
  }

  lemma {:induction false} OtherTables(v: Version, j: Job, imm: set<Entry>, depth: int, number: nat, n: nat, W: Version, e: Entry, t: Table)
    requires Setting(v, j, imm, depth, number) && OneOutput(v, j, imm, depth, number, n, W) && e in imm
    requires IsTable(W, t) && t.file.number != number
    ensures TableAnswer(t.entries, e.key, e.sequence) == Unknown
  {
    forall x | x in t.entries ensures x.key != e.key {
      assert x in Elements(t.entries);
      var p :| p in W && p.table == t.file.number && p.entry == x;
      if x.key == e.key {
        Alone(v, j, imm, depth, number, n, W, e, p);
      }
    }
    KnowsNothing(t, e.key, e.sequence);
  }

  /** The binary search ends at table k or before, if from there on none ends before the key. */
  lemma {:induction false} FoundAtMost(files: seq<File>, key: Entry, left: nat, right: nat, k: nat)
    requires left <= k < right <= |files| && forall i :: k <= i < right ==> !Before(files[i].largest, key)
    ensures FindFileIn(files, key, left, right) <= k
    decreases right - left
  {
    var mid := (left + right) / 2;
    if Before(files[mid].largest, key) {
      FoundAtMost(files, key, mid + 1, right, k);
    } else if mid > k {
      FoundAtMost(files, key, left, mid, k);
    }
  }

  /** The flushed entry, between kept ones before and behind. */
  ghost predicate Inside(j: Job, imm: set<Entry>, depth: int, a: Entry, e: Entry, b: Entry) {
    && depth == j.rule.level + 1 && a in Kept(j.input, |j.input|, j.rule) && b in Kept(j.input, |j.input|, j.rule)
    && e in imm && Before(a, e) && Before(e, b)
  }

  /** All of the memtable lies behind the kept entry that is before some of it. */
  lemma {:induction false} AllBehind(v: Version, j: Job, imm: set<Entry>, depth: int, number: nat, a: Entry, e: Entry, b: Entry, f: Entry)
    requires Setting(v, j, imm, depth, number) && Inside(j, imm, depth, a, e, b) && f in imm
    ensures Before(a, f)
  {
    var p := InputOf(j, a);
    assert !Overlap(p, p, f, e);
  }

  /** No table from the output on ends before the flushed entry. */
  lemma {:induction false} EndsBehind(v: Version, j: Job, imm: set<Entry>, depth: int, number: nat, n: nat, W: Version,
                                      a: Entry, e: Entry, b: Entry, t: Table, u: Table)
    requires Setting(v, j, imm, depth, number) && OneOutput(v, j, imm, depth, number, n, W) && Inside(j, imm, depth, a, e, b)
    requires IsTable(W, t) && t.file.number == n && IsTable(W, u) && (exists p :: p in W && p.table == u.file.number && p.depth == depth)
    requires u == t || (Before(t.file.smallest, u.file.smallest) && u.file.number != n) || u.file.number == number
    requires Leveled(W)
    ensures !Before(u.file.largest, e)
  {
    if u.file.number == n {
      EntryOf(W, t, Placed(b, depth, n));
      InTable(t, b);
      SameTable(W, u, t);
    } else if u.file.number == number {
      EntryOf(W, u, Placed(e, depth, number));
      InTable(u, e);
    } else if Before(u.file.largest, e) {
      var p := EndIn(W, t, t.file.smallest);
      var q := EndIn(W, u, u.file.smallest);
      var r := EndIn(W, u, u.file.largest);
      assert Reaches(t.file.smallest, q, r, b);
    }
  }

  lemma {:induction false} SameTable(W: Version, t: Table, u: Table)
    requires IsTable(W, t) && IsTable(W, u) && t.file.number == u.file.number
    ensures Elements(t.entries) == Elements(u.entries)
  {
  }

  lemma {:induction false} EntryOf(W: Version, t: Table, p: Placed)
    requires IsTable(W, t) && p in W && p.table == t.file.number
    ensures p.entry in t.entries
  {
    assert p.entry in Held(W, t.file.number) && p.entry in Elements(t.entries);
  }

  /** An entry of the table, in the version. */
  lemma {:induction false} EndIn(W: Version, t: Table, e: Entry) returns (p: Placed)
    requires IsTable(W, t) && e in t.entries
    ensures p in W && p.entry == e && p.table == t.file.number
  {
    assert e in Elements(t.entries) && e in Held(W, t.file.number);
    p :| p in W && p.table == t.file.number && p.entry == e;
  }

  /** The table of a level that is read instead of the flushed one, or none. */
  lemma {:induction false} ReadsAnother(v: Version, j: Job, imm: set<Entry>, depth: int, number: nat, n: nat, W: Version,
                                        a: Entry, e: Entry, b: Entry, tables: seq<Table>, k: nat)
    requires Setting(v, j, imm, depth, number) && OneOutput(v, j, imm, depth, number, n, W) && Inside(j, imm, depth, a, e, b)
    requires depth > 0 && Lists1(W, depth, tables) && Leveled(W) && k < |tables| && tables[k].file.number == n
    ensures var index := FindFileIn(FilesOf(tables), LookupKey(e.key, e.sequence), 0, |tables|);
      index <= k && IsTable(W, tables[index]) && tables[index].file.number != number
  {
    var files, key := FilesOf(tables), LookupKey(e.key, e.sequence);
    forall i | 0 <= i < |tables| ensures IsTable(W, tables[i]) {
      assert tables[i] in tables;
    }
    forall i | k <= i < |tables| ensures !Before(files[i].largest, key) {
      NotBehind(v, j, imm, depth, number, n, W, a, e, b, tables, k, i);
    }
    FoundAtMost(files, key, 0, |tables|, k);
    forall i | 0 <= i <= k ensures tables[i].file.number != number {
      NotTheFlushed(v, j, imm, depth, number, n, W, a, e, b, tables, k, i);
    }
  }

  lemma {:induction false} NotBehind(v: Version, j: Job, imm: set<Entry>, depth: int, number: nat, n: nat, W: Version,
                                     a: Entry, e: Entry, b: Entry, tables: seq<Table>, k: nat, i: nat)
    requires Setting(v, j, imm, depth, number) && OneOutput(v, j, imm, depth, number, n, W) && Inside(j, imm, depth, a, e, b)
    requires depth > 0 && Lists1(W, depth, tables) && Leveled(W) && k <= i < |tables| && tables[k].file.number == n
    ensures !Before(tables[i].file.largest, LookupKey(e.key, e.sequence))
  {
    assert tables[i] in tables && tables[k] in tables;
    var p :| p in W && LevelOf(p) == depth && p.table == tables[i].file.number;
    EndsBehind(v, j, imm, depth, number, n, W, a, e, b, tables[k], tables[i]);
  }

  lemma {:induction false} NotTheFlushed(v: Version, j: Job, imm: set<Entry>, depth: int, number: nat, n: nat, W: Version,
                                         a: Entry, e: Entry, b: Entry, tables: seq<Table>, k: nat, i: nat)
    requires Setting(v, j, imm, depth, number) && OneOutput(v, j, imm, depth, number, n, W) && Inside(j, imm, depth, a, e, b)
    requires depth > 0 && Lists1(W, depth, tables) && i <= k < |tables| && tables[k].file.number == n
    ensures tables[i].file.number != number
  {
    assert tables[i] in tables && tables[k] in tables;
    EntryOf(W, tables[k], Placed(a, depth, n));
    InTable(tables[k], a);
    if tables[i].file.number == number {
      var p := EndIn(W, tables[i], tables[i].file.smallest);
      AllBehind(v, j, imm, depth, number, a, e, b, p.entry);
    }
  }

  /** No level has an answer. */
  lemma {:induction false} LevelIsSilent(v: Version, j: Job, imm: set<Entry>, depth: int, number: nat, n: nat, W: Version,
                                         a: Entry, e: Entry, b: Entry, levels: seq<seq<Table>>, l: nat)
    requires Setting(v, j, imm, depth, number) && OneOutput(v, j, imm, depth, number, n, W) && Inside(j, imm, depth, a, e, b)
    requires depth > 0 && l < |levels| && Lists1(W, l, levels[l]) && Leveled(W)
    ensures AnswersAt(levels, l, e.key, e.sequence, Unknown)
  {
    var tables, u, s := levels[l], e.key, e.sequence;
    var index := FindFileIn(FilesOf(tables), LookupKey(u, s), 0, |tables|);
    if l == depth {
      assert Placed(a, depth, n) in W && n in NumbersAt(W, l) && HasNumber(tables, n);
      var k :| 0 <= k < |tables| && tables[k].file.number == n;
      ReadsAnother(v, j, imm, depth, number, n, W, a, e, b, tables, k);
      OtherTables(v, j, imm, depth, number, n, W, e, tables[index]);
    } else {
      forall t | t in tables ensures TableAnswer(t.entries, u, s) == Unknown {
        var p :| p in W && LevelOf(p) == l && p.table == t.file.number;
        assert Placed(e, depth, number) in W;
        OtherTables(v, j, imm, depth, number, n, W, e, t);
      }
    }
  }

  /** Cut as one table, the outputs hide the flushed table from the binary search. */
  lemma {:induction false} GetGoesWrong(v: Version, j: Job, imm: set<Entry>, depth: int, number: nat)
    requires Setting(v, j, imm, depth, number) && FlushedInside(imm, depth, j)
    ensures exists numbers :: Cuts(Flushed(v, imm, depth, number), j, numbers) && !GetIsRight(After(v, j, imm, depth, number, numbers))
  {
    var K := Kept(j.input, |j.input|, j.rule);
    var i, e, k :| 0 <= i < k < |K| && e in imm && Between3(K[i], e, K[k]);
    var n, numbers := CutAsOne(v, j, imm, depth, number, e);
    var W := After(v, j, imm, depth, number, numbers);
    AfterClean(v, j, imm, depth, number, numbers);
    var levels := HasFiles(W);
    forall l: nat | l < |levels| ensures AnswersAt(levels, l, e.key, e.sequence, Unknown) {
      assert Lists1(W, l, levels[l]);
      LevelIsSilent(v, j, imm, depth, number, n, W, K[i], e, K[k], levels, l);
    }
    assert Searched(levels, e.key, e.sequence, NotFound);
    NotFoundIsWrong(v, j, imm, depth, number, n, W, e);
    assert !GetIsRight(W);
  }
}

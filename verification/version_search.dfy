/** Version::Get: which tables of a version it looks into, in which order, and when that is enough. */
module VersionSearch {
  import opened Entries
  import opened Options
  import opened CompactionRules
  import opened Layers
  import opened MemTables
  import opened FileSelection
  import opened ChosenJobs

  /** A table file with what it holds. */
  datatype Table = Table(file: File, entries: seq<Entry>)

  function FilesOf(tables: seq<Table>): (files: seq<File>)
    ensures |files| == |tables| && forall i :: 0 <= i < |tables| ==> files[i] == tables[i].file
  {
    if tables == [] then [] else [tables[0].file] + FilesOf(tables[1..])
  }

  /** The file's ends are those of its entries. */
  ghost predicate TableOk(t: Table) {
    && t.entries != [] && Sorted(t.entries) && (forall e :: e in t.entries ==> Parses(e))
    && t.file.smallest == t.entries[0] && t.file.largest == t.entries[|t.entries| - 1]
  }

  ghost predicate At(levels: seq<seq<Table>>, l: nat, t: Table) {
    l < |levels| && t in levels[l]
  }

  /** Tables are known by their numbers, and above level 0 a list is in the order of the smallest keys. */
  ghost predicate Filed(levels: seq<seq<Table>>) {
    && (forall l, t {:trigger At(levels, l, t)} :: At(levels, l, t) ==> TableOk(t))
    && (forall l, t, m, u {:trigger At(levels, l, t), At(levels, m, u)} ::
          At(levels, l, t) && At(levels, m, u) && t.file.number == u.file.number ==> l == m && t == u)
    && forall l, i, k :: 1 <= l < |levels| && 0 <= i < k < |levels[l]| ==> Before(levels[l][i].file.smallest, levels[l][k].file.smallest)
  }

  ghost predicate StoredAt(levels: seq<seq<Table>>, l: nat, t: Table, p: Placed) {
    At(levels, l, t) && p.entry in t.entries && p.table == t.file.number && p.depth == DepthOf(l, t.file.number)
  }

  /** The version is what the tables hold. */
  ghost predicate Contains(v: Version, levels: seq<seq<Table>>) {
    && (forall l, t, p {:trigger StoredAt(levels, l, t, p)} :: StoredAt(levels, l, t, p) ==> p in v)
    && forall p {:trigger Somewhere(levels, p)} :: p in v ==> Somewhere(levels, p)
  }

  ghost predicate Somewhere(levels: seq<seq<Table>>, p: Placed) {
    exists l, t :: StoredAt(levels, l, t, p)
  }

  // ---------- One table ----------

  /** The first entry at or after the target. */
  function SeekIn(entries: seq<Entry>, target: Entry): (k: nat)
    ensures k <= |entries| && (forall i :: 0 <= i < k ==> Before(entries[i], target))
    ensures k < |entries| ==> !Before(entries[k], target)
  {
    if entries == [] || !Before(entries[0], target) then 0 else 1 + SeekIn(entries[1..], target)
  }

  function LookupKey(u: UserKey, s: nat): Entry {
    Entry(u, s, VALUE, "")
  }

  /** What SaveValue makes of the entry that a seek in the table finds. */
  function TableAnswer(entries: seq<Entry>, u: UserKey, s: nat): Answer {
    var k := SeekIn(entries, LookupKey(u, s));
    if k < |entries| && entries[k].key == u then AnswerOf(entries[k]) else Unknown
  }

  lemma TableAnswers(entries: seq<Entry>, u: UserKey, s: nat)
    requires Sorted(entries) && forall e :: e in entries ==> Parses(e)
    ensures MemAnswers(Elements(entries), u, s, TableAnswer(entries, u, s))
  {
    var k := SeekIn(entries, LookupKey(u, s));
    assert forall j :: k < j < |entries| ==> Before(entries[k], entries[j]);
    if k < |entries| && entries[k].key == u {
      assert Newest(Elements(entries), u, s, entries[k]);
    }
  }

  method TableGet(entries: seq<Entry>, u: UserKey, s: nat) returns (answer: Answer)
    ensures answer == TableAnswer(entries, u, s)
  {
    var target := LookupKey(u, s);
    var k := 0;
    while k < |entries| && Before(entries[k], target)
      invariant 0 <= k <= |entries| && SeekIn(entries, target) == k + SeekIn(entries[k..], target)
    {
      assert entries[k..][1..] == entries[k + 1..];
      k := k + 1;
    }
    answer := if k < |entries| && entries[k].key == u then AnswerOf(entries[k]) else Unknown;
  }

  // ---------- One level ----------

  /** A deeper level: only the first table that does not end before the lookup key is read, if it does
      not begin behind the user key. */
  function LevelAnswer(tables: seq<Table>, u: UserKey, s: nat): Answer {
    var index := FindFileIn(FilesOf(tables), LookupKey(u, s), 0, |tables|);
    if index < |tables| && !(u < tables[index].file.smallest.key) then TableAnswer(tables[index].entries, u, s) else Unknown
  }

  predicate SpansKey(t: Table, u: UserKey) {
    t.file.smallest.key <= u <= t.file.largest.key
  }

  /** Level 0: of the tables whose range has the key, the newest that knows it. */
  ghost predicate ZeroAnswers(tables: seq<Table>, u: UserKey, s: nat, a: Answer) {
    if a == Unknown then forall t :: t in tables && SpansKey(t, u) ==> TableAnswer(t.entries, u, s) == Unknown
    else exists t :: NewestKnows(tables, u, s, t, a)
  }

  ghost predicate NewestKnows(tables: seq<Table>, u: UserKey, s: nat, t: Table, a: Answer) {
    && t in tables && SpansKey(t, u) && TableAnswer(t.entries, u, s) == a
    && forall o :: o in tables && SpansKey(o, u) && o.file.number > t.file.number ==> TableAnswer(o.entries, u, s) == Unknown
  }

  ghost predicate AnswersAt(levels: seq<seq<Table>>, l: nat, u: UserKey, s: nat, a: Answer)
    requires l < |levels|
  {
    if l == 0 then ZeroAnswers(levels[0], u, s, a) else a == LevelAnswer(levels[l], u, s)
  }

  /** Level after level, until one answers. */
  ghost predicate Searched(levels: seq<seq<Table>>, u: UserKey, s: nat, a: Answer) {
    || (a == NotFound && forall l :: 0 <= l < |levels| ==> AnswersAt(levels, l, u, s, Unknown))
    || (a != Unknown && exists l :: 0 <= l < |levels| && FirstToAnswer(levels, l, u, s, a))
  }

  ghost predicate FirstToAnswer(levels: seq<seq<Table>>, l: nat, u: UserKey, s: nat, a: Answer)
    requires l < |levels|
  {
    AnswersAt(levels, l, u, s, a) && forall m :: 0 <= m < l ==> AnswersAt(levels, m, u, s, Unknown)
  }

  // ---------- The loops ----------

  ghost predicate NewestFirst(tables: seq<Table>) {
    forall i, k :: 0 <= i < k < |tables| ==> tables[i].file.number >= tables[k].file.number
  }

  /** Puts a table in its place among those sorted already. */
  method InsertByNumber(sorted: seq<Table>, t: Table) returns (more: seq<Table>)
    requires NewestFirst(sorted)
    ensures NewestFirst(more) && forall o :: o in more <==> o in sorted || o == t
  {
    var k := 0;
    while k < |sorted| && sorted[k].file.number > t.file.number
      invariant 0 <= k <= |sorted| && forall i :: 0 <= i < k ==> sorted[i].file.number > t.file.number
    {
      k := k + 1;
    }
    more := sorted[..k] + [t] + sorted[k..];
    assert sorted == sorted[..k] + sorted[k..];
  }

  method ZeroGet(tables: seq<Table>, u: UserKey, s: nat) returns (answer: Answer)
    ensures ZeroAnswers(tables, u, s, answer)
  {
    var tmp: seq<Table> := [];
    var i := 0;
    while i < |tables|
      invariant 0 <= i <= |tables| && NewestFirst(tmp)
      invariant forall t :: t in tmp <==> t in tables[..i] && SpansKey(t, u)
    {
      if tables[i].file.smallest.key <= u <= tables[i].file.largest.key {
        tmp := InsertByNumber(tmp, tables[i]);
      }
      assert tables[..i + 1] == tables[..i] + [tables[i]];
      i := i + 1;
    }
    assert tables[..i] == tables;
    i := 0;
    while i < |tmp|
      invariant 0 <= i <= |tmp| && forall k :: 0 <= k < i ==> TableAnswer(tmp[k].entries, u, s) == Unknown
    {
      answer := TableGet(tmp[i].entries, u, s);
      if answer != Unknown {
        assert NewestKnows(tables, u, s, tmp[i], answer);
        return;
      }
      i := i + 1;
    }
    answer := Unknown;
  }

  method LevelGet(tables: seq<Table>, u: UserKey, s: nat) returns (answer: Answer)
    ensures answer == LevelAnswer(tables, u, s)
  {
    var index := FindFile(FilesOf(tables), LookupKey(u, s));
    if index >= |tables| {
      answer := Unknown;
    } else if u < tables[index].file.smallest.key {
      answer := Unknown;
    } else {
      answer := TableGet(tables[index].entries, u, s);
    }
  }

  method VersionGet(levels: seq<seq<Table>>, u: UserKey, s: nat) returns (answer: Answer)
    ensures Searched(levels, u, s, answer)
  {
    var l := 0;
    while l < |levels|
      invariant 0 <= l <= |levels| && forall m :: 0 <= m < l ==> AnswersAt(levels, m, u, s, Unknown)
    {
      if l == 0 {
        answer := ZeroGet(levels[0], u, s);
      } else {
        answer := LevelGet(levels[l], u, s);
      }
      if answer != Unknown {
        assert FirstToAnswer(levels, l, u, s, answer);
        return;
      }
      l := l + 1;
    }
    answer := NotFound;
  }

  // ---------- When that is enough ----------

  /** What every version of the database is, unless a flush has gone into a compaction. */
  ghost predicate Clean(v: Version) {
    Apart(v) && Single(v) && Distinct(EntriesIn(v)) && forall p :: p in v ==> Parses(p.entry)
  }

  lemma StoredInVersion(v: Version, levels: seq<seq<Table>>, l: nat, t: Table, e: Entry)
    requires Contains(v, levels) && At(levels, l, t) && e in t.entries
    ensures Placed(e, DepthOf(l, t.file.number), t.file.number) in v
  {
    assert StoredAt(levels, l, t, Placed(e, DepthOf(l, t.file.number), t.file.number));
  }

  /** Tables that the version has apart lie one after the other in the list. */
  lemma ListDisjoint(v: Version, levels: seq<seq<Table>>, l: nat)
    requires Filed(levels) && Contains(v, levels) && Clean(v) && 1 <= l < |levels|
    ensures Sane(FilesOf(levels[l])) && Disjoint(FilesOf(levels[l]))
  {
    var files := FilesOf(levels[l]);
    forall i | 0 <= i < |files| ensures TableOk(levels[l][i]) && !Before(files[i].largest, files[i].smallest) {
      assert At(levels, l, levels[l][i]);
    }
    forall i, k | 0 <= i < k < |files| ensures Before(files[i].largest, files[k].smallest) {
      ListOrdered(v, levels, l, i, k);
    }
  }

  lemma ListOrdered(v: Version, levels: seq<seq<Table>>, l: nat, i: nat, k: nat)
    requires Filed(levels) && Contains(v, levels) && Clean(v) && 1 <= l < |levels| && i < k < |levels[l]|
    ensures Before(levels[l][i].file.largest, levels[l][k].file.smallest)
  {
    var t, o := levels[l][i], levels[l][k];
    assert At(levels, l, t) && At(levels, l, o);
    StoredInVersion(v, levels, l, t, t.file.smallest);
    StoredInVersion(v, levels, l, t, t.file.largest);
    StoredInVersion(v, levels, l, o, o.file.smallest);
    var p, q, r := Placed(t.file.smallest, l, t.file.number), Placed(o.file.smallest, l, o.file.number), Placed(t.file.largest, l, t.file.number);
    assert !Splits(p, q, r);
    Ordered(v, q, r);
  }

  /** At depth d no entry answers a read of u at s. */
  ghost predicate NothingAt(v: Version, d: int, u: UserKey, s: nat) {
    forall p :: p in v && p.depth == d ==> !Candidate(p.entry, u, s)
  }

  /** p answers a read of u at s among the entries of its depth. */
  ghost predicate NewestAt(v: Version, u: UserKey, s: nat, p: Placed) {
    && p in v && Candidate(p.entry, u, s)
    && forall q :: q in v && q.depth == p.depth && Candidate(q.entry, u, s) ==> q.entry.sequence <= p.entry.sequence
  }

  lemma EntryAt(v: Version, levels: seq<seq<Table>>, p: Placed) returns (l: nat, t: Table)
    requires Contains(v, levels) && p in v
    ensures StoredAt(levels, l, t, p)
  {
    assert Somewhere(levels, p);
    l, t :| StoredAt(levels, l, t, p);
  }

  /** Where FindFile leads there is a candidate no older than any of the level. */
  lemma Leading(v: Version, levels: seq<seq<Table>>, l: nat, u: UserKey, s: nat, q: Placed) returns (x: Entry)
    requires Filed(levels) && Contains(v, levels) && Clean(v) && 1 <= l < |levels|
    requires q in v && q.depth == l && Candidate(q.entry, u, s)
    ensures var index := FindFileIn(FilesOf(levels[l]), LookupKey(u, s), 0, |levels[l]|);
      index < |levels[l]| && x in levels[l][index].entries && Candidate(x, u, s) && x.sequence >= q.entry.sequence
  {
    var m, t := EntryAt(v, levels, q);
    var k :| 0 <= k < |levels[l]| && levels[l][k] == t;
    ListDisjoint(v, levels, l);
    forall t | t in levels[l] ensures TableOk(t) {
      assert At(levels, l, t);
    }
    x := LeadingAt(levels[l], k, u, s, q.entry);
  }

  lemma LeadingAt(tables: seq<Table>, k: nat, u: UserKey, s: nat, e: Entry) returns (x: Entry)
    requires (forall t :: t in tables ==> TableOk(t)) && Sane(FilesOf(tables)) && Disjoint(FilesOf(tables))
    requires k < |tables| && e in tables[k].entries && Candidate(e, u, s)
    ensures var index := FindFileIn(FilesOf(tables), LookupKey(u, s), 0, |tables|);
      index < |tables| && x in tables[index].entries && Candidate(x, u, s) && x.sequence >= e.sequence
  {
    var key := LookupKey(u, s);
    var index := FindFileIn(FilesOf(tables), key, 0, |tables|);
    Ends(tables[k], e);
    NotBeforeKey(e, tables[k].file.largest, u, s);
    FoundNoLater(FilesOf(tables), key, k);
    x := e;
    if index < k {
      x := tables[index].file.largest;
      Ends(tables[index], x);
      KeyBetween(x, tables[k].file.smallest, e, u, s);
    }
  }

  lemma FoundNoLater(files: seq<File>, key: Entry, k: nat)
    requires Sane(files) && Disjoint(files) && k < |files| && !Before(files[k].largest, key)
    ensures var index := FindFileIn(files, key, 0, |files|);
      index <= k && !Before(files[index].largest, key) && (index < k ==> Before(files[index].largest, files[k].smallest))
  {
    FindsFirst(files, key, 0, |files|);
  }

  lemma Ends(t: Table, e: Entry)
    requires TableOk(t)
    ensures t.file.smallest in t.entries && t.file.largest in t.entries
    ensures e in t.entries ==> !Before(e, t.file.smallest) && !Before(t.file.largest, e) && Parses(e)
  {
  }

  lemma AtEnds(levels: seq<seq<Table>>, l: nat, t: Table, e: Entry)
    requires Filed(levels) && At(levels, l, t)
    ensures t.file.smallest in t.entries && t.file.largest in t.entries
    ensures e in t.entries ==> !Before(e, t.file.smallest) && !Before(t.file.largest, e) && Parses(e)
    ensures Sorted(t.entries) && forall x :: x in t.entries ==> Parses(x)
  {
    assert TableOk(t);
  }

  lemma NotBeforeKey(e: Entry, largest: Entry, u: UserKey, s: nat)
    requires Candidate(e, u, s) && !Before(largest, e)
    ensures !Before(largest, LookupKey(u, s))
  {
  }

  lemma KeyBetween(x: Entry, smallest: Entry, e: Entry, u: UserKey, s: nat)
    requires Before(x, smallest) && !Before(e, smallest) && Candidate(e, u, s) && !Before(x, LookupKey(u, s)) && Parses(x)
    ensures Candidate(x, u, s) && x.sequence >= e.sequence
  {
  }

  lemma {:induction false} LevelFinds(v: Version, levels: seq<seq<Table>>, l: nat, u: UserKey, s: nat)
    requires Filed(levels) && Contains(v, levels) && Clean(v) && 1 <= l < |levels|
    ensures Finds(v, l, u, s, LevelAnswer(levels[l], u, s))
  {
    var tables := levels[l];
    var index := FindFileIn(FilesOf(tables), LookupKey(u, s), 0, |tables|);
    if index < |tables| {
      var t := tables[index];
      AtEnds(levels, l, t, t.file.smallest);
      TableAnswers(t.entries, u, s);
      forall q | q in v && q.depth == l && Candidate(q.entry, u, s)
        ensures exists x :: x in t.entries && Candidate(x, u, s) && x.sequence >= q.entry.sequence
      {
        var x := Leading(v, levels, l, u, s, q);
      }
      if u < t.file.smallest.key {
        forall x | x in t.entries ensures !Candidate(x, u, s) {
          AtEnds(levels, l, t, x);
        }
      } else if LevelAnswer(tables, u, s) != Unknown {
        var e :| Newest(Elements(t.entries), u, s, e) && LevelAnswer(tables, u, s) == AnswerOf(e);
        StoredInVersion(v, levels, l, t, e);
        assert NewestAt(v, u, s, Placed(e, l, t.file.number));
      }
    } else {
      forall q | q in v && q.depth == l ensures !Candidate(q.entry, u, s) {
        if Candidate(q.entry, u, s) {
          var x := Leading(v, levels, l, u, s, q);
        }
      }
    }
  }

  /** The answer of a depth is its newest entry's, or there is none. */
  ghost predicate Finds(v: Version, d: int, u: UserKey, s: nat, a: Answer) {
    if a == Unknown then NothingAt(v, d, u, s) else exists p :: NewestAt(v, u, s, p) && p.depth == d && AnswerOf(p.entry) == a
  }

  /** What level 0 answers, its tables being one to a depth. */
  ghost predicate FindsAtZero(v: Version, u: UserKey, s: nat, a: Answer) {
    if a == Unknown then forall p :: p in v && p.depth <= 0 ==> !Candidate(p.entry, u, s)
    else exists p :: NewestAt(v, u, s, p) && p.depth <= 0 && AnswerOf(p.entry) == a
           && forall q :: q in v && q.depth < p.depth ==> !Candidate(q.entry, u, s)
  }

  lemma KnownAtZero(v: Version, levels: seq<seq<Table>>, u: UserKey, s: nat, q: Placed) returns (t: Table)
    requires Filed(levels) && Contains(v, levels) && q in v && q.depth <= 0 && Candidate(q.entry, u, s)
    ensures StoredAt(levels, 0, t, q) && SpansKey(t, u) && TableAnswer(t.entries, u, s) != Unknown
  {
    var m;
    m, t := EntryAt(v, levels, q);
    AtEnds(levels, m, t, q.entry);
    TableAnswers(t.entries, u, s);
    assert q.entry in Elements(t.entries);
  }

  lemma {:induction false} ZeroFinds(v: Version, levels: seq<seq<Table>>, u: UserKey, s: nat, a: Answer)
    requires Filed(levels) && Contains(v, levels) && levels != [] && ZeroAnswers(levels[0], u, s, a)
    ensures FindsAtZero(v, u, s, a)
  {
    forall q | q in v && q.depth <= 0 && Candidate(q.entry, u, s)
      ensures exists t :: StoredAt(levels, 0, t, q) && SpansKey(t, u) && TableAnswer(t.entries, u, s) != Unknown
    {
      var t := KnownAtZero(v, levels, u, s, q);
    }
    if a != Unknown {
      var t :| NewestKnows(levels[0], u, s, t, a);
      assert At(levels, 0, t);
      AtEnds(levels, 0, t, t.file.smallest);
      TableAnswers(t.entries, u, s);
      var e :| Newest(Elements(t.entries), u, s, e) && a == AnswerOf(e);
      StoredInVersion(v, levels, 0, t, e);
      var p := Placed(e, DepthOf(0, t.file.number), t.file.number);
      forall q | q in v && q.depth <= p.depth && Candidate(q.entry, u, s) ensures q.depth == p.depth && q.entry in t.entries {
        var o :| StoredAt(levels, 0, o, q) && SpansKey(o, u) && TableAnswer(o.entries, u, s) != Unknown;
      }
      assert NewestAt(v, u, s, p);
    }
  }

  /** In a version whose tables are apart, the files that Get looks into have the newest entry there is:
      it answers as a search of all of them would. */
  lemma {:induction false} SearchFindsFirst(v: Version, levels: seq<seq<Table>>, u: UserKey, s: nat, a: Answer)
    requires Filed(levels) && Contains(v, levels) && Clean(v) && Searched(levels, u, s, a)
    ensures VersionAnswers(v, u, s, a)
  {
    forall q | q in v ensures exists l :: 0 <= l < |levels| && DepthIs(q, l) {
      var l, t := EntryAt(v, levels, q);
      assert DepthIs(q, l);
    }
    if l :| 0 <= l < |levels| && a != Unknown && FirstToAnswer(levels, l, u, s, a) {
      forall m | 0 <= m < l ensures SilentAt(v, m, u, s) {
        LevelSilent(v, levels, m, u, s);
      }
      FirstFound(v, levels, l, u, s, a);
    } else {
      forall m | 0 <= m < |levels| ensures SilentAt(v, m, u, s) {
        LevelSilent(v, levels, m, u, s);
      }
      forall q | q in v ensures !Candidate(q.entry, u, s) {
        var l :| 0 <= l < |levels| && DepthIs(q, l);
        assert SilentAt(v, l, u, s);
      }
    }
  }

  predicate DepthIs(q: Placed, l: nat) {
    if l == 0 then q.depth <= 0 else q.depth == l
  }

  ghost predicate SilentAt(v: Version, l: nat, u: UserKey, s: nat) {
    forall q :: q in v && DepthIs(q, l) ==> !Candidate(q.entry, u, s)
  }

  lemma {:induction false} LevelSilent(v: Version, levels: seq<seq<Table>>, l: nat, u: UserKey, s: nat)
    requires Filed(levels) && Contains(v, levels) && Clean(v) && l < |levels| && AnswersAt(levels, l, u, s, Unknown)
    ensures SilentAt(v, l, u, s)
  {
    if l == 0 {
      ZeroFinds(v, levels, u, s, Unknown);
    } else {
      LevelFinds(v, levels, l, u, s);
    }
  }

  lemma {:induction false} FirstFound(v: Version, levels: seq<seq<Table>>, l: nat, u: UserKey, s: nat, a: Answer)
    requires Filed(levels) && Contains(v, levels) && Clean(v) && l < |levels| && a != Unknown && AnswersAt(levels, l, u, s, a)
    requires forall m :: 0 <= m < l ==> SilentAt(v, m, u, s)
    requires forall q :: q in v ==> exists l :: 0 <= l < |levels| && DepthIs(q, l)
    ensures exists p :: First(v, u, s, p) && AnswerOf(p.entry) == a
  {
    var p: Placed;
    if l == 0 {
      ZeroFinds(v, levels, u, s, a);
      p :| NewestAt(v, u, s, p) && p.depth <= 0 && AnswerOf(p.entry) == a && forall q :: q in v && q.depth < p.depth ==> !Candidate(q.entry, u, s);
    } else {
      LevelFinds(v, levels, l, u, s);
      p :| NewestAt(v, u, s, p) && p.depth == l && AnswerOf(p.entry) == a;
    }
    forall q | q in v && Candidate(q.entry, u, s)
      ensures p.depth < q.depth || (p.depth == q.depth && q.entry.sequence <= p.entry.sequence)
    {
      var m: nat :| m < |levels| && DepthIs(q, m);
      assert m < l ==> SilentAt(v, m, u, s);
    }
    assert First(v, u, s, p);
  }

  // ---------- When it is not ----------

  const LOW := Entry(0, 1, VALUE, "low")
  const MIDDLE := Entry(5, 3, VALUE, "middle")
  const HIGH := Entry(9, 2, VALUE, "high")
  const WIDE := Table(File(13, 100, LOW, HIGH), [LOW, HIGH])
  const NARROW := Table(File(12, 100, MIDDLE, MIDDLE), [MIDDLE])
  const BOTH := Job({Placed(LOW, 1, 10), Placed(HIGH, 1, 11)}, [LOW, HIGH], Rule([[], [], [], [], [], [], []], 1, 7))
  const LEFT := File(10, 100, LOW, LOW)
  const RIGHT := File(11, 100, HIGH, HIGH)
  const BEFORE_LEVELS: seq<seq<File>> := [[], [LEFT, RIGHT], [], [], [], [], []]
  const BEFORE: Version := {Placed(LOW, 1, 10), Placed(HIGH, 1, 11)}
  const MIXED: Version := {Placed(LOW, 2, 13), Placed(HIGH, 2, 13), Placed(MIDDLE, 2, 12)}
  const MIXED_LEVELS: seq<seq<Table>> := [[], [], [WIDE, NARROW], [], [], [], []]

  /** A manual compaction of all of level 1 has two tables as inputs; between them, where no table is, a
      memtable is flushed to level 2; the results are installed there as one table. A Get of the key flushed
      looks into that table only, and finds nothing. */
  lemma FlushIntoCompaction()
    ensures TakenAndPicked(BEFORE_LEVELS, BEFORE)
    ensures JobFits(BEFORE, BOTH) && Clean(BEFORE) && Aside(BEFORE, BOTH.inputs, 1) && MayFlushTo(BEFORE, {MIDDLE}, 2, 12)
    ensures var w := Flushed(BEFORE, {MIDDLE}, 2, 12); Cuts(w, BOTH, [13, 13]) && Installed(w, BOTH, [13, 13]) == MIXED
    ensures Filed(MIXED_LEVELS) && Contains(MIXED, MIXED_LEVELS) && Searched(MIXED_LEVELS, 5, 7, NotFound)
    ensures View(EntriesIn(MIXED), 5, 7) == Some("middle")
  {
    BeforePicked(BEFORE_LEVELS, BEFORE);
    BeforeFits(BEFORE, BOTH);
    MixedInstalled(BEFORE, BOTH, MIXED);
    MixedFiles(MIXED_LEVELS);
    MixedContains(MIXED, MIXED_LEVELS);
    MixedSearch(MIXED_LEVELS);
    MixedView(MIXED);
  }

  /** The code chooses these inputs, and this level for the memtable. */
  ghost predicate TakenAndPicked(levels: seq<seq<File>>, v: Version)
    requires |levels| == 7
  {
    && Shape(levels) && Describes(levels, v)
    && Overlapping(levels[1], NO_BOUND, NO_BOUND) == [LEFT, RIGHT] && Chosen(levels, 1, [LEFT, RIGHT], [])
    && BOTH.inputs == Taken(v, [LEFT, RIGHT] + [])
    && forall l, f :: 0 <= l <= 2 && f in levels[l] ==> !Meets(f, Some(MIDDLE.key), Some(MIDDLE.key))
  }

  lemma BeforePicked(levels: seq<seq<File>>, v: Version)
    requires levels == BEFORE_LEVELS && v == BEFORE
    ensures TakenAndPicked(levels, v)
  {
    BeforeFiles(levels, v);
    BeforeChosen(levels, levels[1]);
    NothingMet(levels);
  }

  lemma NothingMet(levels: seq<seq<File>>)
    requires |levels| == 7 && levels[0] == [] && levels[1] == [LEFT, RIGHT] && levels[2] == []
    ensures forall l, f :: 0 <= l <= 2 && f in levels[l] ==> !Meets(f, Some(MIDDLE.key), Some(MIDDLE.key))
  {
    assert !Meets(LEFT, Some(MIDDLE.key), Some(MIDDLE.key)) && !Meets(RIGHT, Some(MIDDLE.key), Some(MIDDLE.key));
  }

  lemma BeforeFiles(levels: seq<seq<File>>, v: Version)
    requires levels == BEFORE_LEVELS && v == BEFORE
    ensures Shape(levels) && Describes(levels, v) && BOTH.inputs == Taken(v, [LEFT, RIGHT] + [])
  {
    forall l, f ensures InLevel(levels, l, f) <==> l == 1 && (f == LEFT || f == RIGHT) {
    }
    IsStored(levels, 1, LEFT, Placed(LOW, 1, 10));
    IsStored(levels, 1, RIGHT, Placed(HIGH, 1, 11));
    assert LEFT in [LEFT, RIGHT] && RIGHT in [LEFT, RIGHT];
  }

  lemma BeforeChosen(levels: seq<seq<File>>, files: seq<File>)
    requires |levels| == 7 && levels[1] == files == [LEFT, RIGHT] && levels[2] == []
    ensures Chosen(levels, 1, files, []) && Overlapping(files, NO_BOUND, NO_BOUND) == files
  {
    assert files[..1] == [LEFT] && [LEFT][..0] == [];
    assert Overlapping([LEFT], NO_BOUND, NO_BOUND) == [LEFT];
    RangeIs(files);
    assert forall f :: f in files ==> f == LEFT || f == RIGHT;
  }

  lemma BeforeFits(v: Version, j: Job)
    requires v == BEFORE && j == BOTH
    ensures JobFits(v, j) && Clean(v) && Aside(v, j.inputs, 1) && MayFlushTo(v, {MIDDLE}, 2, 12)
  {
    BeforeInputs(j);
    BeforeClean(v);
    BeforeFlush(v);
  }

  lemma BeforeInputs(j: Job)
    requires j == BOTH
    ensures Sorted(j.input) && Elements(j.input) == EntriesIn(j.inputs)
  {
    assert Elements(j.input) == {LOW, HIGH} && Placed(LOW, 1, 10) in j.inputs && Placed(HIGH, 1, 11) in j.inputs;
  }

  lemma BeforeClean(v: Version)
    requires v == BEFORE
    ensures Clean(v)
  {
  }

  lemma BeforeFlush(v: Version)
    requires v == BEFORE
    ensures MayFlushTo(v, {MIDDLE}, 2, 12)
  {
  }

  lemma MixedInstalled(v: Version, j: Job, mixed: Version)
    requires v == BEFORE && j == BOTH && mixed == MIXED
    ensures Cuts(Flushed(v, {MIDDLE}, 2, 12), j, [13, 13]) && Installed(Flushed(v, {MIDDLE}, 2, 12), j, [13, 13]) == mixed
  {
    assert !Dropped(j.input, 0, j.rule) && !Dropped(j.input, 1, j.rule);
    assert Kept(j.input, 1, j.rule) == [LOW];
    assert Kept(j.input, 2, j.rule) == [LOW, HIGH];
    assert Flushed(v, {MIDDLE}, 2, 12) == v + {Placed(MIDDLE, 2, 12)};
    MixedOutputs(j);
  }

  lemma MixedOutputs(j: Job)
    requires j == BOTH && Kept(j.input, 2, j.rule) == [LOW, HIGH]
    ensures Outputs(j, [13, 13]) == {Placed(LOW, 2, 13), Placed(HIGH, 2, 13)}
  {
    var K, numbers := Kept(j.input, 2, j.rule), [13, 13];
    assert Placed(K[0], 2, numbers[0]) in Outputs(j, numbers) && Placed(K[1], 2, numbers[1]) in Outputs(j, numbers);
  }

  /** Just the two tables are in these lists. */
  ghost predicate TwoTables(levels: seq<seq<Table>>) {
    forall l, t {:trigger At(levels, l, t)} :: At(levels, l, t) <==> l == 2 && (t == WIDE || t == NARROW)
  }

  lemma MixedFiles(levels: seq<seq<Table>>)
    requires levels == MIXED_LEVELS
    ensures TwoTables(levels) && Filed(levels)
  {
    forall l, t ensures At(levels, l, t) <==> l == 2 && (t == WIDE || t == NARROW) {
    }
    assert TableOk(WIDE) && TableOk(NARROW);
  }

  lemma MixedContains(v: Version, levels: seq<seq<Table>>)
    requires v == MIXED && TwoTables(levels)
    ensures Contains(v, levels)
  {
    IsSomewhere(levels, 2, WIDE, Placed(LOW, 2, 13));
    IsSomewhere(levels, 2, WIDE, Placed(HIGH, 2, 13));
    IsSomewhere(levels, 2, NARROW, Placed(MIDDLE, 2, 12));
  }

  lemma IsSomewhere(levels: seq<seq<Table>>, l: nat, t: Table, p: Placed)
    requires StoredAt(levels, l, t, p)
    ensures Somewhere(levels, p)
  {
  }

  lemma MixedSearch(levels: seq<seq<Table>>)
    requires levels == MIXED_LEVELS
    ensures Searched(levels, 5, 7, NotFound)
  {
    MixedLevel([WIDE, NARROW]);
    forall l | 0 <= l < |levels| ensures AnswersAt(levels, l, 5, 7, Unknown) {
    }
  }

  lemma MixedLevel(tables: seq<Table>)
    requires tables == [WIDE, NARROW]
    ensures LevelAnswer(tables, 5, 7) == Unknown
  {
    var files, key := FilesOf(tables), LookupKey(5, 7);
    assert FindFileIn(files, key, 0, 1) == FindFileIn(files, key, 0, 0) == 0;
    assert FindFileIn(files, key, 0, 2) == FindFileIn(files, key, 0, 1);
    assert SeekIn([LOW, HIGH], key) == 1 by {
      assert [LOW, HIGH][1..] == [HIGH];
      assert SeekIn([HIGH], key) == 0;
    }
  }

  lemma MixedView(v: Version)
    requires v == MIXED
    ensures View(EntriesIn(v), 5, 7) == Some("middle")
  {
    var E := EntriesIn(v);
    assert Placed(MIDDLE, 2, 12) in v;
    assert MIDDLE in E && forall e :: e in E ==> e == LOW || e == MIDDLE || e == HIGH;
    ViewOfNewest(E, 5, 7, MIDDLE);
  }
}

/** The tables that a compaction takes, seen as entries: they lie side by side with the rest of the
    output level, and when they leave nothing of intermediate age behind. */
module ChosenJobs {
  import opened Entries
  import opened Options
  import opened CompactionRules
  import opened Layers
  import opened FileSelection

  function DepthOf(level: nat, number: nat): int {
    if level == 0 then -(number as int) else level
  }

  predicate InLevel(levels: seq<seq<File>>, l: nat, f: File) {
    l < |levels| && f in levels[l]
  }

  /** The table file f of the level holds p. */
  ghost predicate Holds(levels: seq<seq<File>>, l: nat, f: File, p: Placed) {
    && InLevel(levels, l, f)
    && p.table == f.number && p.depth == DepthOf(l, f.number)
    && !Before(p.entry, f.smallest) && !Before(f.largest, p.entry)
  }

  ghost predicate Stored(levels: seq<seq<File>>, p: Placed) {
    exists l, f :: Holds(levels, l, f, p)
  }

  function End(e: Entry, l: nat, f: File): Placed {
    Placed(e, DepthOf(l, f.number), f.number)
  }

  /** The lists of files are those of the version: a file is known by its number, spans what it holds,
      and holds both ends. */
  ghost predicate Describes(levels: seq<seq<File>>, v: Version) {
    EndsStored(levels, v) && (forall p {:trigger Stored(levels, p)} :: p in v ==> Stored(levels, p)) && NumbersTell(levels)
  }

  ghost predicate EndsStored(levels: seq<seq<File>>, v: Version) {
    forall l, f {:trigger InLevel(levels, l, f)} :: InLevel(levels, l, f) ==> End(f.smallest, l, f) in v && End(f.largest, l, f) in v
  }

  ghost predicate NumbersTell(levels: seq<seq<File>>) {
    forall l, f, m, g {:trigger InLevel(levels, l, f), InLevel(levels, m, g)} ::
      InLevel(levels, l, f) && InLevel(levels, m, g) && f.number == g.number ==> l == m && f == g
  }

  /** What is known of any version that the database has. */
  ghost predicate Orderly(levels: seq<seq<File>>, v: Version) {
    && Shape(levels) && Describes(levels, v) && AgeOrdered(v) && Single(v)
    && Distinct(EntriesIn(v)) && forall p :: p in v ==> Parses(p.entry)
  }

  lemma DescribedApart(levels: seq<seq<File>>, v: Version)
    requires Shape(levels) && Describes(levels, v)
    ensures Apart(v)
  {
    forall p, q, r | p in v && q in v && r in v && Splits(p, q, r) ensures false {
      assert Stored(levels, p) && Stored(levels, q) && Stored(levels, r);
      var l: nat, f :| Holds(levels, l, f, p);
      var m: nat, g :| Holds(levels, m, g, q);
      var n: nat, h :| Holds(levels, n, h, r);
      assert f == h && l == m;
      InOrder(levels[l], f, g);
    }
  }

  ghost function Taken(v: Version, inputs: seq<File>): Version {
    set p | p in v && (exists f :: f in inputs && f.number == p.table) :: p
  }

  /** What is taken, level by level. */
  ghost predicate Choice(levels: seq<seq<File>>, level: nat, inputs0: seq<File>, inputs1: seq<File>)
    requires level + 1 < |levels|
  {
    && inputs0 != [] && Among(inputs0, levels[level]) && Among(inputs1, levels[level + 1])
    && (forall f :: f in levels[level + 1] ==> (f in inputs1 <==> Meets(f, Some(Smallest(inputs0).key), Some(Largest(inputs0).key))))
    && (forall f :: f in levels[level] ==> !Boundary(f, Largest(inputs0)))
    && if level == 0 then Gathered(levels[0], inputs0) else Gapless(levels[level], inputs0)
  }

  lemma ChosenIsChoice(levels: seq<seq<File>>, level: nat, inputs0: seq<File>, inputs1: seq<File>)
    requires level + 1 < |levels| && Chosen(levels, level, inputs0, inputs1)
    ensures Choice(levels, level, inputs0, inputs1)
  {
    OverlappingMembers(levels[level + 1], Some(Smallest(inputs0).key), Some(Largest(inputs0).key));
  }

  /** A taken entry is of one of the two levels; at the upper one its key lies in the range. */
  lemma TakenAt(levels: seq<seq<File>>, level: nat, v: Version, inputs0: seq<File>, inputs1: seq<File>, p: Placed) returns (l: nat, f: File)
    requires level + 1 < |levels| && Shape(levels) && Describes(levels, v) && Choice(levels, level, inputs0, inputs1)
    requires p in Taken(v, inputs0 + inputs1)
    ensures Holds(levels, l, f, p) && (l == level || l == level + 1)
    ensures l == level ==> f in inputs0 && Smallest(inputs0).key <= p.entry.key <= Largest(inputs0).key
    ensures l == level + 1 ==> f in inputs1
  {
    assert Stored(levels, p);
    l, f :| Holds(levels, l, f, p);
    var g :| g in inputs0 + inputs1 && g.number == p.table;
    assert InLevel(levels, if g in inputs0 then level else level + 1, g);
    if g in inputs0 {
      InRange(inputs0, g, p.entry);
    }
  }

  lemma InRange(files: seq<File>, f: File, e: Entry)
    requires f in files && !Before(e, f.smallest) && !Before(f.largest, e)
    ensures Smallest(files).key <= e.key <= Largest(files).key
  {
    RangeIs(files);
  }

  lemma NotTakenAt(levels: seq<seq<File>>, v: Version, inputs: seq<File>, p: Placed) returns (l: nat, f: File)
    requires Describes(levels, v) && p in v - Taken(v, inputs)
    ensures Holds(levels, l, f, p) && f !in inputs
  {
    assert Stored(levels, p);
    l, f :| Holds(levels, l, f, p);
  }

  lemma ShapeAt(levels: seq<seq<File>>, l: nat)
    requires Shape(levels) && 1 <= l < |levels|
    ensures Sane(levels[l]) && Disjoint(levels[l])
  {
  }

  /** A table of the output level that was not taken ends before the range, and then before everything
      taken, or begins behind it. */
  lemma BesideTaken(levels: seq<seq<File>>, level: nat, v: Version, inputs0: seq<File>, inputs1: seq<File>, p: Placed, g: File, q: Placed)
    requires level + 1 < |levels| && Shape(levels) && Describes(levels, v) && Choice(levels, level, inputs0, inputs1)
    requires p in Taken(v, inputs0 + inputs1) && Holds(levels, level + 1, g, q) && g !in inputs1
    ensures g.largest.key < Smallest(inputs0).key || g.smallest.key > Largest(inputs0).key
    ensures g.largest.key < Smallest(inputs0).key ==> Before(q.entry, p.entry)
    ensures g.smallest.key > Largest(inputs0).key ==> Before(p.entry, q.entry)
  {
    var l, f := TakenAt(levels, level, v, inputs0, inputs1, p);
    if l == level + 1 {
      ShapeAt(levels, level + 1);
      InOrder(levels[level + 1], f, g);
      RangeMet(levels, level, inputs0, inputs1, f);
      FileBeside(f, g, Smallest(inputs0).key, Largest(inputs0).key, p.entry, q.entry);
    }
  }

  lemma RangeMet(levels: seq<seq<File>>, level: nat, inputs0: seq<File>, inputs1: seq<File>, f: File)
    requires level + 1 < |levels| && Choice(levels, level, inputs0, inputs1) && f in inputs1
    ensures Smallest(inputs0).key <= f.largest.key && f.smallest.key <= Largest(inputs0).key
  {
  }

  lemma FileBeside(f: File, g: File, lo: UserKey, hi: UserKey, p: Entry, q: Entry)
    requires Before(f.largest, g.smallest) || Before(g.largest, f.smallest)
    requires lo <= f.largest.key && f.smallest.key <= hi
    requires !Before(p, f.smallest) && !Before(f.largest, p) && !Before(q, g.smallest) && !Before(g.largest, q)
    ensures g.largest.key < lo ==> Before(q, p)
    ensures g.smallest.key > hi ==> Before(p, q)
  {
  }

  lemma NotBoth(a: Entry, b: Entry)
    requires Before(a, b)
    ensures !Before(b, a)
  {
  }

  /** No table of the output level that was not taken reaches into what was. */
  lemma ChosenAside(levels: seq<seq<File>>, level: nat, v: Version, inputs0: seq<File>, inputs1: seq<File>)
    requires level + 1 < |levels| && Shape(levels) && Describes(levels, v) && Choice(levels, level, inputs0, inputs1)
    ensures Aside(v, Taken(v, inputs0 + inputs1), level)
  {
    var inputs := Taken(v, inputs0 + inputs1);
    forall p, q, s, r | p in inputs && r in inputs && q in v - inputs && s in v - inputs && q.depth == level + 1
      ensures !Straddles(p, q, s, r)
    {
      if Straddles(p, q, s, r) {
        var m, g := NotTakenAt(levels, v, inputs0 + inputs1, q);
        var n, h := NotTakenAt(levels, v, inputs0 + inputs1, s);
        assert g == h && m == n == level + 1;
        BesideTaken(levels, level, v, inputs0, inputs1, p, g, q);
        BesideTaken(levels, level, v, inputs0, inputs1, r, g, s);
        NotBoth(p.entry, q.entry);
        NotBoth(s.entry, r.entry);
      }
    }
  }

  predicate LeftBehind(levelFiles: seq<File>, inputs1: seq<File>, f: File, g: File) {
    f in inputs1 && g in levelFiles && g !in inputs1 && Boundary(g, f.largest)
  }

  /** At the output level a table is left behind that goes on with the last user key of a table taken. */
  ghost predicate BoundaryLeft(levelFiles: seq<File>, inputs1: seq<File>) {
    exists f, g :: LeftBehind(levelFiles, inputs1, f, g)
  }

  lemma BoundaryLeftIsOpen(levels: seq<seq<File>>, level: nat, v: Version, inputs0: seq<File>, inputs1: seq<File>, j: Job)
    requires level + 1 < |levels| && Describes(levels, v) && Choice(levels, level, inputs0, inputs1)
    requires j.inputs == Taken(v, inputs0 + inputs1) && j.rule.level == level && BoundaryLeft(levels[level + 1], inputs1)
    ensures !Closed(v, j)
  {
    var f, g :| LeftBehind(levels[level + 1], inputs1, f, g);
    EndTaken(levels, level, v, inputs0, inputs1, j.inputs, f, g);
    StaysOpen(v, j, End(f.largest, level + 1, f), End(g.smallest, level + 1, g));
  }

  lemma EndTaken(levels: seq<seq<File>>, level: nat, v: Version, inputs0: seq<File>, inputs1: seq<File>, inputs: Version, f: File, g: File)
    requires level + 1 < |levels| && Describes(levels, v) && Choice(levels, level, inputs0, inputs1)
    requires inputs == Taken(v, inputs0 + inputs1) && f in inputs1 && g in levels[level + 1] && g !in inputs1
    ensures End(f.largest, level + 1, f) in inputs && End(g.smallest, level + 1, g) in v - inputs
  {
    assert InLevel(levels, level + 1, f) && InLevel(levels, level + 1, g) && f in inputs0 + inputs1;
    forall h | h in inputs0 + inputs1 ensures h.number != g.number {
      assert InLevel(levels, if h in inputs0 then level else level + 1, h);
    }
  }

  lemma StaysOpen(v: Version, j: Job, p: Placed, q: Placed)
    requires p in j.inputs && q in v - j.inputs && q.depth == j.rule.level + 1
    requires Before(p.entry, q.entry) && p.entry.key == q.entry.key
    ensures !Closed(v, j)
  {
  }

  /** Of an entry that was taken and one of its key that was not, the latter is newer. */
  lemma LeftIsNewer(levels: seq<seq<File>>, level: nat, v: Version, inputs0: seq<File>, inputs1: seq<File>, p: Placed, q: Placed)
    requires level + 1 < |levels| && Orderly(levels, v) && Choice(levels, level, inputs0, inputs1)
    requires !BoundaryLeft(levels[level + 1], inputs1)
    requires p in Taken(v, inputs0 + inputs1) && q in v - Taken(v, inputs0 + inputs1) && q.depth <= level + 1 && p.entry.key == q.entry.key
    ensures q.entry.sequence > p.entry.sequence
  {
    var l, f := TakenAt(levels, level, v, inputs0, inputs1, p);
    var m, g := NotTakenAt(levels, v, inputs0 + inputs1, q);
    Ordered(v, p, q);
    SameSequence(v, p, q);
    assert q.depth < p.depth ==> q.entry.sequence > p.entry.sequence;
    LeftCase(levels, level, inputs0, inputs1, p, q, l, f, m, g);
  }

  lemma LeftCase(levels: seq<seq<File>>, level: nat, inputs0: seq<File>, inputs1: seq<File>, p: Placed, q: Placed, l: nat, f: File, m: nat, g: File)
    requires level + 1 < |levels| && Shape(levels) && Choice(levels, level, inputs0, inputs1) && !BoundaryLeft(levels[level + 1], inputs1)
    requires Holds(levels, l, f, p) && Holds(levels, m, g, q) && q.depth <= level + 1 && p.entry.key == q.entry.key
    requires if l == level then f in inputs0 && Smallest(inputs0).key <= p.entry.key <= Largest(inputs0).key else l == level + 1 && f in inputs1
    requires g !in inputs0 + inputs1 && (Before(p.entry, q.entry) || Before(q.entry, p.entry))
    requires p.entry.sequence == q.entry.sequence ==> p.entry == q.entry
    requires q.depth < p.depth ==> q.entry.sequence > p.entry.sequence
    ensures q.entry.sequence > p.entry.sequence
  {
    KeyTaken(levels, level, inputs0, inputs1, g, q.entry);
    if level == 0 {
      KeyGathered(levels[0], inputs0, g, q.entry);
    }
    if l == m == level + 1 {
      ShapeAt(levels, m);
      LowerIsNewer(levels[m], inputs1, f, g, p, q);
    } else if l == m > 0 {
      ShapeAt(levels, l);
      UpperIsNewer(levels[l], inputs0, f, g, p, q);
    }
  }

  lemma SameSequence(v: Version, p: Placed, q: Placed)
    requires Distinct(EntriesIn(v)) && (forall p :: p in v ==> Parses(p.entry)) && p in v && q in v && p.entry.key == q.entry.key
    ensures p.entry.sequence == q.entry.sequence ==> p.entry == q.entry
  {
    assert p.entry in EntriesIn(v) && q.entry in EntriesIn(v);
  }

  lemma KeyTaken(levels: seq<seq<File>>, level: nat, inputs0: seq<File>, inputs1: seq<File>, g: File, e: Entry)
    requires level + 1 < |levels| && Choice(levels, level, inputs0, inputs1) && !Before(e, g.smallest) && !Before(g.largest, e)
    ensures g in levels[level + 1] && Smallest(inputs0).key <= e.key <= Largest(inputs0).key ==> g in inputs1
  {
  }

  lemma KeyGathered(levelFiles: seq<File>, inputs0: seq<File>, g: File, e: Entry)
    requires inputs0 != [] && Gathered(levelFiles, inputs0) && !Before(e, g.smallest) && !Before(g.largest, e)
    ensures g in levelFiles && Smallest(inputs0).key <= e.key <= Largest(inputs0).key ==> g in inputs0
  {
  }

  lemma LowerIsNewer(levelFiles: seq<File>, inputs1: seq<File>, f: File, g: File, p: Placed, q: Placed)
    requires Disjoint(levelFiles) && !BoundaryLeft(levelFiles, inputs1)
    requires f in levelFiles && g in levelFiles && f in inputs1 && g !in inputs1
    requires !Before(p.entry, f.smallest) && !Before(f.largest, p.entry) && !Before(q.entry, g.smallest) && !Before(g.largest, q.entry)
    requires p.entry.key == q.entry.key && (Before(p.entry, q.entry) || Before(q.entry, p.entry))
    requires p.entry.sequence == q.entry.sequence ==> p.entry == q.entry
    ensures q.entry.sequence > p.entry.sequence
  {
    assert !LeftBehind(levelFiles, inputs1, f, g);
    InOrder(levelFiles, f, g);
    SameKeyBehind(f, g, p, q);
  }

  /** Two tables with entries of one key: the later one begins with the key the earlier one ends with. */
  lemma SameKeyBehind(f: File, g: File, p: Placed, q: Placed)
    requires Before(f.largest, g.smallest) || Before(g.largest, f.smallest)
    requires !Before(p.entry, f.smallest) && !Before(f.largest, p.entry) && !Before(q.entry, g.smallest) && !Before(g.largest, q.entry)
    requires p.entry.key == q.entry.key && (Before(p.entry, q.entry) || Before(q.entry, p.entry))
    ensures Before(f.largest, g.smallest) ==> Boundary(g, f.largest)
    ensures Before(g.largest, f.smallest) ==> Before(q.entry, p.entry)
  {
  }

  lemma UpperIsNewer(levelFiles: seq<File>, inputs0: seq<File>, f: File, g: File, p: Placed, q: Placed)
    requires Sane(levelFiles) && Disjoint(levelFiles) && inputs0 != [] && Among(inputs0, levelFiles) && Gapless(levelFiles, inputs0)
    requires forall f :: f in levelFiles ==> !Boundary(f, Largest(inputs0))
    requires f in levelFiles && g in levelFiles && f in inputs0 && g !in inputs0
    requires !Before(p.entry, f.smallest) && !Before(f.largest, p.entry) && !Before(q.entry, g.smallest) && !Before(g.largest, q.entry)
    requires p.entry.key == q.entry.key && (Before(p.entry, q.entry) || Before(q.entry, p.entry))
    requires p.entry.sequence == q.entry.sequence ==> p.entry == q.entry
    ensures q.entry.sequence > p.entry.sequence
  {
    RangeIs(inputs0);
    var last :| last in inputs0 && last.largest == Largest(inputs0);
    InOrder(levelFiles, f, g);
    InOrder(levelFiles, last, g);
    SameKeyBehind(f, g, p, q);
    if Before(f.largest, g.smallest) {
      assert Boundary(g, Largest(inputs0));
    }
  }

  /** A job that the code forms is whole, leaves the rest of the output level aside, and drops no marker
      that covers deeper levels. It leaves no entry of intermediate age behind exactly if no table of
      the output level goes on with the last user key of one taken: a boundary table is looked for at
      the upper level, and not at the lower one. */
  lemma ChosenFits(levels: seq<seq<File>>, level: nat, v: Version, inputs0: seq<File>, inputs1: seq<File>, j: Job)
    requires level + 1 < |levels| && Orderly(levels, v) && Chosen(levels, level, inputs0, inputs1)
    requires j.inputs == Taken(v, inputs0 + inputs1) && j.rule.level == level && OnRecord(v, j.rule)
    requires Sorted(j.input) && Elements(j.input) == EntriesIn(j.inputs)
    ensures JobTakes(v, j) && Aside(v, j.inputs, level)
    ensures JobFits(v, j) <==> !BoundaryLeft(levels[level + 1], inputs1)
  {
    ChosenIsChoice(levels, level, inputs0, inputs1);
    ChosenAside(levels, level, v, inputs0, inputs1);
    OnRecordGrounds(v, j);
    forall p | p in j.inputs ensures p.depth <= level + 1 {
      var l, f := TakenAt(levels, level, v, inputs0, inputs1, p);
    }
    if BoundaryLeft(levels[level + 1], inputs1) {
      BoundaryLeftIsOpen(levels, level, v, inputs0, inputs1, j);
    } else {
      forall p, q | p in j.inputs && q in v - j.inputs && q.depth <= level + 1 && p.entry.key == q.entry.key
        ensures q.entry.sequence > p.entry.sequence
      {
        LeftIsNewer(levels, level, v, inputs0, inputs1, p, q);
      }
    }
  }

  /** A single table that nothing meets at the next level may be moved down as it is. */
  lemma ChosenMoves(levels: seq<seq<File>>, level: nat, v: Version, f: File)
    requires level + 1 < |levels| && Orderly(levels, v) && Chosen(levels, level, [f], [])
    ensures MayMove(v, Taken(v, [f] + []), level)
  {
    var table := Taken(v, [f] + []);
    ChosenIsChoice(levels, level, [f], []);
    ChosenAside(levels, level, v, [f], []);
    assert [f] + [] == [f];
    forall p | p in table ensures p.table == f.number && p.depth <= level {
      var l, g := TakenAt(levels, level, v, [f], [], p);
    }
    forall p, q | p in table && q in v - table && q.depth <= level + 1 && p.entry.key == q.entry.key
      ensures q.entry.sequence > p.entry.sequence
    {
      LeftIsNewer(levels, level, v, [f], [], p, q);
    }
  }

  /** The level that is picked for a memtable suits it. */
  lemma PickedFits(levels: seq<seq<File>>, v: Version, table: set<Entry>, lo: UserKey, hi: UserKey, level: nat, number: nat)
    requires Describes(levels, v) && number > 0 && (forall l, f {:trigger InLevel(levels, l, f)} :: InLevel(levels, l, f) ==> f.number < number)
    requires forall e :: e in table ==> lo <= e.key <= hi
    requires level < |levels| && (level > 0 ==> forall l, f :: 0 <= l <= level && f in levels[l] ==> !Meets(f, Some(lo), Some(hi)))
    ensures MayFlushTo(v, table, DepthOf(level, number), number)
  {
    forall p | p in v ensures p.table < number && 0 < p.depth + number {
      assert Stored(levels, p);
      var l: nat, f :| Holds(levels, l, f, p);
    }
    if level > 0 {
      forall p, q, e, f | p in v && q in v && e in table && f in table && p.depth <= level ensures !Overlap(p, q, e, f) {
        assert Stored(levels, p) && Stored(levels, q);
        var l: nat, g :| Holds(levels, l, g, p);
        var m: nat, h :| Holds(levels, m, h, q);
        assert l <= level && !Meets(g, Some(lo), Some(hi));
      }
    }
  }

  // ---------- A table left behind ----------

  const NEW := Entry(-1, 6, VALUE, "new")
  const OLDER := Entry(-1, 2, VALUE, "older")
  const DEAD := Entry(0, 5, DELETION, "")
  const OLD := Entry(0, 3, VALUE, "old")

  const UPPER := File(10, 100, NEW, NEW)
  const FIRST := File(5, 100, OLDER, DEAD)
  const SECOND := File(7, 100, OLD, OLD)
  const TORN_LEVELS: seq<seq<File>> := [[], [UPPER], [FIRST, SECOND], [], [], [], []]

  const TORN_JOB := Job({Placed(NEW, 1, 10), Placed(OLDER, 2, 5), Placed(DEAD, 2, 5)}, [NEW, OLDER, DEAD],
                        Rule([[], [], [], [], [], [], []], 1, 7))
  const TORN_VERSION: Version := {Placed(NEW, 1, 10), Placed(OLDER, 2, 5), Placed(DEAD, 2, 5), Placed(OLD, 2, 7)}

  /** Two level-2 tables share the user key 0: the first ends with its deletion, the second holds an older
      value. The range of the only level-1 table meets the first and not the second, so that this is
      what the code takes. It drops the deletion, for which level 2 is the base level, and the older
      value comes back. */
  lemma BoundaryTableLeftBehind()
    ensures Orderly(TORN_LEVELS, TORN_VERSION) && OnRecord(TORN_VERSION, TORN_JOB.rule)
    ensures Chosen(TORN_LEVELS, 1, [UPPER], [FIRST]) && TORN_JOB.inputs == Taken(TORN_VERSION, [UPPER] + [FIRST])
    ensures forall in0, in1 :: Chosen(TORN_LEVELS, 1, in0, in1) ==> in1 == [FIRST]
    ensures JobTakes(TORN_VERSION, TORN_JOB) && Cuts(TORN_VERSION, TORN_JOB, [11])
    ensures View(EntriesIn(TORN_VERSION), 0, 7) == None
    ensures View(EntriesIn(Installed(TORN_VERSION, TORN_JOB, [11])), 0, 7) == Some("old")
  {
    TornVersion(TORN_LEVELS, TORN_VERSION);
    TornChoice();
    TornTaken(TORN_VERSION, TORN_JOB);
    TornBefore(TORN_VERSION);
    TornAfter(TORN_VERSION, TORN_JOB);
  }

  lemma TornVersion(levels: seq<seq<File>>, v: Version)
    requires levels == TORN_LEVELS && v == TORN_VERSION
    ensures Orderly(levels, v)
  {
    TornFiles(levels);
    TornStored(levels, v);
    TornAges(v);
  }

  lemma TornFiles(levels: seq<seq<File>>)
    requires levels == TORN_LEVELS
    ensures Shape(levels) && ThreeTables(levels)
  {
    forall l, f ensures InLevel(levels, l, f) <==> (l == 1 && f == UPPER) || (l == 2 && (f == FIRST || f == SECOND)) {
    }
  }

  /** Just the three tables are in these lists. */
  ghost predicate ThreeTables(levels: seq<seq<File>>) {
    forall l, f {:trigger InLevel(levels, l, f)} ::
      InLevel(levels, l, f) <==> (l == 1 && f == UPPER) || (l == 2 && (f == FIRST || f == SECOND))
  }

  lemma TornStored(levels: seq<seq<File>>, v: Version)
    requires v == TORN_VERSION && ThreeTables(levels)
    ensures Describes(levels, v)
  {
    TornEnds(levels, v);
    TornNumbers(levels);
    IsStored(levels, 1, UPPER, Placed(NEW, 1, 10));
    IsStored(levels, 2, FIRST, Placed(OLDER, 2, 5));
    IsStored(levels, 2, FIRST, Placed(DEAD, 2, 5));
    IsStored(levels, 2, SECOND, Placed(OLD, 2, 7));
  }

  lemma TornEnds(levels: seq<seq<File>>, v: Version)
    requires v == TORN_VERSION && ThreeTables(levels)
    ensures EndsStored(levels, v)
  {
  }

  lemma TornNumbers(levels: seq<seq<File>>)
    requires ThreeTables(levels)
    ensures NumbersTell(levels)
  {
  }

  lemma IsStored(levels: seq<seq<File>>, l: nat, f: File, p: Placed)
    requires Holds(levels, l, f, p)
    ensures Stored(levels, p)
  {
  }

  lemma TornAges(v: Version)
    requires v == TORN_VERSION
    ensures AgeOrdered(v) && Single(v) && Distinct(EntriesIn(v)) && forall p :: p in v ==> Parses(p.entry)
  {
  }

  lemma TornChoice()
    ensures Chosen(TORN_LEVELS, 1, [UPPER], [FIRST])
    ensures forall in0, in1 :: Chosen(TORN_LEVELS, 1, in0, in1) ==> in1 == [FIRST]
  {
    TornOverlap(TORN_LEVELS[2]);
    forall in0, in1 | Chosen(TORN_LEVELS, 1, in0, in1) ensures in1 == [FIRST] {
      RangeIs(in0);
      assert Smallest(in0) == NEW && Largest(in0) == NEW;
    }
  }

  lemma TornOverlap(files: seq<File>)
    requires files == [FIRST, SECOND]
    ensures Overlapping(files, Some(-1), Some(-1)) == [FIRST]
  {
    assert files[..1] == [FIRST] && [FIRST][..0] == [];
    assert Overlapping([FIRST], Some(-1), Some(-1)) == [FIRST];
  }

  lemma TornTaken(v: Version, j: Job)
    requires v == TORN_VERSION && j == TORN_JOB
    ensures OnRecord(v, j.rule) && JobTakes(v, j) && Kept(j.input, 3, j.rule) == [NEW] && Cuts(v, j, [11])
    ensures j.inputs == Taken(v, [UPPER] + [FIRST])
  {
    assert UPPER in [UPPER] + [FIRST] && FIRST in [UPPER] + [FIRST];
    assert !Dropped(j.input, 0, j.rule) && Dropped(j.input, 1, j.rule) && Dropped(j.input, 2, j.rule);
    assert Kept(j.input, 1, j.rule) == [NEW];
    assert Kept(j.input, 2, j.rule) == [NEW];
    TornInputs(j);
  }

  lemma TornInputs(j: Job)
    requires j == TORN_JOB
    ensures Sorted(j.input) && Elements(j.input) == EntriesIn(j.inputs)
  {
    assert Elements(j.input) == {NEW, OLDER, DEAD};
    assert Placed(NEW, 1, 10) in j.inputs && Placed(OLDER, 2, 5) in j.inputs && Placed(DEAD, 2, 5) in j.inputs;
  }

  lemma TornBefore(v: Version)
    requires v == TORN_VERSION
    ensures View(EntriesIn(v), 0, 7) == None
  {
    var E := EntriesIn(v);
    assert Placed(DEAD, 2, 5) in v;
    assert DEAD in E && forall e :: e in E ==> e == NEW || e == OLDER || e == DEAD || e == OLD;
    ViewOfNewest(E, 0, 7, DEAD);
  }

  lemma TornAfter(v: Version, j: Job)
    requires v == TORN_VERSION && j == TORN_JOB && Kept(j.input, 3, j.rule) == [NEW]
    ensures View(EntriesIn(Installed(v, j, [11])), 0, 7) == Some("old")
  {
    InstalledEntries(v, j, [11]);
    assert v - j.inputs == {Placed(OLD, 2, 7)};
    assert EntriesIn({Placed(OLD, 2, 7)}) == {OLD} by {
      assert Placed(OLD, 2, 7) in {Placed(OLD, 2, 7)};
    }
    assert EntriesIn(Installed(v, j, [11])) == {NEW, OLD};
    ViewOfNewest({NEW, OLD}, 0, 7, OLD);
  }
}

/** The layers of the database: memtable, immutable memtable, and the tables of a version. */
module Layers {
  import opened Entries
  import opened CompactionRules
  import opened MemTables

  /** An entry, and where and in which table file it is. Version::Get searches depths upwards: level-0
      table number n is at depth -n, so newer tables come first, and level l > 0 is at depth l. */
  datatype Placed = Placed(entry: Entry, depth: int, table: nat)

  type Version = set<Placed>

  ghost function EntriesIn(v: Version): set<Entry> {
    set p | p in v :: p.entry
  }

  ghost function All(mem: set<Entry>, imm: set<Entry>, v: Version): set<Entry> {
    mem + imm + EntriesIn(v)
  }

  ghost predicate NewerThan(A: set<Entry>, B: set<Entry>) {
    forall a, b :: a in A && b in B && a.key == b.key ==> a.sequence > b.sequence
  }

  /** A smaller depth holds the newer entries of each key. */
  ghost predicate AgeOrdered(v: Version) {
    forall p, q :: p in v && q in v && p.entry.key == q.entry.key && p.depth < q.depth ==> p.entry.sequence > q.entry.sequence
  }

  ghost predicate Layered(mem: set<Entry>, imm: set<Entry>, v: Version) {
    NewerThan(mem, imm) && NewerThan(mem, EntriesIn(v)) && NewerThan(imm, EntriesIn(v)) && AgeOrdered(v)
  }

  // ---------- Get ----------

  /** What MemTable::Get answers. */
  ghost predicate MemAnswers(E: set<Entry>, u: UserKey, s: nat, a: Answer) {
    if a == Unknown then forall e :: e in E ==> !Candidate(e, u, s)
    else exists e :: Newest(E, u, s, e) && a == AnswerOf(e)
  }

  /** p is the first thing a search of the version finds: the newest in the first depth that has any. */
  ghost predicate First(v: Version, u: UserKey, s: nat, p: Placed) {
    && p in v && Candidate(p.entry, u, s)
    && forall q :: q in v && Candidate(q.entry, u, s) ==>
         p.depth < q.depth || (p.depth == q.depth && q.entry.sequence <= p.entry.sequence)
  }

  /** What Version::Get answers. */
  ghost predicate VersionAnswers(v: Version, u: UserKey, s: nat, a: Answer) {
    if a == NotFound then (forall p :: p in v ==> !Candidate(p.entry, u, s)) || exists p :: First(v, u, s, p) && AnswerOf(p.entry) == a
    else exists p :: First(v, u, s, p) && AnswerOf(p.entry) == a
  }

  /** A memtable that answers hides all older layers. */
  lemma MemDecides(E: set<Entry>, older: set<Entry>, u: UserKey, s: nat, a: Answer)
    requires Distinct(E + older) && NewerThan(E, older) && MemAnswers(E, u, s, a) && a != Unknown
    ensures View(E + older, u, s) == Meaning(a)
  {
  }

  /** A memtable that does not answer can be left out. */
  lemma MemPasses(E: set<Entry>, older: set<Entry>, u: UserKey, s: nat)
    requires Distinct(E + older) && MemAnswers(E, u, s, Unknown)
    ensures View(E + older, u, s) == View(older, u, s)
  {
  }

  lemma VersionDecides(v: Version, u: UserKey, s: nat, a: Answer)
    requires Distinct(EntriesIn(v)) && AgeOrdered(v) && VersionAnswers(v, u, s, a)
    ensures View(EntriesIn(v), u, s) == Meaning(a)
  {
    if p :| First(v, u, s, p) && AnswerOf(p.entry) == a {
      forall o | o in EntriesIn(v) && Candidate(o, u, s) ensures o.sequence <= p.entry.sequence {
        var q :| q in v && q.entry == o;
        assert Candidate(q.entry, u, s);
      }
      assert p.entry in EntriesIn(v);
      assert Newest(EntriesIn(v), u, s, p.entry);
      ViewOfNewest(EntriesIn(v), u, s, p.entry);
    } else {
      assert forall e :: !Newest(EntriesIn(v), u, s, e);
    }
  }

  /** The answers that Get combines. */
  function Combined(inMem: Answer, inImm: Answer, inVersion: Answer): Answer {
    if inMem != Unknown then inMem else if inImm != Unknown then inImm else inVersion
  }

  lemma SearchIsView(mem: set<Entry>, imm: set<Entry>, v: Version, u: UserKey, s: nat, inMem: Answer, inImm: Answer, inVersion: Answer)
    requires Layered(mem, imm, v) && Distinct(All(mem, imm, v))
    requires MemAnswers(mem, u, s, inMem)
    requires inMem == Unknown ==> MemAnswers(imm, u, s, inImm)
    requires inMem == Unknown && inImm == Unknown ==> VersionAnswers(v, u, s, inVersion)
    ensures View(All(mem, imm, v), u, s) == Meaning(Combined(inMem, inImm, inVersion))
  {
    var older := imm + EntriesIn(v);
    assert All(mem, imm, v) == mem + older;
    assert Distinct(older) && Distinct(EntriesIn(v));
    if inMem != Unknown {
      MemDecides(mem, older, u, s, inMem);
    } else {
      MemPasses(mem, older, u, s);
      if inImm != Unknown {
        MemDecides(imm, EntriesIn(v), u, s, inImm);
      } else {
        MemPasses(imm, EntriesIn(v), u, s);
        VersionDecides(v, u, s, inVersion);
      }
    }
  }

  // ---------- Flush ----------

  ghost function Flushed(v: Version, table: set<Entry>, depth: int, number: nat): Version {
    v + set e | e in table :: Placed(e, depth, number)
  }

  /** The user keys from e to f meet those from p to q, which are of one table. */
  predicate Overlap(p: Placed, q: Placed, e: Entry, f: Entry) {
    p.depth == q.depth && p.table == q.table && p.entry.key <= f.key && e.key <= q.entry.key
  }

  /** The table file is new. It goes in front of every other at level 0, or to a level with no table
      there or above whose user keys meet its own (PickLevelForMemTableOutput). */
  ghost predicate MayFlushTo(v: Version, table: set<Entry>, depth: int, number: nat) {
    && (forall p :: p in v ==> p.table != number)
    && if depth <= 0 then depth + number == 0 && forall p :: p in v ==> depth < p.depth
       else forall p, q, e, f {:trigger Overlap(p, q, e, f)} ::
              p in v && q in v && e in table && f in table && p.depth <= depth ==> !Overlap(p, q, e, f)
  }

  lemma FlushKeepsLayers(mem: set<Entry>, imm: set<Entry>, v: Version, depth: int, number: nat)
    requires Layered(mem, imm, v) && MayFlushTo(v, imm, depth, number)
    ensures Layered(mem, {}, Flushed(v, imm, depth, number))
    ensures All(mem, {}, Flushed(v, imm, depth, number)) == All(mem, imm, v)
  {
    FlushedEntries(v, imm, depth, number);
    var w := Flushed(v, imm, depth, number);
    forall p, q | p in w && q in w && p.entry.key == q.entry.key && p.depth < q.depth
      ensures p.entry.sequence > q.entry.sequence
    {
      assert p in v ==> p.entry in EntriesIn(v);
      assert q in v ==> q.entry in EntriesIn(v);
      assert !Overlap(p, p, q.entry, q.entry) || p !in v || q in v || depth <= 0 || p.depth > depth;
    }
  }

  lemma FlushedEntries(v: Version, table: set<Entry>, depth: int, number: nat)
    ensures EntriesIn(Flushed(v, table, depth, number)) == EntriesIn(v) + table
  {
    var w := Flushed(v, table, depth, number);
    forall e ensures e in EntriesIn(w) <==> e in EntriesIn(v) + table {
      if e in EntriesIn(v) {
        var p :| p in v && p.entry == e;
        assert p in w;
      }
      if e in table {
        assert Placed(e, depth, number) in w;
      }
    }
  }

  // ---------- Compaction ----------

  /** A compaction in progress: its inputs, in merged order, and what decides its drops. */
  datatype Job = Job(inputs: Version, input: seq<Entry>, rule: Rule)

  /** Every table below the output level is on record in the rule's list of files. */
  ghost predicate OnRecord(v: Version, r: Rule) {
    forall p :: p in v && p.depth > r.level + 1 ==>
      p.depth < |r.files| && exists i :: 0 <= i < |r.files[p.depth]| && Spans(r.files[p.depth][i], p.entry.key)
  }

  /** No entry of intermediate age stays behind: of each key, what is at or above the output
      level and not an input is newer than every input. */
  ghost predicate Closed(v: Version, j: Job) {
    forall p, q :: p in j.inputs && q in v - j.inputs && q.depth <= j.rule.level + 1 && p.entry.key == q.entry.key ==>
      q.entry.sequence > p.entry.sequence
  }

  /** No key of the inputs has its base here while a deeper level holds it. */
  ghost predicate Grounded(v: Version, j: Job) {
    forall p, q :: p in j.inputs && q in v && q.depth > j.rule.level + 1 && p.entry.key == q.entry.key ==>
      !Base(j.rule, p.entry.key)
  }

  /** The inputs are whole tables of the version, and the input lists their entries in order. */
  ghost predicate JobTakes(v: Version, j: Job) {
    && j.inputs <= v && (forall p :: p in j.inputs ==> p.depth <= j.rule.level + 1)
    && (forall p, q :: p in j.inputs && q in v && p.table == q.table ==> q in j.inputs)
    && Sorted(j.input) && Elements(j.input) == EntriesIn(j.inputs)
  }

  ghost predicate JobFits(v: Version, j: Job) {
    JobTakes(v, j) && Closed(v, j) && Grounded(v, j)
  }

  lemma OnRecordGrounds(v: Version, j: Job)
    requires OnRecord(v, j.rule)
    ensures Grounded(v, j)
  {
    forall p, q | p in j.inputs && q in v && q.depth > j.rule.level + 1 && p.entry.key == q.entry.key
      ensures !Base(j.rule, p.entry.key)
    {
      var i :| 0 <= i < |j.rule.files[q.depth]| && Spans(j.rule.files[q.depth][i], q.entry.key);
    }
  }

  /** A flush while the compaction runs does not disturb what it drops. */
  lemma FlushKeepsJob(imm: set<Entry>, v: Version, depth: int, number: nat, j: Job)
    requires JobFits(v, j) && NewerThan(imm, EntriesIn(v)) && MayFlushTo(v, imm, depth, number)
    ensures JobFits(Flushed(v, imm, depth, number), j)
  {
    var w := Flushed(v, imm, depth, number);
    forall p | p in j.inputs ensures p.entry in EntriesIn(v) {
    }
    assert forall q :: q in w && q !in v ==> q.entry in imm && q.depth == depth && q.table == number;
    forall p, q | p in j.inputs && q in w && q !in v && q.depth > j.rule.level + 1 && p.entry.key == q.entry.key
      ensures false
    {
      assert Overlap(p, p, q.entry, q.entry);
    }
  }

  /** The table file numbers of the outputs, one for each kept entry: the outputs are cut one after
      the other, and their files are new. */
  ghost predicate Cuts(v: Version, j: Job, numbers: seq<nat>) {
    && |numbers| == |Kept(j.input, |j.input|, j.rule)|
    && (forall i, k :: 0 <= i < k < |numbers| ==> numbers[i] <= numbers[k])
    && forall p, i :: p in v && 0 <= i < |numbers| ==> p.table != numbers[i]
  }

  ghost function Outputs(j: Job, numbers: seq<nat>): Version
    requires |numbers| == |Kept(j.input, |j.input|, j.rule)|
  {
    set i | 0 <= i < |numbers| :: Placed(Kept(j.input, |j.input|, j.rule)[i], j.rule.level + 1, numbers[i])
  }

  /** The version once the results are installed: inputs out, outputs in at the next level. */
  ghost function Installed(v: Version, j: Job, numbers: seq<nat>): Version
    requires |numbers| == |Kept(j.input, |j.input|, j.rule)|
  {
    v - j.inputs + Outputs(j, numbers)
  }

  lemma OutputEntries(j: Job, numbers: seq<nat>)
    requires |numbers| == |Kept(j.input, |j.input|, j.rule)|
    ensures EntriesIn(Outputs(j, numbers)) == Elements(Kept(j.input, |j.input|, j.rule))
  {
    var K := Kept(j.input, |j.input|, j.rule);
    forall e | e in K ensures e in EntriesIn(Outputs(j, numbers)) {
      var i :| 0 <= i < |K| && K[i] == e;
      assert Placed(K[i], j.rule.level + 1, numbers[i]) in Outputs(j, numbers);
    }
  }

  lemma InstalledEntries(v: Version, j: Job, numbers: seq<nat>)
    requires |numbers| == |Kept(j.input, |j.input|, j.rule)|
    ensures EntriesIn(Installed(v, j, numbers)) == EntriesIn(v - j.inputs) + Elements(Kept(j.input, |j.input|, j.rule))
  {
    OutputEntries(j, numbers);
    TwoParts(v - j.inputs, Outputs(j, numbers));
  }

  lemma TwoParts(v: Version, w: Version)
    ensures EntriesIn(v + w) == EntriesIn(v) + EntriesIn(w)
  {
    forall e ensures e in EntriesIn(v + w) <==> e in EntriesIn(v) + EntriesIn(w) {
      if e in EntriesIn(v) + EntriesIn(w) {
        var p :| p in v + w && p.entry == e;
      }
    }
  }

  /** What an output holds was in an input. */
  lemma FromInput(j: Job, numbers: seq<nat>, p: Placed) returns (i: Placed, k: nat)
    requires |numbers| == |Kept(j.input, |j.input|, j.rule)| && Elements(j.input) == EntriesIn(j.inputs)
    requires p in Outputs(j, numbers)
    ensures i in j.inputs && i.entry == p.entry
    ensures k < |numbers| && p == Placed(Kept(j.input, |j.input|, j.rule)[k], j.rule.level + 1, numbers[k])
  {
    var K := Kept(j.input, |j.input|, j.rule);
    k :| 0 <= k < |numbers| && p == Placed(K[k], j.rule.level + 1, numbers[k]);
    KeptMembers(j.input, |j.input|, j.rule, K[k]);
    assert K[k] in Elements(j.input);
    i :| i in j.inputs && i.entry == K[k];
  }

  lemma InstallKeepsLayers(mem: set<Entry>, imm: set<Entry>, v: Version, j: Job, numbers: seq<nat>)
    requires Layered(mem, imm, v) && JobFits(v, j) && Cuts(v, j, numbers)
    ensures Layered(mem, imm, Installed(v, j, numbers))
    ensures EntriesIn(Installed(v, j, numbers)) <= EntriesIn(v)
  {
    var w := Installed(v, j, numbers);
    InstallLosesOnly(v, j, numbers);
    forall p, q | p in w && q in w && p.entry.key == q.entry.key && p.depth < q.depth
      ensures p.entry.sequence > q.entry.sequence
    {
      if q in v - j.inputs {
        if p !in v - j.inputs {
          var i, _ := FromInput(j, numbers, p);
        }
      } else {
        var i, _ := FromInput(j, numbers, q);
        assert p in v - j.inputs;
      }
    }
  }

  lemma InstallLosesOnly(v: Version, j: Job, numbers: seq<nat>)
    requires JobTakes(v, j) && Cuts(v, j, numbers)
    ensures EntriesIn(Installed(v, j, numbers)) <= EntriesIn(v)
  {
    var w := Installed(v, j, numbers);
    forall e | e in EntriesIn(w) ensures e in EntriesIn(v) {
      var p :| p in w && p.entry == e;
      if p !in v {
        var i, _ := FromInput(j, numbers, p);
        assert i in v;
      }
    }
  }

  /** Installing a compaction changes no read at or above its smallest snapshot. */
  lemma InstallKeepsReads(mem: set<Entry>, imm: set<Entry>, v: Version, j: Job, numbers: seq<nat>, u: UserKey, s: nat)
    requires Layered(mem, imm, v) && JobFits(v, j) && Distinct(All(mem, imm, v)) && Cuts(v, j, numbers)
    requires forall e :: e in All(mem, imm, v) ==> Parses(e)
    requires s >= j.rule.smallestSnapshot
    ensures View(All(mem, imm, Installed(v, j, numbers)), u, s) == View(All(mem, imm, v), u, s)
  {
    var others := mem + imm + EntriesIn(v - j.inputs);
    InputsAndOthers(mem, imm, v, j, numbers);
    OthersFit(mem, imm, v, j, u, others);
    ParseableCompactionPreservesReads(j.input, j.rule, u);
  }

  lemma InputsAndOthers(mem: set<Entry>, imm: set<Entry>, v: Version, j: Job, numbers: seq<nat>)
    requires JobTakes(v, j) && Cuts(v, j, numbers)
    ensures var others := mem + imm + EntriesIn(v - j.inputs);
      && All(mem, imm, v) == Elements(j.input) + others
      && All(mem, imm, Installed(v, j, numbers)) == Elements(Kept(j.input, |j.input|, j.rule)) + others
  {
    assert v == v - j.inputs + j.inputs;
    TwoParts(v - j.inputs, j.inputs);
    InstalledEntries(v, j, numbers);
  }

  /** A deletion marker among the inputs is dropped, and a layer that is no input has an older value. */
  ghost predicate UncoversInstalled(mem: set<Entry>, imm: set<Entry>, v: Version, j: Job, u: UserKey) {
    Uncovers(j.input, j.rule, u, mem + imm + EntriesIn(v - j.inputs))
  }

  /** Without a word on which tables were chosen: the installation keeps all reads of u at or above the
      smallest snapshot exactly when it uncovers nothing. */
  lemma InstallKeepsReadsExactly(mem: set<Entry>, imm: set<Entry>, v: Version, j: Job, numbers: seq<nat>, u: UserKey)
    requires JobTakes(v, j) && Distinct(All(mem, imm, v)) && Cuts(v, j, numbers)
    requires forall e :: e in All(mem, imm, v) ==> Parses(e)
    ensures (forall s :: s >= j.rule.smallestSnapshot ==>
               View(All(mem, imm, v), u, s) == View(All(mem, imm, Installed(v, j, numbers)), u, s))
            <==> !UncoversInstalled(mem, imm, v, j, u)
  {
    InputsAndOthers(mem, imm, v, j, numbers);
    ReadsKeptExactly(j.input, j.rule, u, mem + imm + EntriesIn(v - j.inputs));
  }

  lemma OthersFit(mem: set<Entry>, imm: set<Entry>, v: Version, j: Job, u: UserKey, others: set<Entry>)
    requires Layered(mem, imm, v) && JobFits(v, j) && Distinct(All(mem, imm, v))
    requires others == mem + imm + EntriesIn(v - j.inputs)
    ensures Fits(others, j.input, j.rule, u)
  {
    forall e | e in j.input ensures e in EntriesIn(j.inputs) {
      assert e in Elements(j.input);
    }
    forall o, e | o in others && e in j.input && Base(j.rule, u) && o.key == u && e.key == u ensures o.sequence > e.sequence {
      var p :| p in j.inputs && p.entry == e;
      assert e in EntriesIn(v);
      if o !in mem + imm {
        var q :| q in v - j.inputs && q.entry == o;
      }
    }
  }

  // ---------- Disjoint tables ----------

  /** q stands between p and r, which are in one table of a level above 0, and q is in another there. */
  predicate Splits(p: Placed, q: Placed, r: Placed) {
    && p.depth == q.depth == r.depth > 0 && p.table == r.table != q.table
    && Before(p.entry, q.entry) && Before(q.entry, r.entry)
  }

  /** Of each level above 0, the tables have ranges that do not meet. */
  ghost predicate Apart(v: Version) {
    forall p, q, r {:trigger Splits(p, q, r)} :: p in v && q in v && r in v ==> !Splits(p, q, r)
  }

  /** No entry is stored twice. */
  ghost predicate Single(v: Version) {
    forall p, q :: p in v && q in v && p.entry == q.entry ==> p == q
  }

  /** Each table is at one level, and at level 0 each has a depth of its own, by its number. */
  ghost predicate Leveled(v: Version) {
    && (forall p :: p in v ==> p.depth < NUM_LEVELS && (p.depth <= 0 ==> p.depth + p.table == 0))
    && forall p, q {:trigger p.table, q.table} :: p in v && q in v && p.table == q.table ==> p.depth == q.depth
  }

  lemma FlushKeepsLeveled(v: Version, imm: set<Entry>, depth: int, number: nat)
    requires Leveled(v) && MayFlushTo(v, imm, depth, number) && depth < NUM_LEVELS
    ensures Leveled(Flushed(v, imm, depth, number))
  {
  }

  lemma InstallKeepsLeveled(v: Version, j: Job, numbers: seq<nat>)
    requires Leveled(v) && Cuts(v, j, numbers) && 0 <= j.rule.level && j.rule.level + 1 < NUM_LEVELS
    ensures Leveled(Installed(v, j, numbers))
  {
    forall p, q | p in v && q in Outputs(j, numbers) ensures p.table != q.table {
      var k :| 0 <= k < |numbers| && q == Placed(Kept(j.input, |j.input|, j.rule)[k], j.rule.level + 1, numbers[k]);
    }
  }

  lemma MoveKeepsLeveled(v: Version, table: Version, level: nat)
    requires Leveled(v) && MayMove(v, table, level) && level + 1 < NUM_LEVELS
    ensures Leveled(Moved(v, table, level))
  {
  }

  lemma Ordered(v: Version, p: Placed, q: Placed)
    requires Single(v) && Distinct(EntriesIn(v)) && (forall p :: p in v ==> Parses(p.entry)) && p in v && q in v && p != q
    ensures Before(p.entry, q.entry) || Before(q.entry, p.entry)
  {
    assert p.entry in EntriesIn(v) && q.entry in EntriesIn(v);
  }

  lemma FlushKeepsApart(v: Version, imm: set<Entry>, depth: int, number: nat)
    requires Apart(v) && MayFlushTo(v, imm, depth, number)
    ensures Apart(Flushed(v, imm, depth, number))
  {
    var w := Flushed(v, imm, depth, number);
    forall p, q, r | p in w && q in w && r in w ensures !Splits(p, q, r) {
      if Splits(p, q, r) && q in v {
        assert p !in v || !Splits(p, q, r);
        assert Overlap(q, q, p.entry, r.entry);
      } else if Splits(p, q, r) {
        assert Overlap(p, r, q.entry, q.entry);
      }
    }
  }

  /** A table with entries q and s is neither wholly before nor wholly behind inputs p and r. */
  predicate Straddles(p: Placed, q: Placed, s: Placed, r: Placed) {
    q.depth == s.depth && q.table == s.table && Before(p.entry, q.entry) && Before(s.entry, r.entry)
  }

  /** Each table of the level below that is not an input lies wholly before or wholly behind the inputs. */
  ghost predicate Aside(v: Version, inputs: Version, level: nat) {
    forall p, q, s, r {:trigger Straddles(p, q, s, r)} ::
      p in inputs && r in inputs && q in v - inputs && s in v - inputs && q.depth == level + 1 ==> !Straddles(p, q, s, r)
  }

  /** A table with entries q and s is neither wholly before a nor wholly behind b. */
  predicate Reaches(a: Entry, q: Placed, s: Placed, b: Entry) {
    q.depth == s.depth && q.table == s.table && Before(a, q.entry) && Before(s.entry, b)
  }

  /** Each table of the output level that is not an input lies wholly before or wholly behind what is kept. */
  ghost predicate KeptAside(v: Version, j: Job) {
    var K := Elements(Kept(j.input, |j.input|, j.rule));
    forall a, q, s, b {:trigger Reaches(a, q, s, b)} ::
      a in K && b in K && q in v - j.inputs && s in v - j.inputs && q.depth == j.rule.level + 1 ==> !Reaches(a, q, s, b)
  }

  lemma AsideOfKept(v: Version, j: Job)
    requires Aside(v, j.inputs, j.rule.level) && Elements(j.input) == EntriesIn(j.inputs)
    ensures KeptAside(v, j)
  {
    var K := Elements(Kept(j.input, |j.input|, j.rule));
    forall a, q, s, b | a in K && b in K && q in v - j.inputs && s in v - j.inputs && q.depth == j.rule.level + 1
      ensures !Reaches(a, q, s, b)
    {
      var p := InputOf(j, a);
      var r := InputOf(j, b);
      assert !Straddles(p, q, s, r);
    }
  }

  lemma InputOf(j: Job, e: Entry) returns (p: Placed)
    requires Elements(j.input) == EntriesIn(j.inputs) && e in Kept(j.input, |j.input|, j.rule)
    ensures p in j.inputs && p.entry == e
  {
    KeptMembers(j.input, |j.input|, j.rule, e);
    assert e in Elements(j.input);
    p :| p in j.inputs && p.entry == e;
  }

  lemma InstallKeepsApart(v: Version, j: Job, numbers: seq<nat>)
    requires Apart(v) && JobTakes(v, j) && Cuts(v, j, numbers) && KeptAside(v, j)
    ensures Apart(Installed(v, j, numbers))
  {
    var w := Installed(v, j, numbers);
    KeptSorted(j.input, |j.input|, j.rule);
    forall p, q, r | p in w && q in w && r in w && Splits(p, q, r) ensures false {
      if p in v - j.inputs {
        OneTable(v, j, numbers, p, r);
        if q !in v - j.inputs {
          var i, _ := FromInput(j, numbers, q);
          assert Reaches(q.entry, r, p, q.entry);
        }
      } else {
        OneTable(v, j, numbers, r, p);
        var i, a := FromInput(j, numbers, p);
        var k, c := FromInput(j, numbers, r);
        if q in v - j.inputs {
          assert Reaches(p.entry, q, q, r.entry);
        } else {
          var _, b := FromInput(j, numbers, q);
          OutputsCut(Kept(j.input, |j.input|, j.rule), numbers, a, b, c);
        }
      }
    }
  }

  /** An output and a table that stays are two. */
  lemma OneTable(v: Version, j: Job, numbers: seq<nat>, p: Placed, r: Placed)
    requires Cuts(v, j, numbers) && JobTakes(v, j) && p.table == r.table
    requires p in Installed(v, j, numbers) && r in Installed(v, j, numbers)
    ensures p in v - j.inputs ==> r in v - j.inputs
  {
    if p in v - j.inputs && r !in v - j.inputs {
      var _, k := FromInput(j, numbers, r);
    }
  }

  /** Between two entries of one output there are none of another. */
  lemma OutputsCut(K: seq<Entry>, numbers: seq<nat>, a: nat, b: nat, c: nat)
    requires Sorted(K) && |numbers| == |K| && forall i, k :: 0 <= i < k < |numbers| ==> numbers[i] <= numbers[k]
    requires a < |K| && b < |K| && c < |K| && Before(K[a], K[b]) && Before(K[b], K[c]) && numbers[a] == numbers[c]
    ensures numbers[b] == numbers[a]
  {
    SortedOrder(K, a, b);
    SortedOrder(K, b, c);
  }

  lemma SortedOrder(s: seq<Entry>, a: nat, b: nat)
    requires Sorted(s) && a < |s| && b < |s| && Before(s[a], s[b])
    ensures a < b
  {
  }

  lemma FlushKeepsSingle(v: Version, imm: set<Entry>, depth: int, number: nat)
    requires Single(v) && NewerThan(imm, EntriesIn(v))
    ensures Single(Flushed(v, imm, depth, number))
  {
    forall p | p in v ensures p.entry !in imm {
      assert p.entry in EntriesIn(v);
    }
  }

  lemma InstallKeepsSingle(v: Version, j: Job, numbers: seq<nat>)
    requires Single(v) && JobTakes(v, j) && Cuts(v, j, numbers)
    ensures Single(Installed(v, j, numbers))
  {
    var w, K := Installed(v, j, numbers), Kept(j.input, |j.input|, j.rule);
    KeptSorted(j.input, |j.input|, j.rule);
    forall p, q | p in w && q in w && p.entry == q.entry ensures p == q {
      if p !in v - j.inputs {
        var i, a := FromInput(j, numbers, p);
        if q !in v - j.inputs {
          var k, b := FromInput(j, numbers, q);
          SameIndex(K, a, b);
        }
      } else if q !in v - j.inputs {
        var k, b := FromInput(j, numbers, q);
      }
    }
  }

  lemma SameIndex(s: seq<Entry>, a: nat, b: nat)
    requires Sorted(s) && a < |s| && b < |s| && s[a] == s[b]
    ensures a == b
  {
  }

  lemma MoveKeepsSingle(v: Version, table: Version, level: nat)
    requires Single(v) && MayMove(v, table, level)
    ensures Single(Moved(v, table, level))
  {
  }

  /** The memtable goes to the output level, between entries that the compaction keeps. */
  ghost predicate FlushedInside(imm: set<Entry>, depth: int, j: Job) {
    var K := Kept(j.input, |j.input|, j.rule);
    depth == j.rule.level + 1 && exists i, e, k :: 0 <= i < k < |K| && e in imm && Between3(K[i], e, K[k])
  }

  predicate Between3(a: Entry, e: Entry, b: Entry) {
    Before(a, e) && Before(e, b)
  }

  /** A flush that does not go between what the compaction keeps leaves it its stretch of the level. */
  lemma FlushKeepsKeptAside(v: Version, imm: set<Entry>, depth: int, number: nat, j: Job)
    requires KeptAside(v, j) && JobTakes(v, j) && MayFlushTo(v, imm, depth, number) && !FlushedInside(imm, depth, j)
    ensures KeptAside(Flushed(v, imm, depth, number), j)
  {
    var w, K := Flushed(v, imm, depth, number), Kept(j.input, |j.input|, j.rule);
    forall a, q, s, b | a in Elements(K) && b in Elements(K) && q in w - j.inputs && s in w - j.inputs && q.depth == j.rule.level + 1
      ensures !Reaches(a, q, s, b)
    {
      assert Reaches(a, q, s, b) ==> (q in v <==> s in v);
      if Reaches(a, q, s, b) && q !in v {
        FlushedReaches(v, imm, depth, number, j, a, q, s, b);
      }
    }
  }

  lemma FlushedReaches(v: Version, imm: set<Entry>, depth: int, number: nat, j: Job, a: Entry, q: Placed, s: Placed, b: Entry)
    requires JobTakes(v, j) && MayFlushTo(v, imm, depth, number) && depth == j.rule.level + 1
    requires a in Kept(j.input, |j.input|, j.rule) && b in Kept(j.input, |j.input|, j.rule)
    requires q.entry in imm && s.entry in imm && Reaches(a, q, s, b)
    ensures FlushedInside(imm, depth, j)
  {
    var K := Kept(j.input, |j.input|, j.rule);
    var p := InputOf(j, a);
    var i, k :| 0 <= i < |K| && 0 <= k < |K| && K[i] == a && K[k] == b;
    assert !Overlap(p, p, q.entry, s.entry) && !Overlap(p, p, s.entry, q.entry);
    KeptSorted(j.input, |j.input|, j.rule);
    assert Between3(a, s.entry, b);
    SortedOrder(K, i, k);
  }

  /** A memtable that is flushed while a compaction runs may leave tables that overlap. It leaves none,
      however the outputs are cut, exactly if it does not go between the outputs. */
  lemma FlushAndInstall(v: Version, j: Job, imm: set<Entry>, depth: int, number: nat)
    requires Apart(v) && JobTakes(v, j) && KeptAside(v, j)
    requires MayFlushTo(v, imm, depth, number)
    ensures var w := Flushed(v, imm, depth, number);
      (forall numbers :: Cuts(w, j, numbers) ==> Apart(Installed(w, j, numbers))) <==> !FlushedInside(imm, depth, j)
  {
    var w := Flushed(v, imm, depth, number);
    if FlushedInside(imm, depth, j) {
      OneOutputOverlaps(w, j, imm, depth, number);
    } else {
      forall numbers | Cuts(w, j, numbers) ensures Apart(Installed(w, j, numbers)) {
        FlushBesideInstall(v, j, imm, depth, number, numbers);
      }
    }
  }

  lemma Unused(v: Version) returns (n: nat)
    ensures forall p :: p in v ==> p.table < n
  {
    if v == {} {
      n := 0;
    } else {
      var p :| p in v;
      var m := Unused(v - {p});
      n := if p.table < m then m else p.table + 1;
      assert v == v - {p} + {p};
    }
  }

  lemma OneOutputOverlaps(w: Version, j: Job, imm: set<Entry>, depth: int, number: nat)
    requires FlushedInside(imm, depth, j) && (forall e :: e in imm ==> Placed(e, depth, number) in w)
    requires forall p :: p in j.inputs ==> p.table != number
    ensures exists numbers :: Cuts(w, j, numbers) && !Apart(Installed(w, j, numbers))
  {
    var K := Kept(j.input, |j.input|, j.rule);
    var i, e, k :| 0 <= i < k < |K| && e in imm && Between3(K[i], e, K[k]);
    var n := Unused(w);
    var numbers := seq(|K|, _ => n);
    assert Cuts(w, j, numbers);
    var p, q, r := Placed(K[i], j.rule.level + 1, n), Placed(e, depth, number), Placed(K[k], j.rule.level + 1, n);
    assert p == Placed(K[i], j.rule.level + 1, numbers[i]) && r == Placed(K[k], j.rule.level + 1, numbers[k]);
    assert p in Outputs(j, numbers) && r in Outputs(j, numbers);
    assert q in w && q.table < n;
    assert Splits(p, q, r);
    assert !Apart(Installed(w, j, numbers));
  }

  lemma FlushBesideInstall(v: Version, j: Job, imm: set<Entry>, depth: int, number: nat, numbers: seq<nat>)
    requires Apart(v) && JobTakes(v, j) && KeptAside(v, j) && MayFlushTo(v, imm, depth, number)
    requires Cuts(Flushed(v, imm, depth, number), j, numbers) && !FlushedInside(imm, depth, j)
    ensures Apart(Installed(Flushed(v, imm, depth, number), j, numbers))
  {
    var w := Flushed(v, imm, depth, number);
    var W, U := Installed(w, j, numbers), Installed(v, j, numbers);
    CutsBefore(v, imm, depth, number, j, numbers);
    InstallKeepsApart(v, j, numbers);
    FlushKeepsApart(v, imm, depth, number);
    forall p, q, r | p in W && q in W && r in W && Splits(p, q, r) ensures false {
      assert p in U && q in U && r in U ==> !Splits(p, q, r);
      assert p in w && q in w && r in w ==> !Splits(p, q, r);
      FlushOutputSplit(v, j, imm, depth, number, numbers, p, q, r);
    }
  }

  lemma CutsBefore(v: Version, imm: set<Entry>, depth: int, number: nat, j: Job, numbers: seq<nat>)
    requires Cuts(Flushed(v, imm, depth, number), j, numbers)
    ensures Cuts(v, j, numbers)
    ensures forall p, i :: p in Flushed(v, imm, depth, number) && 0 <= i < |numbers| ==> p.table != numbers[i]
  {
  }

  /** A table split by another is the flushed one round an output, or an output round the flushed one. */
  lemma FlushOutputSplit(v: Version, j: Job, imm: set<Entry>, depth: int, number: nat, numbers: seq<nat>, p: Placed, q: Placed, r: Placed)
    requires JobTakes(v, j) && MayFlushTo(v, imm, depth, number) && Cuts(Flushed(v, imm, depth, number), j, numbers)
    requires var w, W, U := Flushed(v, imm, depth, number), Installed(Flushed(v, imm, depth, number), j, numbers), v - j.inputs + Outputs(j, numbers);
      && p in W && q in W && r in W && Splits(p, q, r)
      && !(p in U && q in U && r in U) && !(p in w && q in w && r in w)
    ensures FlushedInside(imm, depth, j)
  {
    var O := Outputs(j, numbers);
    assert forall x :: x in Flushed(v, imm, depth, number) && x !in v ==> x.entry in imm && x.depth == depth && x.table == number;
    if q in O {
      var i, _ := FromInput(j, numbers, q);
      assert Overlap(i, i, p.entry, r.entry);
    } else {
      var i, a := FromInput(j, numbers, p);
      var k, c := FromInput(j, numbers, r);
      var K := Kept(j.input, |j.input|, j.rule);
      KeptSorted(j.input, |j.input|, j.rule);
      SortedOrder(K, a, c);
      assert Between3(K[a], q.entry, K[c]);
    }
  }

  // ---------- Trivial move ----------

  /** One table goes down a level as it is. */
  ghost function Moved(v: Version, table: Version, level: nat): Version {
    v - table + set p | p in table :: Placed(p.entry, level + 1, p.table)
  }

  /** It is a whole table, no older entry of its keys stays above, and no table of the next level meets it. */
  ghost predicate MayMove(v: Version, table: Version, level: nat) {
    && table <= v && (forall p :: p in table ==> p.depth <= level)
    && (forall p, q :: p in table && q in v ==> (q in table <==> q.table == p.table))
    && (forall p, q :: p in table && q in v - table && q.depth <= level + 1 && p.entry.key == q.entry.key ==>
          q.entry.sequence > p.entry.sequence)
    && Aside(v, table, level)
  }

  lemma MovedEntries(v: Version, table: Version, level: nat)
    requires table <= v
    ensures EntriesIn(Moved(v, table, level)) == EntriesIn(v)
  {
    var w := Moved(v, table, level);
    forall p | p in v ensures p.entry in EntriesIn(w) {
      assert p in table ==> Placed(p.entry, level + 1, p.table) in w;
    }
  }

  lemma MoveKeepsLayers(mem: set<Entry>, imm: set<Entry>, v: Version, table: Version, level: nat)
    requires Layered(mem, imm, v) && MayMove(v, table, level)
    ensures Layered(mem, imm, Moved(v, table, level))
    ensures All(mem, imm, Moved(v, table, level)) == All(mem, imm, v)
  {
    MovedEntries(v, table, level);
  }

  lemma MoveKeepsApart(v: Version, table: Version, level: nat)
    requires Apart(v) && MayMove(v, table, level)
    ensures Apart(Moved(v, table, level))
  {
    var w := Moved(v, table, level);
    forall p, q, r | p in w && q in w && r in w && Splits(p, q, r) ensures false {
      if p in v - table {
        if q !in v - table {
          var i :| i in table && i.entry == q.entry;
          assert Straddles(i, r, p, i);
        }
      } else {
        var i :| i in table && i.entry == p.entry && i.table == p.table;
        var k :| k in table && k.entry == r.entry && k.table == r.table;
        assert q in v - table;
        assert Straddles(i, q, q, k);
      }
    }
  }
}

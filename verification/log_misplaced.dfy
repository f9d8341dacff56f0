/** A log whose writer has lost its place in the block. Some record written from there on is lost, whatever
    the checksum is and whether or not it is verified: one long enough and all of bytes 255. */
module LogMisplaced {
  import opened FixedBytes
  import opened LogFormat
  import opened LogWriter
  import opened LogReader
  import opened LogReplay
  import opened LogFailures

  const ONE: Byte := 255
  /** How much of a record a block of its own holds. */
  const ROOM := BLOCK_SIZE - HEADER_SIZE

  function Ones(n: nat): (b: Bytes)
    ensures |b| == n && AllOnes(b)
  {
    seq(n, _ => ONE)
  }

  ghost predicate AllOnes(b: Bytes) {
    forall i :: 0 <= i < |b| ==> b[i] == ONE
  }

  ghost predicate Short(b: Bytes, n: nat) {
    |b| <= n || !AllOnes(b)
  }

  // ---------- How much of such a record the events can make up ----------

  ghost function Weight(e: Event): nat {
    if e.Rec? && e.kind <= LAST && AllOnes(e.data) then |e.data| else 0
  }

  ghost function WeightOf(events: seq<Event>): nat {
    if events == [] then 0 else Weight(events[0]) + WeightOf(events[1..])
  }

  lemma {:induction false} WeightConcat(x: seq<Event>, y: seq<Event>)
    ensures WeightOf(x + y) == WeightOf(x) + WeightOf(y)
  {
    if x == [] {
      assert x + y == y;
    } else {
      assert (x + y)[1..] == x[1..] + y;
      WeightConcat(x[1..], y);
    }
  }

  ghost predicate AllShort(records: seq<Bytes>, n: nat) {
    forall i :: 0 <= i < |records| ==> Short(records[i], n)
  }

  lemma ShortJoin(x: Bytes, y: Bytes, m: nat, n: nat)
    requires Short(x, m) && Short(y, n)
    ensures Short(x + y, m + n)
  {
    if !AllOnes(x) {
      var i :| 0 <= i < |x| && x[i] != ONE;
      assert (x + y)[i] != ONE;
    } else if !AllOnes(y) {
      var i :| 0 <= i < |y| && y[i] != ONE;
      assert (x + y)[|x| + i] != ONE;
    }
  }

  lemma ShortTurn(c: Config, e: Event, a: Assembly, n: nat)
    requires Short(a.scratch, n)
    ensures var t := Turn(c, e, a); Short(t.next.scratch, n + Weight(e)) && AllShort(RecordsOf(t.result), n + Weight(e))
  {
    if e.Rec? && e.kind <= LAST {
      ShortJoin(a.scratch, e.data, n, Weight(e));
    }
  }

  lemma {:induction false} ShortRecords(c: Config, events: seq<Event>, a: Assembly, n: nat)
    requires Short(a.scratch, n)
    ensures AllShort(RecordsOf(Assemble(c, events, a)), n + WeightOf(events))
    decreases |events|
  {
    if events != [] {
      var t := Turn(c, events[0], a);
      ShortTurn(c, events[0], a, n);
      ShortRecords(c, events[1..], t.next, n + Weight(events[0]));
      TurnRecords(c, events, a);
    }
  }

  lemma TurnRecords(c: Config, events: seq<Event>, a: Assembly)
    requires events != []
    ensures var t := Turn(c, events[0], a);
      RecordsOf(Assemble(c, events, a)) == RecordsOf(t.result) + RecordsOf(Assemble(c, events[1..], t.next))
  {
    var e, t := events[0], Turn(c, events[0], a);
    assert events == [e] + events[1..];
    AssembleCons(c, e, events[1..], a);
    TurnReports(c, e, a);
    RecordsOfSplit(Lost(c, e) + t.reports + t.result, Assemble(c, events[1..], t.next));
  }

  lemma TurnReports(c: Config, e: Event, a: Assembly)
    ensures var t := Turn(c, e, a); RecordsOf(Lost(c, e) + t.reports + t.result) == RecordsOf(t.result)
  {
    var t := Turn(c, e, a);
    if e.Rec? {
      EffectShape(c, e.kind, e.data, e.start, e.end, a);
    } else {
      EffectShape(c, BAD_RECORD, [], e.end - HEADER_SIZE, e.end, a);
    }
    ReportsAreNoRecords(Lost(c, e) + t.reports);
    RecordsOfSplit(Lost(c, e) + t.reports, t.result);
  }

  lemma StepWeight(c: Config, g: Bytes, p: nat)
    requires p < |g|
    ensures var (es, q) := Step(c, g, p); WeightOf(es) <= q - p && q <= BlockEnd(p)
  {
    var es := Step(c, g, p).0;
    StepSize(c, g, p);
    if es != [] {
      assert es == [es[0]] && WeightOf(es[1..]) == 0;
    }
  }

  lemma {:induction false} WeightUpTo(c: Config, g: Bytes, p: nat, b: nat)
    requires p <= b <= |g| && (b % BLOCK_SIZE == 0 || b == |g|)
    ensures WeightOf(Parse(c, g, p)) <= b - p + WeightOf(Parse(c, g, b))
    decreases b - p
  {
    if p < b {
      var (es, q) := Step(c, g, p);
      StepWeight(c, g, p);
      if b % BLOCK_SIZE == 0 {
        BlockBefore(p, b);
      }
      WeightUpTo(c, g, q, b);
      WeightConcat(es, Parse(c, g, q));
    }
  }

  // ---------- The bytes of the record ----------

  /** The byte at place r of a fragment that fills a block. */
  ghost predicate Patterned(x: Byte, r: int) {
    && (r >= HEADER_SIZE ==> x == ONE)
    && (r == 4 ==> x == ROOM % 256)
    && (r == 5 ==> x == ROOM / 256)
    && (r == 6 ==> 0 < x <= LAST)
  }

  /** From offset h on, the file holds fragments of the record, the first of them at h. */
  ghost predicate Pattern(g: Bytes, h: nat) {
    forall x {:trigger At(g, h, x)} :: h <= x < |g| ==> At(g, h, x)
  }

  ghost predicate At(g: Bytes, h: nat, x: nat)
    requires h <= x < |g|
  {
    Patterned(g[x], (x - h) % BLOCK_SIZE)
  }

  lemma ItemPattern(crc: Crc, it: Item)
    requires it.pad == 0 && it.data == Ones(ROOM) && FULL <= it.kind <= LAST
    ensures |ItemBytes(crc, it)| == BLOCK_SIZE && forall x :: 0 <= x < BLOCK_SIZE ==> Patterned(ItemBytes(crc, it)[x], x)
  {
    var b := ItemBytes(crc, it);
    assert b == Physical(crc, it.kind, it.data);
    assert forall x :: HEADER_SIZE <= x < BLOCK_SIZE ==> b[x] == it.data[x - HEADER_SIZE];
  }

  ghost predicate FullBlocks(b: Bytes, k: nat) {
    |b| == k * BLOCK_SIZE && Pattern(b, 0)
  }

  lemma {:induction false} RunPattern(crc: Crc, p: nat, k: nat) returns (items: seq<Item>, b: Bytes)
    requires p % BLOCK_SIZE == 0 && k > 0
    ensures items == Fragments(p, Ones(k * ROOM), false) && b == FileBytes(crc, items) && FullBlocks(b, k)
    decreases k
  {
    if k == 1 {
      items, b := LastBlock(crc, p);
    } else {
      items, b := RunPattern(crc, p + BLOCK_SIZE, k - 1);
      items, b := BlockBeforeRun(crc, p, k, items, b);
    }
  }

  lemma LastBlock(crc: Crc, p: nat) returns (items: seq<Item>, b: Bytes)
    requires p % BLOCK_SIZE == 0
    ensures items == Fragments(p, Ones(ROOM), false) && b == FileBytes(crc, items) && FullBlocks(b, 1)
  {
    var it := FullFragment(p, 1);
    items := [it];
    b := OneBlockPattern(crc, it, [], []);
  }

  lemma BlockBeforeRun(crc: Crc, p: nat, k: nat, rest: seq<Item>, tail: Bytes) returns (items: seq<Item>, b: Bytes)
    requires p % BLOCK_SIZE == 0 && k > 1 && tail == FileBytes(crc, rest) && FullBlocks(tail, k - 1)
    requires rest == Fragments(p + BLOCK_SIZE, Ones((k - 1) * ROOM), false)
    ensures items == Fragments(p, Ones(k * ROOM), false) && b == FileBytes(crc, items) && FullBlocks(b, k)
  {
    var it := FullFragment(p, k);
    items := [it] + rest;
    b := OneBlockPattern(crc, it, rest, tail);
  }

  lemma OneBlockPattern(crc: Crc, it: Item, rest: seq<Item>, tail: Bytes) returns (b: Bytes)
    requires it.pad == 0 && it.data == Ones(ROOM) && FULL <= it.kind <= LAST
    requires tail == FileBytes(crc, rest) && Pattern(tail, 0)
    ensures b == FileBytes(crc, [it] + rest) && Pattern(b, 0) && |b| == BLOCK_SIZE + |tail|
    ensures rest == [] ==> b == FileBytes(crc, [it])
  {
    FileBytesStep(crc, it, rest);
    ItemPattern(crc, it);
    PatternJoin(ItemBytes(crc, it), tail);
    b := ItemBytes(crc, it) + tail;
  }

  lemma FullFragment(p: nat, k: nat) returns (it: Item)
    requires p % BLOCK_SIZE == 0 && k > 0
    ensures it.pad == 0 && it.data == Ones(ROOM) && FULL <= it.kind <= LAST
    ensures k == 1 ==> Fragments(p, Ones(k * ROOM), false) == [it]
    ensures k > 1 ==> Fragments(p, Ones(k * ROOM), false) == [it] + Fragments(p + BLOCK_SIZE, Ones((k - 1) * ROOM), false)
  {
    it := FirstOf(p, Ones(k * ROOM), false);
    FullData(p, k, it.pad, it.data);
  }

  lemma FullData(p: nat, k: nat, pad: nat, part: Bytes)
    requires p % BLOCK_SIZE == 0 && k > 0 && pad == Pad(p)
    requires var avail := BlockEnd(p + Pad(p)) - (p + Pad(p)) - HEADER_SIZE; var data := Ones(k * ROOM);
      part == if |data| < avail then data else data[..avail]
    ensures pad == 0 && part == Ones(ROOM) && p + HEADER_SIZE + |part| == p + BLOCK_SIZE
    ensures k == 1 <==> part == Ones(k * ROOM)
    ensures Ones(k * ROOM)[|part|..] == Ones((k - 1) * ROOM)
  {
    assert Pad(p) == 0 && BlockEnd(p) - p == BLOCK_SIZE;
  }

  lemma PatternJoin(a: Bytes, b: Bytes)
    requires |a| == BLOCK_SIZE && (forall x :: 0 <= x < BLOCK_SIZE ==> Patterned(a[x], x)) && Pattern(b, 0)
    ensures Pattern(a + b, 0) && |a + b| == BLOCK_SIZE + |b|
  {
    forall x | 0 <= x < |a + b| ensures At(a + b, 0, x) {
      if x >= BLOCK_SIZE {
        assert (a + b)[x] == b[x - BLOCK_SIZE] && At(b, 0, x - BLOCK_SIZE);
      }
    }
  }

  lemma PatternAfter(a: Bytes, b: Bytes)
    requires Pattern(b, 0)
    ensures Pattern(a + b, |a|)
  {
    forall x | |a| <= x < |a + b| ensures At(a + b, |a|, x) {
      assert (a + b)[x] == b[x - |a|] && At(b, 0, x - |a|);
    }
  }

  // ---------- What the reader sees of it in a block ----------

  /** The block at b, where the last header to begin by b + 6 begins at b + j. */
  ghost predicate View(g: Bytes, b: nat, j: int) {
    && b + BLOCK_SIZE <= |g| && 6 - BLOCK_SIZE < j <= 6 && j != 0
    && (forall x :: b <= x < b + BLOCK_SIZE && x < b + j ==> g[x] == ONE)
    && (forall x :: b <= x < b + BLOCK_SIZE && b + j + HEADER_SIZE <= x < b + j + BLOCK_SIZE ==> g[x] == ONE)
    && (j >= -4 ==> g[b + j + 4] == ROOM % 256)
    && (j >= -5 ==> g[b + j + 5] == ROOM / 256)
    && (j >= -6 ==> 0 < g[b + j + 6] <= LAST)
  }

  lemma Remainder(q: nat, m: int)
    requires 0 <= m < BLOCK_SIZE
    ensures (q * BLOCK_SIZE + m) % BLOCK_SIZE == m
  {
  }

  lemma PlaceInPattern(g: Bytes, h: nat, q: nat, x: nat, m: nat)
    requires Pattern(g, h) && m < BLOCK_SIZE && x == h + q * BLOCK_SIZE + m && x < |g|
    ensures Patterned(g[x], m)
  {
    Remainder(q, m);
    assert At(g, h, x);
  }

  lemma BlockView(g: Bytes, h: nat, b: nat) returns (j: int)
    requires Pattern(g, h) && h % BLOCK_SIZE != 0 && b % BLOCK_SIZE == 0 && h <= b && b + BLOCK_SIZE <= |g|
    ensures View(g, b, j)
  {
    var q := (b + 6 - h) / BLOCK_SIZE;
    j := h + q * BLOCK_SIZE - b;
    assert j != 0;
    forall x | b <= x < b + BLOCK_SIZE && x < b + j ensures g[x] == ONE {
      assert q > 0;
      PlaceInPattern(g, h, q - 1, x, x - (h + (q - 1) * BLOCK_SIZE));
    }
    forall x | b <= x < b + BLOCK_SIZE && b + j + HEADER_SIZE <= x < b + j + BLOCK_SIZE ensures g[x] == ONE {
      PlaceInPattern(g, h, q, x, x - (b + j));
    }
    if j >= -4 {
      PlaceInPattern(g, h, q, b + j + 4, 4);
    }
    if j >= -5 {
      PlaceInPattern(g, h, q, b + j + 5, 5);
    }
    if j >= -6 {
      PlaceInPattern(g, h, q, b + j + 6, 6);
    }
  }

  /** Nothing but bytes 255 where the length of a record beginning at q would be. */
  ghost predicate TooLong(g: Bytes, b: nat, q: nat) {
    b < q < b + BLOCK_SIZE <= |g| && (q + HEADER_SIZE <= b + BLOCK_SIZE ==> g[q + 4] == ONE && g[q + 5] == ONE)
  }

  lemma FirstInBlock(c: Config, g: Bytes, b: nat, j: int)
    requires View(g, b, j) && b % BLOCK_SIZE == 0
    ensures var (es, q) := Step(c, g, b); WeightOf(es) <= 1 && (q == b + BLOCK_SIZE || TooLong(g, b, q))
  {
    var (es, q) := Step(c, g, b);
    var n := LengthAt(g, b);
    assert BlockEnd(b) == b + BLOCK_SIZE;
    if es != [] && es[0].Rec? {
      var data := g[b + HEADER_SIZE..b + HEADER_SIZE + n];
      assert es == [Rec(TypeAt(g, b), data, b, b + HEADER_SIZE + n)] && WeightOf(es) == Weight(es[0]);
      assert j == -1 || 2 <= j <= 5;
      if 3 <= j && n > j - 3 {
        assert data[j - 3] == g[b + j + 4] != ONE;
      }
    }
  }

  lemma NextInBlock(c: Config, g: Bytes, b: nat, q: nat)
    requires TooLong(g, b, q) && b % BLOCK_SIZE == 0
    ensures Step(c, g, q).1 == b + BLOCK_SIZE && WeightOf(Step(c, g, q).0) == 0
  {
    assert BlockEnd(q) == b + BLOCK_SIZE;
  }

  /** Reading from p on gives no more than n bytes of such a record. */
  ghost predicate Light(c: Config, g: Bytes, p: nat, n: nat) {
    forall q: nat {:trigger Parse(c, g, q)} :: q == p ==> WeightOf(Parse(c, g, q)) <= n
  }

  lemma BlockWeight(c: Config, g: Bytes, b: nat, j: int, n: nat)
    requires View(g, b, j) && b % BLOCK_SIZE == 0 && Light(c, g, b + BLOCK_SIZE, n)
    ensures Light(c, g, b, n + 1)
  {
    var (es, q) := Step(c, g, b);
    FirstInBlock(c, g, b, j);
    WeightConcat(es, Parse(c, g, q));
    if q != b + BLOCK_SIZE {
      NextInBlock(c, g, b, q);
      WeightConcat(Step(c, g, q).0, Parse(c, g, b + BLOCK_SIZE));
    }
  }

  lemma {:induction false} BlocksWeight(c: Config, g: Bytes, h: nat, b: nat, n: nat)
    requires Pattern(g, h) && h % BLOCK_SIZE != 0 && b % BLOCK_SIZE == 0 && h <= b
    requires b + n * BLOCK_SIZE <= |g| < b + (n + 1) * BLOCK_SIZE
    ensures Light(c, g, b, n + BLOCK_SIZE)
    decreases n
  {
    if n > 0 {
      BlocksWeight(c, g, h, b + BLOCK_SIZE, n - 1);
      var j := BlockView(g, h, b);
      BlockWeight(c, g, b, j, n - 1 + BLOCK_SIZE);
    } else {
      WeightUpTo(c, g, b, |g|);
    }
  }

  // ---------- The record that is lost ----------

  /** A record of n bytes that fills the block of the writer's place w and then k more. */
  lemma Layout(w: nat, k: nat) returns (it: Item, n: nat)
    requires k > 0
    ensures n == |it.data| + k * ROOM && it.Size() <= 2 * BLOCK_SIZE && (w + it.Size()) % BLOCK_SIZE == 0
    ensures Fragments(w, Ones(n), true) == [it] + Fragments(w + it.Size(), Ones(k * ROOM), false)
  {
    var avail := BlockEnd(w + Pad(w)) - (w + Pad(w)) - HEADER_SIZE;
    PadPlaces(w);
    n := avail + k * ROOM;
    it := FirstOf(w, Ones(n), true);
    assert |it.data| == avail;
    assert Ones(n)[avail..] == Ones(k * ROOM);
    FullBlock(w, it);
  }

  /** Written from place w on behind f, it makes the file end in k blocks of the pattern. */
  lemma PatternWritten(crc: Crc, f: Bytes, w: nat, k: nat) returns (h: nat, n: nat, g: Bytes)
    requires k > 0
    ensures g == f + FileBytes(crc, FragmentsOfAll(w, [Ones(n)]))
    ensures Pattern(g, h) && |g| == h + k * BLOCK_SIZE && |f| <= h <= |f| + 2 * BLOCK_SIZE && n >= k * ROOM
    ensures h % BLOCK_SIZE == (|f| - w) % BLOCK_SIZE
  {
    var it;
    it, n := Layout(w, k);
    var rest, b := RunPattern(crc, w + it.Size(), k);
    SingleRecord(w, Ones(n), [it] + rest);
    h, g := Appended(crc, f, it, rest, b);
    Shift(|f|, w, it.Size());
  }

  lemma Appended(crc: Crc, f: Bytes, it: Item, rest: seq<Item>, b: Bytes) returns (h: nat, g: Bytes)
    requires b == FileBytes(crc, rest) && Pattern(b, 0)
    ensures g == f + FileBytes(crc, [it] + rest) && h == |f| + it.Size() && |g| == h + |b| && Pattern(g, h)
  {
    FileBytesStep(crc, it, rest);
    PatternAfter(f + ItemBytes(crc, it), b);
    SameFile(f, ItemBytes(crc, it), b);
    h, g := |f| + it.Size(), f + ItemBytes(crc, it) + b;
  }

  lemma SingleRecord(w: nat, data: Bytes, items: seq<Item>)
    requires items == Fragments(w, data, true)
    ensures FragmentsOfAll(w, [data]) == items
  {
    assert [data][1..] == [];
  }

  lemma Shift(p: nat, w: nat, size: nat)
    requires (w + size) % BLOCK_SIZE == 0
    ensures (p + size) % BLOCK_SIZE == (p - w) % BLOCK_SIZE
  {
    assert p + size == (p - w) + (w + size);
  }

  lemma NothingLong(c: Config, g: Bytes, h: nat, k: nat)
    requires c.initial == 0 && Pattern(g, h) && h % BLOCK_SIZE != 0 && |g| == h + k * BLOCK_SIZE && k > 0
    ensures AllShort(Records(c, g), h + k + 2 * BLOCK_SIZE)
  {
    var b := BlockEnd(h);
    BlocksWeight(c, g, h, b, k - 1);
    WeightUpTo(c, g, 0, b);
    ShortRecords(c, Parse(c, g, 0), Fresh(false), 0);
    AnyShorter(Records(c, g), WeightOf(Parse(c, g, 0)), h + k + 2 * BLOCK_SIZE);
  }

  lemma AnyShorter(records: seq<Bytes>, m: nat, n: nat)
    requires AllShort(records, m) && m <= n
    ensures AllShort(records, n)
  {
    forall i | 0 <= i < |records| ensures Short(records[i], n) {
      assert Short(records[i], m);
    }
  }

  /** Behind a file that does not end where the writer thinks it does, as to the place in the block, not
      everything that is written is read back. */
  lemma MisplacedLoses(c: Config, f: Bytes, w: nat)
    requires c.initial == 0 && w % BLOCK_SIZE != |f| % BLOCK_SIZE
    ensures !AllReadBack(c, f, w)
  {
    var k := |f| + 7;
    var h, n, g := PatternWritten(c.crc, f, w, k);
    NotAligned(|f|, w);
    LongLost(c, g, h, k, n);
    assert !LaterReadBack(c, f, w, [Ones(n)]);
  }

  lemma LongLost(c: Config, g: Bytes, h: nat, k: nat, n: nat)
    requires c.initial == 0 && Pattern(g, h) && h % BLOCK_SIZE != 0 && |g| == h + k * BLOCK_SIZE
    requires n >= k * ROOM && k + 2 * BLOCK_SIZE >= h && k >= 7
    ensures !ReadBack(c, g, [Ones(n)])
  {
    NothingLong(c, g, h, k);
    NotRead(c, g, n, h + k + 2 * BLOCK_SIZE);
  }

  lemma NotAligned(p: nat, w: nat)
    requires w % BLOCK_SIZE != p % BLOCK_SIZE
    ensures (p - w) % BLOCK_SIZE != 0
  {
  }

  lemma NotRead(c: Config, g: Bytes, n: nat, m: nat)
    requires m < n && AllShort(Records(c, g), m)
    ensures !ReadBack(c, g, [Ones(n)])
  {
    var records := Records(c, g);
    forall i | 0 <= i < |records| ensures records[i] != Ones(n) {
      assert Short(records[i], m);
    }
    if records != [] {
      assert records[|records| - 1..][0] != [Ones(n)][0];
    }
  }

  // ---------- Exactly when ----------

  ghost predicate LaterReadBack(c: Config, f: Bytes, w: nat, later: seq<Bytes>) {
    ReadBack(c, f + FileBytes(c.crc, FragmentsOfAll(w, later)), later)
  }

  /** Whatever is written from the writer's place w on behind f is read back. */
  ghost predicate AllReadBack(c: Config, f: Bytes, w: nat) {
    forall later :: LaterReadBack(c, f, w, later)
  }

  lemma {:induction false} SameFragments(p: nat, q: nat, records: seq<Bytes>)
    requires p % BLOCK_SIZE == q % BLOCK_SIZE
    ensures FragmentsOfAll(p, records) == FragmentsOfAll(q, records)
    decreases |records|
  {
    if records != [] {
      var fs := Fragments(p, records[0], true);
      SamePlaces(p, q, records[0], true);
      SameEnd(p, q, fs);
      SameFragments(EndOf(fs, p), EndOf(fs, q), records[1..]);
    }
  }

  /** The call of AddRecord that tried the puts, on a log that was in step until then, whether it succeeded
      or not: all that is written later is read back if and only if the file ends where the writer goes on,
      as to the place in the block. If so, the log is still in step. */
  lemma {:induction false} ReadBackExactly(c: Config, f: Bytes, o: nat, record: Bytes, puts: seq<Put>, ok: bool)
    requires c.initial == 0 && InStep(c, f) && o % BLOCK_SIZE == |f| % BLOCK_SIZE
    requires Tried(Fragments(o, record, true), puts, ok)
    ensures var items := Fragments(o, record, true); var now, w := f + AllPut(c.crc, items, puts), EndOf(items[..|puts|], o);
      && (AllReadBack(c, now, w) <==> w % BLOCK_SIZE == |now| % BLOCK_SIZE)
      && (w % BLOCK_SIZE == |now| % BLOCK_SIZE ==> InStep(c, now))
  {
    var items := Fragments(o, record, true);
    var now, w := f + AllPut(c.crc, items, puts), EndOf(items[..|puts|], o);
    if w % BLOCK_SIZE == |now| % BLOCK_SIZE {
      SamePlaces(o, |f|, record, true);
      SameEnd(o, |f|, items[..|puts|]);
      FragmentsPlaced(|f|, record, true);
      FragmentsOnePad(|f|, record, true);
      CallKeepsStep(c, f, items, puts, ok);
      InStepAllReadBack(c, now, w);
    } else {
      MisplacedLoses(c, now, w);
    }
  }

  /** Once the records have reached another block, whatever is written further on is read back. */
  ghost predicate Heals(c: Config, f: Bytes, w: nat) {
    forall a :: Beyond(c, f, w, a) ==> AllReadBack(c, f + FileBytes(c.crc, FragmentsOfAll(w, a)), EndOf(FragmentsOfAll(w, a), w))
  }

  ghost predicate Beyond(c: Config, f: Bytes, w: nat, a: seq<Bytes>) {
    |f| + |FileBytes(c.crc, FragmentsOfAll(w, a))| >= BlockEnd(|f|)
  }

  /** Whatever a log has gone through, any number of failed calls included: from the next block on everything
      is read back again, if and only if the file ends at the writer's place in the block. */
  lemma HealsExactly(c: Config, f: Bytes, w: nat)
    requires c.initial == 0
    ensures Heals(c, f, w) <==> w % BLOCK_SIZE == |f| % BLOCK_SIZE
  {
    if w % BLOCK_SIZE == |f| % BLOCK_SIZE {
      forall a | Beyond(c, f, w, a)
        ensures AllReadBack(c, f + FileBytes(c.crc, FragmentsOfAll(w, a)), EndOf(FragmentsOfAll(w, a), w))
      {
        AlignedHeals(c, f, w, a);
      }
    } else {
      MisalignedStays(c, f, w);
    }
  }

  lemma AlignedHeals(c: Config, f: Bytes, w: nat, a: seq<Bytes>)
    requires c.initial == 0 && w % BLOCK_SIZE == |f| % BLOCK_SIZE && Beyond(c, f, w, a)
    ensures AllReadBack(c, f + FileBytes(c.crc, FragmentsOfAll(w, a)), EndOf(FragmentsOfAll(w, a), w))
  {
    var items := FragmentsOfAll(w, a);
    SameFragments(w, |f|, a);
    AllPlaced(|f|, a);
    FileBytesSize(c.crc, items, |f|);
    NextBlockInStep(c, f, items);
    SameEnd(w, |f|, items);
    InStepAllReadBack(c, f + FileBytes(c.crc, items), EndOf(items, w));
  }

  lemma InStepAllReadBack(c: Config, f: Bytes, w: nat)
    requires c.initial == 0 && InStep(c, f) && w % BLOCK_SIZE == |f| % BLOCK_SIZE
    ensures AllReadBack(c, f, w)
  {
    forall later ensures LaterReadBack(c, f, w, later) {
      SameFragments(w, |f|, later);
      InStepReadsBack(c, f, later);
    }
  }

  lemma MisalignedStays(c: Config, f: Bytes, w: nat)
    requires c.initial == 0 && w % BLOCK_SIZE != |f| % BLOCK_SIZE
    ensures !Heals(c, f, w)
  {
    var h, n, g := PatternWritten(c.crc, f, w, 1);
    var items := FragmentsOfAll(w, [Ones(n)]);
    FileBytesSize(c.crc, items, w);
    StillNotAligned(w, |f|, |FileBytes(c.crc, items)|);
    MisplacedLoses(c, g, EndOf(items, w));
    assert Beyond(c, f, w, [Ones(n)]);
  }

  lemma StillNotAligned(w: nat, p: nat, n: nat)
    requires w % BLOCK_SIZE != p % BLOCK_SIZE
    ensures (w + n) % BLOCK_SIZE != (p + n) % BLOCK_SIZE
  {
  }

  /** A call that fails and leaves nothing behind, and then one that succeeds: its record is lost, because its
      second fragment does not end in the block in which the reader finds its header. */
  lemma LostAfterFailure(crc: Crc, checksum: bool, data: Bytes)
    requires |data| == ROOM - 6
    ensures var failed, items := Fragments(0, [1], true), Fragments(8, data, true);
      && Tried(failed, [Put(0, 0)], false) && AllPut(crc, failed, [Put(0, 0)]) == [] && EndOf(failed, 0) == 8
      && Records(Config(crc, checksum, 0), FileBytes(crc, items)) == []
  {
    var it := FirstOf(0, [1], true);
    assert it == Item(0, FULL, [1]);
    assert AllPut(crc, [it], [Put(0, 0)]) == [];
    var n := ROOM - 8;
    var first, last := TwoFragments(data);
    FileBytesStep(crc, first, [last]);
    FileBytesStep(crc, last, []);
    var a, b := Physical(crc, FIRST, data[..n]), Physical(crc, LAST, data[n..]);
    assert ItemBytes(crc, first) == a && ItemBytes(crc, last) == b;
    SplitReads(Config(crc, checksum, 0), data[..n], data[n..]);
  }

  lemma TwoFragments(data: Bytes) returns (first: Item, last: Item)
    requires |data| == ROOM - 6
    ensures first == Item(0, FIRST, data[..ROOM - 8]) && last == Item(0, LAST, data[ROOM - 8..])
    ensures Fragments(8, data, true) == [first] + [last]
  {
    first := FirstOf(8, data, true);
    last := FirstOf(BLOCK_SIZE, data[ROOM - 8..], false);
  }

  lemma SplitReads(c: Config, x: Bytes, y: Bytes)
    requires c.initial == 0 && |x| == ROOM - 8 && |y| == 2
    ensures Records(c, Physical(c.crc, FIRST, x) + Physical(c.crc, LAST, y)) == []
  {
    var g := Physical(c.crc, FIRST, x) + Physical(c.crc, LAST, y);
    var p := BLOCK_SIZE - 8;
    assert g[0..p] == Physical(c.crc, FIRST, x);
    StepItem(c, g, Item(0, FIRST, x), 0);
    var event, bad := Rec(FIRST, x, 0, p), Bad(8, false, BLOCK_SIZE);
    CutOff(c, g, p);
    assert Parse(c, g, 0) == [event] + [bad];
    FirstAndBad(c, event, bad);
  }

  lemma CutOff(c: Config, g: Bytes, p: nat)
    requires p == BLOCK_SIZE - 8 && |g| == BLOCK_SIZE + 1 && LengthAt(g, p) == 2
    ensures Parse(c, g, p) == [Bad(8, false, BLOCK_SIZE)]
  {
    assert Step(c, g, p) == ([Bad(8, false, BLOCK_SIZE)], BLOCK_SIZE) && Step(c, g, BLOCK_SIZE) == ([], |g|);
    assert Parse(c, g, |g|) == [] && Parse(c, g, BLOCK_SIZE) == [];
  }

  lemma FirstAndBad(c: Config, e: Event, bad: Event)
    requires e.Rec? && e.kind == FIRST && bad.Bad?
    ensures RecordsOf(Assemble(c, [e] + [bad], Fresh(false))) == []
  {
    var t := Turn(c, e, Fresh(false));
    AssembleCons(c, e, [bad], Fresh(false));
    BadGivesNothing(c, bad, t.next);
    assert Lost(c, e) + t.reports + t.result == [];
    assert Assemble(c, [e] + [bad], Fresh(false)) == [] + Assemble(c, [bad], t.next) == Assemble(c, [bad], t.next);
  }

  /** A trailer whose append fails goes unnoticed: the call that wrote it succeeds, and its record is lost. */
  lemma LostTrailer(crc: Crc, checksum: bool, data: Bytes)
    requires |data| == ROOM - 3
    ensures var f := FileBytes(crc, Fragments(0, data, true)); var items := Fragments(|f|, [1], true); var puts := [Put(0, 8)];
      && |f| == BLOCK_SIZE - 3 && Tried(items, puts, true)
      && Records(Config(crc, checksum, 0), f + AllPut(crc, items, puts)) == [data]
  {
    var it := FirstOf(0, data, true);
    var next := FirstOf(BLOCK_SIZE - 3, [1], true);
    assert it == Item(0, FULL, data) && next == Item(3, FULL, [1]);
    var f := ItemBytes(crc, it);
    FileBytesStep(crc, it, []);
    assert f == Physical(crc, FULL, data);
    assert AllPut(crc, [next], [Put(0, 8)]) == Physical(crc, FULL, [1]);
    TrailerReads(Config(crc, checksum, 0), data, Physical(crc, FULL, [1]));
  }

  lemma TrailerReads(c: Config, data: Bytes, more: Bytes)
    requires c.initial == 0 && |data| == ROOM - 3 && |more| == 8
    ensures Records(c, Physical(c.crc, FULL, data) + more) == [data]
  {
    var g := Physical(c.crc, FULL, data) + more;
    assert g[0..BLOCK_SIZE - 3] == Physical(c.crc, FULL, data);
    StepItem(c, g, Item(0, FULL, data), 0);
    assert Step(c, g, BLOCK_SIZE - 3) == ([], BLOCK_SIZE);
    assert Step(c, g, BLOCK_SIZE) == ([], |g|);
    var event := Rec(FULL, data, 0, BLOCK_SIZE - 3);
    assert Parse(c, g, |g|) == [] && Parse(c, g, BLOCK_SIZE) == [] && Parse(c, g, BLOCK_SIZE - 3) == [];
    assert Parse(c, g, 0) == [event];
    AssembleCons(c, event, [], Fresh(false));
    RecordsOfCons(Record(data, 0), []);
  }
}

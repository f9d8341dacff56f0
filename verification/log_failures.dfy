/** Reading a log some of whose appends have failed: what is read of later records, and exactly when
    they are all read back. */
module LogFailures {
  import opened FixedBytes
  import opened LogFormat
  import opened LogWriter
  import opened LogReader
  import opened LogReplay

  // ---------- Getting to a place ----------

  /** Reading from offset p comes to offset q exactly. */
  ghost predicate Reaches(c: Config, g: Bytes, p: nat, q: nat)
    decreases |g| - p
  {
    p == q || (p < q && p < |g| && Reaches(c, g, Step(c, g, p).1, q))
  }

  ghost function EventsTo(c: Config, g: Bytes, p: nat, q: nat): seq<Event>
    requires Reaches(c, g, p, q)
    decreases |g| - p
  {
    if p == q then [] else Step(c, g, p).0 + EventsTo(c, g, Step(c, g, p).1, q)
  }

  lemma {:induction false} ParseSplits(c: Config, g: Bytes, p: nat, q: nat)
    requires Reaches(c, g, p, q)
    ensures Parse(c, g, p) == EventsTo(c, g, p, q) + Parse(c, g, q)
    decreases |g| - p
  {
    if p != q {
      ParseSplits(c, g, Step(c, g, p).1, q);
      Associate(Step(c, g, p).0, EventsTo(c, g, Step(c, g, p).1, q), Parse(c, g, q));
    }
  }

  lemma Associate(a: seq<Event>, b: seq<Event>, d: seq<Event>)
    ensures a + (b + d) == a + b + d
  {
  }

  lemma {:induction false} ReachesOn(c: Config, g: Bytes, p: nat, q: nat, r: nat)
    requires Reaches(c, g, p, q) && Reaches(c, g, q, r)
    ensures Reaches(c, g, p, r)
    decreases |g| - p
  {
    if p != q {
      ReachesOn(c, g, Step(c, g, p).1, q, r);
      GoesForward(c, g, q, r);
    }
  }

  lemma GoesForward(c: Config, g: Bytes, q: nat, r: nat)
    requires Reaches(c, g, q, r)
    ensures q <= r
  {
  }

  /** Whatever the bytes, reading begins anew at every block. */
  lemma {:induction false} ReachesBlock(c: Config, g: Bytes, p: nat, b: nat)
    requires p <= b <= |g| && b % BLOCK_SIZE == 0
    ensures Reaches(c, g, p, b)
    decreases |g| - p
  {
    if p < b {
      BlockBefore(p, b);
      assert Step(c, g, p).1 <= BlockEnd(p);
      ReachesBlock(c, g, Step(c, g, p).1, b);
    }
  }

  lemma BlockBefore(p: nat, b: nat)
    requires p < b && b % BLOCK_SIZE == 0
    ensures BlockEnd(p) <= b
  {
  }

  /** However the file goes on, reading comes to its end, or to the end of the trailer there. */
  ghost predicate InStep(c: Config, f: Bytes) {
    forall tail: Bytes {:trigger Continued(c, f, tail)} :: Continued(c, f, tail)
  }

  ghost predicate Continued(c: Config, f: Bytes, tail: Bytes) {
    |f| + Pad(|f|) <= |f + tail| ==> Reaches(c, f + tail, 0, |f| + Pad(|f|))
  }

  /** So it is with any file that ends at the end of a block, or too close to it for a header. */
  lemma BlockEndInStep(c: Config, f: Bytes)
    requires Pad(|f|) > 0 || |f| % BLOCK_SIZE == 0
    ensures InStep(c, f)
  {
    forall tail: Bytes ensures Continued(c, f, tail) {
      if |f| + Pad(|f|) <= |f + tail| {
        PadToBlock(|f|);
        ReachesBlock(c, f + tail, 0, |f| + Pad(|f|));
      }
    }
  }

  lemma PadToBlock(p: nat)
    requires Pad(p) > 0 || p % BLOCK_SIZE == 0
    ensures (p + Pad(p)) % BLOCK_SIZE == 0
  {
  }

  lemma EmptyInStep(c: Config)
    ensures InStep(c, [])
  {
    BlockEndInStep(c, []);
  }

  /** And it stays so with one more fragment, whole and in its place. */
  lemma ItemInStep(c: Config, f: Bytes, it: Item)
    requires InStep(c, f) && Fits(it, |f|)
    ensures InStep(c, f + ItemBytes(c.crc, it))
  {
    forall tail: Bytes ensures Continued(c, f + ItemBytes(c.crc, it), tail) {
      SameFile(f, ItemBytes(c.crc, it), tail);
      assert Continued(c, f, ItemBytes(c.crc, it) + tail);
      ItemReached(c, f, it, tail);
      Over(c, f, ItemBytes(c.crc, it), tail);
    }
  }

  lemma Over(c: Config, f: Bytes, b: Bytes, tail: Bytes)
    requires Continued(c, f, b + tail) && Reaches(c, f + b + tail, |f| + Pad(|f|), |f + b|)
    requires Pad(|f|) <= |b|
    ensures Continued(c, f + b, tail)
  {
    SameFile(f, b, tail);
    Onward(c, f + b + tail, |f| + Pad(|f|), |f + b|);
  }

  lemma Onward(c: Config, g: Bytes, s: nat, e: nat)
    requires Reaches(c, g, s, e)
    ensures Reaches(c, g, 0, s) && e + Pad(e) <= |g| ==> Reaches(c, g, 0, e + Pad(e))
  {
    if Reaches(c, g, 0, s) && e + Pad(e) <= |g| {
      ReachesOn(c, g, 0, s, e);
      OverPad(c, g, e);
      ReachesOn(c, g, 0, e, e + Pad(e));
    }
  }

  lemma ItemReached(c: Config, f: Bytes, it: Item, tail: Bytes)
    requires Fits(it, |f|)
    ensures Pad(|f|) <= it.Size() && Reaches(c, f + ItemBytes(c.crc, it) + tail, |f| + Pad(|f|), |f + ItemBytes(c.crc, it)|)
  {
    var g, s, e := f + ItemBytes(c.crc, it) + tail, |f| + it.pad, |f| + it.Size();
    ItemThere(c, f, it, tail);
    PlacedFits(it, |f|);
    StepItem(c, g, it, s);
    assert Reaches(c, g, e, e);
  }

  lemma SameFile(a: Bytes, b: Bytes, d: Bytes)
    ensures a + b + d == a + (b + d)
  {
  }

  lemma ItemThere(c: Config, f: Bytes, it: Item, tail: Bytes)
    requires Fits(it, |f|)
    ensures var g, s := f + ItemBytes(c.crc, it) + tail, |f| + it.pad;
      && s == |f| + Pad(|f|) && s + HEADER_SIZE + |it.data| <= |g| && s + HEADER_SIZE + |it.data| <= BlockEnd(s)
      && g[s..s + HEADER_SIZE + |it.data|] == Physical(c.crc, it.kind, it.data)
  {
  }

  lemma OverPad(c: Config, g: Bytes, p: nat)
    requires p + Pad(p) <= |g|
    ensures Reaches(c, g, p, p + Pad(p))
  {
    PadPlaces(p);
  }

  // ---------- In step, everything later is read back ----------

  ghost function Records(c: Config, g: Bytes): seq<Bytes> {
    RecordsOf(ReadAllOut(c, g))
  }

  /** The later records are all read, in order and last. */
  ghost predicate ReadBack(c: Config, g: Bytes, later: seq<Bytes>) {
    |later| <= |Records(c, g)| && Records(c, g)[|Records(c, g)| - |later|..] == later
  }

  /** The reassembly that a list of events leaves. */
  ghost function After(c: Config, events: seq<Event>, a: Assembly): Assembly {
    if events == [] then a else After(c, events[1..], Turn(c, events[0], a).next)
  }

  lemma {:induction false} AssembleConcat(c: Config, x: seq<Event>, y: seq<Event>, a: Assembly)
    requires !a.resyncing
    ensures Assemble(c, x + y, a) == Assemble(c, x, a) + Assemble(c, y, After(c, x, a))
    ensures !After(c, x, a).resyncing
  {
    if x == [] {
      assert x + y == y;
    } else {
      var t := Turn(c, x[0], a);
      assert (x + y)[1..] == x[1..] + y;
      AssembleConcat(c, x[1..], y, t.next);
      AppendOuts(Lost(c, x[0]) + t.reports + t.result, Assemble(c, x[1..], t.next), Assemble(c, y, After(c, x, a)));
    }
  }

  lemma AppendOuts(a: seq<Out>, b: seq<Out>, d: seq<Out>)
    ensures a + (b + d) == a + b + d
  {
  }

  /** A record that begins is read the same whatever went before. */
  lemma BeginsAnew(c: Config, events: seq<Event>, a: Assembly)
    requires Begins(events) && !a.resyncing
    ensures RecordsOf(Assemble(c, events, a)) == RecordsOf(Assemble(c, events, Fresh(false)))
  {
    var t := StartTurn(c, events[0], a);
    var rest := Assemble(c, events[1..], t.next);
    ReportsAreNoRecords(t.reports);
    RecordsOfSplit(t.reports, t.result + rest);
    AppendOuts(t.reports, t.result, rest);
    assert Assemble(c, events, a) == t.reports + (t.result + rest);
    assert Assemble(c, events, Fresh(false)) == t.result + rest;
  }

  lemma StartTurn(c: Config, e: Event, a: Assembly) returns (t: Effect)
    requires e.Rec? && (e.kind == FULL || e.kind == FIRST) && !a.resyncing
    ensures t == Turn(c, e, a) && Turn(c, e, Fresh(false)) == t.(reports := []) && Lost(c, e) == []
    ensures OnlyReports(t.reports)
  {
    t := Turn(c, e, a);
  }

  /** The events begin with the start of a record. */
  ghost predicate Begins(events: seq<Event>) {
    events != [] && events[0].Rec? && (events[0].kind == FULL || events[0].kind == FIRST)
  }

  /** Read from the start of a record on, the events give the records. */
  ghost predicate Makes(c: Config, events: seq<Event>, records: seq<Bytes>) {
    Begins(events) && RecordsOf(Assemble(c, events, Fresh(false))) == records
  }

  lemma SpelledRead(c: Config, g: Bytes, items: seq<Item>, p: nat)
    requires c.initial == 0 && WellPlaced(items, p) && Spelled(c, g, items, p) && p + Pad(p) <= |g|
    ensures Reads(c, g, p + Pad(p), PrefixEvents(items, p, |g|))
  {
    SpelledStands(c, g, items, p);
    ParsePrefix(c, g, g, items, p);
    PadRead(c, g, p, PrefixEvents(items, p, |g|));
  }

  lemma PadRead(c: Config, g: Bytes, p: nat, events: seq<Event>)
    requires Reads(c, g, p, events) && p + Pad(p) <= |g|
    ensures Reads(c, g, p + Pad(p), events)
  {
    ParsePad(c, g, p);
  }

  lemma AppendedSpells(c: Config, f: Bytes, items: seq<Item>)
    ensures var g := f + FileBytes(c.crc, items); |g| == EndOf(items, |f|) && Spelled(c, g, items, |f|)
  {
    assert (f + FileBytes(c.crc, items))[|f|..] == FileBytes(c.crc, items);
    FileBytesSize(c.crc, items, |f|);
  }

  /** What the reader makes of records written in their places from the end of f on. */
  lemma LaterEvents(c: Config, f: Bytes, later: seq<Bytes>) returns (b: Bytes, events: seq<Event>)
    requires c.initial == 0 && later != []
    ensures b == FileBytes(c.crc, FragmentsOfAll(|f|, later))
    ensures Makes(c, events, later) && |f| + Pad(|f|) <= |f + b| && Reads(c, f + b, |f| + Pad(|f|), events)
  {
    var items := LaterAssembled(c, |f|, later);
    b := FileBytes(c.crc, items);
    AppendedSpells(c, f, items);
    SpelledRead(c, f + b, items, |f|);
    events := PrefixEvents(items, |f|, |f + b|);
  }

  lemma LaterAssembled(c: Config, p: nat, later: seq<Bytes>) returns (items: seq<Item>)
    requires later != []
    ensures items == FragmentsOfAll(p, later) && WellPlaced(items, p) && p + Pad(p) <= EndOf(items, p)
    ensures Makes(c, PrefixEvents(items, p, EndOf(items, p)), later)
  {
    items := FragmentsOfAll(p, later);
    AllPlaced(p, later);
    AssemblePrefix(c, p, later, EndOf(items, p));
    AllUpToEnd(p, later, EndOf(items, p));
    var it := FirstOf(p, later[0], true);
    assert items[0] == it;
    EndGrows(items, p);
  }

  lemma InStepReadsBack(c: Config, f: Bytes, later: seq<Bytes>)
    requires c.initial == 0 && InStep(c, f)
    ensures ReadBack(c, f + FileBytes(c.crc, FragmentsOfAll(|f|, later)), later)
  {
    if later != [] {
      var b, events := LaterEvents(c, f, later);
      JoinsOn(c, f, b, events, later);
    }
  }

  lemma JoinsOn(c: Config, f: Bytes, b: Bytes, events: seq<Event>, later: seq<Bytes>)
    requires c.initial == 0 && InStep(c, f) && Makes(c, events, later)
    requires |f| + Pad(|f|) <= |f + b| && Reads(c, f + b, |f| + Pad(|f|), events)
    ensures ReadBack(c, f + b, later)
  {
    assert Continued(c, f, b);
    ReadsOnFrom(c, f + b, |f| + Pad(|f|), events, later);
  }

  lemma ReadsOnFrom(c: Config, g: Bytes, q: nat, events: seq<Event>, later: seq<Bytes>)
    requires c.initial == 0 && Reaches(c, g, 0, q) && Reads(c, g, q, events) && Makes(c, events, later)
    ensures ReadBack(c, g, later)
  {
    var before := EventsTo(c, g, 0, q);
    ParseSplits(c, g, 0, q);
    AssembleConcat(c, before, events, Fresh(false));
    BeginsAnew(c, events, After(c, before, Fresh(false)));
    RecordsOfSplit(Assemble(c, before, Fresh(false)), Assemble(c, events, After(c, before, Fresh(false))));
  }

  // ---------- What was read stays read ----------

  lemma StepGrows(c: Config, f: Bytes, g: Bytes, p: nat)
    requires p < |f| && f <= g
    ensures Step(c, f, p) == Step(c, g, p)
            || (Step(c, f, p).1 == |f| && |Step(c, f, p).0| <= 1 && forall e :: e in Step(c, f, p).0 ==> e.Bad?)
  {
    if Min(|f|, BlockEnd(p)) - p >= HEADER_SIZE && p + HEADER_SIZE + LengthAt(f, p) <= Min(|f|, BlockEnd(p)) {
      var next := p + HEADER_SIZE + LengthAt(f, p);
      assert f[p..p + 4] == g[p..p + 4] && f[p + 6..next] == g[p + 6..next] && f[p + HEADER_SIZE..next] == g[p + HEADER_SIZE..next];
    }
  }

  lemma StepSize(c: Config, f: Bytes, p: nat)
    requires p < |f|
    ensures |Step(c, f, p).0| <= 1
  {
  }

  lemma BadGivesNothing(c: Config, e: Event, a: Assembly)
    requires e.Bad?
    ensures RecordsOf(Assemble(c, [e], a)) == []
  {
    AssembleCons(c, e, [], a);
    EffectShape(c, BAD_RECORD, [], e.end - HEADER_SIZE, e.end, a);
    RecordsOfSplit(Lost(c, e), Turn(c, e, a).reports);
    ReportsAreNoRecords(Turn(c, e, a).reports);
  }

  lemma {:induction false} RecordsGrow(c: Config, f: Bytes, g: Bytes, p: nat, a: Assembly)
    requires f <= g
    ensures RecordsOf(Assemble(c, Parse(c, f, p), a)) <= RecordsOf(Assemble(c, Parse(c, g, p), a))
    decreases |f| - p
  {
    if p < |f| {
      var (es, q) := Step(c, f, p);
      StepSize(c, f, p);
      StepGrows(c, f, g, p);
      if Step(c, f, p) != Step(c, g, p) {
        LastStep(c, f, p, a);
      } else if es == [] {
        RecordsGrow(c, f, g, q, a);
        assert Parse(c, f, p) == Parse(c, f, q) && Parse(c, g, p) == Parse(c, g, q);
      } else {
        RecordsGrow(c, f, g, q, Turn(c, es[0], a).next);
        OneMore(c, es[0], Parse(c, f, q), Parse(c, g, q), a);
        assert es == [es[0]];
      }
    }
  }

  lemma LastStep(c: Config, f: Bytes, p: nat, a: Assembly)
    requires p < |f| && Step(c, f, p).1 == |f| && |Step(c, f, p).0| <= 1 && forall e :: e in Step(c, f, p).0 ==> e.Bad?
    ensures RecordsOf(Assemble(c, Parse(c, f, p), a)) == []
  {
    var es := Step(c, f, p).0;
    assert Parse(c, f, p) == es + Parse(c, f, |f|) == es;
    if es != [] {
      assert es == [es[0]] && es[0] in es;
      BadGivesNothing(c, es[0], a);
    }
  }

  lemma OneMore(c: Config, e: Event, x: seq<Event>, y: seq<Event>, a: Assembly)
    requires var b := Turn(c, e, a).next; RecordsOf(Assemble(c, x, b)) <= RecordsOf(Assemble(c, y, b))
    ensures RecordsOf(Assemble(c, [e] + x, a)) <= RecordsOf(Assemble(c, [e] + y, a))
  {
    var t := Turn(c, e, a);
    AssembleCons(c, e, x, a);
    AssembleCons(c, e, y, a);
    RecordsOfSplit(Lost(c, e) + t.reports + t.result, Assemble(c, x, t.next));
    RecordsOfSplit(Lost(c, e) + t.reports + t.result, Assemble(c, y, t.next));
  }

  /** Whatever is appended to a log, in whatever state, the records that were read of it are still read
      first. */
  lemma AppendingUnreadsNothing(c: Config, f: Bytes, g: Bytes)
    requires f <= g
    ensures Records(c, f) <= Records(c, g)
  {
    RecordsGrow(c, f, g, if c.initial > 0 then StartBlock(c.initial) else 0, Assembly(c.initial > 0, false, [], 0));
  }

  // ---------- A call that fails and leaves the file in step ----------

  /** Only the first fragment of a record can follow a trailer. */
  ghost predicate OnePad(items: seq<Item>) {
    forall i :: 0 < i < |items| ==> items[i].pad == 0
  }

  lemma {:induction false} FragmentsOnePad(p: nat, data: Bytes, begin: bool)
    ensures OnePad(Fragments(p, data, begin))
    ensures Fragments(p, data, begin)[0].pad == Pad(p)
    decreases |data|, if p % BLOCK_SIZE == BLOCK_SIZE - HEADER_SIZE then 1 else 0
  {
    var it := FirstAndRest(p, data, begin);
    if it.data != data {
      FragmentsOnePad(p + it.Size(), data[|it.data|..], false);
      OnePadBefore(it, Fragments(p + it.Size(), data[|it.data|..], false));
    }
  }

  /** A fragment that is not the last one fills its block. */
  lemma FirstAndRest(p: nat, data: Bytes, begin: bool) returns (it: Item)
    ensures it.pad == Pad(p) && (it.data == data ==> Fragments(p, data, begin) == [it])
    ensures it.data != data ==>
              && |it.data| < |data| && Pad(p + it.Size()) == 0
              && Fragments(p, data, begin) == [it] + Fragments(p + it.Size(), data[|it.data|..], false)
              && (it.data == [] ==> p % BLOCK_SIZE == BLOCK_SIZE - HEADER_SIZE && (p + it.Size()) % BLOCK_SIZE != BLOCK_SIZE - HEADER_SIZE)
  {
    it := FirstOf(p, data, begin);
    if it.data != data {
      HeaderOnlyOnce(p, data, begin, it);
      FullBlock(p, it);
    }
  }

  lemma OnePadBefore(it: Item, rest: seq<Item>)
    requires OnePad(rest) && (rest != [] ==> rest[0].pad == 0)
    ensures OnePad([it] + rest)
  {
  }

  lemma FullBlock(p: nat, it: Item)
    requires it.pad == Pad(p) && |it.data| == BlockEnd(p + Pad(p)) - (p + Pad(p)) - HEADER_SIZE
    ensures (p + it.Size()) % BLOCK_SIZE == 0 && Pad(p + it.Size()) == 0
  {
  }

  /** The bytes of the trailer, and of the last fragment, that did not get on the file. */
  function TrailerLost(items: seq<Item>, puts: seq<Put>): nat
    requires 0 < |puts| <= |items| && AllFit(items, puts)
  {
    items[0].pad - puts[0].trailer
  }

  function BodyLost(items: seq<Item>, puts: seq<Put>): nat
    requires 0 < |puts| <= |items| && AllFit(items, puts)
  {
    HEADER_SIZE + |items[|puts| - 1].data| - puts[|puts| - 1].body
  }

  lemma {:induction false} ThroughLength(crc: Crc, items: seq<Item>, puts: seq<Put>, p: nat)
    requires puts != [] && AllFit(items, puts) && AllThrough(items, puts) && OnePad(items)
    ensures p + |AllPut(crc, items, puts)| + TrailerLost(items, puts) == EndOf(items[..|puts|], p)
    decreases |puts|
  {
    LastPut(crc, items, puts, p);
    if |puts| > 1 {
      ThroughLength(crc, items, puts[..|puts| - 1], p);
    }
  }

  lemma {:induction false} LastPut(crc: Crc, items: seq<Item>, puts: seq<Put>, p: nat)
    requires puts != [] && AllFit(items, puts)
    ensures var n := |puts| - 1;
      && |AllPut(crc, items, puts)| == |AllPut(crc, items, puts[..n])| + puts[n].trailer + puts[n].body
      && EndOf(items[..n + 1], p) == EndOf(items[..n], p) + items[n].Size()
  {
    EndOfLast(items, |puts| - 1, p);
  }

  lemma EndOfLast(items: seq<Item>, n: nat, p: nat)
    requires n < |items|
    ensures EndOf(items[..n + 1], p) == EndOf(items[..n], p) + items[n].Size()
  {
    assert items[..n + 1] == items[..n] + [items[n]];
    EndOfConcat(items[..n], [items[n]], p);
  }

  /** By how much the writer's place is ahead of the end of the file. */
  lemma {:induction false} Ahead(crc: Crc, items: seq<Item>, puts: seq<Put>, ok: bool, p: nat)
    requires Tried(items, puts, ok) && puts != [] && OnePad(items)
    ensures p + |AllPut(crc, items, puts)| + TrailerLost(items, puts) + BodyLost(items, puts) == EndOf(items[..|puts|], p)
  {
    LastPut(crc, items, puts, p);
    if |puts| > 1 {
      ThroughLength(crc, items, puts[..|puts| - 1], p);
    }
  }

  lemma {:induction false} ItemsInStep(c: Config, f: Bytes, items: seq<Item>)
    requires InStep(c, f) && WellPlaced(items, |f|)
    ensures InStep(c, f + FileBytes(c.crc, items))
    decreases |items|
  {
    if items == [] {
      assert f + FileBytes(c.crc, items) == f;
    } else {
      var b := ItemBytes(c.crc, items[0]);
      ItemInStep(c, f, items[0]);
      ItemsInStep(c, f + b, items[1..]);
      SameFile(f, b, FileBytes(c.crc, items[1..]));
    }
  }

  /** Whatever is in a file: fragments in their places behind it that reach the next block bring it in step. */
  lemma {:induction false} NextBlockInStep(c: Config, f: Bytes, items: seq<Item>)
    requires WellPlaced(items, |f|) && EndOf(items, |f|) >= BlockEnd(|f|)
    ensures InStep(c, f + FileBytes(c.crc, items))
    decreases |items|
  {
    if Pad(|f|) > 0 || |f| % BLOCK_SIZE == 0 {
      BlockEndInStep(c, f);
      ItemsInStep(c, f, items);
    } else {
      var b := ItemBytes(c.crc, items[0]);
      WithinBlock(items[0], |f|);
      SameFile(f, b, FileBytes(c.crc, items[1..]));
      if |f + b| == BlockEnd(|f|) {
        BlockEndInStep(c, f + b);
        ItemsInStep(c, f + b, items[1..]);
      } else {
        NextBlockInStep(c, f + b, items[1..]);
      }
    }
  }

  lemma WithinBlock(it: Item, p: nat)
    requires Fits(it, p) && Pad(p) == 0
    ensures var e := p + it.Size(); if e == BlockEnd(p) then e % BLOCK_SIZE == 0 else BlockEnd(e) == BlockEnd(p)
  {
    assert it.pad == Pad(p) && p + it.Size() <= BlockEnd(p + Pad(p));
  }

  lemma {:induction false} PlacedPrefix(items: seq<Item>, p: nat, n: nat)
    requires WellPlaced(items, p) && n <= |items|
    ensures WellPlaced(items[..n], p)
    ensures n > 0 ==> Fits(items[n - 1], EndOf(items[..n - 1], p))
    decreases n
  {
    if n > 0 {
      assert items[..n][1..] == items[1..][..n - 1];
      PlacedPrefix(items[1..], p + items[0].Size(), n - 1);
      if n > 1 {
        assert items[..n - 1][1..] == items[1..][..n - 2];
      }
    }
  }

  /** Fewer than 40000 bytes are lost, so that only a whole number of blocks keeps the place. */
  lemma {:induction false} WholeBlock(items: seq<Item>, puts: seq<Put>, p: nat)
    requires 0 < |puts| <= |items| && AllFit(items, puts) && WellPlaced(items, p)
    requires (TrailerLost(items, puts) + BodyLost(items, puts)) % BLOCK_SIZE == 0
    ensures TrailerLost(items, puts) + BodyLost(items, puts) > 0 ==>
              var w := EndOf(items[..|puts|], p); Pad(w) > 0 || w % BLOCK_SIZE == 0
  {
    var n := |puts| - 1;
    PlacedPrefix(items, p, |puts|);
    EndOfLast(items, n, p);
    NearBlockEnd(EndOf(items[..n], p), items[n]);
    LastFills(items, puts, p);
  }

  lemma {:induction false} LastFills(items: seq<Item>, puts: seq<Put>, p: nat)
    requires 0 < |puts| <= |items| && AllFit(items, puts) && WellPlaced(items, p)
    requires HEADER_SIZE + |items[|puts| - 1].data| <= BLOCK_SIZE
    requires (TrailerLost(items, puts) + BodyLost(items, puts)) % BLOCK_SIZE == 0
    ensures TrailerLost(items, puts) + BodyLost(items, puts) > 0 ==> HEADER_SIZE + |items[|puts| - 1].data| >= BLOCK_SIZE - 6
  {
    FirstPad(items, p);
    Multiple(TrailerLost(items, puts), BodyLost(items, puts), HEADER_SIZE + |items[|puts| - 1].data|);
  }

  lemma FirstPad(items: seq<Item>, p: nat)
    requires items != [] && WellPlaced(items, p)
    ensures items[0].pad < HEADER_SIZE
  {
    PadPlaces(p);
  }

  lemma Multiple(t: nat, b: nat, n: nat)
    requires t < HEADER_SIZE && b <= n <= BLOCK_SIZE && (t + b) % BLOCK_SIZE == 0
    ensures t + b > 0 ==> n >= BLOCK_SIZE - 6
  {
  }

  lemma NearBlockEnd(p: nat, it: Item)
    requires Fits(it, p)
    ensures HEADER_SIZE + |it.data| <= BLOCK_SIZE
    ensures var w := p + it.Size(); HEADER_SIZE + |it.data| >= BLOCK_SIZE - 6 ==> Pad(w) > 0 || w % BLOCK_SIZE == 0
  {
    PadPlaces(p);
    assert it.pad == Pad(p) && p + it.Size() <= BlockEnd(p + Pad(p));
  }

  /** A call that leaves the end of the file where the writer thinks it is, as to the place in the block,
      keeps the log readable whatever follows: the fragments tried are whole, or 32768 bytes are missing. */
  lemma {:induction false} CallKeepsStep(c: Config, f: Bytes, items: seq<Item>, puts: seq<Put>, ok: bool)
    requires InStep(c, f) && WellPlaced(items, |f|) && OnePad(items) && Tried(items, puts, ok) && puts != []
    requires EndOf(items[..|puts|], |f|) % BLOCK_SIZE == |f + AllPut(c.crc, items, puts)| % BLOCK_SIZE
    ensures InStep(c, f + AllPut(c.crc, items, puts))
  {
    Ahead(c.crc, items, puts, ok, |f|);
    var lost := TrailerLost(items, puts) + BodyLost(items, puts);
    SameRest(|f + AllPut(c.crc, items, puts)|, lost);
    WholeBlock(items, puts, |f|);
    if lost > 0 {
      SamePad(EndOf(items[..|puts|], |f|), |f + AllPut(c.crc, items, puts)|);
      BlockEndInStep(c, f + AllPut(c.crc, items, puts));
    } else {
      NoneLost(c, f, items, puts, ok);
    }
  }

  lemma SameRest(n: nat, lost: nat)
    requires (n + lost) % BLOCK_SIZE == n % BLOCK_SIZE
    ensures lost % BLOCK_SIZE == 0
  {
  }

  lemma {:induction false} NoneLost(c: Config, f: Bytes, items: seq<Item>, puts: seq<Put>, ok: bool)
    requires InStep(c, f) && WellPlaced(items, |f|) && OnePad(items) && Tried(items, puts, ok) && puts != []
    requires TrailerLost(items, puts) == 0 && BodyLost(items, puts) == 0
    ensures InStep(c, f + AllPut(c.crc, items, puts))
  {
    AllWhole(items, puts, ok);
    WholePut(c.crc, items, puts);
    PlacedPrefix(items, |f|, |puts|);
    ItemsInStep(c, f, items[..|puts|]);
  }

  lemma {:induction false} AllWhole(items: seq<Item>, puts: seq<Put>, ok: bool)
    requires OnePad(items) && Tried(items, puts, ok) && puts != []
    requires TrailerLost(items, puts) == 0 && BodyLost(items, puts) == 0
    ensures AllThrough(items, puts) && NoTrailerLost(items, puts)
  {
    var n := |puts| - 1;
    forall i | 0 <= i < |puts| ensures Through(items[i], puts[i]) {
      assert i < n ==> puts[..n][i] == puts[i];
    }
  }
}

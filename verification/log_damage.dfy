/** Reading a damaged log, and reading from an offset: one account of both. Each fragment
    is read as it was written, or is where the reader notices damage, or is passed over. */
module LogDamage {
  import opened FixedBytes
  import opened LogFormat
  import opened LogReader
  import opened LogReplay

  datatype Fate = Intact | Caught | Passed

  /** At offset s the reader gives up the rest of a block that is not the last one: the
      length does not fit, or the record is a zero record, or the checksum is wrong. */
  ghost predicate CaughtAt(c: Config, g: Bytes, s: nat) {
    && BlockEnd(s) <= |g| && s + HEADER_SIZE <= BlockEnd(s)
    && (s + HEADER_SIZE + LengthAt(g, s) > BlockEnd(s)
        || (TypeAt(g, s) == ZERO_TYPE && LengthAt(g, s) == 0)
        || (c.checksum && !ChecksumAt(c.crc, g, s)))
  }

  /** How an item written at offset p may fare in file g, when the reader has already given
      up everything before skip. The bytes of a passed item and of trailers are free. */
  ghost predicate ItemFate(c: Config, it: Item, p: nat, g: Bytes, fate: Fate, skip: nat) {
    if p + it.pad < skip then fate == Passed
    else
      && p + it.Size() <= |g|
      && match fate
         case Passed => false
         case Intact => g[p + it.pad..p + it.Size()] == Physical(c.crc, it.kind, it.data)
         case Caught => CaughtAt(c, g, p + it.pad)
  }

  function NextSkip(it: Item, p: nat, fate: Fate, skip: nat): nat {
    if fate == Caught then BlockEnd(p + it.pad) else skip
  }

  ghost predicate Fated(c: Config, items: seq<Item>, p: nat, g: Bytes, fates: seq<Fate>, skip: nat)
    decreases |items|
  {
    && |fates| == |items|
    && (items != [] ==>
          && ItemFate(c, items[0], p, g, fates[0], skip)
          && Fated(c, items[1..], p + items[0].Size(), g, fates[1..], NextSkip(items[0], p, fates[0], skip)))
  }

  /** The one event an item gives, if it gives one. */
  ghost function EventOf(c: Config, it: Item, p: nat, g: Bytes, fate: Fate): seq<Event> {
    var s, e := p + it.pad, p + it.Size();
    match fate
    case Passed => []
    case Intact => [if s < c.initial then Bad(0, true, e) else Rec(it.kind, it.data, s, e)]
    case Caught => if s < |g| then Step(c, g, s).0 else []
  }

  ghost function FatedEvents(c: Config, items: seq<Item>, p: nat, g: Bytes, fates: seq<Fate>): seq<Event>
    requires |fates| == |items|
    decreases |items|
  {
    if items == [] then []
    else EventOf(c, items[0], p, g, fates[0]) + FatedEvents(c, items[1..], p + items[0].Size(), g, fates[1..])
  }

  lemma CaughtStep(c: Config, g: Bytes, s: nat)
    requires CaughtAt(c, g, s)
    ensures s < |g| && Step(c, g, s).1 == BlockEnd(s)
    ensures |Step(c, g, s).0| == 1 && Step(c, g, s).0[0].Bad?
  {
  }

  function Max(a: nat, b: nat): nat {
    if a < b then b else a
  }

  /** Up to where the reader has given up, after the items. */
  function SkipAfter(items: seq<Item>, p: nat, fates: seq<Fate>, skip: nat): nat
    requires |fates| == |items|
    decreases |items|
  {
    if items == [] then skip
    else SkipAfter(items[1..], p + items[0].Size(), fates[1..], NextSkip(items[0], p, fates[0], skip))
  }

  /** A reader standing at the later of p and skip reads the events of the items first. */
  lemma {:induction false} ParseFated(c: Config, items: seq<Item>, p: nat, g: Bytes, fates: seq<Fate>, skip: nat, rest: seq<Event>)
    requires WellPlaced(items, p) && Fated(c, items, p, g, fates, skip) && skip % BLOCK_SIZE == 0
    requires Reads(c, g, Max(EndOf(items, p), SkipAfter(items, p, fates, skip)), rest)
    ensures Reads(c, g, Max(p, skip), FatedEvents(c, items, p, g, fates) + rest)
    ensures SkipAfter(items, p, fates, skip) % BLOCK_SIZE == 0
    decreases |items|
  {
    if items == [] {
      assert FatedEvents(c, items, p, g, fates) + rest == rest;
    } else {
      var it, e, skip1 := items[0], p + items[0].Size(), NextSkip(items[0], p, fates[0], skip);
      var tail := FatedEvents(c, items[1..], e, g, fates[1..]);
      assert FatedEvents(c, items, p, g, fates) + rest == EventOf(c, it, p, g, fates[0]) + (tail + rest);
      BlockEndMultiple(p + it.pad);
      ParseFated(c, items[1..], e, g, fates[1..], skip1, rest);
      ParseOne(c, g, it, p, fates[0], skip, tail + rest);
    }
  }

  lemma ParseOne(c: Config, g: Bytes, it: Item, p: nat, fate: Fate, skip: nat, rest: seq<Event>)
    requires Fits(it, p) && ItemFate(c, it, p, g, fate, skip) && skip % BLOCK_SIZE == 0
    requires Reads(c, g, Max(p + it.Size(), NextSkip(it, p, fate, skip)), rest)
    ensures Reads(c, g, Max(p, skip), EventOf(c, it, p, g, fate) + rest)
  {
    match fate
    case Passed =>
      BeforeSkip(it, p, skip);
      assert EventOf(c, it, p, g, fate) + rest == rest;
    case Intact =>
      ParseIntact(c, g, it, p, skip, rest);
    case Caught =>
      ParseCaught(c, g, it, p, skip, rest);
  }

  lemma ParseIntact(c: Config, g: Bytes, it: Item, p: nat, skip: nat, rest: seq<Event>)
    requires ItemStands(c, g, it, p) && skip % BLOCK_SIZE == 0 && skip <= p + it.pad
    requires Reads(c, g, Max(p + it.Size(), skip), rest)
    ensures Reads(c, g, Max(p, skip), EventOf(c, it, p, g, Intact) + rest)
  {
    SkipInPad(it, p, skip);
    IntactEvent(c, it, p, g, rest);
    if p < skip {
      ParseAt(c, g, it, p + it.pad, rest);
    } else {
      ParseItem(c, g, it, p, rest);
    }
  }

  lemma SkipInPad(it: Item, p: nat, skip: nat)
    requires Fits(it, p) && skip % BLOCK_SIZE == 0 && skip <= p + it.pad
    ensures Max(p + it.Size(), skip) == p + it.Size() && Max(p, skip) == if p < skip then p + it.pad else p
  {
    if p < skip {
      NextBlock(p, skip);
    }
  }

  lemma IntactEvent(c: Config, it: Item, p: nat, g: Bytes, rest: seq<Event>)
    ensures var s, e := p + it.pad, p + it.Size();
      EventOf(c, it, p, g, Intact) + rest == [if s < c.initial then Bad(0, true, e) else Rec(it.kind, it.data, s, e)] + rest
  {
  }

  lemma ParseCaught(c: Config, g: Bytes, it: Item, p: nat, skip: nat, rest: seq<Event>)
    requires Fits(it, p) && p + it.Size() <= |g|
    requires skip % BLOCK_SIZE == 0 && skip <= p + it.pad && CaughtAt(c, g, p + it.pad)
    requires Reads(c, g, Max(p + it.Size(), BlockEnd(p + it.pad)), rest)
    ensures Reads(c, g, Max(p, skip), EventOf(c, it, p, g, Caught) + rest)
  {
    ParseToItem(c, g, it, p, skip);
    CaughtStep(c, g, p + it.pad);
  }

  lemma BlockEndMultiple(s: nat)
    ensures BlockEnd(s) % BLOCK_SIZE == 0
  {
  }

  lemma BeforeSkip(it: Item, p: nat, skip: nat)
    requires Fits(it, p) && skip % BLOCK_SIZE == 0 && p + it.pad < skip
    ensures p + it.Size() <= skip
  {
    assert p + it.Size() <= BlockEnd(p + it.pad);
  }

  lemma NextBlock(p: nat, skip: nat)
    requires skip % BLOCK_SIZE == 0 && p < skip <= p + Pad(p)
    ensures skip == p + Pad(p)
  {
  }

  lemma ParseToItem(c: Config, g: Bytes, it: Item, p: nat, skip: nat)
    requires Fits(it, p) && p + it.Size() <= |g|
    requires skip % BLOCK_SIZE == 0 && skip <= p + it.pad
    ensures Parse(c, g, Max(p, skip)) == Parse(c, g, p + it.pad)
  {
    ParsePad(c, g, p);
    if p < skip {
      NextBlock(p, skip);
    }
  }

  // ---------- Reassembly ----------

  /** Reading the events in state a returns the records, whatever is reported. */
  ghost predicate Gives(c: Config, events: seq<Event>, a: Assembly, records: seq<Bytes>) {
    forall es {:trigger Assemble(c, es, a)} :: es == events ==> RecordsOf(Assemble(c, es, a)) == records
  }

  /** The fragment reaches the reassembly. */
  predicate Alive(c: Config, it: Item, p: nat, fate: Fate) {
    fate == Intact && p + it.pad >= c.initial
  }

  /** The reassembly after an item. */
  function After(c: Config, it: Item, p: nat, fate: Fate, a: Assembly): Assembly {
    if fate == Passed then a
    else if Alive(c, it, p, fate) then Dispatch(c, it.kind, it.data, p + it.pad, p + it.Size(), a).next
    else if a.inFragment then Fresh(false)
    else a.(resyncing := false)
  }

  function AfterAll(c: Config, items: seq<Item>, p: nat, fates: seq<Fate>, a: Assembly): Assembly
    requires |fates| == |items|
    decreases |items|
  {
    if items == [] then a
    else AfterAll(c, items[1..], p + items[0].Size(), fates[1..], After(c, items[0], p, fates[0], a))
  }

  /** The record an item completes, if it completes one. */
  function Completed(c: Config, it: Item, p: nat, fate: Fate, a: Assembly): seq<Bytes> {
    if !Alive(c, it, p, fate) then []
    else if it.kind == FULL then [it.data]
    else if it.kind == LAST && a.inFragment && !a.resyncing then [a.scratch + it.data]
    else []
  }

  lemma TakeItem(c: Config, it: Item, p: nat, g: Bytes, fate: Fate, rest: seq<Event>, a: Assembly, records: seq<Bytes>)
    requires FULL <= it.kind <= LAST && (fate == Caught ==> CaughtAt(c, g, p + it.pad))
    requires Gives(c, rest, After(c, it, p, fate, a), records)
    ensures Gives(c, EventOf(c, it, p, g, fate) + rest, a, Completed(c, it, p, fate, a) + records)
  {
    if fate == Passed {
      assert EventOf(c, it, p, g, fate) + rest == rest;
    } else {
      var ev, t := ItemTurn(c, it, p, g, fate, a);
      TakeOne(c, ev, rest, a, t, records);
    }
  }

  lemma ItemTurn(c: Config, it: Item, p: nat, g: Bytes, fate: Fate, a: Assembly) returns (ev: Event, t: Effect)
    requires FULL <= it.kind <= LAST && fate != Passed && (fate == Caught ==> CaughtAt(c, g, p + it.pad))
    ensures EventOf(c, it, p, g, fate) == [ev] && IsTurn(c, ev, a, t)
    ensures t.next == After(c, it, p, fate, a) && RecordsOf(t.result) == Completed(c, it, p, fate, a)
  {
    if fate == Caught {
      CaughtStep(c, g, p + it.pad);
    }
    ev := EventOf(c, it, p, g, fate)[0];
    t := Turn(c, ev, a);
  }

  /** t is what one event does to the reassembly. */
  ghost predicate IsTurn(c: Config, ev: Event, a: Assembly, t: Effect) {
    forall e {:trigger Turn(c, e, a)} :: e == ev ==> Turn(c, e, a) == t
  }

  lemma TakeOne(c: Config, ev: Event, rest: seq<Event>, a: Assembly, t: Effect, records: seq<Bytes>)
    requires IsTurn(c, ev, a, t) && Gives(c, rest, t.next, records)
    ensures Gives(c, [ev] + rest, a, RecordsOf(t.result) + records)
  {
    var told, tail := Lost(c, ev) + t.reports, Assemble(c, rest, t.next);
    TurnReports(c, ev, a);
    AssembleCons(c, ev, rest, a);
    OnlyResultsCount(told, t.result, tail);
  }

  lemma OnlyResultsCount(told: seq<Out>, result: seq<Out>, tail: seq<Out>)
    requires OnlyReports(told)
    ensures RecordsOf(told + result + tail) == RecordsOf(result) + RecordsOf(tail)
  {
    ReportsAreNoRecords(told);
    RecordsOfSplit(told, result);
    RecordsOfSplit(told + result, tail);
  }

  lemma TurnReports(c: Config, ev: Event, a: Assembly)
    ensures OnlyReports(Lost(c, ev) + Turn(c, ev, a).reports)
  {
  }

  // ---------- One record ----------

  /** No record is in progress while items are passed over, and one that is in progress
      began where reading was asked for. */
  ghost predicate Steady(c: Config, a: Assembly, p: nat, skip: nat) {
    && (a.resyncing ==> !a.inFragment)
    && (a.inFragment ==> skip <= p && c.initial <= p)
    && (!a.inFragment ==> a.scratch == [])
  }

  ghost predicate AllIntact(fates: seq<Fate>) {
    forall i :: 0 <= i < |fates| ==> fates[i] == Intact
  }

  /** What is returned of a record, or of what is left of the one in progress. */
  ghost function Saved(c: Config, items: seq<Item>, p: nat, data: Bytes, begin: bool, fates: seq<Fate>, a: Assembly): seq<Bytes>
    requires items != []
  {
    if !AllIntact(fates) then []
    else if begin then if p + items[0].pad >= c.initial then [data] else []
    else if a.inFragment then [a.scratch + data] else []
  }

  lemma {:induction false} RecordGives(c: Config, items: seq<Item>, p: nat, data: Bytes, begin: bool, g: Bytes,
                                       fates: seq<Fate>, skip: nat, a: Assembly, rest: seq<Event>, records: seq<Bytes>)
    requires Carries(items, data, begin) && Fated(c, items, p, g, fates, skip)
    requires Steady(c, a, p, skip) && (begin ==> !a.inFragment)
    requires Gives(c, rest, AfterAll(c, items, p, fates, a), records)
    ensures Gives(c, FatedEvents(c, items, p, g, fates) + rest, a, Saved(c, items, p, data, begin, fates, a) + records)
    ensures !AfterAll(c, items, p, fates, a).inFragment && AfterAll(c, items, p, fates, a).scratch == []
    decreases |items|
  {
    var it, e, b := items[0], p + items[0].Size(), After(c, items[0], p, fates[0], a);
    var tail := FatedEvents(c, items[1..], e, g, fates[1..]);
    assert FatedEvents(c, items, p, g, fates) + rest == EventOf(c, it, p, g, fates[0]) + (tail + rest);
    assert AfterAll(c, items, p, fates, a) == AfterAll(c, items[1..], e, fates[1..], b);
    if |items| == 1 {
      assert tail + rest == rest && AfterAll(c, [], e, fates[1..], b) == b;
      SavedLast(c, items, p, data, begin, g, fates, skip, a);
      TakeItem(c, it, p, g, fates[0], rest, a, records);
    } else {
      var left, skip1 := data[|it.data|..], NextSkip(it, p, fates[0], skip);
      SavedMore(c, items, p, data, begin, g, fates, skip, a);
      RecordGives(c, items[1..], e, left, false, g, fates[1..], skip1, b, rest, records);
      TakeItem(c, it, p, g, fates[0], tail + rest, a, Saved(c, items[1..], e, left, false, fates[1..], b) + records);
    }
  }

  lemma SavedLast(c: Config, items: seq<Item>, p: nat, data: Bytes, begin: bool, g: Bytes, fates: seq<Fate>, skip: nat, a: Assembly)
    requires |items| == 1 && Carries(items, data, begin) && Fated(c, items, p, g, fates, skip)
    requires Steady(c, a, p, skip) && (begin ==> !a.inFragment)
    ensures var b := After(c, items[0], p, fates[0], a);
            && !b.inFragment && b.scratch == []
            && Completed(c, items[0], p, fates[0], a) == Saved(c, items, p, data, begin, fates, a)
  {
  }

  lemma SavedMore(c: Config, items: seq<Item>, p: nat, data: Bytes, begin: bool, g: Bytes, fates: seq<Fate>, skip: nat, a: Assembly)
    requires |items| > 1 && Carries(items, data, begin) && Fated(c, items, p, g, fates, skip)
    requires Steady(c, a, p, skip) && (begin ==> !a.inFragment)
    ensures var it, e, b := items[0], p + items[0].Size(), After(c, items[0], p, fates[0], a);
            && Steady(c, b, e, NextSkip(it, p, fates[0], skip))
            && Completed(c, it, p, fates[0], a) == []
            && Saved(c, items[1..], e, data[|it.data|..], false, fates[1..], b) == Saved(c, items, p, data, begin, fates, a)
  {
    var it, b := items[0], After(c, items[0], p, fates[0], a);
    Rejoin(a.scratch, it.data, data);
    AllIntactStep(fates);
  }

  lemma AllIntactStep(fates: seq<Fate>)
    requires fates != []
    ensures AllIntact(fates) <==> fates[0] == Intact && AllIntact(fates[1..])
  {
  }

  // ---------- A whole log ----------

  /** How the fragments of each record fare, and that the file ends where it was left. */
  ghost predicate FatedLog(c: Config, p: nat, records: seq<Bytes>, g: Bytes, fates: seq<seq<Fate>>, skip: nat)
    decreases |records|
  {
    && |fates| == |records|
    && if records == [] then |g| == p
       else
         var fs := Fragments(p, records[0], true);
         && Fated(c, fs, p, g, fates[0], skip)
         && FatedLog(c, EndOf(fs, p), records[1..], g, fates[1..], SkipAfter(fs, p, fates[0], skip))
  }

  /** The records with no fragment lost, among those that begin where reading was asked for. */
  ghost function Survivors(c: Config, p: nat, records: seq<Bytes>, fates: seq<seq<Fate>>): seq<Bytes>
    requires |fates| == |records|
    decreases |records|
  {
    if records == [] then []
    else
      (if AllIntact(fates[0]) && p + Pad(p) >= c.initial then [records[0]] else [])
      + Survivors(c, EndOf(Fragments(p, records[0], true), p), records[1..], fates[1..])
  }

  /** The log reads as some events, and those give the survivors whatever was resynchronised. */
  lemma {:induction false} LogGives(c: Config, p: nat, records: seq<Bytes>, g: Bytes, fates: seq<seq<Fate>>, skip: nat)
    returns (events: seq<Event>)
    requires FatedLog(c, p, records, g, fates, skip) && skip % BLOCK_SIZE == 0
    ensures Reads(c, g, Max(p, skip), events)
    ensures forall a: Assembly :: !a.inFragment && a.scratch == [] ==> Gives(c, events, a, Survivors(c, p, records, fates))
    decreases |records|
  {
    if records == [] {
      ParseEnd(c, g, Max(p, skip));
      events := [];
    } else {
      var fs := Fragments(p, records[0], true);
      FragmentsPlaced(p, records[0], true);
      FragmentsCarry(p, records[0], true);
      var saved := Survivors(c, EndOf(fs, p), records[1..], fates[1..]);
      SkipAligned(fs, p, fates[0], skip);
      var rest := LogGives(c, EndOf(fs, p), records[1..], g, fates[1..], SkipAfter(fs, p, fates[0], skip));
      ParseFated(c, fs, p, g, fates[0], skip, rest);
      events := FatedEvents(c, fs, p, g, fates[0]) + rest;
      forall a: Assembly | !a.inFragment && a.scratch == []
        ensures Gives(c, events, a, Survivors(c, p, records, fates))
      {
        AfterRecord(c, fs, p, records[0], g, fates[0], skip, a);
        RecordGives(c, fs, p, records[0], true, g, fates[0], skip, a, rest, saved);
      }
    }
  }

  lemma {:induction false} SkipAligned(items: seq<Item>, p: nat, fates: seq<Fate>, skip: nat)
    requires |fates| == |items| && skip % BLOCK_SIZE == 0
    ensures SkipAfter(items, p, fates, skip) % BLOCK_SIZE == 0
    decreases |items|
  {
    if items != [] {
      BlockEndMultiple(p + items[0].pad);
      SkipAligned(items[1..], p + items[0].Size(), fates[1..], NextSkip(items[0], p, fates[0], skip));
    }
  }

  lemma AfterRecord(c: Config, items: seq<Item>, p: nat, data: Bytes, g: Bytes, fates: seq<Fate>, skip: nat, a: Assembly)
    requires Carries(items, data, true) && Fated(c, items, p, g, fates, skip)
    requires !a.inFragment && a.scratch == []
    ensures !AfterAll(c, items, p, fates, a).inFragment && AfterAll(c, items, p, fates, a).scratch == []
  {
    var b := AfterAll(c, items, p, fates, a);
    RecordGives(c, items, p, data, true, g, fates, skip, a, [], RecordsOf(Assemble(c, [], b)));
  }

  /** Whatever the damage and from whatever offset on, the reader returns exactly the
      records with no fragment lost, whole and in order. */
  lemma ReadsWhatSurvives(c: Config, records: seq<Bytes>, g: Bytes, fates: seq<seq<Fate>>)
    requires FatedLog(c, 0, records, g, fates, if c.initial > 0 then StartBlock(c.initial) else 0)
    ensures RecordsOf(ReadAllOut(c, g)) == Survivors(c, 0, records, fates)
  {
    StartBlockAligned(c.initial);
    var events := LogGives(c, 0, records, g, fates, if c.initial > 0 then StartBlock(c.initial) else 0);
    assert Gives(c, events, Assembly(c.initial > 0, false, [], 0), Survivors(c, 0, records, fates));
  }

  lemma StartBlockAligned(initial: nat)
    ensures StartBlock(initial) % BLOCK_SIZE == 0
  {
  }

  // ---------- Reading an intact log from an offset on ----------

  /** The records that begin at or after an offset. */
  ghost function FromOffset(p: nat, records: seq<Bytes>, initial: nat): seq<Bytes>
    decreases |records|
  {
    if records == [] then []
    else (if p + Pad(p) >= initial then [records[0]] else [])
         + FromOffset(EndOf(Fragments(p, records[0], true), p), records[1..], initial)
  }

  /** What begins at or after the offset asked for begins in the first block read or later. */
  lemma NotBeforeStartBlock(p: nat, initial: nat)
    requires p + Pad(p) >= initial
    ensures p + Pad(p) >= StartBlock(initial)
  {
  }

  function PassBefore(items: seq<Item>, p: nat, skip: nat): (fates: seq<Fate>)
    ensures |fates| == |items|
    decreases |items|
  {
    if items == [] then []
    else [if p + items[0].pad < skip then Passed else Intact] + PassBefore(items[1..], p + items[0].Size(), skip)
  }

  lemma {:induction false} PassBeforeFated(c: Config, f: Bytes, items: seq<Item>, p: nat, skip: nat)
    requires StandsIn(c, f, items, p)
    ensures Fated(c, items, p, f, PassBefore(items, p, skip), skip)
    ensures SkipAfter(items, p, PassBefore(items, p, skip), skip) == skip
    decreases |items|
  {
    if items != [] {
      PassBeforeFated(c, f, items[1..], p + items[0].Size(), skip);
    }
  }

  lemma {:induction false} NothingPassed(items: seq<Item>, p: nat, skip: nat)
    requires items != [] && p + items[0].pad >= skip
    ensures AllIntact(PassBefore(items, p, skip))
    decreases |items|
  {
    var rest := PassBefore(items[1..], p + items[0].Size(), skip);
    if |items| > 1 {
      NothingPassed(items[1..], p + items[0].Size(), skip);
    }
    assert forall i :: 0 <= i < |rest| ==> PassBefore(items, p, skip)[i + 1] == rest[i];
  }

  ghost function PassLog(p: nat, records: seq<Bytes>, skip: nat): (fates: seq<seq<Fate>>)
    ensures |fates| == |records|
    decreases |records|
  {
    if records == [] then []
    else var fs := Fragments(p, records[0], true); [PassBefore(fs, p, skip)] + PassLog(EndOf(fs, p), records[1..], skip)
  }

  lemma {:induction false} PassLogFated(c: Config, f: Bytes, p: nat, records: seq<Bytes>, skip: nat)
    requires Stands(c, f, FragmentsOfAll(p, records), p)
    ensures FatedLog(c, p, records, f, PassLog(p, records, skip), skip)
    decreases |records|
  {
    if records != [] {
      var fs := Fragments(p, records[0], true);
      StandsSplit(c, f, fs, FragmentsOfAll(EndOf(fs, p), records[1..]), p);
      PassBeforeFated(c, f, fs, p, skip);
      PassLogFated(c, f, EndOf(fs, p), records[1..], skip);
    }
  }

  /** The first of two lists of items stands, but for the end of the file. */
  ghost predicate StandsIn(c: Config, f: Bytes, items: seq<Item>, p: nat)
    decreases |items|
  {
    items == [] || (ItemStands(c, f, items[0], p) && StandsIn(c, f, items[1..], p + items[0].Size()))
  }

  lemma {:induction false} StandsSplit(c: Config, f: Bytes, x: seq<Item>, y: seq<Item>, p: nat)
    requires Stands(c, f, x + y, p)
    ensures StandsIn(c, f, x, p) && Stands(c, f, y, EndOf(x, p))
    decreases |x|
  {
    if x == [] {
      assert x + y == y;
    } else {
      var z := x + y;
      assert z[0] == x[0] && z[1..] == x[1..] + y;
      StandsSplit(c, f, x[1..], y, p + x[0].Size());
    }
  }

  lemma {:induction false} SurvivorsFromOffset(c: Config, p: nat, records: seq<Bytes>, skip: nat)
    requires skip == 0 || skip == StartBlock(c.initial)
    ensures Survivors(c, p, records, PassLog(p, records, skip)) == FromOffset(p, records, c.initial)
    decreases |records|
  {
    if records != [] {
      var fs := Fragments(p, records[0], true);
      SurvivorsFromOffset(c, EndOf(fs, p), records[1..], skip);
      if p + Pad(p) >= c.initial {
        NotBeforeStartBlock(p, c.initial);
        NothingPassed(fs, p, skip);
      }
    }
  }

  /** From any offset, in a trailer or inside a fragment as well, an intact log reads as
      the records whose first header is at or after the offset. */
  lemma InitialOffset(c: Config, records: seq<Bytes>)
    ensures RecordsOf(ReadAllOut(c, FileBytes(c.crc, FragmentsOfAll(0, records)))) == FromOffset(0, records, c.initial)
  {
    var items := FragmentsOfAll(0, records);
    var f, start := FileBytes(c.crc, items), if c.initial > 0 then StartBlock(c.initial) else 0;
    AllPlaced(0, records);
    assert f[0..] == f;
    SpelledStands(c, f, items, 0);
    PassLogFated(c, f, 0, records, start);
    ReadsWhatSurvives(c, records, f, PassLog(0, records, start));
    SurvivorsFromOffset(c, 0, records, start);
  }

  /** Those records are a suffix of what was written. */
  lemma {:induction false} FromOffsetIsSuffix(p: nat, records: seq<Bytes>, initial: nat) returns (k: nat)
    ensures k <= |records| && FromOffset(p, records, initial) == records[k..]
    ensures p + Pad(p) >= initial ==> k == 0
    decreases |records|
  {
    if records == [] {
      k := 0;
    } else {
      var end := EndOf(Fragments(p, records[0], true), p);
      EndGrows(Fragments(p, records[0], true), p);
      var j := FromOffsetIsSuffix(end, records[1..], initial);
      k := if p + Pad(p) >= initial then 0 else j + 1;
    }
  }
}

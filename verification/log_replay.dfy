/** What a reader gets back from what a writer wrote: all of it, the part that a crash
    left, the part from an offset on, and the part that damage spared. */
module LogReplay {
  import opened FixedBytes
  import opened LogFormat
  import opened LogReader

  /** From offset p on, the file spells the items out. */
  ghost predicate Spelled(c: Config, f: Bytes, items: seq<Item>, p: nat) {
    p <= |f| && f[p..] == FileBytes(c.crc, items)
  }

  lemma SpelledStep(c: Config, f: Bytes, items: seq<Item>, p: nat)
    requires Spelled(c, f, items, p) && items != []
    ensures p + items[0].Size() <= |f|
    ensures f[p + items[0].pad..p + items[0].Size()] == Physical(c.crc, items[0].kind, items[0].data)
    ensures Spelled(c, f, items[1..], p + items[0].Size())
  {
  }

  /** The item stands whole, in its proper place, in file g from offset p on. */
  ghost predicate ItemStands(c: Config, g: Bytes, it: Item, p: nat) {
    && Fits(it, p)
    && p + it.Size() <= |g|
    && forall k: Byte {:trigger Physical(c.crc, k, it.data)} :: k == it.kind ==>
         g[p + it.pad..p + it.Size()] == Physical(c.crc, k, it.data)
  }

  ghost predicate Stands(c: Config, f: Bytes, items: seq<Item>, p: nat)
    decreases |items|
  {
    if items == [] then p == |f|
    else ItemStands(c, f, items[0], p) && Stands(c, f, items[1..], p + items[0].Size())
  }

  lemma {:induction false} SpelledStands(c: Config, f: Bytes, items: seq<Item>, p: nat)
    requires WellPlaced(items, p) && Spelled(c, f, items, p)
    ensures Stands(c, f, items, p)
    decreases |items|
  {
    if items != [] {
      SpelledStep(c, f, items, p);
      SpelledStands(c, f, items[1..], p + items[0].Size());
    }
  }

  /** Reading file g from offset p on gives the events. As with Yields below, the offset
      stands guard. */
  ghost predicate Reads(c: Config, g: Bytes, p: nat, events: seq<Event>) {
    forall q: nat {:trigger Parse(c, g, q)} :: q == p ==> Parse(c, g, q) == events
  }

  /** A well placed item that stands whole in the file reads as what it is. */
  lemma ParseItem(c: Config, g: Bytes, it: Item, p: nat, rest: seq<Event>)
    requires ItemStands(c, g, it, p) && Reads(c, g, p + it.Size(), rest)
    ensures var s, e := p + it.pad, p + it.Size();
            Reads(c, g, p, [if s < c.initial then Bad(0, true, e) else Rec(it.kind, it.data, s, e)] + rest)
  {
    ParsePad(c, g, p);
    ParseAt(c, g, it, p + it.pad, rest);
  }

  lemma ParseAt(c: Config, g: Bytes, it: Item, s: nat, rest: seq<Event>)
    requires it.pad <= s && ItemStands(c, g, it, s - it.pad)
    requires Reads(c, g, s + HEADER_SIZE + |it.data|, rest)
    ensures var e := s + HEADER_SIZE + |it.data|;
            Reads(c, g, s, [if s < c.initial then Bad(0, true, e) else Rec(it.kind, it.data, s, e)] + rest)
  {
    assert g[s..s + HEADER_SIZE + |it.data|] == Physical(c.crc, it.kind, it.data);
    StepItem(c, g, it, s);
  }

  lemma StepItem(c: Config, g: Bytes, it: Item, s: nat)
    requires s + HEADER_SIZE + |it.data| <= Min(|g|, BlockEnd(s)) && it.kind != ZERO_TYPE
    requires g[s..s + HEADER_SIZE + |it.data|] == Physical(c.crc, it.kind, it.data)
    ensures var e := s + HEADER_SIZE + |it.data|;
            Step(c, g, s) == ([if s < c.initial then Bad(0, true, e) else Rec(it.kind, it.data, s, e)], e)
  {
    ReadsBack(c.crc, it.kind, it.data, g, s);
  }

  /** A trailer leads to the block that follows it. */
  lemma ParsePad(c: Config, g: Bytes, p: nat)
    requires p + Pad(p) <= |g|
    ensures Parse(c, g, p) == Parse(c, g, p + Pad(p))
  {
    PadPlaces(p);
  }

  // ---------- Round trip and crash prefix ----------

  /** The items that end within the first n bytes. */
  ghost function PrefixEvents(items: seq<Item>, p: nat, n: nat): seq<Event> {
    if items == [] || p + items[0].Size() > n then []
    else
      [Rec(items[0].kind, items[0].data, p + items[0].pad, p + items[0].Size())]
      + PrefixEvents(items[1..], p + items[0].Size(), n)
  }

  lemma {:induction false} ParsePrefix(c: Config, f: Bytes, g: Bytes, items: seq<Item>, p: nat)
    requires c.initial == 0 && Stands(c, f, items, p) && p <= |g| && g <= f
    ensures Reads(c, g, p, PrefixEvents(items, p, |g|))
    decreases |items|
  {
    if items == [] {
      ParseEnd(c, g, p);
    } else {
      var e := p + items[0].Size();
      if e <= |g| {
        ParsePrefix(c, f, g, items[1..], e);
        ParseWhole(c, f, items[0], p, g, PrefixEvents(items[1..], e, |g|));
      } else {
        ParseTorn(c, f, items[0], p, g);
      }
    }
  }

  lemma ParseWhole(c: Config, f: Bytes, it: Item, p: nat, g: Bytes, rest: seq<Event>)
    requires c.initial == 0 && ItemStands(c, f, it, p) && p + it.Size() <= |g| && g <= f
    requires Reads(c, g, p + it.Size(), rest)
    ensures Reads(c, g, p, [Rec(it.kind, it.data, p + it.pad, p + it.Size())] + rest)
  {
    assert g[p + it.pad..p + it.Size()] == f[p + it.pad..p + it.Size()];
    ParseItem(c, g, it, p, rest);
  }

  /** Nothing is read of an item that the end of the file cuts off. */
  lemma ParseTorn(c: Config, f: Bytes, it: Item, p: nat, g: Bytes)
    requires ItemStands(c, f, it, p) && p <= |g| < p + it.Size() && g <= f
    ensures Reads(c, g, p, [])
  {
    var s := p + it.pad;
    if |g| > s {
      ParsePad(c, g, p);
      if |g| - s >= HEADER_SIZE {
        PlacedFits(it, p);
        ReadsBack(c.crc, it.kind, it.data, f, s);
        assert LengthAt(g, s) == LengthAt(f, s);
      }
    } else if |g| > p {
      PadPlaces(p);
    }
  }

  lemma {:induction false} PrefixEventsConcat(a: seq<Item>, b: seq<Item>, p: nat, n: nat)
    ensures PrefixEvents(a + b, p, n) ==
              PrefixEvents(a, p, n) + if EndOf(a, p) <= n then PrefixEvents(b, EndOf(a, p), n) else []
    decreases |a|
  {
    if a == [] {
      assert a + b == b;
      if p > n && b != [] {
        assert p + b[0].Size() > n;
      }
    } else {
      EndGrows(a, p);
      if p + a[0].Size() <= n {
        var c := a + b;
        assert c[0] == a[0] && c[1..] == a[1..] + b;
        PrefixEventsConcat(a[1..], b, p + a[0].Size(), n);
      }
    }
  }

  lemma {:induction false} EndGrows(items: seq<Item>, p: nat)
    ensures EndOf(items, p) >= p && (items != [] ==> EndOf(items, p) >= p + items[0].Size())
  {
    if items != [] {
      EndGrows(items[1..], p + items[0].Size());
    }
  }

  /** The items carry the data, or what is left of it, in order and rightly typed. */
  ghost predicate Carries(items: seq<Item>, data: Bytes, begin: bool) {
    && items != []
    && items[0].data <= data
    && if |items| == 1 then items[0].data == data && items[0].kind == (if begin then FULL else LAST)
       else
         && items[0].kind == (if begin then FIRST else MIDDLE)
         && Carries(items[1..], data[|items[0].data|..], false)
  }

  lemma {:induction false} FragmentsCarry(p: nat, data: Bytes, begin: bool)
    ensures Carries(Fragments(p, data, begin), data, begin)
    decreases |data|, if p % BLOCK_SIZE == BLOCK_SIZE - HEADER_SIZE then 1 else 0
  {
    FragmentsStep(p, data, begin);
    var fs := Fragments(p, data, begin);
    if fs[0].data != data {
      var more := Fragments(p + fs[0].Size(), data[|fs[0].data|..], false);
      assert fs[1..] == more;
      FragmentsCarry(p + fs[0].Size(), data[|fs[0].data|..], false);
    }
  }

  /** Reading the events in state a yields the outs. The events stand guard, so that only
      lemmas about one event look inside. */
  ghost predicate Yields(c: Config, events: seq<Event>, a: Assembly, outs: seq<Out>) {
    forall es {:trigger Assemble(c, es, a)} :: es == events ==> Assemble(c, es, a) == outs
  }

  /** The items that are left of a record complete the one in progress. */
  lemma {:induction false} AssembleRest(c: Config, items: seq<Item>, p: nat, data: Bytes, n: nat, after: seq<Event>, a: Assembly, outs: seq<Out>)
    requires Carries(items, data, false) && EndOf(items, p) <= n && !a.resyncing && a.inFragment
    requires Yields(c, after, Fresh(false), outs)
    ensures Yields(c, PrefixEvents(items, p, n) + after, a, [Record(a.scratch + data, a.start)] + outs)
    decreases |items|
  {
    var it, e := items[0], p + items[0].Size();
    var tail := PrefixEvents(items[1..], e, n);
    FirstOfPrefix(items, p, n, after);
    if |items| == 1 {
      TakeLast(c, it.kind, it.data, p + it.pad, e, after, a, outs);
    } else {
      var out := [Record(a.scratch + data, a.start)] + outs;
      Rejoin(a.scratch, it.data, data);
      AssembleRest(c, items[1..], e, data[|it.data|..], n, after, a.(scratch := a.scratch + it.data), outs);
      TakeMore(c, it.kind, it.data, p + it.pad, e, tail + after, a, out);
    }
  }

  lemma Rejoin(scratch: Bytes, first: Bytes, data: Bytes)
    requires first <= data
    ensures scratch + first + data[|first|..] == scratch + data
    ensures first + data[|first|..] == data
  {
  }

  lemma FirstOfPrefix(items: seq<Item>, p: nat, n: nat, after: seq<Event>)
    requires items != [] && EndOf(items, p) <= n
    ensures var it, e := items[0], p + items[0].Size();
            && EndOf(items[1..], e) <= n
            && PrefixEvents(items, p, n) + after ==
                 [Rec(it.kind, it.data, p + it.pad, e)] + (PrefixEvents(items[1..], e, n) + after)
            && (|items| == 1 ==> PrefixEvents(items[1..], e, n) + after == after)
  {
    EndGrows(items, p);
  }

  lemma AssembleWhole(c: Config, items: seq<Item>, p: nat, data: Bytes, n: nat, after: seq<Event>, outs: seq<Out>)
    requires Carries(items, data, true) && EndOf(items, p) <= n
    requires Yields(c, after, Fresh(false), outs)
    ensures Yields(c, PrefixEvents(items, p, n) + after, Fresh(false), [Record(data, p + items[0].pad)] + outs)
  {
    var it, e := items[0], p + items[0].Size();
    FirstOfPrefix(items, p, n, after);
    if |items| == 1 {
      TakeLast(c, it.kind, it.data, p + it.pad, e, after, Fresh(false), outs);
    } else {
      Rejoin([], it.data, data);
      AssembleRest(c, items[1..], e, data[|it.data|..], n, after, Assembly(false, true, it.data, p + it.pad), outs);
      TakeMore(c, it.kind, it.data, p + it.pad, e, PrefixEvents(items[1..], e, n) + after, Fresh(false),
               [Record(data, p + it.pad)] + outs);
    }
  }

  /** A record that the end of the file cuts off yields nothing. */
  lemma {:induction false} AssembleTorn(c: Config, items: seq<Item>, p: nat, data: Bytes, begin: bool, n: nat, a: Assembly)
    requires Carries(items, data, begin) && EndOf(items, p) > n
    requires if begin then a == Fresh(false) else !a.resyncing && a.inFragment
    ensures Yields(c, PrefixEvents(items, p, n), a, [])
    decreases |items|
  {
    var it, e := items[0], p + items[0].Size();
    if e <= n {
      var b := if begin then Assembly(false, true, it.data, p + it.pad) else a.(scratch := a.scratch + it.data);
      AssembleTorn(c, items[1..], e, data[|it.data|..], false, n, b);
      TakeMore(c, it.kind, it.data, p + it.pad, e, PrefixEvents(items[1..], e, n), a, []);
    }
  }

  lemma AssembleCons(c: Config, ev: Event, rest: seq<Event>, a: Assembly)
    ensures var t := Turn(c, ev, a);
            Assemble(c, [ev] + rest, a) == Lost(c, ev) + t.reports + t.result + Assemble(c, rest, t.next)
  {
  }

  /** A last fragment, alone or at the end of a record, completes it without a report. */
  lemma TakeLast(c: Config, kind: Byte, data: Bytes, s: nat, e: nat, rest: seq<Event>, a: Assembly, outs: seq<Out>)
    requires if kind == FULL then !a.inFragment else kind == LAST && !a.resyncing && a.inFragment
    requires Yields(c, rest, Fresh(false), outs)
    ensures Yields(c, [Rec(kind, data, s, e)] + rest, a,
                   [if kind == FULL then Record(data, s) else Record(a.scratch + data, a.start)] + outs)
  {
  }

  /** Any other fragment in its right place is kept without a report. */
  lemma TakeMore(c: Config, kind: Byte, data: Bytes, s: nat, e: nat, rest: seq<Event>, a: Assembly, outs: seq<Out>)
    requires if kind == FIRST then !a.inFragment else kind == MIDDLE && !a.resyncing && a.inFragment
    requires Yields(c, rest, if kind == FIRST then Assembly(false, true, data, s) else a.(scratch := a.scratch + data), outs)
    ensures Yields(c, [Rec(kind, data, s, e)] + rest, a, outs)
  {
  }

  /** The records whose fragments all end within the first n bytes. */
  ghost function RecordsUpTo(p: nat, records: seq<Bytes>, n: nat): seq<Out>
    decreases |records|
  {
    if records == [] then []
    else
      var end := EndOf(Fragments(p, records[0], true), p);
      if end > n then [] else [Record(records[0], p + Pad(p))] + RecordsUpTo(end, records[1..], n)
  }

  lemma {:induction false} AssemblePrefix(c: Config, p: nat, records: seq<Bytes>, n: nat)
    ensures Yields(c, PrefixEvents(FragmentsOfAll(p, records), p, n), Fresh(false), RecordsUpTo(p, records, n))
    decreases |records|
  {
    if records != [] {
      var fs := Fragments(p, records[0], true);
      var end := EndOf(fs, p);
      var rest := FragmentsOfAll(end, records[1..]);
      PrefixEventsConcat(fs, rest, p, n);
      FragmentsCarry(p, records[0], true);
      if end <= n {
        AssemblePrefix(c, end, records[1..], n);
        AssembleWhole(c, fs, p, records[0], n, PrefixEvents(rest, end, n), RecordsUpTo(end, records[1..], n));
      } else {
        assert PrefixEvents(fs, p, n) + [] == PrefixEvents(fs, p, n);
        AssembleTorn(c, fs, p, records[0], true, n, Fresh(false));
      }
    }
  }

  /** Whatever prefix of a log a crash leaves, the reader returns exactly the records that
      lie wholly in it and reports no corruption. */
  lemma CrashPrefix(crc: Crc, checksum: bool, records: seq<Bytes>, n: nat)
    requires n <= |FileBytes(crc, FragmentsOfAll(0, records))|
    ensures ReadAllOut(Config(crc, checksum, 0), FileBytes(crc, FragmentsOfAll(0, records))[..n]) ==
              RecordsUpTo(0, records, n)
  {
    var c, items := Config(crc, checksum, 0), FragmentsOfAll(0, records);
    var f := FileBytes(crc, items);
    AllPlaced(0, records);
    assert f[0..] == f;
    SpelledStands(c, f, items, 0);
    ParsePrefix(c, f, f[..n], items, 0);
    AssemblePrefix(c, 0, records, n);
  }

  /** The records a list of outs returns, in order. */
  ghost function RecordsOf(outs: seq<Out>): seq<Bytes> {
    if outs == [] then []
    else (if outs[0].Record? then [outs[0].data] else []) + RecordsOf(outs[1..])
  }

  lemma {:induction false} AllUpToEnd(p: nat, records: seq<Bytes>, n: nat)
    requires EndOf(FragmentsOfAll(p, records), p) <= n
    ensures RecordsOf(RecordsUpTo(p, records, n)) == records && |RecordsUpTo(p, records, n)| == |records|
    decreases |records|
  {
    if records != [] {
      var fs := Fragments(p, records[0], true);
      var rest := FragmentsOfAll(EndOf(fs, p), records[1..]);
      EndOfConcat(fs, rest, p);
      EndGrows(rest, EndOf(fs, p));
      AllUpToEnd(EndOf(fs, p), records[1..], n);
    }
  }

  /** Any list of records of any lengths reads back as it was written, with no report. */
  lemma RoundTrip(crc: Crc, checksum: bool, records: seq<Bytes>)
    ensures var outs := ReadAllOut(Config(crc, checksum, 0), FileBytes(crc, FragmentsOfAll(0, records)));
            RecordsOf(outs) == records && |outs| == |records|
  {
    var f := FileBytes(crc, FragmentsOfAll(0, records));
    FileBytesSize(crc, FragmentsOfAll(0, records), 0);
    assert f[..|f|] == f;
    CrashPrefix(crc, checksum, records, |f|);
    AllUpToEnd(0, records, |f|);
  }

  lemma RecordsOfCons(out: Out, rest: seq<Out>)
    ensures RecordsOf([out] + rest) == (if out.Record? then [out.data] else []) + RecordsOf(rest)
  {
  }

  /** What survives a crash is a prefix of the records, each of them whole. */
  lemma {:induction false} PrefixOfRecords(p: nat, records: seq<Bytes>, n: nat)
    ensures RecordsOf(RecordsUpTo(p, records, n)) <= records
    decreases |records|
  {
    if records != [] {
      var end := EndOf(Fragments(p, records[0], true), p);
      if end <= n {
        RecordsOfCons(Record(records[0], p + Pad(p)), RecordsUpTo(end, records[1..], n));
        PrefixOfRecords(end, records[1..], n);
      }
    }
  }

  /** The reading loop of DBImpl::RecoverLogFile: reads until a call returns no record. */
  method Replay(config: Config, file: Bytes) returns (records: seq<Bytes>, ghost outs: seq<Out>)
    ensures outs == ReadAllOut(config, file)
    ensures Stop !in outs ==> records == RecordsOf(outs)
    ensures records <= RecordsOf(outs)
  {
    var r := new Reader(config, file);
    outs := ReadAllOut(config, file);
    records := [];
    ghost var done, left := [], outs;
    var found := true;
    while found
      invariant r.Ok() && r.config == config && (r.Unread() || r.lastRecordOffset >= config.initial || !found)
      invariant outs == done + left && records == RecordsOf(done)
      invariant found ==> left == Assemble(config, r.Pending(), Fresh(r.resyncing))
      invariant !found ==> Stop in outs || left == []
      decreases |left|, found
    {
      var record;
      ghost var told;
      found, record, told := r.ReadRecord();
      ghost var seen, later := OneAnswer(done, left, found, record, r.lastRecordOffset, told,
                                         Assemble(config, r.Pending(), Fresh(r.resyncing)));
      if found {
        records := records + [record];
      }
      done, left := seen, later;
    }
    RecordsOfSplit(done, left);
  }

  /** One call moves its part of the outs from what is left to what is done. */
  lemma OneAnswer(done: seq<Out>, left: seq<Out>, found: bool, record: Bytes, offset: int, told: seq<Out>, later: seq<Out>)
    returns (seen: seq<Out>, rest: seq<Out>)
    requires Answered(left, told, found, record, offset, later)
    ensures seen + rest == done + left && |rest| <= |left|
    ensures found ==> RecordsOf(seen) == RecordsOf(done) + [record] && rest == later && |rest| < |left|
    ensures !found ==> RecordsOf(seen) == RecordsOf(done) && (rest == [] || Stop in done + left)
  {
    var n := Lead(left);
    ReportsAreNoRecords(left[..n]);
    RecordsOfSplit(done, left[..n]);
    Cut(left, n);
    Assoc(done, left[..n], left[n..]);
    if found {
      TakeAnswer(done + left[..n], left[n], later);
      seen, rest := done + left[..n] + [left[n]], later;
    } else {
      if n < |left| {
        assert left[n] == Stop && left[n] in done + left;
      }
      seen, rest := done + left[..n], left[n..];
    }
  }

  lemma TakeAnswer(done: seq<Out>, out: Out, later: seq<Out>)
    requires out.Record?
    ensures done + ([out] + later) == done + [out] + later
    ensures RecordsOf(done + [out]) == RecordsOf(done) + [out.data]
  {
    RecordsOfSplit(done, [out]);
  }

  lemma Cut(s: seq<Out>, n: nat)
    requires n <= |s|
    ensures s == s[..n] + s[n..]
    ensures n < |s| ==> s[n..] == [s[n]] + s[n + 1..]
  {
  }

  lemma Assoc(a: seq<Out>, b: seq<Out>, c: seq<Out>)
    ensures a + (b + c) == a + b + c
  {
  }

  lemma {:induction false} RecordsOfSplit(a: seq<Out>, b: seq<Out>)
    ensures RecordsOf(a + b) == RecordsOf(a) + RecordsOf(b)
  {
    if a == [] {
      assert a + b == b;
    } else {
      assert a + b == [a[0]] + (a[1..] + b);
      RecordsOfSplit(a[1..], b);
    }
  }

  lemma {:induction false} ReportsAreNoRecords(a: seq<Out>)
    requires OnlyReports(a)
    ensures RecordsOf(a) == []
  {
    if a != [] {
      ReportsAreNoRecords(a[1..]);
    }
  }
}

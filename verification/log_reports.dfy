/** What a reader of a log reports, told on the bytes alone: every stretch that is given up for its length or its
    checksum, and every fragment that has lost its neighbours, and nothing else. */
module LogReports {
  import opened FixedBytes
  import opened LogFormat
  import opened LogReader
  import opened LogReplay
  import opened LogDamage

  // ---------- What stands at a place ----------

  /** The end of the block, or of the file in the last one. */
  function EndOfBlock(g: Bytes, p: nat): nat {
    Min(|g|, BlockEnd(p))
  }

  predicate Header(g: Bytes, p: nat) {
    p + HEADER_SIZE <= EndOfBlock(g, p)
  }

  /** Too few bytes for a header. */
  predicate Trailer(g: Bytes, p: nat) {
    p < |g| && !Header(g, p)
  }

  predicate Fitting(g: Bytes, p: nat) {
    Header(g, p) && p + HEADER_SIZE + LengthAt(g, p) <= EndOfBlock(g, p)
  }

  /** Preallocated and never written. */
  predicate Unwritten(g: Bytes, p: nat) {
    Fitting(g, p) && TypeAt(g, p) == ZERO_TYPE && LengthAt(g, p) == 0
  }

  predicate Whole(c: Config, g: Bytes, p: nat) {
    Fitting(g, p) && !Unwritten(g, p) && (c.checksum ==> ChecksumAt(c.crc, g, p))
  }

  /** A fragment of that kind that begins where reading was asked for. */
  predicate FragmentAt(c: Config, g: Bytes, p: nat, kind: Byte) {
    Whole(c, g, p) && c.initial <= p && TypeAt(g, p) == kind
  }

  predicate UnknownAt(c: Config, g: Bytes, p: nat) {
    Whole(c, g, p) && c.initial <= p && TypeAt(g, p) !in {FULL, FIRST, MIDDLE, LAST, EOF as Byte, BAD_RECORD as Byte}
  }

  /** The rest of the block is given up: the record would leave a block that is all there, or the checksum is wrong. A
      record that leaves the file is the last one of a writer that has died. */
  predicate Drops(c: Config, g: Bytes, p: nat) {
    || (Header(g, p) && !Fitting(g, p) && BlockEnd(p) <= |g|)
    || (Fitting(g, p) && !Unwritten(g, p) && c.checksum && !ChecksumAt(c.crc, g, p))
  }

  /** Where the reader goes on. */
  function Onward(c: Config, g: Bytes, p: nat): (q: nat)
    requires p < |g|
    ensures p < q <= |g|
  {
    if Whole(c, g, p) then p + HEADER_SIZE + LengthAt(g, p) else EndOfBlock(g, p)
  }

  ghost predicate Visits(c: Config, g: Bytes, p: nat, q: nat)
    decreases if p < q then q - p else 0
  {
    p == q || (p < q && p < |g| && Visits(c, g, Onward(c, g, p), q))
  }

  // ---------- Fragments that wait for more ----------

  /** From p to q there are middle fragments only, of n bytes together. */
  ghost predicate Gathers(c: Config, g: Bytes, p: nat, q: nat, n: int)
    decreases if p < q then q - p else 0
  {
    if p >= q then p == q && n == 0
    else if FragmentAt(c, g, p, MIDDLE) then Gathers(c, g, Onward(c, g, p), q, n - LengthAt(g, p))
    else Trailer(g, p) && Gathers(c, g, Onward(c, g, p), q, n)
  }

  /** At q a record waits for its end; it has m bytes so far. */
  ghost predicate Hangs(c: Config, g: Bytes, start: nat, q: nat, m: int) {
    exists s: nat :: HangsFrom(c, g, start, s, q, m)
  }

  ghost predicate HangsFrom(c: Config, g: Bytes, start: nat, s: nat, q: nat, m: int) {
    Visits(c, g, start, s) && s < q && FragmentAt(c, g, s, FIRST) && Gathers(c, g, Onward(c, g, s), q, m - LengthAt(g, s))
  }

  /** A reader that began in the middle of the log has met nothing but middle fragments. */
  ghost predicate Resyncs(c: Config, g: Bytes, start: nat, q: nat) {
    c.initial > 0 && exists n :: Gathers(c, g, start, q, n)
  }

  // ---------- What is reported ----------

  /** A record that waits for its end does not get it here. */
  predicate Breaks(c: Config, g: Bytes, q: nat) {
    Drops(c, g, q) || Unwritten(g, q) || FragmentAt(c, g, q, BAD_RECORD as Byte)
  }

  ghost predicate ReportsAt(c: Config, g: Bytes, start: nat, q: nat, n: int) {
    // What is given up.
    || (Drops(c, g, q) && c.initial <= q && n == EndOfBlock(g, q) - q)
    // What has been read of a record that is cut off.
    || (Hangs(c, g, start, q, n) && (Breaks(c, g, q) || (n > 0 && (FragmentAt(c, g, q, FULL) || FragmentAt(c, g, q, FIRST)))))
    // The middle or the end of a record without its beginning.
    || ((FragmentAt(c, g, q, MIDDLE) || FragmentAt(c, g, q, LAST)) && n == LengthAt(g, q)
        && !Resyncs(c, g, start, q) && forall m :: !Hangs(c, g, start, q, m))
    // What nobody has written, and the record that it cuts off.
    || (UnknownAt(c, g, q) && (Hangs(c, g, start, q, n - LengthAt(g, q)) || (n == LengthAt(g, q) && forall m :: !Hangs(c, g, start, q, m))))
  }

  ghost predicate Told(c: Config, g: Bytes, start: nat, p: nat, n: int) {
    exists q: nat :: Visits(c, g, p, q) && q < |g| && ReportsAt(c, g, start, q, n)
  }

  // ---------- Places ----------

  lemma {:induction false} OnTheWay(c: Config, g: Bytes, b: nat, s: nat, q: nat)
    requires Visits(c, g, b, s) && Visits(c, g, b, q) && s <= q
    ensures Visits(c, g, s, q)
    decreases q - b
  {
    if b != s {
      OnTheWay(c, g, Onward(c, g, b), s, q);
    }
  }

  lemma {:induction false} OneMore(c: Config, g: Bytes, b: nat, p: nat)
    requires Visits(c, g, b, p) && p < |g|
    ensures Visits(c, g, b, Onward(c, g, p))
    decreases if b < p then p - b else 0
  {
    if b != p {
      OneMore(c, g, Onward(c, g, b), p);
    }
  }

  lemma {:induction false} GathersLittle(c: Config, g: Bytes, p: nat, q: nat, n: int)
    requires Gathers(c, g, p, q, n)
    ensures p <= q && 0 <= n <= q - p
    decreases if p < q then q - p else 0
  {
    if p < q {
      GathersLittle(c, g, Onward(c, g, p), q, if FragmentAt(c, g, p, MIDDLE) then n - LengthAt(g, p) else n);
    }
  }

  /** One place further. */
  lemma {:induction false} GathersOn(c: Config, g: Bytes, b: nat, p: nat, n: int)
    requires Visits(c, g, b, p) && p < |g|
    ensures Gathers(c, g, b, Onward(c, g, p), n)
      <==> if FragmentAt(c, g, p, MIDDLE) then Gathers(c, g, b, p, n - LengthAt(g, p)) else Trailer(g, p) && Gathers(c, g, b, p, n)
    decreases if b < p then p - b else 0
  {
    if b != p {
      GathersOn(c, g, Onward(c, g, b), p, if FragmentAt(c, g, b, MIDDLE) then n - LengthAt(g, b) else n);
    }
  }

  lemma {:induction false} HangsOn(c: Config, g: Bytes, start: nat, p: nat, m: int)
    requires Visits(c, g, start, p) && p < |g|
    ensures Hangs(c, g, start, Onward(c, g, p), m)
      <==> if FragmentAt(c, g, p, FIRST) then m == LengthAt(g, p)
           else if FragmentAt(c, g, p, MIDDLE) then Hangs(c, g, start, p, m - LengthAt(g, p))
           else Trailer(g, p) && Hangs(c, g, start, p, m)
  {
    var r := Onward(c, g, p);
    var before := if FragmentAt(c, g, p, MIDDLE) then m - LengthAt(g, p) else m;
    if FragmentAt(c, g, p, FIRST) && m == LengthAt(g, p) {
      assert HangsFrom(c, g, start, p, r, m);
    }
    if (FragmentAt(c, g, p, MIDDLE) || Trailer(g, p)) && Hangs(c, g, start, p, before) {
      var s: nat :| HangsFrom(c, g, start, s, p, before);
      HangsForth(c, g, start, s, p, before);
    }
    if Hangs(c, g, start, r, m) {
      var s: nat :| HangsFrom(c, g, start, s, r, m);
      HangsBack(c, g, start, s, p, m);
    }
  }

  lemma {:induction false} HangsForth(c: Config, g: Bytes, start: nat, s: nat, p: nat, m: int)
    requires Visits(c, g, start, p) && HangsFrom(c, g, start, s, p, m) && (FragmentAt(c, g, p, MIDDLE) || Trailer(g, p))
    ensures HangsFrom(c, g, start, s, Onward(c, g, p), if FragmentAt(c, g, p, MIDDLE) then m + LengthAt(g, p) else m)
  {
    var after := if FragmentAt(c, g, p, MIDDLE) then m + LengthAt(g, p) else m;
    OnTheWay(c, g, start, s, p);
    GathersOn(c, g, Onward(c, g, s), p, after - LengthAt(g, s));
  }

  lemma {:induction false} HangsBack(c: Config, g: Bytes, start: nat, s: nat, p: nat, m: int)
    requires Visits(c, g, start, p) && p < |g| && HangsFrom(c, g, start, s, Onward(c, g, p), m)
    ensures if FragmentAt(c, g, p, FIRST) then m == LengthAt(g, p)
            else if FragmentAt(c, g, p, MIDDLE) then Hangs(c, g, start, p, m - LengthAt(g, p))
            else Trailer(g, p) && Hangs(c, g, start, p, m)
  {
    if s > p {
      OnTheWay(c, g, start, p, s);
    } else if s == p {
      GathersLittle(c, g, Onward(c, g, s), Onward(c, g, p), m - LengthAt(g, s));
    } else {
      OnTheWay(c, g, start, s, p);
      GathersOn(c, g, Onward(c, g, s), p, m - LengthAt(g, s));
      assert FragmentAt(c, g, p, MIDDLE) ==> HangsFrom(c, g, start, s, p, m - LengthAt(g, p));
      assert Trailer(g, p) ==> HangsFrom(c, g, start, s, p, m);
    }
  }

  lemma {:induction false} ResyncsOn(c: Config, g: Bytes, start: nat, p: nat)
    requires Visits(c, g, start, p) && p < |g|
    ensures Resyncs(c, g, start, Onward(c, g, p)) <==> Resyncs(c, g, start, p) && (FragmentAt(c, g, p, MIDDLE) || Trailer(g, p))
  {
    var r := Onward(c, g, p);
    if n :| Gathers(c, g, start, p, n) {
      GathersOn(c, g, start, p, n);
      if FragmentAt(c, g, p, MIDDLE) {
        GathersOn(c, g, start, p, n + LengthAt(g, p));
      }
    }
    if n :| Gathers(c, g, start, r, n) {
      GathersOn(c, g, start, p, n);
    }
  }

  // ---------- The reader ----------

  /** The reassembly of a reader that stands at p. */
  ghost predicate Follows(c: Config, g: Bytes, start: nat, p: nat, a: Assembly) {
    && Visits(c, g, start, p) && (a.resyncing <==> Resyncs(c, g, start, p)) && (a.inFragment ==> !a.resyncing)
    && forall m :: Hangs(c, g, start, p, m) <==> a.inFragment && m == |a.scratch|
  }

  lemma HangsLittle(c: Config, g: Bytes, start: nat, q: nat, m: int)
    requires Hangs(c, g, start, q, m)
    ensures 0 <= m <= q - c.initial
  {
    var s: nat :| HangsFrom(c, g, start, s, q, m);
    GathersLittle(c, g, Onward(c, g, s), q, m - LengthAt(g, s));
  }

  /** The reader goes on over a place that gives it nothing. */
  lemma NothingThere(c: Config, g: Bytes, start: nat, p: nat, a: Assembly)
    requires p < |g| && Follows(c, g, start, p, a) && Step(c, g, p).0 == []
    ensures Step(c, g, p).1 == Onward(c, g, p)
    ensures Onward(c, g, p) < |g| ==> Follows(c, g, start, Onward(c, g, p), a)
    ensures forall n :: !ReportsAt(c, g, start, p, n)
  {
    OneMore(c, g, start, p);
    ResyncsOn(c, g, start, p);
    forall m ensures Hangs(c, g, start, Onward(c, g, p), m) <==> Trailer(g, p) && Hangs(c, g, start, p, m) {
      HangsOn(c, g, start, p, m);
    }
  }

  /** What the reader sees at a place. */
  ghost predicate Sees(c: Config, g: Bytes, p: nat, e: Event)
    requires p < |g|
  {
    var r := Onward(c, g, p);
    || (Drops(c, g, p) && e == Bad(r - p, false, r))
    || ((Unwritten(g, p) || (Whole(c, g, p) && p < c.initial)) && e == Bad(0, true, r))
    || (Whole(c, g, p) && c.initial <= p && e == Rec(TypeAt(g, p), g[p + HEADER_SIZE..r], p, r))
  }

  lemma WhatIsSeen(c: Config, g: Bytes, p: nat, e: Event)
    requires p < |g| && Step(c, g, p).0 == [e]
    ensures Step(c, g, p).1 == Onward(c, g, p) && Sees(c, g, p, e)
  {
  }

  /** What hangs and whether the reader resynchronises, one place further. */
  lemma PlaceTaken(c: Config, g: Bytes, start: nat, p: nat, e: Event)
    requires p < |g| && Visits(c, g, start, p) && Sees(c, g, p, e)
    ensures Visits(c, g, start, Onward(c, g, p))
    ensures Resyncs(c, g, start, Onward(c, g, p)) <==> Resyncs(c, g, start, p) && FragmentAt(c, g, p, MIDDLE)
    ensures forall m :: HangsNext(c, g, start, p, m)
  {
    OneMore(c, g, start, p);
    ResyncsOn(c, g, start, p);
    forall m ensures HangsNext(c, g, start, p, m) {
      HangsOn(c, g, start, p, m);
    }
  }

  ghost predicate HangsNext(c: Config, g: Bytes, start: nat, p: nat, m: int)
    requires p < |g|
  {
    Hangs(c, g, start, Onward(c, g, p), m)
    <==> if FragmentAt(c, g, p, FIRST) then m == LengthAt(g, p) else FragmentAt(c, g, p, MIDDLE) && Hangs(c, g, start, p, m - LengthAt(g, p))
  }

  /** It takes what stands there into the reassembly. */
  lemma StateTaken(c: Config, g: Bytes, start: nat, p: nat, a: Assembly, e: Event)
    requires p < |g| && Follows(c, g, start, p, a) && Sees(c, g, p, e)
    ensures Follows(c, g, start, Onward(c, g, p), Turn(c, e, a).next)
  {
    PlaceTaken(c, g, start, p, e);
    var r := Onward(c, g, p);
    forall m ensures Hangs(c, g, start, r, m) <==> Turn(c, e, a).next.inFragment && m == |Turn(c, e, a).next.scratch| {
      assert HangsNext(c, g, start, p, m);
    }
  }

  lemma ReportsTaken(c: Config, g: Bytes, start: nat, p: nat, a: Assembly, e: Event, n: int)
    requires p < |g| && Follows(c, g, start, p, a) && Sees(c, g, p, e)
    ensures Report(n) in Lost(c, e) + Turn(c, e, a).reports <==> ReportsAt(c, g, start, p, n)
  {
    if a.inFragment {
      HangsLittle(c, g, start, p, |a.scratch|);
    }
    if e.Bad? {
      BadReports(c, g, start, p, a, e, n);
    } else {
      RecordReports(c, g, start, p, a, e, n);
    }
  }

  lemma BadReports(c: Config, g: Bytes, start: nat, p: nat, a: Assembly, e: Event, n: int)
    requires p < |g| && Follows(c, g, start, p, a) && Sees(c, g, p, e) && e.Bad? && (a.inFragment ==> |a.scratch| <= p - c.initial)
    ensures Report(n) in Lost(c, e) + Turn(c, e, a).reports <==> ReportsAt(c, g, start, p, n)
  {
  }

  lemma RecordReports(c: Config, g: Bytes, start: nat, p: nat, a: Assembly, e: Event, n: int)
    requires p < |g| && Follows(c, g, start, p, a) && Sees(c, g, p, e) && e.Rec? && (a.inFragment ==> |a.scratch| <= p - c.initial)
    ensures Report(n) in Lost(c, e) + Turn(c, e, a).reports <==> ReportsAt(c, g, start, p, n)
  {
    assert Lost(c, e) == [] && |e.data| == LengthAt(g, p);
    assert a.inFragment <==> Hangs(c, g, start, p, |a.scratch|);
    assert a.inFragment <==> exists m :: Hangs(c, g, start, p, m);
  }

  lemma InConcat(out: Out, a: seq<Out>, b: seq<Out>, r: seq<Out>, rest: seq<Out>)
    requires out.Report? && |r| <= 1 && (r != [] ==> !r[0].Report?)
    ensures out in a + b + r + rest <==> out in a + b || out in rest
  {
  }

  lemma ToldHere(c: Config, g: Bytes, start: nat, p: nat, n: int)
    requires p < |g|
    ensures Told(c, g, start, p, n) <==> ReportsAt(c, g, start, p, n) || Told(c, g, start, Onward(c, g, p), n)
  {
    var r := Onward(c, g, p);
    if Told(c, g, start, p, n) {
      var q: nat :| Visits(c, g, p, q) && q < |g| && ReportsAt(c, g, start, q, n);
      assert q != p ==> Visits(c, g, r, q);
    }
    if Told(c, g, start, r, n) {
      var q: nat :| Visits(c, g, r, q) && q < |g| && ReportsAt(c, g, start, q, n);
      assert r <= q && Visits(c, g, p, q);
    }
    assert Visits(c, g, p, p);
  }

  /** A reader at p, with reassembly a, is going to report n bytes. */
  ghost predicate WillReport(c: Config, g: Bytes, p: nat, a: Assembly, n: int) {
    forall q: nat {:trigger Parse(c, g, q)} :: q == p ==> Report(n) in Assemble(c, Parse(c, g, q), a)
  }

  lemma ReadsNothing(c: Config, g: Bytes, p: nat, a: Assembly, n: int)
    requires p < |g| && Step(c, g, p).0 == []
    ensures WillReport(c, g, p, a, n) <==> WillReport(c, g, Step(c, g, p).1, a, n)
  {
    assert Parse(c, g, p) == [] + Parse(c, g, Step(c, g, p).1) == Parse(c, g, Step(c, g, p).1);
  }

  lemma ReadsOne(c: Config, g: Bytes, p: nat, a: Assembly, e: Event, n: int)
    requires p < |g| && Step(c, g, p).0 == [e]
    ensures WillReport(c, g, p, a, n)
      <==> Report(n) in Lost(c, e) + Turn(c, e, a).reports || WillReport(c, g, Step(c, g, p).1, Turn(c, e, a).next, n)
  {
    var r, t := Step(c, g, p).1, Turn(c, e, a);
    var rest := Parse(c, g, r);
    AssembleCons(c, e, rest, a);
    assert Parse(c, g, p) == [e] + rest;
    TurnShape(c, e, a);
    InConcat(Report(n), Lost(c, e), t.reports, t.result, Assemble(c, rest, t.next));
  }

  lemma TurnShape(c: Config, e: Event, a: Assembly)
    ensures |Turn(c, e, a).result| <= 1 && (Turn(c, e, a).result != [] ==> !Turn(c, e, a).result[0].Report?)
  {
  }

  lemma StepGives(c: Config, g: Bytes, p: nat)
    requires p < |g|
    ensures |Step(c, g, p).0| <= 1 && Step(c, g, p).1 == Onward(c, g, p)
  {
  }

  lemma {:induction false} ReportsFrom(c: Config, g: Bytes, start: nat, p: nat, a: Assembly, n: int)
    requires p < |g| ==> Follows(c, g, start, p, a)
    ensures WillReport(c, g, p, a, n) <==> Told(c, g, start, p, n)
    decreases |g| - p
  {
    if p >= |g| {
      ParseEnd(c, g, p);
      assert forall q: nat :: Visits(c, g, p, q) ==> q == p;
    } else {
      StepGives(c, g, p);
      ToldHere(c, g, start, p, n);
      var es, r := Step(c, g, p).0, Onward(c, g, p);
      if es == [] {
        NothingThere(c, g, start, p, a);
        ReadsNothing(c, g, p, a, n);
        ReportsFrom(c, g, start, r, a, n);
      } else {
        var e := es[0];
        assert es == [e];
        WhatIsSeen(c, g, p, e);
        StateTaken(c, g, start, p, a, e);
        ReportsTaken(c, g, start, p, a, e, n);
        ReadsOne(c, g, p, a, e, n);
        ReportsFrom(c, g, start, r, Turn(c, e, a).next, n);
      }
    }
  }

  // ---------- The whole log ----------

  function StartOf(c: Config): nat {
    if c.initial > 0 then StartBlock(c.initial) else 0
  }

  /** Reading begins with the block of the offset, or with the next one if the offset is in the trailer. */
  lemma StartsWithBlock(c: Config)
    ensures StartOf(c) % BLOCK_SIZE == 0
    ensures BlockEnd(c.initial) - c.initial >= HEADER_SIZE - 1 ==> StartOf(c) <= c.initial < StartOf(c) + BLOCK_SIZE
    ensures BlockEnd(c.initial) - c.initial < HEADER_SIZE - 1 ==> StartOf(c) == BlockEnd(c.initial)
  {
  }

  /** Exactly what is reported of any file, damaged in whatever way. */
  lemma ReportsExactly(c: Config, g: Bytes, n: int)
    ensures Report(n) in ReadAllOut(c, g) <==> Told(c, g, StartOf(c), StartOf(c), n)
  {
    var start, a := StartOf(c), Assembly(c.initial > 0, false, [], 0);
    assert Gathers(c, g, start, start, 0);
    NothingHangs(c, g, start);
    ReportsFrom(c, g, start, start, a, n);
    assert Parse(c, g, start) == Parse(c, g, StartOf(c));
  }

  lemma NothingHangs(c: Config, g: Bytes, start: nat)
    ensures forall m :: !Hangs(c, g, start, start, m)
  {
  }

  /** A block that is given up for a length that does not fit or for a wrong checksum is never passed over in silence. */
  lemma DamageIsReported(c: Config, g: Bytes, p: nat)
    requires Visits(c, g, StartOf(c), p) && Drops(c, g, p) && c.initial <= p
    ensures Report(EndOfBlock(g, p) - p) in ReadAllOut(c, g)
  {
    ReportsExactly(c, g, EndOfBlock(g, p) - p);
  }

  /** Nor is a record that damage cuts off: what was read of it is reported, with its size. */
  lemma CutOffIsReported(c: Config, g: Bytes, s: nat, p: nat, m: int)
    requires HangsFrom(c, g, StartOf(c), s, p, m) && Drops(c, g, p)
    ensures Report(m) in ReadAllOut(c, g) && Report(EndOfBlock(g, p) - p) in ReadAllOut(c, g)
  {
    var start := StartOf(c);
    GathersLittle(c, g, Onward(c, g, s), p, m - LengthAt(g, s));
    VisitsThrough(c, g, Onward(c, g, s), p, m - LengthAt(g, s));
    OneMore(c, g, start, s);
    Along(c, g, start, Onward(c, g, s), p);
    ReportsExactly(c, g, m);
    DamageIsReported(c, g, p);
  }

  lemma {:induction false} VisitsThrough(c: Config, g: Bytes, p: nat, q: nat, n: int)
    requires Gathers(c, g, p, q, n)
    ensures Visits(c, g, p, q)
    decreases if p < q then q - p else 0
  {
    if p < q {
      VisitsThrough(c, g, Onward(c, g, p), q, if FragmentAt(c, g, p, MIDDLE) then n - LengthAt(g, p) else n);
    }
  }

  lemma {:induction false} Along(c: Config, g: Bytes, b: nat, p: nat, q: nat)
    requires Visits(c, g, b, p) && Visits(c, g, p, q)
    ensures Visits(c, g, b, q) && p <= q
    decreases if b < p then p - b else 0
  {
    if b != p {
      Along(c, g, Onward(c, g, b), p, q);
    }
  }

  // ---------- A log that was written ----------

  lemma ItemPlace(c: Config, g: Bytes, it: Item, p: nat)
    requires ItemStands(c, g, it, p)
    ensures Visits(c, g, p, p + it.Size())
  {
    var s, r := p + it.pad, p + it.Size();
    assert r <= BlockEnd(s) && s == p + Pad(p);
    assert g[s..r] == Physical(c.crc, it.kind, it.data);
    ReadsBack(c.crc, it.kind, it.data, g, s);
    assert Whole(c, g, s) && Onward(c, g, s) == r && Visits(c, g, s, r);
    ToHeader(c, g, p, s);
    Along(c, g, p, s, r);
  }

  lemma ToHeader(c: Config, g: Bytes, p: nat, s: nat)
    requires s == p + Pad(p) <= |g|
    ensures Visits(c, g, p, s)
  {
    assert s > p ==> Trailer(g, p) && Onward(c, g, p) == s;
    assert Visits(c, g, s, s);
  }

  lemma {:induction false} ItemPlaces(c: Config, g: Bytes, items: seq<Item>, p: nat)
    requires StandsIn(c, g, items, p)
    ensures Visits(c, g, p, EndOf(items, p))
    decreases |items|
  {
    if items != [] {
      var r := p + items[0].Size();
      ItemPlace(c, g, items[0], p);
      ItemPlaces(c, g, items[1..], r);
      Along(c, g, p, r, EndOf(items, p));
    }
  }

  /** In a log whose first fragments are as they were written, the first one that has been damaged costs the rest of
      its block, and that is reported. */
  lemma FirstDamageIsReported(c: Config, g: Bytes, before: seq<Item>, s: nat)
    requires c.initial == 0 && StandsIn(c, g, before, 0)
    requires s == EndOf(before, 0) + Pad(EndOf(before, 0)) && Drops(c, g, s)
    ensures Report(EndOfBlock(g, s) - s) in ReadAllOut(c, g)
  {
    ItemPlaces(c, g, before, 0);
    ToHeader(c, g, EndOf(before, 0), s);
    Along(c, g, 0, EndOf(before, 0), s);
    DamageIsReported(c, g, s);
  }
}

/** A log that is written by calls of AddRecord, any of which may fail, and what is found in it: every record
    whose call succeeded before the log went out of step, and, if no checksum is right by chance, nothing
    but records that were written whole. */
module LogCalls {
  import opened FixedBytes
  import opened LogFormat
  import opened LogWriter
  import opened LogReader
  import opened LogReplay
  import opened LogFailures
  import opened LogMisplaced
  import opened LogGenuine

  /** One call: its record, how much of each fragment that it tried got on the file, and its status. */
  datatype Call = Call(record: Bytes, puts: seq<Put>, ok: bool)

  /** Where the writer goes on, and what is on the file. */
  datatype State = State(place: nat, file: Bytes) {
    predicate InPlace() {
      place % BLOCK_SIZE == |file| % BLOCK_SIZE
    }
  }

  function ItemsOf(s: State, call: Call): seq<Item> {
    Fragments(s.place, call.record, true)
  }

  ghost predicate Called(crc: Crc, s: State, call: Call, t: State) {
    && Tried(ItemsOf(s, call), call.puts, call.ok)
    && t == State(EndOf(ItemsOf(s, call)[..|call.puts|], s.place), s.file + AllPut(crc, ItemsOf(s, call), call.puts))
  }

  /** The states before, between and after the calls on a new log. */
  ghost predicate Run(crc: Crc, calls: seq<Call>, states: seq<State>) {
    && |states| == |calls| + 1 && states[0] == State(0, [])
    && forall i {:trigger calls[i]} :: 0 <= i < |calls| ==> Called(crc, states[i], calls[i], states[i + 1])
  }

  /** Up to state n the file ends at the writer's place in the block. */
  ghost predicate Untorn(states: seq<State>, n: nat)
    requires n < |states|
  {
    forall i {:trigger states[i]} :: 0 <= i <= n ==> states[i].InPlace()
  }

  lemma {:induction false} FileGrows(crc: Crc, calls: seq<Call>, states: seq<State>, i: nat, j: nat)
    requires Run(crc, calls, states) && i <= j <= |calls|
    ensures states[i].file <= states[j].file
    decreases j - i
  {
    if i < j {
      FileGrows(crc, calls, states, i, j - 1);
      assert Called(crc, states[j - 1], calls[j - 1], states[j]);
    }
  }

  // ---------- What is found for sure ----------

  lemma {:induction false} FoundGrows(c: Config, f: Bytes, g: Bytes, p: nat, a: Assembly, out: Out)
    requires f <= g && out.Record? && out in Assemble(c, Parse(c, f, p), a)
    ensures out in Assemble(c, Parse(c, g, p), a)
    decreases |f| - p
  {
    var (es, q) := Step(c, f, p);
    StepSize(c, f, p);
    StepGrows(c, f, g, p);
    if Step(c, f, p) != Step(c, g, p) {
      NotInLastStep(c, f, p, a, out);
    } else if es == [] {
      assert Parse(c, f, p) == Parse(c, f, q) && Parse(c, g, p) == Parse(c, g, q);
      FoundGrows(c, f, g, q, a, out);
    } else {
      var t := Turn(c, es[0], a);
      assert es == [es[0]];
      AssembleCons(c, es[0], Parse(c, f, q), a);
      AssembleCons(c, es[0], Parse(c, g, q), a);
      if out in Assemble(c, Parse(c, f, q), t.next) {
        FoundGrows(c, f, g, q, t.next, out);
      }
    }
  }

  lemma NotInLastStep(c: Config, f: Bytes, p: nat, a: Assembly, out: Out)
    requires p < |f| && Step(c, f, p).1 == |f| && |Step(c, f, p).0| <= 1 && forall e :: e in Step(c, f, p).0 ==> e.Bad?
    ensures out.Record? ==> out !in Assemble(c, Parse(c, f, p), a)
  {
    var es := Step(c, f, p).0;
    assert Parse(c, f, p) == es + Parse(c, f, |f|) == es;
    if es != [] {
      assert es == [es[0]] && es[0] in es;
      AssembleCons(c, es[0], [], a);
      EffectShape(c, BAD_RECORD, [], es[0].end - HEADER_SIZE, es[0].end, a);
    }
  }

  /** The reader finds the record; the file stands guard. */
  ghost predicate FoundIn(c: Config, f: Bytes, out: Out) {
    forall g {:trigger ReadAllOut(c, g)} :: g == f ==> out in ReadAllOut(c, g)
  }

  lemma {:induction false} StillFound(c: Config, f: Bytes, g: Bytes, out: Out)
    requires c.initial == 0 && f <= g && out.Record? && FoundIn(c, f, out)
    ensures FoundIn(c, g, out)
  {
    assert out in ReadAllOut(c, f);
    FoundGrows(c, f, g, 0, Fresh(false), out);
  }

  /** A record written in its place behind a file in step is found at its offset. */
  lemma {:induction false} OneFoundThere(c: Config, f: Bytes, record: Bytes)
    requires c.initial == 0 && InStep(c, f)
    ensures FoundIn(c, f + FileBytes(c.crc, Fragments(|f|, record, true)), Record(record, |f| + Pad(|f|)))
  {
    OneAssembled(c, |f|, record);
    FoundBehind(c, f, Fragments(|f|, record, true), Record(record, |f| + Pad(|f|)));
  }

  lemma {:induction false} FoundBehind(c: Config, f: Bytes, items: seq<Item>, out: Out)
    requires c.initial == 0 && InStep(c, f) && WellPlaced(items, |f|) && |f| + Pad(|f|) <= EndOf(items, |f|)
    requires var events := PrefixEvents(items, |f|, EndOf(items, |f|)); Begins(events) && Yields(c, events, Fresh(false), [out])
    ensures FoundIn(c, f + FileBytes(c.crc, items), out)
  {
    var b := FileBytes(c.crc, items);
    AppendedSpells(c, f, items);
    SpelledRead(c, f + b, items, |f|);
    FoundAfter(c, f, b, PrefixEvents(items, |f|, |f + b|), out);
  }

  lemma {:induction false} FoundAfter(c: Config, f: Bytes, b: Bytes, events: seq<Event>, out: Out)
    requires c.initial == 0 && InStep(c, f) && |f| + Pad(|f|) <= |f + b| && Reads(c, f + b, |f| + Pad(|f|), events)
    requires Begins(events) && Yields(c, events, Fresh(false), [out])
    ensures FoundIn(c, f + b, out)
  {
    assert Continued(c, f, b);
    FoundFrom(c, f + b, |f| + Pad(|f|), events, out);
  }

  lemma OneAssembled(c: Config, p: nat, record: Bytes)
    ensures var items := Fragments(p, record, true); var events := PrefixEvents(items, p, EndOf(items, p));
      && WellPlaced(items, p) && p + Pad(p) <= EndOf(items, p)
      && Begins(events) && Yields(c, events, Fresh(false), [Record(record, p + Pad(p))])
  {
    var items := Fragments(p, record, true);
    SingleRecord(p, record, items);
    var all := LaterAssembled(c, p, [record]);
    AssemblePrefix(c, p, [record], EndOf(items, p));
    JustOne(p, record, EndOf(items, p));
  }

  lemma JustOne(p: nat, record: Bytes, n: nat)
    requires EndOf(Fragments(p, record, true), p) <= n
    ensures RecordsUpTo(p, [record], n) == [Record(record, p + Pad(p))]
  {
    assert [record][1..] == [];
  }

  lemma {:induction false} FoundFrom(c: Config, g: Bytes, q: nat, events: seq<Event>, out: Out)
    requires c.initial == 0 && Reaches(c, g, 0, q) && Reads(c, g, q, events) && Begins(events)
    requires Yields(c, events, Fresh(false), [out])
    ensures FoundIn(c, g, out)
  {
    var before := EventsTo(c, g, 0, q);
    ParseSplits(c, g, 0, q);
    AssembleConcat(c, before, events, Fresh(false));
    var a := After(c, before, Fresh(false));
    var t := StartTurn(c, events[0], a);
    assert out in Assemble(c, events, Fresh(false));
    assert out in Assemble(c, events, a);
  }

  lemma {:induction false} UntornInStep(c: Config, calls: seq<Call>, states: seq<State>, n: nat)
    requires c.initial == 0 && Run(c.crc, calls, states) && n <= |calls| && Untorn(states, n)
    ensures InStep(c, states[n].file)
    decreases n
  {
    if n == 0 {
      EmptyInStep(c);
    } else {
      UntornInStep(c, calls, states, n - 1);
      assert Called(c.crc, states[n - 1], calls[n - 1], states[n]);
      StaysInStep(c, states[n - 1], calls[n - 1], states[n]);
    }
  }

  lemma {:induction false} StaysInStep(c: Config, s: State, call: Call, t: State)
    requires c.initial == 0 && Called(c.crc, s, call, t) && InStep(c, s.file) && s.InPlace() && t.InPlace()
    ensures InStep(c, t.file)
  {
    ReadBackExactly(c, s.file, s.place, call.record, call.puts, call.ok);
  }

  /** The record of a call that was made in state s, at the offset of its first header. */
  function RecordAt(s: State, call: Call): Out {
    Record(call.record, |s.file| + if call.puts == [] then 0 else call.puts[0].trailer)
  }

  /** Call i succeeded, and left the log in step as all before it did. */
  ghost predicate Sure(calls: seq<Call>, states: seq<State>, i: nat)
    requires i < |calls| && |states| == |calls| + 1
  {
    calls[i].ok && Untorn(states, i + 1)
  }

  /** A call that succeeds and leaves the log in step has put all of its record there. */
  lemma {:induction false} SureIsWhole(crc: Crc, f: Bytes, o: nat, record: Bytes, puts: seq<Put>)
    requires o % BLOCK_SIZE == |f| % BLOCK_SIZE
    requires var items := Fragments(o, record, true); Tried(items, puts, true) && EndOf(items[..|puts|], o) % BLOCK_SIZE == |f + AllPut(crc, items, puts)| % BLOCK_SIZE
    ensures Fragments(o, record, true) == Fragments(|f|, record, true)
    ensures AllPut(crc, Fragments(o, record, true), puts) == FileBytes(crc, Fragments(|f|, record, true))
    ensures puts != [] && puts[0].trailer == Pad(|f|)
  {
    var items := Fragments(o, record, true);
    SamePlaces(o, |f|, record, true);
    var it := FirstOf(|f|, record, true);
    assert items[..|puts|] == items;
    SameEnd(o, |f|, items);
    NoLoss(crc, items, puts, |f|, record);
    WholePut(crc, items, puts);
  }

  lemma {:induction false} NoLoss(crc: Crc, items: seq<Item>, puts: seq<Put>, p: nat, record: Bytes)
    requires items == Fragments(p, record, true) && Tried(items, puts, true)
    requires EndOf(items, p) % BLOCK_SIZE == (p + |AllPut(crc, items, puts)|) % BLOCK_SIZE
    ensures NoTrailerLost(items, puts)
  {
    FragmentsOnePad(p, record, true);
    PadPlaces(p);
    OnlyTrailer(crc, items, puts, p);
  }

  lemma {:induction false} OnlyTrailer(crc: Crc, items: seq<Item>, puts: seq<Put>, p: nat)
    requires Tried(items, puts, true) && puts != [] && OnePad(items) && items[0].pad < HEADER_SIZE
    requires EndOf(items, p) % BLOCK_SIZE == (p + |AllPut(crc, items, puts)|) % BLOCK_SIZE
    ensures NoTrailerLost(items, puts)
  {
    assert items[..|puts|] == items;
    Ahead(crc, items, puts, true, p);
    SameRest(p + |AllPut(crc, items, puts)|, TrailerLost(items, puts));
  }

  /** One such call: its record is found, at its offset. */
  lemma {:induction false} SureCall(c: Config, s: State, call: Call, t: State)
    requires c.initial == 0 && InStep(c, s.file) && Called(c.crc, s, call, t) && call.ok && s.InPlace() && t.InPlace()
    ensures FoundIn(c, t.file, RecordAt(s, call))
  {
    SureIsWhole(c.crc, s.file, s.place, call.record, call.puts);
    OneFoundThere(c, s.file, call.record);
  }

  /** Whatever is called later, and whatever becomes of it: a record whose call succeeded while the log was in
      step is found, at its offset, in every file that goes on from there. */
  lemma {:induction false} SureIsFound(c: Config, calls: seq<Call>, states: seq<State>, i: nat, g: Bytes)
    requires c.initial == 0 && Run(c.crc, calls, states) && i < |calls|
    requires Sure(calls, states, i) && states[i + 1].file <= g
    ensures FoundIn(c, g, RecordAt(states[i], calls[i]))
  {
    UntornInStep(c, calls, states, i);
    assert Called(c.crc, states[i], calls[i], states[i + 1]) && states[i].InPlace() && states[i + 1].InPlace();
    SureCall(c, states[i], calls[i], states[i + 1]);
    StillFound(c, states[i + 1].file, g, RecordAt(states[i], calls[i]));
  }

  // ---------- What else can be found ----------

  /** The fragments that a call got on the file whole, the first of its bytes being at offset at. */
  ghost function FragmentsBy(crc: Crc, items: seq<Item>, puts: seq<Put>, at: nat): seq<Fragment>
    requires AllFit(items, puts)
    decreases |puts|
  {
    if puts == [] then []
    else
      var n := |puts| - 1;
      FragmentsBy(crc, items, puts[..n], at)
      + if Through(items[n], puts[n]) then [Placed(items[n], puts[n], at + |AllPut(crc, items, puts[..n])|)] else []
  }

  function Placed(it: Item, put: Put, at: nat): Fragment {
    Fragment(at + put.trailer, it.kind, it.data)
  }

  ghost predicate Proper(items: seq<Item>) {
    forall i :: 0 <= i < |items| ==> FULL <= items[i].kind <= LAST && |items[i].data| < 65536
  }

  lemma {:induction false} PlacedProper(items: seq<Item>, p: nat)
    requires WellPlaced(items, p)
    ensures Proper(items)
  {
    if items != [] {
      PlacedFits(items[0], p);
      PlacedProper(items[1..], p + items[0].Size());
      assert forall i :: 0 < i < |items| ==> items[i] == items[1..][i - 1];
    }
  }

  lemma {:induction false} StillWritten(crc: Crc, f: Bytes, g: Bytes, P: seq<Fragment>)
    requires Written(crc, f, P) && f <= g
    ensures Written(crc, g, P)
  {
    forall k {:trigger P[k]} | 0 <= k < |P| ensures StandsIn(crc, g, P[k]) {
      assert StandsIn(crc, f, P[k]) && g[P[k].start..P[k].End()] == f[P[k].start..P[k].End()];
    }
  }

  lemma {:induction false} OneMoreWritten(crc: Crc, f: Bytes, P: seq<Fragment>, it: Item, put: Put)
    requires Written(crc, f, P) && PutFits(it, put) && Through(it, put) && FULL <= it.kind <= LAST && |it.data| < 65536
    ensures Written(crc, f + PutBytes(crc, it, put), P + [Placed(it, put, |f|)])
  {
    var g, a := f + PutBytes(crc, it, put), Placed(it, put, |f|);
    StillWritten(crc, f, g, P);
    assert g[a.start..a.End()] == Physical(crc, it.kind, it.data);
    assert forall k {:trigger P[k]} :: 0 <= k < |P| ==> StandsIn(crc, f, P[k]);
  }

  lemma {:induction false} WrittenBy(crc: Crc, f: Bytes, P: seq<Fragment>, items: seq<Item>, puts: seq<Put>)
    requires Written(crc, f, P) && AllFit(items, puts) && Proper(items)
    ensures Written(crc, f + AllPut(crc, items, puts), P + FragmentsBy(crc, items, puts, |f|))
    decreases |puts|
  {
    if puts == [] {
      assert f + [] == f && P + [] == P;
    } else {
      var n := |puts| - 1;
      var g, Q := f + AllPut(crc, items, puts[..n]), P + FragmentsBy(crc, items, puts[..n], |f|);
      WrittenBy(crc, f, P, items, puts[..n]);
      SameFile(f, AllPut(crc, items, puts[..n]), PutBytes(crc, items[n], puts[n]));
      if Through(items[n], puts[n]) {
        OneMoreWritten(crc, g, Q, items[n], puts[n]);
        assert Q + [Placed(items[n], puts[n], |g|)] == P + FragmentsBy(crc, items, puts, |f|);
      } else {
        StillWritten(crc, g, g + PutBytes(crc, items[n], puts[n]), Q);
        assert Q == P + FragmentsBy(crc, items, puts, |f|);
      }
    }
  }

  /** All fragments that the first n calls got on the file whole. */
  ghost function AllFragments(crc: Crc, calls: seq<Call>, states: seq<State>, n: nat): seq<Fragment>
    requires Run(crc, calls, states) && n <= |calls|
  {
    if n == 0 then []
    else
      var s, call := states[n - 1], calls[n - 1];
      assert Called(crc, s, call, states[n]);
      AllFragments(crc, calls, states, n - 1) + FragmentsBy(crc, ItemsOf(s, call), call.puts, |s.file|)
  }

  lemma {:induction false} AllWritten(crc: Crc, calls: seq<Call>, states: seq<State>, n: nat)
    requires Run(crc, calls, states) && n <= |calls|
    ensures Written(crc, states[n].file, AllFragments(crc, calls, states, n))
  {
    if n > 0 {
      var s, call := states[n - 1], calls[n - 1];
      assert Called(crc, s, call, states[n]);
      AllWritten(crc, calls, states, n - 1);
      FragmentsPlaced(s.place, call.record, true);
      PlacedProper(ItemsOf(s, call), s.place);
      WrittenBy(crc, s.file, AllFragments(crc, calls, states, n - 1), ItemsOf(s, call), call.puts);
    }
  }

  ghost predicate IsWhole(s: State, call: Call) {
    |call.puts| == |ItemsOf(s, call)| && AllThrough(ItemsOf(s, call), call.puts)
  }

  /** The records that the first n calls got on the file whole, at their offsets. */
  ghost function WholeRecords(calls: seq<Call>, states: seq<State>, n: nat): seq<Out>
    requires |states| == |calls| + 1 && n <= |calls|
  {
    if n == 0 then []
    else WholeRecords(calls, states, n - 1) + if IsWhole(states[n - 1], calls[n - 1]) then [RecordAt(states[n - 1], calls[n - 1])] else []
  }

  lemma {:induction false} FragmentsAre(crc: Crc, items: seq<Item>, puts: seq<Put>, at: nat)
    requires AllFit(items, puts) && AllThrough(items, puts)
    ensures var Q := FragmentsBy(crc, items, puts, at);
      |Q| == |puts| && Firsts(items, Q) && (Q != [] ==> Q[0].start == at + puts[0].trailer)
    decreases |puts|
  {
    if puts != [] {
      FragmentsAre(crc, items, puts[..|puts| - 1], at);
    }
  }

  lemma {:induction false} FragmentsOfCall(crc: Crc, items: seq<Item>, puts: seq<Put>, ok: bool, at: nat)
    requires Tried(items, puts, ok)
    ensures var Q := FragmentsBy(crc, items, puts, at);
      && Firsts(items, Q) && (Q != [] ==> Q[0].start == at + puts[0].trailer)
      && (|Q| == |items| <==> |puts| == |items| && AllThrough(items, puts))
  {
    if AllThrough(items, puts) {
      FragmentsAre(crc, items, puts, at);
    } else {
      var n := |puts| - 1;
      FragmentsAre(crc, items, puts[..n], at);
      LastMissing(items, puts);
    }
  }

  lemma {:induction false} LastMissing(items: seq<Item>, puts: seq<Put>)
    requires AllFit(items, puts) && puts != [] && AllThrough(items, puts[..|puts| - 1]) && !AllThrough(items, puts)
    ensures !Through(items[|puts| - 1], puts[|puts| - 1])
  {
    var n := |puts| - 1;
    assert forall i :: 0 <= i < n ==> puts[..n][i] == puts[i];
  }

  lemma {:induction false} CompleteCall(crc: Crc, s: State, call: Call)
    requires Tried(ItemsOf(s, call), call.puts, call.ok)
    ensures var Q := FragmentsBy(crc, ItemsOf(s, call), call.puts, |s.file|);
      && (Q != [] ==> Q[0].Begins())
      && Complete(Q, 0) == if IsWhole(s, call) then [RecordAt(s, call)] else []
  {
    var items := ItemsOf(s, call);
    var Q := FragmentsBy(crc, items, call.puts, |s.file|);
    FragmentsOfCall(crc, items, call.puts, call.ok, |s.file|);
    FragmentsCarry(s.place, call.record, true);
    if Q != [] {
      CompleteRecord(items, Q, call.record, 0);
    }
  }

  /** The fragments, which stand guard, make up the records. */
  ghost predicate MakeUp(P: seq<Fragment>, records: seq<Out>) {
    forall Q {:trigger Complete(Q, 0)} :: Q == P ==> Complete(Q, 0) == records
  }

  lemma {:induction false} CompleteCalls(crc: Crc, calls: seq<Call>, states: seq<State>, n: nat)
    requires Run(crc, calls, states) && n <= |calls|
    ensures MakeUp(AllFragments(crc, calls, states, n), WholeRecords(calls, states, n))
  {
    if n > 0 {
      var s, call := states[n - 1], calls[n - 1];
      assert Called(crc, s, call, states[n]);
      CompleteCalls(crc, calls, states, n - 1);
      OneMoreCall(crc, AllFragments(crc, calls, states, n - 1), WholeRecords(calls, states, n - 1), s, call);
    }
  }

  lemma {:induction false} OneMoreCall(crc: Crc, P: seq<Fragment>, records: seq<Out>, s: State, call: Call)
    requires Tried(ItemsOf(s, call), call.puts, call.ok) && MakeUp(P, records)
    ensures MakeUp(P + FragmentsBy(crc, ItemsOf(s, call), call.puts, |s.file|),
                   records + if IsWhole(s, call) then [RecordAt(s, call)] else [])
  {
    CompleteCall(crc, s, call);
    CompleteConcat(P, FragmentsBy(crc, ItemsOf(s, call), call.puts, |s.file|));
  }

  /** The checksum is right nowhere but at the fragments that the calls wrote. */
  ghost predicate Unforged(crc: Crc, calls: seq<Call>, states: seq<State>)
    requires Run(crc, calls, states)
  {
    NoForgery(crc, states[|calls|].file, AllFragments(crc, calls, states, |calls|))
  }

  /** A log written by calls any of which may have failed, in any way, read with checksums: it gives back some
      of the records that were written whole, in the order of the calls and each once, and among them every
      one whose call succeeded while the log was in step. */
  lemma {:induction false} ReadsWhatWasWritten(c: Config, calls: seq<Call>, states: seq<State>)
    requires c.initial == 0 && c.checksum && Run(c.crc, calls, states) && Unforged(c.crc, calls, states)
    ensures Subsequence(Found(ReadAllOut(c, states[|calls|].file)), WholeRecords(calls, states, |calls|))
    ensures forall i :: 0 <= i < |calls| && Sure(calls, states, i) ==> FoundIn(c, states[|calls|].file, RecordAt(states[i], calls[i]))
  {
    var n := |calls|;
    AllWritten(c.crc, calls, states, n);
    ReadsOnlyWritten(c, states[n].file, AllFragments(c.crc, calls, states, n));
    CompleteCalls(c.crc, calls, states, n);
    forall i | 0 <= i < n && Sure(calls, states, i) ensures FoundIn(c, states[n].file, RecordAt(states[i], calls[i])) {
      FileGrows(c.crc, calls, states, i + 1, n);
      SureIsFound(c, calls, states, i, states[n].file);
    }
  }
}

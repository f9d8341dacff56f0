/** log::Reader, specified by what a byte string parses to. */
module LogReader {
  import opened FixedBytes
  import opened LogFormat

  /** What ReadPhysicalRecord hands up: a physical record, or damage that costs some
      bytes. Quiet damage is skipped without a report. */
  datatype Event =
    | Rec(kind: Byte, data: Bytes, start: nat, end: nat)
    | Bad(dropped: nat, quiet: bool, end: nat)

  /** How to read: with which checksum, if it is verified, and from which offset on. */
  datatype Config = Config(crc: Crc, checksum: bool, initial: nat)

  function Min(a: int, b: int): int {
    if a < b then a else b
  }

  /** What stands at offset p of file f, if anything, and where to go on. */
  ghost function Step(c: Config, f: Bytes, p: nat): (r: (seq<Event>, nat))
    requires p < |f|
    ensures p < r.1 <= |f|
  {
    var end := Min(|f|, BlockEnd(p));
    var eof := |f| < BlockEnd(p);
    if end - p < HEADER_SIZE then ([], end)
    else
      var next := p + HEADER_SIZE + LengthAt(f, p);
      if next > end then (if eof then [] else [Bad(end - p, false, end)], end)
      else if TypeAt(f, p) == ZERO_TYPE && LengthAt(f, p) == 0 then ([Bad(0, true, end)], end)
      else if c.checksum && !ChecksumAt(c.crc, f, p) then ([Bad(end - p, false, end)], end)
      else if p < c.initial then ([Bad(0, true, next)], next)
      else ([Rec(TypeAt(f, p), f[p + HEADER_SIZE..next], p, next)], next)
  }

  /** The physical records of file f from offset p on. */
  ghost function Parse(c: Config, f: Bytes, p: nat): seq<Event>
    decreases |f| - p
  {
    if p >= |f| then [] else Step(c, f, p).0 + Parse(c, f, Step(c, f, p).1)
  }

  lemma {:induction false} StartsLate(c: Config, f: Bytes, p: nat)
    ensures forall i :: 0 <= i < |Parse(c, f, p)| && Parse(c, f, p)[i].Rec? ==> Parse(c, f, p)[i].start >= c.initial
    decreases |f| - p
  {
    if p < |f| {
      StartsLate(c, f, Step(c, f, p).1);
    }
  }

  lemma ParseEnd(c: Config, f: Bytes, p: nat)
    requires p >= |f| || (|f| < BlockEnd(p) && |f| - p < HEADER_SIZE)
    ensures Parse(c, f, p) == []
  {
  }

  /** What the caller of ReadRecord gets to see: records, reports of dropped bytes, and
      calls that end without a record although more of the file may follow. */
  datatype Out = Record(data: Bytes, offset: int) | Report(bytes: int) | Stop

  /** The reassembly in progress; start is where its record began. */
  datatype Assembly = Assembly(resyncing: bool, inFragment: bool, scratch: Bytes, start: int)

  const EOF: int := 5
  const BAD_RECORD: int := 6

  function Reported(c: Config, bytes: int, end: nat): seq<Out> {
    if end - bytes >= c.initial then [Report(bytes)] else []
  }

  function Fresh(resyncing: bool): Assembly {
    Assembly(resyncing, false, [], 0)
  }

  /** What ReadPhysicalRecord itself reports about an event. */
  function Lost(c: Config, e: Event): seq<Out> {
    if e.Bad? && !e.quiet then Reported(c, e.dropped, e.end) else []
  }

  /** The effect of one physical record: reports, then perhaps the end of the call. */
  datatype Effect = Effect(reports: seq<Out>, result: seq<Out>, next: Assembly)

  /** How ReadRecord takes a physical record into the reassembly. */
  function Dispatch(c: Config, kind: int, data: Bytes, start: int, end: nat, a: Assembly): Effect {
    if a.resyncing && kind == MIDDLE then Effect([], [], a)
    else if a.resyncing && kind == LAST then Effect([], [], a.(resyncing := false))
    else
      var b := a.(resyncing := false);
      if kind == FULL then Effect(Abandoned(c, b, end), [Record(data, start)], Fresh(false))
      else if kind == FIRST then Effect(Abandoned(c, b, end), [], Assembly(false, true, data, start))
      else if kind == MIDDLE then
        if b.inFragment then Effect([], [], b.(scratch := b.scratch + data)) else Effect(Reported(c, |data|, end), [], b)
      else if kind == LAST then
        if b.inFragment then Effect([], [Record(b.scratch + data, b.start)], Fresh(false))
        else Effect(Reported(c, |data|, end), [], b)
      else if kind == EOF then Effect([], [Stop], Fresh(false))
      else if kind == BAD_RECORD then
        if b.inFragment then Effect(Reported(c, |b.scratch|, end), [], Fresh(false)) else Effect([], [], b)
      else
        Effect(Reported(c, |data| + if b.inFragment then |b.scratch| else 0, end), [], Fresh(false))
  }

  /** One turn of ReadRecord's loop. */
  function Turn(c: Config, e: Event, a: Assembly): Effect {
    match e
    case Bad(dropped, quiet, end) => Dispatch(c, BAD_RECORD, [], end - HEADER_SIZE, end, a)
    case Rec(kind, data, start, end) => Dispatch(c, kind, data, start, end, a)
  }

  function Abandoned(c: Config, a: Assembly, end: nat): seq<Out> {
    if a.inFragment && a.scratch != [] then Reported(c, |a.scratch|, end) else []
  }

  ghost function Assemble(c: Config, events: seq<Event>, a: Assembly): seq<Out> {
    if events == [] then []
    else
      var t := Turn(c, events[0], a);
      Lost(c, events[0]) + t.reports + t.result + Assemble(c, events[1..], t.next)
  }

  /** The block in which a reader starts looking. */
  function StartBlock(initial: nat): nat {
    var offsetInBlock := initial % BLOCK_SIZE;
    initial - offsetInBlock + if offsetInBlock > BLOCK_SIZE - 6 then BLOCK_SIZE else 0
  }

  ghost function ReadAllOut(c: Config, f: Bytes): seq<Out> {
    Assemble(c, Parse(c, f, if c.initial > 0 then StartBlock(c.initial) else 0), Assembly(c.initial > 0, false, [], 0))
  }

  /** How many reports come before the first record or stop. */
  ghost function Lead(outs: seq<Out>): (n: nat)
    ensures n <= |outs|
    ensures forall i :: 0 <= i < n ==> outs[i].Report?
    ensures n < |outs| ==> !outs[n].Report?
  {
    if outs == [] || !outs[0].Report? then 0 else 1 + Lead(outs[1..])
  }

  lemma {:induction false} LeadSplit(made: seq<Out>, rest: seq<Out>)
    requires OnlyReports(made)
    ensures Lead(made + rest) == |made| + Lead(rest)
  {
    if made == [] {
      assert made + rest == rest;
    } else {
      assert (made + rest)[1..] == made[1..] + rest;
      LeadSplit(made[1..], rest);
    }
  }

  ghost predicate OnlyReports(outs: seq<Out>) {
    forall i :: 0 <= i < |outs| ==> outs[i].Report?
  }

  lemma EffectShape(c: Config, kind: int, data: Bytes, start: int, end: nat, a: Assembly)
    ensures var t := Dispatch(c, kind, data, start, end, a);
            && OnlyReports(t.reports)
            && |t.result| <= 1 && (t.result != [] ==> !t.result[0].Report? && t.next == Fresh(false))
  {
  }

  /** One event of a reassembly, seen from the caller of ReadRecord. */
  lemma OneEvent(c: Config, e: Event, rest: seq<Event>, a: Assembly, kind: int, data: Bytes, start: int, t: Effect)
    requires e.Rec? ==> kind == e.kind && data == e.data && start == e.start
    requires e.Bad? ==> kind == BAD_RECORD && data == [] && start == e.end - HEADER_SIZE
    requires t == Dispatch(c, kind, data, start, e.end, a)
    ensures Assemble(c, [e] + rest, a) == Lost(c, e) + t.reports + t.result + Assemble(c, rest, t.next)
    ensures OnlyReports(Lost(c, e) + t.reports)
    ensures |t.result| <= 1 && (t.result != [] ==> !t.result[0].Report? && t.next == Fresh(false))
  {
    EffectShape(c, kind, data, start, e.end, a);
    assert ([e] + rest)[1..] == rest;
  }

  /** Reports only have been made of the outs, and a is the reassembly in progress. */
  ghost predicate Progress(c: Config, outs: seq<Out>, made: seq<Out>, events: seq<Event>, a: Assembly) {
    && (forall es {:trigger Assemble(c, es, a)} :: es == events ==> outs == made + Assemble(c, es, a))
    && OnlyReports(made)
    && (a.inFragment ==> a.start >= c.initial)
    && forall i :: 0 <= i < |events| && events[i].Rec? ==> events[i].start >= c.initial
  }

  /** The outcome of a turn: reports, then either more to do or the end of the call. */
  ghost predicate Turned(c: Config, events: seq<Event>, outs: seq<Out>, made: seq<Out>, b: Assembly, result: seq<Out>) {
    && OnlyReports(made)
    && if result == [] then events != [] && Progress(c, outs, made, events[1..], b)
       else
         && |result| == 1 && !result[0].Report? && b == Fresh(false)
         && (result[0].Record? ==> result[0].offset >= c.initial)
         && if events == [] then result == [Stop] && outs == made
            else forall es {:trigger Assemble(c, es, Fresh(false))} ::
              es == events[1..] ==> outs == made + (result + Assemble(c, es, Fresh(false)))
  }

  /** The physical record that ReadPhysicalRecord returns for the first of the events. */
  ghost predicate Returned(events: seq<Event>, kind: int, fragment: Bytes, end: int) {
    if events == [] then kind == EOF && fragment == []
    else
      && end == events[0].end
      && match events[0]
         case Rec(k, data, start, _) => kind == k && fragment == data && start == end - HEADER_SIZE - |fragment|
         case Bad(_, _, _) => kind == BAD_RECORD && fragment == []
  }

  ghost function LostBy(c: Config, events: seq<Event>): seq<Out> {
    if events == [] then [] else Lost(c, events[0])
  }

  /** t is the effect of a physical record that ended at the given offset. */
  ghost predicate IsEffect(c: Config, kind: int, data: Bytes, end: int, a: Assembly, t: Effect) {
    forall p: int, q: nat {:trigger Dispatch(c, kind, data, p, q, a)} ::
      q == end && p == end - HEADER_SIZE - |data| ==> Dispatch(c, kind, data, p, q, a) == t
  }

  lemma Progresses(c: Config, outs: seq<Out>, made: seq<Out>, events: seq<Event>, a: Assembly,
                   kind: int, data: Bytes, end: nat)
    returns (t: Effect)
    requires Progress(c, outs, made, events, a) && Returned(events, kind, data, end)
    ensures IsEffect(c, kind, data, end, a, t)
    ensures Turned(c, events, outs, made + (LostBy(c, events) + t.reports), t.next, t.result)
  {
    t := Dispatch(c, kind, data, end - HEADER_SIZE - |data|, end, a);
    if events != [] {
      var e, rest, start := events[0], events[1..], end - HEADER_SIZE - |data|;
      assert events == [e] + rest;
      OneEvent(c, e, rest, a, kind, data, start, t);
      Regroup(made, Lost(c, e), t.reports, t.result, Assemble(c, rest, t.next));
      LateStart(c, kind, data, start, e, a, t);
    } else {
      assert Assemble(c, [], a) == [];
    }
  }

  lemma LateStart(c: Config, kind: int, data: Bytes, start: int, e: Event, a: Assembly, t: Effect)
    requires e.Rec? ==> start >= c.initial
    requires e.Bad? ==> kind == BAD_RECORD
    requires a.inFragment ==> a.start >= c.initial
    requires t == Dispatch(c, kind, data, start, e.end, a)
    ensures t.next.inFragment ==> t.next.start >= c.initial
    ensures t.result != [] && t.result[0].Record? ==> t.result[0].offset >= c.initial
  {
  }

  lemma Chain(a: seq<Out>, b: seq<Out>, c: seq<Out>)
    ensures a + b + c == a + (b + c)
  {
  }

  lemma Regroup(made: seq<Out>, a: seq<Out>, b: seq<Out>, r: seq<Out>, rest: seq<Out>)
    ensures made + (a + b + r + rest) == made + (a + b) + (r + rest)
    ensures r == [] ==> made + (a + b + r + rest) == made + (a + b) + rest
  {
  }

  /** A call has told the reports before the first record or stop, returned that, and left
      the later outs to the calls that follow. */
  ghost predicate Answered(outs: seq<Out>, told: seq<Out>, found: bool, record: Bytes, offset: int, later: seq<Out>) {
    var n := Lead(outs);
    && told == outs[..n]
    && (found <==> n < |outs| && outs[n].Record?)
    && (found ==> outs[n] == Record(record, offset))
    && later == if n < |outs| then outs[n + 1..] else []
  }

  lemma AnsweredBy(outs: seq<Out>, told: seq<Out>, rest: seq<Out>, found: bool, record: Bytes, offset: int, later: seq<Out>)
    requires outs == told + rest && OnlyReports(told)
    requires rest == [if found then Record(record, offset) else Stop] + later || (!found && rest == [] && later == [])
    ensures Answered(outs, told, found, record, offset, later)
  {
    LeadSplit(told, rest);
  }

  /** How a header turns out. */
  datatype Verdict = Torn | TooLong | ZeroRecord | Mismatch | Early | Good(kind: Byte, data: Bytes)

  ghost function StepOf(v: Verdict, p: nat, next: nat, end: nat): (seq<Event>, nat)
    requires p <= end
  {
    match v
    case Torn => ([], end)
    case TooLong => ([Bad(end - p, false, end)], end)
    case ZeroRecord => ([Bad(0, true, end)], end)
    case Mismatch => ([Bad(end - p, false, end)], end)
    case Early => ([Bad(0, true, next)], next)
    case Good(t, data) => ([Rec(t, data, p, next)], next)
  }

  class Reader {
    const config: Config
    const file: Bytes
    var filePos: nat
    var buffer: Bytes
    var eof: bool
    var lastRecordOffset: int
    var endOfBufferOffset: nat
    var resyncing: bool
    var reports: seq<Out>

    constructor (config: Config, file: Bytes)
      ensures this.config == config && this.file == file && Ok() && Unread() && reports == []
      ensures Pending() == Parse(config, file, if config.initial > 0 then StartBlock(config.initial) else 0)
      ensures resyncing == (config.initial > 0)
    {
      this.config, this.file := config, file;
      filePos, buffer, eof, lastRecordOffset, endOfBufferOffset := 0, [], false, 0, 0;
      resyncing, reports := config.initial > 0, [];
    }

    /** Nothing has been read yet. */
    predicate Unread()
      reads `filePos, `buffer, `eof, `endOfBufferOffset
    {
      filePos == 0 && endOfBufferOffset == 0 && buffer == [] && !eof
    }

    ghost predicate Ok()
      reads `filePos, `buffer, `eof, `endOfBufferOffset
    {
      && filePos == endOfBufferOffset
      && |buffer| <= endOfBufferOffset
      && (buffer != [] ==> endOfBufferOffset <= |file| && buffer == file[endOfBufferOffset - |buffer|..endOfBufferOffset])
      && (if eof then endOfBufferOffset >= |file| else endOfBufferOffset % BLOCK_SIZE == 0)
      && (buffer != [] && eof ==> |file| < BlockEnd(endOfBufferOffset - |buffer|))
      && (buffer != [] && !eof ==> BlockEnd(endOfBufferOffset - |buffer|) == endOfBufferOffset)
    }

    /** The file offset of the next unread byte. */
    ghost function Offset(): nat
      requires Ok()
      reads `filePos, `buffer, `eof, `endOfBufferOffset
    {
      endOfBufferOffset - |buffer|
    }

    /** The physical records still to come. */
    ghost function Pending(): seq<Event>
      requires Ok()
      reads this
    {
      Parse(config, file,
        if Unread() && lastRecordOffset < config.initial then StartBlock(config.initial) else Offset())
    }

    /** The physical records from the current position on. */
    ghost function Here(): seq<Event>
      requires Ok()
      reads `filePos, `buffer, `eof, `endOfBufferOffset
    {
      Parse(config, file, Offset())
    }

    /** The same, told by name: the offset stands guard so that callers need not look in. */
    ghost predicate Holds(events: seq<Event>)
      reads `filePos, `buffer, `eof, `endOfBufferOffset
    {
      Ok() && forall p: nat {:trigger Parse(config, file, p)} :: p == Offset() ==> Parse(config, file, p) == events
    }

    method ReportDrop(bytes: int)
      requires |buffer| <= endOfBufferOffset
      modifies `reports
      ensures reports == old(reports) + Reported(config, bytes, endOfBufferOffset - |buffer|)
    {
      if endOfBufferOffset - |buffer| - bytes >= config.initial {
        reports := reports + [Report(bytes)];
      }
    }

    method SkipToInitialBlock()
      requires Ok() && Unread()
      modifies this
      ensures Ok() && buffer == [] && reports == old(reports) && resyncing == old(resyncing)
      ensures lastRecordOffset == old(lastRecordOffset)
      ensures Offset() == StartBlock(config.initial)
    {
      var offsetInBlock := config.initial % BLOCK_SIZE;
      var blockStartLocation := config.initial - offsetInBlock;
      if offsetInBlock > BLOCK_SIZE - 6 {
        blockStartLocation := blockStartLocation + BLOCK_SIZE;
      }
      endOfBufferOffset := blockStartLocation;
      if blockStartLocation > 0 {
        filePos := filePos + blockStartLocation;
      }
    }

    /** Refills the buffer with the next block once less than a header is left in it. */
    method ReadBlock()
      requires Ok() && !eof && |buffer| < HEADER_SIZE
      modifies `buffer, `filePos, `endOfBufferOffset, `eof
      ensures Ok() && Here() == old(Here())
      ensures eof || |buffer| >= HEADER_SIZE
    {
      ghost var p := Offset();
      var from := if filePos < |file| then filePos else |file|;
      var upto := if |file| - from < BLOCK_SIZE then |file| else from + BLOCK_SIZE;
      buffer := file[from..upto];
      filePos := filePos + |buffer|;
      endOfBufferOffset := endOfBufferOffset + |buffer|;
      if |buffer| < BLOCK_SIZE {
        eof := true;
      }
    }

    /** Makes at least a header available, or reaches the end of the file. */
    method FillBuffer() returns (atEnd: bool)
      requires Ok()
      modifies `buffer, `filePos, `endOfBufferOffset, `eof
      ensures Ok() && Here() == old(Here())
      ensures if atEnd then eof && buffer == [] && Here() == [] else |buffer| >= HEADER_SIZE
    {
      while |buffer| < HEADER_SIZE
        invariant Ok() && Here() == old(Here())
        decreases if |buffer| >= HEADER_SIZE then 0 else if eof then 1 else 2
      {
        if eof {
          ParseEnd(config, file, Offset());
          ParseEnd(config, file, endOfBufferOffset);
          buffer := [];
          return true;
        }
        ReadBlock();
      }
      return false;
    }

    /** Gives up what is left of the buffer, with or without a report. */
    method DropBuffer(quiet: bool)
      requires Ok()
      modifies `buffer, `reports
      ensures Ok() && buffer == [] && Offset() == endOfBufferOffset
      ensures reports == old(reports) + if quiet then [] else Reported(config, |old(buffer)|, endOfBufferOffset)
    {
      var dropSize := |buffer|;
      buffer := [];
      if !quiet {
        ReportDrop(dropSize);
      }
    }

    method RemovePrefix(k: nat)
      requires Ok() && k <= |buffer|
      modifies `buffer
      ensures Ok() && Offset() == old(Offset()) + k && |buffer| == |old(buffer)| - k
    {
      ghost var p := Offset();
      if k < |buffer| {
        SameBlock(p, p + k);
        Slice(file, p, |buffer|, k, |buffer|);
      }
      buffer := buffer[k..];
    }

    /** Tests the header at the front of the buffer. */
    method Examine() returns (v: Verdict, length: nat)
      requires Ok() && |buffer| >= HEADER_SIZE
      ensures length == LengthAt(buffer, 0)
      ensures v.Torn? ==> eof
      ensures v.Good? || v.Early? ==> HEADER_SIZE + length <= |buffer|
      ensures v.Good? ==> v == Good(TypeAt(buffer, 0), buffer[HEADER_SIZE..HEADER_SIZE + length])
      ensures Step(config, file, Offset()) == StepOf(v, Offset(), Offset() + HEADER_SIZE + length, endOfBufferOffset)
    {
      ghost var p := Offset();
      SameInBuffer(config.crc, file, p, buffer);
      length := LengthAt(buffer, 0);
      if HEADER_SIZE + length > |buffer| {
        v := if eof then Torn else TooLong;
      } else if TypeAt(buffer, 0) == ZERO_TYPE && length == 0 {
        v := ZeroRecord;
      } else if config.checksum && !ChecksumAt(config.crc, buffer, 0) {
        v := Mismatch;
      } else if endOfBufferOffset - |buffer| < config.initial {
        v := Early;
      } else {
        v := Good(TypeAt(buffer, 0), buffer[HEADER_SIZE..HEADER_SIZE + length]);
      }
    }

    /** Acts on a header that was examined. */
    method Deliver(v: Verdict, length: nat, ghost events: seq<Event>) returns (kind: int, fragment: Bytes)
      requires Ok() && events == Here() && buffer != []
      requires v.Good? || v.Early? ==> HEADER_SIZE + length <= |buffer|
      requires v.Good? ==> |v.data| == length
      requires Step(config, file, Offset()) == StepOf(v, Offset(), Offset() + HEADER_SIZE + length, endOfBufferOffset)
      requires v.Torn? ==> eof
      modifies `buffer, `reports
      ensures Ok() && After(events, kind, fragment, old(reports))
    {
      kind, fragment := BAD_RECORD, [];
      match v {
        case Torn =>
          DropBuffer(true);
          kind := EOF;
        case Early =>
          RemovePrefix(HEADER_SIZE + length);
        case Good(t, data) =>
          RemovePrefix(HEADER_SIZE + length);
          kind, fragment := t, data;
        case _ =>
          DropBuffer(v.ZeroRecord?);
      }
    }

    /** The next physical record, or EOF or BAD_RECORD. */
    method ReadPhysicalRecord(ghost events: seq<Event>) returns (kind: int, fragment: Bytes, ghost before: seq<Out>)
      requires Holds(events)
      modifies `buffer, `filePos, `endOfBufferOffset, `eof, `reports
      ensures !Unread() && |buffer| <= endOfBufferOffset && before == old(reports)
      ensures Holds(if events == [] then [] else events[1..]) && reports == before + LostBy(config, events)
      ensures Returned(events, kind, fragment, endOfBufferOffset - |buffer|)
    {
      before := reports;
      assert Here() == events;
      var atEnd := FillBuffer();
      if atEnd {
        return EOF, [], before;
      }
      var v, length := Examine();
      kind, fragment := Deliver(v, length, events);
    }

    /** Takes one physical record into the reassembly. */
    method Take(kind: int, fragment: Bytes, a: Assembly, ghost t: Effect) returns (b: Assembly, result: seq<Out>)
      requires |buffer| <= endOfBufferOffset && a.resyncing == resyncing
      requires IsEffect(config, kind, fragment, endOfBufferOffset - |buffer|, a, t)
      modifies `resyncing, `lastRecordOffset, `reports
      ensures b == t.next && result == t.result && reports == old(reports) + t.reports
      ensures resyncing == b.resyncing
      ensures lastRecordOffset == if result != [] && result[0].Record? then result[0].offset else old(lastRecordOffset)
    {
      b, result := a, [];
      var physicalRecordOffset := endOfBufferOffset - |buffer| - HEADER_SIZE - |fragment|;
      assert t == Dispatch(config, kind, fragment, physicalRecordOffset, endOfBufferOffset - |buffer|, a);
      if resyncing {
        if kind == MIDDLE {
          return;
        }
        resyncing := false;
        b := a.(resyncing := false);
        if kind == LAST {
          return;
        }
      }
      if kind == FULL || kind == FIRST {
        if b.inFragment && b.scratch != [] {
          ReportDrop(|b.scratch|);
        }
        if kind == FULL {
          lastRecordOffset := physicalRecordOffset;
          b, result := Fresh(false), [Record(fragment, physicalRecordOffset)];
        } else {
          b := Assembly(false, true, fragment, physicalRecordOffset);
        }
      } else if kind == MIDDLE || kind == LAST {
        if !b.inFragment {
          ReportDrop(|fragment|);
        } else if kind == MIDDLE {
          b := b.(scratch := b.scratch + fragment);
        } else {
          lastRecordOffset := b.start;
          b, result := Fresh(false), [Record(b.scratch + fragment, b.start)];
        }
      } else if kind == EOF {
        b, result := Fresh(false), [Stop];
      } else if kind == BAD_RECORD {
        if b.inFragment {
          ReportDrop(|b.scratch|);
          b := Fresh(false);
        }
      } else {
        ReportDrop(|fragment| + if b.inFragment then |b.scratch| else 0);
        b := Fresh(false);
      }
    }

    /** One turn of ReadRecord's loop. */
    method ReadTurn(a: Assembly, ghost events: seq<Event>, ghost outs: seq<Out>, ghost made: seq<Out>)
      returns (b: Assembly, result: seq<Out>, ghost told: seq<Out>)
      requires Holds(events) && a.resyncing == resyncing && Progress(config, outs, made, events, a)
      modifies this
      ensures !Unread() && Holds(if events == [] then [] else events[1..])
      ensures b.resyncing == resyncing && reports == old(reports) + told
      ensures Turned(config, events, outs, made + told, b, result)
      ensures result != [] && result[0].Record? ==> lastRecordOffset == result[0].offset
    {
      var kind, fragment;
      ghost var before;
      kind, fragment, before := ReadPhysicalRecord(events);
      ghost var t := Progresses(config, outs, made, events, a, kind, fragment, endOfBufferOffset - |buffer|);
      b, result := Take(kind, fragment, a, t);
      Chain(before, LostBy(config, events), t.reports);
      told := LostBy(config, events) + t.reports;
    }

    /** Reads the next record. Reading on after the end of a log that was opened at an
        offset, with no record found, is not allowed. */
    method ReadRecord() returns (found: bool, record: Bytes, ghost told: seq<Out>)
      requires Ok() && (Unread() || lastRecordOffset >= config.initial)
      modifies this
      ensures Ok() && !Unread() && reports == old(reports) + told
      ensures found ==> lastRecordOffset >= config.initial
      ensures Answered(old(Assemble(config, Pending(), Fresh(resyncing))), told, found, record, lastRecordOffset,
                       Assemble(config, Pending(), Fresh(resyncing)))
    {
      ghost var outs := Assemble(config, Pending(), Fresh(resyncing));
      ghost var events := Begin();
      ghost var rest;
      found, record, told, events, rest := ReadOn(events, outs);
      assert Pending() == events;
      AnsweredBy(outs, told, rest, found, record, lastRecordOffset, Assemble(config, events, Fresh(resyncing)));
    }

    /** Finds the first block to read, if reading has not begun. */
    method Begin() returns (ghost events: seq<Event>)
      requires Ok() && (Unread() || lastRecordOffset >= config.initial)
      modifies this
      ensures events == old(Pending()) && Holds(events) && resyncing == old(resyncing) && reports == old(reports)
      ensures forall i :: 0 <= i < |events| && events[i].Rec? ==> events[i].start >= config.initial
    {
      events := Pending();
      if lastRecordOffset < config.initial {
        SkipToInitialBlock();
      }
      StartsLate(config, file, Offset());
    }

    /** The loop of ReadRecord. */
    method ReadOn(ghost pending: seq<Event>, ghost outs: seq<Out>)
      returns (found: bool, record: Bytes, ghost made: seq<Out>, ghost events: seq<Event>, ghost rest: seq<Out>)
      requires Holds(pending) && Progress(config, outs, [], pending, Fresh(resyncing))
      modifies this
      ensures !Unread() && Holds(events) && outs == made + rest
      ensures reports == old(reports) + made && OnlyReports(made)
      ensures found ==> lastRecordOffset >= config.initial
      ensures rest == [if found then Record(record, lastRecordOffset) else Stop] + Assemble(config, events, Fresh(resyncing))
              || (!found && rest == [] && events == [])
    {
      var a := Fresh(resyncing);
      var result;
      made, events := [], pending;
      while true
        invariant Holds(events) && a.resyncing == resyncing
        invariant Progress(config, outs, made, events, a) && reports == old(reports) + made
        decreases |events|
      {
        ghost var told;
        a, result, told := ReadTurn(a, events, outs, made);
        Chain(old(reports), made, told);
        made := made + told;
        if result != [] {
          break;
        }
        events := events[1..];
      }
      rest := if events == [] then [] else result + Assemble(config, events[1..], Fresh(false));
      events := if events == [] then [] else events[1..];
      found, record := false, [];
      if result[0].Record? {
        found, record := true, result[0].data;
      }
    }

    /** The first of the events has been delivered; the others are still to come. */
    ghost predicate After(events: seq<Event>, kind: int, fragment: Bytes, before: seq<Out>)
      requires Ok()
      reads this
    {
      if events == [] then kind == EOF && fragment == [] && Here() == [] && reports == before
      else Here() == events[1..] && Delivered(events[0], kind, fragment, before)
    }

    /** What ReadPhysicalRecord returns and leaves behind for one event. */
    ghost predicate Delivered(e: Event, kind: int, fragment: Bytes, before: seq<Out>)
      requires Ok()
      reads this
    {
      && Offset() == e.end
      && match e
         case Rec(k, data, start, end) =>
           kind == k && fragment == data && start == end - HEADER_SIZE - |data| && reports == before
         case Bad(dropped, quiet, end) =>
           kind == BAD_RECORD && fragment == [] && reports == before + Lost(config, e)
    }
  }

  lemma SameBlock(p: nat, q: nat)
    requires p <= q < BlockEnd(p)
    ensures BlockEnd(q) == BlockEnd(p)
  {
  }

  lemma Slice(f: Bytes, p: nat, n: nat, a: nat, b: nat)
    requires a <= b <= n && p + n <= |f|
    ensures f[p..p + n][a..b] == f[p + a..p + b]
  {
    var l, r := f[p..p + n][a..b], f[p + a..p + b];
    assert forall i :: 0 <= i < b - a ==> l[i] == r[i];
  }

  lemma SameInBuffer(crc: Crc, f: Bytes, p: nat, buffer: Bytes)
    requires p + |buffer| <= |f| && buffer == f[p..p + |buffer|] && |buffer| >= HEADER_SIZE
    ensures LengthAt(buffer, 0) == LengthAt(f, p) && TypeAt(buffer, 0) == TypeAt(f, p)
    ensures HEADER_SIZE + LengthAt(f, p) <= |buffer| ==>
              && ChecksumAt(crc, buffer, 0) == ChecksumAt(crc, f, p)
              && buffer[HEADER_SIZE..HEADER_SIZE + LengthAt(f, p)] == f[p + HEADER_SIZE..p + HEADER_SIZE + LengthAt(f, p)]
  {
    Slice(f, p, |buffer|, 0, 4);
    if HEADER_SIZE + LengthAt(f, p) <= |buffer| {
      Slice(f, p, |buffer|, 6, HEADER_SIZE + LengthAt(f, p));
      Slice(f, p, |buffer|, HEADER_SIZE, HEADER_SIZE + LengthAt(f, p));
    }
  }
}

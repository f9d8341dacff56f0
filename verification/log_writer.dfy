/** log::Writer: cuts a record into fragments and appends them to a file, and what is on the file once
    some of its appends have failed. */
module LogWriter {
  import opened FixedBytes
  import opened LogFormat

  /** A WritableFile of whatever kind: what is on the file, and what is buffered. An append or a flush that
      fails may have put any part of the bytes on the file, from the first on, and drops the rest; the next
      one goes on behind that, and may succeed. */
  class WritableFile {
    const faulty: bool
    var contents: Bytes
    var buffer: Bytes

    constructor (contents: Bytes, faulty: bool)
      ensures this.contents == contents && this.faulty == faulty && buffer == []
    {
      this.contents, this.faulty, buffer := contents, faulty, [];
    }

    method Write(data: Bytes, least: nat) returns (ok: bool)
      requires least <= |data|
      modifies this
      ensures (ok || faulty) && (!ok ==> buffer == []) && old(contents) <= contents
      ensures if ok then contents + buffer == old(contents) + data && |buffer| <= |data| - least else contents <= old(contents) + data
    {
      ok := true;
      if faulty {
        ok := *;
      }
      var n: nat :| n <= |data| && (ok ==> least <= n);
      contents := contents + data[..n];
      buffer := if ok then data[n..] else [];
    }

    method Append(data: Bytes) returns (ok: bool)
      modifies this
      ensures (ok || faulty) && (!ok ==> buffer == []) && old(contents) <= contents
      ensures if ok then contents + buffer == old(contents) + (old(buffer) + data) else contents <= old(contents) + (old(buffer) + data)
    {
      ok := Write(buffer + data, 0);
    }

    method Flush() returns (ok: bool)
      modifies this
      ensures buffer == [] && (ok || faulty) && old(contents) <= contents
      ensures if ok then contents == old(contents) + old(buffer) else contents <= old(contents) + old(buffer)
    {
      ok := Write(buffer, |buffer|);
    }
  }

  // ---------- What a record may leave on the file ----------

  /** How much of a fragment got on the file: trailer bytes of its trailer, and body bytes of the rest. */
  datatype Put = Put(trailer: nat, body: nat)

  predicate PutFits(it: Item, put: Put) {
    put.trailer <= it.pad && put.body <= HEADER_SIZE + |it.data|
  }

  /** All but perhaps the trailer, whose append may fail unnoticed. */
  predicate Through(it: Item, put: Put) {
    put.body == HEADER_SIZE + |it.data|
  }

  function PutBytes(crc: Crc, it: Item, put: Put): (bytes: Bytes)
    requires PutFits(it, put)
    ensures |bytes| == put.trailer + put.body
  {
    Zeros(put.trailer) + Physical(crc, it.kind, it.data)[..put.body]
  }

  ghost predicate AllFit(items: seq<Item>, puts: seq<Put>) {
    |puts| <= |items| && forall i :: 0 <= i < |puts| ==> PutFits(items[i], puts[i])
  }

  ghost predicate AllThrough(items: seq<Item>, puts: seq<Put>) {
    |puts| <= |items| && forall i :: 0 <= i < |puts| ==> Through(items[i], puts[i])
  }

  ghost predicate NoTrailerLost(items: seq<Item>, puts: seq<Put>) {
    |puts| <= |items| && forall i :: 0 <= i < |puts| ==> puts[i].trailer == items[i].pad
  }

  /** The fragments that were tried: all but the last got through, and on success all of a record did. */
  ghost predicate Tried(items: seq<Item>, puts: seq<Put>, ok: bool) {
    && AllFit(items, puts)
    && if ok then |puts| == |items| && AllThrough(items, puts) else puts != [] && AllThrough(items, puts[..|puts| - 1])
  }

  function AllPut(crc: Crc, items: seq<Item>, puts: seq<Put>): Bytes
    requires AllFit(items, puts)
  {
    if puts == [] then []
    else AllPut(crc, items, puts[..|puts| - 1]) + PutBytes(crc, items[|puts| - 1], puts[|puts| - 1])
  }

  lemma {:induction false} AllPutAgain(crc: Crc, a: seq<Item>, b: seq<Item>, puts: seq<Put>)
    requires AllFit(a, puts) && a <= b
    ensures AllFit(b, puts) && AllPut(crc, a, puts) == AllPut(crc, b, puts)
    decreases |puts|
  {
    if puts != [] {
      AllPutAgain(crc, a, b, puts[..|puts| - 1]);
    }
  }

  /** Where the fragments go depends on the place in the block only. */
  lemma {:induction false} SamePlaces(p: nat, q: nat, data: Bytes, begin: bool)
    requires p % BLOCK_SIZE == q % BLOCK_SIZE
    ensures Fragments(p, data, begin) == Fragments(q, data, begin)
    decreases |data|, if p % BLOCK_SIZE == BLOCK_SIZE - HEADER_SIZE then 1 else 0
  {
    var it := SameFirst(p, q, data, begin);
    if it.data != data {
      SameAfter(p, q, it.Size());
      HeaderOnlyOnce(p, data, begin, it);
      SamePlaces(p + it.Size(), q + it.Size(), data[|it.data|..], false);
    }
  }

  lemma SameFirst(p: nat, q: nat, data: Bytes, begin: bool) returns (it: Item)
    requires p % BLOCK_SIZE == q % BLOCK_SIZE
    ensures it == Fragments(p, data, begin)[0] == Fragments(q, data, begin)[0]
    ensures it.data == data ==> Fragments(p, data, begin) == [it] == Fragments(q, data, begin)
    ensures it.data != data ==> |it.data| < |data|
    ensures it.data != data ==> Fragments(p, data, begin) == [it] + Fragments(p + it.Size(), data[|it.data|..], false)
    ensures it.data != data ==> Fragments(q, data, begin) == [it] + Fragments(q + it.Size(), data[|it.data|..], false)
  {
    SamePad(p, q);
    it := FirstOf(p, data, begin);
    var _ := FirstOf(q, data, begin);
  }

  lemma FirstOf(p: nat, data: Bytes, begin: bool) returns (it: Item)
    ensures var avail := BlockEnd(p + Pad(p)) - (p + Pad(p)) - HEADER_SIZE;
      it.pad == Pad(p) && it.data == (if |data| < avail then data else data[..avail])
    ensures it.kind == if it.data == data then (if begin then FULL else LAST) else if begin then FIRST else MIDDLE
    ensures it == Fragments(p, data, begin)[0]
    ensures it.data == data ==> Fragments(p, data, begin) == [it]
    ensures it.data != data ==> |it.data| < |data|
    ensures it.data != data ==> Fragments(p, data, begin) == [it] + Fragments(p + it.Size(), data[|it.data|..], false)
  {
    PadPlaces(p);
    FragmentsStep(p, data, begin);
    it := Fragments(p, data, begin)[0];
  }

  lemma SamePad(p: nat, q: nat)
    requires p % BLOCK_SIZE == q % BLOCK_SIZE
    ensures Pad(p) == Pad(q) && BlockEnd(p) - p == BlockEnd(q) - q
    ensures BlockEnd(p + Pad(p)) - (p + Pad(p)) == BlockEnd(q + Pad(q)) - (q + Pad(q))
  {
  }

  lemma SameAfter(p: nat, q: nat, n: nat)
    requires p % BLOCK_SIZE == q % BLOCK_SIZE
    ensures (p + n) % BLOCK_SIZE == (q + n) % BLOCK_SIZE
  {
  }

  /** A block has room for a header and nothing else only once in a record. */
  lemma HeaderOnlyOnce(p: nat, data: Bytes, begin: bool, it: Item)
    requires it == Fragments(p, data, begin)[0] && it.data != data
    ensures it.data == [] ==> p % BLOCK_SIZE == BLOCK_SIZE - HEADER_SIZE && (p + it.Size()) % BLOCK_SIZE != BLOCK_SIZE - HEADER_SIZE
  {
    PadPlaces(p);
  }

  class Writer {
    const crc: Crc
    const dest: WritableFile
    var blockOffset: nat

    /** Nothing is buffered between records. */
    ghost predicate Ok()
      reads this, dest
    {
      blockOffset <= BLOCK_SIZE && dest.buffer == []
    }

    /** The file ends where the writer thinks it does, as to the place in the block. */
    ghost predicate Aligned()
      reads this, dest
    {
      blockOffset % BLOCK_SIZE == |dest.contents| % BLOCK_SIZE
    }

    /** Resumes a log of the given length; a new log has length zero. */
    constructor (dest: WritableFile, destLength: nat, crc: Crc)
      requires dest.buffer == [] && destLength == |dest.contents|
      ensures this.dest == dest && this.crc == crc && Ok() && Aligned() && blockOffset == destLength % BLOCK_SIZE
    {
      this.dest, this.crc := dest, crc;
      blockOffset := destLength % BLOCK_SIZE;
    }

    /** The offset goes on by the whole physical record, whether or not it got on the file. */
    method EmitPhysicalRecord(t: Byte, data: Bytes) returns (ok: bool)
      requires blockOffset + HEADER_SIZE + |data| <= BLOCK_SIZE
      modifies this, dest
      ensures dest.buffer == [] && (ok || dest.faulty)
      ensures blockOffset == old(blockOffset) + HEADER_SIZE + |data|
      ensures var all := old(dest.contents + dest.buffer) + Physical(crc, t, data);
        if ok then dest.contents == all else old(dest.contents) <= dest.contents <= all
    {
      var buf := EncodeFixed32(Mask(crc([t] + data))) + [|data| % 256, |data| / 256 % 256, t];
      assert Physical(crc, t, data) == buf + data;
      ghost var start := dest.contents + dest.buffer;
      Rejoined(dest.contents, dest.buffer, buf, data);
      ok := dest.Append(buf);
      if ok {
        assert dest.contents + dest.buffer == start + buf;
        Rejoined(dest.contents, dest.buffer, data, []);
        ok := dest.Append(data);
        if ok {
          ok := dest.Flush();
        }
      }
      blockOffset := blockOffset + HEADER_SIZE + |data|;
    }

    /** Goes on to a new block if this one is full; the status of the append is not looked at. */
    method AddTrailer(ghost pad: nat) returns (ghost k: nat)
      requires Ok() && pad == if BLOCK_SIZE - blockOffset < HEADER_SIZE then BLOCK_SIZE - blockOffset else 0
      modifies this, dest
      ensures k <= pad && (!dest.faulty ==> k == pad) && old(dest.contents) <= dest.contents
      ensures dest.contents + dest.buffer == old(dest.contents) + Zeros(k)
      ensures blockOffset == if BLOCK_SIZE - old(blockOffset) < HEADER_SIZE then 0 else old(blockOffset)
    {
      k := pad;
      var leftover := BLOCK_SIZE - blockOffset;
      if leftover < HEADER_SIZE {
        if leftover > 0 {
          var got := dest.Append(Zeros(leftover));
          if !got {
            k := |dest.contents| - |old(dest.contents)|;
          }
        }
        blockOffset := 0;
      }
    }

    /** The trailer, if the block is full, and one fragment. */
    method AddFragment(left: Bytes, begin: bool, ghost p: nat, ghost it: Item) returns (ok: bool, n: nat, ghost put: Put)
      requires Ok() && blockOffset % BLOCK_SIZE == p % BLOCK_SIZE && it == Fragments(p, left, begin)[0]
      modifies this, dest
      ensures Ok() && n == |it.data| && (ok || dest.faulty)
      ensures PutFits(it, put) && dest.contents == old(dest.contents) + PutBytes(crc, it, put)
      ensures ok ==> Through(it, put)
      ensures !dest.faulty ==> put.trailer == it.pad
      ensures blockOffset % BLOCK_SIZE == (p + it.Size()) % BLOCK_SIZE
    {
      ghost var before := dest.contents;
      OffsetInBlock(p, blockOffset, HEADER_SIZE + |it.data|);
      ghost var k := AddTrailer(it.pad);
      var avail := BLOCK_SIZE - blockOffset - HEADER_SIZE;
      n := if |left| < avail then |left| else avail;
      var end := |left| == n;
      var t := if begin && end then FULL else if begin then FIRST else if end then LAST else MIDDLE;
      assert it.data == left[..n] && it.kind == t;
      ok := EmitPhysicalRecord(t, left[..n]);
      put := PutOf(crc, it, before, dest.contents, k, ok);
    }

    /** One turn of AddRecord's loop. */
    method Turn(left: Bytes, begin: bool, ghost done: seq<Item>, ghost o: nat, ghost puts: seq<Put>, ghost items: seq<Item>)
      returns (ok: bool, n: nat, ghost it: Item, ghost put: Put)
      requires Ok() && blockOffset % BLOCK_SIZE == EndOf(done, o) % BLOCK_SIZE
      requires |puts| == |done| && AllFit(done, puts) && Rest(items, done, o, left, begin)
      modifies this, dest
      ensures Ok() && n <= |left| && (ok || dest.faulty) && blockOffset % BLOCK_SIZE == EndOf(done + [it], o) % BLOCK_SIZE
      ensures PutFits(it, put) && (ok ==> Through(it, put)) && (!dest.faulty ==> put.trailer == it.pad)
      ensures dest.contents == old(dest.contents) + PutBytes(crc, it, put)
      ensures n == |left| ==> items == done + [it]
      ensures n < |left| ==> done + [it] <= items && Rest(items, done + [it], o, left[n..], false)
      ensures n == 0 && left != [] ==> FullHeaderOnly(EndOf(done + [it], o)) < FullHeaderOnly(EndOf(done, o))
    {
      it := Fragments(EndOf(done, o), left, begin)[0];
      ok, n, put := AddFragment(left, begin, EndOf(done, o), it);
      NextFragment(items, done, o, left, begin, it);
    }

    /** Tries the fragments of the record one after the other until one fails. */
    method AddRecord(record: Bytes) returns (ok: bool, ghost puts: seq<Put>)
      requires Ok()
      modifies this, dest
      ensures Ok() && (ok || dest.faulty)
      ensures var items := Fragments(old(blockOffset), record, true);
        && Tried(items, puts, ok) && dest.contents == old(dest.contents) + AllPut(crc, items, puts)
        && blockOffset % BLOCK_SIZE == EndOf(items[..|puts|], old(blockOffset)) % BLOCK_SIZE
        && (!dest.faulty ==> NoTrailerLost(items, puts))
    {
      ghost var o, start := blockOffset, dest.contents;
      ghost var items := Fragments(o, record, true);
      ghost var done: seq<Item> := [];
      puts := [];
      var left, begin := record, true;
      ok := true;
      assert Rest(items, done, o, record, true);
      while true
        invariant Ok() && ok && |puts| == |done| && done <= items && Rest(items, done, o, left, begin)
        invariant AllFit(done, puts) && AllThrough(done, puts) && (!dest.faulty ==> NoTrailerLost(done, puts))
        invariant dest.contents == start + AllPut(crc, done, puts)
        invariant blockOffset % BLOCK_SIZE == EndOf(done, o) % BLOCK_SIZE
        decreases |left|, FullHeaderOnly(EndOf(done, o))
      {
        var n;
        ghost var it, put;
        ok, n, it, put := Turn(left, begin, done, o, puts, items);
        NextPut(crc, start, done, puts, it, put);
        puts, done := puts + [put], done + [it];
        left := left[n..];
        begin := false;
        if !ok || |left| == 0 {
          break;
        }
      }
      Finished(crc, items, done, puts, ok);
    }
  }

  /** What is left of the record makes up the rest of the fragments. */
  ghost predicate Rest(items: seq<Item>, done: seq<Item>, o: nat, left: Bytes, begin: bool) {
    items == done + Fragments(EndOf(done, o), left, begin)
  }

  /** 1 where a block has room for a header and nothing else. */
  ghost function FullHeaderOnly(p: nat): nat {
    if p % BLOCK_SIZE == BLOCK_SIZE - HEADER_SIZE then 1 else 0
  }

  lemma {:induction false} NextFragment(items: seq<Item>, done: seq<Item>, o: nat, left: Bytes, begin: bool, it: Item)
    requires Rest(items, done, o, left, begin) && it == Fragments(EndOf(done, o), left, begin)[0]
    ensures |it.data| <= |left| && EndOf(done + [it], o) == EndOf(done, o) + it.Size()
    ensures |it.data| == |left| ==> items == done + [it]
    ensures |it.data| < |left| ==> done + [it] <= items && Rest(items, done + [it], o, left[|it.data|..], false)
    ensures it.data == [] && left != [] ==> FullHeaderOnly(EndOf(done + [it], o)) < FullHeaderOnly(EndOf(done, o))
  {
    EndOfConcat(done, [it], o);
    FirstFragment(items, done, EndOf(done, o), left, begin, it);
  }

  lemma {:induction false} FirstFragment(items: seq<Item>, done: seq<Item>, p: nat, left: Bytes, begin: bool, it: Item)
    requires items == done + Fragments(p, left, begin) && it == Fragments(p, left, begin)[0]
    ensures |it.data| <= |left| && (|it.data| == |left| ==> items == done + [it])
    ensures |it.data| < |left| ==> items == done + [it] + Fragments(p + it.Size(), left[|it.data|..], false)
    ensures it.data == [] && left != [] ==> FullHeaderOnly(p + it.Size()) < FullHeaderOnly(p)
  {
    FragmentsStep(p, left, begin);
    if it.data != left {
      HeaderOnlyOnce(p, left, begin, it);
      AppendOne(done, it, Fragments(p + it.Size(), left[|it.data|..], false));
    }
  }

  lemma AppendOne(done: seq<Item>, it: Item, rest: seq<Item>)
    ensures done + ([it] + rest) == done + [it] + rest
  {
  }

  lemma {:induction false} NextPut(crc: Crc, start: Bytes, done: seq<Item>, puts: seq<Put>, it: Item, put: Put)
    requires |puts| == |done| && AllFit(done, puts) && PutFits(it, put)
    ensures AllFit(done + [it], puts + [put])
    ensures start + AllPut(crc, done + [it], puts + [put]) == start + AllPut(crc, done, puts) + PutBytes(crc, it, put)
    ensures AllThrough(done, puts) ==> (Through(it, put) ==> AllThrough(done + [it], puts + [put])) && AllThrough(done + [it], (puts + [put])[..|puts|])
    ensures NoTrailerLost(done, puts) && put.trailer == it.pad ==> NoTrailerLost(done + [it], puts + [put])
  {
    assert (puts + [put])[..|puts|] == puts;
    AllPutAgain(crc, done, done + [it], puts);
    Rejoined(start, AllPut(crc, done, puts), PutBytes(crc, it, put), []);
  }

  lemma {:induction false} Finished(crc: Crc, items: seq<Item>, done: seq<Item>, puts: seq<Put>, ok: bool)
    requires done <= items && |puts| == |done| && AllFit(done, puts) && (ok ==> done == items && AllThrough(done, puts))
    requires !ok ==> puts != [] && AllThrough(done, puts[..|puts| - 1])
    ensures Tried(items, puts, ok) && AllPut(crc, items, puts) == AllPut(crc, done, puts) && items[..|puts|] == done
    ensures NoTrailerLost(done, puts) ==> NoTrailerLost(items, puts)
  {
    AllPutAgain(crc, done, items, puts);
  }

  lemma Rejoined(a: Bytes, b: Bytes, c: Bytes, d: Bytes)
    ensures a + (b + c) == a + b + c && a + b + (c + d) == a + b + c + d && a + b + c <= a + b + (c + d)
  {
  }

  /** How much of the fragment is on the file, from the length. */
  lemma PutOf(crc: Crc, it: Item, before: Bytes, now: Bytes, k: nat, ok: bool) returns (put: Put)
    requires k <= it.pad && before <= now
    requires var all := before + Zeros(k) + Physical(crc, it.kind, it.data); if ok then now == all else now <= all
    ensures PutFits(it, put) && now == before + PutBytes(crc, it, put)
    ensures ok ==> Through(it, put) && put.trailer == k
  {
    var e := |now| - |before|;
    var body := Physical(crc, it.kind, it.data);
    put := if e <= k then Put(e, 0) else Put(k, e - k);
    if ok {
      put := Put(k, |body|);
    }
    assert PutBytes(crc, it, put) == (Zeros(k) + body)[..e];
    assert now == (before + (Zeros(k) + body))[..|now|];
  }

  lemma {:induction false} WholePut(crc: Crc, items: seq<Item>, puts: seq<Put>)
    requires AllFit(items, puts) && AllThrough(items, puts) && NoTrailerLost(items, puts)
    ensures AllPut(crc, items, puts) == FileBytes(crc, items[..|puts|])
    decreases |puts|
  {
    if puts != [] {
      var n := |puts| - 1;
      WholePut(crc, items, puts[..n]);
      assert items[..n + 1] == items[..n] + [items[n]];
      FileBytesConcat(crc, items[..n], [items[n]]);
      FileBytesStep(crc, items[n], []);
    }
  }

  /** Writes records to a file whose writes succeed. Whether the log is new or resumed, what it then holds
      is what it held, followed by the fragments of the records. */
  method AddRecords(w: Writer, records: seq<Bytes>)
    requires w.Ok() && w.Aligned() && !w.dest.faulty
    modifies w, w.dest
    ensures w.Ok() && w.Aligned()
    ensures w.dest.contents == old(w.dest.contents) + FileBytes(w.crc, FragmentsOfAll(|old(w.dest.contents)|, records))
    decreases |records|
  {
    if records == [] {
      return;
    }
    ghost var start, o := w.dest.contents, w.blockOffset;
    var ok;
    ghost var puts;
    ok, puts := w.AddRecord(records[0]);
    ghost var rest := RecordFirst(|start|, o, records);
    RecordPut(w.crc, start, o, Fragments(o, records[0], true), rest, puts);
    AddRecords(w, records[1..]);
  }

  lemma RecordFirst(p: nat, o: nat, records: seq<Bytes>) returns (rest: seq<Item>)
    requires records != [] && o % BLOCK_SIZE == p % BLOCK_SIZE
    ensures rest == FragmentsOfAll(EndOf(Fragments(o, records[0], true), p), records[1..])
    ensures FragmentsOfAll(p, records) == Fragments(o, records[0], true) + rest
  {
    SamePlaces(p, o, records[0], true);
    rest := FragmentsOfAll(EndOf(Fragments(p, records[0], true), p), records[1..]);
  }

  /** What one record adds to the file, with the rest of them to come. */
  lemma {:induction false} RecordPut(crc: Crc, start: Bytes, o: nat, fs: seq<Item>, rest: seq<Item>, puts: seq<Put>)
    requires Tried(fs, puts, true) && NoTrailerLost(fs, puts) && o % BLOCK_SIZE == |start| % BLOCK_SIZE
    ensures var now := start + AllPut(crc, fs, puts);
      && fs[..|puts|] == fs && |now| == EndOf(fs, |start|) && |now| % BLOCK_SIZE == EndOf(fs, o) % BLOCK_SIZE
      && now + FileBytes(crc, rest) == start + FileBytes(crc, fs + rest)
  {
    SameEnd(|start|, o, fs);
    WholePut(crc, fs, puts);
    FileBytesConcat(crc, fs, rest);
    FileBytesSize(crc, fs, |start|);
    Rejoined(start, FileBytes(crc, fs), FileBytes(crc, rest), []);
  }

  lemma {:induction false} SameEnd(p: nat, q: nat, items: seq<Item>)
    requires p % BLOCK_SIZE == q % BLOCK_SIZE
    ensures EndOf(items, p) % BLOCK_SIZE == EndOf(items, q) % BLOCK_SIZE
    decreases |items|
  {
    if items != [] {
      SameAfter(p, q, items[0].Size());
      SameEnd(p + items[0].Size(), q + items[0].Size(), items[1..]);
    }
  }
}

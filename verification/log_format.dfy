/** The write-ahead log on disk: physical records inside 32 KiB blocks. */
module LogFormat {
  import opened FixedBytes

  const BLOCK_SIZE := 32768
  const HEADER_SIZE := 7

  const ZERO_TYPE: Byte := 0
  const FULL: Byte := 1
  const FIRST: Byte := 2
  const MIDDLE: Byte := 3
  const LAST: Byte := 4

  type U32 = x: int | 0 <= x < 0x1_0000_0000

  /** The checksum of a byte string. Nothing is assumed of it but that it is a function. */
  type Crc = Bytes -> U32

  const MASK_DELTA := 0xa282ead8

  /** Rotate right by 15 bits and add a constant, as stored checksums are. */
  function Mask(crc: U32): U32 {
    (crc / 0x8000 + (crc % 0x8000) * 0x2_0000 + MASK_DELTA) % 0x1_0000_0000
  }

  function Unmask(masked: U32): U32 {
    var rot := (masked - MASK_DELTA) % 0x1_0000_0000;
    rot / 0x2_0000 + (rot % 0x2_0000) * 0x8000
  }

  lemma WrapBack(rot: U32)
    ensures ((rot + MASK_DELTA) % 0x1_0000_0000 - MASK_DELTA) % 0x1_0000_0000 == rot
  {
  }

  lemma UnmaskMask(crc: U32)
    ensures Unmask(Mask(crc)) == crc
  {
    var hi, lo := crc / 0x8000, crc % 0x8000;
    var rot := hi + lo * 0x2_0000;
    WrapBack(rot);
    assert rot / 0x2_0000 == lo && rot % 0x2_0000 == hi;
  }

  function EncodeFixed32(v: U32): (b: Bytes)
    ensures |b| == 4
  {
    var v1 := v / 256;
    var v2 := v1 / 256;
    [v % 256, v1 % 256, v2 % 256, v2 / 256]
  }

  function DecodeFixed32(b: Bytes): U32
    requires |b| == 4
  {
    (b[0] as int) + 256 * (b[1] as int) + 65536 * (b[2] as int) + 16777216 * (b[3] as int)
  }

  lemma DecodeEncodeFixed32(v: U32)
    ensures DecodeFixed32(EncodeFixed32(v)) == v
  {
  }

  /** One physical record: masked checksum of type and payload, length, type, payload. */
  function Physical(crc: Crc, t: Byte, data: Bytes): (p: Bytes)
    ensures |p| == HEADER_SIZE + |data|
  {
    EncodeFixed32(Mask(crc([t] + data))) + [|data| % 256, |data| / 256 % 256, t] + data
  }

  function LengthAt(f: Bytes, p: nat): nat
    requires p + HEADER_SIZE <= |f|
  {
    (f[p + 4] as int) + 256 * (f[p + 5] as int)
  }

  function TypeAt(f: Bytes, p: nat): Byte
    requires p + HEADER_SIZE <= |f|
  {
    f[p + 6]
  }

  /** The stored checksum matches the type and the payload that follows. */
  predicate ChecksumAt(crc: Crc, f: Bytes, p: nat)
    requires p + HEADER_SIZE <= |f| && p + HEADER_SIZE + LengthAt(f, p) <= |f|
  {
    Unmask(DecodeFixed32(f[p..p + 4])) == crc(f[p + 6..p + HEADER_SIZE + LengthAt(f, p)])
  }

  /** A physical record reads back as it was written. */
  lemma ReadsBack(crc: Crc, t: Byte, data: Bytes, f: Bytes, p: nat)
    requires |data| < 65536 && p + HEADER_SIZE + |data| <= |f|
    requires f[p..p + HEADER_SIZE + |data|] == Physical(crc, t, data)
    ensures LengthAt(f, p) == |data| && TypeAt(f, p) == t && ChecksumAt(crc, f, p)
    ensures f[p + HEADER_SIZE..p + HEADER_SIZE + |data|] == data
  {
    var w := Physical(crc, t, data);
    assert forall i :: 0 <= i < |w| ==> f[p + i] == w[i];
    assert f[p + 4] == w[4] && f[p + 5] == w[5] && f[p + 6] == w[6];
    assert f[p..p + 4] == f[p..p + |w|][..4] == EncodeFixed32(Mask(crc([t] + data)));
    assert f[p + 6..p + |w|] == f[p..p + |w|][6..] == [t] + data;
    assert f[p + HEADER_SIZE..p + |w|] == f[p..p + |w|][HEADER_SIZE..];
    DecodeEncodeFixed32(Mask(crc([t] + data)));
    UnmaskMask(crc([t] + data));
  }

  // ---------- Placement ----------

  function BlockEnd(p: nat): nat {
    (p / BLOCK_SIZE + 1) * BLOCK_SIZE
  }

  /** How many bytes of trailer a writer leaves at p: a header never crosses a block. */
  function Pad(p: nat): nat {
    if BlockEnd(p) - p < HEADER_SIZE then BlockEnd(p) - p else 0
  }

  /** A fragment of a logical record, with the trailer skipped before it. */
  datatype Item = Item(pad: nat, kind: Byte, data: Bytes) {
    function Size(): nat {
      pad + HEADER_SIZE + |data|
    }
  }

  function Zeros(n: nat): Bytes {
    seq(n, _ => 0)
  }

  function ItemBytes(crc: Crc, it: Item): (b: Bytes)
    ensures |b| == it.Size()
  {
    Zeros(it.pad) + Physical(crc, it.kind, it.data)
  }

  /** The fragments of a record written at offset p of a file. */
  function Fragments(p: nat, data: Bytes, begin: bool): seq<Item>
    decreases |data|, if p % BLOCK_SIZE == BLOCK_SIZE - HEADER_SIZE then 1 else 0
  {
    var start := p + Pad(p);
    var avail := BlockEnd(start) - start - HEADER_SIZE;
    var n := if |data| < avail then |data| else avail;
    var end := n == |data|;
    var kind := if begin && end then FULL else if begin then FIRST else if end then LAST else MIDDLE;
    [Item(Pad(p), kind, data[..n])] + if end then [] else Fragments(start + HEADER_SIZE + n, data[n..], false)
  }

  /** A fragment at offset p follows the trailer its place requires and ends in the block
      it begins in. The offsets stand guard, so that only lemmas about one place count. */
  ghost predicate Fits(it: Item, p: nat) {
    && FULL <= it.kind <= LAST
    && (forall q: nat {:trigger Pad(q)} :: q == p ==> it.pad == Pad(q))
    && (forall q: nat {:trigger BlockEnd(q)} :: q == p + it.pad ==> p + it.Size() <= BlockEnd(q))
  }

  ghost predicate WellPlaced(items: seq<Item>, p: nat) {
    items != [] ==> Fits(items[0], p) && WellPlaced(items[1..], p + items[0].Size())
  }

  function EndOf(items: seq<Item>, p: nat): nat {
    if items == [] then p else EndOf(items[1..], p + items[0].Size())
  }

  lemma FragmentsStep(p: nat, data: Bytes, begin: bool)
    ensures var it := Fragments(p, data, begin)[0];
            && it.pad == Pad(p) && it.data <= data && p + it.Size() <= BlockEnd(p + it.pad)
            && it.kind == (if it.data == data then (if begin then FULL else LAST) else if begin then FIRST else MIDDLE)
            && (it.data == data ==> Fragments(p, data, begin) == [it])
            && (it.data != data ==> |it.data| < |data|)
            && (it.data != data ==>
                  Fragments(p, data, begin) == [it] + Fragments(p + it.Size(), data[|it.data|..], false))
  {
  }

  function FragmentsOfAll(p: nat, records: seq<Bytes>): seq<Item>
    decreases |records|
  {
    if records == [] then []
    else var fs := Fragments(p, records[0], true); fs + FragmentsOfAll(EndOf(fs, p), records[1..])
  }

  lemma PadPlaces(p: nat)
    ensures Pad(p + Pad(p)) == 0 && Pad(p) < HEADER_SIZE
    ensures BlockEnd(p + Pad(p)) - (p + Pad(p)) >= HEADER_SIZE
    ensures Pad(p) > 0 ==> p + Pad(p) == BlockEnd(p)
  {
  }

  /** A writer that knows the offset in its block, where a full block may still be open. */
  lemma OffsetInBlock(p: nat, offset: nat, n: nat)
    requires offset <= BLOCK_SIZE && offset % BLOCK_SIZE == p % BLOCK_SIZE
    ensures Pad(p) == if BLOCK_SIZE - offset < HEADER_SIZE then BLOCK_SIZE - offset else 0
    ensures var start := if BLOCK_SIZE - offset < HEADER_SIZE then 0 else offset;
            && BlockEnd(p + Pad(p)) - (p + Pad(p)) == BLOCK_SIZE - start
            && (start + n) % BLOCK_SIZE == (p + Pad(p) + n) % BLOCK_SIZE
  {
  }

  lemma {:induction false} FragmentsPlaced(p: nat, data: Bytes, begin: bool)
    ensures WellPlaced(Fragments(p, data, begin), p)
    decreases |data|, if p % BLOCK_SIZE == BLOCK_SIZE - HEADER_SIZE then 1 else 0
  {
    PadPlaces(p);
    var fs := Fragments(p, data, begin);
    if |fs| > 1 {
      var n := |fs[0].data|;
      assert fs[1..] == Fragments(p + fs[0].Size(), data[n..], false);
      FragmentsPlaced(p + fs[0].Size(), data[n..], false);
    }
  }

  lemma {:induction false} PlacedConcat(a: seq<Item>, b: seq<Item>, p: nat)
    requires WellPlaced(a, p) && WellPlaced(b, EndOf(a, p))
    ensures WellPlaced(a + b, p) && EndOf(a + b, p) == EndOf(b, EndOf(a, p))
  {
    if a == [] {
      assert a + b == b;
    } else {
      var c := a + b;
      assert c[0] == a[0] && c[1..] == a[1..] + b;
      PlacedConcat(a[1..], b, p + a[0].Size());
    }
  }

  lemma {:induction false} AllPlaced(p: nat, records: seq<Bytes>)
    ensures WellPlaced(FragmentsOfAll(p, records), p)
    decreases |records|
  {
    if records != [] {
      var fs := Fragments(p, records[0], true);
      FragmentsPlaced(p, records[0], true);
      AllPlaced(EndOf(fs, p), records[1..]);
      PlacedConcat(fs, FragmentsOfAll(EndOf(fs, p), records[1..]), p);
    }
  }

  /** A fragment always fits the two length bytes. */
  lemma PlacedFits(it: Item, p: nat)
    requires Fits(it, p)
    ensures |it.data| < 65536
  {
    PadPlaces(p);
    assert it.pad == Pad(p) && p + it.Size() <= BlockEnd(p + Pad(p));
  }

  function FileBytes(crc: Crc, items: seq<Item>): Bytes {
    if items == [] then [] else ItemBytes(crc, items[0]) + FileBytes(crc, items[1..])
  }

  lemma FileBytesStep(crc: Crc, it: Item, rest: seq<Item>)
    ensures FileBytes(crc, [it]) == ItemBytes(crc, it)
    ensures FileBytes(crc, [it] + rest) == ItemBytes(crc, it) + FileBytes(crc, rest)
  {
  }

  lemma {:induction false} FileBytesConcat(crc: Crc, a: seq<Item>, b: seq<Item>)
    ensures FileBytes(crc, a + b) == FileBytes(crc, a) + FileBytes(crc, b)
  {
    if a == [] {
      assert a + b == b;
    } else {
      assert (a + b)[1..] == a[1..] + b;
      FileBytesConcat(crc, a[1..], b);
    }
  }

  lemma {:induction false} FileBytesSize(crc: Crc, items: seq<Item>, p: nat)
    ensures p + |FileBytes(crc, items)| == EndOf(items, p)
  {
    if items != [] {
      FileBytesSize(crc, items[1..], p + items[0].Size());
    }
  }

  /** Writing a list of records and then another leaves what writing them all would. */
  lemma {:induction false} FragmentsOfAllConcat(p: nat, a: seq<Bytes>, b: seq<Bytes>)
    ensures FragmentsOfAll(p, a + b) == FragmentsOfAll(p, a) + FragmentsOfAll(EndOf(FragmentsOfAll(p, a), p), b)
    decreases |a|
  {
    if a == [] {
      assert a + b == b;
    } else {
      var fs := Fragments(p, a[0], true);
      assert (a + b)[1..] == a[1..] + b;
      FragmentsOfAllConcat(EndOf(fs, p), a[1..], b);
      EndOfConcat(fs, FragmentsOfAll(EndOf(fs, p), a[1..]), p);
    }
  }

  lemma {:induction false} EndOfConcat(a: seq<Item>, b: seq<Item>, p: nat)
    ensures EndOf(a + b, p) == EndOf(b, EndOf(a, p))
  {
    if a == [] {
      assert a + b == b;
    } else {
      assert (a + b)[1..] == a[1..] + b;
      EndOfConcat(a[1..], b, p + a[0].Size());
    }
  }
}

/** nanopb streams and varints: pb_write, pb_readbyte, pb_read, pb_encode_varint, pb_decode_varint,
    pb_decode_varint32_eof and the zigzag form. */
module Varints {
  import opened FixedBytes

  const TWO_32: int := 0x1_0000_0000
  const TWO_63: int := 0x8000_0000_0000_0000
  const TWO_64: int := 0x1_0000_0000_0000_0000

  // ---------- Streams ----------

  /** pb_ostream_t. With sizing set its callback is null: bytes are counted and not kept, and
      max_size does not matter. */
  class OStream {
    const sizing: bool
    const maxSize: nat
    var written: Bytes
    var bytesWritten: nat

    constructor (sizing: bool, maxSize: nat)
      ensures this.sizing == sizing && this.maxSize == maxSize && written == [] && bytesWritten == 0
    {
      this.sizing, this.maxSize, written, bytesWritten := sizing, maxSize, [], 0;
    }

    /** count more bytes can be taken. */
    predicate Fits(count: nat)
      reads this
    {
      sizing || count == 0 || bytesWritten + count <= maxSize
    }

    /** pb_write of count bytes. */
    method Write(bytes: Bytes) returns (ok: bool)
      modifies this
      ensures ok == old(Fits(|bytes|))
      ensures bytesWritten == old(bytesWritten) + if ok then |bytes| else 0
      ensures written == old(written) + if ok && !sizing then bytes else []
    {
      if |bytes| > 0 && !sizing {
        if bytesWritten + |bytes| > maxSize {
          return false;
        }
        written := written + bytes;
      }
      bytesWritten := bytesWritten + |bytes|;
      ok := true;
    }

    /** pb_write of a null buffer, which only sizing streams are given. */
    method Count(count: nat)
      requires sizing
      modifies `bytesWritten
      ensures bytesWritten == old(bytesWritten) + count
    {
      bytesWritten := bytesWritten + count;
    }
  }

  /** pb_istream_t over a buffer: what bytes_left still allows to be read. */
  class IStream {
    var left: Bytes

    constructor (bytes: Bytes)
      ensures left == bytes
    {
      left := bytes;
    }

    method ReadByte() returns (ok: bool, byte: Byte)
      modifies this
      ensures ok <==> old(left) != []
      ensures ok ==> byte == old(left)[0] && left == old(left)[1..]
      ensures !ok ==> left == old(left)
    {
      if left == [] {
        return false, 0;
      }
      ok, byte, left := true, left[0], left[1..];
    }

    method Read(count: nat) returns (ok: bool, bytes: Bytes)
      modifies this
      ensures ok <==> count <= |old(left)|
      ensures ok ==> bytes == old(left)[..count] && left == old(left)[count..]
      ensures !ok ==> left == old(left)
    {
      if |left| < count {
        return false, [];
      }
      ok, bytes, left := true, left[..count], left[count..];
    }
  }

  // ---------- Encoding ----------

  /** The base 128 form of a number: seven bits a byte, low bits first, the high bit on all but the last. */
  function Varint(value: nat): Bytes {
    if value < 128 then [value] else [128 + value % 128] + Varint(value / 128)
  }

  /** The same with the high bit on the last byte too, and nothing for zero: what the loop builds. */
  ghost function Marked(value: nat): Bytes {
    if value == 0 then [] else [128 + value % 128] + Marked(value / 128)
  }

  lemma {:induction false} UnmarkLast(value: nat)
    requires value > 0
    ensures Marked(value) != [] && var m := Marked(value); m[|m| - 1] >= 128 && Varint(value) == m[|m| - 1 := m[|m| - 1] - 128]
  {
    var m := Marked(value);
    if value >= 128 {
      UnmarkLast(value / 128);
      var r := Marked(value / 128);
      assert m == [128 + value % 128] + r;
      assert m[|m| - 1 := m[|m| - 1] - 128] == [128 + value % 128] + r[|r| - 1 := r[|r| - 1] - 128];
    } else {
      assert Marked(value / 128) == [];
    }
  }

  lemma {:induction false} VarintIsShort(value: nat, n: nat)
    requires value < Power128(n) && n > 0
    ensures 1 <= |Varint(value)| <= n
  {
    if value >= 128 {
      VarintIsShort(value / 128, n - 1);
    }
  }

  function Power128(n: nat): nat {
    if n == 0 then 1 else 128 * Power128(n - 1)
  }

  lemma MarkOne(done: Bytes, rest: nat)
    requires rest != 0
    ensures done + Marked(rest) == done + [128 + rest % 128] + Marked(rest / 128)
  {
    assert done + ([128 + rest % 128] + Marked(rest / 128)) == done + [128 + rest % 128] + Marked(rest / 128);
  }

  method EncodeVarint(stream: OStream, value: nat) returns (ok: bool)
    requires value < TWO_64
    modifies stream
    ensures ok == old(stream.Fits(|Varint(value)|))
    ensures stream.bytesWritten == old(stream.bytesWritten) + if ok then |Varint(value)| else 0
    ensures stream.written == old(stream.written) + if ok && !stream.sizing then Varint(value) else []
  {
    if value <= 0x7F {
      ok := stream.Write([value]);
      return;
    }
    var buffer: Bytes := [];
    var rest := value;
    while rest != 0
      invariant Marked(value) == buffer + Marked(rest)
      modifies {}
    {
      MarkOne(buffer, rest);
      buffer := buffer + [128 + rest % 128];
      rest := rest / 128;
    }
    UnmarkLast(value);
    var last := |buffer| - 1;
    buffer := buffer[last := buffer[last] % 128];
    assert buffer == Varint(value);
    ok := stream.Write(buffer);
  }

  // ---------- Decoding ----------

  /** Bitwise or. */
  function Or(a: nat, b: nat): nat {
    if a == 0 && b == 0 then 0 else 2 * Or(a / 2, b / 2) + if a % 2 == 1 || b % 2 == 1 then 1 else 0
  }

  function Power2(n: nat): (p: nat)
    ensures p > 0
  {
    if n == 0 then 1 else 2 * Power2(n - 1)
  }

  lemma {:induction false} OrAdds(a: nat, b: nat, k: nat)
    requires a < Power2(k)
    ensures Or(a, b * Power2(k)) == a + b * Power2(k)
  {
    if k == 0 {
      OrZero(b);
    } else {
      assert b * Power2(k) == 2 * (b * Power2(k - 1));
      OrAdds(a / 2, b, k - 1);
    }
  }

  lemma {:induction false} OrZero(b: nat)
    ensures Or(0, b) == b
  {
    if b > 0 {
      OrZero(b / 2);
    }
  }

  /** What a decoder delivers: the value, and how many bytes it took. */
  datatype Decoded = Failed | Decoded(value: nat, used: nat)

  /** pb_decode_varint from its i-th byte on. */
  function Decode64From(s: Bytes, i: nat, result: nat): Decoded
    requires i <= |s|
    decreases |s| - i
  {
    if 7 * i >= 64 || i == |s| then Failed
    else
      var next := Or(result, (s[i] % 128) * Power2(7 * i) % TWO_64);
      if s[i] >= 128 then Decode64From(s, i + 1, next) else Decoded(next, i + 1)
  }

  function Decode64(s: Bytes): Decoded {
    Decode64From(s, 0, 0)
  }

  /** The rest of pb_decode_varint32_eof after its first byte. bitpos is an eight-bit number. */
  function Decode32From(s: Bytes, i: nat, bitpos: nat, result: nat): Decoded
    requires i <= |s|
    decreases |s| - i
  {
    if i == |s| then Failed
    else
      var byte := s[i];
      if bitpos >= 32 && byte % 128 != 0 && (result / 0x8000_0000 == 0 || byte != if bitpos < 63 then 0xFF else 0x01) then Failed
      else
        var next := if bitpos >= 32 then result else Or(result, (byte % 128) * Power2(bitpos) % TWO_32);
        var nextpos := (bitpos + 7) % 256;
        if byte >= 128 then Decode32From(s, i + 1, nextpos, next)
        else if nextpos == 35 && byte / 16 % 8 != 0 then Failed
        else Decoded(next, i + 1)
  }

  function Decode32(s: Bytes): Decoded {
    if s == [] then Failed
    else if s[0] < 128 then Decoded(s[0], 1)
    else Decode32From(s, 1, 7, s[0] % 128)
  }

  method DecodeVarint(stream: IStream) returns (ok: bool, value: nat)
    modifies stream
    ensures ok <==> Decode64(old(stream.left)).Decoded?
    ensures ok ==> value == Decode64(old(stream.left)).value && Decode64(old(stream.left)).used <= |old(stream.left)|
    ensures ok ==> stream.left == old(stream.left)[Decode64(old(stream.left)).used..]
  {
    ghost var s := stream.left;
    ghost var i := 0;
    var bitpos, result := 0, 0;
    while true
      invariant 0 <= i <= |s| && bitpos == 7 * i && stream.left == s[i..]
      invariant Decode64(s) == Decode64From(s, i, result)
      decreases |stream.left|
    {
      if bitpos >= 64 {
        return false, 0;
      }
      var more, byte := stream.ReadByte();
      if !more {
        return false, 0;
      }
      result := Or(result, (byte % 128) * Power2(bitpos) % TWO_64);
      bitpos := bitpos + 7;
      i := i + 1;
      if byte < 128 {
        return true, result;
      }
    }
  }

  /** eof is set when there was nothing to read at all. */
  method DecodeVarint32Eof(stream: IStream) returns (ok: bool, value: nat, eof: bool)
    modifies stream
    ensures ok <==> Decode32(old(stream.left)).Decoded?
    ensures ok ==> value == Decode32(old(stream.left)).value && Decode32(old(stream.left)).used <= |old(stream.left)|
    ensures ok ==> stream.left == old(stream.left)[Decode32(old(stream.left)).used..] && !eof
    ensures eof <==> old(stream.left) == []
  {
    ghost var s := stream.left;
    var more, byte := stream.ReadByte();
    if !more {
      return false, 0, true;
    }
    eof := false;
    if byte < 128 {
      return true, byte, false;
    }
    ghost var i := 1;
    var bitpos: nat, result: nat := 7, byte % 128;
    while true
      invariant 1 <= i <= |s| && stream.left == s[i..] && bitpos < 256
      invariant Decode32(s) == Decode32From(s, i, bitpos, result)
      decreases |stream.left|
    {
      more, byte := stream.ReadByte();
      if !more {
        return false, 0, false;
      }
      if bitpos >= 32 {
        var signExtension := if bitpos < 63 then 0xFF else 0x01;
        if byte % 128 != 0 && (result / 0x8000_0000 == 0 || byte != signExtension) {
          return false, 0, false;
        }
      } else {
        result := Or(result, (byte % 128) * Power2(bitpos) % TWO_32);
      }
      bitpos := (bitpos + 7) % 256;
      i := i + 1;
      if byte < 128 {
        break;
      }
    }
    if bitpos == 35 && byte / 16 % 8 != 0 {
      return false, 0, false;
    }
    return true, result, false;
  }

  // ---------- What the decoders make of what the encoder writes ----------

  /** Powers of two that occur. */
  lemma Powers()
    ensures Power2(7) == 128 && Power2(14) == 0x4000 && Power2(21) == 0x20_0000 && Power2(28) == 0x1000_0000
    ensures Power2(35) == 0x8_0000_0000 && Power2(42) == 0x400_0000_0000 && Power2(49) == 0x2_0000_0000_0000
    ensures Power2(56) == 0x100_0000_0000_0000 && Power2(63) == TWO_63 && Power2(0) == 1
  {
    More(0);
    More(7);
    More(14);
    More(21);
    More(28);
    More(35);
    More(42);
    More(49);
    More(56);
  }

  lemma More(n: nat)
    ensures Power2(n + 7) == 128 * Power2(n)
  {
    assert Power2(n + 7) == 2 * Power2(n + 6) == 4 * Power2(n + 5) == 8 * Power2(n + 4);
    assert Power2(n + 4) == 2 * Power2(n + 3) == 4 * Power2(n + 2) == 8 * Power2(n + 1) == 16 * Power2(n);
  }

  lemma AtMost(payload: nat, limit: nat, P: nat)
    requires payload <= limit
    ensures payload * P <= limit * P
  {
  }

  /** Seven more bits stay below the next power. */
  lemma Room(payload: nat, i: nat)
    requires i <= 8 && payload < 128
    ensures Power2(7 * i + 7) == 128 * Power2(7 * i) <= TWO_63 && payload * Power2(7 * i) <= 127 * Power2(7 * i)
  {
    Powers();
    More(7 * i);
    AtMost(payload, 127, Power2(7 * i));
    Monotone(7 * i + 7, 63);
  }

  lemma {:induction false} Monotone(m: nat, n: nat)
    requires m <= n
    ensures Power2(m) <= Power2(n)
  {
    if m < n {
      Monotone(m, n - 1);
    }
  }

  /** One byte of payload goes in above what is there. */
  lemma Accumulates64(result: nat, payload: nat, i: nat)
    requires i <= 8 && payload < 128 && result < Power2(7 * i)
    ensures Or(result, payload * Power2(7 * i) % TWO_64) == result + payload * Power2(7 * i) < Power2(7 * i + 7)
  {
    Room(payload, i);
    SmallMod(payload * Power2(7 * i), TWO_64);
    OrAdds(result, payload, 7 * i);
  }

  lemma SmallMod(x: nat, m: nat)
    requires x < m
    ensures x % m == x
  {
  }

  /** Of the tenth byte only the lowest bit has a place. */
  lemma AccumulatesLast(result: nat, payload: nat)
    requires payload < 128 && result < TWO_63
    ensures Or(result, payload * TWO_63 % TWO_64) == result + payload % 2 * TWO_63
  {
    Powers();
    assert payload * TWO_63 % TWO_64 == payload % 2 * TWO_63;
    OrAdds(result, payload % 2, 63);
  }

  lemma SplitValue(value: nat, P: nat)
    ensures value * P == value % 128 * P + value / 128 * (128 * P)
  {
  }

  lemma Step64(s: Bytes, i: nat, result: nat, value: nat, whole: nat) returns (next: nat)
    requires i < |s| && i <= 8 && result < Power2(7 * i)
    requires s[i] % 128 == value % 128 && result + value * Power2(7 * i) == whole
    ensures next < Power2(7 * (i + 1)) && next + value / 128 * Power2(7 * (i + 1)) == whole
    ensures Decode64From(s, i, result) == if s[i] >= 128 then Decode64From(s, i + 1, next) else Decoded(next, i + 1)
  {
    Accumulates64(result, value % 128, i);
    OneMoreByte(value, i);
    next := result + value % 128 * Power2(7 * i);
  }

  /** The value that is left to decode, and what has been gathered, make up the whole. */
  lemma {:induction false} Decodes64From(s: Bytes, pre: Bytes, value: nat, rest: Bytes, result: nat, whole: nat)
    requires s == pre + Varint(value) + rest && |pre| <= 9 && (pre == [] || value > 0)
    requires result < Power2(7 * |pre|) && result + value * Power2(7 * |pre|) == whole < TWO_64
    ensures Decode64From(s, |pre|, result) == Decoded(whole, |pre| + |Varint(value)|)
    decreases value
  {
    if |pre| == 9 {
      DecodesTenth(s, pre, value, rest, result, whole);
    } else {
      var next := Step64(s, |pre|, result, value, whole);
      if value >= 128 {
        var longer := pre + [s[|pre|]];
        assert s == longer + Varint(value / 128) + rest;
        assert |longer| == |pre| + 1;
        Decodes64From(s, longer, value / 128, rest, next, whole);
      } else {
        LastByte(value, Power2(7 * (|pre| + 1)));
      }
    }
  }

  lemma LastByte(value: nat, P: nat)
    requires value < 128
    ensures value / 128 * P == 0
  {
  }

  lemma OneMoreByte(value: nat, i: nat)
    ensures value * Power2(7 * i) == value % 128 * Power2(7 * i) + value / 128 * Power2(7 * (i + 1))
  {
    More(7 * i);
    SplitValue(value, Power2(7 * i));
  }

  lemma DecodesTenth(s: Bytes, pre: Bytes, value: nat, rest: Bytes, result: nat, whole: nat)
    requires s == pre + Varint(value) + rest && |pre| == 9 && value > 0
    requires result < Power2(7 * |pre|) && result + value * Power2(7 * |pre|) == whole < TWO_64
    ensures Decode64From(s, |pre|, result) == Decoded(whole, |pre| + |Varint(value)|)
  {
    Powers();
    assert 7 * |pre| == 63;
    assert value == 1;
    assert s[9] == 1;
    AccumulatesLast(result, 1);
  }

  /** pb_decode_varint gets back every 64-bit value from what pb_encode_varint wrote, takes exactly
      those bytes, and there are at most ten. */
  lemma VarintRoundTrip(value: nat, rest: Bytes)
    requires value < TWO_64
    ensures Decode64(Varint(value) + rest) == Decoded(value, |Varint(value)|)
    ensures |Varint(value)| <= 10
  {
    assert [] + Varint(value) + rest == Varint(value) + rest;
    Decodes64From(Varint(value) + rest, [], value, rest, 0, value);
    assert Power128(10) > TWO_64;
    VarintIsShort(value, 10);
  }

  // ---------- The 32-bit decoder ----------

  /** Before the payload overlaps the 33rd bit the two decoders gather the same number. */
  lemma Gathers32(result: nat, payload: nat, i: nat)
    requires 1 <= i <= 3 && payload < 128 && result < Power2(7 * i)
    ensures Or(result, payload * Power2(7 * i) % TWO_32) == Or(result, payload * Power2(7 * i) % TWO_64)
    ensures Or(result, payload * Power2(7 * i) % TWO_64) < Power2(7 * (i + 1)) <= 0x1000_0000
  {
    Powers();
    var P := if i == 1 then 0x80 else if i == 2 then 0x4000 else 0x20_0000;
    assert Power2(7 * i) == P && Power2(7 * (i + 1)) == 128 * P;
    Gathers32With(result, payload, P, 7 * i);
  }

  lemma Gathers32With(result: nat, payload: nat, P: nat, k: nat)
    requires P == Power2(k) && 0 < P <= 0x20_0000 && payload < 128 && result < P
    ensures Or(result, payload * P % TWO_32) == Or(result, payload * P % TWO_64) < 128 * P
  {
    AtMost(payload, 127, P);
    SmallMod(payload * P, TWO_32);
    SmallMod(payload * P, TWO_64);
    OrAdds(result, payload, k);
  }

  lemma Gathers32Fifth(result: nat, payload: nat)
    requires payload < 128 && result < 0x1000_0000
    ensures Or(result, payload * 0x1000_0000 % TWO_32) == result + payload % 16 * 0x1000_0000 < TWO_32
  {
    Powers();
    assert payload * 0x1000_0000 % TWO_32 == payload % 16 * 0x1000_0000;
    OrAdds(result, payload % 16, 28);
  }

  lemma Gathers64Fifth(result: nat, payload: nat)
    requires payload < 128 && result < 0x1000_0000
    ensures Or(result, payload * 0x1000_0000 % TWO_64) == result + payload * 0x1000_0000 < 0x8_0000_0000
  {
    Powers();
    assert payload * 0x1000_0000 % TWO_64 == payload * 0x1000_0000;
    OrAdds(result, payload, 28);
  }

  /** What comes after the fifth byte does not reach the low 32 bits. */
  lemma Beyond32(result: nat, payload: nat, P: nat, k: nat, Q: nat)
    requires P == Power2(k) && P == Q * TWO_32 && P <= 0x100_0000_0000_0000 && payload < 128 && result < P
    ensures Or(result, payload * P % TWO_64) % TWO_32 == result % TWO_32
    ensures Or(result, payload * P % TWO_64) < 128 * P
  {
    AtMost(payload, 127, P);
    SmallMod(payload * P, TWO_64);
    OrAdds(result, payload, k);
    assert payload * P == payload * Q * TWO_32 by {
      calc {
        payload * P;
        payload * (Q * TWO_32);
        payload * Q * TWO_32;
      }
    }
    LowBitsStay(result, payload * Q);
  }

  lemma LowBitsStay(result: nat, x: nat)
    ensures (result + x * TWO_32) % TWO_32 == result % TWO_32
  {
  }

  lemma BeyondTenth(result: nat, payload: nat)
    requires payload < 128 && result < TWO_63
    ensures Or(result, payload * TWO_63 % TWO_64) % TWO_32 == result % TWO_32
  {
    AccumulatesLast(result, payload);
  }

  /** What the decoders make of one more payload. */
  function Next32(r: nat, payload: nat, i: nat): nat {
    if i >= 5 then r else Or(r, payload * Power2(7 * i) % TWO_32)
  }

  function Next64(r: nat, payload: nat, i: nat): nat {
    Or(r, payload * Power2(7 * i) % TWO_64)
  }

  lemma NextLow(r: nat, payload: nat, i: nat)
    requires 1 <= i <= 3 && r < Power2(7 * i) && payload < 128
    ensures Next32(r, payload, i) == Next64(r, payload, i) < Power2(7 * (i + 1)) <= 0x1000_0000
  {
    Gathers32(r, payload, i);
  }

  lemma NextFifth(r: nat, payload: nat)
    requires r < 0x1000_0000 && payload < 128
    ensures Next32(r, payload, 4) == Next64(r, payload, 4) % TWO_32 && Next64(r, payload, 4) < 0x8_0000_0000
  {
    assert Power2(7 * 4) == 0x1000_0000 by {
      Powers();
    }
    Gathers32Fifth(r, payload);
    Gathers64Fifth(r, payload);
    FifthMod(r, payload);
  }

  lemma FifthMod(r: nat, payload: nat)
    requires r < 0x1000_0000 && payload < 128
    ensures (r + payload * 0x1000_0000) % TWO_32 == r + payload % 16 * 0x1000_0000
  {
  }

  /** One turn of the 32-bit decoder, up to its fifth byte. */
  lemma Unfold32(s: Bytes, i: nat, r: nat)
    requires 1 <= i <= 4 && i < |s|
    ensures var next := Next32(r, s[i] % 128, i);
      Decode32From(s, i, 7 * i, r) ==
        if s[i] >= 128 then Decode32From(s, i + 1, 7 * (i + 1), next)
        else if i == 4 && s[i] / 16 % 8 != 0 then Failed
        else Decoded(next, i + 1)
  {
  }

  lemma NextHigh(r: nat, payload: nat, i: nat)
    requires 5 <= i <= 8 && r < Power2(7 * i) && payload < 128
    ensures Next64(r, payload, i) % TWO_32 == r % TWO_32 && Next64(r, payload, i) < Power2(7 * (i + 1))
  {
    Powers();
    var Q := if i == 5 then 0x8 else if i == 6 then 0x400 else if i == 7 then 0x2_0000 else 0x100_0000;
    assert Power2(7 * i) == Q * TWO_32 && Power2(7 * (i + 1)) == 128 * (Q * TWO_32);
    Beyond32(r, payload, Power2(7 * i), 7 * i, Q);
  }

  lemma NextTenth(r: nat, payload: nat)
    requires r < TWO_63 && payload < 128
    ensures Next64(r, payload, 9) % TWO_32 == r % TWO_32
  {
    Powers();
    BeyondTenth(r, payload);
  }

  /** One turn of both decoders. */
  lemma BothNext(r64: nat, payload: nat, i: nat)
    requires 1 <= i <= 9 && r64 < Power2(7 * i) && payload < 128
    ensures Next32(r64 % TWO_32, payload, i) == Next64(r64, payload, i) % TWO_32
    ensures i <= 8 ==> Next64(r64, payload, i) < Power2(7 * (i + 1))
  {
    Bounds(i);
    if i <= 3 {
      NextLow(r64, payload, i);
      SmallMod(r64, TWO_32);
      SmallMod(Next64(r64, payload, i), TWO_32);
    } else if i == 4 {
      NextFifth(r64, payload);
      SmallMod(r64, TWO_32);
    } else if i == 9 {
      NextTenth(r64, payload);
    } else {
      NextHigh(r64, payload, i);
    }
  }

  lemma Bounds(i: nat)
    ensures 1 <= i <= 4 ==> Power2(7 * i) <= 0x1000_0000
    ensures i == 4 ==> Power2(7 * (i + 1)) == 0x8_0000_0000
    ensures i == 9 ==> Power2(7 * i) == TWO_63
  {
    Powers();
  }

  lemma UnfoldHigh32(s: Bytes, i: nat, r: nat)
    requires 5 <= i <= 9 && i < |s| && Decode32From(s, i, 7 * i, r).Decoded?
    ensures Decode32From(s, i, 7 * i, r) == if s[i] >= 128 then Decode32From(s, i + 1, 7 * (i + 1), r) else Decoded(r, i + 1)
  {
  }

  lemma Unfold64(s: Bytes, i: nat, r: nat)
    requires i <= 9 && i < |s|
    ensures Decode64From(s, i, r) ==
      if s[i] >= 128 then Decode64From(s, i + 1, Next64(r, s[i] % 128, i)) else Decoded(Next64(r, s[i] % 128, i), i + 1)
  {
  }

  lemma {:induction false} AgreeFrom(s: Bytes, i: nat, r32: nat, r64: nat)
    requires 1 <= i <= 9 && i <= |s| && r64 < Power2(7 * i) && r32 == r64 % TWO_32
    requires Decode32From(s, i, 7 * i, r32).Decoded? && Decode64From(s, i, r64).Decoded?
    ensures Decode32From(s, i, 7 * i, r32).used == Decode64From(s, i, r64).used
    ensures Decode32From(s, i, 7 * i, r32).value == Decode64From(s, i, r64).value % TWO_32
    decreases 10 - i
  {
    BothNext(r64, s[i] % 128, i);
    Unfold64(s, i, r64);
    if i <= 4 {
      Unfold32(s, i, r32);
    } else {
      UnfoldHigh32(s, i, r32);
    }
    if s[i] >= 128 {
      AgreeFrom(s, i + 1, Next32(r32, s[i] % 128, i), Next64(r64, s[i] % 128, i));
    }
  }

  /** Whenever both decoders accept, they take the same bytes, and the 32-bit one delivers the other's
      value modulo 2^32. */
  lemma DecodersAgree(s: Bytes)
    requires Decode32(s).Decoded? && Decode64(s).Decoded?
    ensures Decode32(s).used == Decode64(s).used && Decode32(s).value == Decode64(s).value % TWO_32
  {
    FirstByte(s);
    if s[0] >= 128 {
      OneByteIn();
      SmallMod(s[0] % 128, TWO_32);
      AgreeFrom(s, 1, s[0] % 128, s[0] % 128);
    } else {
      SmallMod(s[0], TWO_32);
    }
  }

  lemma OneByteIn()
    ensures Power2(7 * 1) == 128
  {
  }

  lemma FirstByte(s: Bytes)
    requires s != []
    ensures Decode64(s) == if s[0] >= 128 then Decode64From(s, 1, s[0] % 128) else Decoded(s[0], 1)
    ensures Decode32(s) == if s[0] >= 128 then Decode32From(s, 1, 7 * 1, s[0] % 128) else Decoded(s[0], 1)
  {
    NextFirst(s[0] % 128);
    Unfold64(s, 0, 0);
  }

  lemma NextFirst(payload: nat)
    requires payload < 128
    ensures Next64(0, payload, 0) == payload
  {
    assert Power2(7 * 0) == 1;
    SmallMod(payload * 1, TWO_64);
    OrZero(payload);
  }

  /** What is left of a 32-bit number after i bytes. */
  function LeftOf32(i: nat): nat {
    if i == 1 then 0x200_0000 else if i == 2 then 0x4_0000 else if i == 3 then 0x800 else 16
  }

  lemma {:induction false} AcceptsSmall(s: Bytes, pre: Bytes, value: nat, rest: Bytes, result: nat)
    requires s == pre + Varint(value) + rest && 1 <= |pre| <= 4 && value < LeftOf32(|pre|)
    ensures Decode32From(s, |pre|, 7 * |pre|, result).Decoded?
    decreases value
  {
    Unfold32(s, |pre|, result);
    if value >= 128 {
      var longer := pre + [128 + value % 128];
      assert s == longer + Varint(value / 128) + rest && s[|pre|] == 128 + value % 128;
      AcceptsSmall(s, longer, value / 128, rest, Next32(result, s[|pre|] % 128, |pre|));
    } else {
      assert s[|pre|] == value;
    }
  }

  /** The place of the first byte without the continuation bit; the length if there is none. */
  function End(s: Bytes): (m: nat)
    ensures m <= |s| && (m < |s| ==> s[m] < 128)
    ensures forall i :: 0 <= i < m ==> s[i] >= 128
  {
    if s == [] || s[0] < 128 then 0 else 1 + End(s[1..])
  }

  /** bitpos before the i-th byte: an eight-bit number, which wraps around. */
  function Pos(i: nat): nat {
    7 * i % 256
  }

  /** The payload of a byte at this position reaches bit 31. */
  predicate SetsTop(byte: Byte, pos: nat) {
    25 <= pos < 32 && byte % 128 / Power2(31 - pos) % 2 == 1
  }

  /** Some byte between the first and the i-th has set bit 31. */
  predicate TopSet(s: Bytes, i: nat)
    requires i <= |s|
  {
    exists k :: 1 <= k < i && SetsTop(s[k], Pos(k))
  }

  /** From bit 32 on a byte is let through without payload, or as a sign extension of bit 31. */
  predicate Passes(s: Bytes, i: nat)
    requires i < |s|
  {
    Pos(i) >= 32 ==> s[i] % 128 == 0 || (TopSet(s, i) && s[i] == if Pos(i) < 63 then 0xFF else 0x01)
  }

  /** What the 32-bit decoder demands of the bytes from the i-th on. */
  predicate Fine32From(s: Bytes, i: nat) {
    var m := End(s);
    m < |s| && (forall k :: i <= k <= m ==> Passes(s, k)) && (Pos(m) == 28 ==> s[m] < 16)
  }

  lemma NextPos(i: nat)
    ensures (Pos(i) + 7) % 256 == Pos(i + 1)
  {
    ModOnce(7 * i);
  }

  lemma ModOnce(x: nat)
    ensures (x % 256 + 7) % 256 == (x + 7) % 256
  {
  }

  lemma TopStep(s: Bytes, i: nat)
    requires 1 <= i < |s|
    ensures TopSet(s, i + 1) <==> TopSet(s, i) || SetsTop(s[i], Pos(i))
  {
    if SetsTop(s[i], Pos(i)) {
      assert TopSet(s, i + 1);
    }
  }

  /** Bit k of an or. */
  lemma {:induction false} OrBit(a: nat, b: nat, k: nat)
    requires a < 2 * Power2(k) && b < 2 * Power2(k)
    ensures Or(a, b) < 2 * Power2(k)
    ensures Or(a, b) >= Power2(k) <==> a >= Power2(k) || b >= Power2(k)
  {
    if k > 0 {
      OrBit(a / 2, b / 2, k - 1);
    }
  }

  /** Of a payload moved by pos bits, bit 31 is bit 31 - pos. P times Q is 2^31. */
  lemma MovedTop(payload: nat, P: nat, Q: nat)
    requires payload < 128 && 0 < P && P * Q == 0x8000_0000
    ensures payload * P % TWO_32 >= 0x8000_0000 <==> payload / Q % 2 == 1
  {
    var h, low := payload / Q, payload % Q;
    assert payload * P == h * 0x8000_0000 + low * P by {
      calc {
        payload * P;
        (h * Q + low) * P;
        h * (P * Q) + low * P;
      }
    }
    assert 0 <= low * P < 0x8000_0000 by {
      AtMost(low, Q - 1, P);
      assert (Q - 1) * P == 0x8000_0000 - P;
    }
    HalfWord(h, low * P);
  }

  lemma HalfWord(h: nat, x: nat)
    requires x < 0x8000_0000
    ensures (h * 0x8000_0000 + x) % TWO_32 == h % 2 * 0x8000_0000 + x
  {
    assert h == 2 * (h / 2) + h % 2;
  }

  lemma {:induction false} PowersMultiply(m: nat, n: nat)
    ensures Power2(m) * Power2(n) == Power2(m + n)
  {
    if m > 0 {
      PowersMultiply(m - 1, n);
    }
  }

  lemma Power31()
    ensures Power2(31) == 0x8000_0000 && Power2(24) == 0x100_0000
  {
    Powers();
    assert Power2(31) == 2 * Power2(30) == 4 * Power2(29) == 8 * Power2(28);
    assert Power2(24) == 2 * Power2(23) == 4 * Power2(22) == 8 * Power2(21);
  }

  lemma PayloadTop(byte: Byte, pos: nat)
    requires pos < 32
    ensures byte % 128 * Power2(pos) % TWO_32 >= 0x8000_0000 <==> SetsTop(byte, pos)
  {
    Power31();
    PowersMultiply(pos, 31 - pos);
    MovedTop(byte % 128, Power2(pos), Power2(31 - pos));
    if pos < 25 {
      Monotone(7, 31 - pos);
      Powers();
      SmallDiv(byte % 128, Power2(31 - pos));
    }
  }

  lemma SmallDiv(x: nat, y: nat)
    requires x < y
    ensures x / y == 0
  {
  }

  /** One turn keeps a 32-bit number, and bit 31 is the bytes' doing. */
  lemma NextTop(r: nat, byte: Byte, pos: nat)
    requires r < TWO_32 && pos < 32
    ensures var next := Or(r, byte % 128 * Power2(pos) % TWO_32);
      next < TWO_32 && (next >= 0x8000_0000 <==> r >= 0x8000_0000 || SetsTop(byte, pos))
  {
    Power31();
    PayloadTop(byte, pos);
    OrBit(r, byte % 128 * Power2(pos) % TWO_32, 31);
  }

  /** One turn of the loop, with the test of its byte told by the bytes before. */
  lemma Turn32(s: Bytes, i: nat, r: nat) returns (next: nat)
    requires 1 <= i < |s| && r < TWO_32 && (r >= 0x8000_0000 <==> TopSet(s, i))
    ensures next < TWO_32 && (next >= 0x8000_0000 <==> TopSet(s, i + 1))
    ensures Decode32From(s, i, Pos(i), r) ==
      if !Passes(s, i) then Failed
      else if s[i] >= 128 then Decode32From(s, i + 1, Pos(i + 1), next)
      else if Pos(i) == 28 && s[i] >= 16 then Failed
      else Decoded(next, i + 1)
  {
    NextPos(i);
    TopStep(s, i);
    TopBit(r);
    next := if Pos(i) >= 32 then r else Or(r, s[i] % 128 * Power2(Pos(i)) % TWO_32);
    if Pos(i) < 32 {
      NextTop(r, s[i], Pos(i));
    }
    if s[i] < 128 {
      LastNibble(s[i], i);
    }
  }

  lemma FineStep(s: Bytes, i: nat)
    requires 1 <= i <= End(s) < |s|
    ensures Fine32From(s, i) <==> Passes(s, i) && if i == End(s) then Pos(i) == 28 ==> s[i] < 16 else Fine32From(s, i + 1)
  {
  }

  lemma {:induction false} AcceptsFrom(s: Bytes, i: nat, r: nat)
    requires 1 <= i <= End(s) && r < TWO_32 && (r >= 0x8000_0000 <==> TopSet(s, i))
    ensures Decode32From(s, i, Pos(i), r).Decoded? <==> Fine32From(s, i)
    ensures Decode32From(s, i, Pos(i), r).Decoded? ==> Decode32From(s, i, Pos(i), r).used == End(s) + 1
    decreases |s| - i
  {
    if i < |s| {
      var next := Turn32(s, i, r);
      if i < End(s) {
        AcceptsFrom(s, i + 1, next);
      }
      if End(s) < |s| {
        FineStep(s, i);
      }
    }
  }

  lemma TopBit(r: nat)
    requires r < TWO_32
    ensures r / 0x8000_0000 == 0 <==> r < 0x8000_0000
  {
  }

  lemma LastNibble(byte: Byte, i: nat)
    requires byte < 128
    ensures Pos(i + 1) == 35 <==> Pos(i) == 28
    ensures byte / 16 % 8 != 0 <==> byte >= 16
  {
    NextPos(i);
  }

  /** What the 32-bit decoder accepts, for numbers of any length: a last byte is there, what lies from
      bit 32 on is empty or extends a bit 31 that is set, and a last byte at bit 28 has four bits. */
  lemma Accepts32(s: Bytes)
    ensures Decode32(s).Decoded? <==> Fine32From(s, 1)
    ensures Decode32(s).Decoded? ==> Decode32(s).used == End(s) + 1
  {
    if s != [] && s[0] >= 128 {
      AcceptsMany(s);
    } else {
      AcceptsOne(s);
    }
  }

  lemma AcceptsMany(s: Bytes)
    requires s != [] && s[0] >= 128
    ensures Decode32(s).Decoded? <==> Fine32From(s, 1)
    ensures Decode32(s).Decoded? ==> Decode32(s).used == End(s) + 1
  {
    AcceptsAfter(s, s[0] % 128, 7, Decode32From(s, 1, 7, s[0] % 128));
  }

  lemma AcceptsOne(s: Bytes)
    requires s == [] || s[0] < 128
    ensures Decode32(s).Decoded? <==> Fine32From(s, 1)
    ensures Decode32(s).Decoded? ==> Decode32(s).used == End(s) + 1
  {
    assert End(s) == 0;
  }

  lemma AcceptsAfter(s: Bytes, r: nat, pos: nat, d: Decoded)
    requires s != [] && s[0] >= 128 && r < 128 && pos == 7 && d == Decode32From(s, 1, pos, r)
    ensures d.Decoded? <==> Fine32From(s, 1)
    ensures d.Decoded? ==> d.used == End(s) + 1
  {
    SmallMod(pos, 256);
    AcceptsFrom(s, 1, r);
  }

  lemma {:induction false} Accepts64From(s: Bytes, i: nat, r: nat)
    requires i <= End(s) && i <= 10
    ensures Decode64From(s, i, r).Decoded? <==> End(s) < |s| && End(s) <= 9
    ensures Decode64From(s, i, r).Decoded? ==> Decode64From(s, i, r).used == End(s) + 1
    decreases 10 - i
  {
    if i < 10 && i < |s| {
      Unfold64(s, i, r);
      if i < End(s) {
        Accepts64From(s, i + 1, Next64(r, s[i] % 128, i));
      }
    }
  }

  /** Which numbers only one of the decoders accepts: the 32-bit one has no limit on their length, and
      the 64-bit one none on what they are. */
  lemma AcceptedByOne(s: Bytes)
    ensures Decode32(s).Decoded? && Decode64(s) == Failed <==> Fine32From(s, 1) && End(s) > 9
    ensures Decode64(s).Decoded? && Decode32(s) == Failed <==> End(s) < |s| && End(s) <= 9 && !Fine32From(s, 1)
  {
    Accepts32(s);
    Accepts64From(s, 0, 0);
  }

  /** An eleven-byte number that pb_decode_varint refuses and pb_decode_varint32 accepts. */
  lemma OverlongAccepted() returns (s: Bytes)
    ensures |s| == 11 && Decode32(s).Decoded? && Decode32(s).used == 11 && Decode64(s) == Failed
  {
    s := [0x80, 0x80, 0x80, 0x80, 0x88, 0x80, 0x80, 0x80, 0x80, 0x80, 0x01];
    assert Power2(31 - 28) == 8;
    assert SetsTop(s[4], Pos(4));
    OverlongFine(s);
    AcceptedByOne(s);
    Accepts32(s);
  }

  lemma OverlongFine(s: Bytes)
    requires |s| == 11 && (forall i :: 5 <= i < 10 ==> s[i] == 0x80) && s[10] == 0x01
    requires (forall i :: 0 <= i < 5 ==> s[i] >= 128) && SetsTop(s[4], Pos(4))
    ensures End(s) == 10 && Fine32From(s, 1)
  {
    assert TopSet(s, 10);
  }

  /** What the 32-bit decoder demands of a number of ten bytes: bit 31 is set, and of every later byte
      all payload bits are set or none is, except that the last byte is 1. */
  predicate LooksNegative(s: Bytes)
    requires |s| >= 10
  {
    TopByte(s) && (forall i :: 5 <= i < 9 ==> s[i] == 0x80 || s[i] == 0xFF) && s[9] == 0x01
  }

  /** It accepts a number whose tenth byte is the last, and is not a zero, exactly then. */
  lemma AcceptsTenBytes(s: Bytes)
    requires |s| >= 10 && (forall i :: 0 <= i < 9 ==> s[i] >= 128) && 0 < s[9] < 128
    ensures Decode32(s).Decoded? <==> LooksNegative(s)
  {
    Accepts32(s);
    forall k | 1 <= k <= 9
      ensures Passes(s, k) <==> k < 5 || (TopByte(s) && s[k] == if k < 9 then 0xFF else 0x01) || (k < 9 && s[k] == 0x80)
    {
      PassesTen(s, k);
    }
    TenBytesFine(s, 9);
  }

  lemma TenBytesFine(s: Bytes, m: nat)
    requires |s| >= 10 && End(s) == m == 9
    requires forall k :: 1 <= k <= 9 ==>
      (Passes(s, k) <==> k < 5 || (TopByte(s) && s[k] == if k < 9 then 0xFF else 0x01) || (k < 9 && s[k] == 0x80))
    ensures Fine32From(s, 1) <==> LooksNegative(s)
  {
    SmallMod(7 * m, 256);
    if Fine32From(s, 1) {
      assert Passes(s, m);
      assert forall k :: 5 <= k < 9 ==> Passes(s, k);
    }
  }

  /** Bit 31 as the fifth byte holds it. */
  predicate TopByte(s: Bytes)
    requires |s| >= 5
  {
    s[4] / 8 % 2 == 1
  }

  lemma PassesTen(s: Bytes, k: nat)
    requires |s| >= 10 && End(s) == 9 && s[9] > 0 && 1 <= k <= 9
    ensures Passes(s, k) <==> k < 5 || (TopByte(s) && s[k] == if k < 9 then 0xFF else 0x01) || (k < 9 && s[k] == 0x80)
  {
    SmallMod(7 * k, 256);
    NoPayload(s[k]);
    if k >= 5 {
      TopOfFive(s, k);
    }
  }

  lemma NoPayload(byte: int)
    requires 0 < byte < 256
    ensures byte % 128 == 0 <==> byte == 0x80
  {
  }

  /** Of the positions up to 63 only 28 reaches bit 31. */
  lemma TopOfFive(s: Bytes, i: nat)
    requires 5 <= i <= 9 && i <= |s|
    ensures TopSet(s, i) <==> TopByte(s)
  {
    assert Power2(31 - 28) == 8;
    Nibble(s[4]);
    assert SetsTop(s[4], Pos(4)) <==> s[4] / 8 % 2 == 1;
  }

  lemma Nibble(byte: int)
    requires 0 <= byte < 256
    ensures byte % 128 / 8 % 2 == byte / 8 % 2
  {
    assert byte / 8 == 16 * (byte / 128) + byte % 128 / 8;
  }

  lemma SignExtensionBytes(value: nat)
    requires TWO_64 - 0x8000_0000 <= value < TWO_64
    ensures var s := Varint(value);
      && |s| == 10 && s[0] >= 128 && s[1] >= 128 && s[2] >= 128 && s[3] >= 128 && s[4] >= 0xF8
      && s[5] == s[6] == s[7] == s[8] == 0xFF && s[9] == 0x01
  {
    var v1 := value / 128;
    var v2 := v1 / 128;
    var v3 := v2 / 128;
    var v4 := v3 / 128;
    assert 0x10_0000_0000 - 8 <= v4 < 0x10_0000_0000;
    var tail := Varint(v4);
    HighBytes(v4);
    assert Varint(v3) == [128 + v3 % 128] + tail;
    assert Varint(v2) == [128 + v2 % 128] + Varint(v3);
    assert Varint(v1) == [128 + v1 % 128] + Varint(v2);
    assert Varint(value) == [128 + value % 128] + Varint(v1);
  }

  lemma HighBytes(value: nat)
    requires 0x10_0000_0000 - 8 <= value < 0x10_0000_0000
    ensures value % 128 >= 120 && Varint(value) == [128 + value % 128, 0xFF, 0xFF, 0xFF, 0xFF, 0x01]
  {
    var v5 := value / 128;
    assert v5 == 0x1FFF_FFFF;
    assert Varint(1) == [1];
    assert Varint(255) == [0xFF] + Varint(1);
    assert Varint(0x7FFF) == [0xFF] + Varint(255);
    assert Varint(0x3F_FFFF) == [0xFF] + Varint(0x7FFF);
    assert Varint(0x1FFF_FFFF) == [0xFF] + Varint(0x3F_FFFF);
  }

  /** The 32-bit decoder gets back every 32-bit number, and every negative one that was written with
      its sign extended to 64 bits. */
  lemma Varint32RoundTrip(value: nat, rest: Bytes)
    requires value < TWO_32 || TWO_64 - 0x8000_0000 <= value < TWO_64
    ensures Decode32(Varint(value) + rest) == Decoded(value % TWO_32, |Varint(value)|)
  {
    var s := Varint(value) + rest;
    if value >= TWO_32 {
      SignExtensionBytes(value);
      AcceptsTenBytes(s);
    } else if value >= 128 {
      assert s == [128 + value % 128] + Varint(value / 128) + rest;
      AcceptsSmall(s, [128 + value % 128], value / 128, rest, s[0] % 128);
    }
    VarintRoundTrip(value, rest);
    DecodersAgree(s);
  }

  /** The sign extension is checked byte by byte, and a byte without payload passes: there are bytes
      that stand for no sign-extended 32-bit number, and are accepted all the same. */
  lemma LooseSignExtension() returns (s: Bytes)
    ensures Decode64(s) == Decoded(TWO_63 + 0x8000_0000, 10) && Decode32(s) == Decoded(0x8000_0000, 10)
  {
    var value;
    value, s := LooseBytes();
    AcceptedAs(value, 0x8000_0000, s);
  }

  lemma AcceptedAs(value: nat, low: nat, s: Bytes)
    requires Spells(s, value) && value < TWO_64 && value % TWO_32 == low && |s| == 10
    requires (forall i :: 0 <= i < 9 ==> s[i] >= 128) && 0 < s[9] < 128 && LooksNegative(s)
    ensures Decode64(s) == Decoded(value, 10) && Decode32(s) == Decoded(low, 10)
  {
    assert Varint(value) + [] == s;
    VarintRoundTrip(value, []);
    AcceptsTenBytes(s);
    DecodersAgree(s);
  }

  ghost predicate Spells(s: Bytes, value: nat) {
    forall v {:trigger Varint(v)} :: v == value ==> s == Varint(v)
  }

  lemma LooseBytes() returns (value: nat, s: Bytes)
    ensures value == TWO_63 + 0x8000_0000 && Spells(s, value) && |s| == 10
    ensures (forall i :: 0 <= i < 9 ==> s[i] >= 128) && 0 < s[9] < 128 && LooksNegative(s)
  {
    var v: nat := 1;
    s := [1];
    assert Spells(s, v);
    v, s := Prepend(0, v, s);
    v, s := Prepend(0, v, s);
    v, s := Prepend(0, v, s);
    v, s := Prepend(0, v, s);
    assert v == 0x1000_0000;
    v, s := Prepend(8, v, s);
    v, s := Prepend(0, v, s);
    v, s := Prepend(0, v, s);
    v, s := Prepend(0, v, s);
    v, s := Prepend(0, v, s);
    value := v;
  }

  lemma Prepend(payload: nat, v: nat, s: Bytes) returns (value: nat, t: Bytes)
    requires payload < 128 && v > 0 && Spells(s, v)
    ensures value == 128 * v + payload && t == [128 + payload] + s && Spells(t, value)
  {
    value, t := 128 * v + payload, [128 + payload] + s;
  }

  // ---------- Zigzag and two's complement ----------

  /** A signed number as the 64-bit pattern that C's conversion gives it. */
  function Unsigned(value: int): nat
    requires -TWO_63 <= value < TWO_63
  {
    if value < 0 then value + TWO_64 else value
  }

  /** The signed number with the low bits of a pattern, in a type of modulus many values. */
  function Signed(pattern: nat, modulus: nat): int
    requires modulus > 0
  {
    var low := pattern % modulus;
    if low >= modulus / 2 then low - modulus else low
  }

  /** pb_encode_svarint: shift left by one, and complement if negative. */
  function ZigZag(value: int): nat
    requires -TWO_63 <= value < TWO_63
  {
    var shifted := Unsigned(value) * 2 % TWO_64;
    if value < 0 then TWO_64 - 1 - shifted else shifted
  }

  /** pb_decode_svarint: shift right by one, and complement if the bit shifted out was set. */
  function UnZigZag(value: nat): int
    requires value < TWO_64
  {
    if value % 2 == 1 then -1 - value / 2 else value / 2
  }

  /** Zigzag is undone for every 64-bit number, in both directions, and keeps small numbers small. */
  lemma ZigZagRoundTrip(value: int, pattern: nat)
    requires -TWO_63 <= value < TWO_63 && pattern < TWO_64
    ensures ZigZag(value) < TWO_64 && UnZigZag(ZigZag(value)) == value
    ensures -TWO_63 <= UnZigZag(pattern) < TWO_63 && ZigZag(UnZigZag(pattern)) == pattern
    ensures ZigZag(value) == if value < 0 then -2 * value - 1 else 2 * value
  {
  }
}

/** Bytes, and numbers of a fixed width in them, least significant byte first. */
module FixedBytes {

  type Byte = b: int | 0 <= b < 256
  type Bytes = seq<Byte>

  function EncodeFixed(value: nat, n: nat): Bytes {
    if n == 0 then [] else [value % 256] + EncodeFixed(value / 256, n - 1)
  }

  function DecodeFixed(bytes: Bytes): nat {
    if bytes == [] then 0 else bytes[0] as int + 256 * DecodeFixed(bytes[1..])
  }

  function Power256(n: nat): nat {
    if n == 0 then 1 else 256 * Power256(n - 1)
  }

  lemma {:induction false} FixedRoundTrip(value: nat, n: nat)
    requires value < Power256(n)
    ensures |EncodeFixed(value, n)| == n && DecodeFixed(EncodeFixed(value, n)) == value
  {
    if n > 0 {
      assert value / 256 < Power256(n - 1);
      FixedRoundTrip(value / 256, n - 1);
      assert EncodeFixed(value, n)[1..] == EncodeFixed(value / 256, n - 1);
    }
  }
}

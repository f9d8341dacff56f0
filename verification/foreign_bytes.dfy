/** What pb_decode does with bytes that pb_encode does not write: repeated fields, fields in other forms, and bytes that
    are missing. */
module ForeignBytes {
  import opened FixedBytes
  import opened Options
  import opened Varints
  import opened Messages
  import opened Decode
  import opened RoundTrip
  import opened Concatenation

  // ---------- One field again ----------

  /** Of a field with one value, the last occurrence counts, but a submessage is decoded into the one that is there. */
  lemma LastWins(f: Field, before: Slot, v: Value, rest: Bytes)
    requires !f.rule.Repeated? && WellFormed(f) && Typed(f.kind, v) && Encodable(f.kind, v) && |EncodeValue(f.kind, v)| < TWO_32
    requires !f.kind.Submessage?
    ensures DecodeSlot(f, before, WireNumber(WireTypeOf(f.kind)), EncodeValue(f.kind, v) + rest)
      == if Readable(f.kind, f.kind, v) then Some((One(v), rest)) else None
  {
    SameKind(f.kind);
    ValueRoundTrip(f.kind, f.kind, v, rest);
  }

  lemma SameKind(k: Kind)
    requires !k.Submessage?
    ensures ReadsKind(k, k)
  {
  }

  lemma SubmessageMerges(f: Field, slots: seq<Slot>, body: Bytes, rest: Bytes)
    requires !f.rule.Repeated? && f.kind.Submessage? && |slots| == |f.kind.fields| && |body| < TWO_32
    ensures DecodeSlot(f, One(Message(slots)), 2, Prefixed(body) + rest)
      == var m := DecodeMessage(f.kind.fields, slots, body); if m == None then None else Some((One(Message(m.value)), rest))
  {
    DelimitedRoundTrip(body, rest);
  }

  /** One more entry of an array with its own key, of a packable kind as well, goes behind those that are there, as
      long as there is room. */
  lemma OneMoreEntry(f: Field, before: seq<Value>, v: Value, rest: Bytes)
    requires f.rule.Repeated? && Typed(f.kind, v) && Encodable(f.kind, v) && |EncodeValue(f.kind, v)| < TWO_32
    requires !f.kind.Submessage?
    ensures DecodeSlot(f, Many(before), WireNumber(WireTypeOf(f.kind)), EncodeValue(f.kind, v) + rest)
      == if |before| < f.rule.arraySize && Readable(f.kind, f.kind, v) then Some((Many(before + [v]), rest)) else None
  {
    SameKind(f.kind);
    ValueRoundTrip(f.kind, f.kind, v, rest);
  }

  /** So do the entries of a packed array, all of them or none. */
  lemma {:induction false} PackedExactly(k: Kind, arraySize: nat, before: seq<Value>, values: seq<Value>)
    requires Packable(k) && TypedAll(k, values) && |before| <= arraySize
    ensures DecodePacked(k, arraySize, before, EncodePacked(k, values)) == if |before| + |values| <= arraySize then Some(before + values) else None
    decreases |values|
  {
    if |before| + |values| <= arraySize {
      PackedRoundTrip(k, arraySize, before, values);
    } else {
      var tail := EncodePacked(k, values[1..]);
      NumberRoundTrip(k, values[0].n, tail);
      if |before| < arraySize {
        assert Number(values[0].n) == values[0];
        PackedExactly(k, arraySize, before + [values[0]], values[1..]);
      } else {
        assert EncodePacked(k, values) != [];
      }
    }
  }

  lemma MorePacked(f: Field, before: seq<Value>, values: seq<Value>, rest: Bytes)
    requires f.rule.Repeated? && Packable(f.kind) && TypedAll(f.kind, values) && |before| <= f.rule.arraySize
    requires |EncodePacked(f.kind, values)| < TWO_32
    ensures DecodeSlot(f, Many(before), 2, Prefixed(EncodePacked(f.kind, values)) + rest)
      == if |before| + |values| <= f.rule.arraySize then Some((Many(before + values), rest)) else None
  {
    DelimitedRoundTrip(EncodePacked(f.kind, values), rest);
    PackedExactly(f.kind, f.rule.arraySize, before, values);
  }

  /** Bytes that are longer than their room are refused, whoever sent them. */
  lemma BlobExactly(k: Kind, current: Value, bytes: Bytes, rest: Bytes)
    requires k.BytesField? && |bytes| < TWO_32
    ensures DecodeValue(k, current, Prefixed(bytes) + rest) == if |bytes| <= k.capacity then Some((Blob(bytes), rest)) else None
  {
    DelimitedRoundTrip(bytes, rest);
  }

  // ---------- Bytes that are missing ----------

  /** A value of which the last bytes are missing is refused, however many they are. */
  lemma {:induction false} TruncatedRefused(k: Kind, v: Value, n: nat)
    requires Typed(k, v) && Encodable(k, v) && |EncodeValue(k, v)| < TWO_32 && n < |EncodeValue(k, v)|
    requires ReadsKind(k, k) && (k.Submessage? ==> Descriptor(k.fields))
    ensures DecodeValue(k, Default(k), EncodeValue(k, v)[..n]) == None
  {
    var whole := EncodeValue(k, v);
    var s, t := whole[..n], whole[n..];
    assert s + t == whole && whole + [] == whole;
    ValueRoundTrip(k, k, v, []);
    if DecodeValue(k, Default(k), s).Some? {
      LongerValue(k, Default(k), s, t);
    }
  }

  /** It is not skipped either. */
  lemma {:induction false} TruncatedNotSkipped(k: Kind, v: Value, n: nat)
    requires Typed(k, v) && |EncodeValue(k, v)| < TWO_32 && n < |EncodeValue(k, v)|
    ensures SkipField(WireNumber(WireTypeOf(k)), EncodeValue(k, v)[..n]) == None
  {
    var whole, w := EncodeValue(k, v), WireNumber(WireTypeOf(k));
    var s, t := whole[..n], whole[n..];
    assert s + t == whole && whole + [] == whole;
    SkipExact(k, v, []);
    if SkipField(w, s).Some? {
      LongerSkip(w, s, t);
    }
  }

  /** A field that the reader does not know is refused with any wire type but those of numbers, bytes and fixed widths. */
  lemma OddWireTypeRefused(fields: seq<Field>, p: Progress, tag: nat, w: nat, rest: Bytes)
    requires |p.slots| == |fields| && FindField(fields, tag) == None && 1 <= tag < 0x2000_0000 && w in {3, 4, 6, 7}
    ensures DecodeFields(fields, p, Varint(tag * 8 + w) + rest) == None
  {
    var key := tag * 8 + w;
    Varint32RoundTrip(key, rest);
    Suffix(Varint(key), rest, |Varint(key)|);
    KeyParts(tag, w);
    TagFromKey(Varint(key) + rest, key, |Varint(key)|, rest);
  }

  // ---------- Other forms ----------

  /** A key of zero ends the message, whatever follows. */
  lemma ZeroEnds(fields: seq<Field>, p: Progress, rest: Bytes)
    requires |p.slots| == |fields|
    ensures DecodeFields(fields, p, [0] + rest) == Some(p)
  {
  }

  /** The wire type of a key decides between a packed array and a single entry, and nothing else. */
  lemma WireTypeIgnored(f: Field, slot: Slot, w: nat, x: nat, s: Bytes)
    requires !(f.rule.Repeated? && Packable(f.kind)) || (w != 2 && x != 2)
    ensures DecodeSlot(f, slot, w, s) == DecodeSlot(f, slot, x, s)
  {
  }

  /** Any number but zero is true. */
  lemma AnyBool(value: nat, rest: Bytes)
    requires 0 < value < TWO_32
    ensures DecodeNumber(Bool, Varint(value) + rest) == Some((1, rest))
  {
    Varint32RoundTrip(value, rest);
    SmallMod(value, TWO_32);
    Suffix(Varint(value), rest, |Varint(value)|);
  }

  /** A negative number of up to 32 bits may come without the upper half of its sign extension. */
  lemma ShortNegative(size: nat, n: int, rest: Bytes)
    requires size in {1, 2, 4} && -(Modulus(size) / 2) <= n < 0
    ensures DecodeNumber(VarInt(size), Varint(n + TWO_32) + rest) == Some((n, rest))
  {
    VarintRoundTrip(n + TWO_32, rest);
    Suffix(Varint(n + TWO_32), rest, |Varint(n + TWO_32)|);
  }

  /** A number that its field cannot hold is refused. */
  lemma TooLargeRefused(size: nat, n: nat, rest: Bytes)
    requires IntegerSize(size) && Modulus(size) <= n < TWO_64
    ensures DecodeNumber(UVarInt(size), Varint(n) + rest) == None
  {
    VarintRoundTrip(n, rest);
  }

  /** What a field has that does not occur. */
  lemma DefaultsAre(fields: seq<Field>, i: nat)
    requires i < |fields|
    ensures fields[i].rule == Optional ==> Defaults(fields)[i] == Absent
    ensures fields[i].rule.Repeated? ==> Defaults(fields)[i] == Many([])
    ensures fields[i].rule == Required && Packable(fields[i].kind) ==> Defaults(fields)[i] == One(Number(0))
    ensures fields[i].rule == Required && (fields[i].kind.BytesField? || fields[i].kind.StringField?) ==> Defaults(fields)[i] == One(Blob([]))
    ensures fields[i].rule == Required && fields[i].kind.Submessage? ==> Defaults(fields)[i] == One(Message(Defaults(fields[i].kind.fields)))
  {
    DefaultAt(fields, i);
  }
}

/** pb_encode: fields are written one after the other, and every length is found by a sizing pass
    over a stream that only counts. */
module Encode {
  import opened FixedBytes
  import opened Varints
  import opened Messages
  import opened Capacities

  /** What has to hold for a stream to take bytes, and what it does with them. */
  twostate predicate Took(stream: OStream, bytes: Bytes)
    reads stream
  {
    && stream.bytesWritten == old(stream.bytesWritten) + |bytes|
    && stream.written == old(stream.written) + if stream.sizing then [] else bytes
  }

  /** The outcome of encoding something that takes these bytes: it succeeds exactly when nothing is
      refused and the bytes fit, and then the stream has taken them. */
  twostate predicate Outcome(stream: OStream, ok: bool, refused: bool, bytes: Bytes)
    reads stream
  {
    && (ok <==> !refused && old(stream.Fits(|bytes|)))
    && (ok ==> Took(stream, bytes))
    && old(stream.bytesWritten) <= stream.bytesWritten
    && (!stream.sizing && old(stream.bytesWritten <= stream.maxSize) ==> stream.bytesWritten <= stream.maxSize)
  }

  method EncodeFixedWidth(stream: OStream, n: nat, count: nat) returns (ok: bool)
    modifies stream
    ensures Outcome(stream, ok, false, EncodeFixed(n, count)) && |EncodeFixed(n, count)| == count
  {
    FixedLength(n, count);
    var bytes: Bytes := [];
    var rest, i := n, 0;
    while i < count
      invariant 0 <= i <= count && EncodeFixed(n, count) == bytes + EncodeFixed(rest, count - i)
    {
      bytes := bytes + [rest % 256];
      rest := rest / 256;
      i := i + 1;
    }
    ok := stream.Write(bytes);
  }

  lemma {:induction false} FixedLength(n: nat, count: nat)
    ensures |EncodeFixed(n, count)| == count
  {
    if count > 0 {
      FixedLength(n / 256, count - 1);
    }
  }

  /** pb_encode_tag */
  method EncodeTag(stream: OStream, f: Field, w: WireType) returns (ok: bool)
    requires f.tag < 0x2000_0000
    modifies stream
    ensures Outcome(stream, ok, false, Key(f, w))
  {
    ok := EncodeVarint(stream, f.tag * 8 + WireNumber(w));
  }

  /** pb_encode_string */
  method EncodeString(stream: OStream, bytes: Bytes) returns (ok: bool)
    requires |bytes| < TWO_64
    modifies stream
    ensures Outcome(stream, ok, false, Prefixed(bytes))
  {
    ok := EncodeVarint(stream, |bytes|);
    if ok {
      ok := stream.Write(bytes);
    }
  }

  /** The buffer is not overrun so far. */
  predicate Sound(stream: OStream)
    reads stream
  {
    stream.sizing || stream.bytesWritten <= stream.maxSize
  }

  /** One scalar, string, bytes or submessage value, through the encoder of its kind. */
  method EncodeOne(stream: OStream, k: Kind, v: Value) returns (ok: bool)
    requires Typed(k, v) && WellFormedKind(k) && Sound(stream) && |EncodeValue(k, v)| < TWO_64
    modifies stream
    ensures Outcome(stream, ok, !Encodable(k, v), EncodeValue(k, v))
    decreases k, 4
  {
    match k
    case Bool => ok := EncodeVarint(stream, v.n);
    case VarInt(size) => ok := EncodeVarint(stream, Unsigned(v.n));
    case UVarInt(size) => ok := EncodeVarint(stream, v.n);
    case SVarInt(size) =>
      ZigZagRoundTrip(v.n, 0);
      ok := EncodeVarint(stream, ZigZag(v.n));
    case Fixed32 => ok := EncodeFixedWidth(stream, v.n, 4);
    case Fixed64 => ok := EncodeFixedWidth(stream, v.n, 8);
    case BytesField(capacity) =>
      if |v.bytes| > capacity {
        return false;
      }
      ok := EncodeString(stream, v.bytes);
    case StringField(_) => ok := EncodeString(stream, v.bytes);
    case Submessage(fields) => ok := EncodeSubmessage(stream, fields, v.slots);
  }

  /** pb_encode_submessage: a sizing pass, the length, and a second pass into a stream of exactly that
      size. The second pass fills it, so the length written is the length of what follows. */
  method EncodeSubmessage(stream: OStream, fields: seq<Field>, slots: seq<Slot>) returns (ok: bool)
    requires TypedMessage(fields, slots) && Descriptor(fields) && Sound(stream)
    requires |Prefixed(EncodeMessage(fields, slots))| < TWO_64
    modifies stream
    ensures Outcome(stream, ok, !EncodableMessage(fields, slots), Prefixed(EncodeMessage(fields, slots)))
    decreases fields, 3
  {
    var sizing := new OStream(true, 0);
    ok := PbEncode(sizing, fields, slots);
    if !ok {
      return;
    }
    var size := sizing.bytesWritten;
    ok := EncodeVarint(stream, size);
    if !ok {
      return;
    }
    if stream.sizing {
      stream.Count(size);
      return true;
    }
    if stream.bytesWritten + size > stream.maxSize {
      return false;
    }
    var substream := new OStream(false, size);
    ok := PbEncode(substream, fields, slots);
    assert ok && substream.bytesWritten == size;
    stream.bytesWritten := stream.bytesWritten + substream.bytesWritten;
    stream.written := stream.written + substream.written;
  }

  /** encode_array */
  method EncodeArray(stream: OStream, f: Field, values: seq<Value>) returns (ok: bool)
    requires f.rule.Repeated? && TypedSlot(f, Many(values)) && WellFormed(f) && f.tag < 0x2000_0000 && Sound(stream)
    requires |EncodeSlot(f, Many(values))| < TWO_64
    modifies stream
    ensures Outcome(stream, ok, !AllWithinRoom(PartsOf(f, Many(values))), EncodeSlot(f, Many(values)))
    decreases f, 2
  {
    EncodablePart(f, Many(values));
    if |values| == 0 {
      return true;
    }
    if |values| > f.rule.arraySize {
      return false;
    }
    if Packable(f.kind) {
      ok := EncodePackedArray(stream, f, values);
    } else {
      ok := EncodeEach(stream, f, values);
    }
  }

  method EncodePackedArray(stream: OStream, f: Field, values: seq<Value>) returns (ok: bool)
    requires Packable(f.kind) && TypedAll(f.kind, values) && f.tag < 0x2000_0000 && Sound(stream)
    requires |Key(f, WtString) + Prefixed(EncodePacked(f.kind, values))| < TWO_64
    modifies stream
    ensures Outcome(stream, ok, false, Key(f, WtString) + Prefixed(EncodePacked(f.kind, values)))
    ensures EncodableAll(f.kind, values)
    decreases f, 1
  {
    NumbersEncodable(f.kind, values);
    ok := EncodeTag(stream, f, WtString);
    if !ok {
      return;
    }
    var size;
    if f.kind == Fixed32 {
      size := 4 * |values|;
      FixedPacked(f.kind, values, 4);
    } else if f.kind == Fixed64 {
      size := 8 * |values|;
      FixedPacked(f.kind, values, 8);
    } else {
      var sizing := new OStream(true, 0);
      ok := EncodeEntries(sizing, f.kind, values);
      size := sizing.bytesWritten;
    }
    ok := EncodeVarint(stream, size);
    if !ok {
      return;
    }
    if stream.sizing {
      stream.Count(size);
      return true;
    }
    ok := EncodeEntries(stream, f.kind, values);
  }

  /** The loop over the entries of a packed array. */
  method EncodeEntries(stream: OStream, k: Kind, values: seq<Value>) returns (ok: bool)
    requires Packable(k) && TypedAll(k, values) && Sound(stream) && |EncodePacked(k, values)| < TWO_64
    modifies stream
    ensures Outcome(stream, ok, false, EncodePacked(k, values))
    decreases k, 5
  {
    var i := 0;
    ghost var done: Bytes, rest := [], EncodePacked(k, values);
    while i < |values|
      invariant 0 <= i <= |values| && TypedAll(k, values[i..]) && Sound(stream)
      invariant rest == EncodePacked(k, values[i..]) && EncodePacked(k, values) == done + rest
      invariant Took(stream, done)
    {
      ghost var head, tail := FirstEntry(k, values, i);
      Regroup(done, head, tail);
      Regroup(old(stream.written), done, head);
      ok := EncodeOne(stream, k, values[i]);
      if !ok {
        return;
      }
      done, rest := done + head, tail;
      i := i + 1;
    }
    ok := true;
  }

  /** The loop over the entries of an array that cannot be packed: each has its own key. */
  method EncodeEach(stream: OStream, f: Field, values: seq<Value>) returns (ok: bool)
    requires TypedAll(f.kind, values) && WellFormed(f) && f.tag < 0x2000_0000 && Sound(stream) && |EncodeRepeated(f, values)| < TWO_64
    modifies stream
    ensures Outcome(stream, ok, !EncodableAll(f.kind, values), EncodeRepeated(f, values))
    decreases f, 1
  {
    var i := 0;
    ghost var done: Bytes, rest := [], EncodeRepeated(f, values);
    while i < |values|
      invariant 0 <= i <= |values| && TypedAll(f.kind, values[i..]) && Sound(stream)
      invariant rest == EncodeRepeated(f, values[i..]) && EncodeRepeated(f, values) == done + rest
      invariant EncodableAll(f.kind, values) <==> EncodableAll(f.kind, values[i..])
      invariant Took(stream, done)
    {
      ghost var head, tail := FirstOfEach(f, values, i);
      Regroup(done, head, tail);
      Regroup(old(stream.written), done, head);
      ok := EncodeWithKey(stream, f, values[i]);
      if !ok {
        return;
      }
      done, rest := done + head, tail;
      i := i + 1;
    }
    ok := true;
  }

  method EncodeWithKey(stream: OStream, f: Field, v: Value) returns (ok: bool)
    requires Typed(f.kind, v) && WellFormed(f) && f.tag < 0x2000_0000 && Sound(stream)
    requires |Key(f, WireTypeOf(f.kind)) + EncodeValue(f.kind, v)| < TWO_64
    modifies stream
    ensures Outcome(stream, ok, !Encodable(f.kind, v), Key(f, WireTypeOf(f.kind)) + EncodeValue(f.kind, v))
    decreases f, 0
  {
    ok := EncodeTag(stream, f, WireTypeOf(f.kind));
    if ok {
      ok := EncodeOne(stream, f.kind, v);
    }
  }

  /** encode_basic_field */
  method EncodeBasicField(stream: OStream, f: Field, slot: Slot) returns (ok: bool)
    requires TypedSlot(f, slot) && WellFormed(f) && f.tag < 0x2000_0000 && Sound(stream) && |EncodeSlot(f, slot)| < TWO_64
    modifies stream
    ensures Outcome(stream, ok, !EncodableSlot(f, slot), EncodeSlot(f, slot))
    decreases f, 3
  {
    match f.rule
    case Repeated(_) =>
      EncodablePart(f, slot);
      ok := EncodeArray(stream, f, slot.values);
    case _ =>
      if slot == Absent {
        return true;
      }
      ok := EncodeWithKey(stream, f, slot.value);
  }

  /** pb_encode. Into a buffer it succeeds exactly when a sizing pass succeeds and the size found there
      fits, and then writes exactly that many bytes. */
  method PbEncode(stream: OStream, fields: seq<Field>, slots: seq<Slot>) returns (ok: bool)
    requires TypedMessage(fields, slots) && Descriptor(fields) && Sound(stream) && |EncodeMessage(fields, slots)| < TWO_64
    modifies stream
    ensures Outcome(stream, ok, !EncodableMessage(fields, slots), EncodeMessage(fields, slots))
    decreases fields, 2
  {
    ok := EncodeFields(stream, fields, slots);
  }

  ghost predicate Fine(f: Field) {
    f.tag < 0x2000_0000 && WellFormed(f)
  }

  /** The loop of pb_encode. */
  method EncodeFields(stream: OStream, fields: seq<Field>, slots: seq<Slot>) returns (ok: bool)
    requires TypedMessage(fields, slots) && Sound(stream) && |EncodeMessage(fields, slots)| < TWO_64
    requires forall i {:trigger Fine(fields[i])} :: 0 <= i < |fields| ==> Fine(fields[i])
    modifies stream
    ensures Outcome(stream, ok, !EncodableMessage(fields, slots), EncodeMessage(fields, slots))
    decreases fields, 1
  {
    var i := 0;
    ghost var done: Bytes, rest := [], EncodeMessage(fields, slots);
    while i < |fields|
      invariant 0 <= i <= |fields| && TypedMessage(fields[i..], slots[i..]) && Sound(stream)
      invariant rest == EncodeMessage(fields[i..], slots[i..]) && EncodeMessage(fields, slots) == done + rest
      invariant EncodableMessage(fields, slots) <==> EncodableMessage(fields[i..], slots[i..])
      invariant Took(stream, done)
    {
      ghost var head, tail := FirstSlot(fields, slots, i);
      Regroup(done, head, tail);
      Regroup(old(stream.written), done, head);
      assert Fine(fields[i]);
      ok := EncodeBasicField(stream, fields[i], slots[i]);
      if !ok {
        return;
      }
      done, rest := done + head, tail;
      i := i + 1;
    }
    ok := true;
  }

  /** pb_get_encoded_size, and then pb_encode into a buffer of n bytes: the first succeeds exactly when every array and
      all bytes are within their room, the second exactly when the first does and the size is at most n, and it writes
      exactly that many bytes. */
  method SizeThenEncode(fields: seq<Field>, slots: seq<Slot>, n: nat) returns (sized: bool, size: nat, ok: bool, written: Bytes)
    requires TypedMessage(fields, slots) && Descriptor(fields) && |EncodeMessage(fields, slots)| < TWO_64
    ensures sized <==> AllWithinRoom(PartsIn(fields, slots))
    ensures ok <==> sized && size <= n
    ensures sized ==> size == |EncodeMessage(fields, slots)|
    ensures ok ==> |written| == size && written == EncodeMessage(fields, slots)
  {
    var sizing := new OStream(true, 0);
    sized := PbEncode(sizing, fields, slots);
    size := sizing.bytesWritten;
    var stream := new OStream(false, n);
    ok := PbEncode(stream, fields, slots);
    written := stream.written;
    EncodableExactly(fields, slots);
  }

  lemma FirstSlot(fields: seq<Field>, slots: seq<Slot>, i: nat) returns (head: Bytes, tail: Bytes)
    requires i < |fields| == |slots| && TypedMessage(fields[i..], slots[i..])
    ensures TypedSlot(fields[i], slots[i]) && head == EncodeSlot(fields[i], slots[i])
    ensures TypedMessage(fields[i + 1..], slots[i + 1..]) && tail == EncodeMessage(fields[i + 1..], slots[i + 1..])
    ensures EncodeMessage(fields[i..], slots[i..]) == head + tail
    ensures EncodableMessage(fields[i..], slots[i..]) <==>
              EncodableSlot(fields[i], slots[i]) && EncodableMessage(fields[i + 1..], slots[i + 1..])
  {
    assert fields[i..][0] == fields[i] && fields[i..][1..] == fields[i + 1..];
    assert slots[i..][0] == slots[i] && slots[i..][1..] == slots[i + 1..];
    head, tail := EncodeSlot(fields[i], slots[i]), EncodeMessage(fields[i + 1..], slots[i + 1..]);
  }

  lemma FirstEntry(k: Kind, values: seq<Value>, i: nat) returns (head: Bytes, tail: Bytes)
    requires i < |values| && TypedAll(k, values[i..])
    ensures Typed(k, values[i]) && head == EncodeValue(k, values[i])
    ensures TypedAll(k, values[i + 1..]) && tail == EncodePacked(k, values[i + 1..])
    ensures EncodePacked(k, values[i..]) == head + tail
  {
    assert values[i..][0] == values[i] && values[i..][1..] == values[i + 1..];
    head, tail := EncodeValue(k, values[i]), EncodePacked(k, values[i + 1..]);
  }

  lemma FirstOfEach(f: Field, values: seq<Value>, i: nat) returns (head: Bytes, tail: Bytes)
    requires i < |values| && TypedAll(f.kind, values[i..])
    ensures Typed(f.kind, values[i]) && head == Key(f, WireTypeOf(f.kind)) + EncodeValue(f.kind, values[i])
    ensures TypedAll(f.kind, values[i + 1..]) && tail == EncodeRepeated(f, values[i + 1..])
    ensures EncodeRepeated(f, values[i..]) == head + tail
    ensures EncodableAll(f.kind, values[i..]) <==> Encodable(f.kind, values[i]) && EncodableAll(f.kind, values[i + 1..])
  {
    assert values[i..][0] == values[i] && values[i..][1..] == values[i + 1..];
    head, tail := Key(f, WireTypeOf(f.kind)) + EncodeValue(f.kind, values[i]), EncodeRepeated(f, values[i + 1..]);
  }

  lemma Regroup(a: Bytes, b: Bytes, c: Bytes)
    ensures a + (b + c) == a + b + c
  {
  }

  lemma {:induction false} NumbersEncodable(k: Kind, values: seq<Value>)
    requires Packable(k) && TypedAll(k, values)
    ensures EncodableAll(k, values)
  {
    if values != [] {
      NumbersEncodable(k, values[1..]);
    }
  }

  lemma {:induction false} FixedPacked(k: Kind, values: seq<Value>, width: nat)
    requires (k == Fixed32 && width == 4) || (k == Fixed64 && width == 8)
    requires TypedAll(k, values)
    ensures |EncodePacked(k, values)| == width * |values|
  {
    if values != [] {
      FixedLength(values[0].n, width);
      FixedPacked(k, values[1..], width);
    }
  }

  ghost predicate WellFormedKind(k: Kind) {
    k.Submessage? ==> Descriptor(k.fields)
  }
}

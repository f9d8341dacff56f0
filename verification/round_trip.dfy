/** Decoding what pb_encode wrote: a reader whose descriptors list any subset of the writer's fields
    gets those fields back and passes over the others. */
module RoundTrip {
  import opened FixedBytes
  import opened Options
  import opened Varints
  import opened Messages
  import opened Decode

  // ---------- Readers and writers ----------

  /** The reader's field means what the writer's does, as far as the reader looks. */
  predicate ReadsKind(r: Kind, w: Kind)
    decreases r, 0
  {
    if r.Submessage? then w.Submessage? && ReadsFields(r.fields, w.fields) else r == w
  }

  predicate ReadsField(r: Field, w: Field)
    decreases r, 1
  {
    r.tag == w.tag && r.rule == w.rule && ReadsKind(r.kind, w.kind)
  }

  /** Each of the reader's fields is one of the writer's. */
  predicate ReadsFields(R: seq<Field>, W: seq<Field>)
    decreases R, 0
  {
    R == [] || (FindField(W, R[0].tag).Some? && ReadsField(R[0], W[FindField(W, R[0].tag).value]) && ReadsFields(R[1..], W))
  }

  /** The field that slot j of the reader comes from. */
  function Source(R: seq<Field>, W: seq<Field>, j: nat): (i: nat)
    requires ReadsFields(R, W) && j < |R|
    ensures i < |W| && FindField(W, R[j].tag) == Some(i) && ReadsField(R[j], W[i])
  {
    if j == 0 then FindField(W, R[0].tag).value else Source(R[1..], W, j - 1)
  }

  /** What the reader is to find. */
  function ProjectValue(r: Kind, w: Kind, v: Value): Value
    requires ReadsKind(r, w) && Typed(w, v)
    decreases r, 0
  {
    if r.Submessage? then Message(ProjectMessage(r.fields, w.fields, v.slots)) else v
  }

  function ProjectAll(r: Kind, w: Kind, values: seq<Value>): (p: seq<Value>)
    requires ReadsKind(r, w) && TypedAll(w, values)
    ensures |p| == |values|
    decreases r, 1, |values|
  {
    if values == [] then [] else [ProjectValue(r, w, values[0])] + ProjectAll(r, w, values[1..])
  }

  function ProjectSlot(r: Field, w: Field, s: Slot): Slot
    requires ReadsField(r, w) && TypedSlot(w, s)
    decreases r, 1
  {
    match s
    case Absent => Absent
    case One(v) => One(ProjectValue(r.kind, w.kind, v))
    case Many(values) => Many(ProjectAll(r.kind, w.kind, values))
  }

  function ProjectMessage(R: seq<Field>, W: seq<Field>, slots: seq<Slot>): (p: seq<Slot>)
    requires ReadsFields(R, W) && TypedMessage(W, slots)
    ensures |p| == |R|
    decreases R, 0
  {
    if R == [] then []
    else
      var i := FindField(W, R[0].tag).value;
      TypedAt(W, slots, i);
      [ProjectSlot(R[0], W[i], slots[i])] + ProjectMessage(R[1..], W, slots)
  }

  lemma {:induction false} TypedAt(W: seq<Field>, slots: seq<Slot>, i: nat)
    requires TypedMessage(W, slots) && i < |W|
    ensures |slots| == |W| && TypedSlot(W[i], slots[i])
    decreases i
  {
    if i > 0 {
      TypedAt(W[1..], slots[1..], i - 1);
    }
  }

  // ---------- What can be sent ----------

  /** Arrays and bytes fit their room, and strings leave room for their final zero. */
  predicate Sendable(k: Kind, v: Value)
    requires Typed(k, v)
    decreases k, 0
  {
    match k
    case BytesField(capacity) => |v.bytes| <= capacity
    case StringField(dataSize) => |v.bytes| < dataSize
    case Submessage(fields) => SendableMessage(fields, v.slots)
    case _ => true
  }

  predicate SendableAll(k: Kind, values: seq<Value>)
    requires TypedAll(k, values)
    decreases k, 1, |values|
  {
    values == [] || (Sendable(k, values[0]) && SendableAll(k, values[1..]))
  }

  predicate SendableSlot(f: Field, s: Slot)
    requires TypedSlot(f, s)
    decreases f, 1
  {
    match s
    case Absent => true
    case One(v) => Sendable(f.kind, v)
    case Many(values) => |values| <= f.rule.arraySize && SendableAll(f.kind, values)
  }

  predicate SendableMessage(fields: seq<Field>, slots: seq<Slot>)
    requires TypedMessage(fields, slots)
    decreases fields, 0
  {
    fields == [] || (SendableSlot(fields[0], slots[0]) && SendableMessage(fields[1..], slots[1..]))
  }

  // ---------- What can be read ----------

  /** Of the strings that the reader looks at, each leaves room for its final zero. The encoder writes
      the others all the same. */
  predicate Readable(r: Kind, w: Kind, v: Value)
    requires ReadsKind(r, w) && Typed(w, v)
    decreases r, 0
  {
    match r
    case StringField(dataSize) => |v.bytes| < dataSize
    case Submessage(fields) => ReadableMessage(fields, w.fields, v.slots)
    case _ => true
  }

  predicate ReadableAll(r: Kind, w: Kind, values: seq<Value>)
    requires ReadsKind(r, w) && TypedAll(w, values)
    decreases r, 1, |values|
  {
    values == [] || (Readable(r, w, values[0]) && ReadableAll(r, w, values[1..]))
  }

  predicate ReadableSlot(r: Field, w: Field, s: Slot)
    requires ReadsField(r, w) && TypedSlot(w, s)
    decreases r, 1
  {
    match s
    case Absent => true
    case One(v) => Readable(r.kind, w.kind, v)
    case Many(values) => ReadableAll(r.kind, w.kind, values)
  }

  predicate ReadableMessage(R: seq<Field>, W: seq<Field>, slots: seq<Slot>)
    requires ReadsFields(R, W) && TypedMessage(W, slots)
    decreases R, 0
  {
    forall j :: 0 <= j < |R| ==>
      (TypedAt(W, slots, Source(R, W, j)); ReadableSlot(R[j], W[Source(R, W, j)], slots[Source(R, W, j)]))
  }

  // ---------- Numbers ----------

  lemma FixedBefore(n: nat, count: nat, rest: Bytes)
    requires n < Power256(count)
    ensures |EncodeFixed(n, count)| == count && DecodeFixed(EncodeFixed(n, count)) == n
    ensures (EncodeFixed(n, count) + rest)[..count] == EncodeFixed(n, count) && (EncodeFixed(n, count) + rest)[count..] == rest
  {
    FixedRoundTrip(n, count);
  }

  lemma Cut(a: Bytes, rest: Bytes)
    ensures (a + rest)[|a|..] == rest && (a + rest)[..|a|] == a
  {
  }

  lemma SignedRoundTrip(size: nat, n: int)
    requires IntegerSize(size) && -(Modulus(size) / 2) <= n < Modulus(size) / 2
    ensures Unsigned(n) < TWO_64
    ensures (if size == 8 then Signed(Unsigned(n), TWO_64) else Signed(Unsigned(n), TWO_32)) == n
  {
  }

  /** Every number that its field can hold comes back. */
  lemma NumberRoundTrip(k: Kind, n: int, rest: Bytes)
    requires Packable(k) && InRange(k, n)
    ensures DecodeNumber(k, EncodeValue(k, Number(n)) + rest) == Some((n, rest))
  {
    Cut(EncodeValue(k, Number(n)), rest);
    match k
    case Bool => Varint32RoundTrip(n, rest);
    case VarInt(size) =>
      SignedRoundTrip(size, n);
      VarintRoundTrip(Unsigned(n), rest);
    case UVarInt(size) => VarintRoundTrip(n, rest);
    case SVarInt(size) =>
      ZigZagRoundTrip(n, 0);
      VarintRoundTrip(ZigZag(n), rest);
    case Fixed32 =>
      assert Power256(4) == TWO_32;
      FixedBefore(n, 4, rest);
    case Fixed64 =>
      assert Power256(8) == TWO_64;
      FixedBefore(n, 8, rest);
  }

  lemma DelimitedRoundTrip(body: Bytes, rest: Bytes)
    requires |body| < TWO_32
    ensures Delimited(Prefixed(body) + rest) == Some((body, rest))
  {
    var prefix := Varint(|body|);
    assert Prefixed(body) + rest == prefix + (body + rest);
    Varint32RoundTrip(|body|, body + rest);
    SmallMod(|body|, TWO_32);
    DelimitedAt(prefix + (body + rest), prefix, body, rest);
  }

  lemma DelimitedAt(s: Bytes, prefix: Bytes, body: Bytes, rest: Bytes)
    requires s == prefix + (body + rest) && Decode32(s) == Decoded(|body|, |prefix|)
    ensures Delimited(s) == Some((body, rest))
  {
    assert s[|prefix|..|prefix| + |body|] == body && s[|prefix| + |body|..] == rest;
  }

  lemma CStringWhole(bytes: Bytes)
    requires 0 !in bytes
    ensures CString(bytes) == bytes
  {
  }

  lemma TagRoundTrip(f: Field, w: WireType, rest: Bytes)
    requires 1 <= f.tag < 0x2000_0000
    ensures Key(f, w) + rest != [] && DecodeTag(Key(f, w) + rest) == Tag(f.tag, WireNumber(w), rest)
  {
    var key := f.tag * 8 + WireNumber(w);
    Varint32RoundTrip(key, rest);
    Cut(Key(f, w), rest);
    KeyParts(f.tag, WireNumber(w));
    TagFromKey(Key(f, w) + rest, key, |Key(f, w)|, rest);
  }

  lemma KeyParts(tag: nat, w: nat)
    requires 1 <= tag < 0x2000_0000 && w < 8
    ensures 0 < tag * 8 + w < TWO_32 && (tag * 8 + w) % TWO_32 == tag * 8 + w
    ensures (tag * 8 + w) / 8 == tag && (tag * 8 + w) % 8 == w
  {
  }

  lemma TagFromKey(s: Bytes, key: nat, used: nat, rest: Bytes)
    requires s != [] && used <= |s| && Decode32(s) == Decoded(key, used) && s[used..] == rest && key > 0
    ensures DecodeTag(s) == Tag(key / 8, key % 8, rest)
  {
  }

  // ---------- Passing over ----------

  lemma {:induction false} SkipVarintExact(value: nat, rest: Bytes)
    ensures SkipVarint(Varint(value) + rest) == Some(rest)
  {
    var s := Varint(value) + rest;
    if value < 128 {
      assert s[1..] == rest;
    } else {
      assert s[1..] == Varint(value / 128) + rest;
      SkipVarintExact(value / 128, rest);
    }
  }

  /** pb_skip_field passes over exactly one value of the wire type. */
  lemma SkipExact(k: Kind, v: Value, rest: Bytes)
    requires Typed(k, v) && |EncodeValue(k, v)| < TWO_32
    ensures SkipField(WireNumber(WireTypeOf(k)), EncodeValue(k, v) + rest) == Some(rest)
  {
    match k
    case Bool => SkipVarintExact(v.n, rest);
    case VarInt(size) => SkipVarintExact(Unsigned(v.n), rest);
    case UVarInt(size) => SkipVarintExact(v.n, rest);
    case SVarInt(size) =>
      ZigZagRoundTrip(v.n, 0);
      SkipVarintExact(ZigZag(v.n), rest);
    case Fixed32 =>
      assert Power256(4) == TWO_32;
      FixedBefore(v.n, 4, rest);
    case Fixed64 =>
      assert Power256(8) == TWO_64;
      FixedBefore(v.n, 8, rest);
    case BytesField(_) => DelimitedRoundTrip(v.bytes, rest);
    case StringField(_) => DelimitedRoundTrip(v.bytes, rest);
    case Submessage(fields) => DelimitedRoundTrip(EncodeMessage(fields, v.slots), rest);
  }

  lemma StepUnknown(R: seq<Field>, p: Progress, s: Bytes, tag: nat, wireType: nat, rest: Bytes, after: Bytes)
    requires |p.slots| == |R| && s != [] && DecodeTag(s) == Tag(tag, wireType, rest)
    requires FindField(R, tag) == None && tag != 0 && SkipField(wireType, rest) == Some(after)
    ensures DecodeFields(R, p, s) == DecodeFields(R, p, after)
  {
  }

  lemma StepRefused(R: seq<Field>, p: Progress, s: Bytes, tag: nat, wireType: nat, rest: Bytes, j: nat)
    requires |p.slots| == |R| && s != [] && DecodeTag(s) == Tag(tag, wireType, rest) && j < |R|
    requires FindField(R, tag) == Some(j) && DecodeSlot(R[j], p.slots[j], wireType, rest) == None
    ensures DecodeFields(R, p, s) == None
  {
  }

  lemma StepKnown(R: seq<Field>, p: Progress, s: Bytes, tag: nat, wireType: nat, rest: Bytes, j: nat, slot: Slot, after: Bytes)
    requires |p.slots| == |R| && s != [] && DecodeTag(s) == Tag(tag, wireType, rest) && j < |R|
    requires FindField(R, tag) == Some(j) && DecodeSlot(R[j], p.slots[j], wireType, rest) == Some((slot, after))
    ensures DecodeFields(R, p, s) == DecodeFields(R, Progress(p.slots[j := slot], p.seen + {j}), after)
  {
  }

  lemma Join(a: Bytes, b: Bytes, c: Bytes)
    ensures a + b + c == a + (b + c)
  {
  }

  /** A field that the reader does not know leaves nothing behind. */
  lemma UnknownSlot(R: seq<Field>, p: Progress, f: Field, s: Slot, rest: Bytes)
    requires |p.slots| == |R| && FindField(R, f.tag) == None && 1 <= f.tag < 0x2000_0000
    requires TypedSlot(f, s) && |EncodeSlot(f, s)| < TWO_32
    ensures DecodeFields(R, p, EncodeSlot(f, s) + rest) == DecodeFields(R, p, rest)
  {
    match s
    case Absent => assert [] + rest == rest;
    case One(v) => UnknownValue(R, p, f, v, rest);
    case Many(values) =>
      if values == [] {
        assert [] + rest == rest;
      } else if Packable(f.kind) {
        var body := EncodePacked(f.kind, values);
        Join(Key(f, WtString), Prefixed(body), rest);
        TagRoundTrip(f, WtString, Prefixed(body) + rest);
        DelimitedRoundTrip(body, rest);
        StepUnknown(R, p, EncodeSlot(f, s) + rest, f.tag, 2, Prefixed(body) + rest, rest);
      } else {
        UnknownRepeated(R, p, f, values, rest);
      }
  }

  lemma UnknownValue(R: seq<Field>, p: Progress, f: Field, v: Value, rest: Bytes)
    requires |p.slots| == |R| && FindField(R, f.tag) == None && 1 <= f.tag < 0x2000_0000
    requires Typed(f.kind, v) && |EncodeValue(f.kind, v)| < TWO_32
    ensures DecodeFields(R, p, Key(f, WireTypeOf(f.kind)) + EncodeValue(f.kind, v) + rest) == DecodeFields(R, p, rest)
  {
    var w, body := WireTypeOf(f.kind), EncodeValue(f.kind, v);
    Join(Key(f, w), body, rest);
    TagRoundTrip(f, w, body + rest);
    SkipExact(f.kind, v, rest);
    StepUnknown(R, p, Key(f, w) + body + rest, f.tag, WireNumber(w), body + rest, rest);
  }

  lemma {:induction false} UnknownRepeated(R: seq<Field>, p: Progress, f: Field, values: seq<Value>, rest: Bytes)
    requires |p.slots| == |R| && FindField(R, f.tag) == None && 1 <= f.tag < 0x2000_0000
    requires TypedAll(f.kind, values) && |EncodeRepeated(f, values)| < TWO_32
    ensures DecodeFields(R, p, EncodeRepeated(f, values) + rest) == DecodeFields(R, p, rest)
    decreases |values|
  {
    if values == [] {
      assert [] + rest == rest;
    } else {
      var head, tail := Key(f, WireTypeOf(f.kind)) + EncodeValue(f.kind, values[0]), EncodeRepeated(f, values[1..]);
      Join(head, tail, rest);
      UnknownValue(R, p, f, values[0], tail + rest);
      UnknownRepeated(R, p, f, values[1..], rest);
    }
  }

  // ---------- Reading ----------

  lemma {:induction false} PackedRoundTrip(k: Kind, arraySize: nat, prefix: seq<Value>, values: seq<Value>)
    requires Packable(k) && TypedAll(k, values) && |prefix| + |values| <= arraySize
    ensures DecodePacked(k, arraySize, prefix, EncodePacked(k, values)) == Some(prefix + values)
    decreases |values|
  {
    if values == [] {
      assert prefix + values == prefix;
    } else {
      var tail := EncodePacked(k, values[1..]);
      NumberRoundTrip(k, values[0].n, tail);
      assert Number(values[0].n) == values[0];
      PackedRoundTrip(k, arraySize, prefix + [values[0]], values[1..]);
      assert prefix + [values[0]] + values[1..] == prefix + values;
    }
  }

  lemma {:induction false} NumbersProject(r: Kind, w: Kind, values: seq<Value>)
    requires ReadsKind(r, w) && TypedAll(w, values) && Packable(w)
    ensures r == w && ProjectAll(r, w, values) == values && ReadableAll(r, w, values)
    decreases |values|
  {
    if values != [] {
      NumbersProject(r, w, values[1..]);
    }
  }

  lemma BlobRoundTrip(k: Kind, v: Value, rest: Bytes)
    requires (k.BytesField? || k.StringField?) && Typed(k, v) && Encodable(k, v) && |EncodeValue(k, v)| < TWO_32
    ensures DecodeValue(k, Default(k), EncodeValue(k, v) + rest) == if Readable(k, k, v) then Some((v, rest)) else None
  {
    DelimitedRoundTrip(v.bytes, rest);
    if k.StringField? {
      CStringWhole(v.bytes);
    }
  }

  lemma MergedInto(r: Kind, s: Bytes, body: Bytes, rest: Bytes)
    requires r.Submessage? && Delimited(s) == Some((body, rest))
    ensures DecodeValue(r, Default(r), s)
      == var m := PbDecode(r.fields, body); if m == None then None else Some((Message(m.value), rest))
  {
  }

  /** One value of a field comes back, and nothing after it is touched, or it is refused. */
  lemma {:induction false} ValueRoundTrip(r: Kind, w: Kind, v: Value, rest: Bytes)
    requires ReadsKind(r, w) && Typed(w, v) && Encodable(w, v) && |EncodeValue(w, v)| < TWO_32
    requires r.Submessage? ==> Descriptor(r.fields) && Descriptor(w.fields)
    ensures DecodeValue(r, Default(r), EncodeValue(w, v) + rest)
      == if Readable(r, w, v) then Some((ProjectValue(r, w, v), rest)) else None
    decreases w, 0
  {
    match w
    case BytesField(_) => BlobRoundTrip(w, v, rest);
    case StringField(_) => BlobRoundTrip(w, v, rest);
    case Submessage(fields) =>
      DelimitedRoundTrip(EncodeMessage(fields, v.slots), rest);
      MessageRoundTrip(r.fields, fields, v.slots);
      MergedInto(r, EncodeValue(w, v) + rest, EncodeMessage(fields, v.slots), rest);
    case _ => NumberRoundTrip(w, v.n, rest);
  }

  lemma {:induction false} ProjectAt(R: seq<Field>, W: seq<Field>, slots: seq<Slot>, j: nat)
    requires ReadsFields(R, W) && TypedMessage(W, slots) && j < |R|
    ensures TypedSlot(W[Source(R, W, j)], slots[Source(R, W, j)])
    ensures ProjectMessage(R, W, slots)[j] == ProjectSlot(R[j], W[Source(R, W, j)], slots[Source(R, W, j)])
    decreases j
  {
    TypedAt(W, slots, Source(R, W, j));
    if j > 0 {
      ProjectAt(R[1..], W, slots, j - 1);
    }
  }

  lemma {:induction false} DefaultAt(R: seq<Field>, j: nat)
    requires j < |R|
    ensures Defaults(R)[j] == DefaultSlot(R[j])
    decreases j
  {
    if j > 0 {
      DefaultAt(R[1..], j - 1);
    }
  }

  /** Something of the field was written. */
  predicate Written(s: Slot) {
    s.One? || (s.Many? && s.values != [])
  }

  /** A field that the reader knows goes where it belongs. */
  lemma {:induction false} KnownSlot(R: seq<Field>, p: Progress, j: nat, f: Field, s: Slot, rest: Bytes)
    requires |p.slots| == |R| && j < |R| && FindField(R, f.tag) == Some(j) && 1 <= f.tag < 0x2000_0000
    requires ReadsField(R[j], f) && WellFormed(R[j]) && WellFormed(f) && p.slots[j] == DefaultSlot(R[j])
    requires TypedSlot(f, s) && EncodableSlot(f, s) && |EncodeSlot(f, s)| < TWO_32
    ensures var q := Progress(p.slots[j := ProjectSlot(R[j], f, s)], if Written(s) then p.seen + {j} else p.seen);
      DecodeFields(R, p, EncodeSlot(f, s) + rest) == if ReadableSlot(R[j], f, s) then DecodeFields(R, q, rest) else None
    decreases f, 3
  {
    match s
    case Absent =>
      assert [] + rest == rest;
      assert p.slots[j := Absent] == p.slots;
    case One(v) => KnownValue(R, p, j, f, v, rest);
    case Many(values) =>
      if values == [] {
        assert [] + rest == rest;
        assert p.slots[j := Many([])] == p.slots;
      } else if Packable(f.kind) {
        KnownPacked(R, p, j, f, values, rest);
      } else {
        KnownRepeated(R, p, j, f, [], values, rest);
        assert [] + ProjectAll(R[j].kind, f.kind, values) == ProjectAll(R[j].kind, f.kind, values);
      }
  }

  lemma {:induction false} KnownValue(R: seq<Field>, p: Progress, j: nat, f: Field, v: Value, rest: Bytes)
    requires |p.slots| == |R| && j < |R| && FindField(R, f.tag) == Some(j) && 1 <= f.tag < 0x2000_0000
    requires ReadsField(R[j], f) && WellFormed(R[j]) && WellFormed(f) && !f.rule.Repeated? && p.slots[j] == DefaultSlot(R[j])
    requires Typed(f.kind, v) && Encodable(f.kind, v) && |EncodeValue(f.kind, v)| < TWO_32
    ensures var q := Progress(p.slots[j := One(ProjectValue(R[j].kind, f.kind, v))], p.seen + {j});
      DecodeFields(R, p, Key(f, WireTypeOf(f.kind)) + EncodeValue(f.kind, v) + rest)
        == if Readable(R[j].kind, f.kind, v) then DecodeFields(R, q, rest) else None
    decreases f, 2
  {
    var w, body := WireTypeOf(f.kind), EncodeValue(f.kind, v);
    Join(Key(f, w), body, rest);
    TagRoundTrip(f, w, body + rest);
    ValueRoundTrip(R[j].kind, f.kind, v, rest);
    if Readable(R[j].kind, f.kind, v) {
      StepKnown(R, p, Key(f, w) + body + rest, f.tag, WireNumber(w), body + rest, j, One(ProjectValue(R[j].kind, f.kind, v)), rest);
    } else {
      StepRefused(R, p, Key(f, w) + body + rest, f.tag, WireNumber(w), body + rest, j);
    }
  }

  lemma KnownPacked(R: seq<Field>, p: Progress, j: nat, f: Field, values: seq<Value>, rest: Bytes)
    requires |p.slots| == |R| && j < |R| && FindField(R, f.tag) == Some(j) && 1 <= f.tag < 0x2000_0000
    requires ReadsField(R[j], f) && f.rule.Repeated? && Packable(f.kind) && p.slots[j] == Many([])
    requires TypedAll(f.kind, values) && |values| <= f.rule.arraySize
    requires |Key(f, WtString) + Prefixed(EncodePacked(f.kind, values))| < TWO_32
    ensures ReadableAll(R[j].kind, f.kind, values)
    ensures DecodeFields(R, p, Key(f, WtString) + Prefixed(EncodePacked(f.kind, values)) + rest)
         == DecodeFields(R, Progress(p.slots[j := Many(ProjectAll(R[j].kind, f.kind, values))], p.seen + {j}), rest)
  {
    var body := EncodePacked(f.kind, values);
    Join(Key(f, WtString), Prefixed(body), rest);
    TagRoundTrip(f, WtString, Prefixed(body) + rest);
    DelimitedRoundTrip(body, rest);
    PackedRoundTrip(f.kind, f.rule.arraySize, [], values);
    assert [] + values == values;
    NumbersProject(R[j].kind, f.kind, values);
    StepKnown(R, p, Key(f, WtString) + Prefixed(body) + rest, f.tag, 2, Prefixed(body) + rest, j, Many(values), rest);
  }

  lemma {:induction false} KnownRepeated(R: seq<Field>, p: Progress, j: nat, f: Field, prefix: seq<Value>, values: seq<Value>, rest: Bytes)
    requires |p.slots| == |R| && j < |R| && FindField(R, f.tag) == Some(j) && 1 <= f.tag < 0x2000_0000
    requires ReadsField(R[j], f) && WellFormed(R[j]) && WellFormed(f) && f.rule.Repeated? && !Packable(f.kind)
    requires p.slots[j] == Many(prefix) && |prefix| + |values| <= f.rule.arraySize
    requires TypedAll(f.kind, values) && EncodableAll(f.kind, values) && |EncodeRepeated(f, values)| < TWO_32
    ensures var q := Progress(p.slots[j := Many(prefix + ProjectAll(R[j].kind, f.kind, values))], if values != [] then p.seen + {j} else p.seen);
      DecodeFields(R, p, EncodeRepeated(f, values) + rest)
        == if ReadableAll(R[j].kind, f.kind, values) then DecodeFields(R, q, rest) else None
    decreases f, 1, |values|
  {
    if values == [] {
      assert [] + rest == rest;
      assert prefix + [] == prefix && p.slots[j := Many(prefix)] == p.slots;
    } else {
      var v, others, tail := ProjectValue(R[j].kind, f.kind, values[0]), ProjectAll(R[j].kind, f.kind, values[1..]), EncodeRepeated(f, values[1..]);
      var q := Progress(p.slots[j := Many(prefix + [v])], p.seen + {j});
      KnownEntry(R, p, j, f, prefix, values[0], tail + rest);
      RegroupRepeated(Key(f, WireTypeOf(f.kind)) + EncodeValue(f.kind, values[0]), tail, rest);
      if Readable(R[j].kind, f.kind, values[0]) {
        KnownRepeated(R, q, j, f, prefix + [v], values[1..], rest);
        OneAfterAnother(p, j, prefix, v, others);
      }
    }
  }

  lemma OneAfterAnother(p: Progress, j: nat, prefix: seq<Value>, v: Value, others: seq<Value>)
    requires j < |p.slots|
    ensures var q := Progress(p.slots[j := Many(prefix + [v])], p.seen + {j});
      Progress(q.slots[j := Many(prefix + [v] + others)], if others != [] then q.seen + {j} else q.seen)
        == Progress(p.slots[j := Many(prefix + ([v] + others))], p.seen + {j})
  {
    assert prefix + [v] + others == prefix + ([v] + others);
  }

  lemma {:induction false} KnownEntry(R: seq<Field>, p: Progress, j: nat, f: Field, prefix: seq<Value>, v: Value, rest: Bytes)
    requires |p.slots| == |R| && j < |R| && FindField(R, f.tag) == Some(j) && 1 <= f.tag < 0x2000_0000
    requires ReadsField(R[j], f) && WellFormed(R[j]) && WellFormed(f) && f.rule.Repeated? && !Packable(f.kind)
    requires p.slots[j] == Many(prefix) && |prefix| < f.rule.arraySize
    requires Typed(f.kind, v) && Encodable(f.kind, v) && |EncodeValue(f.kind, v)| < TWO_32
    ensures var q := Progress(p.slots[j := Many(prefix + [ProjectValue(R[j].kind, f.kind, v)])], p.seen + {j});
      DecodeFields(R, p, Key(f, WireTypeOf(f.kind)) + EncodeValue(f.kind, v) + rest)
        == if Readable(R[j].kind, f.kind, v) then DecodeFields(R, q, rest) else None
    decreases f, 0
  {
    var w, body := WireTypeOf(f.kind), EncodeValue(f.kind, v);
    Join(Key(f, w), body, rest);
    TagRoundTrip(f, w, body + rest);
    ValueRoundTrip(R[j].kind, f.kind, v, rest);
    if Readable(R[j].kind, f.kind, v) {
      StepKnown(R, p, Key(f, w) + body + rest, f.tag, WireNumber(w), body + rest, j, Many(prefix + [ProjectValue(R[j].kind, f.kind, v)]), rest);
    } else {
      StepRefused(R, p, Key(f, w) + body + rest, f.tag, WireNumber(w), body + rest, j);
    }
  }

  lemma RegroupRepeated(head: Bytes, tail: Bytes, rest: Bytes)
    ensures head + tail + rest == head + (tail + rest)
  {
  }

  // ---------- Whole messages ----------

  /** What the reader has after the writer's first i fields. */
  function After(R: seq<Field>, W: seq<Field>, slots: seq<Slot>, i: nat): (p: Progress)
    requires ReadsFields(R, W) && TypedMessage(W, slots) && i <= |W|
    ensures |p.slots| == |R|
  {
    Progress(
      seq(|R|, j requires 0 <= j < |R| => if Source(R, W, j) < i then ProjectMessage(R, W, slots)[j] else DefaultSlot(R[j])),
      set j | 0 <= j < |R| && Source(R, W, j) < i && Written(slots[Source(R, W, j)]) :: j)
  }

  lemma SourceOf(R: seq<Field>, W: seq<Field>, j: nat, i: nat)
    requires ReadsFields(R, W) && Descriptor(W) && j < |R| && i < |W|
    ensures Source(R, W, j) == i <==> R[j].tag == W[i].tag
  {
  }

  lemma AfterUnknown(R: seq<Field>, W: seq<Field>, slots: seq<Slot>, i: nat)
    requires ReadsFields(R, W) && TypedMessage(W, slots) && Descriptor(W) && i < |W| && FindField(R, W[i].tag) == None
    ensures After(R, W, slots, i + 1) == After(R, W, slots, i)
  {
    forall j | 0 <= j < |R| ensures Source(R, W, j) != i {
      SourceOf(R, W, j, i);
    }
    assert After(R, W, slots, i + 1).slots == After(R, W, slots, i).slots;
    assert After(R, W, slots, i + 1).seen == After(R, W, slots, i).seen;
  }

  lemma AfterKnown(R: seq<Field>, W: seq<Field>, slots: seq<Slot>, i: nat, j: nat)
    requires ReadsFields(R, W) && TypedMessage(W, slots) && Descriptor(W) && Descriptor(R) && i < |W|
    requires j < |R| && FindField(R, W[i].tag) == Some(j)
    ensures Source(R, W, j) == i && ReadsField(R[j], W[i]) && TypedSlot(W[i], slots[i])
    ensures After(R, W, slots, i).slots[j] == DefaultSlot(R[j])
    ensures var p := After(R, W, slots, i);
      After(R, W, slots, i + 1)
        == Progress(p.slots[j := ProjectSlot(R[j], W[i], slots[i])], if Written(slots[i]) then p.seen + {j} else p.seen)
  {
    SourceOf(R, W, j, i);
    ProjectAt(R, W, slots, j);
    forall k | 0 <= k < |R| && k != j ensures Source(R, W, k) != i {
      SourceOf(R, W, k, i);
      assert k < j ==> R[k].tag != R[j].tag;
      assert j < k ==> R[j].tag != R[k].tag;
    }
    var p, q := After(R, W, slots, i), After(R, W, slots, i + 1);
    assert q.slots == p.slots[j := ProjectSlot(R[j], W[i], slots[i])];
    assert q.seen == if Written(slots[i]) then p.seen + {j} else p.seen;
  }

  /** The reader can take what the writer's fields from the i-th on hold for it. */
  predicate ReadableFrom(R: seq<Field>, W: seq<Field>, slots: seq<Slot>, i: nat)
    requires ReadsFields(R, W) && TypedMessage(W, slots)
  {
    forall j :: 0 <= j < |R| && Source(R, W, j) >= i ==>
      (TypedAt(W, slots, Source(R, W, j)); ReadableSlot(R[j], W[Source(R, W, j)], slots[Source(R, W, j)]))
  }

  /** One of the writer's fields, as far as the reader is concerned. */
  predicate SlotReadable(R: seq<Field>, W: seq<Field>, slots: seq<Slot>, i: nat)
    requires ReadsFields(R, W) && TypedMessage(W, slots) && Descriptor(W) && i < |W| == |slots|
  {
    match FindField(R, W[i].tag)
    case None => true
    case Some(j) =>
      SourceOf(R, W, j, i);
      TypedAt(W, slots, i);
      ReadableSlot(R[j], W[i], slots[i])
  }

  lemma ReadableStep(R: seq<Field>, W: seq<Field>, slots: seq<Slot>, i: nat)
    requires ReadsFields(R, W) && Descriptor(R) && Descriptor(W) && TypedMessage(W, slots) && i < |W| == |slots|
    ensures ReadableFrom(R, W, slots, i) <==> SlotReadable(R, W, slots, i) && ReadableFrom(R, W, slots, i + 1)
  {
    forall j | 0 <= j < |R| && Source(R, W, j) == i ensures FindField(R, W[i].tag) == Some(j) {
      SourceOf(R, W, j, i);
      FindsOwn(R, j);
    }
    if FindField(R, W[i].tag).Some? {
      SourceOf(R, W, FindField(R, W[i].tag).value, i);
    }
  }

  lemma EncodableAt(W: seq<Field>, slots: seq<Slot>, i: nat)
    requires i < |W| == |slots| && TypedMessage(W[i..], slots[i..]) && EncodableMessage(W[i..], slots[i..])
    ensures TypedSlot(W[i], slots[i]) && EncodableSlot(W[i], slots[i])
    ensures TypedMessage(W[i + 1..], slots[i + 1..]) && EncodableMessage(W[i + 1..], slots[i + 1..])
    ensures EncodeMessage(W[i..], slots[i..]) == EncodeSlot(W[i], slots[i]) + EncodeMessage(W[i + 1..], slots[i + 1..])
  {
  }

  /** The decoder works its way through what the writer wrote, field by field, up to one that it refuses. */
  lemma {:induction false} FieldsRoundTrip(R: seq<Field>, W: seq<Field>, slots: seq<Slot>, i: nat)
    requires ReadsFields(R, W) && Descriptor(R) && Descriptor(W) && TypedMessage(W, slots) && i <= |W| == |slots|
    requires TypedMessage(W[i..], slots[i..]) && EncodableMessage(W[i..], slots[i..]) && |EncodeMessage(W[i..], slots[i..])| < TWO_32
    ensures DecodeFields(R, After(R, W, slots, i), EncodeMessage(W[i..], slots[i..]))
      == if ReadableFrom(R, W, slots, i) then Some(After(R, W, slots, |W|)) else None
    decreases W, 4, |W| - i
  {
    if i < |W| {
      EncodableAt(W, slots, i);
      ReadableStep(R, W, slots, i);
      SlotStep(R, W, slots, i, EncodeMessage(W[i + 1..], slots[i + 1..]));
      FieldsRoundTrip(R, W, slots, i + 1);
    }
  }

  lemma {:induction false} SlotStep(R: seq<Field>, W: seq<Field>, slots: seq<Slot>, i: nat, rest: Bytes)
    requires ReadsFields(R, W) && Descriptor(R) && Descriptor(W) && TypedMessage(W, slots) && i < |W| == |slots|
    requires TypedSlot(W[i], slots[i]) && EncodableSlot(W[i], slots[i]) && |EncodeSlot(W[i], slots[i])| < TWO_32
    ensures DecodeFields(R, After(R, W, slots, i), EncodeSlot(W[i], slots[i]) + rest)
      == if SlotReadable(R, W, slots, i) then DecodeFields(R, After(R, W, slots, i + 1), rest) else None
    decreases W, 3
  {
    match FindField(R, W[i].tag)
    case None =>
      AfterUnknown(R, W, slots, i);
      UnknownSlot(R, After(R, W, slots, i), W[i], slots[i], rest);
    case Some(j) =>
      AfterKnown(R, W, slots, i, j);
      KnownSlot(R, After(R, W, slots, i), j, W[i], slots[i], rest);
  }

  lemma AfterAll(R: seq<Field>, W: seq<Field>, slots: seq<Slot>)
    requires ReadsFields(R, W) && TypedMessage(W, slots)
    ensures After(R, W, slots, 0) == Progress(Defaults(R), {})
    ensures After(R, W, slots, |W|).slots == ProjectMessage(R, W, slots) && RequiredMet(R, After(R, W, slots, |W|).seen)
  {
    forall j | 0 <= j < |R| ensures Defaults(R)[j] == DefaultSlot(R[j]) {
      DefaultAt(R, j);
    }
    assert After(R, W, slots, 0).slots == Defaults(R);
    assert After(R, W, slots, |W|).slots == ProjectMessage(R, W, slots);
    forall j | 0 <= j < |R| && R[j].rule == Required ensures j in After(R, W, slots, |W|).seen {
      TypedAt(W, slots, Source(R, W, j));
    }
  }

  /** A reader gets exactly the projection of what was written, or nothing: it refuses a message of
      which it would have to read a string that fills its array. */
  lemma {:induction false} MessageRoundTrip(R: seq<Field>, W: seq<Field>, slots: seq<Slot>)
    requires ReadsFields(R, W) && Descriptor(R) && Descriptor(W)
    requires TypedMessage(W, slots) && EncodableMessage(W, slots) && |EncodeMessage(W, slots)| < TWO_32
    ensures PbDecode(R, EncodeMessage(W, slots))
      == if ReadableMessage(R, W, slots) then Some(ProjectMessage(R, W, slots)) else None
    decreases W, 5
  {
    AfterAll(R, W, slots);
    assert W[0..] == W && slots[0..] == slots;
    FieldsRoundTrip(R, W, slots, 0);
  }

  // ---------- The same descriptor on both sides ----------

  lemma {:induction false} ReadsItself(f: Field)
    requires WellFormed(f)
    ensures ReadsField(f, f)
    decreases f, 0
  {
    if f.kind.Submessage? {
      SuffixReads(f.kind.fields, 0);
      assert f.kind.fields[0..] == f.kind.fields;
    }
  }

  lemma {:induction false} SuffixReads(W: seq<Field>, i: nat)
    requires Descriptor(W) && i <= |W|
    ensures ReadsFields(W[i..], W)
    decreases W, 1, |W| - i
  {
    if i < |W| {
      assert W[i..][0] == W[i] && W[i..][1..] == W[i + 1..];
      FindsOwn(W, i);
      ReadsItself(W[i]);
      SuffixReads(W, i + 1);
    }
  }

  lemma {:induction false} ProjectsToItself(f: Field, s: Slot)
    requires WellFormed(f) && ReadsField(f, f) && TypedSlot(f, s)
    ensures ProjectSlot(f, f, s) == s
    decreases f, 3
  {
    match s
    case Absent =>
    case One(v) => SameValue(f.kind, v);
    case Many(values) => SameValues(f.kind, values);
  }

  lemma {:induction false} SameValue(k: Kind, v: Value)
    requires (k.Submessage? ==> Descriptor(k.fields)) && ReadsKind(k, k) && Typed(k, v)
    ensures ProjectValue(k, k, v) == v
    decreases k, 0
  {
    if k.Submessage? {
      SameMessage(k.fields, v.slots);
    }
  }

  lemma {:induction false} SameValues(k: Kind, values: seq<Value>)
    requires (k.Submessage? ==> Descriptor(k.fields)) && ReadsKind(k, k) && TypedAll(k, values)
    ensures ProjectAll(k, k, values) == values
    decreases k, 1, |values|
  {
    if values != [] {
      SameValue(k, values[0]);
      SameValues(k, values[1..]);
    }
  }

  lemma {:induction false} SameMessage(W: seq<Field>, slots: seq<Slot>)
    requires Descriptor(W) && ReadsFields(W, W) && TypedMessage(W, slots)
    ensures ProjectMessage(W, W, slots) == slots
    decreases W, 4
  {
    forall j | 0 <= j < |W| ensures ProjectMessage(W, W, slots)[j] == slots[j] {
      ProjectAt(W, W, slots, j);
      SourceOf(W, W, j, j);
      ProjectsToItself(W[j], slots[j]);
    }
    if |W| > 0 {
      TypedAt(W, slots, 0);
    }
  }

  /** With one descriptor, what can be read of what can be encoded is what Sendable says. */
  lemma {:induction false} SameReadable(f: Field, s: Slot)
    requires WellFormed(f) && ReadsField(f, f) && TypedSlot(f, s) && EncodableSlot(f, s)
    ensures ReadableSlot(f, f, s) <==> SendableSlot(f, s)
    decreases f, 3
  {
    match s
    case Absent =>
    case One(v) => SameReadableValue(f.kind, v);
    case Many(values) => SameReadableValues(f.kind, values);
  }

  lemma {:induction false} SameReadableValue(k: Kind, v: Value)
    requires (k.Submessage? ==> Descriptor(k.fields)) && ReadsKind(k, k) && Typed(k, v) && Encodable(k, v)
    ensures Readable(k, k, v) <==> Sendable(k, v)
    decreases k, 0
  {
    if k.Submessage? {
      SameReadableMessage(k.fields, v.slots);
    }
  }

  lemma {:induction false} SameReadableValues(k: Kind, values: seq<Value>)
    requires (k.Submessage? ==> Descriptor(k.fields)) && ReadsKind(k, k) && TypedAll(k, values) && EncodableAll(k, values)
    ensures ReadableAll(k, k, values) <==> SendableAll(k, values)
    decreases k, 1, |values|
  {
    if values != [] {
      SameReadableValue(k, values[0]);
      SameReadableValues(k, values[1..]);
    }
  }

  lemma {:induction false} SendableEach(W: seq<Field>, slots: seq<Slot>)
    requires TypedMessage(W, slots)
    ensures |slots| == |W| && (forall i :: 0 <= i < |W| ==> TypedSlot(W[i], slots[i]))
    ensures SendableMessage(W, slots) <==> forall i :: 0 <= i < |W| ==> SendableSlot(W[i], slots[i])
    ensures EncodableMessage(W, slots) <==> forall i :: 0 <= i < |W| ==> EncodableSlot(W[i], slots[i])
    decreases |W|
  {
    if W != [] {
      SendableEach(W[1..], slots[1..]);
      assert forall i :: 1 <= i < |W| ==> W[i] == W[1..][i - 1] && slots[i] == slots[1..][i - 1];
      assert forall i :: 0 <= i < |W| - 1 ==> W[1..][i] == W[i + 1] && slots[1..][i] == slots[i + 1];
    }
  }

  lemma {:induction false} SameReadableMessage(W: seq<Field>, slots: seq<Slot>)
    requires Descriptor(W) && ReadsFields(W, W) && TypedMessage(W, slots) && EncodableMessage(W, slots)
    ensures ReadableMessage(W, W, slots) <==> SendableMessage(W, slots)
    decreases W, 4
  {
    SendableEach(W, slots);
    forall j | 0 <= j < |W| ensures Source(W, W, j) == j && (ReadsField(W[j], W[j]) && (ReadableSlot(W[j], W[j], slots[j]) <==> SendableSlot(W[j], slots[j]))) {
      SourceOf(W, W, j, j);
      SameReadable(W[j], slots[j]);
    }
  }

  /** Decoding with the descriptor that a message was encoded with gives the message back exactly when
      every string leaves room for its final zero; otherwise the message is refused. */
  lemma SameDescriptorRoundTrip(W: seq<Field>, slots: seq<Slot>)
    requires Descriptor(W) && TypedMessage(W, slots) && EncodableMessage(W, slots) && |EncodeMessage(W, slots)| < TWO_32
    ensures PbDecode(W, EncodeMessage(W, slots)) == Some(slots) <==> SendableMessage(W, slots)
    ensures PbDecode(W, EncodeMessage(W, slots)) == None <==> !SendableMessage(W, slots)
  {
    SuffixReads(W, 0);
    assert W[0..] == W;
    MessageRoundTrip(W, W, slots);
    SameMessage(W, slots);
    SameReadableMessage(W, slots);
  }

  /** A one-character array that holds "A" and no final zero: it is encoded, and then refused. */
  lemma FullStringRefused() returns (W: seq<Field>, slots: seq<Slot>)
    ensures Descriptor(W) && TypedMessage(W, slots) && EncodableMessage(W, slots)
    ensures PbDecode(W, EncodeMessage(W, slots)) == None
  {
    W, slots := [Field(1, StringField(1), Required)], [One(Blob([65]))];
    assert W[1..] == [] && slots[1..] == [];
    OneString(W, slots, Blob([65]));
    SameDescriptorRoundTrip(W, slots);
  }

  lemma OneString(W: seq<Field>, slots: seq<Slot>, v: Value)
    requires W == [Field(1, StringField(1), Required)] && slots == [One(v)] && v.Blob? && |v.bytes| == 1 && 0 !in v.bytes
    ensures Descriptor(W) && TypedMessage(W, slots) && EncodableMessage(W, slots) && !SendableMessage(W, slots)
    ensures |EncodeMessage(W, slots)| < TWO_32
  {
    assert W[1..] == [] && slots[1..] == [];
    assert TypedSlot(W[0], slots[0]) && TypedMessage(W[1..], slots[1..]);
    assert Key(W[0], WtString) == [10];
    assert Prefixed(v.bytes) == [1] + v.bytes;
    assert EncodeMessage(W, slots) == EncodeSlot(W[0], slots[0]) + EncodeMessage(W[1..], slots[1..]);
  }

  lemma FindsOwn(W: seq<Field>, i: nat)
    requires Descriptor(W) && i < |W|
    ensures FindField(W, W[i].tag) == Some(i)
  {
  }
}

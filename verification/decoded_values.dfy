/** What pb_decode may leave in a structure, whatever bytes it was given: nothing but values that fit. */
module DecodedValues {
  import opened FixedBytes
  import opened Options
  import opened Varints
  import opened Messages
  import opened Decode
  import opened RoundTrip
  import opened Capacities

  // ---------- Room ----------

  /** The integer types are those of C, and every string has room for its final zero, at every depth. */
  predicate Sized(k: Kind)
    decreases k, 0
  {
    match k
    case VarInt(size) => IntegerSize(size)
    case UVarInt(size) => IntegerSize(size)
    case SVarInt(size) => IntegerSize(size)
    case StringField(dataSize) => dataSize > 0
    case Submessage(fields) => AllSized(fields)
    case _ => true
  }

  predicate AllSized(fields: seq<Field>)
    decreases fields, 0
  {
    fields == [] || (SizedField(fields[0]) && AllSized(fields[1..]))
  }

  predicate SizedField(f: Field)
    decreases f, 1
  {
    Sized(f.kind)
  }

  /** A value of the type that leaves the room it has to leave. */
  predicate FitsKind(k: Kind, v: Value) {
    Typed(k, v) && Sendable(k, v)
  }

  predicate FitsAll(k: Kind, values: seq<Value>) {
    TypedAll(k, values) && SendableAll(k, values)
  }

  predicate FitsSlot(f: Field, s: Slot) {
    TypedSlot(f, s) && SendableSlot(f, s)
  }

  predicate FitsMessage(fields: seq<Field>, slots: seq<Slot>) {
    TypedMessage(fields, slots) && SendableMessage(fields, slots)
  }

  lemma {:induction false} SlotBySlot(fields: seq<Field>, slots: seq<Slot>)
    ensures FitsMessage(fields, slots) <==> |slots| == |fields| && forall i :: 0 <= i < |fields| ==> FitsSlot(fields[i], slots[i])
    decreases |fields|
  {
    if fields != [] && slots != [] {
      SlotBySlot(fields[1..], slots[1..]);
      if |slots| == |fields| && forall i :: 0 <= i < |fields| ==> FitsSlot(fields[i], slots[i]) {
        forall i | 0 <= i < |fields| - 1 ensures FitsSlot(fields[1..][i], slots[1..][i]) {
          assert FitsSlot(fields[i + 1], slots[i + 1]);
        }
        assert FitsSlot(fields[0], slots[0]);
      }
      if FitsMessage(fields, slots) {
        assert FitsMessage(fields[1..], slots[1..]) && FitsSlot(fields[0], slots[0]);
        forall i | 0 <= i < |fields| ensures FitsSlot(fields[i], slots[i]) {
          if i > 0 {
            assert fields[i] == fields[1..][i - 1] && slots[i] == slots[1..][i - 1];
          }
        }
      }
    }
  }

  lemma {:induction false} EntryByEntry(k: Kind, values: seq<Value>, v: Value)
    requires FitsAll(k, values) && FitsKind(k, v)
    ensures FitsAll(k, values + [v])
    decreases |values|
  {
    if values == [] {
      assert [] + [v] == [v] && [v][1..] == [];
    } else {
      assert (values + [v])[1..] == values[1..] + [v];
      EntryByEntry(k, values[1..], v);
    }
  }

  lemma {:induction false} SizedAt(fields: seq<Field>, i: nat)
    requires AllSized(fields) && i < |fields|
    ensures Sized(fields[i].kind)
    decreases i
  {
    if i > 0 {
      SizedAt(fields[1..], i - 1);
    }
  }

  // ---------- Defaults ----------

  lemma {:induction false} DefaultFits(k: Kind)
    requires Sized(k)
    ensures FitsKind(k, Default(k))
    decreases k, 0
  {
    if k.Submessage? {
      DefaultsFit(k.fields);
    }
  }

  lemma {:induction false} DefaultSlotFits(f: Field)
    requires SizedField(f)
    ensures FitsSlot(f, DefaultSlot(f))
    decreases f, 1
  {
    DefaultFits(f.kind);
    match f.rule
    case Required =>
    case Optional =>
    case Repeated(_) => assert FitsAll(f.kind, []);
  }

  lemma {:induction false} DefaultsFit(fields: seq<Field>)
    requires AllSized(fields)
    ensures FitsMessage(fields, Defaults(fields))
    decreases fields, 0
  {
    if fields != [] {
      DefaultSlotFits(fields[0]);
      DefaultsFit(fields[1..]);
      assert Defaults(fields)[1..] == Defaults(fields[1..]);
    }
  }

  // ---------- Values ----------

  lemma {:induction false} FixedBound(bytes: Bytes)
    ensures DecodeFixed(bytes) < Power256(|bytes|)
  {
    if bytes != [] {
      FixedBound(bytes[1..]);
    }
  }

  lemma NumberFits(k: Kind, s: Bytes)
    requires Packable(k) && DecodeNumber(k, s).Some?
    ensures FitsKind(k, Number(DecodeNumber(k, s).value.0))
  {
    if k == Fixed32 {
      FixedBound(s[..4]);
      assert Power256(4) == TWO_32;
    } else if k == Fixed64 {
      FixedBound(s[..8]);
      assert Power256(8) == TWO_64;
    }
  }

  lemma {:induction false} CStringFits(bytes: Bytes)
    ensures |CString(bytes)| <= |bytes| && 0 !in CString(bytes)
  {
    if bytes != [] {
      CStringFits(bytes[1..]);
    }
  }

  lemma {:induction false} ValueFits(k: Kind, current: Value, s: Bytes)
    requires Sized(k) && FitsKind(k, current) && DecodeValue(k, current, s).Some?
    ensures FitsKind(k, DecodeValue(k, current, s).value.0)
    decreases |s|, 0
  {
    match k
    case BytesField(_) =>
    case StringField(_) => CStringFits(Delimited(s).value.0);
    case Submessage(fields) => MessageFits(fields, current.slots, Delimited(s).value.0);
    case _ => NumberFits(k, s);
  }

  lemma {:induction false} PackedFits(k: Kind, arraySize: nat, values: seq<Value>, body: Bytes)
    requires Packable(k) && FitsAll(k, values) && |values| <= arraySize && DecodePacked(k, arraySize, values, body).Some?
    ensures FitsAll(k, DecodePacked(k, arraySize, values, body).value) && |DecodePacked(k, arraySize, values, body).value| <= arraySize
    decreases |body|
  {
    if body != [] {
      var n := DecodeNumber(k, body).value;
      NumberFits(k, body);
      EntryByEntry(k, values, Number(n.0));
      PackedFits(k, arraySize, values + [Number(n.0)], n.1);
    }
  }

  lemma {:induction false} SlotFits(f: Field, slot: Slot, wireType: nat, s: Bytes)
    requires Sized(f.kind) && FitsSlot(f, slot) && DecodeSlot(f, slot, wireType, s).Some?
    ensures FitsSlot(f, DecodeSlot(f, slot, wireType, s).value.0)
    decreases |s|, 1
  {
    DefaultFits(f.kind);
    match f.rule
    case Repeated(arraySize) =>
      if wireType == 2 && Packable(f.kind) {
        PackedFits(f.kind, arraySize, slot.values, Delimited(s).value.0);
      } else {
        ValueFits(f.kind, Default(f.kind), s);
        EntryByEntry(f.kind, slot.values, DecodeValue(f.kind, Default(f.kind), s).value.0);
      }
    case _ => ValueFits(f.kind, if slot.One? then slot.value else Default(f.kind), s);
  }

  lemma {:induction false} FieldsFit(fields: seq<Field>, p: Progress, s: Bytes)
    requires AllSized(fields) && FitsMessage(fields, p.slots) && |p.slots| == |fields| && DecodeFields(fields, p, s).Some?
    ensures FitsMessage(fields, DecodeFields(fields, p, s).value.slots)
    decreases |s|, 2
  {
    if s != [] && DecodeTag(s).Tag? {
      var t := DecodeTag(s);
      var i := FindField(fields, t.tag);
      if i == None {
        var after := if fields == [] && t.tag == 0 then DecodeTerminator(t.rest) else SkipField(t.wireType, t.rest);
        FieldsFit(fields, p, after.value);
      } else {
        var d := DecodeSlot(fields[i.value], p.slots[i.value], t.wireType, t.rest).value;
        OneSlotFits(fields, p.slots, i.value, t.wireType, t.rest);
        FieldsFit(fields, Progress(p.slots[i.value := d.0], p.seen + {i.value}), d.1);
      }
    }
  }

  lemma {:induction false} OneSlotFits(fields: seq<Field>, slots: seq<Slot>, i: nat, wireType: nat, s: Bytes)
    requires AllSized(fields) && FitsMessage(fields, slots) && |slots| == |fields| && i < |fields|
    requires DecodeSlot(fields[i], slots[i], wireType, s).Some?
    ensures FitsMessage(fields, slots[i := DecodeSlot(fields[i], slots[i], wireType, s).value.0])
    decreases |s|, 2
  {
    var after := slots[i := DecodeSlot(fields[i], slots[i], wireType, s).value.0];
    SizedAt(fields, i);
    SlotBySlot(fields, slots);
    SlotFits(fields[i], slots[i], wireType, s);
    SlotBySlot(fields, after);
  }

  lemma {:induction false} MessageFits(fields: seq<Field>, slots: seq<Slot>, s: Bytes)
    requires AllSized(fields) && FitsMessage(fields, slots) && |slots| == |fields| && DecodeMessage(fields, slots, s).Some?
    ensures FitsMessage(fields, DecodeMessage(fields, slots, s).value)
    decreases |s|, 3
  {
    FieldsFit(fields, Progress(slots, {}), s);
  }

  // ---------- The same in terms of room ----------

  /** A string leaves room for its final zero. */
  predicate RoomForZero(p: Part) {
    p.field.kind.StringField? ==> forall v :: v in ValuesOf(p.slot) && v.Blob? ==> |v.bytes| < p.field.kind.dataSize
  }

  predicate AllRoomForZero(parts: set<Part>) {
    forall p :: p in parts ==> RoomForZero(p)
  }

  predicate ZeroWithin(k: Kind, values: seq<Value>) {
    k.StringField? ==> forall v :: v in values && v.Blob? ==> |v.bytes| < k.dataSize
  }

  lemma {:induction false} SendableValue(k: Kind, v: Value)
    requires Typed(k, v)
    ensures Sendable(k, v) <==> Encodable(k, v) && AllRoomForZero(PartsOfValue(k, v)) && ZeroWithin(k, [v])
    decreases k, 0
  {
    if k.Submessage? {
      SendableExactly(k.fields, v.slots);
    }
    assert v in [v];
  }

  lemma {:induction false} SendableValues(k: Kind, values: seq<Value>)
    requires TypedAll(k, values)
    ensures SendableAll(k, values) <==> EncodableAll(k, values) && AllRoomForZero(PartsOfAll(k, values)) && ZeroWithin(k, values)
    decreases k, 1, |values|
  {
    if values != [] {
      SendableValue(k, values[0]);
      SendableValues(k, values[1..]);
      assert values == [values[0]] + values[1..];
      assert forall v :: v in values <==> v in [values[0]] || v in values[1..];
    }
  }

  lemma {:induction false} SendablePart(f: Field, s: Slot)
    requires TypedSlot(f, s)
    ensures SendableSlot(f, s) <==> EncodableSlot(f, s) && AllRoomForZero(PartsOf(f, s))
    decreases f, 1
  {
    assert AllRoomForZero(PartsOf(f, s)) <==> RoomForZero(Part(f, s)) && AllRoomForZero(PartsOfAll(f.kind, ValuesOf(s)));
    match s
    case Absent =>
    case One(v) =>
      SendableValue(f.kind, v);
      OneValue(f.kind, v);
    case Many(values) => SendableValues(f.kind, values);
  }

  /** What can be sent and received: everything is within its room, and every string leaves room for its final zero. */
  lemma {:induction false} SendableExactly(fields: seq<Field>, slots: seq<Slot>)
    requires TypedMessage(fields, slots)
    ensures SendableMessage(fields, slots) <==> EncodableMessage(fields, slots) && AllRoomForZero(PartsIn(fields, slots))
    decreases fields, 0
  {
    if fields != [] {
      SendablePart(fields[0], slots[0]);
      SendableExactly(fields[1..], slots[1..]);
    }
  }

  /** Whatever the bytes are: if they are decoded, then no array has more entries than it has room for, no bytes are
      longer than their room, every string leaves room for its final zero, and every number is one of its type. */
  lemma {:induction false} DecodedFits(fields: seq<Field>, s: Bytes)
    requires AllSized(fields) && PbDecode(fields, s).Some?
    ensures var slots := PbDecode(fields, s).value;
      TypedMessage(fields, slots) && AllWithinRoom(PartsIn(fields, slots)) && AllRoomForZero(PartsIn(fields, slots))
  {
    DefaultsFit(fields);
    MessageFits(fields, Defaults(fields), s);
    SendableExactly(fields, PbDecode(fields, s).value);
    EncodableExactly(fields, PbDecode(fields, s).value);
  }

  /** It can be sent on, and is received as it is. */
  lemma {:induction false} DecodedComesBack(fields: seq<Field>, s: Bytes, slots: seq<Slot>)
    requires Descriptor(fields) && AllSized(fields) && PbDecode(fields, s) == Some(slots)
    ensures TypedMessage(fields, slots) && EncodableMessage(fields, slots)
    ensures |EncodeMessage(fields, slots)| < TWO_32 ==> PbDecode(fields, EncodeMessage(fields, slots)) == Some(slots)
  {
    DefaultsFit(fields);
    MessageFits(fields, Defaults(fields), s);
    SendableExactly(fields, slots);
    if |EncodeMessage(fields, slots)| < TWO_32 {
      SameDescriptorRoundTrip(fields, slots);
    }
  }

  /** A message that is within its room comes back if and only if every string leaves room for its final zero, and is
      refused otherwise. */
  lemma {:induction false} ReceivedExactly(fields: seq<Field>, slots: seq<Slot>)
    requires Descriptor(fields) && TypedMessage(fields, slots) && AllWithinRoom(PartsIn(fields, slots))
    requires |EncodeMessage(fields, slots)| < TWO_32
    ensures PbDecode(fields, EncodeMessage(fields, slots)) == if AllRoomForZero(PartsIn(fields, slots)) then Some(slots) else None
  {
    EncodableExactly(fields, slots);
    SendableExactly(fields, slots);
    SameDescriptorRoundTrip(fields, slots);
  }
}

/** nanopb messages: descriptors, typed field values, and pb_encode with its sizing pass. */
module Messages {
  import opened FixedBytes
  import opened Varints

  datatype Kind =
    | Bool | VarInt(size: nat) | UVarInt(size: nat) | SVarInt(size: nat) | Fixed32 | Fixed64
    | BytesField(capacity: nat)      // data_size without the size member
    | StringField(dataSize: nat)     // room for the characters and a final zero
    | Submessage(fields: seq<Field>)

  /** arraySize is the most entries the array has room for; the count is kept beside it. */
  datatype Label = Required | Optional | Repeated(arraySize: nat)

  datatype Field = Field(tag: nat, kind: Kind, rule: Label)

  datatype Value = Number(n: int) | Blob(bytes: Bytes) | Message(slots: seq<Slot>)

  /** The state of one field: a value, no value (has_ is false), or the entries that the count covers. */
  datatype Slot = One(value: Value) | Absent | Many(values: seq<Value>)

  datatype WireType = WtVarint | Wt64Bit | WtString | Wt32Bit

  function WireNumber(w: WireType): nat {
    match w
    case WtVarint => 0
    case Wt64Bit => 1
    case WtString => 2
    case Wt32Bit => 5
  }

  function WireTypeOf(k: Kind): WireType {
    match k
    case Bool => WtVarint
    case VarInt(_) => WtVarint
    case UVarInt(_) => WtVarint
    case SVarInt(_) => WtVarint
    case Fixed32 => Wt32Bit
    case Fixed64 => Wt64Bit
    case _ => WtString
  }

  predicate Packable(k: Kind) {
    !k.BytesField? && !k.StringField? && !k.Submessage?
  }

  /** The number of values that a C integer of that many bytes has. */
  function Modulus(size: nat): nat {
    if size == 1 then 0x100 else if size == 2 then 0x1_0000 else if size == 4 then TWO_32 else TWO_64
  }

  predicate IntegerSize(size: nat) {
    size == 1 || size == 2 || size == 4 || size == 8
  }

  // ---------- Well-formed structures ----------

  /** Tags are the numbers that protocol buffers allow, and no message uses one twice. */
  predicate Descriptor(fields: seq<Field>)
    decreases fields
  {
    && (forall i :: 0 <= i < |fields| ==> 1 <= fields[i].tag < 0x2000_0000 && WellFormed(fields[i]))
    && (forall i, j :: 0 <= i < j < |fields| ==> fields[i].tag != fields[j].tag)
  }

  predicate WellFormed(f: Field)
    decreases f
  {
    f.kind.Submessage? ==> Descriptor(f.kind.fields)
  }

  /** The number fits the C type of the field. */
  predicate InRange(k: Kind, n: int) {
    match k
    case Bool => n == 0 || n == 1
    case VarInt(size) => IntegerSize(size) && -(Modulus(size) / 2) <= n < Modulus(size) / 2
    case UVarInt(size) => IntegerSize(size) && 0 <= n < Modulus(size)
    case SVarInt(size) => IntegerSize(size) && -(Modulus(size) / 2) <= n < Modulus(size) / 2
    case Fixed32 => 0 <= n < TWO_32
    case Fixed64 => 0 <= n < TWO_64
    case _ => false
  }

  /** What a C structure of this type can hold. A string ends at its first zero, or fills its array. */
  predicate Typed(k: Kind, v: Value)
    decreases k, 0
  {
    match k
    case BytesField(_) => v.Blob?
    case StringField(dataSize) => v.Blob? && |v.bytes| <= dataSize && 0 !in v.bytes
    case Submessage(fields) => v.Message? && TypedMessage(fields, v.slots)
    case _ => v.Number? && InRange(k, v.n)
  }

  predicate TypedSlot(f: Field, s: Slot)
    decreases f, 1
  {
    match f.rule
    case Required => s.One? && Typed(f.kind, s.value)
    case Optional => s == Absent || (s.One? && Typed(f.kind, s.value))
    case Repeated(_) => s.Many? && TypedAll(f.kind, s.values)
  }

  predicate TypedAll(k: Kind, values: seq<Value>)
    decreases k, 1, |values|
  {
    values == [] || (Typed(k, values[0]) && TypedAll(k, values[1..]))
  }

  predicate TypedMessage(fields: seq<Field>, slots: seq<Slot>)
    decreases fields, 0
  {
    |slots| == |fields| && (fields == [] || (TypedSlot(fields[0], slots[0]) && TypedMessage(fields[1..], slots[1..])))
  }

  // ---------- The encoding ----------

  function Key(f: Field, w: WireType): Bytes {
    Varint(f.tag * 8 + WireNumber(w))
  }

  function Prefixed(bytes: Bytes): Bytes {
    Varint(|bytes|) + bytes
  }

  function EncodeValue(k: Kind, v: Value): Bytes
    requires Typed(k, v)
    decreases k, 0
  {
    match k
    case Bool => Varint(v.n)
    case VarInt(size) => Varint(Unsigned(v.n))
    case UVarInt(size) => Varint(v.n)
    case SVarInt(size) => Varint(ZigZag(v.n))
    case Fixed32 => EncodeFixed(v.n, 4)
    case Fixed64 => EncodeFixed(v.n, 8)
    case BytesField(_) => Prefixed(v.bytes)
    case StringField(_) => Prefixed(v.bytes)
    case Submessage(fields) => Prefixed(EncodeMessage(fields, v.slots))
  }

  /** The entries of a packed array, end to end. */
  function EncodePacked(k: Kind, values: seq<Value>): Bytes
    requires TypedAll(k, values)
    decreases k, 1, |values|
  {
    if values == [] then [] else EncodeValue(k, values[0]) + EncodePacked(k, values[1..])
  }

  /** The entries of any other array, each with its own key. */
  function EncodeRepeated(f: Field, values: seq<Value>): Bytes
    requires TypedAll(f.kind, values)
    decreases f, 0, |values|
  {
    if values == [] then [] else Key(f, WireTypeOf(f.kind)) + EncodeValue(f.kind, values[0]) + EncodeRepeated(f, values[1..])
  }

  function EncodeSlot(f: Field, s: Slot): Bytes
    requires TypedSlot(f, s)
    decreases f, 1
  {
    match s
    case Absent => []
    case One(v) => Key(f, WireTypeOf(f.kind)) + EncodeValue(f.kind, v)
    case Many(values) =>
      if values == [] then []
      else if Packable(f.kind) then Key(f, WtString) + Prefixed(EncodePacked(f.kind, values))
      else EncodeRepeated(f, values)
  }

  function EncodeMessage(fields: seq<Field>, slots: seq<Slot>): Bytes
    requires TypedMessage(fields, slots)
    decreases fields, 0
  {
    if fields == [] then [] else EncodeSlot(fields[0], slots[0]) + EncodeMessage(fields[1..], slots[1..])
  }

  // ---------- What the encoder refuses ----------

  /** No array has more entries than it has room for, and no bytes field is longer than its room. */
  predicate Encodable(k: Kind, v: Value)
    requires Typed(k, v)
    decreases k, 0
  {
    match k
    case BytesField(capacity) => |v.bytes| <= capacity
    case Submessage(fields) => EncodableMessage(fields, v.slots)
    case _ => true
  }

  predicate EncodableSlot(f: Field, s: Slot)
    requires TypedSlot(f, s)
    decreases f, 1
  {
    match s
    case Absent => true
    case One(v) => Encodable(f.kind, v)
    case Many(values) => |values| <= f.rule.arraySize && EncodableAll(f.kind, values)
  }

  predicate EncodableAll(k: Kind, values: seq<Value>)
    requires TypedAll(k, values)
    decreases k, 1, |values|
  {
    values == [] || (Encodable(k, values[0]) && EncodableAll(k, values[1..]))
  }

  predicate EncodableMessage(fields: seq<Field>, slots: seq<Slot>)
    requires TypedMessage(fields, slots)
    decreases fields, 0
  {
    fields == [] || (EncodableSlot(fields[0], slots[0]) && EncodableMessage(fields[1..], slots[1..]))
  }
}

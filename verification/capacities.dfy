/** The room that a structure has for its arrays and bytes, at every depth, told without a word on encoding. */
module Capacities {
  import opened Messages

  /** A field of the message or of a message inside it, with what it holds. */
  datatype Part = Part(field: Field, slot: Slot)

  function PartsOfValue(k: Kind, v: Value): set<Part>
    decreases k, 0
  {
    if k.Submessage? && v.Message? then PartsIn(k.fields, v.slots) else {}
  }

  function PartsOfAll(k: Kind, values: seq<Value>): set<Part>
    decreases k, 1, |values|
  {
    if values == [] then {} else PartsOfValue(k, values[0]) + PartsOfAll(k, values[1..])
  }

  function ValuesOf(s: Slot): seq<Value> {
    match s
    case One(v) => [v]
    case Absent => []
    case Many(values) => values
  }

  function PartsOf(f: Field, s: Slot): set<Part>
    decreases f, 1
  {
    {Part(f, s)} + PartsOfAll(f.kind, ValuesOf(s))
  }

  function PartsIn(fields: seq<Field>, slots: seq<Slot>): set<Part>
    decreases fields, 0
  {
    if fields == [] || slots == [] then {} else PartsOf(fields[0], slots[0]) + PartsIn(fields[1..], slots[1..])
  }

  predicate WithinRoom(p: Part) {
    && (p.field.rule.Repeated? && p.slot.Many? ==> |p.slot.values| <= p.field.rule.arraySize)
    && (p.field.kind.BytesField? ==> forall v :: v in ValuesOf(p.slot) && v.Blob? ==> |v.bytes| <= p.field.kind.capacity)
  }

  predicate AllWithinRoom(parts: set<Part>) {
    forall p :: p in parts ==> WithinRoom(p)
  }

  predicate BytesWithin(k: Kind, values: seq<Value>) {
    k.BytesField? ==> forall v :: v in values && v.Blob? ==> |v.bytes| <= k.capacity
  }

  lemma AllOfTwo(a: set<Part>, b: set<Part>)
    ensures AllWithinRoom(a + b) <==> AllWithinRoom(a) && AllWithinRoom(b)
  {
  }

  lemma {:induction false} EncodableValue(k: Kind, v: Value)
    requires Typed(k, v)
    ensures Encodable(k, v) <==> AllWithinRoom(PartsOfValue(k, v)) && BytesWithin(k, [v])
    decreases k, 0
  {
    if k.Submessage? {
      EncodableExactly(k.fields, v.slots);
    }
    assert v in [v];
  }

  lemma {:induction false} EncodableValues(k: Kind, values: seq<Value>)
    requires TypedAll(k, values)
    ensures EncodableAll(k, values) <==> AllWithinRoom(PartsOfAll(k, values)) && BytesWithin(k, values)
    decreases k, 1, |values|
  {
    if values != [] {
      EncodableValue(k, values[0]);
      EncodableValues(k, values[1..]);
      AllOfTwo(PartsOfValue(k, values[0]), PartsOfAll(k, values[1..]));
      FirstAndOthers(k, values);
    }
  }

  lemma FirstAndOthers(k: Kind, values: seq<Value>)
    requires values != []
    ensures BytesWithin(k, values) <==> BytesWithin(k, [values[0]]) && BytesWithin(k, values[1..])
  {
    assert values == [values[0]] + values[1..];
    assert forall v :: v in values <==> v in [values[0]] || v in values[1..];
  }

  lemma {:induction false} EncodablePart(f: Field, s: Slot)
    requires TypedSlot(f, s)
    ensures EncodableSlot(f, s) <==> AllWithinRoom(PartsOf(f, s))
    decreases f, 1
  {
    AllOfTwo({Part(f, s)}, PartsOfAll(f.kind, ValuesOf(s)));
    assert AllWithinRoom({Part(f, s)}) <==> WithinRoom(Part(f, s));
    match s
    case Absent =>
    case One(v) =>
      EncodableValue(f.kind, v);
      OneValue(f.kind, v);
    case Many(values) => EncodableValues(f.kind, values);
  }

  lemma OneValue(k: Kind, v: Value)
    ensures PartsOfAll(k, [v]) == PartsOfValue(k, v)
  {
    assert [v][1..] == [];
  }

  /** A message is refused exactly if an array in it, at any depth, has more entries than there is room for, or some
      bytes are longer than theirs. */
  lemma {:induction false} EncodableExactly(fields: seq<Field>, slots: seq<Slot>)
    requires TypedMessage(fields, slots)
    ensures EncodableMessage(fields, slots) <==> AllWithinRoom(PartsIn(fields, slots))
    decreases fields, 0
  {
    if fields != [] {
      EncodablePart(fields[0], slots[0]);
      EncodableExactly(fields[1..], slots[1..]);
      AllOfTwo(PartsOf(fields[0], slots[0]), PartsIn(fields[1..], slots[1..]));
    }
  }
}

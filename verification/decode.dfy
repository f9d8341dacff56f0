/** What pb_decode makes of bytes. A decoder delivers its result and the bytes that are left; None is
    a failure. The methods that work on streams are in decode_stream.dfy. */
module Decode {
  import opened FixedBytes
  import opened Options
  import opened Varints
  import opened Messages

  /** The raw bytes of a key and what they say. */
  datatype TagResult = BadTag | EndOfMessage(rest: Bytes) | Tag(tag: nat, wireType: nat, rest: Bytes)

  /** pb_decode_tag, with something left to read. A key of zero ends the message. */
  function DecodeTag(s: Bytes): (t: TagResult)
    requires s != []
    ensures t.Tag? ==> |t.rest| < |s|
  {
    UsedInRange(s);
    match Decode32(s)
    case Failed => BadTag
    case Decoded(key, used) => if key == 0 then EndOfMessage(s[used..]) else Tag(key / 8, key % 8, s[used..])
  }

  lemma UsedInRange(s: Bytes)
    ensures Decode32(s).Decoded? ==> 1 <= Decode32(s).used <= |s|
    ensures Decode64(s).Decoded? ==> 1 <= Decode64(s).used <= |s|
  {
    if s != [] && s[0] >= 128 {
      Used32(s, 1, 7, s[0] % 128);
    }
    Used64(s, 0, 0);
  }

  lemma {:induction false} Used32(s: Bytes, i: nat, bitpos: nat, result: nat)
    requires i <= |s|
    ensures Decode32From(s, i, bitpos, result).Decoded? ==> i < Decode32From(s, i, bitpos, result).used <= |s|
    decreases |s| - i
  {
    if i < |s| {
      var next := if bitpos >= 32 then result else Or(result, (s[i] % 128) * Power2(bitpos) % TWO_32);
      Used32(s, i + 1, (bitpos + 7) % 256, next);
    }
  }

  lemma {:induction false} Used64(s: Bytes, i: nat, result: nat)
    requires i <= |s|
    ensures Decode64From(s, i, result).Decoded? ==> i < Decode64From(s, i, result).used <= |s|
    decreases |s| - i
  {
    if i < |s| && 7 * i < 64 {
      Used64(s, i + 1, Or(result, (s[i] % 128) * Power2(7 * i) % TWO_64));
    }
  }

  /** pb_make_string_substream: the bytes of a length-delimited value, and what follows. */
  function Delimited(s: Bytes): (r: Option<(Bytes, Bytes)>)
    ensures r.Some? ==> |r.value.0| < |s| && |r.value.1| < |s|
  {
    UsedInRange(s);
    match Decode32(s)
    case Failed => None
    case Decoded(size, used) =>
      if |s| - used < size then None else Some((s[used..used + size], s[used + size..]))
  }

  function SkipVarint(s: Bytes): (r: Option<Bytes>)
    ensures r.Some? ==> |r.value| < |s|
  {
    if s == [] then None else if s[0] < 128 then Some(s[1..]) else SkipVarint(s[1..])
  }

  /** pb_skip_field */
  function SkipField(wireType: nat, s: Bytes): (r: Option<Bytes>)
    ensures r.Some? ==> |r.value| < |s|
  {
    match wireType
    case 0 => SkipVarint(s)
    case 1 => if |s| < 8 then None else Some(s[8..])
    case 2 => if Delimited(s) == None then None else Some(Delimited(s).value.1)
    case 5 => if |s| < 4 then None else Some(s[4..])
    case _ => None
  }

  /** A C string ends at its first zero. */
  function CString(bytes: Bytes): Bytes {
    if bytes == [] || bytes[0] == 0 then [] else [bytes[0]] + CString(bytes[1..])
  }

  // ---------- Defaults ----------

  /** pb_field_set_to_default for the contents of a field; defaults other than zero are not modelled. */
  function Default(k: Kind): Value
    decreases k, 0
  {
    match k
    case BytesField(_) => Blob([])
    case StringField(_) => Blob([])
    case Submessage(fields) => Message(Defaults(fields))
    case _ => Number(0)
  }

  function DefaultSlot(f: Field): Slot
    decreases f, 1
  {
    match f.rule
    case Required => One(Default(f.kind))
    case Optional => Absent
    case Repeated(_) => Many([])
  }

  /** pb_message_set_to_defaults */
  function Defaults(fields: seq<Field>): (slots: seq<Slot>)
    ensures |slots| == |fields|
    decreases fields, 0
  {
    if fields == [] then [] else [DefaultSlot(fields[0])] + Defaults(fields[1..])
  }

  // ---------- Values ----------

  /** The bytes of a number, by kind: a varint cast to the field's type, or a fixed width. */
  function DecodeNumber(k: Kind, s: Bytes): (r: Option<(int, Bytes)>)
    requires Packable(k)
    ensures r.Some? ==> |r.value.1| < |s|
  {
    UsedInRange(s);
    match k
    case Bool => (match Decode32(s)
      case Failed => None
      case Decoded(value, used) => Some((if value != 0 then 1 else 0, s[used..])))
    case VarInt(size) => (match Decode64(s)
      case Failed => None
      case Decoded(value, used) =>
        // Fields of up to 32 bits are cast to int32_t first, so that either sign extension will do.
        var n := if size == 8 then Signed(value, TWO_64) else Signed(value, TWO_32);
        if IntegerSize(size) && -(Modulus(size) / 2) <= n < Modulus(size) / 2 then Some((n, s[used..])) else None)
    case UVarInt(size) => (match Decode64(s)
      case Failed => None
      case Decoded(value, used) => if IntegerSize(size) && value < Modulus(size) then Some((value, s[used..])) else None)
    case SVarInt(size) => (match Decode64(s)
      case Failed => None
      case Decoded(value, used) =>
        var n := if value < TWO_64 then UnZigZag(value) else 0;
        if IntegerSize(size) && -(Modulus(size) / 2) <= n < Modulus(size) / 2 then Some((n, s[used..])) else None)
    case Fixed32 => if |s| < 4 then None else Some((DecodeFixed(s[..4]), s[4..]))
    case Fixed64 => if |s| < 8 then None else Some((DecodeFixed(s[..8]), s[8..]))
  }

  /** The pb_dec_* functions. A submessage is merged into what is there. */
  function DecodeValue(k: Kind, current: Value, s: Bytes): (r: Option<(Value, Bytes)>)
    ensures r.Some? ==> |r.value.1| < |s|
    decreases |s|, 0
  {
    match k
    case BytesField(capacity) =>
      var d := Delimited(s);
      if d == None || |d.value.0| > capacity then None else Some((Blob(d.value.0), d.value.1))
    case StringField(dataSize) =>
      var d := Delimited(s);
      if d == None || |d.value.0| + 1 > dataSize then None else Some((Blob(CString(d.value.0)), d.value.1))
    case Submessage(fields) =>
      var d := Delimited(s);
      if d == None then None
      else
        var slots := if current.Message? && |current.slots| == |fields| then current.slots else Defaults(fields);
        var m := DecodeMessage(fields, slots, d.value.0);
        if m == None then None else Some((Message(m.value), d.value.1))
    case _ =>
      var n := DecodeNumber(k, s);
      if n == None then None else Some((Number(n.value.0), n.value.1))
  }

  /** The loop over a packed array; all of its bytes have to be used up. */
  function DecodePacked(k: Kind, arraySize: nat, values: seq<Value>, body: Bytes): Option<seq<Value>>
    requires Packable(k)
    decreases |body|
  {
    if body == [] then Some(values)
    else if |values| >= arraySize then None
    else
      var n := DecodeNumber(k, body);
      if n == None then None else DecodePacked(k, arraySize, values + [Number(n.value.0)], n.value.1)
  }

  /** decode_static_field */
  function DecodeSlot(f: Field, slot: Slot, wireType: nat, s: Bytes): (r: Option<(Slot, Bytes)>)
    ensures r.Some? ==> |r.value.1| < |s|
    decreases |s|, 1
  {
    match f.rule
    case Repeated(arraySize) =>
      var values := if slot.Many? then slot.values else [];
      if wireType == 2 && Packable(f.kind) then
        var d := Delimited(s);
        if d == None then None
        else
          var all := DecodePacked(f.kind, arraySize, values, d.value.0);
          if all == None then None else Some((Many(all.value), d.value.1))
      else if |values| >= arraySize then None
      else
        var v := DecodeValue(f.kind, Default(f.kind), s);
        if v == None then None else Some((Many(values + [v.value.0]), v.value.1))
    case _ =>
      var v := DecodeValue(f.kind, if slot.One? then slot.value else Default(f.kind), s);
      if v == None then None else Some((One(v.value.0), v.value.1))
  }

  // ---------- Messages ----------

  /** The field with the tag. */
  function FindField(fields: seq<Field>, tag: nat): (r: Option<nat>)
    ensures r.Some? ==> r.value < |fields| && fields[r.value].tag == tag
    ensures r == None ==> forall i :: 0 <= i < |fields| ==> fields[i].tag != tag
  {
    FindFieldIn(fields, tag, |fields|)
  }

  function FindFieldIn(fields: seq<Field>, tag: nat, n: nat): (r: Option<nat>)
    requires n <= |fields|
    ensures r.Some? ==> r.value < n && fields[r.value].tag == tag
    ensures r == None ==> forall i :: 0 <= i < n ==> fields[i].tag != tag
  {
    if n == 0 then None else if fields[n - 1].tag == tag then Some(n - 1) else FindFieldIn(fields, tag, n - 1)
  }

  /** What the loop over the fields has gathered: the slots, and which fields it met. */
  datatype Progress = Progress(slots: seq<Slot>, seen: set<nat>)

  /** What the terminator of a field table makes of a value: its type reads as that of a bool, and
      where the bool goes is not part of a message. */
  function DecodeTerminator(s: Bytes): (r: Option<Bytes>)
    ensures r.Some? ==> |r.value| < |s|
  {
    var n := DecodeNumber(Bool, s);
    if n == None then None else Some(n.value.1)
  }

  /** The loop of pb_decode_noinit. In a message without fields the lookup of tag zero finds the terminator. */
  function DecodeFields(fields: seq<Field>, p: Progress, s: Bytes): (r: Option<Progress>)
    requires |p.slots| == |fields|
    ensures r.Some? ==> |r.value.slots| == |fields|
    decreases |s|, 2
  {
    if s == [] then Some(p)
    else
      match DecodeTag(s)
      case BadTag => None
      case EndOfMessage(_) => Some(p)
      case Tag(tag, wireType, rest) =>
        var i := FindField(fields, tag);
        if i == None then
          var after := if fields == [] && tag == 0 then DecodeTerminator(rest) else SkipField(wireType, rest);
          if after == None then None else DecodeFields(fields, p, after.value)
        else
          var d := DecodeSlot(fields[i.value], p.slots[i.value], wireType, rest);
          if d == None then None
          else DecodeFields(fields, Progress(p.slots[i.value := d.value.0], p.seen + {i.value}), d.value.1)
  }

  /** How many of the first i fields are required. */
  function RequiredBefore(fields: seq<Field>, i: nat): nat
    requires i <= |fields|
  {
    if i == 0 then 0 else RequiredBefore(fields, i - 1) + if fields[i - 1].rule == Required then 1 else 0
  }

  /** Each of the first 64 required fields was met. */
  predicate RequiredMet(fields: seq<Field>, seen: set<nat>) {
    forall i :: 0 <= i < |fields| && fields[i].rule == Required && RequiredBefore(fields, i) < 64 ==> i in seen
  }

  /** pb_decode_noinit */
  function DecodeMessage(fields: seq<Field>, slots: seq<Slot>, s: Bytes): (r: Option<seq<Slot>>)
    requires |slots| == |fields|
    ensures r.Some? ==> |r.value| == |fields|
    decreases |s|, 3
  {
    var p := DecodeFields(fields, Progress(slots, {}), s);
    if p == None || !RequiredMet(fields, p.value.seen) then None else Some(p.value.slots)
  }

  /** pb_decode */
  function PbDecode(fields: seq<Field>, s: Bytes): Option<seq<Slot>> {
    DecodeMessage(fields, Defaults(fields), s)
  }
}

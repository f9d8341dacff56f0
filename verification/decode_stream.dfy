/** The decoder on streams: each method takes its bytes from a pb_istream_t and delivers what the
    function of the same purpose in decode.dfy says. */
module DecodeStream {
  import opened FixedBytes
  import opened Options
  import opened Varints
  import opened Messages
  import opened Decode
  import F = FieldIterators

  /** pb_decode_tag. Without success, eof tells the end of the message from an error. */
  method ReadTag(stream: IStream) returns (ok: bool, eof: bool, tag: nat, wireType: nat)
    requires stream.left != []
    modifies stream
    ensures ok <==> DecodeTag(old(stream.left)).Tag?
    ensures ok ==> Tag(tag, wireType, stream.left) == DecodeTag(old(stream.left))
    ensures !ok ==> (eof <==> DecodeTag(old(stream.left)).EndOfMessage?)
  {
    var key;
    ok, key, eof := DecodeVarint32Eof(stream);
    tag, wireType := 0, 0;
    if !ok {
      return;
    }
    if key == 0 {
      return false, true, 0, 0;
    }
    tag, wireType := key / 8, key % 8;
  }

  /** pb_make_string_substream: the parent goes on behind the substream. */
  method MakeSubstream(stream: IStream) returns (ok: bool, substream: IStream)
    modifies stream
    ensures fresh(substream)
    ensures ok <==> Delimited(old(stream.left)).Some?
    ensures ok ==> Delimited(old(stream.left)) == Some((substream.left, stream.left))
  {
    var size, eof, body;
    ghost var s := stream.left;
    substream := new IStream([]);
    ok, size, eof := DecodeVarint32Eof(stream);
    if ok {
      ok, body := stream.Read(size);
      if ok {
        ghost var used := Decode32(s).used;
        assert s[used..][..size] == s[used..used + size] && s[used..][size..] == s[used + size..];
        substream := new IStream(body);
      }
    }
  }

  method SkipVarintBytes(stream: IStream) returns (ok: bool)
    modifies stream
    ensures ok <==> SkipVarint(old(stream.left)).Some?
    ensures ok ==> SkipVarint(old(stream.left)) == Some(stream.left)
  {
    while true
      invariant SkipVarint(stream.left) == SkipVarint(old(stream.left))
      decreases |stream.left|
    {
      var byte;
      ok, byte := stream.ReadByte();
      if !ok || byte < 128 {
        return;
      }
    }
  }

  /** pb_skip_field */
  method Skip(stream: IStream, wireType: nat) returns (ok: bool)
    modifies stream
    ensures ok <==> SkipField(wireType, old(stream.left)).Some?
    ensures ok ==> SkipField(wireType, old(stream.left)) == Some(stream.left)
  {
    ok := false;
    if wireType == 0 {
      ok := SkipVarintBytes(stream);
    } else if wireType == 1 {
      var bytes;
      ok, bytes := stream.Read(8);
    } else if wireType == 2 {
      var body;
      ok, body := MakeSubstream(stream);
    } else if wireType == 5 {
      var bytes;
      ok, bytes := stream.Read(4);
    }
  }

  method ReadFixed(stream: IStream, count: nat) returns (ok: bool, n: nat)
    modifies stream
    ensures ok <==> count <= |old(stream.left)|
    ensures ok ==> n == DecodeFixed(old(stream.left)[..count]) && stream.left == old(stream.left)[count..]
  {
    var bytes;
    ok, bytes := stream.Read(count);
    n := 0;
    if ok {
      var i := count;
      while i > 0
        invariant 0 <= i <= count && n == DecodeFixed(bytes[i..])
      {
        i := i - 1;
        assert bytes[i..][1..] == bytes[i + 1..];
        n := bytes[i] as int + 256 * n;
      }
      assert bytes[0..] == bytes;
    }
  }

  /** pb_dec_bool, pb_dec_varint, pb_dec_uvarint, pb_dec_svarint, pb_dec_fixed32 and pb_dec_fixed64 */
  method ReadNumber(stream: IStream, k: Kind) returns (ok: bool, n: int)
    requires Packable(k)
    modifies stream
    ensures ok <==> DecodeNumber(k, old(stream.left)).Some?
    ensures ok ==> DecodeNumber(k, old(stream.left)) == Some((n, stream.left))
  {
    var value;
    n := 0;
    match k
    case Bool =>
      var eof;
      ok, value, eof := DecodeVarint32Eof(stream);
      n := if value != 0 then 1 else 0;
    case VarInt(size) =>
      ok, value := DecodeVarint(stream);
      n := if size == 8 then Signed(value, TWO_64) else Signed(value, TWO_32);
      ok := ok && IntegerSize(size) && -(Modulus(size) / 2) <= n < Modulus(size) / 2;
    case UVarInt(size) =>
      ok, value := DecodeVarint(stream);
      n := value;
      ok := ok && IntegerSize(size) && value < Modulus(size);
    case SVarInt(size) =>
      ok, value := DecodeVarint(stream);
      n := if value < TWO_64 then UnZigZag(value) else 0;
      ok := ok && IntegerSize(size) && -(Modulus(size) / 2) <= n < Modulus(size) / 2;
    case Fixed32 => ok, n := ReadFixed(stream, 4);
    case Fixed64 => ok, n := ReadFixed(stream, 8);
  }

  // ---------- Descriptors ----------

  function InfoOf(f: Field): F.FieldInfo {
    var h := match f.rule case Required => F.Required case Optional => F.Optional case Repeated(_) => F.Repeated;
    F.FieldInfo(f.tag, h, F.Static, false, 0, 0, 1, if f.rule.Repeated? then f.rule.arraySize else 0)
  }

  const TERMINATOR := F.FieldInfo(0, F.Required, F.Static, false, 0, 0, 0, 0)

  /** The table that the generator writes for a message type. */
  function TableOf(fields: seq<Field>): seq<F.FieldInfo> {
    seq(|fields| + 1, i requires 0 <= i <= |fields| => if i < |fields| then InfoOf(fields[i]) else TERMINATOR)
  }

  lemma {:induction false} SameCount(fields: seq<Field>, i: nat)
    requires i <= |fields|
    ensures F.RequiredBefore(TableOf(fields), i) == RequiredBefore(fields, i)
  {
    if i > 0 {
      SameCount(fields, i - 1);
    }
  }

  /** Every number below the count belongs to a required field. */
  lemma {:induction false} FieldNumbered(fields: seq<Field>, n: nat, b: nat) returns (i: nat)
    requires n <= |fields| && b < RequiredBefore(fields, n)
    ensures i < n && fields[i].rule == Required && RequiredBefore(fields, i) == b
  {
    if fields[n - 1].rule == Required && b == RequiredBefore(fields, n - 1) {
      i := n - 1;
    } else {
      i := FieldNumbered(fields, n - 1, b);
    }
  }

  lemma {:induction false} CountsGrow(fields: seq<Field>, i: nat, n: nat)
    requires i < n <= |fields| && fields[i].rule == Required
    ensures RequiredBefore(fields, i) < RequiredBefore(fields, n)
  {
    if i < n - 1 {
      CountsGrow(fields, i, n - 1);
    }
  }

  /** The bits stand for the required fields that were met. */
  ghost predicate Tracks(fields: seq<Field>, words: seq<seq<bool>>, seen: set<nat>) {
    && F.Words(words)
    && (fields != [] ==> forall b :: b in F.Bits(words) ==> b < RequiredBefore(fields, |fields|))
    && forall i :: 0 <= i < |fields| && fields[i].rule == Required && RequiredBefore(fields, i) < 64 ==>
         (RequiredBefore(fields, i) in F.Bits(words) <==> i in seen)
  }

  lemma BitsBelow64(words: seq<seq<bool>>, b: nat)
    requires F.Words(words) && b in F.Bits(words)
    ensures b < 64
  {
  }

  /** Two required fields have different numbers. */
  lemma NumbersDiffer(fields: seq<Field>, i: nat, j: nat)
    requires i < |fields| && j < |fields| && fields[i].rule == fields[j].rule == Required && i != j
    ensures RequiredBefore(fields, i) != RequiredBefore(fields, j)
  {
    if i < j {
      CountsGrow(fields, i, j);
    } else {
      CountsGrow(fields, j, i);
    }
  }

  /** The bits of the first 64 numbers are all set exactly if those required fields were all met. */
  lemma BitsMeanMet(fields: seq<Field>, words: seq<seq<bool>>, seen: set<nat>)
    requires Tracks(fields, words, seen)
    ensures (forall b :: 0 <= b < RequiredBefore(fields, |fields|) && b < 64 ==> b in F.Bits(words)) <==> RequiredMet(fields, seen)
  {
    if forall b :: 0 <= b < RequiredBefore(fields, |fields|) && b < 64 ==> b in F.Bits(words) {
      forall i | 0 <= i < |fields| && fields[i].rule == Required && RequiredBefore(fields, i) < 64 ensures i in seen {
        CountsGrow(fields, i, |fields|);
      }
    }
    if RequiredMet(fields, seen) {
      forall b | 0 <= b < RequiredBefore(fields, |fields|) && b < 64 ensures b in F.Bits(words) {
        var i := FieldNumbered(fields, |fields|, b);
      }
    }
  }

  /** Marks a field that was found, if it is a required one. */
  method Mark(fields: seq<Field>, words: seq<seq<bool>>, ghost seen: set<nat>, i: nat, index: nat) returns (after: seq<seq<bool>>)
    requires Tracks(fields, words, seen) && i < |fields| && index == RequiredBefore(fields, i)
    ensures Tracks(fields, after, seen + {i})
  {
    after := words;
    if fields[i].rule == Required {
      after := F.MarkSeen(words, index);
      CountsGrow(fields, i, |fields|);
      forall b | b in F.Bits(after) ensures b < RequiredBefore(fields, |fields|) {
        BitsBelow64(after, b);
      }
      forall j | 0 <= j < |fields| && fields[j].rule == Required && RequiredBefore(fields, j) < 64
        ensures RequiredBefore(fields, j) in F.Bits(after) <==> j in seen + {i}
      {
        if j != i {
          NumbersDiffer(fields, i, j);
        }
      }
    }
  }

  // ---------- Values, fields and messages ----------

  /** The bytes of a string up to its first zero, as C sees them. */
  method UpToZero(bytes: Bytes) returns (r: Bytes)
    ensures r == CString(bytes)
  {
    var i := 0;
    while i < |bytes| && bytes[i] != 0
      invariant 0 <= i <= |bytes| && CString(bytes) == bytes[..i] + CString(bytes[i..])
    {
      assert bytes[i..][0] == bytes[i] && bytes[i..][1..] == bytes[i + 1..];
      assert bytes[..i] + [bytes[i]] == bytes[..i + 1];
      i := i + 1;
    }
    r := bytes[..i];
  }

  /** The pb_dec_* functions */
  method ReadValue(stream: IStream, k: Kind, current: Value) returns (ok: bool, v: Value)
    requires k.Submessage? ==> Descriptor(k.fields)
    modifies stream
    ensures ok <==> DecodeValue(k, current, old(stream.left)).Some?
    ensures ok ==> DecodeValue(k, current, old(stream.left)) == Some((v, stream.left))
    decreases |stream.left|, 0
  {
    v := current;
    match k
    case BytesField(capacity) =>
      var substream;
      ok, substream := MakeSubstream(stream);
      ok := ok && |substream.left| <= capacity;
      v := Blob(substream.left);
    case StringField(dataSize) =>
      var substream;
      ok, substream := MakeSubstream(stream);
      ok := ok && |substream.left| + 1 <= dataSize;
      var text := UpToZero(substream.left);
      v := Blob(text);
    case Submessage(fields) =>
      ghost var s := stream.left;
      var substream;
      ok, substream := MakeSubstream(stream);
      if ok {
        var slots := if current.Message? && |current.slots| == |fields| then current.slots else Defaults(fields);
        ok, slots := DecodeNoInit(substream, fields, slots);
        v := Message(slots);
      }
    case _ =>
      var n;
      ok, n := ReadNumber(stream, k);
      v := Number(n);
  }

  /** The loop of decode_static_field over a packed array */
  method ReadPacked(substream: IStream, k: Kind, arraySize: nat, values: seq<Value>) returns (ok: bool, all: seq<Value>)
    requires Packable(k)
    modifies substream
    ensures ok <==> DecodePacked(k, arraySize, values, old(substream.left)).Some?
    ensures ok ==> DecodePacked(k, arraySize, values, old(substream.left)) == Some(all)
  {
    all := values;
    while substream.left != [] && |all| < arraySize
      invariant DecodePacked(k, arraySize, values, old(substream.left)) == DecodePacked(k, arraySize, all, substream.left)
      decreases |substream.left|
    {
      var n;
      ok, n := ReadNumber(substream, k);
      if !ok {
        return;
      }
      all := all + [Number(n)];
    }
    ok := substream.left == [];
  }

  /** decode_static_field for the terminator, which passes for a required bool */
  method ReadTerminator(stream: IStream) returns (ok: bool)
    modifies stream
    ensures ok <==> DecodeTerminator(old(stream.left)).Some?
    ensures ok ==> DecodeTerminator(old(stream.left)) == Some(stream.left)
  {
    var n;
    ok, n := ReadNumber(stream, Bool);
  }

  /** decode_static_field */
  method ReadSlot(stream: IStream, f: Field, slot: Slot, wireType: nat) returns (ok: bool, after: Slot)
    requires WellFormed(f)
    modifies stream
    ensures ok <==> DecodeSlot(f, slot, wireType, old(stream.left)).Some?
    ensures ok ==> DecodeSlot(f, slot, wireType, old(stream.left)) == Some((after, stream.left))
    decreases |stream.left|, 1
  {
    var v;
    after := slot;
    match f.rule
    case Repeated(arraySize) =>
      var values := if slot.Many? then slot.values else [];
      if wireType == 2 && Packable(f.kind) {
        var substream;
        ok, substream := MakeSubstream(stream);
        if ok {
          ok, values := ReadPacked(substream, f.kind, arraySize, values);
          after := Many(values);
        }
      } else if |values| >= arraySize {
        ok := false;
      } else {
        ok, v := ReadValue(stream, f.kind, Default(f.kind));
        after := Many(values + [v]);
      }
    case _ =>
      ok, v := ReadValue(stream, f.kind, if slot.One? then slot.value else Default(f.kind));
      after := One(v);
  }

  lemma TableIsTable(fields: seq<Field>)
    requires Descriptor(fields)
    ensures F.Table(TableOf(fields))
  {
  }

  /** Where the iterator stops is the field with the tag. */
  lemma FoundField(fields: seq<Field>, tag: nat, i: nat)
    requires Descriptor(fields) && i < |fields| && fields[i].tag == tag
    ensures FindField(fields, tag) == Some(i)
  {
  }

  /** pb_decode_noinit: the iterator may stand anywhere when the next key is looked up, and at the end
      it goes on from there to count the required fields. */
  method DecodeNoInit(stream: IStream, fields: seq<Field>, slots: seq<Slot>) returns (ok: bool, after: seq<Slot>)
    requires Descriptor(fields) && |slots| == |fields|
    modifies stream
    ensures ok <==> DecodeMessage(fields, slots, old(stream.left)).Some?
    ensures ok ==> DecodeMessage(fields, slots, old(stream.left)) == Some(after)
    decreases |stream.left|, 3
  {
    TableIsTable(fields);
    var words := [seq(32, _ => false), seq(32, _ => false)];
    var iter := new F.FieldIter.Begin(TableOf(fields), 0);
    ghost var s := stream.left;
    ghost var seen: set<nat> := {};
    after := slots;
    while stream.left != []
      invariant iter.Valid() && iter.fields == TableOf(fields) && |after| == |fields| && Tracks(fields, words, seen)
      invariant |stream.left| <= |s|
      invariant DecodeFields(fields, Progress(slots, {}), s) == DecodeFields(fields, Progress(after, seen), stream.left)
      decreases |stream.left|
    {
      var more, eof, tag, wireType := ReadTag(stream);
      if !more {
        if eof {
          break;
        }
        return false, after;
      }
      var found := iter.Find(tag);
      if !found {
        NotFound(fields, tag, iter);
        ok := Skip(stream, wireType);
        if !ok {
          return;
        }
      } else if iter.pos == |fields| {
        words := F.MarkSeen(words, iter.requiredFieldIndex);
        ok := ReadTerminator(stream);
        if !ok {
          return;
        }
      } else {
        FoundField(fields, tag, iter.pos);
        SameCount(fields, iter.pos);
        words := Mark(fields, words, seen, iter.pos, iter.requiredFieldIndex);
        var slot;
        ok, slot := ReadSlot(stream, fields[iter.pos], after[iter.pos], wireType);
        if !ok {
          return;
        }
        after := after[iter.pos := slot];
        seen := seen + {iter.pos};
      }
    }
    ok := CheckRequired(iter, fields, words, seen);
  }

  /** The end of pb_decode_noinit */
  method CheckRequired(iter: F.FieldIter, fields: seq<Field>, words: seq<seq<bool>>, ghost seen: set<nat>) returns (ok: bool)
    requires iter.Valid() && iter.fields == TableOf(fields) && Tracks(fields, words, seen)
    modifies iter
    ensures ok <==> RequiredMet(fields, seen)
  {
    var count := iter.CountRequired();
    SameCount(fields, |fields|);
    ok := F.AllRequiredSeen(words, count);
    BitsMeanMet(fields, words, seen);
  }

  /** pb_decode */
  method DecodeInit(stream: IStream, fields: seq<Field>) returns (ok: bool, after: seq<Slot>)
    requires Descriptor(fields)
    modifies stream
    ensures ok <==> PbDecode(fields, old(stream.left)).Some?
    ensures ok ==> PbDecode(fields, old(stream.left)) == Some(after)
  {
    ok, after := DecodeNoInit(stream, fields, Defaults(fields));
  }

  lemma NotFound(fields: seq<Field>, tag: nat, iter: F.FieldIter)
    requires iter.fields == TableOf(fields) && !exists i :: iter.Wanted(i, tag)
    ensures FindField(fields, tag) == None && (fields == [] ==> tag != 0)
  {
    assert !iter.Wanted(0, tag);
    forall i | 0 <= i < |fields| ensures fields[i].tag != tag {
      assert !iter.Wanted(i, tag);
    }
  }
}

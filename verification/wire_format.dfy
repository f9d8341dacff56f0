/** The bytes that pb_encode writes are those of the Encoding specification of Protocol Buffers: its rules, told place by
    place, and its examples. */
module WireFormat {
  import opened FixedBytes
  import opened Varints
  import opened Messages

  // ---------- Numbers ----------

  /** The payload bits of all bytes, the least significant group first. */
  function Groups(s: Bytes): nat {
    if s == [] then 0 else s[0] % 128 + 128 * Groups(s[1..])
  }

  /** Every byte but the last says that more follow. */
  predicate Continues(s: Bytes) {
    s != [] && forall i :: 0 <= i < |s| ==> (s[i] >= 128 <==> i < |s| - 1)
  }

  /** Base 128 Varints: the groups are those of the number, and there is no byte too many. */
  lemma {:induction false} VarintIsBase128(value: nat)
    ensures var s := Varint(value); Groups(s) == value && Continues(s) && (|s| > 1 ==> s[|s| - 1] != 0)
  {
    var s := Varint(value);
    if value >= 128 {
      VarintIsBase128(value / 128);
      var rest := Varint(value / 128);
      assert s[1..] == rest;
      forall i | 0 <= i < |s| ensures s[i] >= 128 <==> i < |s| - 1 {
        assert i > 0 ==> s[i] == rest[i - 1];
      }
    } else {
      assert s[1..] == [];
    }
  }

  /** No two strings of that form are the same number. */
  lemma {:induction false} OneVarint(s: Bytes)
    requires Continues(s) && (|s| > 1 ==> s[|s| - 1] != 0)
    ensures s == Varint(Groups(s))
    decreases |s|
  {
    if |s| == 1 {
      assert s[1..] == [];
    } else {
      var rest := s[1..];
      assert s == [s[0]] + rest;
      forall i | 0 <= i < |rest| ensures rest[i] >= 128 <==> i < |rest| - 1 {
        assert rest[i] == s[i + 1];
      }
      OneVarint(rest);
      MoreThanOne(rest);
    }
  }

  lemma {:induction false} MoreThanOne(s: Bytes)
    requires Continues(s) && s[|s| - 1] != 0
    ensures Groups(s) > 0
    decreases |s|
  {
    if |s| > 1 {
      var rest := s[1..];
      forall i | 0 <= i < |rest| ensures rest[i] >= 128 <==> i < |rest| - 1 {
        assert rest[i] == s[i + 1];
      }
      MoreThanOne(rest);
    }
  }

  /** The number without its i lowest bytes. */
  function Shifted(value: nat, i: nat): nat {
    if i == 0 then value else Shifted(value, i - 1) / 256
  }

  lemma {:induction false} ShiftedFirst(value: nat, i: nat)
    ensures Shifted(value / 256, i) == Shifted(value, i + 1)
  {
    if i > 0 {
      ShiftedFirst(value, i - 1);
    }
  }

  /** Fixed widths: the least significant byte first. */
  lemma {:induction false} FixedIsLittleEndian(value: nat, n: nat, i: nat)
    requires i < n
    ensures |EncodeFixed(value, n)| == n && EncodeFixed(value, n)[i] == Shifted(value, i) % 256
    decreases n
  {
    if n > 1 {
      FixedIsLittleEndian(value / 256, n - 1, if i > 0 then i - 1 else 0);
    }
    if i > 0 {
      ShiftedFirst(value, i - 1);
    }
  }

  // ---------- The examples of the specification ----------

  /** A field with number 1 and the value 150. */
  lemma ExampleNumber()
    ensures EncodeMessage([Field(1, VarInt(4), Required)], [One(Number(150))]) == [0x08, 0x96, 0x01]
  {
    var f := Field(1, VarInt(4), Required);
    OneField(f, One(Number(150)));
    assert Varint(150) == [0x96] + Varint(1) && Varint(1) == [1] && Key(f, WtVarint) == [8];
  }

  /** A string with number 2 and the value "testing". */
  lemma ExampleString()
    ensures EncodeMessage([Field(2, StringField(10), Required)], [One(Blob([0x74, 0x65, 0x73, 0x74, 0x69, 0x6e, 0x67]))])
      == [0x12, 0x07, 0x74, 0x65, 0x73, 0x74, 0x69, 0x6e, 0x67]
  {
    var f := Field(2, StringField(10), Required);
    OneField(f, One(Blob([0x74, 0x65, 0x73, 0x74, 0x69, 0x6e, 0x67])));
    assert Key(f, WtString) == [0x12] && Varint(7) == [7];
  }

  /** The message of the first example, inside another one as its field 3. */
  lemma ExampleMessage()
    ensures EncodeMessage([Field(3, Submessage([Field(1, VarInt(4), Required)]), Required)], [One(Message([One(Number(150))]))])
      == [0x1a, 0x03, 0x08, 0x96, 0x01]
  {
    var f := Field(3, Submessage([Field(1, VarInt(4), Required)]), Required);
    ExampleNumber();
    OneField(Field(1, VarInt(4), Required), One(Number(150)));
    OneField(f, One(Message([One(Number(150))])));
    assert Key(f, WtString) == [0x1a] && Varint(3) == [3];
  }

  /** A packed array with number 6 and the values 3, 270 and 86942. */
  lemma ExamplePacked()
    ensures EncodeMessage([Field(6, VarInt(4), Repeated(5))], [Many([Number(3), Number(270), Number(86942)])])
      == [0x32, 0x06, 0x03, 0x8e, 0x02, 0x9e, 0xa7, 0x05]
  {
    var f := Field(6, VarInt(4), Repeated(5));
    var values := [Number(3), Number(270), Number(86942)];
    ThreeNumbers();
    OneField(f, Many(values));
    assert Key(f, WtString) == [0x32] && Varint(6) == [6];
    assert Prefixed([0x03, 0x8e, 0x02, 0x9e, 0xa7, 0x05]) == [0x06, 0x03, 0x8e, 0x02, 0x9e, 0xa7, 0x05];
  }

  lemma ThreeNumbers()
    ensures TypedAll(VarInt(4), [Number(3), Number(270), Number(86942)])
    ensures EncodePacked(VarInt(4), [Number(3), Number(270), Number(86942)]) == [0x03, 0x8e, 0x02, 0x9e, 0xa7, 0x05]
  {
    var k := VarInt(4);
    assert Varint(3) == [3] && Varint(270) == [0x8e] + Varint(2) && Varint(2) == [2];
    assert Varint(86942) == [0x9e] + Varint(679) && Varint(679) == [0xa7] + Varint(5) && Varint(5) == [5];
    NumberFirst(k, 86942, []);
    NumberFirst(k, 270, [Number(86942)]);
    NumberFirst(k, 3, [Number(270)] + [Number(86942)]);
    assert [Number(3)] + ([Number(270)] + [Number(86942)]) == [Number(3), Number(270), Number(86942)];
    assert [Number(86942)] + [] == [Number(86942)];
  }

  lemma NumberFirst(k: Kind, n: nat, more: seq<Value>)
    requires k == VarInt(4) && n < 0x8000_0000 && TypedAll(k, more)
    ensures TypedAll(k, [Number(n)] + more) && EncodePacked(k, [Number(n)] + more) == Varint(n) + EncodePacked(k, more)
  {
    var all := [Number(n)] + more;
    assert all[0] == Number(n) && all[1..] == more;
  }

  lemma OneField(f: Field, s: Slot)
    requires TypedSlot(f, s)
    ensures TypedMessage([f], [s]) && EncodeMessage([f], [s]) == EncodeSlot(f, s)
  {
    assert [f][1..] == [] && [s][1..] == [];
    assert TypedMessage([], []);
    assert EncodeMessage([f], [s]) == EncodeSlot(f, s) + EncodeMessage([], []);
  }
}

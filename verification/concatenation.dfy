/** What repeated occurrences of fields do: decoding one message behind another merges the second into the first. */
module Concatenation {
  import opened FixedBytes
  import opened Options
  import opened Varints
  import opened Messages
  import opened Decode
  import opened RequiredFields

  // ---------- Decoders look no further than their value ----------

  lemma Suffix(a: Bytes, t: Bytes, n: nat)
    requires n <= |a|
    ensures (a + t)[n..] == a[n..] + t && (a + t)[..n] == a[..n]
  {
  }

  lemma {:induction false} Longer64(s: Bytes, t: Bytes, i: nat, result: nat)
    requires i <= |s| && Decode64From(s, i, result).Decoded?
    ensures Decode64From(s + t, i, result) == Decode64From(s, i, result)
    decreases |s| - i
  {
    if s[i] >= 128 {
      Longer64(s, t, i + 1, Or(result, (s[i] % 128) * Power2(7 * i) % TWO_64));
    }
  }

  lemma {:induction false} Longer32(s: Bytes, t: Bytes, i: nat, bitpos: nat, result: nat)
    requires i <= |s| && Decode32From(s, i, bitpos, result).Decoded?
    ensures Decode32From(s + t, i, bitpos, result) == Decode32From(s, i, bitpos, result)
    decreases |s| - i
  {
    if s[i] >= 128 {
      Longer32(s, t, i + 1, (bitpos + 7) % 256, if bitpos >= 32 then result else Or(result, (s[i] % 128) * Power2(bitpos) % TWO_32));
    }
  }

  lemma LongerVarints(s: Bytes, t: Bytes)
    ensures Decode32(s).Decoded? ==> Decode32(s + t) == Decode32(s) && Decode32(s).used <= |s| && (s + t)[Decode32(s).used..] == s[Decode32(s).used..] + t
    ensures Decode64(s).Decoded? ==> Decode64(s + t) == Decode64(s) && Decode64(s).used <= |s| && (s + t)[Decode64(s).used..] == s[Decode64(s).used..] + t
  {
    UsedInRange(s);
    if Decode32(s).Decoded? {
      if s[0] >= 128 {
        Longer32(s, t, 1, 7, s[0] % 128);
      }
      Suffix(s, t, Decode32(s).used);
    }
    if Decode64(s).Decoded? {
      Longer64(s, t, 0, 0);
      Suffix(s, t, Decode64(s).used);
    }
  }

  lemma LongerTag(s: Bytes, t: Bytes)
    requires s != [] && DecodeTag(s) != BadTag
    ensures DecodeTag(s + t) == match DecodeTag(s)
                                case Tag(tag, w, rest) => Tag(tag, w, rest + t)
                                case EndOfMessage(rest) => EndOfMessage(rest + t)
  {
    LongerVarints(s, t);
  }

  lemma LongerDelimited(s: Bytes, t: Bytes)
    requires Delimited(s).Some?
    ensures Delimited(s + t) == Some((Delimited(s).value.0, Delimited(s).value.1 + t))
  {
    LongerVarints(s, t);
    UsedInRange(s);
    var size, used := Decode32(s).value, Decode32(s).used;
    Suffix(s, t, used + size);
    assert (s + t)[used..used + size] == s[used..used + size];
  }

  lemma {:induction false} LongerSkipVarint(s: Bytes, t: Bytes)
    requires SkipVarint(s).Some?
    ensures SkipVarint(s + t) == Some(SkipVarint(s).value + t)
  {
    Suffix(s, t, 1);
    if s[0] >= 128 {
      LongerSkipVarint(s[1..], t);
    }
  }

  lemma LongerSkip(wireType: nat, s: Bytes, t: Bytes)
    requires SkipField(wireType, s).Some?
    ensures SkipField(wireType, s + t) == Some(SkipField(wireType, s).value + t)
  {
    match wireType
    case 0 => LongerSkipVarint(s, t);
    case 1 => Suffix(s, t, 8);
    case 2 => LongerDelimited(s, t);
    case 5 => Suffix(s, t, 4);
    case _ =>
  }

  lemma LongerNumber(k: Kind, s: Bytes, t: Bytes)
    requires Packable(k) && DecodeNumber(k, s).Some?
    ensures DecodeNumber(k, s + t) == Some((DecodeNumber(k, s).value.0, DecodeNumber(k, s).value.1 + t))
  {
    UsedInRange(s);
    UsedInRange(s + t);
    match k
    case Fixed32 => Suffix(s, t, 4);
    case Fixed64 => Suffix(s, t, 8);
    case _ => LongerVarints(s, t);
  }

  lemma LongerValue(k: Kind, current: Value, s: Bytes, t: Bytes)
    requires DecodeValue(k, current, s).Some?
    ensures DecodeValue(k, current, s + t) == Some((DecodeValue(k, current, s).value.0, DecodeValue(k, current, s).value.1 + t))
  {
    if Packable(k) {
      LongerNumber(k, s, t);
    } else {
      LongerDelimited(s, t);
    }
  }

  lemma LongerSlot(f: Field, slot: Slot, wireType: nat, s: Bytes, t: Bytes)
    requires DecodeSlot(f, slot, wireType, s).Some?
    ensures DecodeSlot(f, slot, wireType, s + t) == Some((DecodeSlot(f, slot, wireType, s).value.0, DecodeSlot(f, slot, wireType, s).value.1 + t))
  {
    match f.rule
    case Repeated(arraySize) =>
      if wireType == 2 && Packable(f.kind) {
        LongerDelimited(s, t);
      } else {
        LongerValue(f.kind, Default(f.kind), s, t);
      }
    case _ => LongerValue(f.kind, if slot.One? then slot.value else Default(f.kind), s, t);
  }

  // ---------- Messages ----------

  /** The bytes are keys and values to their end, without the zero key that ends a message early. */
  ghost predicate Open(fields: seq<Field>, s: Bytes)
    decreases |s|
  {
    s == [] || (DecodeTag(s).Tag? &&
      var t := DecodeTag(s);
      var after := Behind(fields, t.tag, t.wireType, t.rest);
      after.Some? && |after.value| < |s| && Open(fields, after.value))
  }

  /** The loop over the fields goes on where it would have ended, and looks at nothing behind a zero key. */
  lemma {:induction false} GoesOn(fields: seq<Field>, p: Progress, a: Bytes, b: Bytes)
    requires |p.slots| == |fields| && DecodeFields(fields, p, a).Some?
    ensures Open(fields, a) ==> DecodeFields(fields, p, a + b) == DecodeFields(fields, DecodeFields(fields, p, a).value, b)
    ensures !Open(fields, a) ==> DecodeFields(fields, p, a + b) == DecodeFields(fields, p, a)
    decreases |a|
  {
    if a == [] {
      assert a + b == b;
    } else {
      LongerTag(a, b);
      if DecodeTag(a).Tag? {
        var t := DecodeTag(a);
        var i := FindField(fields, t.tag);
        UsedInRange(t.rest);
        if i == None {
          var after := if fields == [] && t.tag == 0 then DecodeTerminator(t.rest) else SkipField(t.wireType, t.rest);
          if fields == [] && t.tag == 0 {
            LongerNumber(Bool, t.rest, b);
          } else {
            LongerSkip(t.wireType, t.rest, b);
          }
          GoesOn(fields, p, after.value, b);
        } else {
          var d := DecodeSlot(fields[i.value], p.slots[i.value], t.wireType, t.rest).value;
          BehindSlot(fields[i.value], p.slots[i.value], t.wireType, t.rest);
          LongerSlot(fields[i.value], p.slots[i.value], t.wireType, t.rest, b);
          GoesOn(fields, Progress(p.slots[i.value := d.0], p.seen + {i.value}), d.1, b);
        }
      }
    }
  }

  /** What was seen before only adds to what is seen. */
  lemma {:induction false} SeenAside(fields: seq<Field>, p: Progress, seen: set<nat>, s: Bytes)
    requires |p.slots| == |fields|
    ensures DecodeFields(fields, p, s).Some? <==> DecodeFields(fields, p.(seen := seen), s).Some?
    ensures DecodeFields(fields, p, s).Some? ==>
      var q := DecodeFields(fields, p, s).value;
      p.seen <= q.seen && DecodeFields(fields, p.(seen := seen), s).value.slots == q.slots
    decreases |s|
  {
    if s != [] && DecodeTag(s).Tag? {
      var t := DecodeTag(s);
      var i := FindField(fields, t.tag);
      if i == None {
        var after := if fields == [] && t.tag == 0 then DecodeTerminator(t.rest) else SkipField(t.wireType, t.rest);
        if after.Some? {
          SeenAside(fields, p, seen, after.value);
        }
      } else {
        var d := DecodeSlot(fields[i.value], p.slots[i.value], t.wireType, t.rest);
        if d.Some? {
          SeenAside(fields, Progress(p.slots[i.value := d.value.0], p.seen + {i.value}), seen + {i.value}, d.value.1);
        }
      }
    }
  }

  /** A message, and more behind it: the same as to decode the rest into what the message left, where nothing is
      required any more. */
  lemma {:induction false} Merges(fields: seq<Field>, slots: seq<Slot>, a: Bytes, b: Bytes)
    requires |slots| == |fields| && Open(fields, a) && DecodeMessage(fields, slots, a).Some?
    ensures DecodeMessage(fields, slots, a + b) == DecodeMessage(Loosened(fields), DecodeMessage(fields, slots, a).value, b)
  {
    var q := DecodeFields(fields, Progress(slots, {}), a).value;
    GoesOn(fields, Progress(slots, {}), a, b);
    SeenAside(fields, q, {}, b);
    SameFields(fields, Progress(q.slots, {}), b);
    var r := DecodeFields(fields, Progress(q.slots, {}), b);
    NothingRequired(fields, if r.Some? then r.value.seen else {});
  }
}

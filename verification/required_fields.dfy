/** What pb_decode's check of required fields means for the bytes: a message is refused for it exactly if one of its
    first 64 required fields does not occur in them. */
module RequiredFields {
  import opened FixedBytes
  import opened Options
  import opened Varints
  import opened Messages
  import opened Decode

  // ---------- Which fields occur ----------

  function Rest(d: Decoded, s: Bytes): Option<Bytes> {
    if d.Decoded? && d.used <= |s| then Some(s[d.used..]) else None
  }

  /** What follows a number of that kind, whatever it is. */
  function BehindNumber(k: Kind, s: Bytes): Option<Bytes> {
    match k
    case Bool => Rest(Decode32(s), s)
    case Fixed32 => if |s| < 4 then None else Some(s[4..])
    case Fixed64 => if |s| < 8 then None else Some(s[8..])
    case _ => Rest(Decode64(s), s)
  }

  /** What follows the value of a field: a number, or a packed array or anything else with its length before it. */
  function BehindValue(f: Field, wireType: nat, s: Bytes): Option<Bytes> {
    if Packable(f.kind) && !(f.rule.Repeated? && wireType == 2) then BehindNumber(f.kind, s)
    else if Delimited(s) == None then None else Some(Delimited(s).value.1)
  }

  /** What follows the value behind a key. */
  function Behind(fields: seq<Field>, tag: nat, wireType: nat, s: Bytes): Option<Bytes> {
    if FindField(fields, tag).Some? then BehindValue(fields[FindField(fields, tag).value], wireType, s)
    else if fields == [] && tag == 0 then BehindNumber(Bool, s) else SkipField(wireType, s)
  }

  /** The tags of the keys, one value after the other, up to the end of the message. */
  ghost function TagsIn(fields: seq<Field>, s: Bytes): set<nat>
    decreases |s|
  {
    if s == [] || !DecodeTag(s).Tag? then {}
    else
      var t := DecodeTag(s);
      var after := Behind(fields, t.tag, t.wireType, t.rest);
      {t.tag} + if after == None || |after.value| >= |s| then {} else TagsIn(fields, after.value)
  }

  /** Required field i is in the message. */
  ghost predicate Occurs(fields: seq<Field>, i: nat, s: Bytes)
    requires i < |fields|
  {
    fields[i].tag in TagsIn(fields, s)
  }

  lemma BehindSlot(f: Field, slot: Slot, wireType: nat, s: Bytes)
    requires DecodeSlot(f, slot, wireType, s).Some?
    ensures BehindValue(f, wireType, s) == Some(DecodeSlot(f, slot, wireType, s).value.1)
  {
    UsedInRange(s);
  }

  lemma BehindKey(fields: seq<Field>, s: Bytes)
    requires s != [] && DecodeTag(s).Tag?
    ensures var t := DecodeTag(s); var after := Behind(fields, t.tag, t.wireType, t.rest); after.Some? ==> |after.value| < |s|
  {
    var t := DecodeTag(s);
    UsedInRange(t.rest);
  }

  /** The fields that were met, as the bytes tell them. */
  ghost function Met(fields: seq<Field>, s: Bytes): set<nat> {
    set i | 0 <= i < |fields| && Occurs(fields, i, s)
  }

  lemma MetStep(fields: seq<Field>, s: Bytes)
    requires s != [] && DecodeTag(s).Tag? && Descriptor(fields)
    requires Behind(fields, DecodeTag(s).tag, DecodeTag(s).wireType, DecodeTag(s).rest).Some?
    ensures var t := DecodeTag(s); var after, i := Behind(fields, t.tag, t.wireType, t.rest).value, FindField(fields, t.tag);
      |after| < |s| && Met(fields, s) == Met(fields, after) + if i.Some? then {i.value} else {}
  {
    var t := DecodeTag(s);
    var after := Behind(fields, t.tag, t.wireType, t.rest).value;
    BehindKey(fields, s);
    assert TagsIn(fields, s) == {t.tag} + TagsIn(fields, after);
  }

  /** The loop over the fields meets exactly the fields that occur. */
  lemma {:induction false} SeenOccur(fields: seq<Field>, p: Progress, s: Bytes)
    requires |p.slots| == |fields| && Descriptor(fields) && DecodeFields(fields, p, s).Some?
    ensures DecodeFields(fields, p, s).value.seen == p.seen + Met(fields, s)
    decreases |s|
  {
    if s != [] && DecodeTag(s).Tag? {
      var t := DecodeTag(s);
      var i := FindField(fields, t.tag);
      if i == None {
        var after := if fields == [] && t.tag == 0 then DecodeTerminator(t.rest) else SkipField(t.wireType, t.rest);
        UsedInRange(t.rest);
        MetStep(fields, s);
        SeenOccur(fields, p, after.value);
      } else {
        var d := DecodeSlot(fields[i.value], p.slots[i.value], t.wireType, t.rest);
        BehindSlot(fields[i.value], p.slots[i.value], t.wireType, t.rest);
        MetStep(fields, s);
        SeenOccur(fields, Progress(p.slots[i.value := d.value.0], p.seen + {i.value}), d.value.1);
      }
    }
  }

  // ---------- The same message type without the demand ----------

  function Loose(f: Field): Field {
    if f.rule == Required then f.(rule := Optional) else f
  }

  /** Nothing is required any more, at the top level. */
  function Loosened(fields: seq<Field>): (l: seq<Field>)
    ensures |l| == |fields| && forall i :: 0 <= i < |l| ==> l[i] == Loose(fields[i])
  {
    if fields == [] then [] else [Loose(fields[0])] + Loosened(fields[1..])
  }

  lemma {:induction false} SamePlace(fields: seq<Field>, tag: nat, n: nat)
    requires n <= |fields|
    ensures FindFieldIn(Loosened(fields), tag, n) == FindFieldIn(fields, tag, n)
  {
    if n > 0 {
      SamePlace(fields, tag, n - 1);
    }
  }

  lemma SameSlot(f: Field, slot: Slot, wireType: nat, s: Bytes)
    ensures DecodeSlot(Loose(f), slot, wireType, s) == DecodeSlot(f, slot, wireType, s)
  {
  }

  lemma {:induction false} SameFields(fields: seq<Field>, p: Progress, s: Bytes)
    requires |p.slots| == |fields|
    ensures DecodeFields(Loosened(fields), p, s) == DecodeFields(fields, p, s)
    decreases |s|
  {
    if s != [] && DecodeTag(s).Tag? {
      var t := DecodeTag(s);
      var i := FindField(fields, t.tag);
      SamePlace(fields, t.tag, |fields|);
      if i == None {
        var after := if fields == [] && t.tag == 0 then DecodeTerminator(t.rest) else SkipField(t.wireType, t.rest);
        if after.Some? {
          SameFields(fields, p, after.value);
        }
      } else {
        var d := DecodeSlot(fields[i.value], p.slots[i.value], t.wireType, t.rest);
        SameSlot(fields[i.value], p.slots[i.value], t.wireType, t.rest);
        if d.Some? {
          SameFields(fields, Progress(p.slots[i.value := d.value.0], p.seen + {i.value}), d.value.1);
        }
      }
    }
  }

  // ---------- The check ----------

  /** The required fields before field i. */
  function RequiredAhead(fields: seq<Field>, i: nat): set<nat> {
    set k | 0 <= k < i && k < |fields| && fields[k].rule == Required
  }

  lemma {:induction false} AheadCounted(fields: seq<Field>, i: nat)
    requires i <= |fields|
    ensures RequiredBefore(fields, i) == |RequiredAhead(fields, i)|
  {
    if i > 0 {
      AheadCounted(fields, i - 1);
      assert RequiredAhead(fields, i) == RequiredAhead(fields, i - 1) + if fields[i - 1].rule == Required then {i - 1} else {};
    } else {
      assert RequiredAhead(fields, 0) == {};
    }
  }

  /** Each of the first 64 required fields occurs in the bytes. */
  ghost predicate AllOccur(fields: seq<Field>, s: Bytes) {
    forall i :: 0 <= i < |fields| && fields[i].rule == Required && |RequiredAhead(fields, i)| < 64 ==> Occurs(fields, i, s)
  }

  lemma {:induction false} NothingRequired(fields: seq<Field>, seen: set<nat>)
    ensures RequiredMet(Loosened(fields), seen)
  {
  }

  /** A message is decoded, to the same values, exactly if it would be without the demand and each of the first 64
      required fields occurs. */
  lemma {:induction false} RequiredExactly(fields: seq<Field>, slots: seq<Slot>, s: Bytes)
    requires Descriptor(fields) && |slots| == |fields|
    ensures DecodeMessage(fields, slots, s) == if AllOccur(fields, s) then DecodeMessage(Loosened(fields), slots, s) else None
  {
    var start := Progress(slots, {});
    SameFields(fields, start, s);
    var p := DecodeFields(fields, start, s);
    if p.Some? {
      NothingRequired(fields, p.value.seen);
      SeenOccur(fields, start, s);
      assert p.value.seen == Met(fields, s);
      MetMeansOccur(fields, s);
    }
  }

  lemma {:induction false} MetMeansOccur(fields: seq<Field>, s: Bytes)
    ensures RequiredMet(fields, Met(fields, s)) <==> AllOccur(fields, s)
  {
    forall i | 0 <= i < |fields| ensures i in Met(fields, s) <==> Occurs(fields, i, s) {
    }
    forall i | 0 <= i < |fields| ensures RequiredBefore(fields, i) == |RequiredAhead(fields, i)| {
      AheadCounted(fields, i);
    }
  }

  /** Of nothing at all, a message without required fields is decoded and no other. */
  lemma {:induction false} NothingSent(fields: seq<Field>, slots: seq<Slot>)
    requires Descriptor(fields) && |slots| == |fields|
    ensures DecodeMessage(fields, slots, []) == if exists i :: 0 <= i < |fields| && fields[i].rule == Required then None else Some(slots)
  {
    RequiredExactly(fields, slots, []);
    if i :| 0 <= i < |fields| && fields[i].rule == Required {
      var k := FirstRequired(fields, i);
      assert RequiredAhead(fields, k) == {};
      assert !Occurs(fields, k, []);
    }
  }

  lemma {:induction false} FirstRequired(fields: seq<Field>, i: nat) returns (k: nat)
    requires i < |fields| && fields[i].rule == Required
    ensures k <= i && fields[k].rule == Required && forall j :: 0 <= j < k ==> fields[j].rule != Required
  {
    if j :| 0 <= j < i && fields[j].rule == Required {
      k := FirstRequired(fields, j);
    } else {
      k := i;
    }
  }
}

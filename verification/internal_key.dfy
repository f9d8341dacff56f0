/** Internal keys as bytes: AppendInternalKey, ParseInternalKey, and the comparator, which works on
    the packed form without parsing it. */
module InternalKeys {
  import opened Entries
  import opened Options
  import opened FixedBytes

  /** The user comparator, given by the place of every byte string in its order. */
  type Order = Bytes -> int

  datatype ParsedInternalKey = ParsedInternalKey(userKey: Bytes, sequence: nat, kind: TypeByte)

  function Pack(sequence: nat, kind: TypeByte): nat {
    sequence * 256 + kind
  }

  function AppendInternalKey(result: Bytes, key: ParsedInternalKey): Bytes {
    result + key.userKey + EncodeFixed(Pack(key.sequence, key.kind), 8)
  }

  function ExtractUserKey(k: Bytes): Bytes
    requires |k| >= 8
  {
    k[..|k| - 8]
  }

  function Tag(k: Bytes): nat
    requires |k| >= 8
  {
    DecodeFixed(k[|k| - 8..])
  }

  /** The parts of a key of eight bytes or more, whatever its type byte. */
  function Parts(k: Bytes): ParsedInternalKey
    requires |k| >= 8
  {
    ParsedInternalKey(ExtractUserKey(k), Tag(k) / 256, Tag(k) % 256)
  }

  function ParseInternalKey(k: Bytes): Option<ParsedInternalKey> {
    if |k| < 8 then None
    else if Tag(k) % 256 <= VALUE then Some(Parts(k))
    else None
  }

  /** InternalKeyComparator::Compare: user keys first, then the packed numbers, the larger first. */
  function Compare(order: Order, a: Bytes, b: Bytes): int
    requires |a| >= 8 && |b| >= 8
  {
    var r := order(ExtractUserKey(a)) - order(ExtractUserKey(b));
    if r == 0 then
      if Tag(a) > Tag(b) then -1 else if Tag(a) < Tag(b) then 1 else 0
    else r
  }

  /** The entry that an encoded key stands for. */
  function EntryFor(order: Order, k: Bytes): Entry
    requires |k| >= 8
  {
    Entry(order(ExtractUserKey(k)), Parts(k).sequence, Parts(k).kind, "")
  }

  /** Every key with a 56-bit sequence number survives packing; it is found again at the end of
      whatever it was appended to. */
  lemma KeyRoundTrip(prefix: Bytes, key: ParsedInternalKey)
    requires key.sequence <= MAX_SEQUENCE
    ensures var k := AppendInternalKey(prefix, key);
      && |k| == |prefix| + |key.userKey| + 8
      && Parts(k[|prefix|..]) == key
      && ParseInternalKey(k[|prefix|..]) == if key.kind <= VALUE then Some(key) else None
  {
    var tag := EncodeFixed(Pack(key.sequence, key.kind), 8);
    TagRoundTrip(key.sequence, key.kind);
    Splits(prefix, key.userKey, tag);
  }

  lemma TagRoundTrip(sequence: nat, kind: TypeByte)
    requires sequence <= MAX_SEQUENCE
    ensures var tag := EncodeFixed(Pack(sequence, kind), 8);
      |tag| == 8 && DecodeFixed(tag) / 256 == sequence && DecodeFixed(tag) % 256 == kind
  {
    assert Power256(8) == 0x1_0000_0000_0000_0000;
    FixedRoundTrip(Pack(sequence, kind), 8);
  }

  lemma Splits(prefix: Bytes, userKey: Bytes, tag: Bytes)
    ensures var k := (prefix + userKey + tag)[|prefix|..];
      k == userKey + tag && k[..|k| - |tag|] == userKey && k[|k| - |tag|..] == tag
  {
  }

  /** Comparing packed numbers is comparing sequence numbers and then types, so the order of the
      bytes is the order of the entries, for keys that parse and for those that do not. */
  lemma CompareIsBefore(order: Order, a: Bytes, b: Bytes)
    requires |a| >= 8 && |b| >= 8
    ensures Compare(order, a, b) < 0 <==> Before(EntryFor(order, a), EntryFor(order, b))
    ensures Compare(order, a, b) > 0 <==> Before(EntryFor(order, b), EntryFor(order, a))
    ensures Compare(order, a, b) == 0 <==> EntryFor(order, a) == EntryFor(order, b)
  {
    Digits(Tag(a), Tag(b));
    Digits(Tag(b), Tag(a));
  }

  lemma Digits(s: nat, t: nat)
    ensures s > t <==> s / 256 > t / 256 || (s / 256 == t / 256 && s % 256 > t % 256)
  {
  }

  /** The key that LookupKey builds for a read: no entry that the snapshot sees comes before it, and
      every entry for the key that it does not see does. */
  lemma SeekKeySplits(order: Order, u: Bytes, snapshot: nat, k: Bytes)
    requires snapshot <= MAX_SEQUENCE && |k| >= 8 && ParseInternalKey(k).Some?
    requires order(ExtractUserKey(k)) == order(u)
    ensures var seek := AppendInternalKey([], ParsedInternalKey(u, snapshot, VALUE));
      |seek| >= 8 && (Compare(order, k, seek) < 0 <==> Parts(k).sequence > snapshot)
  {
    KeyRoundTrip([], ParsedInternalKey(u, snapshot, VALUE));
    var seek := AppendInternalKey([], ParsedInternalKey(u, snapshot, VALUE));
    assert seek[0..] == seek;
    CompareIsBefore(order, k, seek);
  }

  // ---------- Shortened keys ----------

  /** What the user comparator promises of its separators and successors. */
  ghost predicate Separates(order: Order, start: Bytes, limit: Bytes, s: Bytes) {
    s == start || (order(start) <= order(s) && order(s) < order(limit))
  }

  /** FindShortestSeparator, given the separator of the user keys. */
  function FindShortestSeparator(order: Order, start: Bytes, separator: Bytes): Bytes
    requires |start| >= 8
  {
    var userStart := ExtractUserKey(start);
    if |separator| < |userStart| && order(userStart) < order(separator) then
      separator + EncodeFixed(Pack(MAX_SEQUENCE, VALUE), 8)
    else start
  }

  /** FindShortSuccessor, given the successor of the user key. */
  function FindShortSuccessor(order: Order, key: Bytes, successor: Bytes): Bytes
    requires |key| >= 8
  {
    FindShortestSeparator(order, key, successor)
  }

  /** A separator of internal keys still lies at or after start and before limit. */
  lemma SeparatorSeparates(order: Order, start: Bytes, limit: Bytes, separator: Bytes)
    requires |start| >= 8 && |limit| >= 8 && Compare(order, start, limit) < 0
    requires Separates(order, ExtractUserKey(start), ExtractUserKey(limit), separator)
    ensures var s := FindShortestSeparator(order, start, separator);
      |s| >= 8 && Compare(order, start, s) <= 0 && Compare(order, s, limit) < 0
  {
    AppendedKey(separator);
  }

  lemma SuccessorFollows(order: Order, key: Bytes, successor: Bytes)
    requires |key| >= 8 && order(ExtractUserKey(key)) <= order(successor)
    ensures var s := FindShortSuccessor(order, key, successor);
      |s| >= 8 && Compare(order, key, s) <= 0
  {
    AppendedKey(successor);
  }

  lemma AppendedKey(userKey: Bytes)
    ensures var k := userKey + EncodeFixed(Pack(MAX_SEQUENCE, VALUE), 8);
      |k| >= 8 && ExtractUserKey(k) == userKey
  {
  }
}

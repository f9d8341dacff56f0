/** Internal keys, as db/dbformat.h stores them, and what a set of entries shows to a reader.

    A user key stands for its place in the order of the user-supplied comparator: two
    keys that the comparator calls equal are the same key to the engine. */
module Entries {
  import opened Options

  type UserKey = int
  type Value = string

  /** The last byte of an internal key. Only 0 and 1 are value types; every other byte
      is stored and sorted all the same, but does not parse. */
  type TypeByte = b: int | 0 <= b < 256
  const DELETION: TypeByte := 0
  const VALUE: TypeByte := 1

  const MAX_SEQUENCE := 0xff_ffff_ffff_ffff

  datatype Entry = Entry(key: UserKey, sequence: nat, kind: TypeByte, value: Value)

  /** ParseInternalKey succeeds. */
  predicate Parses(e: Entry) {
    e.kind <= VALUE
  }

  /** The order of InternalKeyComparator: user key up, then sequence and type down. */
  predicate Before(a: Entry, b: Entry) {
    || a.key < b.key
    || (a.key == b.key && (a.sequence > b.sequence || (a.sequence == b.sequence && a.kind > b.kind)))
  }

  ghost predicate Sorted(s: seq<Entry>) {
    forall i, j :: 0 <= i < j < |s| ==> Before(s[i], s[j])
  }

  ghost function Elements(s: seq<Entry>): set<Entry> {
    set e | e in s
  }

  /** e may answer a read of u at snapshot s. */
  predicate Candidate(e: Entry, u: UserKey, s: nat) {
    e.key == u && e.sequence <= s && Parses(e)
  }

  /** e is the entry that answers a read of u at snapshot s. */
  ghost predicate Newest(E: set<Entry>, u: UserKey, s: nat, e: Entry) {
    && e in E
    && Candidate(e, u, s)
    && forall o :: o in E && Candidate(o, u, s) ==> o.sequence <= e.sequence
  }

  /** No two entries were given the same sequence number for one key. */
  ghost predicate Distinct(E: set<Entry>) {
    forall a, b :: a in E && b in E && Parses(a) && Parses(b) && a.key == b.key && a.sequence == b.sequence ==> a == b
  }

  /** What a read of u at snapshot s finds in E; a deletion and an absent key look the same. */
  ghost function View(E: set<Entry>, u: UserKey, s: nat): Option<Value> {
    if exists e :: Newest(E, u, s, e) && e.kind == VALUE
    then (var e :| Newest(E, u, s, e) && e.kind == VALUE; Some(e.value))
    else None
  }

  function Shown(e: Entry): Option<Value> {
    if e.kind == VALUE then Some(e.value) else None
  }

  lemma ViewOfNewest(E: set<Entry>, u: UserKey, s: nat, e: Entry)
    requires Distinct(E) && Newest(E, u, s, e)
    ensures View(E, u, s) == Shown(e)
  {
  }

  lemma NewestExists(E: set<Entry>, u: UserKey, s: nat, c: Entry) returns (e: Entry)
    requires c in E && Candidate(c, u, s)
    ensures Newest(E, u, s, e) && c.sequence <= e.sequence
    decreases s - c.sequence
  {
    if o :| o in E && Candidate(o, u, s) && o.sequence > c.sequence {
      e := NewestExists(E, u, s, o);
    } else {
      e := c;
    }
  }

  /** Two sets that agree on their newest candidate show the same. */
  lemma SameNewestSameView(E: set<Entry>, F: set<Entry>, u: UserKey, s: nat)
    requires Distinct(E) && Distinct(F)
    requires forall e :: e in E && Candidate(e, u, s) ==>
               e in F || exists o :: o in E * F && Candidate(o, u, s) && o.sequence > e.sequence
    requires forall e :: e in F && Candidate(e, u, s) ==>
               e in E || exists o :: o in E * F && Candidate(o, u, s) && o.sequence > e.sequence
    ensures View(E, u, s) == View(F, u, s)
  {
  }
}

/** What the database means: a map from keys to values that changes by whole batches. */
module History {
  import opened Entries
  import opened Options

  /** One update of a WriteBatch. */
  datatype Op = Op(kind: TypeByte, key: UserKey, value: Value)

  /** A batch group that went through the write path; one whose log append failed uses up
      its sequence numbers but is not applied. */
  datatype Group = Group(ops: seq<Op>, applied: bool)

  ghost predicate WellFormed(ops: seq<Op>) {
    forall i :: 0 <= i < |ops| ==> ops[i].kind <= VALUE
  }

  /** The last sequence number in use after these groups. */
  ghost function Last(groups: seq<Group>): nat {
    if groups == [] then 0 else Last(groups[..|groups| - 1]) + |groups[|groups| - 1].ops|
  }

  /** Op i of a group gets sequence number base + 1 + i. */
  function EntryOf(ops: seq<Op>, base: nat, i: nat): Entry
    requires i < |ops|
  {
    Entry(ops[i].key, base + 1 + i, ops[i].kind, ops[i].value)
  }

  /** The entries of the first n ops of a group. */
  ghost function GroupEntries(ops: seq<Op>, base: nat, n: nat): set<Entry>
    requires n <= |ops|
  {
    set i: nat | i < n :: EntryOf(ops, base, i)
  }

  /** Every entry that the groups wrote. */
  ghost function Written(groups: seq<Group>): set<Entry> {
    if groups == [] then {}
    else
      var before, g := groups[..|groups| - 1], groups[|groups| - 1];
      Written(before) + if g.applied then GroupEntries(g.ops, Last(before), |g.ops|) else {}
  }

  /** The map that the groups leave behind: each applied group, whole, in order. */
  ghost function State(groups: seq<Group>, u: UserKey): Option<Value> {
    if groups == [] then None
    else
      var before, g := groups[..|groups| - 1], groups[|groups| - 1];
      if g.applied then After(g.ops, |g.ops|, State(before, u), u) else State(before, u)
  }

  /** The value of u once the first n ops have been done. */
  ghost function After(ops: seq<Op>, n: nat, before: Option<Value>, u: UserKey): Option<Value>
    requires n <= |ops|
  {
    if n == 0 then before
    else if ops[n - 1].key != u then After(ops, n - 1, before, u)
    else if ops[n - 1].kind == VALUE then Some(ops[n - 1].value)
    else None
  }

  ghost predicate AllWellFormed(groups: seq<Group>) {
    forall i :: 0 <= i < |groups| ==> WellFormed(groups[i].ops)
  }

  /** Every sequence number in E is above a and at most b, and every entry parses. */
  ghost predicate Within(E: set<Entry>, a: nat, b: nat) {
    forall e :: e in E ==> a < e.sequence <= b && Parses(e)
  }

  /** A sequence number names one entry. */
  ghost predicate Numbered(E: set<Entry>) {
    forall e, f :: e in E && f in E && e.sequence == f.sequence ==> e == f
  }

  lemma GroupWithin(ops: seq<Op>, base: nat, n: nat)
    requires n <= |ops| && WellFormed(ops)
    ensures Within(GroupEntries(ops, base, n), base, base + n) && Numbered(GroupEntries(ops, base, n))
  {
  }

  lemma GroupGrows(ops: seq<Op>, base: nat, n: nat)
    requires n < |ops|
    ensures GroupEntries(ops, base, n + 1) == GroupEntries(ops, base, n) + {EntryOf(ops, base, n)}
  {
  }

  lemma {:induction false} WrittenWithin(groups: seq<Group>)
    requires AllWellFormed(groups)
    ensures Within(Written(groups), 0, Last(groups)) && Numbered(Written(groups))
  {
    if groups != [] {
      var before, g := groups[..|groups| - 1], groups[|groups| - 1];
      WrittenWithin(before);
      GroupWithin(g.ops, Last(before), |g.ops|);
    }
  }

  /** Entries above the snapshot do not matter to a read. */
  lemma LaterEntries(E: set<Entry>, F: set<Entry>, u: UserKey, s: nat)
    requires Distinct(E + F)
    requires forall e :: e in F ==> e.sequence > s
    ensures View(E + F, u, s) == View(E, u, s)
  {
  }

  /** A read of u at s finds v. */
  ghost predicate Answers(E: set<Entry>, u: UserKey, s: nat, v: Option<Value>) {
    forall q {:trigger View(E, q, s)} :: q == u ==> View(E, q, s) == v
  }

  /** A read at the end of a group sees its ops on top of what was there before. */
  lemma {:induction false} ReadAfter(E: set<Entry>, F: set<Entry>, ops: seq<Op>, base: nat, n: nat, u: UserKey, before: Option<Value>)
    requires n <= |ops| && WellFormed(ops) && Within(E, 0, base) && Numbered(E)
    requires Answers(E, u, base, before) && F == E + GroupEntries(ops, base, n)
    ensures Answers(F, u, base + n, After(ops, n, before, u))
  {
    if n == 0 {
      assert F == E;
    } else {
      var D := E + GroupEntries(ops, base, n - 1);
      if ops[n - 1].key == u {
        OwnOp(E, F, ops, base, n);
      } else {
        ReadAfter(E, D, ops, base, n - 1, u, before);
        OtherOp(E, D, F, ops, base, n, u, After(ops, n - 1, before, u));
      }
    }
  }

  lemma OwnOp(E: set<Entry>, F: set<Entry>, ops: seq<Op>, base: nat, n: nat)
    requires 0 < n <= |ops| && WellFormed(ops) && Within(E, 0, base) && Numbered(E)
    requires F == E + GroupEntries(ops, base, n)
    ensures Answers(F, ops[n - 1].key, base + n, Shown(EntryOf(ops, base, n - 1)))
  {
  }

  lemma OtherOp(E: set<Entry>, D: set<Entry>, F: set<Entry>, ops: seq<Op>, base: nat, n: nat, u: UserKey, v: Option<Value>)
    requires 0 < n <= |ops| && WellFormed(ops) && Within(E, 0, base) && Numbered(E) && ops[n - 1].key != u
    requires D == E + GroupEntries(ops, base, n - 1) && F == E + GroupEntries(ops, base, n)
    requires Answers(D, u, base + (n - 1), v)
    ensures Answers(F, u, base + n, v)
  {
    OneMore(E, D, F, ops, base, n);
    StillAnswers(D, u, base + (n - 1), base + n, v);
    OtherKey(D, F, EntryOf(ops, base, n - 1), u, base + n, v);
  }

  lemma OneMore(E: set<Entry>, D: set<Entry>, F: set<Entry>, ops: seq<Op>, base: nat, n: nat)
    requires 0 < n <= |ops| && WellFormed(ops) && Within(E, 0, base) && Numbered(E)
    requires D == E + GroupEntries(ops, base, n - 1) && F == E + GroupEntries(ops, base, n)
    ensures F == D + {EntryOf(ops, base, n - 1)} && Distinct(F) && Distinct(D) && Within(D, 0, base + (n - 1))
  {
  }

  lemma StillAnswers(E: set<Entry>, u: UserKey, s: nat, t: nat, v: Option<Value>)
    requires Distinct(E) && s <= t && Within(E, 0, s) && Answers(E, u, s, v)
    ensures Answers(E, u, t, v)
  {
    SameUpTo(E, u, s, t);
  }

  lemma OtherKey(D: set<Entry>, F: set<Entry>, e: Entry, u: UserKey, s: nat, v: Option<Value>)
    requires F == D + {e} && Distinct(F) && e.key != u && Answers(D, u, s, v)
    ensures Answers(F, u, s, v)
  {
    assert Distinct(D);
    SameNewestSameView(F, D, u, s);
  }

  lemma OnTop(E: set<Entry>, ops: seq<Op>, base: nat, n: nat)
    requires n <= |ops| && WellFormed(ops) && Within(E, 0, base) && Numbered(E)
    ensures var F := E + GroupEntries(ops, base, n); Within(F, 0, base + n) && Numbered(F) && Distinct(F)
  {
  }

  /** Reads agree at two snapshots with no entry in between. */
  lemma SameUpTo(E: set<Entry>, u: UserKey, s: nat, t: nat)
    requires Distinct(E) && s <= t && forall e :: e in E && e.sequence <= t ==> e.sequence <= s
    ensures View(E, u, s) == View(E, u, t)
  {
  }

  /** Reading the written entries at the end of the groups gives the state they leave behind. */
  lemma {:induction false} ReadsTheState(groups: seq<Group>, u: UserKey)
    requires AllWellFormed(groups)
    ensures View(Written(groups), u, Last(groups)) == State(groups, u)
  {
    if groups != [] {
      var before, g := groups[..|groups| - 1], groups[|groups| - 1];
      WrittenWithin(before);
      WrittenWithin(groups);
      ReadsTheState(before, u);
      if g.applied {
        ReadAfter(Written(before), Written(groups), g.ops, Last(before), |g.ops|, u, State(before, u));
      } else {
        assert Written(groups) == Written(before);
        SameUpTo(Written(before), u, Last(before), Last(groups));
      }
    }
  }

  /** Later groups do not change what a read at an earlier group boundary sees. */
  lemma {:induction false} ReadsAnEarlierState(groups: seq<Group>, n: nat, u: UserKey)
    requires AllWellFormed(groups) && n <= |groups|
    ensures View(Written(groups), u, Last(groups[..n])) == State(groups[..n], u)
    ensures Last(groups[..n]) <= Last(groups)
    decreases |groups|
  {
    if n == |groups| {
      assert groups[..n] == groups;
      ReadsTheState(groups, u);
    } else {
      var before, g := groups[..|groups| - 1], groups[|groups| - 1];
      ReadsAnEarlierState(before, n, u);
      assert before[..n] == groups[..n];
      WrittenWithin(groups);
      if g.applied {
        GroupWithin(g.ops, Last(before), |g.ops|);
        LaterEntries(Written(before), GroupEntries(g.ops, Last(before), |g.ops|), u, Last(groups[..n]));
      }
    }
  }
}

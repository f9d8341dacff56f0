/** The groups of a history taken by their numbers: what any choice of them wrote, and what reads see
    once some are known to have been kept and others not. */
module GroupSets {
  import opened Entries
  import opened History
  import opened Database

  /** What group i wrote, or would have written. */
  ghost function GroupAt(groups: seq<Group>, i: nat): set<Entry>
    requires i < |groups|
  {
    GroupEntries(groups[i].ops, Last(groups[..i]), |groups[i].ops|)
  }

  /** What the groups in I wrote. */
  ghost function EntriesOf(groups: seq<Group>, I: set<nat>): set<Entry> {
    set i, e | i in I && i < |groups| && e in GroupAt(groups, i) :: e
  }

  ghost function Applied(groups: seq<Group>): set<nat> {
    set i: nat | i < |groups| && groups[i].applied
  }

  ghost function Among(I: set<nat>, lo: nat, hi: nat): set<nat> {
    set i | i in I && lo <= i < hi
  }

  /** The same groups, where just those in I count as applied. */
  ghost function Raised(groups: seq<Group>, I: set<nat>): (raised: seq<Group>)
    ensures |raised| == |groups|
  {
    seq(|groups|, i requires 0 <= i < |groups| => Group(groups[i].ops, i in I))
  }

  lemma {:induction false} SameOpsSameLast(a: seq<Group>, b: seq<Group>)
    requires |a| == |b| && forall i :: 0 <= i < |a| ==> a[i].ops == b[i].ops
    ensures Last(a) == Last(b)
    decreases |a|
  {
    if a != [] {
      SameOpsSameLast(a[..|a| - 1], b[..|b| - 1]);
    }
  }

  lemma SameOpsSameGroup(a: seq<Group>, b: seq<Group>, i: nat)
    requires i < |a| && i < |b| && forall k :: 0 <= k <= i ==> a[k].ops == b[k].ops
    ensures GroupAt(a, i) == GroupAt(b, i) && Last(a[..i]) == Last(b[..i])
  {
    SameOpsSameLast(a[..i], b[..i]);
  }

  lemma SameOpsSameEntries(a: seq<Group>, b: seq<Group>, I: set<nat>)
    requires forall k :: 0 <= k < |a| && k < |b| ==> a[k].ops == b[k].ops
    requires forall i :: i in I ==> (i < |a| <==> i < |b|)
    ensures EntriesOf(a, I) == EntriesOf(b, I)
  {
    forall i | i in I && i < |a| && i < |b| ensures GroupAt(a, i) == GroupAt(b, i) {
      SameOpsSameGroup(a, b, i);
    }
  }

  lemma TwoChoices(groups: seq<Group>, I: set<nat>, J: set<nat>)
    ensures EntriesOf(groups, I + J) == EntriesOf(groups, I) + EntriesOf(groups, J)
  {
  }

  lemma OneGroup(groups: seq<Group>, i: nat)
    requires i < |groups|
    ensures EntriesOf(groups, {i}) == GroupAt(groups, i)
  {
    assert i in {i};
  }

  lemma {:induction false} WrittenByApplied(groups: seq<Group>)
    ensures Written(groups) == EntriesOf(groups, Applied(groups))
    decreases |groups|
  {
    if groups != [] {
      var before, last := groups[..|groups| - 1], |groups| - 1;
      WrittenByApplied(before);
      SameOpsSameEntries(before, groups, Applied(before));
      if groups[last].applied {
        assert Applied(groups) == Applied(before) + {last};
        TwoChoices(groups, Applied(before), {last});
        OneGroup(groups, last);
      } else {
        assert Applied(groups) == Applied(before);
      }
    }
  }

  lemma RaisedWrites(groups: seq<Group>, I: set<nat>)
    ensures Written(Raised(groups, I)) == EntriesOf(groups, I)
    ensures Last(Raised(groups, I)) == Last(groups)
  {
    var r := Raised(groups, I);
    WrittenByApplied(r);
    SameOpsSameLast(r, groups);
    SameOpsSameEntries(r, groups, Applied(r));
    forall e | e in EntriesOf(groups, I) ensures e in EntriesOf(groups, Applied(r)) {
      var i :| i in I && i < |groups| && e in GroupAt(groups, i);
      assert i in Applied(r);
    }
  }

  /** The first n groups wrote what the applied ones below n did. */
  lemma PrefixWrites(groups: seq<Group>, n: nat)
    requires n <= |groups|
    ensures Written(groups[..n]) == EntriesOf(groups, Among(Applied(groups), 0, n))
  {
    WrittenByApplied(groups[..n]);
    forall i ensures i in Applied(groups[..n]) <==> i in Among(Applied(groups), 0, n) {
    }
    SameOpsSameEntries(groups[..n], groups, Applied(groups[..n]));
  }

  lemma {:induction false} LastAscends(groups: seq<Group>, m: nat, n: nat)
    requires m <= n <= |groups|
    ensures Last(groups[..m]) <= Last(groups[..n])
    decreases n - m
  {
    if m < n {
      LastAscends(groups, m, n - 1);
      assert groups[..n][..n - 1] == groups[..n - 1];
    }
  }

  /** The numbers of group i lie above those of the groups before it. */
  lemma GroupNumbers(groups: seq<Group>, i: nat)
    requires AllWellFormed(groups) && i < |groups|
    ensures Within(GroupAt(groups, i), Last(groups[..i]), Last(groups[..i + 1])) && Numbered(GroupAt(groups, i))
  {
    GroupWithin(groups[i].ops, Last(groups[..i]), |groups[i].ops|);
    assert groups[..i + 1][..i] == groups[..i];
  }

  lemma ChoiceWithin(groups: seq<Group>, I: set<nat>, lo: nat, hi: nat)
    requires AllWellFormed(groups) && lo <= hi <= |groups| && forall i :: i in I ==> lo <= i < hi
    ensures Within(EntriesOf(groups, I), Last(groups[..lo]), Last(groups[..hi]))
  {
    forall i | i in I ensures Within(GroupAt(groups, i), Last(groups[..lo]), Last(groups[..hi])) {
      GroupNumbers(groups, i);
      LastAscends(groups, lo, i);
      LastAscends(groups, i + 1, hi);
    }
  }

  // ---------- Newer entries on top ----------

  /** What is newer than everything else answers first, and otherwise changes nothing. */
  lemma NewerOnTop(E: set<Entry>, F: set<Entry>, u: UserKey, s: nat, base: nat)
    requires Distinct(E + F) && Within(E, 0, base) && (forall e :: e in F ==> e.sequence > base && Parses(e))
    ensures (exists e :: e in F && Candidate(e, u, s)) ==> View(E + F, u, s) == View(F, u, s)
    ensures !(exists e :: e in F && Candidate(e, u, s)) ==> View(E + F, u, s) == View(E, u, s)
  {
    var G := E + F;
    if c :| c in F && Candidate(c, u, s) {
      var e := NewestExists(F, u, s, c);
      assert Newest(G, u, s, e);
      ViewOfNewest(G, u, s, e);
      ViewOfNewest(F, u, s, e);
    } else {
      SameNewestSameView(G, E, u, s);
    }
  }

  /** What is complete stays so when the same newer entries are added on both sides. */
  lemma CompleteOnTop(E: set<Entry>, H: set<Entry>, F: set<Entry>, floor: nat, base: nat)
    requires Complete(E, H, floor) && Distinct(H + F) && Within(H, 0, base)
    requires forall e :: e in F ==> e.sequence > base && Parses(e)
    ensures Complete(E + F, H + F, floor)
  {
    assert Distinct(E + F) && Within(E, 0, base);
    forall s | s >= floor ensures Sees(E + F, H + F, s) {
      assert Sees(E, H, s);
      forall u ensures View(E + F, u, s) == View(H + F, u, s) {
        NewerOnTop(E, F, u, s, base);
        NewerOnTop(H, F, u, s, base);
        assert View(E, u, s) == View(H, u, s);
      }
    }
  }
}

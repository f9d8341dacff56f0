/** The tables that RecoverLogFile makes of the logs after a crash are the ones that the reopened
    database has in front, and the sequence number it finds is that of the survivors. */
module ReplayCuts {
  import opened Entries
  import opened History
  import opened GroupSets
  import opened Database
  import opened Stores
  import opened Reopening
  import R = Recovery

  /** What the log readers hand over, log after log: the record of each readable group, in order, with reports
      of damage anywhere between. The order gives the group of each record, and of a report one that does
      not come after the next record's. */
  ghost predicate Handed(s: Store, choice: set<nat>, order: seq<nat>, items: seq<R.LogItem>) {
    && |items| == |order| && InOrder(order, items) && (forall j :: 0 <= j < |order| ==> order[j] <= |AllGroups(s)|)
    && (forall i :: i in Readable(s, choice) ==> HasBatch(order, items, i))
    && forall j :: 0 <= j < |order| && items[j].Batch? ==>
         order[j] in Readable(s, choice) && order[j] < |AllGroups(s)| && items[j] == RecordOf(AllGroups(s), order[j])
  }

  ghost predicate InOrder(order: seq<nat>, items: seq<R.LogItem>)
    requires |items| == |order|
  {
    forall j, k :: 0 <= j < k < |order| ==> order[j] <= order[k] && (items[j].Batch? ==> order[j] < order[k])
  }

  ghost predicate HasBatch(order: seq<nat>, items: seq<R.LogItem>, i: nat)
    requires |items| == |order|
  {
    exists j :: 0 <= j < |order| && items[j].Batch? && order[j] == i
  }

  /** The batch of group i. */
  ghost function RecordOf(groups: seq<Group>, i: nat): R.LogItem
    requires i < |groups|
  {
    R.Batch(Last(groups[..i]) + 1, groups[i].ops, |groups[i].ops|, true)
  }

  lemma SameEntries(ops: seq<Op>, base: nat, item: R.LogItem)
    requires item == R.Batch(base + 1, ops, |ops|, true)
    ensures R.InsertedBy(item) == GroupEntries(ops, base, |ops|)
  {
    forall e | e in GroupEntries(ops, base, |ops|) ensures e in R.InsertedBy(item) {
      var k: nat :| k < |ops| && e == EntryOf(ops, base, k);
      assert e == Entry(ops[k].key, item.first + k, ops[k].kind, ops[k].value);
    }
    forall e | e in R.InsertedBy(item) ensures e in GroupEntries(ops, base, |ops|) {
      var k :| 0 <= k < |ops| && e == Entry(ops[k].key, item.first + k, ops[k].kind, ops[k].value);
      assert e == EntryOf(ops, base, k);
    }
  }

  lemma RecordInserts(groups: seq<Group>, i: nat)
    requires i < |groups|
    ensures R.InsertedBy(RecordOf(groups, i)) == GroupAt(groups, i)
    ensures R.EndOf(RecordOf(groups, i)) == Last(groups[..i + 1]) + 1
  {
    assert groups[..i + 1][..i] == groups[..i];
    SameEntries(groups[i].ops, Last(groups[..i]), RecordOf(groups, i));
  }

  ghost function Stretch(order: seq<nat>, items: seq<R.LogItem>, lo: nat, hi: nat): set<nat>
    requires |items| == |order| && lo <= hi <= |order|
  {
    set j | lo <= j < hi && items[j].Batch? :: order[j]
  }

  lemma {:induction false} ReplayedIs(s: Store, choice: set<nat>, order: seq<nat>, items: seq<R.LogItem>, lo: nat, hi: nat)
    requires Handed(s, choice, order, items) && lo <= hi <= |order|
    ensures R.Replayed(items, lo, hi) == EntriesOf(AllGroups(s), Stretch(order, items, lo, hi))
    decreases hi
  {
    if lo < hi {
      ReplayedIs(s, choice, order, items, lo, hi - 1);
      StretchGrows(order, items, lo, hi);
      if items[hi - 1].Batch? {
        RecordInserts(AllGroups(s), order[hi - 1]);
        TwoChoices(AllGroups(s), Stretch(order, items, lo, hi - 1), {order[hi - 1]});
        OneGroup(AllGroups(s), order[hi - 1]);
      }
    } else {
      assert Stretch(order, items, lo, hi) == {};
    }
  }

  lemma StretchGrows(order: seq<nat>, items: seq<R.LogItem>, lo: nat, hi: nat)
    requires |items| == |order| && lo < hi <= |order|
    ensures Stretch(order, items, lo, hi) == Stretch(order, items, lo, hi - 1) + if items[hi - 1].Batch? then {order[hi - 1]} else {}
  {
  }

  /** Where table k ends, told by groups. */
  ghost function EndAt(s: Store, order: seq<nat>, cut: nat): nat {
    if cut < |order| then order[cut] else |AllGroups(s)|
  }

  ghost function CutsOf(s: Store, order: seq<nat>, cuts: seq<nat>, numbers: seq<nat>): (c: seq<Cut>)
    requires |cuts| == |numbers| + 1
    ensures |c| == |numbers|
    ensures forall k :: 0 <= k < |numbers| ==> c[k] == Cut(numbers[k], EndAt(s, order, cuts[k + 1]))
  {
    seq(|numbers|, k requires 0 <= k < |numbers| => Cut(numbers[k], EndAt(s, order, cuts[k + 1])))
  }

  ghost predicate CutPlaces(items: seq<R.LogItem>, cuts: seq<nat>) {
    && cuts != [] && cuts[0] == 0 && cuts[|cuts| - 1] <= |items| && R.OnlyDamage(items, cuts[|cuts| - 1])
    && forall i, j :: 0 <= i <= j < |cuts| ==> cuts[i] <= cuts[j]
  }

  /** Places in the order and stretches of groups are the same thing. */
  lemma PlaceOf(s: Store, choice: set<nat>, order: seq<nat>, items: seq<R.LogItem>, cut: nat, j: nat)
    requires Handed(s, choice, order, items) && cut <= |order| && j < |order| && items[j].Batch?
    ensures order[j] < EndAt(s, order, cut) <==> j < cut
  {
    if cut < |order| && cut < j {
      assert order[cut] <= order[j];
    } else if j < cut < |order| {
      assert order[j] < order[cut];
    }
  }

  lemma StartPlace(s: Store, order: seq<nat>, cuts: seq<nat>, numbers: seq<nat>, k: nat)
    requires |cuts| == |numbers| + 1 && k < |numbers|
    ensures StartOf(s, CutsOf(s, order, cuts, numbers), k) == if k == 0 then s.base else EndAt(s, order, cuts[k])
  {
  }

  lemma InCutPlaces(s: Store, choice: set<nat>, order: seq<nat>, items: seq<R.LogItem>, cuts: seq<nat>, numbers: seq<nat>, k: nat, j: nat)
    requires LogsOk(s) && MemoryOk(s) && Handed(s, choice, order, items) && CutPlaces(items, cuts) && |cuts| == |numbers| + 1
    requires k < |numbers| && j < |order| && items[j].Batch?
    ensures InCut(s, CutsOf(s, order, cuts, numbers), k, order[j]) <==> cuts[k] <= j < cuts[k + 1]
  {
    ReadableBounds(s, choice);
    StartPlace(s, order, cuts, numbers, k);
    PlaceOf(s, choice, order, items, cuts[k], j);
    PlaceOf(s, choice, order, items, cuts[k + 1], j);
  }

  /** Table k of the replay is what the reopened database has of its groups. */
  lemma TableIsCut(s: Store, choice: set<nat>, order: seq<nat>, items: seq<R.LogItem>, tables: seq<set<Entry>>, cuts: seq<nat>, numbers: seq<nat>, k: nat)
    requires LogsOk(s) && MemoryOk(s) && Handed(s, choice, order, items) && CutPlaces(items, cuts)
    requires R.CutFrom(items, tables, cuts) && |numbers| == |tables| && k < |tables|
    ensures CutEntries(s, choice, CutsOf(s, order, cuts, numbers), k) == tables[k]
  {
    var c := CutsOf(s, order, cuts, numbers);
    var I := Among(Readable(s, choice), StartOf(s, c, k), c[k].upTo);
    assert tables[k] == R.Replayed(items, cuts[k], cuts[k + 1]);
    ReplayedIs(s, choice, order, items, cuts[k], cuts[k + 1]);
    forall i: nat ensures i in I <==> i in Stretch(order, items, cuts[k], cuts[k + 1]) {
      if i in Readable(s, choice) {
        assert HasBatch(order, items, i);
        var j :| 0 <= j < |order| && items[j].Batch? && order[j] == i;
        InCutPlaces(s, choice, order, items, cuts, numbers, k, j);
        SamePlace(order, items, i, j, cuts[k], cuts[k + 1]);
      }
    }
    assert I == Stretch(order, items, cuts[k], cuts[k + 1]);
  }

  lemma SamePlace(order: seq<nat>, items: seq<R.LogItem>, i: nat, j: nat, lo: nat, hi: nat)
    requires |items| == |order| && lo <= hi <= |order| && j < |order| && items[j].Batch? && order[j] == i && InOrder(order, items)
    ensures i in Stretch(order, items, lo, hi) <==> lo <= j < hi
  {
  }

  /** With the numbers that Recover and Open give out they are good cuts. */
  lemma ReplayMakesCuts(s: Store, choice: set<nat>, order: seq<nat>, items: seq<R.LogItem>, tables: seq<set<Entry>>, cuts: seq<nat>, numbers: seq<nat>, log: nat)
    requires LogsOk(s) && MemoryOk(s) && Handed(s, choice, order, items) && CutPlaces(items, cuts)
    requires R.CutFrom(items, tables, cuts) && |numbers| == |tables|
    requires s.manifestNext < log && s.logNumber < log && R.Ascending(numbers, s.manifestNext, log)
    ensures var c := CutsOf(s, order, cuts, numbers);
      && GoodCuts(s, choice, c, log)
      && forall k :: 0 <= k < |tables| ==> CutEntries(s, choice, c, k) == tables[k]
  {
    var c := CutsOf(s, order, cuts, numbers);
    forall k | 0 <= k < |tables| ensures CutEntries(s, choice, c, k) == tables[k] {
      TableIsCut(s, choice, order, items, tables, cuts, numbers, k);
    }
    CutsInTurn(s, choice, order, items, cuts, numbers);
    CutsTakeAll(s, choice, order, items, cuts, numbers);
  }

  lemma CutsInTurn(s: Store, choice: set<nat>, order: seq<nat>, items: seq<R.LogItem>, cuts: seq<nat>, numbers: seq<nat>)
    requires Handed(s, choice, order, items) && CutPlaces(items, cuts) && |cuts| == |numbers| + 1
    ensures InTurn(s, CutsOf(s, order, cuts, numbers))
  {
    var c := CutsOf(s, order, cuts, numbers);
    forall j, k: nat | 0 <= j < k < |c| ensures c[j].upTo <= StartOf(s, c, k) {
      StartPlace(s, order, cuts, numbers, k);
      EndsAscend(s, choice, order, items, cuts[j + 1], cuts[k]);
    }
  }

  lemma CutsTakeAll(s: Store, choice: set<nat>, order: seq<nat>, items: seq<R.LogItem>, cuts: seq<nat>, numbers: seq<nat>)
    requires LogsOk(s) && MemoryOk(s) && Handed(s, choice, order, items) && CutPlaces(items, cuts) && |cuts| == |numbers| + 1
    ensures AllTaken(s, CutsOf(s, order, cuts, numbers), Readable(s, choice))
  {
    forall i | i in Readable(s, choice) ensures Taken(s, CutsOf(s, order, cuts, numbers), i) {
      assert HasBatch(order, items, i);
      var j :| 0 <= j < |order| && items[j].Batch? && order[j] == i;
      var k := CutWith(cuts, cuts[|cuts| - 1], j);
      InCutPlaces(s, choice, order, items, cuts, numbers, k, j);
    }
  }

  lemma EndsAscend(s: Store, choice: set<nat>, order: seq<nat>, items: seq<R.LogItem>, a: nat, b: nat)
    requires Handed(s, choice, order, items) && a <= b
    ensures EndAt(s, order, a) <= EndAt(s, order, b)
  {
    if a < b < |order| {
      assert order[a] <= order[b];
    }
  }

  lemma {:induction false} CutWith(cuts: seq<nat>, n: nat, j: nat) returns (k: nat)
    requires |cuts| > 1 || n == 0
    requires cuts != [] && cuts[0] == 0 && cuts[|cuts| - 1] == n && j < n
    ensures k + 1 < |cuts| && cuts[k] <= j < cuts[k + 1]
    decreases |cuts|
  {
    if cuts[|cuts| - 2] <= j {
      k := |cuts| - 2;
    } else {
      k := CutWith(cuts[..|cuts| - 1], cuts[|cuts| - 2], j);
    }
  }

  /** The last sequence number of the reopened database is the higher of the manifest's and the one
      that the replay has found. */
  lemma ReplayFindsLast(s: Store, choice: set<nat>, order: seq<nat>, items: seq<R.LogItem>, last: nat)
    requires StoreFine(s) && Handed(s, choice, order, items) && R.IsLast(items, 0, last)
    ensures Last(Survivors(s, choice)) == Higher(last, Last(s.db.history[..s.manifestGroups]))
  {
    var m := SurvivorsLast(s, choice);
    LastHanded(s, choice, order, items, last, m);
  }

  lemma LastHanded(s: Store, choice: set<nat>, order: seq<nat>, items: seq<R.LogItem>, last: nat, m: nat)
    requires Handed(s, choice, order, items) && R.IsLast(items, 0, last) && s.manifestGroups <= |s.db.history|
    requires s.manifestGroups <= m <= |AllGroups(s)| && forall i :: i in Readable(s, choice) ==> i < m
    requires m > s.manifestGroups ==> m - 1 in Readable(s, choice)
    ensures Last(AllGroups(s)[..m]) == Higher(last, Last(s.db.history[..s.manifestGroups]))
  {
    ManifestPrefix(s);
    assert m > s.manifestGroups ==> HasBatch(order, items, m - 1);
    LastOfReplay(AllGroups(s), order, items, last, s.manifestGroups, m);
  }

  lemma ManifestPrefix(s: Store)
    requires s.manifestGroups <= |s.db.history|
    ensures s.manifestGroups <= |AllGroups(s)| && AllGroups(s)[..s.manifestGroups] == s.db.history[..s.manifestGroups]
  {
  }

  function Higher(a: nat, b: nat): nat {
    if a > b then a else b
  }

  lemma LastOfReplay(groups: seq<Group>, order: seq<nat>, items: seq<R.LogItem>, last: nat, n: nat, m: nat)
    requires |items| == |order| && R.IsLast(items, 0, last) && n <= m <= |groups|
    requires forall j :: 0 <= j < |order| && items[j].Batch? ==> order[j] < m && items[j] == RecordOf(groups, order[j])
    requires m > n ==> HasBatch(order, items, m - 1)
    ensures Last(groups[..m]) == Higher(last, Last(groups[..n]))
  {
    forall j | 0 <= j < |order| ensures R.EndOf(items[j]) <= Last(groups[..m]) + 1 {
      if items[j].Batch? {
        RecordEnd(groups, order[j], m);
      }
    }
    if m > n {
      var j :| 0 <= j < |order| && items[j].Batch? && order[j] == m - 1;
      RecordEnd(groups, m - 1, m);
      assert R.EndOf(items[j]) == Last(groups[..m]) + 1;
    }
    LastAscends(groups, n, m);
  }

  lemma RecordEnd(groups: seq<Group>, i: nat, m: nat)
    requires i < m <= |groups|
    ensures R.EndOf(RecordOf(groups, i)) <= Last(groups[..m]) + 1
    ensures i == m - 1 ==> R.EndOf(RecordOf(groups, i)) == Last(groups[..m]) + 1
  {
    RecordInserts(groups, i);
    LastAscends(groups, i + 1, m);
  }

  lemma SurvivorsLast(s: Store, choice: set<nat>) returns (m: nat)
    requires Ok(s.db) && MemoryOk(s) && LogsOk(s) && s.base <= s.manifestGroups <= |s.db.history|
    ensures s.manifestGroups <= m <= |AllGroups(s)| && s.manifestGroups <= |s.db.history|
    ensures Last(Survivors(s, choice)) == Last(AllGroups(s)[..m])
    ensures forall i :: i in Readable(s, choice) ==> i < m
    ensures m > s.manifestGroups ==> m - 1 in Readable(s, choice)
  {
    m := Extent(s, choice, |AllGroups(s)|);
    BegunGroups(s);
    SurvivingBelow(s, choice);
    RaisedWrites(AllGroups(s)[..m], Surviving(s, choice));
  }
}

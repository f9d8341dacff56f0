/** Compaction: which entries DBImpl::DoCompactionWork keeps, how it cuts them into
    tables, and what a reader sees of the result. */
module CompactionRules {
  import opened Entries
  import opened Options

  const NUM_LEVELS := 7

  /** The user keys a table file spans. */
  datatype FileRange = FileRange(smallest: UserKey, largest: UserKey)

  ghost predicate SortedFiles(files: seq<FileRange>) {
    && (forall i :: 0 <= i < |files| ==> files[i].smallest <= files[i].largest)
    && forall i, j :: 0 <= i < j < |files| ==> files[i].largest <= files[j].smallest
  }

  predicate Spans(f: FileRange, u: UserKey) {
    f.smallest <= u <= f.largest
  }

  /** No file more than one level below the compacted level may hold u. */
  ghost predicate IsBase(files: seq<seq<FileRange>>, level: nat, u: UserKey) {
    forall lvl, i :: level + 2 <= lvl < |files| && 0 <= i < |files[lvl]| ==> !Spans(files[lvl][i], u)
  }

  /** What decides the fate of an entry, besides its neighbours. */
  datatype Rule = Rule(files: seq<seq<FileRange>>, level: nat, smallestSnapshot: nat)

  ghost predicate Base(r: Rule, u: UserKey) {
    IsBase(r.files, r.level, u)
  }

  /** Rule (A): the entry just before is newer, for the same key, and old enough. */
  ghost predicate Hidden(input: seq<Entry>, i: nat, r: Rule)
    requires i < |input|
  {
    && i > 0
    && Parses(input[i]) && Parses(input[i - 1])
    && input[i - 1].key == input[i].key
    && input[i - 1].sequence <= r.smallestSnapshot
  }

  /** A deletion marker with nothing left to delete. */
  ghost predicate Obsolete(e: Entry, r: Rule) {
    e.kind == DELETION && e.sequence <= r.smallestSnapshot && Base(r, e.key)
  }

  ghost predicate Dropped(input: seq<Entry>, i: nat, r: Rule)
    requires i < |input|
  {
    Hidden(input, i, r) || Obsolete(input[i], r)
  }

  /** The entries among the first n that a compaction keeps, in order. */
  ghost function Kept(input: seq<Entry>, n: nat, r: Rule): seq<Entry>
    requires n <= |input|
  {
    if n == 0 then []
    else if Dropped(input, n - 1, r) then Kept(input, n - 1, r)
    else Kept(input, n - 1, r) + [input[n - 1]]
  }

  lemma {:induction false} KeptMembers(input: seq<Entry>, n: nat, r: Rule, e: Entry)
    requires n <= |input|
    ensures e in Kept(input, n, r) <==> exists i :: 0 <= i < n && input[i] == e && !Dropped(input, i, r)
  {
    if n > 0 {
      KeptMembers(input, n - 1, r, e);
    }
  }

  lemma {:induction false} KeptSorted(input: seq<Entry>, n: nat, r: Rule)
    requires Sorted(input) && n <= |input|
    ensures Sorted(Kept(input, n, r))
  {
    if n > 0 {
      KeptSorted(input, n - 1, r);
      var k := Kept(input, n - 1, r);
      forall i | 0 <= i < |k| ensures Before(k[i], input[n - 1]) {
        KeptMembers(input, n - 1, r, k[i]);
      }
    }
  }

  // ---------- What a reader sees ----------

  /** The layers outside the compaction may hold u only with newer entries once u is at
      its base level, and sequence numbers identify the entries of a key. */
  ghost predicate Fits(others: set<Entry>, input: seq<Entry>, r: Rule, u: UserKey) {
    && Distinct(Elements(input) + others)
    && (Base(r, u) ==>
          forall o, e :: o in others && e in input && o.key == u && e.key == u ==> o.sequence > e.sequence)
  }

  /** Reads of u at every snapshot that may still be taken, whatever else is stored. */
  ghost predicate ReadsPreserved(input: seq<Entry>, r: Rule, u: UserKey) {
    forall others, s :: s >= r.smallestSnapshot && Fits(others, input, r, u) ==>
      View(Elements(input) + others, u, s) == View(Elements(Kept(input, |input|, r)) + others, u, s)
  }

  /** An unparseable key stands between a droppable deletion marker of u and an older
      value of u, so that rule (A) forgets the marker before it meets the value. */
  ghost predicate Resurrects(input: seq<Entry>, r: Rule, u: UserKey) {
    Base(r, u) && exists i, j :: 0 <= i < j < |input| && MarkerThenValue(input, r, u, i, j)
  }

  ghost predicate MarkerThenValue(input: seq<Entry>, r: Rule, u: UserKey, i: nat, j: nat)
    requires i < j < |input|
  {
    && Candidate(input[i], u, r.smallestSnapshot) && Candidate(input[j], u, r.smallestSnapshot)
    && (forall k :: 0 <= k < i ==> !Candidate(input[k], u, r.smallestSnapshot))
    && input[i].kind == DELETION && input[j].kind == VALUE
    && !Parses(input[j - 1])
  }

  lemma Between(input: seq<Entry>, i: nat, m: nat, j: nat)
    requires Sorted(input) && i <= m <= j < |input| && input[i].key == input[j].key
    ensures input[m].key == input[i].key && input[j].sequence <= input[m].sequence <= input[i].sequence
  {
  }

  /** An entry that rule (A) drops never answers a read that may still be taken. */
  lemma HiddenIsNotNewest(input: seq<Entry>, r: Rule, u: UserKey, others: set<Entry>, s: nat, k: nat)
    requires Sorted(input) && Distinct(Elements(input) + others)
    requires s >= r.smallestSnapshot && k < |input| && Hidden(input, k, r)
    ensures !Newest(Elements(input) + others, u, s, input[k])
  {
  }

  /** Before the newest entry there is none that a read at its own age could use. */
  lemma FirstCandidate(input: seq<Entry>, u: UserKey, others: set<Entry>, s: nat, k: nat, m: nat)
    requires Sorted(input) && Distinct(Elements(input) + others)
    requires m < k < |input| && Newest(Elements(input) + others, u, s, input[k])
    ensures !Candidate(input[m], u, s)
  {
  }

  /** Dropping a deletion marker leaves only deletion markers of its key below it. */
  lemma NothingBelowMarker(input: seq<Entry>, r: Rule, u: UserKey, k: nat, j: nat)
    requires Sorted(input) && Distinct(Elements(input)) && k < |input| && j < |input|
    requires Base(r, u) && !Resurrects(input, r, u)
    requires Candidate(input[k], u, r.smallestSnapshot) && input[k].kind == DELETION
    requires Candidate(input[j], u, r.smallestSnapshot) && input[j].sequence <= input[k].sequence
    requires forall m :: 0 <= m < k ==> !Candidate(input[m], u, r.smallestSnapshot)
    requires !Dropped(input, j, r)
    ensures input[j].kind == DELETION
  {
    if j != k {
      Between(input, k, j - 1, j);
      assert !MarkerThenValue(input, r, u, k, j);
    }
  }

  lemma DroppedShowsNothing(input: seq<Entry>, r: Rule, u: UserKey, others: set<Entry>, s: nat, k: nat)
    requires Sorted(input) && !Resurrects(input, r, u)
    requires s >= r.smallestSnapshot && Fits(others, input, r, u)
    requires k < |input| && Newest(Elements(input) + others, u, s, input[k]) && Dropped(input, k, r)
    ensures input[k].kind == DELETION
    ensures View(Elements(Kept(input, |input|, r)) + others, u, s) == None
  {
    assert Distinct(Elements(input));
    if Hidden(input, k, r) {
      HiddenIsNotNewest(input, r, u, others, s, k);
    }
    forall m | 0 <= m < k ensures !Candidate(input[m], u, r.smallestSnapshot) {
      FirstCandidate(input, u, others, s, k, m);
    }
    forall o | o in Elements(Kept(input, |input|, r)) + others && Candidate(o, u, s) ensures o.kind == DELETION {
      if o !in others {
        KeptMembers(input, |input|, r, o);
        var j :| 0 <= j < |input| && input[j] == o && !Dropped(input, j, r);
        assert input[j] in Elements(input) + others;
        NothingBelowMarker(input, r, u, k, j);
      }
    }
  }

  lemma KeptWithin(input: seq<Entry>, r: Rule, others: set<Entry>)
    ensures Elements(Kept(input, |input|, r)) + others <= Elements(input) + others
  {
    forall e | e in Kept(input, |input|, r) ensures e in input {
      KeptMembers(input, |input|, r, e);
    }
  }

  lemma SameReads(input: seq<Entry>, r: Rule, u: UserKey, others: set<Entry>, s: nat)
    requires Sorted(input) && !Resurrects(input, r, u)
    requires s >= r.smallestSnapshot && Fits(others, input, r, u)
    ensures View(Elements(input) + others, u, s) == View(Elements(Kept(input, |input|, r)) + others, u, s)
  {
    var E, F := Elements(input) + others, Elements(Kept(input, |input|, r)) + others;
    KeptWithin(input, r, others);
    if c :| c in E && Candidate(c, u, s) {
      var e := NewestExists(E, u, s, c);
      ViewOfNewest(E, u, s, e);
      if e in F {
        ViewOfNewest(F, u, s, e);
      } else {
        var k :| 0 <= k < |input| && input[k] == e;
        KeptMembers(input, |input|, r, e);
        DroppedShowsNothing(input, r, u, others, s, k);
      }
    }
  }

  lemma ResurrectionIsSeen(input: seq<Entry>, r: Rule, u: UserKey)
    requires Sorted(input) && Distinct(Elements(input)) && Resurrects(input, r, u)
    ensures View(Elements(input), u, r.smallestSnapshot) == None
    ensures View(Elements(Kept(input, |input|, r)), u, r.smallestSnapshot).Some?
  {
    var i, j :| 0 <= i < j < |input| && MarkerThenValue(input, r, u, i, j);
    MarkerIsNewest(input, u, r.smallestSnapshot, i);
    KeptMembers(input, |input|, r, input[j]);
    KeptHasValue(input, r, u, input[j]);
  }

  lemma MarkerIsNewest(input: seq<Entry>, u: UserKey, s: nat, i: nat)
    requires Sorted(input) && Distinct(Elements(input)) && i < |input| && Candidate(input[i], u, s)
    requires forall k :: 0 <= k < i ==> !Candidate(input[k], u, s)
    ensures Newest(Elements(input), u, s, input[i])
    ensures View(Elements(input), u, s) == Shown(input[i])
  {
  }

  /** At its base level, every kept entry of u that the smallest snapshot sees is a value. */
  lemma KeptHasValue(input: seq<Entry>, r: Rule, u: UserKey, v: Entry)
    requires Distinct(Elements(input)) && Base(r, u)
    requires v in Kept(input, |input|, r) && Candidate(v, u, r.smallestSnapshot)
    ensures View(Elements(Kept(input, |input|, r)), u, r.smallestSnapshot).Some?
  {
    var F := Elements(Kept(input, |input|, r));
    KeptWithin(input, r, {});
    assert F <= Elements(input);
    var e := NewestExists(F, u, r.smallestSnapshot, v);
    KeptMembers(input, |input|, r, e);
    ViewOfNewest(F, u, r.smallestSnapshot, e);
  }

  /** A compaction keeps every read of u at or above the smallest snapshot, whatever the
      other layers hold, exactly when no unparseable key resurrects a deleted value of u. */
  lemma CompactionPreservesReads(input: seq<Entry>, r: Rule, u: UserKey)
    requires Sorted(input) && Distinct(Elements(input))
    ensures ReadsPreserved(input, r, u) <==> !Resurrects(input, r, u)
  {
    if Resurrects(input, r, u) {
      ResurrectionIsSeen(input, r, u);
      var E, F := Elements(input), Elements(Kept(input, |input|, r));
      assert E == E + {} && F == F + {};
      assert Fits({}, input, r, u);
    } else {
      forall others, s | s >= r.smallestSnapshot && Fits(others, input, r, u)
        ensures View(Elements(input) + others, u, s) == View(Elements(Kept(input, |input|, r)) + others, u, s)
      {
        SameReads(input, r, u, others, s);
      }
    }
  }

  /** In particular, when every key parses nothing a live snapshot can see changes. */
  lemma ParseableCompactionPreservesReads(input: seq<Entry>, r: Rule, u: UserKey)
    requires Sorted(input) && Distinct(Elements(input))
    requires forall e :: e in input && e.key == u ==> Parses(e)
    ensures ReadsPreserved(input, r, u)
  {
    forall i, j | 0 <= i < j < |input| && input[i].key == u && input[j].key == u ensures Parses(input[j - 1]) {
      Between(input, i, j - 1, j);
    }
    CompactionPreservesReads(input, r, u);
  }

  // ---------- With the other layers given ----------

  /** A droppable deletion marker answers reads of u at the smallest snapshot, while what is stored
      elsewhere has a value to show there. */
  ghost predicate Uncovers(input: seq<Entry>, r: Rule, u: UserKey, others: set<Entry>) {
    exists i :: 0 <= i < |input| && MarkerCovers(input, r, u, others, i)
  }

  ghost predicate MarkerCovers(input: seq<Entry>, r: Rule, u: UserKey, others: set<Entry>, i: nat)
    requires i < |input|
  {
    && Obsolete(input[i], r) && Newest(Elements(input) + others, u, r.smallestSnapshot, input[i])
    && View(others, u, r.smallestSnapshot).Some?
  }

  /** Of a key whose entries all parse, an entry kept below a dropped marker is dropped too. */
  lemma BelowMarkerDropped(input: seq<Entry>, r: Rule, u: UserKey, k: nat, j: nat)
    requires Sorted(input) && k < j < |input| && input[k].key == input[j].key == u
    requires forall e :: e in input && e.key == u ==> Parses(e)
    requires input[k].sequence <= r.smallestSnapshot
    ensures Dropped(input, j, r)
  {
    Between(input, k, j - 1, j);
    assert input[j - 1] in input && input[j] in input;
  }

  /** Once the newest entry for a read is dropped, nothing of the inputs answers it. */
  lemma DroppedLeavesOthers(input: seq<Entry>, r: Rule, u: UserKey, others: set<Entry>, s: nat, k: nat)
    requires Sorted(input) && Distinct(Elements(input) + others) && s >= r.smallestSnapshot
    requires forall e :: e in input && e.key == u ==> Parses(e)
    requires k < |input| && Newest(Elements(input) + others, u, s, input[k]) && Dropped(input, k, r)
    ensures Obsolete(input[k], r) && Newest(Elements(input) + others, u, r.smallestSnapshot, input[k])
    ensures forall e :: e in Kept(input, |input|, r) ==> !Candidate(e, u, s)
  {
    if Hidden(input, k, r) {
      HiddenIsNotNewest(input, r, u, others, s, k);
    }
    forall e | e in Kept(input, |input|, r) && Candidate(e, u, s) ensures false {
      KeptMembers(input, |input|, r, e);
      var j :| 0 <= j < |input| && input[j] == e && !Dropped(input, j, r);
      assert input[j] in Elements(input) + others;
      if j < k {
        FirstCandidate(input, u, others, s, k, j);
      } else {
        BelowMarkerDropped(input, r, u, k, j);
      }
    }
  }

  lemma CoveredViews(input: seq<Entry>, r: Rule, u: UserKey, others: set<Entry>, s: nat, k: nat)
    requires Sorted(input) && Distinct(Elements(input) + others) && s >= r.smallestSnapshot
    requires forall e :: e in input && e.key == u ==> Parses(e)
    requires k < |input| && Newest(Elements(input) + others, u, s, input[k]) && Dropped(input, k, r)
    ensures View(Elements(input) + others, u, s) == None
    ensures View(Elements(Kept(input, |input|, r)) + others, u, s) == View(others, u, s)
    ensures View(others, u, s) == View(others, u, r.smallestSnapshot)
  {
    var E, F := Elements(input) + others, Elements(Kept(input, |input|, r)) + others;
    DroppedLeavesOthers(input, r, u, others, s, k);
    ViewOfNewest(E, u, s, input[k]);
    KeptWithin(input, r, others);
    SameNewestSameView(F, others, u, s);
    forall o | o in others && Candidate(o, u, s) ensures Candidate(o, u, r.smallestSnapshot) {
      assert o in E;
    }
    SameCandidates(others, u, r.smallestSnapshot, s);
  }

  lemma SameCandidates(E: set<Entry>, u: UserKey, s: nat, t: nat)
    requires Distinct(E) && s <= t && forall o :: o in E && Candidate(o, u, t) ==> Candidate(o, u, s)
    ensures View(E, u, s) == View(E, u, t)
  {
    if c :| c in E && Candidate(c, u, t) {
      var e := NewestExists(E, u, t, c);
      ViewOfNewest(E, u, t, e);
      assert Newest(E, u, s, e);
      ViewOfNewest(E, u, s, e);
    }
  }

  /** With the other layers given, whatever their age: a compaction keeps every read of u at or above
      the smallest snapshot exactly when it drops no marker that covers a value of theirs. */
  lemma ReadsKeptExactly(input: seq<Entry>, r: Rule, u: UserKey, others: set<Entry>)
    requires Sorted(input) && Distinct(Elements(input) + others)
    requires forall e :: e in input && e.key == u ==> Parses(e)
    ensures (forall s :: s >= r.smallestSnapshot ==>
               View(Elements(input) + others, u, s) == View(Elements(Kept(input, |input|, r)) + others, u, s))
            <==> !Uncovers(input, r, u, others)
  {
    var E, F := Elements(input) + others, Elements(Kept(input, |input|, r)) + others;
    KeptWithin(input, r, others);
    if Uncovers(input, r, u, others) {
      var i :| 0 <= i < |input| && MarkerCovers(input, r, u, others, i);
      CoveredViews(input, r, u, others, r.smallestSnapshot, i);
      assert View(E, u, r.smallestSnapshot) != View(F, u, r.smallestSnapshot);
    } else {
      forall s | s >= r.smallestSnapshot ensures View(E, u, s) == View(F, u, s) {
        ReadKept(input, r, u, others, s);
      }
    }
  }

  lemma ReadKept(input: seq<Entry>, r: Rule, u: UserKey, others: set<Entry>, s: nat)
    requires Sorted(input) && Distinct(Elements(input) + others) && s >= r.smallestSnapshot
    requires (forall e :: e in input && e.key == u ==> Parses(e)) && !Uncovers(input, r, u, others)
    ensures View(Elements(input) + others, u, s) == View(Elements(Kept(input, |input|, r)) + others, u, s)
  {
    var E, F := Elements(input) + others, Elements(Kept(input, |input|, r)) + others;
    KeptWithin(input, r, others);
    if c :| c in E && Candidate(c, u, s) {
      var e := NewestExists(E, u, s, c);
      ViewOfNewest(E, u, s, e);
      if e in F {
        ViewOfNewest(F, u, s, e);
      } else {
        var k :| 0 <= k < |input| && input[k] == e;
        KeptMembers(input, |input|, r, e);
        DroppedLeavesOthers(input, r, u, others, s, k);
        CoveredViews(input, r, u, others, s, k);
        assert !MarkerCovers(input, r, u, others, k);
      }
    }
  }

  /** The smallest such input: a deletion at 5, an unparseable key at 4, a value at 3. */
  lemma UnparseableKeyResurrects()
    ensures var input := [Entry(0, 5, DELETION, ""), Entry(0, 4, 9, ""), Entry(0, 3, VALUE, "old")];
            var r := Rule([[], [], [], [], [], [], []], 0, 7);
            && Sorted(input) && Distinct(Elements(input)) && !ReadsPreserved(input, r, 0)
  {
    var input := [Entry(0, 5, DELETION, ""), Entry(0, 4, 9, ""), Entry(0, 3, VALUE, "old")];
    var r := Rule([[], [], [], [], [], [], []], 0, 7);
    assert MarkerThenValue(input, r, 0, 0, 2);
    assert Resurrects(input, r, 0);
    CompactionPreservesReads(input, r, 0);
  }

  /** Nothing is kept that no read needs: of a key whose entries all parse, at most one entry at or below the smallest
      snapshot, and no deletion marker there unless a table two or more levels down may have the key. */
  lemma NothingSpare(input: seq<Entry>, r: Rule, e: Entry, f: Entry)
    requires Sorted(input) && e in Kept(input, |input|, r) && f in Kept(input, |input|, r) && e.key == f.key
    requires forall x :: x in input && x.key == e.key ==> Parses(x)
    requires e.sequence <= r.smallestSnapshot && f.sequence <= r.smallestSnapshot
    ensures e == f
    ensures e.kind == DELETION ==> exists lvl, i :: r.level + 2 <= lvl < |r.files| && 0 <= i < |r.files[lvl]| && Spans(r.files[lvl][i], e.key)
  {
    KeptMembers(input, |input|, r, e);
    KeptMembers(input, |input|, r, f);
    var i :| 0 <= i < |input| && input[i] == e && !Dropped(input, i, r);
    var k :| 0 <= k < |input| && input[k] == f && !Dropped(input, k, r);
    if i < k {
      BelowMarkerDropped(input, r, e.key, i, k);
    } else if k < i {
      BelowMarkerDropped(input, r, e.key, k, i);
    }
  }
}

/** Which tables a compaction takes: GetOverlappingInputs, AddBoundaryInputs and SetupOtherInputs of
    version_set.cc, and what that means for the entries that stay behind. */
module FileSelection {
  import opened Entries
  import opened Options
  import opened CompactionRules

  datatype File = File(number: nat, size: nat, smallest: Entry, largest: Entry)

  const NO_BOUND: Option<UserKey> := None

  ghost predicate Sane(files: seq<File>) {
    forall f :: f in files ==> !Before(f.largest, f.smallest)
  }

  /** Of a level above 0: the tables in order, and their ranges do not meet. */
  ghost predicate Disjoint(files: seq<File>) {
    forall i, k :: 0 <= i < k < |files| ==> Before(files[i].largest, files[k].smallest)
  }

  ghost predicate Shape(levels: seq<seq<File>>) {
    && (forall l :: 0 <= l < |levels| ==> Sane(levels[l]))
    && forall l :: 1 <= l < |levels| ==> Disjoint(levels[l])
  }

  // ---------- Tables that overlap a range ----------

  /** The table has user keys from lo to hi, where None is no bound. */
  predicate Meets(f: File, lo: Option<UserKey>, hi: Option<UserKey>) {
    !(lo.Some? && f.largest.key < lo.value) && !(hi.Some? && f.smallest.key > hi.value)
  }

  function Overlapping(files: seq<File>, lo: Option<UserKey>, hi: Option<UserKey>): seq<File> {
    if files == [] then []
    else
      var before, f := Overlapping(files[..|files| - 1], lo, hi), files[|files| - 1];
      if Meets(f, lo, hi) then before + [f] else before
  }

  lemma {:induction false} OverlappingMembers(files: seq<File>, lo: Option<UserKey>, hi: Option<UserKey>)
    ensures forall f :: f in Overlapping(files, lo, hi) <==> f in files && Meets(f, lo, hi)
  {
    if files != [] {
      var before := files[..|files| - 1];
      OverlappingMembers(before, lo, hi);
      forall f | f in files ensures f in before || f == files[|files| - 1] {
      }
    }
  }

  /** A range that no table which it meets sticks out of. */
  ghost predicate ClosedRange(files: seq<File>, lo: Option<UserKey>, hi: Option<UserKey>) {
    forall f :: f in files && Meets(f, lo, hi) ==> Inside(f, lo, hi)
  }

  predicate Inside(f: File, lo: Option<UserKey>, hi: Option<UserKey>) {
    (lo.Some? ==> lo.value <= f.smallest.key) && (hi.Some? ==> f.largest.key <= hi.value)
  }

  predicate Wider(lo: Option<UserKey>, hi: Option<UserKey>, begin: Option<UserKey>, end: Option<UserKey>) {
    && (lo.Some? ==> begin.Some? && lo.value <= begin.value)
    && (hi.Some? ==> end.Some? && end.value <= hi.value)
  }

  /** The least closed range round the given one. */
  ghost predicate Hull(files: seq<File>, begin: Option<UserKey>, end: Option<UserKey>, lo: Option<UserKey>, hi: Option<UserKey>) {
    && ClosedRange(files, lo, hi) && Wider(lo, hi, begin, end)
    && forall l, h {:trigger ClosedRange(files, l, h)} :: ClosedRange(files, l, h) && Wider(l, h, begin, end) ==> Wider(l, h, lo, hi)
  }

  /** How many tables begin below lo, and how many end above hi. */
  ghost function Outside(files: seq<File>, lo: Option<UserKey>, hi: Option<UserKey>): nat {
    if files == [] then 0
    else
      var f := files[|files| - 1];
      Outside(files[..|files| - 1], lo, hi)
      + (if lo.Some? && f.smallest.key < lo.value then 1 else 0) + (if hi.Some? && f.largest.key > hi.value then 1 else 0)
  }

  /** All tables of the level that meet the range; at level 0 also those that meet these, and so on. */
  ghost predicate Meeting(level: nat, files: seq<File>, begin: Option<UserKey>, end: Option<UserKey>, inputs: seq<File>) {
    if level == 0 then exists lo, hi :: Hull(files, begin, end, lo, hi) && inputs == Overlapping(files, lo, hi)
    else inputs == Overlapping(files, begin, end)
  }

  lemma MeetingHasAll(level: nat, files: seq<File>, begin: Option<UserKey>, end: Option<UserKey>, inputs: seq<File>)
    requires Meeting(level, files, begin, end, inputs)
    ensures forall f :: f in files && Meets(f, begin, end) ==> f in inputs
  {
    if level == 0 {
      var lo, hi :| Hull(files, begin, end, lo, hi) && inputs == Overlapping(files, lo, hi);
      OverlappingMembers(files, lo, hi);
    } else {
      OverlappingMembers(files, begin, end);
    }
  }

  /** At level 0 the range grows to that of the tables found, and the search starts again. */
  method GetOverlappingInputs(level: nat, files: seq<File>, begin: Option<UserKey>, end: Option<UserKey>)
    returns (inputs: seq<File>, ghost lo: Option<UserKey>, ghost hi: Option<UserKey>)
    ensures inputs == Overlapping(files, lo, hi) && Meeting(level, files, begin, end, inputs)
    ensures if level == 0 then Hull(files, begin, end, lo, hi) else lo == begin && hi == end
  {
    inputs := [];
    var userBegin, userEnd := begin, end;
    var i := 0;
    while i < |files|
      invariant 0 <= i <= |files| && inputs == Overlapping(files[..i], userBegin, userEnd)
      invariant Wider(userBegin, userEnd, begin, end) && (begin == None <==> userBegin == None) && (end == None <==> userEnd == None)
      invariant level > 0 ==> userBegin == begin && userEnd == end
      invariant level == 0 ==> forall k :: 0 <= k < i && Meets(files[k], userBegin, userEnd) ==> Inside(files[k], userBegin, userEnd)
      invariant forall l, h {:trigger ClosedRange(files, l, h)} :: ClosedRange(files, l, h) && Wider(l, h, begin, end) ==> Wider(l, h, userBegin, userEnd)
      decreases Outside(files, userBegin, userEnd), |files| - i
    {
      var f := files[i];
      i := i + 1;
      assert files[..i][..i - 1] == files[..i - 1];
      if userBegin.Some? && f.largest.key < userBegin.value {
      } else if userEnd.Some? && f.smallest.key > userEnd.value {
      } else {
        inputs := inputs + [f];
        if level == 0 {
          ghost var b, e := userBegin, userEnd;
          if userBegin.Some? && f.smallest.key < userBegin.value {
            userBegin := Some(f.smallest.key);
            Restarts(files, f, begin, end, b, e, userBegin, userEnd);
            inputs := [];
            i := 0;
          } else if userEnd.Some? && f.largest.key > userEnd.value {
            userEnd := Some(f.largest.key);
            Restarts(files, f, begin, end, b, e, userBegin, userEnd);
            inputs := [];
            i := 0;
          }
        }
      }
    }
    lo, hi := userBegin, userEnd;
    assert files[..|files|] == files;
  }

  /** The new bound is one that every closed range has to respect. */
  lemma Restarts(files: seq<File>, f: File, begin: Option<UserKey>, end: Option<UserKey>, b: Option<UserKey>, e: Option<UserKey>, lo: Option<UserKey>, hi: Option<UserKey>)
    requires f in files && Meets(f, b, e) && Wider(b, e, begin, end) && (b == None <==> begin == None) && (e == None <==> end == None)
    requires (b.Some? && f.smallest.key < b.value && lo == Some(f.smallest.key) && hi == e) || (e.Some? && f.largest.key > e.value && lo == b && hi == Some(f.largest.key))
    requires forall l, h {:trigger ClosedRange(files, l, h)} :: ClosedRange(files, l, h) && Wider(l, h, begin, end) ==> Wider(l, h, b, e)
    ensures Outside(files, lo, hi) < Outside(files, b, e)
    ensures forall l, h {:trigger ClosedRange(files, l, h)} :: ClosedRange(files, l, h) && Wider(l, h, begin, end) ==> Wider(l, h, lo, hi)
  {
    FewerHere(files, f, b, e, lo, hi);
    forall l, h | ClosedRange(files, l, h) && Wider(l, h, begin, end) ensures Wider(l, h, lo, hi) {
      assert Wider(l, h, b, e);
      assert Meets(f, l, h);
      assert Inside(f, l, h);
    }
  }

  /** One bound reaches out to a table's. */
  lemma {:induction false} FewerHere(files: seq<File>, f: File, b: Option<UserKey>, e: Option<UserKey>, lo: Option<UserKey>, hi: Option<UserKey>)
    requires (b.Some? && f.smallest.key < b.value && lo == Some(f.smallest.key) && hi == e) || (e.Some? && f.largest.key > e.value && lo == b && hi == Some(f.largest.key))
    ensures Outside(files, lo, hi) <= Outside(files, b, e)
    ensures f in files ==> Outside(files, lo, hi) < Outside(files, b, e)
  {
    if files != [] {
      FewerHere(files[..|files| - 1], f, b, e, lo, hi);
      assert f in files ==> f in files[..|files| - 1] || f == files[|files| - 1];
    }
  }

  // ---------- Ranges and boundary tables ----------

  function Smallest(files: seq<File>): Entry
    requires files != []
  {
    if |files| == 1 then files[0].smallest
    else
      var e, f := Smallest(files[..|files| - 1]), files[|files| - 1];
      if Before(f.smallest, e) then f.smallest else e
  }

  function Largest(files: seq<File>): Entry
    requires files != []
  {
    if |files| == 1 then files[0].largest
    else
      var e, f := Largest(files[..|files| - 1]), files[|files| - 1];
      if Before(e, f.largest) then f.largest else e
  }

  lemma {:induction false} RangeIs(files: seq<File>)
    requires files != []
    ensures forall f :: f in files ==> !Before(f.smallest, Smallest(files)) && !Before(Largest(files), f.largest)
    ensures exists f :: f in files && f.smallest == Smallest(files)
    ensures exists f :: f in files && f.largest == Largest(files)
  {
    if |files| == 1 {
      assert files[0] in files;
    } else {
      var before, f := files[..|files| - 1], files[|files| - 1];
      RangeIs(before);
      assert f in files && forall g :: g in before ==> g in files;
      assert forall g :: g in files ==> g in before || g == f;
    }
  }

  /** GetRange, of the tables of one level or of two. */
  method GetRange(files: seq<File>) returns (smallest: Entry, largest: Entry)
    requires files != []
    ensures smallest == Smallest(files) && largest == Largest(files)
  {
    smallest, largest := files[0].smallest, files[0].largest;
    var i := 1;
    assert files[..1] == [files[0]];
    while i < |files|
      invariant 1 <= i <= |files| && smallest == Smallest(files[..i]) && largest == Largest(files[..i])
    {
      assert files[..i + 1][..i] == files[..i];
      if Before(files[i].smallest, smallest) {
        smallest := files[i].smallest;
      }
      if Before(largest, files[i].largest) {
        largest := files[i].largest;
      }
      i := i + 1;
    }
    assert files[..|files|] == files;
  }

  /** The table begins behind this key, with the same user key. */
  predicate Boundary(f: File, largest: Entry) {
    Before(largest, f.smallest) && f.smallest.key == largest.key
  }

  method FindSmallestBoundaryFile(levelFiles: seq<File>, largest: Entry) returns (found: Option<File>)
    ensures found == None <==> forall f :: f in levelFiles ==> !Boundary(f, largest)
    ensures found.Some? ==> found.value in levelFiles && Boundary(found.value, largest)
    ensures found.Some? ==> forall f :: f in levelFiles && Boundary(f, largest) ==> !Before(f.smallest, found.value.smallest)
  {
    found := None;
    var i := 0;
    while i < |levelFiles|
      invariant 0 <= i <= |levelFiles|
      invariant found == None ==> forall k :: 0 <= k < i ==> !Boundary(levelFiles[k], largest)
      invariant found.Some? ==> found.value in levelFiles && Boundary(found.value, largest)
      invariant found.Some? ==> forall k :: 0 <= k < i && Boundary(levelFiles[k], largest) ==> !Before(levelFiles[k].smallest, found.value.smallest)
    {
      var f := levelFiles[i];
      if Before(largest, f.smallest) && f.smallest.key == largest.key {
        if found == None || Before(f.smallest, found.value.smallest) {
          found := Some(f);
        }
      }
      i := i + 1;
    }
  }

  /** How many tables begin behind a key. */
  ghost function Behind(files: seq<File>, e: Entry): nat {
    if files == [] then 0 else Behind(files[..|files| - 1], e) + if Before(e, files[|files| - 1].smallest) then 1 else 0
  }

  lemma {:induction false} FewerBehind(files: seq<File>, f: File, e: Entry, g: Entry)
    requires Before(e, f.smallest) && !Before(g, f.smallest)
    ensures Behind(files, g) <= Behind(files, e)
    ensures f in files ==> Behind(files, g) < Behind(files, e)
  {
    if files != [] {
      FewerBehind(files[..|files| - 1], f, e, g);
      assert f in files ==> f in files[..|files| - 1] || f == files[|files| - 1];
    }
  }

  /** No table of the level that lies between two of these is missing. */
  ghost predicate Gapless(levelFiles: seq<File>, files: seq<File>) {
    forall f, a, b :: f in levelFiles && a in files && b in files && Before(a.largest, f.smallest) && Before(f.largest, b.smallest) ==> f in files
  }

  ghost predicate Among(files: seq<File>, levelFiles: seq<File>) {
    forall f :: f in files ==> f in levelFiles
  }

  lemma OneMoreGapless(levelFiles: seq<File>, files: seq<File>, b: File)
    requires Sane(levelFiles) && Disjoint(levelFiles) && Among(files, levelFiles) && Gapless(levelFiles, files)
    requires files != [] && b in levelFiles && Boundary(b, Largest(files))
    requires forall f :: f in levelFiles && Boundary(f, Largest(files)) ==> !Before(f.smallest, b.smallest)
    ensures Gapless(levelFiles, files + [b])
  {
    RangeIs(files);
    var last :| last in files && last.largest == Largest(files);
    forall f, x, y | f in levelFiles && x in files + [b] && y in files + [b] && Before(x.largest, f.smallest) && Before(f.largest, y.smallest)
      ensures f in files + [b]
    {
      if y == b && x in files && f !in files {
        InOrder(levelFiles, f, last);
      }
    }
  }

  lemma InOrder(levelFiles: seq<File>, f: File, g: File)
    requires Disjoint(levelFiles) && f in levelFiles && g in levelFiles
    ensures f == g || Before(f.largest, g.smallest) || Before(g.largest, f.smallest)
  {
    var i :| 0 <= i < |levelFiles| && levelFiles[i] == f;
    var k :| 0 <= k < |levelFiles| && levelFiles[k] == g;
  }

  lemma OneMoreLargest(levelFiles: seq<File>, all: seq<File>, f: File)
    requires all != [] && Sane(levelFiles) && f in levelFiles && Boundary(f, Largest(all))
    ensures Largest(all + [f]) == f.largest && Behind(levelFiles, f.largest) < Behind(levelFiles, Largest(all))
  {
    assert (all + [f])[..|all|] == all;
    FewerBehind(levelFiles, f, Largest(all), f.largest);
  }

  method FindLargestKey(files: seq<File>) returns (largest: Entry)
    requires files != []
    ensures largest == Largest(files)
  {
    largest := files[0].largest;
    var i := 1;
    assert files[..1] == [files[0]];
    while i < |files|
      invariant 1 <= i <= |files| && largest == Largest(files[..i])
    {
      assert files[..i + 1][..i] == files[..i];
      if Before(largest, files[i].largest) {
        largest := files[i].largest;
      }
      i := i + 1;
    }
    assert files[..|files|] == files;
  }

  /** Behind the first ones there is, one after the other, the first table that goes on with the last user key, until
      there is none. */
  ghost predicate Chained(levelFiles: seq<File>, start: seq<File>, all: seq<File>) {
    && start != [] && start <= all && (forall f :: f in levelFiles ==> !Boundary(f, Largest(all)))
    && forall k :: |start| <= k < |all| ==> all[k] in levelFiles && GoesOn(levelFiles, all[..k], all[k])
  }

  ghost predicate GoesOn(levelFiles: seq<File>, before: seq<File>, f: File) {
    before != [] && Boundary(f, Largest(before)) && forall g :: g in levelFiles && Boundary(g, Largest(before)) ==> !Before(g.smallest, f.smallest)
  }

  lemma OneMoreLink(levelFiles: seq<File>, start: seq<File>, all: seq<File>, f: File)
    requires (forall k :: |start| <= k < |all| ==> all[k] in levelFiles && GoesOn(levelFiles, all[..k], all[k]))
    requires f in levelFiles && GoesOn(levelFiles, all, f)
    ensures forall k :: |start| <= k < |all + [f]| ==> (all + [f])[k] in levelFiles && GoesOn(levelFiles, (all + [f])[..k], (all + [f])[k])
  {
    forall k | |start| <= k < |all + [f]| ensures GoesOn(levelFiles, (all + [f])[..k], (all + [f])[k]) {
      assert (all + [f])[..k] == all[..k];
      assert all[..|all|] == all;
    }
  }

  /** Adds the boundary tables behind the largest key, until there is none. */
  method AddBoundaryInputs(levelFiles: seq<File>, files: seq<File>) returns (all: seq<File>)
    requires Sane(levelFiles) && Among(files, levelFiles)
    ensures files <= all && Among(all, levelFiles)
    ensures all != [] ==> forall f :: f in levelFiles ==> !Boundary(f, Largest(all))
    ensures files != [] ==> Chained(levelFiles, files, all)
    ensures files != [] && (forall f :: f in levelFiles ==> !Boundary(f, Largest(files))) ==> all == files
    ensures Disjoint(levelFiles) && Gapless(levelFiles, files) ==> Gapless(levelFiles, all)
  {
    all := files;
    if files == [] {
      return;
    }
    var largest := FindLargestKey(files);
    var continueSearching := true;
    while continueSearching
      invariant files <= all && all != [] && Among(all, levelFiles) && largest == Largest(all)
      invariant !continueSearching ==> forall f :: f in levelFiles ==> !Boundary(f, largest)
      invariant forall k :: |files| <= k < |all| ==> all[k] in levelFiles && GoesOn(levelFiles, all[..k], all[k])
      invariant (forall f :: f in levelFiles ==> !Boundary(f, Largest(files))) ==> all == files
      invariant Disjoint(levelFiles) && Gapless(levelFiles, files) ==> Gapless(levelFiles, all)
      decreases continueSearching, Behind(levelFiles, largest)
    {
      var found := FindSmallestBoundaryFile(levelFiles, largest);
      if found.Some? {
        if Disjoint(levelFiles) && Gapless(levelFiles, all) {
          OneMoreGapless(levelFiles, all, found.value);
        }
        OneMoreLargest(levelFiles, all, found.value);
        OneMoreLink(levelFiles, files, all, found.value);
        all := all + [found.value];
        largest := found.value.largest;
      } else {
        continueSearching := false;
      }
    }
  }

  // ---------- The choice ----------

  /** A list of tables to begin with: at level 0 with all that meet them, deeper without a gap. */
  ghost predicate Start(levels: seq<seq<File>>, level: nat, files: seq<File>)
    requires level < |levels|
  {
    && files != [] && Among(files, levels[level])
    && if level == 0 then Gathered(levels[0], files) else Gapless(levels[level], files)
  }

  /** Every table that meets the range of these is one of these. */
  ghost predicate Gathered(levelFiles: seq<File>, files: seq<File>)
    requires files != []
  {
    forall f :: f in levelFiles && Meets(f, Some(Smallest(files).key), Some(Largest(files).key)) ==> f in files
  }

  /** What a compaction takes: no boundary table is left behind at its level, and of the next level
      every table is in that meets the range, and no other. */
  ghost predicate Chosen(levels: seq<seq<File>>, level: nat, inputs0: seq<File>, inputs1: seq<File>)
    requires level + 1 < |levels|
  {
    && Start(levels, level, inputs0)
    && (forall f :: f in levels[level] ==> !Boundary(f, Largest(inputs0)))
    && inputs1 == Overlapping(levels[level + 1], Some(Smallest(inputs0).key), Some(Largest(inputs0).key))
  }

  /** At level 0 a boundary table would meet the range. */
  lemma NoBoundaryAtZero(levelFiles: seq<File>, files: seq<File>)
    requires files != [] && Sane(levelFiles) && Among(files, levelFiles) && Gathered(levelFiles, files)
    ensures forall f :: f in levelFiles ==> !Boundary(f, Largest(files))
  {
    RangeIs(files);
    forall f | f in levelFiles ensures !Boundary(f, Largest(files)) {
      if Boundary(f, Largest(files)) {
        var first :| first in files && first.smallest == Smallest(files);
        assert Meets(f, Some(Smallest(files).key), Some(Largest(files).key));
      }
    }
  }

  lemma OverlappingStart(levels: seq<seq<File>>, level: nat, lo: Option<UserKey>, hi: Option<UserKey>)
    requires level < |levels| && Shape(levels) && Overlapping(levels[level], lo, hi) != []
    requires level == 0 ==> ClosedRange(levels[0], lo, hi)
    ensures Start(levels, level, Overlapping(levels[level], lo, hi))
  {
    var files := Overlapping(levels[level], lo, hi);
    OverlappingMembers(levels[level], lo, hi);
    RangeIs(files);
    if level == 0 {
      forall f | f in levels[0] && Meets(f, Some(Smallest(files).key), Some(Largest(files).key)) ensures f in files {
        assert Meets(f, lo, hi);
      }
    }
  }

  method TotalFileSize(files: seq<File>) returns (sum: nat)
    ensures sum == SizeOf(files)
  {
    sum := 0;
    var i := 0;
    while i < |files|
      invariant 0 <= i <= |files| && sum == SizeOf(files[..i])
    {
      assert files[..i + 1][..i] == files[..i];
      sum := sum + files[i].size;
      i := i + 1;
    }
    assert files[..|files|] == files;
  }

  ghost function SizeOf(files: seq<File>): nat {
    if files == [] then 0 else SizeOf(files[..|files| - 1]) + files[|files| - 1].size
  }

  lemma {:induction false} SizeOfIs(files: seq<File>, more: seq<File>, f: File)
    ensures SizeOf(files + more) == SizeOf(files) + SizeOf(more) && SizeOf([f]) == f.size
  {
    if more == [] {
      assert files + more == files;
    } else {
      var n := |more| - 1;
      SizeOfIs(files, more[..n], f);
      assert (files + more)[..|files + more| - 1] == files + more[..n];
    }
  }

  // ---------- What comes along ----------

  /** The tables of the next level that meet the range of these. */
  function Lower(levels: seq<seq<File>>, level: nat, files: seq<File>): seq<File>
    requires level + 1 < |levels| && files != []
  {
    Overlapping(levels[level + 1], Some(Smallest(files).key), Some(Largest(files).key))
  }

  /** All of the level in the range of these and of the lower ones. */
  ghost predicate Expansion(levels: seq<seq<File>>, level: nat, base: seq<File>, expanded: seq<File>)
    requires level + 1 < |levels| && base != []
  {
    var all := base + Lower(levels, level, base);
    exists wide :: Meeting(level, levels[level], Some(Smallest(all).key), Some(Largest(all).key), wide) && Chained(levels[level], wide, expanded)
  }

  /** More tables of the level, within the size limit, and not one more of the next level. */
  ghost predicate Worthwhile(levels: seq<seq<File>>, level: nat, base: seq<File>, expanded: seq<File>, limit: nat)
    requires level + 1 < |levels| && base != []
  {
    && expanded != [] && |expanded| > |base| && SizeOf(Lower(levels, level, base)) + SizeOf(expanded) < limit
    && Lower(levels, level, expanded) == Lower(levels, level, base)
  }

  /** What is taken if one begins with start: start with its boundary tables, or the expansion of these if it is
      worthwhile. */
  ghost predicate Selected(levels: seq<seq<File>>, level: nat, start: seq<File>, limit: nat, inputs0: seq<File>, inputs1: seq<File>)
    requires level + 1 < |levels|
  {
    exists base, expanded :: Settled(levels, level, start, limit, inputs0, inputs1, base, expanded)
  }

  ghost predicate Settled(levels: seq<seq<File>>, level: nat, start: seq<File>, limit: nat, inputs0: seq<File>, inputs1: seq<File>,
                          base: seq<File>, expanded: seq<File>)
    requires level + 1 < |levels|
  {
    && Chained(levels[level], start, base) && inputs1 == Lower(levels, level, base)
    && (inputs1 != [] ==> Expansion(levels, level, base, expanded))
    && inputs0 == if inputs1 != [] && Worthwhile(levels, level, base, expanded, limit) then expanded else base
  }

  /** The expansion is at least what one began with. */
  lemma ExpansionHas(levels: seq<seq<File>>, level: nat, base: seq<File>, expanded: seq<File>)
    requires level + 1 < |levels| && base != [] && Shape(levels) && Among(base, levels[level]) && Expansion(levels, level, base, expanded)
    ensures expanded != [] && Among(base, expanded)
  {
    var all := base + Lower(levels, level, base);
    var lo, hi := Some(Smallest(all).key), Some(Largest(all).key);
    var wide :| Meeting(level, levels[level], lo, hi, wide) && Chained(levels[level], wide, expanded);
    RangeIs(all);
    MeetingHasAll(level, levels[level], lo, hi, wide);
    forall f | f in base ensures f in expanded {
      assert f in all && f in levels[level];
      assert !Before(f.largest, f.smallest) && Meets(f, lo, hi);
      assert f in wide;
    }
    assert base[0] in base;
  }

  lemma SelectedHasStart(levels: seq<seq<File>>, level: nat, start: seq<File>, limit: nat, inputs0: seq<File>, inputs1: seq<File>)
    requires level + 1 < |levels| && Shape(levels) && Among(start, levels[level]) && Selected(levels, level, start, limit, inputs0, inputs1)
    ensures Among(start, inputs0)
  {
    var base, expanded :| Settled(levels, level, start, limit, inputs0, inputs1, base, expanded);
    ChainAmong(levels[level], start, base);
    if inputs1 != [] {
      ExpansionHas(levels, level, base, expanded);
    }
  }

  lemma ChainAmong(levelFiles: seq<File>, start: seq<File>, all: seq<File>)
    requires Chained(levelFiles, start, all) && Among(start, levelFiles)
    ensures Among(start, all) && Among(all, levelFiles)
  {
    forall f | f in all ensures f in levelFiles {
      var k :| 0 <= k < |all| && all[k] == f;
      assert k < |start| ==> start[k] in start;
    }
  }

  /** A wider range meets no fewer tables, and if it meets as many then the same. */
  lemma {:induction false} AsMany(files: seq<File>, lo: Option<UserKey>, hi: Option<UserKey>, l: Option<UserKey>, h: Option<UserKey>)
    requires Wider(l, h, lo, hi)
    ensures |Overlapping(files, lo, hi)| <= |Overlapping(files, l, h)|
    ensures |Overlapping(files, lo, hi)| == |Overlapping(files, l, h)| ==> Overlapping(files, lo, hi) == Overlapping(files, l, h)
  {
    if files != [] {
      AsMany(files[..|files| - 1], lo, hi, l, h);
    }
  }

  lemma LowerGrows(levels: seq<seq<File>>, level: nat, base: seq<File>, expanded: seq<File>)
    requires level + 1 < |levels| && base != [] && expanded != [] && Among(base, expanded)
    ensures |Lower(levels, level, base)| == |Lower(levels, level, expanded)| ==> Lower(levels, level, base) == Lower(levels, level, expanded)
  {
    RangeIs(base);
    RangeIs(expanded);
    AsMany(levels[level + 1], Some(Smallest(base).key), Some(Largest(base).key), Some(Smallest(expanded).key), Some(Largest(expanded).key));
  }

  method SetupOtherInputs(levels: seq<seq<File>>, level: nat, start: seq<File>, expandedLimit: nat)
    returns (inputs0: seq<File>, inputs1: seq<File>)
    requires Shape(levels) && level + 1 < |levels| && Start(levels, level, start)
    ensures Chosen(levels, level, inputs0, inputs1)
    ensures Selected(levels, level, start, expandedLimit, inputs0, inputs1) && Among(start, inputs0)
  {
    inputs0 := Completed(levels, level, start);
    ghost var base, expanded := inputs0, [];
    var smallest, largest := GetRange(inputs0);
    ghost var lo, hi;
    inputs1, lo, hi := GetOverlappingInputs(level + 1, levels[level + 1], Some(smallest.key), Some(largest.key));
    var allStart, allLimit := GetRange(inputs0 + inputs1);
    if |inputs1| > 0 {
      var expanded0 := Expanded(levels, level, inputs0, Some(allStart.key), Some(allLimit.key));
      expanded := expanded0;
      LowerGrows(levels, level, base, expanded);
      var size1 := TotalFileSize(inputs1);
      var size0 := TotalFileSize(expanded0);
      if |expanded0| > |inputs0| && size1 + size0 < expandedLimit {
        var newStart, newLimit := GetRange(expanded0);
        var expanded1;
        expanded1, lo, hi := GetOverlappingInputs(level + 1, levels[level + 1], Some(newStart.key), Some(newLimit.key));
        if |expanded1| == |inputs1| {
          inputs0, inputs1 := expanded0, expanded1;
        }
      }
    }
    assert Settled(levels, level, start, expandedLimit, inputs0, inputs1, base, expanded);
    SelectedHasStart(levels, level, start, expandedLimit, inputs0, inputs1);
  }

  /** The tables of the level in the range of these and the lower ones, with their boundary tables. */
  method Expanded(levels: seq<seq<File>>, level: nat, base: seq<File>, begin: Option<UserKey>, end: Option<UserKey>) returns (expanded: seq<File>)
    requires Shape(levels) && level + 1 < |levels| && base != [] && Among(base, levels[level])
    requires var all := base + Lower(levels, level, base); begin == Some(Smallest(all).key) && end == Some(Largest(all).key)
    ensures Expansion(levels, level, base, expanded) && Start(levels, level, expanded) && Among(base, expanded)
    ensures forall f :: f in levels[level] ==> !Boundary(f, Largest(expanded))
  {
    ghost var lo, hi;
    expanded, lo, hi := GetOverlappingInputs(level, levels[level], begin, end);
    WideHasBase(levels, level, base, begin, end, expanded);
    OverlappingStart(levels, level, lo, hi);
    expanded := Completed(levels, level, expanded);
    ExpansionHas(levels, level, base, expanded);
  }

  lemma WideHasBase(levels: seq<seq<File>>, level: nat, base: seq<File>, begin: Option<UserKey>, end: Option<UserKey>, wide: seq<File>)
    requires Shape(levels) && level + 1 < |levels| && base != [] && Among(base, levels[level])
    requires var all := base + Lower(levels, level, base); begin == Some(Smallest(all).key) && end == Some(Largest(all).key)
    requires Meeting(level, levels[level], begin, end, wide)
    ensures wide != []
  {
    var all, f := base + Lower(levels, level, base), base[0];
    RangeIs(all);
    MeetingHasAll(level, levels[level], begin, end, wide);
    assert f in base && f in all && f in levels[level];
    assert !Before(f.largest, f.smallest) && Meets(f, begin, end);
  }

  /** The list with its boundary tables. */
  method Completed(levels: seq<seq<File>>, level: nat, start: seq<File>) returns (files: seq<File>)
    requires Shape(levels) && level < |levels| && Start(levels, level, start)
    ensures Start(levels, level, files) && Chained(levels[level], start, files)
    ensures forall f :: f in levels[level] ==> !Boundary(f, Largest(files))
  {
    if level == 0 {
      NoBoundaryAtZero(levels[0], start);
    }
    files := AddBoundaryInputs(levels[level], start);
  }

  /** PickCompaction at the level whose score is highest: the first table behind the compact pointer, or
      the first of all. At level 0 every table that meets it comes along. */
  method PickCompaction(levels: seq<seq<File>>, level: nat, pointer: Option<Entry>, expandedLimit: nat)
    returns (inputs0: seq<File>, inputs1: seq<File>)
    requires Shape(levels) && level + 1 < |levels| && levels[level] != []
    ensures Chosen(levels, level, inputs0, inputs1)
    ensures exists f :: InTurn(levels[level], pointer, f) && PickedWith(levels, level, f, expandedLimit, inputs0, inputs1) && f in inputs0
  {
    var files := levels[level];
    var start := [];
    var i := 0;
    while i < |files| && start == []
      invariant 0 <= i <= |files| && |start| <= 1 && Among(start, files)
      invariant start == [] ==> forall k :: 0 <= k < i ==> !EndsBehind(files[k], pointer)
      invariant start != [] ==> i > 0 && start == [files[i - 1]] && EndsBehind(files[i - 1], pointer) && forall k :: 0 <= k < i - 1 ==> !EndsBehind(files[k], pointer)
    {
      if pointer == None || Before(pointer.value, files[i].largest) {
        start := [files[i]];
      }
      i := i + 1;
    }
    if start == [] {
      start := [files[0]];
    }
    assert InTurn(files, pointer, start[0]);
    inputs0, inputs1 := PickTable(levels, level, start[0], expandedLimit);
  }

  predicate EndsBehind(f: File, pointer: Option<Entry>) {
    pointer == None || Before(pointer.value, f.largest)
  }

  /** The first table that ends behind the pointer, or the first of all if there is none. */
  ghost predicate InTurn(files: seq<File>, pointer: Option<Entry>, f: File) {
    || (exists k :: 0 <= k < |files| && f == files[k] && EndsBehind(f, pointer) && forall i :: 0 <= i < k ==> !EndsBehind(files[i], pointer))
    || (files != [] && f == files[0] && forall g :: g in files ==> !EndsBehind(g, pointer))
  }

  /** What comes along with table f. */
  ghost predicate PickedWith(levels: seq<seq<File>>, level: nat, f: File, limit: nat, inputs0: seq<File>, inputs1: seq<File>)
    requires level + 1 < |levels|
  {
    exists start :: Selected(levels, level, start, limit, inputs0, inputs1)
      && if level == 0 then Meeting(0, levels[0], Some(f.smallest.key), Some(f.largest.key), start) else start == [f]
  }

  /** PickCompaction once a table has been picked, by size or by seeks. */
  method PickTable(levels: seq<seq<File>>, level: nat, f: File, expandedLimit: nat) returns (inputs0: seq<File>, inputs1: seq<File>)
    requires Shape(levels) && level + 1 < |levels| && f in levels[level]
    ensures Chosen(levels, level, inputs0, inputs1)
    ensures PickedWith(levels, level, f, expandedLimit, inputs0, inputs1) && f in inputs0
  {
    var start := [f];
    if level == 0 {
      var smallest, largest := GetRange(start);
      ghost var lo, hi;
      start, lo, hi := GetOverlappingInputs(0, levels[0], Some(smallest.key), Some(largest.key));
      OverlappingMembers(levels[0], lo, hi);
      assert Meets(f, lo, hi);
      OverlappingStart(levels, 0, lo, hi);
    }
    inputs0, inputs1 := SetupOtherInputs(levels, level, start, expandedLimit);
  }

  /** The first tables, up to the one that reaches the limit. */
  method UpToLimit(all: seq<File>, limit: nat) returns (first: seq<File>)
    requires all != []
    ensures first != [] && first <= all && (forall k :: 0 < k < |first| ==> SizeOf(all[..k]) < limit)
    ensures first == all || SizeOf(first) >= limit
  {
    var total, i := 0, 0;
    while i < |all|
      invariant 0 <= i <= |all| && total == SizeOf(all[..i])
      invariant forall k :: 0 < k <= i ==> SizeOf(all[..k]) < limit
    {
      assert all[..i + 1][..i] == all[..i];
      total := total + all[i].size;
      if total >= limit {
        return all[..i + 1];
      }
      i := i + 1;
    }
    first := all;
  }

  /** CompactRange: nothing if no table meets the range; above level 0 no more tables than a size limit allows. */
  method CompactRange(levels: seq<seq<File>>, level: nat, begin: Option<UserKey>, end: Option<UserKey>, limit: nat, expandedLimit: nat)
    returns (found: bool, inputs0: seq<File>, inputs1: seq<File>)
    requires Shape(levels) && level + 1 < |levels|
    ensures found <==> exists f :: f in levels[level] && Meets(f, begin, end)
    ensures found ==> Chosen(levels, level, inputs0, inputs1)
    ensures found ==> exists all, first :: Requested(levels, level, begin, end, limit, all, first) && Selected(levels, level, first, expandedLimit, inputs0, inputs1)
    ensures found && level == 0 ==> forall f :: f in levels[0] && Meets(f, begin, end) ==> f in inputs0
    ensures found && level > 0 ==> Overlapping(levels[level], begin, end)[0] in inputs0
  {
    inputs1 := [];
    ghost var lo, hi;
    inputs0, lo, hi := GetOverlappingInputs(level, levels[level], begin, end);
    OverlappingMembers(levels[level], lo, hi);
    if level == 0 {
      HullMeets(levels[0], begin, end, lo, hi);
    }
    if inputs0 == [] {
      return false, [], [];
    }
    assert inputs0[0] in inputs0;
    OverlappingStart(levels, level, lo, hi);
    ghost var all := inputs0;
    if level > 0 {
      inputs0 := UpToLimit(inputs0, limit);
      OverlappingDisjoint(levels[level], lo, hi);
      PrefixGapless(levels[level], all, |inputs0|, lo, hi);
      assert inputs0 == all[..|inputs0|];
    }
    found := true;
    MeetingHasAll(level, levels[level], begin, end, all);
    assert Requested(levels, level, begin, end, limit, all, inputs0);
    inputs0, inputs1 := SetupOtherInputs(levels, level, inputs0, expandedLimit);
  }

  /** Of all the tables that meet the range, those to begin with: at level 0 all, above it the first ones up to the
      one that reaches the size limit. */
  ghost predicate Requested(levels: seq<seq<File>>, level: nat, begin: Option<UserKey>, end: Option<UserKey>, limit: nat, all: seq<File>, first: seq<File>)
    requires level < |levels|
  {
    && Meeting(level, levels[level], begin, end, all) && first != [] && first <= all
    && if level == 0 then first == all
       else (forall k :: 0 < k < |first| ==> SizeOf(all[..k]) < limit) && (first == all || SizeOf(first) >= limit)
  }

  /** The hull of a range meets a table only if the range does. */
  lemma HullMeets(files: seq<File>, begin: Option<UserKey>, end: Option<UserKey>, lo: Option<UserKey>, hi: Option<UserKey>)
    requires Hull(files, begin, end, lo, hi)
    ensures (exists f :: f in files && Meets(f, lo, hi)) <==> exists f :: f in files && Meets(f, begin, end)
  {
    if forall f :: f in files ==> !Meets(f, begin, end) {
      assert ClosedRange(files, begin, end) && Wider(begin, end, begin, end);
    }
  }

  lemma {:induction false} OverlappingDisjoint(files: seq<File>, lo: Option<UserKey>, hi: Option<UserKey>)
    requires Disjoint(files)
    ensures Disjoint(Overlapping(files, lo, hi))
  {
    if files != [] {
      var before := files[..|files| - 1];
      OverlappingDisjoint(before, lo, hi);
      OverlappingMembers(before, lo, hi);
      var kept := Overlapping(before, lo, hi);
      forall i | 0 <= i < |kept| ensures Before(kept[i].largest, files[|files| - 1].smallest) {
        assert kept[i] in kept;
      }
    }
  }

  lemma PrefixGapless(files: seq<File>, all: seq<File>, n: nat, lo: Option<UserKey>, hi: Option<UserKey>)
    requires Sane(files) && 0 < n <= |all| && Disjoint(all) && Among(all, files) && Gapless(files, all)
    ensures Gapless(files, all[..n]) && Among(all[..n], files)
  {
    forall f, a, b | f in files && a in all[..n] && b in all[..n] && Before(a.largest, f.smallest) && Before(f.largest, b.smallest)
      ensures f in all[..n]
    {
      assert f in all;
      var i :| 0 <= i < |all| && all[i] == f;
      var k :| 0 <= k < n && all[k] == b;
    }
  }

  // ---------- Where a memtable goes ----------

  const MAX_MEM_COMPACT_LEVEL := 2

  /** FindFile: binary search for the first table that does not end before the key. */
  function FindFileIn(files: seq<File>, key: Entry, left: nat, right: nat): (index: nat)
    requires left <= right <= |files|
    ensures left <= index <= right
    decreases right - left
  {
    if left == right then right
    else
      var mid := (left + right) / 2;
      if Before(files[mid].largest, key) then FindFileIn(files, key, mid + 1, right) else FindFileIn(files, key, left, mid)
  }

  method FindFile(files: seq<File>, key: Entry) returns (index: nat)
    ensures index == FindFileIn(files, key, 0, |files|)
  {
    var left, right := 0, |files|;
    while left < right
      invariant 0 <= left <= right <= |files| && FindFileIn(files, key, 0, |files|) == FindFileIn(files, key, left, right)
    {
      var mid := (left + right) / 2;
      if Before(files[mid].largest, key) {
        left := mid + 1;
      } else {
        right := mid;
      }
    }
    index := right;
  }

  /** In tables that lie one after the other it is the first. */
  lemma {:induction false} FindsFirst(files: seq<File>, key: Entry, left: nat, right: nat)
    requires Sane(files) && Disjoint(files) && left <= right <= |files|
    requires forall i :: 0 <= i < left ==> Before(files[i].largest, key)
    requires forall i :: right <= i < |files| ==> !Before(files[i].largest, key)
    ensures var index := FindFileIn(files, key, left, right);
      && (forall i :: 0 <= i < index ==> Before(files[i].largest, key))
      && forall i :: index <= i < |files| ==> !Before(files[i].largest, key)
    decreases right - left
  {
    if left < right {
      var mid := (left + right) / 2;
      EndsAscend(files, mid, key);
      if Before(files[mid].largest, key) {
        FindsFirst(files, key, mid + 1, right);
      } else {
        FindsFirst(files, key, left, mid);
      }
    }
  }

  lemma EndsAscend(files: seq<File>, mid: nat, key: Entry)
    requires Sane(files) && Disjoint(files) && mid < |files|
    ensures Before(files[mid].largest, key) ==> forall i :: 0 <= i <= mid ==> Before(files[i].largest, key)
    ensures !Before(files[mid].largest, key) ==> forall i :: mid <= i < |files| ==> !Before(files[i].largest, key)
  {
    forall i | 0 <= i < |files| ensures (i < mid ==> Before(files[i].largest, files[mid].largest)) && (mid < i ==> Before(files[mid].largest, files[i].largest)) {
      assert files[i] in files && files[mid] in files;
    }
  }

  /** Every stored key sorts behind the search key with the highest number. */
  ghost predicate BelowMax(files: seq<File>) {
    forall f :: f in files ==> f.largest.sequence <= MAX_SEQUENCE && Parses(f.largest)
  }

  /** SomeFileOverlapsRange */
  method OverlapInLevel(level: nat, files: seq<File>, lo: UserKey, hi: UserKey) returns (overlap: bool)
    requires Sane(files) && BelowMax(files) && (level > 0 ==> Disjoint(files))
    ensures overlap <==> exists f :: f in files && Meets(f, Some(lo), Some(hi))
  {
    if level == 0 {
      overlap := false;
      var i := 0;
      while i < |files|
        invariant 0 <= i <= |files| && forall k :: 0 <= k < i ==> !Meets(files[k], Some(lo), Some(hi))
      {
        if lo > files[i].largest.key || hi < files[i].smallest.key {
        } else {
          assert files[i] in files && Meets(files[i], Some(lo), Some(hi));
          return true;
        }
        i := i + 1;
      }
    } else {
      var key := Entry(lo, MAX_SEQUENCE, VALUE, "");
      var index := FindFile(files, key);
      FindsFirst(files, key, 0, |files|);
      forall i | 0 <= i < index ensures !Meets(files[i], Some(lo), Some(hi)) {
        assert files[i] in files;
      }
      if index >= |files| {
        return false;
      }
      assert files[index] in files;
      forall i | index <= i < |files| ensures Meets(files[i], Some(lo), Some(hi)) ==> !(hi < files[index].smallest.key) {
        assert files[i] in files;
      }
      overlap := !(hi < files[index].smallest.key);
      assert overlap ==> Meets(files[index], Some(lo), Some(hi));
    }
  }

  /** No table of the level meets the range, and of the level below not too much. */
  ghost predicate MayEnter(levels: seq<seq<File>>, l: nat, lo: UserKey, hi: UserKey, grandparentLimit: nat)
    requires l < |levels|
  {
    && (forall f :: f in levels[l] ==> !Meets(f, Some(lo), Some(hi)))
    && (l > 0 && l + 1 < |levels| ==> SizeOf(Overlapping(levels[l + 1], Some(lo), Some(hi))) <= grandparentLimit)
  }

  /** Down as far as the range may go, but to level 2 at most. */
  method PickLevelForMemTableOutput(levels: seq<seq<File>>, lo: UserKey, hi: UserKey, grandparentLimit: nat) returns (level: nat)
    requires Shape(levels) && |levels| == NUM_LEVELS && forall l :: 0 <= l < |levels| ==> BelowMax(levels[l])
    ensures level <= MAX_MEM_COMPACT_LEVEL
    ensures level > 0 ==> forall l :: 0 <= l <= level ==> MayEnter(levels, l, lo, hi, grandparentLimit)
    ensures level < MAX_MEM_COMPACT_LEVEL ==> !MayEnter(levels, 0, lo, hi, grandparentLimit) || !MayEnter(levels, level + 1, lo, hi, grandparentLimit)
  {
    level := 0;
    var overlap := OverlapInLevel(0, levels[0], lo, hi);
    if !overlap {
      while level < MAX_MEM_COMPACT_LEVEL
        invariant 0 <= level <= MAX_MEM_COMPACT_LEVEL
        invariant forall l :: 0 <= l <= level ==> MayEnter(levels, l, lo, hi, grandparentLimit)
      {
        overlap := OverlapInLevel(level + 1, levels[level + 1], lo, hi);
        if overlap {
          break;
        }
        if level + 2 < NUM_LEVELS {
          ghost var l, h;
          var overlaps;
          overlaps, l, h := GetOverlappingInputs(level + 2, levels[level + 2], Some(lo), Some(hi));
          var sum := TotalFileSize(overlaps);
          if sum > grandparentLimit {
            break;
          }
        }
        level := level + 1;
      }
    }
  }
}

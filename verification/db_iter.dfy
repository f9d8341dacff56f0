/** DBIter: a bidirectional cursor over user keys, run on top of a sorted list of versions. */
module DbIter {
  import opened Entries
  import opened Options

  // ---------- The plain cursor's table ----------

  predicate Visible(e: Entry, s: nat) {
    Parses(e) && e.sequence <= s
  }

  /** Entry i is the one that shows its user key at snapshot s. */
  ghost predicate Winner(L: seq<Entry>, s: nat, i: int) {
    && 0 <= i < |L|
    && Visible(L[i], s) && L[i].kind == VALUE
    && forall j :: 0 <= j < i ==> !(L[j].key == L[i].key && Visible(L[j], s))
  }

  /** The rows that the first n entries contribute: one per live user key. */
  ghost function Rows(L: seq<Entry>, s: nat, n: nat): seq<(UserKey, Value)>
    requires n <= |L|
  {
    if n == 0 then []
    else Rows(L, s, n - 1) + if Winner(L, s, n - 1) then [(L[n - 1].key, L[n - 1].value)] else []
  }

  ghost function Table(L: seq<Entry>, s: nat): seq<(UserKey, Value)> {
    Rows(L, s, |L|)
  }

  ghost function Rank(L: seq<Entry>, s: nat, i: nat): nat
    requires i <= |L|
  {
    |Rows(L, s, i)|
  }

  lemma {:induction false} RowsPrefix(L: seq<Entry>, s: nat, i: nat, n: nat)
    requires i <= n <= |L|
    ensures Rows(L, s, i) <= Rows(L, s, n)
  {
    if i < n {
      RowsPrefix(L, s, i, n - 1);
    }
  }

  lemma {:induction false} NoWinnersBetween(L: seq<Entry>, s: nat, i: nat, n: nat)
    requires i <= n <= |L| && forall k :: i <= k < n ==> !Winner(L, s, k)
    ensures Rows(L, s, i) == Rows(L, s, n)
  {
    if i < n {
      NoWinnersBetween(L, s, i, n - 1);
    }
  }

  lemma RowOfWinner(L: seq<Entry>, s: nat, i: nat)
    requires Winner(L, s, i)
    ensures Rank(L, s, i) < |Table(L, s)| && Table(L, s)[Rank(L, s, i)] == (L[i].key, L[i].value)
    ensures Rank(L, s, i + 1) == Rank(L, s, i) + 1
  {
    RowsPrefix(L, s, i + 1, |L|);
  }

  lemma NextWinner(L: seq<Entry>, s: nat, i: nat, n: nat)
    requires Winner(L, s, i) && i < n <= |L| && forall k :: i < k < n ==> !Winner(L, s, k)
    ensures Rank(L, s, n) == Rank(L, s, i) + 1
  {
    NoWinnersBetween(L, s, i + 1, n);
  }

  lemma {:induction false} RowSource(L: seq<Entry>, s: nat, n: nat, r: nat) returns (i: nat)
    requires n <= |L| && r < |Rows(L, s, n)|
    ensures i < n && Winner(L, s, i) && Rank(L, s, i) == r && Rows(L, s, n)[r] == (L[i].key, L[i].value)
  {
    if r < |Rows(L, s, n - 1)| {
      i := RowSource(L, s, n - 1, r);
    } else {
      i := n - 1;
    }
  }

  /** The table is the map of live keys: ascending, and holding u with v exactly when a
      read of u at s finds v. */
  lemma TableIsTheView(L: seq<Entry>, s: nat, u: UserKey, v: Value)
    requires Sorted(L) && Distinct(Elements(L))
    ensures forall a, b :: 0 <= a < b < |Table(L, s)| ==> Table(L, s)[a].0 < Table(L, s)[b].0
    ensures (u, v) in Table(L, s) <==> View(Elements(L), u, s) == Some(v)
  {
    forall a, b | 0 <= a < b < |Table(L, s)| ensures Table(L, s)[a].0 < Table(L, s)[b].0 {
      var i := RowSource(L, s, |L|, a);
      var j := RowSource(L, s, |L|, b);
      if j <= i {
        RowsPrefix(L, s, j, i);
      } else {
        assert Before(L[i], L[j]);
      }
    }
    if (u, v) in Table(L, s) {
      var r :| 0 <= r < |Table(L, s)| && Table(L, s)[r] == (u, v);
      var i := RowSource(L, s, |L|, r);
      WinnerIsNewest(L, s, i);
      ViewOfNewest(Elements(L), u, s, L[i]);
    }
    if View(Elements(L), u, s) == Some(v) {
      var e :| Newest(Elements(L), u, s, e) && e.kind == VALUE && e.value == v;
      var i :| 0 <= i < |L| && L[i] == e;
      forall j | 0 <= j < i ensures !(L[j].key == u && Visible(L[j], s)) {
        assert Before(L[j], L[i]) && L[j] in Elements(L);
      }
      RowOfWinner(L, s, i);
    }
  }

  lemma WinnerIsNewest(L: seq<Entry>, s: nat, i: nat)
    requires Sorted(L) && Winner(L, s, i)
    ensures Newest(Elements(L), L[i].key, s, L[i])
  {
  }

  ghost predicate HasGarbled(L: seq<Entry>) {
    exists i :: 0 <= i < |L| && !Parses(L[i])
  }

  // ---------- The internal iterator ----------

  /** An iterator over a sorted list of versions; pos == |entries| when it is not valid. */
  class InternalIterator {
    var entries: seq<Entry>
    var pos: nat

    ghost predicate Ok()
      reads this
    {
      Sorted(entries) && pos <= |entries|
    }

    predicate Valid()
      reads this
    {
      pos < |entries|
    }

    method Next()
      requires Ok() && Valid()
      modifies `pos
      ensures Ok() && pos == old(pos) + 1
    {
      pos := pos + 1;
    }

    method Prev()
      requires Ok() && Valid()
      modifies `pos
      ensures Ok() && pos == if old(pos) == 0 then |entries| else old(pos) - 1
    {
      pos := if pos == 0 then |entries| else pos - 1;
    }

    method SeekToFirst()
      requires Ok()
      modifies `pos
      ensures Ok() && pos == 0
    {
      pos := 0;
    }

    method SeekToLast()
      requires Ok()
      modifies `pos
      ensures Ok() && pos == if entries == [] then 0 else |entries| - 1
    {
      pos := if entries == [] then 0 else |entries| - 1;
    }

    /** Positions at the first entry at or after the internal key (key, sequence, VALUE). */
    method Seek(key: UserKey, sequence: nat)
      requires Ok()
      modifies `pos
      ensures Ok()
      ensures forall i :: 0 <= i < pos ==> Before(entries[i], Entry(key, sequence, VALUE, ""))
      ensures pos < |entries| ==> !Before(entries[pos], Entry(key, sequence, VALUE, ""))
    {
      pos := 0;
      while pos < |entries| && Before(entries[pos], Entry(key, sequence, VALUE, ""))
        invariant Ok()
        invariant forall i :: 0 <= i < pos ==> Before(entries[i], Entry(key, sequence, VALUE, ""))
        decreases |entries| - pos
      {
        pos := pos + 1;
      }
    }
  }

  // ---------- DBIter ----------

  datatype Direction = Forward | Reverse

  /** saved_key_ is empty, a user key, or scratch space holding an encoded seek target. */
  datatype SavedKey = Cleared | UserKeyOf(key: UserKey) | SeekTarget(target: UserKey, sequence: nat)

  /** Moving forward the internal iterator is on the entry that shows the row; moving
      backward it is before all versions of the row's key, and the row was saved. */
  ghost predicate OnRow(L: seq<Entry>, s: nat, pos: nat, direction: Direction, key: SavedKey, value: Value, at: nat) {
    && Winner(L, s, at)
    && (direction == Forward ==> pos == at)
    && (direction == Reverse ==>
          key == UserKeyOf(L[at].key) && value == L[at].value && BeforeRow(L, s, Spot(L, pos), at))
  }

  class DBIter {
    const iter: InternalIterator
    const sequence: nat
    var corrupted: bool
    var savedKey: SavedKey
    var savedValue: Value
    var direction: Direction
    var valid: bool
    /** The entry that shows the current row. */
    ghost var at: nat

    ghost predicate Ok()
      reads this, iter
    {
      && iter.Ok()
      && (corrupted ==> HasGarbled(iter.entries))
      && (valid ==> OnRow(iter.entries, sequence, iter.pos, direction, savedKey, savedValue, at))
    }

    ghost function Contents(): seq<(UserKey, Value)>
      reads this, iter
    {
      Table(iter.entries, sequence)
    }

    /** The row of Contents() the cursor stands on. */
    ghost function Row(): nat
      requires Ok() && valid
      reads this, iter
    {
      Rank(iter.entries, sequence, at)
    }

    constructor (iter: InternalIterator, sequence: nat)
      requires iter.Ok()
      ensures this.iter == iter && this.sequence == sequence && Ok() && !valid && !corrupted
    {
      this.iter, this.sequence := iter, sequence;
      corrupted, savedKey, savedValue, direction, valid := false, Cleared, "", Forward, false;
    }

    method Key() returns (k: UserKey)
      requires Ok() && valid
      ensures Row() < |Contents()| && k == Contents()[Row()].0
    {
      RowOfWinner(iter.entries, sequence, at);
      k := if direction == Forward then iter.entries[iter.pos].key else savedKey.key;
    }

    method Value() returns (v: Value)
      requires Ok() && valid
      ensures Row() < |Contents()| && v == Contents()[Row()].1
    {
      RowOfWinner(iter.entries, sequence, at);
      v := if direction == Forward then iter.entries[iter.pos].value else savedValue;
    }

    method ParseKey() returns (ok: bool)
      requires iter.Ok() && iter.Valid()
      requires corrupted ==> HasGarbled(iter.entries)
      modifies `corrupted
      ensures ok == Parses(iter.entries[iter.pos]) && corrupted == (old(corrupted) || !ok)
      ensures corrupted ==> HasGarbled(iter.entries)
    {
      ok := Parses(iter.entries[iter.pos]);
      if !ok {
        corrupted := true;
      }
    }

    /** Moves to the first row at or after the current entry whose key is above the key to
        skip, if there is one to skip. */
    method FindNextUserEntry(skipping: bool)
      requires iter.Ok() && iter.Valid() && direction == Forward
      requires corrupted ==> HasGarbled(iter.entries)
      requires skipping ==> savedKey.UserKeyOf?
      requires SkipsPassed(iter.entries, sequence, iter.pos, SkipKey(skipping, savedKey))
      requires NothingBelow(iter.entries, sequence, iter.pos, SkipKey(skipping, savedKey))
      modifies this, iter`pos
      ensures Ok() && direction == Forward
      ensures IsNextRow(iter.entries, sequence, old(iter.pos), SkipKey(skipping, old(savedKey)), valid, at)
      ensures corrupted <==> old(corrupted) || GarbledIn(iter.entries, old(iter.pos), if valid then at else |iter.entries|)
    {
      ghost var L, lo, skip0 := iter.entries, iter.pos, SkipKey(skipping, savedKey);
      var skip := skipping;
      while iter.Valid()
        invariant iter.Ok() && direction == Forward && lo <= iter.pos
        invariant corrupted ==> HasGarbled(L)
        invariant corrupted <==> old(corrupted) || GarbledIn(L, lo, iter.pos)
        invariant skip ==> savedKey.UserKeyOf?
        invariant Scanning(L, sequence, lo, iter.pos, SkipKey(skip, savedKey), skip0)
        decreases |L| - iter.pos
      {
        GarbledOn(L, lo, iter.pos);
        var found;
        found, skip := LookForward(skip, lo, skip0);
        if found {
          return;
        }
        iter.Next();
      }
      savedKey := Cleared;
      valid := false;
    }

    /** One turn of the loop: the entry is shown, or hides others, or is passed over. */
    method LookForward(skipping: bool, ghost lo: nat, ghost skip0: Option<UserKey>) returns (found: bool, skip: bool)
      requires iter.Ok() && iter.Valid() && lo <= iter.pos
      requires (corrupted ==> HasGarbled(iter.entries)) && (skipping ==> savedKey.UserKeyOf?)
      requires Scanning(iter.entries, sequence, lo, iter.pos, SkipKey(skipping, savedKey), skip0)
      modifies `corrupted, `valid, `at, `savedKey
      ensures corrupted == (old(corrupted) || !Parses(iter.entries[iter.pos])) && (corrupted ==> HasGarbled(iter.entries))
      ensures found ==> valid && at == iter.pos && Parses(iter.entries[at]) && IsNextRow(iter.entries, sequence, lo, skip0, true, at)
      ensures !found ==> (skip ==> savedKey.UserKeyOf?) && Scanning(iter.entries, sequence, lo, iter.pos + 1, SkipKey(skip, savedKey), skip0)
    {
      ghost var L := iter.entries;
      var p := iter.pos;
      found, skip := false, skipping;
      var parsed := ParseKey();
      if parsed && iter.entries[p].sequence <= sequence {
        if iter.entries[p].kind == DELETION {
          ScanDeletion(L, sequence, lo, p, SkipKey(skip, savedKey), skip0);
          savedKey := UserKeyOf(iter.entries[p].key);
          skip := true;
        } else if skip && iter.entries[p].key <= savedKey.key {
          ScanHidden(L, sequence, lo, p, SkipKey(skip, savedKey), skip0);
        } else {
          ScanFound(L, sequence, lo, p, SkipKey(skip, savedKey), skip0);
          found, valid := true, true;
          at := p;
          savedKey := Cleared;
        }
      } else {
        ScanInvisible(L, sequence, lo, p, SkipKey(skip, savedKey), skip0);
      }
    }

    method Next()
      requires Ok() && valid
      modifies this, iter`pos
      ensures Ok()
      ensures valid <==> old(Row()) + 1 < |Contents()|
      ensures valid ==> Row() == old(Row()) + 1
      ensures old(corrupted) || GarbledIn(iter.entries, old(at), if valid then at else |iter.entries|) ==> corrupted
    {
      ghost var L, row := iter.entries, at;
      if direction == Reverse {
        direction := Forward;
        ghost var spot := Spot(L, iter.pos);
        if !iter.Valid() {
          iter.SeekToFirst();
        } else {
          iter.Next();
        }
        assert iter.pos == spot + 1;
        ReadyToSkip(L, sequence, spot + 1, row);
        if !iter.Valid() {
          // The row itself lies ahead: the list cannot end here.
          assert false;
        }
      } else {
        savedKey := UserKeyOf(iter.entries[iter.pos].key);
        ReadyToSkip(L, sequence, at, at);
      }
      ghost var lo := iter.pos;
      FindNextUserEntry(true);
      RowAfter(L, sequence, lo, row, valid, at);
      GarbledSooner(L, lo, row, if valid then at else |L|);
    }

    method Remember(e: Entry)
      modifies `savedKey, `savedValue
      ensures e.kind == VALUE ==> savedKey == UserKeyOf(e.key) && savedValue == e.value
      ensures e.kind == DELETION ==> savedKey == Cleared && savedValue == ""
    {
      if e.kind == DELETION {
        savedKey := Cleared;
        savedValue := "";
      } else {
        savedKey := UserKeyOf(e.key);
        savedValue := e.value;
      }
    }

    /** Scanning backwards from the internal position, settles on the last row at or before
        it, leaving the position before all versions of that row's key. */
    method FindPrevUserEntry()
      requires iter.Ok() && direction == Reverse && (corrupted ==> HasGarbled(iter.entries))
      modifies this, iter`pos
      ensures Ok()
      ensures valid ==> at <= Spot(old(iter.entries), old(iter.pos))
      ensures forall k :: (if valid then at else -1) < k <= Spot(old(iter.entries), old(iter.pos)) ==>
                !Winner(iter.entries, sequence, k)
      ensures Start(Spot(iter.entries, iter.pos)) <= if valid then at else 0
      ensures corrupted <==> old(corrupted) || GarbledIn(iter.entries, Start(Spot(iter.entries, iter.pos)), Spot(iter.entries, old(iter.pos)) + 1)
    {
      ghost var L, hi := iter.entries, Spot(iter.entries, iter.pos);
      ghost var c := hi + 1;
      var valueType := DELETION;
      if iter.Valid() {
        while iter.Valid()
          invariant iter.Ok() && (corrupted ==> HasGarbled(L)) && Spot(L, iter.pos) <= hi
          invariant corrupted <==> old(corrupted) || GarbledIn(L, Spot(L, iter.pos) + 1, hi + 1)
          invariant direction == Reverse
          invariant BackScan(L, sequence, Spot(L, iter.pos), c, hi, valueType)
          invariant valueType == VALUE ==> savedKey == UserKeyOf(L[c].key) && savedValue == L[c].value
          decreases Spot(L, iter.pos)
        {
          GarbledBack(L, iter.pos, hi);
          var stop;
          stop, valueType, c := LookBack(c, hi, valueType);
          if stop {
            break;
          }
        }
      }
      EndBack(c, hi, valueType);
    }

    /** After the loop: the row is what was remembered last, or there is none. */
    method EndBack(ghost c: nat, ghost hi: int, valueType: TypeByte)
      requires iter.Ok() && direction == Reverse && (corrupted ==> HasGarbled(iter.entries))
      requires BackScan(iter.entries, sequence, Spot(iter.entries, iter.pos), c, hi, valueType)
      requires valueType == VALUE ==> savedKey == UserKeyOf(iter.entries[c].key) && savedValue == iter.entries[c].value
      requires iter.Valid() ==>
                 valueType == VALUE && Visible(iter.entries[iter.pos], sequence) && iter.entries[iter.pos].key < iter.entries[c].key
      modifies `valid, `at, `savedKey, `savedValue, `direction
      ensures Ok() && (valid ==> at <= hi) && Start(Spot(iter.entries, iter.pos)) <= if valid then at else 0
      ensures forall k :: (if valid then at else -1) < k <= hi ==> !Winner(iter.entries, sequence, k)
    {
      if valueType == DELETION {
        valid := false;
        savedKey := Cleared;
        savedValue := "";
        direction := Forward;
      } else {
        BackDone(iter.entries, sequence, Spot(iter.entries, iter.pos), c, hi);
        valid := true;
        at := c;
      }
    }

    /** One turn of the loop: the entry is of an earlier key, or is remembered, or is passed over. */
    method LookBack(ghost c: nat, ghost hi: int, valueType: TypeByte) returns (stop: bool, now: TypeByte, ghost d: nat)
      requires iter.Ok() && iter.Valid() && (corrupted ==> HasGarbled(iter.entries))
      requires BackScan(iter.entries, sequence, iter.pos, c, hi, valueType)
      requires valueType == VALUE ==> savedKey == UserKeyOf(iter.entries[c].key) && savedValue == iter.entries[c].value
      modifies `corrupted, `savedKey, `savedValue, iter`pos
      ensures corrupted == (old(corrupted) || !Parses(iter.entries[old(iter.pos)])) && (corrupted ==> HasGarbled(iter.entries))
      ensures iter.Ok() && Spot(iter.entries, iter.pos) == if stop then old(iter.pos) else old(iter.pos) - 1
      ensures BackScan(iter.entries, sequence, Spot(iter.entries, iter.pos), d, hi, now)
      ensures now == VALUE && d < |iter.entries| ==> savedKey == UserKeyOf(iter.entries[d].key) && savedValue == iter.entries[d].value
      ensures stop ==> iter.Valid() && now == VALUE && Visible(iter.entries[iter.pos], sequence) && iter.entries[iter.pos].key < iter.entries[d].key
    {
      ghost var L := iter.entries;
      var p := iter.pos;
      stop, now, d := false, valueType, c;
      var parsed := ParseKey();
      if parsed && iter.entries[p].sequence <= sequence {
        if valueType == VALUE && iter.entries[p].key < savedKey.key {
          stop := true;
        } else {
          BackStep(L, sequence, p, c, hi, valueType);
          now, d := iter.entries[p].kind, p;
          Remember(iter.entries[p]);
        }
      } else {
        BackSkip(L, sequence, p, c, hi, valueType);
      }
      if !stop {
        iter.Prev();
      }
    }

    method Prev()
      requires Ok() && valid
      modifies this, iter`pos
      ensures Ok()
      ensures valid <==> old(Row()) > 0
      ensures valid ==> Row() == old(Row()) - 1
      ensures old(corrupted) ==> corrupted
      ensures old(direction) == Reverse && GarbledIn(iter.entries, if valid then at else 0, Spot(iter.entries, old(iter.pos)) + 1) ==> corrupted
      ensures old(direction) == Forward ==>
                exists hi :: SameKeyAfter(iter.entries, hi, old(at)) && (GarbledIn(iter.entries, if valid then at else 0, hi + 1) ==> corrupted)
    {
      ghost var L, row := iter.entries, at;
      if direction == Forward {
        BackOff();
        if !iter.Valid() {
          valid := false;
          savedKey := Cleared;
          savedValue := "";
          RowBefore(L, sequence, -1, row, false, 0);
          return;
        }
        direction := Reverse;
      }
      ghost var hi := Spot(L, iter.pos);
      FindPrevUserEntry();
      RowBefore(L, sequence, hi, row, valid, at);
      GarbledSooner(L, Start(Spot(L, iter.pos)), if valid then at else 0, hi + 1);
    }

    /** Moves before all versions of the current row's key. */
    method BackOff()
      requires Ok() && valid && direction == Forward
      modifies `savedKey, iter`pos
      ensures iter.Ok() && savedKey == UserKeyOf(iter.entries[at].key)
      ensures BeforeRow(iter.entries, sequence, Spot(iter.entries, iter.pos), at)
      ensures SameKeyAfter(iter.entries, Spot(iter.entries, iter.pos), at)
    {
      ghost var L := iter.entries;
      savedKey := UserKeyOf(iter.entries[iter.pos].key);
      while true
        invariant iter.Ok() && 0 <= iter.pos <= at
        invariant savedKey == UserKeyOf(L[at].key)
        invariant forall k :: iter.pos <= k <= at ==> L[k].key == L[at].key
        decreases iter.pos
      {
        iter.Prev();
        if !iter.Valid() {
          return;
        }
        if iter.entries[iter.pos].key < savedKey.key {
          break;
        }
        assert Before(L[iter.pos], L[iter.pos + 1]);
      }
    }

    /** Lands on the first row with a key at or above the target. */
    method Seek(target: UserKey)
      requires Ok()
      modifies this, iter`pos
      ensures Ok()
      ensures valid ==> Row() < |Contents()| && Contents()[Row()].0 >= target
      ensures forall r :: 0 <= r < (if valid then Row() else |Contents()|) ==> Contents()[r].0 < target
      ensures old(corrupted) ==> corrupted
      ensures forall k :: 0 <= k < (if valid then at else |iter.entries|) && !Parses(iter.entries[k]) && iter.entries[k].key > target ==> corrupted
    {
      direction := Forward;
      savedValue := "";
      savedKey := SeekTarget(target, sequence);
      iter.Seek(target, sequence);
      SeekSkips(iter.entries, sequence, target, iter.pos);
      ghost var lo := iter.pos;
      if iter.Valid() {
        FindNextUserEntry(false);
      } else {
        valid := false;
      }
      RowSought(iter.entries, sequence, target, lo, valid, at);
    }

    method SeekToFirst()
      requires Ok()
      modifies this, iter`pos
      ensures Ok()
      ensures valid <==> Contents() != []
      ensures valid ==> Row() == 0
      ensures corrupted <==> old(corrupted) || GarbledIn(iter.entries, 0, if valid then at else |iter.entries|)
    {
      direction := Forward;
      savedValue := "";
      iter.SeekToFirst();
      if iter.Valid() {
        FindNextUserEntry(false);
      } else {
        valid := false;
      }
      if valid {
        NoWinnersBetween(iter.entries, sequence, 0, at);
        RowOfWinner(iter.entries, sequence, at);
      } else {
        NoWinnersBetween(iter.entries, sequence, 0, |iter.entries|);
      }
    }

    method SeekToLast()
      requires Ok()
      modifies this, iter`pos
      ensures Ok()
      ensures valid <==> Contents() != []
      ensures valid ==> Row() == |Contents()| - 1
      ensures old(corrupted) || GarbledIn(iter.entries, if valid then at else 0, |iter.entries|) ==> corrupted
    {
      direction := Reverse;
      savedValue := "";
      iter.SeekToLast();
      FindPrevUserEntry();
      if valid {
        NextWinner(iter.entries, sequence, at, |iter.entries|);
      } else {
        NoWinnersBetween(iter.entries, sequence, 0, |iter.entries|);
      }
    }
  }

  // ---------- Keys that do not parse ----------

  ghost predicate GarbledIn(L: seq<Entry>, lo: int, hi: int) {
    exists k :: lo <= k < hi && 0 <= k < |L| && !Parses(L[k])
  }

  /** All between spot p and the row are versions of its key. */
  ghost predicate SameKeyAfter(L: seq<Entry>, p: int, row: nat)
    requires row < |L|
  {
    -1 <= p < row && forall k :: p < k <= row ==> L[k].key == L[row].key
  }

  /** The first entry that a backward scan looks at that ends before spot p, or off the list. */
  ghost function Start(p: int): int {
    if p < 0 then 0 else p
  }

  lemma GarbledOn(L: seq<Entry>, lo: nat, p: nat)
    requires lo <= p < |L|
    ensures GarbledIn(L, lo, p + 1) <==> GarbledIn(L, lo, p) || !Parses(L[p])
  {
  }

  lemma GarbledBack(L: seq<Entry>, p: nat, hi: int)
    requires p < |L| && p <= hi
    ensures GarbledIn(L, p, hi + 1) <==> GarbledIn(L, p + 1, hi + 1) || !Parses(L[p])
  {
  }

  lemma GarbledSooner(L: seq<Entry>, lo: int, start: int, hi: int)
    requires lo <= start
    ensures GarbledIn(L, start, hi) ==> GarbledIn(L, lo, hi)
  {
  }

  // ---------- Writers that run beside the cursor ----------

  ghost function Inserted(L: seq<Entry>, p: nat, e: Entry): seq<Entry>
    requires p <= |L|
  {
    L[..p] + [e] + L[p..]
  }

  lemma {:induction false} InsertedRows(L: seq<Entry>, s: nat, p: nat, e: Entry, n: nat)
    requires p <= n <= |L| && !Visible(e, s)
    ensures Rows(Inserted(L, p, e), s, n + 1) == Rows(L, s, n)
  {
    var M := Inserted(L, p, e);
    if n == p {
      RowsOfPrefix(L, M, s, p);
    } else {
      InsertedRows(L, s, p, e, n - 1);
      InsertedWinner(L, s, p, e, n - 1);
    }
  }

  function Shift(p: nat, i: nat): nat {
    if i < p then i else i + 1
  }

  lemma InsertedAt(L: seq<Entry>, p: nat, e: Entry, M: seq<Entry>)
    requires p <= |L| && M == Inserted(L, p, e)
    ensures |M| == |L| + 1 && M[p] == e
    ensures forall k :: 0 <= k < p ==> M[k] == L[k]
    ensures forall k :: p < k < |M| ==> M[k] == L[k - 1]
  {
  }

  lemma InsertedWinner(L: seq<Entry>, s: nat, p: nat, e: Entry, i: nat)
    requires p <= |L| && i < |L| && !Visible(e, s)
    ensures Winner(L, s, i) <==> Winner(Inserted(L, p, e), s, Shift(p, i))
  {
    var M := Inserted(L, p, e);
    InsertedAt(L, p, e, M);
    assert M[Shift(p, i)] == L[i];
    if Winner(M, s, Shift(p, i)) {
      forall j | 0 <= j < i ensures !(L[j].key == L[i].key && Visible(L[j], s)) {
        assert M[Shift(p, j)] == L[j] && Shift(p, j) < Shift(p, i);
      }
    }
  }

  lemma InsertedOnRow(L: seq<Entry>, s: nat, p: nat, e: Entry, pos: nat, direction: Direction, key: SavedKey, value: Value, at: nat)
    requires p <= |L| && !Visible(e, s) && OnRow(L, s, pos, direction, key, value, at)
    ensures OnRow(Inserted(L, p, e), s, if pos < |L| then Shift(p, pos) else |L| + 1, direction, key, value, Shift(p, at))
    ensures Rank(Inserted(L, p, e), s, Shift(p, at)) == Rank(L, s, at)
  {
    var M := Inserted(L, p, e);
    InsertedAt(L, p, e, M);
    assert M[Shift(p, at)] == L[at];
    assert pos < |L| ==> M[Shift(p, pos)] == L[pos];
    InsertedWinner(L, s, p, e, at);
    if at < p {
      RowsOfPrefix(L, M, s, at);
    } else {
      InsertedRows(L, s, p, e, at);
    }
  }

  lemma {:induction false} RowsOfPrefix(L: seq<Entry>, M: seq<Entry>, s: nat, n: nat)
    requires n <= |L| && n <= |M| && L[..n] == M[..n]
    ensures Rows(L, s, n) == Rows(M, s, n)
  {
    if n > 0 {
      assert L[..n - 1] == L[..n][..n - 1] && M[..n - 1] == M[..n][..n - 1];
      RowsOfPrefix(L, M, s, n - 1);
      assert forall i :: 0 <= i < n ==> L[i] == L[..n][i] && M[i] == M[..n][i];
    }
  }

  /** A writer adds an entry that is newer than the cursor's snapshot: whatever the
      direction, the cursor still stands on the same row of the same table. */
  method WriterInserts(c: DBIter, p: nat, e: Entry)
    requires c.Ok() && p <= |c.iter.entries| && e.sequence > c.sequence
    requires Sorted(Inserted(c.iter.entries, p, e))
    modifies c, c.iter
    ensures c.Ok() && c.valid == old(c.valid) && c.Contents() == old(c.Contents())
    ensures c.valid ==> c.Row() == old(c.Row())
  {
    ghost var L, s, row := c.iter.entries, c.sequence, c.at;
    InsertedRows(L, s, p, e, |L|);
    if c.valid {
      InsertedOnRow(L, s, p, e, c.iter.pos, c.direction, c.savedKey, c.savedValue, row);
    }
    c.iter.pos := if !c.iter.Valid() then |c.iter.entries| + 1 else Shift(p, c.iter.pos);
    c.iter.entries := c.iter.entries[..p] + [e] + c.iter.entries[p..];
    c.at := Shift(p, row);
    assert c.iter.entries == Inserted(L, p, e);
    GarbledStays(L, p, e);
  }

  lemma GarbledStays(L: seq<Entry>, p: nat, e: Entry)
    requires p <= |L|
    ensures HasGarbled(L) ==> HasGarbled(Inserted(L, p, e))
  {
    if i :| 0 <= i < |L| && !Parses(L[i]) {
      assert Inserted(L, p, e)[Shift(p, i)] == L[i];
    }
  }

  /** Where an internal position stands: off either end of the list is before its start. */
  ghost function Spot(L: seq<Entry>, pos: nat): int {
    if pos < |L| then pos else -1
  }

  /** Spot p lies before every version of the row at, with no visible version of a smaller
      key left between them. */
  ghost predicate BeforeRow(L: seq<Entry>, s: nat, p: int, at: nat)
    requires at < |L|
  {
    && -1 <= p < at && (p >= 0 ==> L[p].key < L[at].key)
    && forall k :: p < k < at && Visible(L[k], s) ==> L[k].key == L[at].key
  }

  ghost function SkipKey(skipping: bool, saved: SavedKey): Option<UserKey> {
    if skipping && saved.UserKeyOf? then Some(saved.key) else None
  }

  ghost predicate Skips(skip: Option<UserKey>, u: UserKey) {
    skip.Some? && u <= skip.value
  }

  /** Versions below one that was already visible for the same key are skipped. */
  ghost predicate SkipsPassed(L: seq<Entry>, s: nat, p: nat, skip: Option<UserKey>)
    requires p <= |L|
  {
    forall k, j :: 0 <= k < p <= j < |L| && Visible(L[k], s) && L[j].key == L[k].key ==> Skips(skip, L[j].key)
  }

  /** No visible version of a smaller key is left to pass; the deletion marker of one
      would lower the skip key. */
  ghost predicate NothingBelow(L: seq<Entry>, s: nat, p: nat, skip: Option<UserKey>)
    requires p <= |L|
  {
    forall j :: p <= j < |L| && Visible(L[j], s) && skip.Some? ==> skip.value <= L[j].key
  }

  /** Nothing else is skipped, except what the caller asked for. */
  ghost predicate SkipsOnlyHidden(L: seq<Entry>, s: nat, p: nat, skip: Option<UserKey>, skip0: Option<UserKey>)
    requires p <= |L|
  {
    forall j :: p <= j < |L| && Skips(skip, L[j].key) ==>
      Skips(skip0, L[j].key) || exists k :: 0 <= k < p && Visible(L[k], s) && L[k].key == L[j].key
  }

  ghost predicate NoRowIn(L: seq<Entry>, s: nat, lo: nat, hi: nat, skip: Option<UserKey>)
    requires hi <= |L|
  {
    forall k :: lo <= k < hi && !Skips(skip, L[k].key) ==> !Winner(L, s, k)
  }

  /** The state of a forward scan that has passed the entries lo..p. */
  ghost predicate Scanning(L: seq<Entry>, s: nat, lo: nat, p: nat, skip: Option<UserKey>, skip0: Option<UserKey>)
    requires p <= |L|
  {
    && (skip0.Some? ==> skip.Some? && skip.value >= skip0.value)
    && lo <= p && NothingBelow(L, s, lo, skip0)
    && SkipsPassed(L, s, p, skip)
    && SkipsOnlyHidden(L, s, p, skip, skip0)
    && NoRowIn(L, s, lo, p, skip0)
  }

  lemma ScanInvisible(L: seq<Entry>, s: nat, lo: nat, p: nat, skip: Option<UserKey>, skip0: Option<UserKey>)
    requires p < |L| && lo <= |L| && Scanning(L, s, lo, p, skip, skip0) && !Visible(L[p], s)
    ensures Scanning(L, s, lo, p + 1, skip, skip0)
  {
  }

  lemma ScanDeletion(L: seq<Entry>, s: nat, lo: nat, p: nat, skip: Option<UserKey>, skip0: Option<UserKey>)
    requires Sorted(L) && p < |L| && lo <= |L| && Scanning(L, s, lo, p, skip, skip0)
    requires Visible(L[p], s) && L[p].kind == DELETION
    ensures Scanning(L, s, lo, p + 1, Some(L[p].key), skip0)
  {
  }

  lemma ScanHidden(L: seq<Entry>, s: nat, lo: nat, p: nat, skip: Option<UserKey>, skip0: Option<UserKey>)
    requires p < |L| && lo <= |L| && Scanning(L, s, lo, p, skip, skip0)
    requires Visible(L[p], s) && Skips(skip, L[p].key)
    ensures Scanning(L, s, lo, p + 1, skip, skip0)
  {
  }

  lemma ScanFound(L: seq<Entry>, s: nat, lo: nat, p: nat, skip: Option<UserKey>, skip0: Option<UserKey>)
    requires p < |L| && lo <= |L| && Scanning(L, s, lo, p, skip, skip0)
    requires Visible(L[p], s) && L[p].kind == VALUE && !Skips(skip, L[p].key)
    ensures IsNextRow(L, s, lo, skip0, true, p)
  {
  }

  /** The first row from entry lo on, past the skipped keys. */
  ghost predicate IsNextRow(L: seq<Entry>, s: nat, lo: nat, skip: Option<UserKey>, found: bool, at: nat) {
    if found
    then lo <= at && Winner(L, s, at) && !Skips(skip, L[at].key) && NoRowIn(L, s, lo, at, skip)
    else NoRowIn(L, s, lo, |L|, skip)
  }

  /** From just before a row, or on it, the forward scan may start with its key to skip. */
  lemma ReadyToSkip(L: seq<Entry>, s: nat, lo: nat, row: nat)
    requires Sorted(L) && row < |L| && lo <= row && (lo == row || BeforeRow(L, s, lo - 1, row))
    ensures SkipsPassed(L, s, lo, Some(L[row].key))
    ensures NothingBelow(L, s, lo, Some(L[row].key))
  {
  }

  lemma RowAfter(L: seq<Entry>, s: nat, lo: nat, row: nat, found: bool, at: nat)
    requires Sorted(L) && Winner(L, s, row) && lo <= row && IsNextRow(L, s, lo, Some(L[row].key), found, at)
    ensures found <==> Rank(L, s, row) + 1 < |Table(L, s)|
    ensures found ==> Rank(L, s, at) == Rank(L, s, row) + 1
  {
    var end := if found then at else |L|;
    forall k | row < k < end ensures !Winner(L, s, k) {
      assert Before(L[row], L[k]);
    }
    if found {
      assert at < row ==> Before(L[at], L[row]);
      RowOfWinner(L, s, at);
    }
    NextWinner(L, s, row, end);
  }

  lemma RowBefore(L: seq<Entry>, s: nat, hi: int, row: nat, found: bool, at: nat)
    requires Sorted(L) && Winner(L, s, row) && BeforeRow(L, s, hi, row)
    requires found ==> at <= hi && Winner(L, s, at)
    requires forall k :: (if found then at else -1) < k <= hi ==> !Winner(L, s, k)
    ensures found <==> Rank(L, s, row) > 0
    ensures found ==> Rank(L, s, at) == Rank(L, s, row) - 1
  {
    if found {
      NextWinner(L, s, at, row);
    } else {
      NoWinnersBetween(L, s, 0, row);
    }
  }

  /** No visible version of the target's key or a later one is passed by the seek. */
  lemma SeekSkips(L: seq<Entry>, s: nat, target: UserKey, p: nat)
    requires Sorted(L) && p <= |L|
    requires forall i :: 0 <= i < p ==> Before(L[i], Entry(target, s, VALUE, ""))
    requires p < |L| ==> !Before(L[p], Entry(target, s, VALUE, ""))
    ensures SkipsPassed(L, s, p, None) && NothingBelow(L, s, p, None)
    ensures forall k :: 0 <= k < p && Visible(L[k], s) ==> L[k].key < target
    ensures forall k :: p <= k < |L| ==> L[k].key >= target
  {
  }

  lemma RowSought(L: seq<Entry>, s: nat, target: UserKey, lo: nat, found: bool, at: nat)
    requires lo <= |L| && IsNextRow(L, s, lo, None, found, at)
    requires forall k :: 0 <= k < lo && Visible(L[k], s) ==> L[k].key < target
    requires forall k :: lo <= k < |L| ==> L[k].key >= target
    ensures forall r :: 0 <= r < (if found then Rank(L, s, at) else |Table(L, s)|) && r < |Table(L, s)| ==> Table(L, s)[r].0 < target
    ensures found ==> Rank(L, s, at) < |Table(L, s)| && Table(L, s)[Rank(L, s, at)].0 >= target
  {
    var end := if found then at else |L|;
    NoWinnersBetween(L, s, lo, end);
    RowsPrefix(L, s, lo, |L|);
    if found {
      RowOfWinner(L, s, at);
    }
    forall r | 0 <= r < |Rows(L, s, lo)| ensures Table(L, s)[r].0 < target {
      var i := RowSource(L, s, lo, r);
    }
  }

  /** A backward scan has seen the entries above p up to hi; c is the last visible one it
      met, and t its type. */
  ghost predicate BackScan(L: seq<Entry>, s: nat, p: int, c: int, hi: int, t: TypeByte) {
    && -1 <= p < c <= hi + 1 <= |L|
    && (forall k :: p < k <= hi && k < c ==> !Visible(L[k], s))
    && (c <= hi ==> Visible(L[c], s) && L[c].kind == t)
    && (c == hi + 1 ==> t == DELETION)
    && (forall k :: c < k <= hi ==> !Winner(L, s, k))
  }

  lemma BackStep(L: seq<Entry>, s: nat, p: nat, c: int, hi: int, t: TypeByte)
    requires Sorted(L) && BackScan(L, s, p, c, hi, t) && Visible(L[p], s)
    requires t == VALUE ==> L[p].key >= L[c].key
    ensures BackScan(L, s, p - 1, p, hi, L[p].kind)
  {
  }

  lemma BackSkip(L: seq<Entry>, s: nat, p: nat, c: int, hi: int, t: TypeByte)
    requires BackScan(L, s, p, c, hi, t) && !Visible(L[p], s)
    ensures BackScan(L, s, p - 1, c, hi, t)
  {
  }

  lemma BackDone(L: seq<Entry>, s: nat, p: int, c: int, hi: int)
    requires Sorted(L) && BackScan(L, s, p, c, hi, VALUE)
    requires p >= 0 ==> Visible(L[p], s) && L[p].key < L[c].key
    ensures Winner(L, s, c) && BeforeRow(L, s, p, c)
    ensures forall k :: c < k <= hi ==> !Winner(L, s, k)
  {
  }
}

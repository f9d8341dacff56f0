/** DBImpl::DoCompactionWork and the objects it updates. I/O results, the shutdown flag,
    ShouldStopBefore and the size of a growing table are arbitrary here: what is proved
    holds for every outcome of them. */
module CompactionWork {
  import opened Entries
  import opened Options
  import opened CompactionRules

  /** Compaction of db/version_set.h: only what answers IsBaseLevelForKey. */
  class Compaction {
    const level: nat
    const files: seq<seq<FileRange>>
    const levelPtrs: array<nat>

    ghost predicate Valid()
      reads levelPtrs
    {
      && |files| == NUM_LEVELS == levelPtrs.Length
      && forall lvl :: 0 <= lvl < NUM_LEVELS ==> levelPtrs[lvl] <= |files[lvl]| && (lvl > 0 ==> SortedFiles(files[lvl]))
    }

    /** Every file the pointers have left behind ends before u. */
    ghost predicate ReadyFor(u: UserKey)
      requires Valid()
      reads levelPtrs
    {
      forall lvl, i :: level + 2 <= lvl < NUM_LEVELS && 0 <= i < levelPtrs[lvl] ==> files[lvl][i].largest < u
    }

    constructor (level: nat, files: seq<seq<FileRange>>)
      requires |files| == NUM_LEVELS && forall lvl :: 0 < lvl < NUM_LEVELS ==> SortedFiles(files[lvl])
      ensures Valid() && this.level == level && this.files == files && fresh(levelPtrs)
      ensures forall u :: ReadyFor(u)
    {
      this.level, this.files := level, files;
      levelPtrs := new nat[NUM_LEVELS](_ => 0);
    }

    /** The pointers only move forward, yet queries in key order are answered exactly. */
    method IsBaseLevelForKey(userKey: UserKey) returns (base: bool)
      requires Valid() && ReadyFor(userKey)
      modifies levelPtrs
      ensures Valid() && ReadyFor(userKey)
      ensures base <==> IsBase(files, level, userKey)
    {
      var lvl := level + 2;
      while lvl < NUM_LEVELS
        invariant Valid() && ReadyFor(userKey) && level + 2 <= lvl
        invariant forall l, i :: level + 2 <= l < lvl && l < NUM_LEVELS && 0 <= i < |files[l]| ==>
                    !Spans(files[l][i], userKey)
      {
        while levelPtrs[lvl] < |files[lvl]|
          invariant Valid() && ReadyFor(userKey)
          invariant forall i :: 0 <= i < levelPtrs[lvl] ==> !Spans(files[lvl][i], userKey)
          decreases |files[lvl]| - levelPtrs[lvl]
        {
          var f := files[lvl][levelPtrs[lvl]];
          if userKey <= f.largest {
            if userKey >= f.smallest {
              return false;
            }
            break;
          }
          levelPtrs[lvl] := levelPtrs[lvl] + 1;
        }
        lvl := lvl + 1;
      }
      return true;
    }
  }

  /** An encoded internal key. */
  datatype InternalKey = InternalKey(key: UserKey, sequence: nat, kind: TypeByte)

  function KeyOf(e: Entry): InternalKey {
    InternalKey(e.key, e.sequence, e.kind)
  }

  /** One output table; entries are what its file holds once the builder has finished. */
  datatype Output = Output(number: nat, entries: seq<Entry>, smallest: Option<InternalKey>, largest: Option<InternalKey>)

  /** A table is never empty and is registered under exactly its first and last key. */
  ghost predicate Registered(o: Output, contents: seq<Entry>) {
    && |contents| > 0
    && o.smallest == Some(KeyOf(contents[0]))
    && o.largest == Some(KeyOf(contents[|contents| - 1]))
  }

  ghost predicate Finished(outputs: seq<Output>) {
    forall i :: 0 <= i < |outputs| ==> Registered(outputs[i], outputs[i].entries)
  }

  /** The entries of the tables, one table after the other. */
  ghost function Concat(outputs: seq<Output>): seq<Entry> {
    if outputs == [] then [] else Concat(outputs[..|outputs| - 1]) + outputs[|outputs| - 1].entries
  }

  ghost function Numbers(outputs: seq<Output>): seq<nat> {
    if outputs == [] then [] else Numbers(outputs[..|outputs| - 1]) + [outputs[|outputs| - 1].number]
  }

  lemma ConcatLast(outputs: seq<Output>, o: Output)
    ensures Concat(outputs + [o]) == Concat(outputs) + o.entries && Numbers(outputs + [o]) == Numbers(outputs) + [o.number]
  {
  }

  /** No two tables share a number, none has one that was in use before, and every table is protected from
      garbage collection. */
  ghost predicate Numbered(numbers: seq<nat>, first: nat, next: nat, pending: set<nat>) {
    && first <= next && (forall n :: n in pending ==> n < next)
    && (forall i :: 0 <= i < |numbers| ==> first <= numbers[i] && numbers[i] in pending)
    && (forall i, j :: 0 <= i < j < |numbers| ==> numbers[i] < numbers[j])
  }

  lemma NextNumber(numbers: seq<nat>, first: nat, next: nat, pending: set<nat>)
    requires Numbered(numbers, first, next, pending)
    ensures next !in pending && Numbered(numbers + [next], first, next + 1, pending + {next})
  {
  }

  lemma TableDone(outputs: seq<Output>, contents: seq<Entry>)
    requires outputs != [] && Finished(outputs[..|outputs| - 1])
    requires outputs[|outputs| - 1].entries == [] && Registered(outputs[|outputs| - 1], contents)
    ensures var after := outputs[..|outputs| - 1] + [outputs[|outputs| - 1].(entries := contents)];
      Finished(after) && Concat(after) == Concat(outputs) + contents && Numbers(after) == Numbers(outputs)
  {
    var rest, last := outputs[..|outputs| - 1], outputs[|outputs| - 1];
    ConcatLast(rest, last);
    ConcatLast(rest, last.(entries := contents));
    assert outputs == rest + [last];
  }

  class CompactionState {
    const smallestSnapshot: nat
    /** Whether an I/O error or a shutdown may occur. */
    const faulty: bool
    var outputs: seq<Output>
    var builder: Option<seq<Entry>>
    /** The first number that this compaction may use. */
    ghost const firstNumber: nat
    var nextFileNumber: nat
    var pendingOutputs: set<nat>

    constructor (smallestSnapshot: nat, faulty: bool, nextFileNumber: nat, pendingOutputs: set<nat>)
      requires forall n :: n in pendingOutputs ==> n < nextFileNumber
      ensures this.smallestSnapshot == smallestSnapshot && this.faulty == faulty && this.nextFileNumber == nextFileNumber == firstNumber
      ensures this.pendingOutputs == pendingOutputs && outputs == [] && builder == None && Valid()
    {
      this.smallestSnapshot, this.faulty, this.nextFileNumber, firstNumber := smallestSnapshot, faulty, nextFileNumber, nextFileNumber;
      this.pendingOutputs, outputs, builder := pendingOutputs, [], None;
    }

    /** What has been given to the tables so far. */
    ghost function Written(): seq<Entry>
      reads this
    {
      Concat(outputs) + if builder.Some? then builder.value else []
    }

    /** Every table but the one being built is complete. */
    ghost predicate Valid()
      reads this
    {
      && Numbered(Numbers(outputs), firstNumber, nextFileNumber, pendingOutputs)
      && match builder
         case None => Finished(outputs)
         case Some(b) => |outputs| > 0 && Finished(outputs[..|outputs| - 1])
                         && outputs[|outputs| - 1].entries == [] && Registered(outputs[|outputs| - 1], b)
    }

    /** How an operation that may fail turns out. */
    method Outcome() returns (ok: bool)
      ensures ok || faulty
    {
      ok := *;
      ok := ok || !faulty;
    }

    method OpenCompactionOutputFile() returns (ok: bool)
      requires Valid() && builder == None
      modifies this
      ensures outputs == old(outputs) + [Output(old(nextFileNumber), [], None, None)]
      ensures nextFileNumber == old(nextFileNumber) + 1 && old(nextFileNumber) !in old(pendingOutputs)
      ensures Numbered(Numbers(outputs), firstNumber, nextFileNumber, pendingOutputs)
      ensures pendingOutputs == old(pendingOutputs) + {old(nextFileNumber)}
      ensures builder == if ok then Some([]) else None
      ensures ok || faulty
    {
      var fileNumber := nextFileNumber;
      NextNumber(Numbers(outputs), firstNumber, nextFileNumber, pendingOutputs);
      ConcatLast(outputs, Output(fileNumber, [], None, None));
      nextFileNumber := nextFileNumber + 1;
      pendingOutputs := pendingOutputs + {fileNumber};
      outputs := outputs + [Output(fileNumber, [], None, None)];
      ok := Outcome();
      if ok {
        builder := Some([]);
      }
    }

    method FinishCompactionOutputFile() returns (ok: bool)
      requires Valid() && builder.Some?
      modifies this
      ensures builder == None && nextFileNumber == old(nextFileNumber) && pendingOutputs == old(pendingOutputs)
      ensures ok ==> Valid() && Written() == old(Written())
      ensures ok || faulty
    {
      var last := |outputs| - 1;
      ok := Outcome();
      if ok {
        TableDone(outputs, builder.value);
        outputs := outputs[..last] + [outputs[last].(entries := builder.value)];
        builder := None;
      } else {
        builder := None;
      }
    }

    /** Closes the table being built, if there is one and it is time to. */
    method CloseIf(due: bool) returns (ok: bool)
      requires Valid()
      modifies this
      ensures ok ==> Valid() && Written() == old(Written())
      ensures ok && due ==> builder == None
      ensures ok || faulty
    {
      ok := true;
      if due && builder.Some? {
        ok := FinishCompactionOutputFile();
      }
    }

    /** Adds one entry to the table being built, as the loop does with a kept entry. */
    method AddEntry(e: Entry)
      requires builder.Some? && |outputs| > 0
      requires builder != Some([]) ==> Valid()
      requires builder == Some([]) ==>
                 && Finished(outputs[..|outputs| - 1]) && outputs[|outputs| - 1].entries == []
                 && Numbered(Numbers(outputs), firstNumber, nextFileNumber, pendingOutputs)
      modifies `outputs, `builder
      ensures Valid() && builder == Some(old(builder).value + [e]) && Written() == old(Written()) + [e]
    {
      var last := |outputs| - 1;
      var current := outputs[last];
      if builder.value == [] {
        current := current.(smallest := Some(KeyOf(e)));
      }
      current := current.(largest := Some(KeyOf(e)));
      ConcatLast(outputs[..last], outputs[last]);
      ConcatLast(outputs[..last], current);
      assert outputs == outputs[..last] + [outputs[last]];
      outputs := outputs[..last] + [current];
      builder := Some(builder.value + [e]);
    }

    /** Gives one kept entry to the tables, opening and closing them as needed. */
    method Emit(e: Entry) returns (ok: bool)
      requires Valid()
      modifies this
      ensures ok ==> Valid() && Written() == old(Written()) + [e]
      ensures ok || faulty
    {
      if builder == None {
        ok := OpenCompactionOutputFile();
        if !ok {
          return;
        }
        ConcatLast(old(outputs), outputs[|outputs| - 1]);
      }
      AddEntry(e);
      var full: bool := *;
      ok := CloseIf(full);
    }

    /** The drop rules, applied to one entry after another. */
    method DecideDrop(c: Compaction, ghost input: seq<Entry>, ghost i: nat, e: Entry,
                      last: Option<UserKey>, lastSequence: nat)
      returns (drop: bool, currentUserKey: Option<UserKey>, lastSequenceForKey: nat)
      requires c.Valid() && c.ReadyFor(e.key) && smallestSnapshot < MAX_SEQUENCE
      requires i < |input| && input[i] == e && Tracks(input, i, last, lastSequence)
      modifies c.levelPtrs
      ensures c.Valid() && c.ReadyFor(e.key)
      ensures drop <==> Dropped(input, i, Rule(c.files, c.level, smallestSnapshot))
      ensures Tracks(input, i + 1, currentUserKey, lastSequenceForKey)
    {
      drop, currentUserKey, lastSequenceForKey := false, last, lastSequence;
      if !Parses(e) {
        // A key that does not parse hides nothing after it.
        currentUserKey := None;
        lastSequenceForKey := MAX_SEQUENCE;
      } else {
        if currentUserKey != Some(e.key) {
          currentUserKey := Some(e.key);
          lastSequenceForKey := MAX_SEQUENCE;
        }
        if lastSequenceForKey <= smallestSnapshot {
          drop := true;
        } else if e.kind == DELETION && e.sequence <= smallestSnapshot {
          drop := c.IsBaseLevelForKey(e.key);
        }
        lastSequenceForKey := e.sequence;
      }
    }

    /** One turn of the loop: the entry is dropped, or given to the tables. */
    method CompactEntry(c: Compaction, input: seq<Entry>, i: nat, last: Option<UserKey>, lastSequence: nat)
      returns (ok: bool, currentUserKey: Option<UserKey>, lastSequenceForKey: nat)
      requires Sorted(input) && i < |input| && Valid() && c.Valid() && c.ReadyFor(input[i].key) && smallestSnapshot < MAX_SEQUENCE
      requires Tracks(input, i, last, lastSequence) && Written() == Kept(input, i, Rule(c.files, c.level, smallestSnapshot))
      modifies this, c.levelPtrs
      ensures ok || faulty
      ensures ok ==> Tracks(input, i + 1, currentUserKey, lastSequenceForKey) && c.Valid()
      ensures ok ==> Valid() && Written() == Kept(input, i + 1, Rule(c.files, c.level, smallestSnapshot))
      ensures ok && i + 1 < |input| ==> c.ReadyFor(input[i + 1].key)
    {
      currentUserKey, lastSequenceForKey := last, lastSequence;
      var stopBefore: bool := *;
      ok := CloseIf(stopBefore);
      if !ok {
        return;
      }
      var drop;
      drop, currentUserKey, lastSequenceForKey := DecideDrop(c, input, i, input[i], last, lastSequence);
      if !drop {
        ok := Emit(input[i]);
      }
      assert i + 1 < |input| ==> Before(input[i], input[i + 1]);
    }

    /** On success the output tables have new numbers, are complete, non-empty and exactly bounded, and
        together hold exactly the entries the rules keep, in the order of the input. */
    method DoCompactionWork(c: Compaction, input: seq<Entry>) returns (ok: bool)
      requires Sorted(input) && smallestSnapshot < MAX_SEQUENCE
      requires outputs == [] && builder == None && Valid()
      requires c.Valid() && forall u :: c.ReadyFor(u)
      modifies this, c.levelPtrs
      ensures ok ==> builder == None && Valid()
      ensures ok ==> Concat(outputs) == Kept(input, |input|, Rule(c.files, c.level, smallestSnapshot))
      ensures ok || faulty
    {
      ghost var rule := Rule(c.files, c.level, smallestSnapshot);
      ok := true;
      var currentUserKey: Option<UserKey> := None;
      var lastSequenceForKey: nat := MAX_SEQUENCE;
      var i := 0;
      var running := Outcome();
      while i < |input| && running
        invariant 0 <= i <= |input|
        invariant ok && Valid() && c.Valid()
        invariant running || faulty
        invariant i < |input| ==> c.ReadyFor(input[i].key)
        invariant Tracks(input, i, currentUserKey, lastSequenceForKey)
        invariant Written() == Kept(input, i, rule)
        decreases |input| - i
      {
        ok, currentUserKey, lastSequenceForKey := CompactEntry(c, input, i, currentUserKey, lastSequenceForKey);
        if !ok {
          break;
        }
        i := i + 1;
        running := Outcome();
      }

      if ok && !running {
        ok := false;
      }
      if ok {
        ok := CloseIf(true);
      }
      if ok {
        // input->status()
        ok := Outcome();
      }
    }
  }

  /** What the loop remembers after i entries: the last one, unless it did not parse. */
  ghost predicate Tracks(input: seq<Entry>, i: nat, currentUserKey: Option<UserKey>, lastSequenceForKey: nat)
    requires i <= |input|
  {
    if i > 0 && Parses(input[i - 1])
    then currentUserKey == Some(input[i - 1].key) && lastSequenceForKey == input[i - 1].sequence
    else currentUserKey == None && lastSequenceForKey == MAX_SEQUENCE
  }

  /** Tables cut from a sorted sequence do not overlap: all of one table comes before
      all of the next. */
  lemma OutputsDisjoint(outputs: seq<Output>, i: nat, j: nat, p: nat, q: nat)
    requires Sorted(Concat(outputs)) && i < j < |outputs|
    requires p < |outputs[i].entries| && q < |outputs[j].entries|
    ensures Before(outputs[i].entries[p], outputs[j].entries[q])
  {
    var a, b := Offset(outputs, i), Offset(outputs, j);
    OffsetsGrow(outputs, i, j);
    AtOffset(outputs, i, p);
    AtOffset(outputs, j, q);
  }

  ghost function Offset(outputs: seq<Output>, i: nat): nat
    requires i <= |outputs|
  {
    |Concat(outputs[..i])|
  }

  lemma {:induction false} OffsetsGrow(outputs: seq<Output>, i: nat, j: nat)
    requires i < j <= |outputs|
    ensures Offset(outputs, i) + |outputs[i].entries| <= Offset(outputs, j) <= |Concat(outputs)|
    decreases |outputs|, j
  {
    assert outputs[..j][..j - 1] == outputs[..j - 1];
    if j < |outputs| {
      assert outputs[..|outputs| - 1][..i] == outputs[..i];
      assert outputs[..|outputs| - 1][..j] == outputs[..j];
      OffsetsGrow(outputs[..|outputs| - 1], i, j);
    } else {
      assert outputs[..j] == outputs;
      if i < j - 1 {
        OffsetsGrow(outputs, i, j - 1);
      }
    }
  }

  lemma {:induction false} AtOffset(outputs: seq<Output>, i: nat, p: nat)
    requires i < |outputs| && p < |outputs[i].entries|
    ensures Offset(outputs, i) + p < |Concat(outputs)|
    ensures Concat(outputs)[Offset(outputs, i) + p] == outputs[i].entries[p]
  {
    if i < |outputs| - 1 {
      assert outputs[..|outputs| - 1][..i] == outputs[..i];
      AtOffset(outputs[..|outputs| - 1], i, p);
    }
  }

  /** The tables of a successful compaction are sorted inside, pairwise ordered, and show
      every parseable key to every admissible read just as the inputs did. */
  lemma CompactedTables(input: seq<Entry>, r: Rule, outputs: seq<Output>, u: UserKey)
    requires Sorted(input) && Distinct(Elements(input))
    requires Concat(outputs) == Kept(input, |input|, r)
    requires forall e :: e in input && e.key == u ==> Parses(e)
    ensures Sorted(Concat(outputs))
    ensures forall i, p, q :: 0 <= i < |outputs| && 0 <= p < q < |outputs[i].entries| ==>
              Before(outputs[i].entries[p], outputs[i].entries[q])
    ensures forall i, j, p, q :: 0 <= i < j < |outputs| && 0 <= p < |outputs[i].entries| && 0 <= q < |outputs[j].entries| ==>
              Before(outputs[i].entries[p], outputs[j].entries[q])
    ensures forall others, s :: s >= r.smallestSnapshot && Fits(others, input, r, u) ==>
              View(Elements(input) + others, u, s) == View(Elements(Concat(outputs)) + others, u, s)
  {
    KeptSorted(input, |input|, r);
    forall i, p, q | 0 <= i < |outputs| && 0 <= p < q < |outputs[i].entries|
      ensures Before(outputs[i].entries[p], outputs[i].entries[q])
    {
      AtOffset(outputs, i, p);
      AtOffset(outputs, i, q);
    }
    forall i, j, p, q | 0 <= i < j < |outputs| && 0 <= p < |outputs[i].entries| && 0 <= q < |outputs[j].entries|
      ensures Before(outputs[i].entries[p], outputs[j].entries[q])
    {
      OutputsDisjoint(outputs, i, j, p, q);
    }
    ParseableCompactionPreservesReads(input, r, u);
  }
}

/** What the state machine says of a log is what its bytes say: the groups that a log has for sure are found in
    it, and no others are found but those that it may have. */
module Ledgers {
  import opened LogReader
  import opened LogGenuine
  import opened LogCalls
  import opened Stores

  /** What is kept of a log whose call i appended the record of group ids[i]. */
  datatype Ledger = Ledger(log: Log, torn: bool)

  ghost function Kept(ids: seq<nat>, calls: seq<Call>, states: seq<State>, n: nat): Ledger
    requires |ids| == |calls| && |states| == |calls| + 1 && n <= |calls|
  {
    if n == 0 then Ledger(Log({}, {}), false)
    else
      var before, tears := Kept(ids, calls, states, n - 1), !states[n].InPlace();
      Ledger(Recorded(before.log, before.torn, ids[n - 1], calls[n - 1].ok, tears), before.torn || tears)
  }

  ghost predicate Different(ids: seq<nat>) {
    forall i, j :: 0 <= i < j < |ids| ==> ids[i] != ids[j]
  }

  /** A log is torn once a call has left it out of step. */
  lemma {:induction false} KeptTorn(ids: seq<nat>, calls: seq<Call>, states: seq<State>, n: nat)
    requires |ids| == |calls| && |states| == |calls| + 1 && n <= |calls| && states[0].InPlace()
    ensures Kept(ids, calls, states, n).torn <==> !Untorn(states, n)
  {
    if n > 0 {
      KeptTorn(ids, calls, states, n - 1);
    }
  }

  lemma {:induction false} KeptGroups(ids: seq<nat>, calls: seq<Call>, states: seq<State>, n: nat)
    requires |ids| == |calls| && |states| == |calls| + 1 && n <= |calls|
    ensures var log := Kept(ids, calls, states, n).log; forall g :: g in log.sure + log.maybe <==> g in ids[..n]
  {
    if n > 0 {
      KeptGroups(ids, calls, states, n - 1);
      assert ids[..n] == ids[..n - 1] + [ids[n - 1]];
    }
  }

  /** It has for sure what was appended in step. */
  lemma {:induction false} KeptSure(ids: seq<nat>, calls: seq<Call>, states: seq<State>, n: nat, i: nat)
    requires |ids| == |calls| && |states| == |calls| + 1 && i < n <= |calls| && states[0].InPlace() && Different(ids)
    ensures ids[i] in Kept(ids, calls, states, n).log.sure <==> Sure(calls, states, i)
    decreases n
  {
    if i < n - 1 {
      KeptSure(ids, calls, states, n - 1, i);
    } else {
      KeptTorn(ids, calls, states, n - 1);
      KeptGroups(ids, calls, states, n - 1);
      assert ids[i] !in ids[..n - 1];
    }
  }

  /** Read with checksums, a log hands over every group that it has for sure, and none that it may not have. */
  lemma {:induction false} ReadableIsKept(c: Config, ids: seq<nat>, calls: seq<Call>, states: seq<State>)
    requires c.initial == 0 && c.checksum && Run(c.crc, calls, states) && Unforged(c.crc, calls, states)
    requires |ids| == |calls| && Different(ids)
    ensures var n := |calls|; var log, outs := Kept(ids, calls, states, n).log, ReadAllOut(c, states[n].file);
      && (forall i :: 0 <= i < n && ids[i] in log.sure ==> FoundIn(c, states[n].file, RecordAt(states[i], calls[i])))
      && (forall out :: out in Found(outs) ==> exists i :: 0 <= i < n && out == RecordAt(states[i], calls[i]) && ids[i] in log.sure + log.maybe)
      && Subsequence(Found(outs), WholeRecords(calls, states, n))
  {
    var n := |calls|;
    ReadsWhatWasWritten(c, calls, states);
    SureAreSure(ids, calls, states);
    FoundAreKept(ids, calls, states, Found(ReadAllOut(c, states[n].file)));
  }

  lemma {:induction false} SureAreSure(ids: seq<nat>, calls: seq<Call>, states: seq<State>)
    requires |ids| == |calls| && |states| == |calls| + 1 && states[0].InPlace() && Different(ids)
    ensures forall i :: 0 <= i < |calls| && ids[i] in Kept(ids, calls, states, |calls|).log.sure ==> Sure(calls, states, i)
  {
    forall i | 0 <= i < |calls| && ids[i] in Kept(ids, calls, states, |calls|).log.sure ensures Sure(calls, states, i) {
      KeptSure(ids, calls, states, |calls|, i);
    }
  }

  lemma {:induction false} FoundAreKept(ids: seq<nat>, calls: seq<Call>, states: seq<State>, found: seq<Out>)
    requires |ids| == |calls| && |states| == |calls| + 1 && Subsequence(found, WholeRecords(calls, states, |calls|))
    ensures var log := Kept(ids, calls, states, |calls|).log;
      forall out :: out in found ==> exists i :: 0 <= i < |calls| && out == RecordAt(states[i], calls[i]) && ids[i] in log.sure + log.maybe
  {
    var n := |calls|;
    KeptGroups(ids, calls, states, n);
    assert ids[..n] == ids;
    forall out | out in found
      ensures exists i :: 0 <= i < n && out == RecordAt(states[i], calls[i]) && ids[i] in Kept(ids, calls, states, n).log.sure + Kept(ids, calls, states, n).log.maybe
    {
      AlsoIn(found, WholeRecords(calls, states, n), out);
      var i := WholeOf(calls, states, n, out);
      assert ids[i] in ids;
    }
  }

  lemma {:induction false} AlsoIn(a: seq<Out>, b: seq<Out>, out: Out)
    requires Subsequence(a, b) && out in a
    ensures out in b
    decreases |b|
  {
    if a[0] == b[0] && Subsequence(a[1..], b[1..]) {
      if out != a[0] {
        AlsoIn(a[1..], b[1..], out);
      }
    } else {
      AlsoIn(a, b[1..], out);
    }
  }

  lemma {:induction false} WholeOf(calls: seq<Call>, states: seq<State>, n: nat, out: Out) returns (i: nat)
    requires |states| == |calls| + 1 && n <= |calls| && out in WholeRecords(calls, states, n)
    ensures i < n && out == RecordAt(states[i], calls[i])
  {
    if out in WholeRecords(calls, states, n - 1) {
      i := WholeOf(calls, states, n - 1, out);
    } else {
      i := n - 1;
    }
  }
}

/** What a reader that verifies checksums can find in a file, whatever has happened to it: nothing but records
    all of whose fragments are there, one behind the other, and in the order in which they are there. */
module LogGenuine {
  import opened FixedBytes
  import opened LogFormat
  import opened LogReader
  import opened LogReplay

  /** A physical record that stands whole somewhere in a file. */
  datatype Fragment = Fragment(start: nat, kind: Byte, data: Bytes) {
    function End(): nat {
      start + HEADER_SIZE + |data|
    }

    predicate Begins() {
      kind == FULL || kind == FIRST
    }

    predicate Ends() {
      kind == FULL || kind == LAST
    }
  }

  ghost predicate StandsIn(crc: Crc, f: Bytes, a: Fragment) {
    && FULL <= a.kind <= LAST && |a.data| < 65536 && a.End() <= |f|
    && f[a.start..a.End()] == Physical(crc, a.kind, a.data)
  }

  /** The fragments stand in the file, one behind the other. */
  ghost predicate Written(crc: Crc, f: Bytes, P: seq<Fragment>) {
    (forall k {:trigger P[k]} :: 0 <= k < |P| ==> StandsIn(crc, f, P[k])) && Apart(P)
  }

  ghost predicate Apart(P: seq<Fragment>) {
    forall j, k {:trigger P[j], P[k]} :: 0 <= j < k < |P| ==> P[j].End() <= P[k].start
  }

  /** No checksum is right anywhere else. */
  ghost predicate NoForgery(crc: Crc, f: Bytes, P: seq<Fragment>) {
    forall p: nat {:trigger LengthAt(f, p)} ::
      p + HEADER_SIZE <= |f| && p + HEADER_SIZE + LengthAt(f, p) <= |f| && ChecksumAt(crc, f, p) ==> StartsAt(P, p)
  }

  ghost predicate StartsAt(P: seq<Fragment>, p: nat) {
    exists k :: 0 <= k < |P| && P[k].start == p
  }

  // ---------- The records that the fragments make up ----------

  /** What fragment k and those before it have of its record. */
  ghost function Made(P: seq<Fragment>, k: nat): Bytes
    requires k < |P|
  {
    if P[k].Begins() || k == 0 then P[k].data else Made(P, k - 1) + P[k].data
  }

  ghost function Start(P: seq<Fragment>, k: nat): nat
    requires k < |P|
  {
    if P[k].Begins() || k == 0 then P[k].start else Start(P, k - 1)
  }

  /** The records that end with fragment k or later. */
  ghost function Complete(P: seq<Fragment>, k: nat): seq<Out>
    requires k <= |P|
    decreases |P| - k
  {
    if k == |P| then [] else Ending(P, k) + Complete(P, k + 1)
  }

  ghost function Ending(P: seq<Fragment>, k: nat): seq<Out>
    requires k < |P|
  {
    if P[k].Ends() then [Record(Made(P, k), Start(P, k))] else []
  }

  ghost function Found(outs: seq<Out>): seq<Out> {
    if outs == [] then [] else (if outs[0].Record? then [outs[0]] else []) + Found(outs[1..])
  }

  ghost predicate Subsequence(a: seq<Out>, b: seq<Out>)
    decreases |b|
  {
    a == [] || (b != [] && ((a[0] == b[0] && Subsequence(a[1..], b[1..])) || Subsequence(a, b[1..])))
  }

  lemma {:induction false} FoundSplit(a: seq<Out>, b: seq<Out>)
    ensures Found(a + b) == Found(a) + Found(b)
  {
    if a == [] {
      assert a + b == b;
    } else {
      assert (a + b)[1..] == a[1..] + b;
      FoundSplit(a[1..], b);
    }
  }

  lemma {:induction false} ReportsFindNothing(a: seq<Out>)
    requires OnlyReports(a)
    ensures Found(a) == []
  {
    if a != [] {
      ReportsFindNothing(a[1..]);
    }
  }

  lemma {:induction false} SubsequenceOfMore(a: seq<Out>, b: seq<Out>, first: seq<Out>)
    requires Subsequence(a, b) && |first| <= 1
    ensures Subsequence(a, first + b)
  {
    if first == [] {
      assert first + b == b;
    } else {
      assert (first + b)[1..] == b;
    }
  }

  // ---------- One step of the reader ----------

  /** The reader stands where no record is: what it finds there is bad, or the end. */
  ghost predicate Doomed(P: seq<Fragment>, q: nat) {
    q % BLOCK_SIZE == 0 && !StartsAt(P, q)
  }

  /** The reassembly has what the fragments before k have of a record, and the reader stands right behind
      them, or at the next block if that is fewer bytes away than a header has. */
  ghost predicate InHand(P: seq<Fragment>, k: nat, q: nat, a: Assembly) {
    && 0 < k <= |P| && !P[k - 1].Ends() && a.scratch == Made(P, k - 1) && a.start == Start(P, k - 1)
    && (q == P[k - 1].End() || (q % BLOCK_SIZE == 0 && P[k - 1].End() <= q < P[k - 1].End() + HEADER_SIZE))
  }

  /** The fragments before k begin before q, and the others do not. */
  ghost predicate Passed(P: seq<Fragment>, k: nat, q: nat) {
    forall m {:trigger P[m]} :: 0 <= m < |P| ==> (m < k <==> P[m].start < q)
  }

  ghost predicate Reading(P: seq<Fragment>, k: nat, q: nat, a: Assembly) {
    && k <= |P| && !a.resyncing && Passed(P, k, q)
    && (a.inFragment ==> InHand(P, k, q, a) || Doomed(P, q))
  }

  lemma StepKinds(c: Config, f: Bytes, q: nat)
    requires q < |f| && c.checksum && c.initial == 0
    ensures var (es, r) := Step(c, f, q);
      || (es == [] && (r == |f| || (r % BLOCK_SIZE == 0 && r < q + HEADER_SIZE && q % BLOCK_SIZE != 0)))
      || (|es| == 1 && es[0].Bad?)
      || (q + HEADER_SIZE + LengthAt(f, q) <= |f| && ChecksumAt(c.crc, f, q) && r == q + HEADER_SIZE + LengthAt(f, q)
          && es == [Rec(TypeAt(f, q), f[q + HEADER_SIZE..r], q, r)])
  {
  }

  /** The reader goes on to r. */
  lemma {:induction false} GoOn(P: seq<Fragment>, k: nat, q: nat, r: nat) returns (n: nat)
    requires k <= |P| && Apart(P) && Passed(P, k, q) && q <= r
    ensures k <= n <= |P| && Passed(P, n, r)
    decreases |P| - k
  {
    if k < |P| && P[k].start < r {
      n := GoOn(P, k + 1, P[k].start + 1, r);
    } else {
      n := k;
    }
  }

  lemma {:induction false} LaterOnes(P: seq<Fragment>, k: nat, n: nat, found: seq<Out>)
    requires k <= n <= |P| && Subsequence(found, Complete(P, n))
    ensures Subsequence(found, Complete(P, k))
    decreases n - k
  {
    if k < n {
      LaterOnes(P, k + 1, n, found);
      SubsequenceOfMore(found, Complete(P, k + 1), Ending(P, k));
    }
  }

  /** Fewer bytes than a header has are left in the block: they are skipped. */
  lemma Skipped(P: seq<Fragment>, k: nat, q: nat, a: Assembly, r: nat) returns (n: nat)
    requires Apart(P) && Reading(P, k, q, a) && r % BLOCK_SIZE == 0 && q < r < q + HEADER_SIZE && q % BLOCK_SIZE != 0
    ensures k <= n && Reading(P, n, r, a)
  {
    n := GoOn(P, k, q, r);
    if a.inFragment && n > k {
      assert P[k].start >= q && P[n - 1].start < r;
      forall m | 0 <= m < |P| ensures P[m].start != r {
        if m > k {
          assert P[k].End() <= P[m].start;
        }
      }
    }
  }

  /** What the reader makes of the fragment that it stands on. */
  lemma Taken(c: Config, P: seq<Fragment>, k: nat, a: Assembly)
    requires k < |P| && FULL <= P[k].kind <= LAST && Apart(P) && Reading(P, k, P[k].start, a)
    ensures var t := Turn(c, Rec(P[k].kind, P[k].data, P[k].start, P[k].End()), a);
      && (t.result == [] || (P[k].Ends() && t.result == [Record(Made(P, k), Start(P, k))]))
      && Reading(P, k + 1, P[k].End(), t.next) && OnlyReports(t.reports)
  {
    forall m | 0 <= m < |P| ensures m < k + 1 <==> P[m].start < P[k].End() {
      assert m > k ==> P[k].End() <= P[m].start;
    }
    assert StartsAt(P, P[k].start);
  }

  lemma BadTaken(c: Config, P: seq<Fragment>, k: nat, q: nat, e: Event, a: Assembly, r: nat) returns (n: nat)
    requires Apart(P) && Reading(P, k, q, a) && e.Bad? && q <= r
    ensures var t := Turn(c, e, a); k <= n && t.result == [] && Reading(P, n, r, t.next) && OnlyReports(t.reports)
  {
    n := GoOn(P, k, q, r);
  }

  lemma FoundOne(c: Config, e: Event, rest: seq<Event>, a: Assembly)
    requires OnlyReports(Turn(c, e, a).reports)
    ensures var t := Turn(c, e, a); Found(Assemble(c, [e] + rest, a)) == Found(t.result) + Found(Assemble(c, rest, t.next))
  {
    var t := Turn(c, e, a);
    AssembleCons(c, e, rest, a);
    ReportsFindNothing(Lost(c, e) + t.reports);
    FoundSplit(Lost(c, e) + t.reports + t.result, Assemble(c, rest, t.next));
    FoundSplit(Lost(c, e) + t.reports, t.result);
  }

  lemma OneAt(P: seq<Fragment>, k: nat, q: nat, m: nat)
    requires Apart(P) && Passed(P, k, q) && m < |P| && P[m].start == q
    ensures m == k
  {
    if k < |P| {
      OneBehind(P, k, m);
    }
  }

  lemma OneBehind(P: seq<Fragment>, j: nat, k: nat)
    requires Apart(P) && j < |P| && k < |P|
    ensures j < k ==> P[j].start < P[k].start
  {
  }

  /** The checksum is right where the reader stands: a fragment is there. */
  lemma AtFragment(c: Config, f: Bytes, P: seq<Fragment>, k: nat, q: nat)
    requires Written(c.crc, f, P) && NoForgery(c.crc, f, P) && Passed(P, k, q)
    requires q + HEADER_SIZE <= |f| && q + HEADER_SIZE + LengthAt(f, q) <= |f| && ChecksumAt(c.crc, f, q)
    ensures k < |P| && P[k].start == q && FULL <= P[k].kind <= LAST
    ensures TypeAt(f, q) == P[k].kind && q + HEADER_SIZE + LengthAt(f, q) == P[k].End()
    ensures f[q + HEADER_SIZE..q + HEADER_SIZE + LengthAt(f, q)] == P[k].data
  {
    assert StartsAt(P, q);
    var m :| 0 <= m < |P| && P[m].start == q;
    OneAt(P, k, q, m);
    ReadsBack(c.crc, P[k].kind, P[k].data, f, q);
  }

  /** From offset q on, which stands guard, in state a, the reader finds some of the records that end with fragment k or later. */
  ghost predicate Finds(c: Config, f: Bytes, P: seq<Fragment>, k: nat, q: nat, a: Assembly)
    requires k <= |P|
  {
    forall p: nat {:trigger Parse(c, f, p)} :: p == q ==> Subsequence(Found(Assemble(c, Parse(c, f, p), a)), Complete(P, k))
  }

  lemma FindsOverGap(c: Config, f: Bytes, P: seq<Fragment>, k: nat, q: nat, a: Assembly, n: nat)
    requires q < |f| && Step(c, f, q).0 == [] && k <= n <= |P| && Finds(c, f, P, n, Step(c, f, q).1, a)
    ensures Finds(c, f, P, k, q, a)
  {
    assert Parse(c, f, q) == Parse(c, f, Step(c, f, q).1);
    LaterOnes(P, k, n, Found(Assemble(c, Parse(c, f, q), a)));
  }

  lemma FindsOverEvent(c: Config, f: Bytes, P: seq<Fragment>, k: nat, q: nat, a: Assembly, e: Event, n: nat)
    requires q < |f| && Step(c, f, q).0 == [e] && k <= n <= |P| && OnlyReports(Turn(c, e, a).reports)
    requires var result := Turn(c, e, a).result;
      result == [] || (n == k + 1 && P[k].Ends() && result == [Record(Made(P, k), Start(P, k))])
    requires Finds(c, f, P, n, Step(c, f, q).1, Turn(c, e, a).next)
    ensures Finds(c, f, P, k, q, a)
  {
    var t, rest := Turn(c, e, a), Parse(c, f, Step(c, f, q).1);
    var more := Found(Assemble(c, rest, t.next));
    FoundOne(c, e, rest, a);
    assert Parse(c, f, q) == [e] + rest;
    Takes(P, k, n, t.result, more);
  }

  lemma Takes(P: seq<Fragment>, k: nat, n: nat, result: seq<Out>, more: seq<Out>)
    requires k <= n <= |P| && Subsequence(more, Complete(P, n))
    requires result == [] || (n == k + 1 && P[k].Ends() && result == [Record(Made(P, k), Start(P, k))])
    ensures Subsequence(Found(result) + more, Complete(P, k))
  {
    if result == [] {
      LaterOnes(P, k, n, more);
      assert Found(result) + more == more;
    } else {
      assert Found(result) == result == [result[0]];
      OneFound(result[0], more, Complete(P, n));
    }
  }

  lemma OneFound(out: Out, a: seq<Out>, b: seq<Out>)
    requires Subsequence(a, b)
    ensures Subsequence([out] + a, [out] + b)
  {
    assert ([out] + a)[1..] == a && ([out] + b)[1..] == b;
  }

  /** One step of the reader, and what it is then to find. */
  lemma NextReading(c: Config, f: Bytes, P: seq<Fragment>, k: nat, q: nat, a: Assembly) returns (n: nat, b: Assembly)
    requires c.checksum && c.initial == 0 && Written(c.crc, f, P) && NoForgery(c.crc, f, P) && Reading(P, k, q, a) && q < |f|
    ensures k <= n <= |P| && (Step(c, f, q).1 < |f| ==> Reading(P, n, Step(c, f, q).1, b))
    ensures Finds(c, f, P, n, Step(c, f, q).1, b) ==> Finds(c, f, P, k, q, a)
  {
    var (es, r) := Step(c, f, q);
    n, b := k, a;
    StepKinds(c, f, q);
    if es == [] {
      if r < |f| {
        n := Skipped(P, k, q, a, r);
      }
      if Finds(c, f, P, n, r, b) {
        FindsOverGap(c, f, P, k, q, a, n);
      }
    } else {
      var e := es[0];
      b := Turn(c, e, a).next;
      if e.Bad? {
        n := BadTaken(c, P, k, q, e, a, r);
      } else {
        AtFragment(c, f, P, k, q);
        Taken(c, P, k, a);
        n := k + 1;
      }
      assert es == [e];
      if Finds(c, f, P, n, r, b) {
        FindsOverEvent(c, f, P, k, q, a, e, n);
      }
    }
  }

  lemma {:induction false} OnlyWritten(c: Config, f: Bytes, P: seq<Fragment>, k: nat, q: nat, a: Assembly)
    requires c.checksum && c.initial == 0 && Written(c.crc, f, P) && NoForgery(c.crc, f, P) && Reading(P, k, q, a)
    ensures Finds(c, f, P, k, q, a)
    decreases |f| - q
  {
    if q < |f| {
      var n, b := NextReading(c, f, P, k, q, a);
      if Step(c, f, q).1 < |f| {
        OnlyWritten(c, f, P, n, Step(c, f, q).1, b);
      }
    }
  }

  /** Whatever stands in the file besides, and wherever in their blocks the fragments stand: the records that
      are read are some of those whose fragments are all there, in the same order. */
  lemma ReadsOnlyWritten(c: Config, f: Bytes, P: seq<Fragment>)
    requires c.checksum && c.initial == 0 && Written(c.crc, f, P) && NoForgery(c.crc, f, P)
    ensures Subsequence(Found(ReadAllOut(c, f)), Complete(P, 0))
  {
    OnlyWritten(c, f, P, 0, 0, Fresh(false));
  }

  // ---------- Fragments of one record after the other ----------

  lemma {:induction false} MadeBefore(P: seq<Fragment>, Q: seq<Fragment>, k: nat)
    requires k < |P| && P <= Q
    ensures Made(Q, k) == Made(P, k) && Start(Q, k) == Start(P, k)
    decreases k
  {
    if k > 0 {
      MadeBefore(P, Q, k - 1);
    }
  }

  lemma {:induction false} MadeBehind(R: seq<Fragment>, n: nat, Q: seq<Fragment>, k: nat)
    requires n <= |R| && R[n..] == Q && k < |Q| && Q[0].Begins()
    ensures Made(R, n + k) == Made(Q, k) && Start(R, n + k) == Start(Q, k)
    decreases k
  {
    assert R[n + k] == Q[k];
    if k > 0 {
      MadeBehind(R, n, Q, k - 1);
    }
  }

  lemma {:induction false} EndingBehind(R: seq<Fragment>, n: nat, Q: seq<Fragment>, k: nat)
    requires n <= |R| && R[n..] == Q && k < |Q| && Q[0].Begins()
    ensures Ending(R, n + k) == Ending(Q, k)
  {
    assert R[n + k] == Q[k];
    MadeBehind(R, n, Q, k);
  }

  lemma {:induction false} CompleteBehind(R: seq<Fragment>, n: nat, Q: seq<Fragment>, k: nat)
    requires n <= |R| && R[n..] == Q && k <= |Q| && (Q != [] ==> Q[0].Begins())
    ensures Complete(R, n + k) == Complete(Q, k)
    decreases |Q| - k
  {
    if k < |Q| {
      EndingBehind(R, n, Q, k);
      CompleteBehind(R, n, Q, k + 1);
      NextComplete(R, n + k, Ending(Q, k), Complete(Q, k + 1));
    }
  }

  lemma {:induction false} NextComplete(P: seq<Fragment>, k: nat, ending: seq<Out>, later: seq<Out>)
    requires k < |P| && Ending(P, k) == ending && Complete(P, k + 1) == later
    ensures Complete(P, k) == ending + later
  {
  }

  lemma {:induction false} CompleteBefore(R: seq<Fragment>, P: seq<Fragment>, Q: seq<Fragment>, k: nat)
    requires R == P + Q && k <= |P| && (Q != [] ==> Q[0].Begins())
    ensures Complete(R, k) == Complete(P, k) + Complete(Q, 0)
    decreases |P| - k
  {
    if k < |P| {
      MadeBefore(P, R, k);
      assert R[k] == P[k];
      CompleteBefore(R, P, Q, k + 1);
      NextComplete(R, k, Ending(P, k), Complete(P, k + 1) + Complete(Q, 0));
    } else {
      assert R[|P|..] == Q;
      CompleteBehind(R, |P|, Q, 0);
    }
  }

  lemma {:induction false} CompleteConcat(P: seq<Fragment>, Q: seq<Fragment>)
    requires Q != [] ==> Q[0].Begins()
    ensures Complete(P + Q, 0) == Complete(P, 0) + Complete(Q, 0)
  {
    CompleteBefore(P + Q, P, Q, 0);
  }

  /** The fragments are the first ones of the record's items. */
  ghost predicate Firsts(items: seq<Item>, Q: seq<Fragment>) {
    |Q| <= |items| && forall j :: 0 <= j < |Q| ==> Q[j].kind == items[j].kind && Q[j].data == items[j].data
  }

  lemma {:induction false} MadeOfRecord(items: seq<Item>, Q: seq<Fragment>, data: Bytes, k: nat)
    requires Firsts(items, Q) && Carries(items, data, true) && k < |Q|
    ensures Start(Q, k) == Q[0].start && Made(Q, k) <= data && (Q[k].Ends() <==> k + 1 == |items|)
    ensures k + 1 < |items| ==> Carries(items[k + 1..], data[|Made(Q, k)|..], false)
    ensures k + 1 == |items| ==> Made(Q, k) == data
    decreases k
  {
    if k > 0 {
      MadeOfRecord(items, Q, data, k - 1);
      assert items[k..][1..] == items[k + 1..];
      Rejoin(Made(Q, k - 1), items[k].data, data[|Made(Q, k - 1)|..]);
      assert Made(Q, k - 1) + data[|Made(Q, k - 1)|..] == data;
    }
  }

  /** They make up the record if they are all of its fragments, and nothing otherwise. */
  lemma {:induction false} CompleteRecord(items: seq<Item>, Q: seq<Fragment>, data: Bytes, k: nat)
    requires Firsts(items, Q) && Carries(items, data, true) && k < |Q|
    ensures Complete(Q, k) == if |Q| == |items| then [Record(data, Q[0].start)] else []
    decreases |Q| - k
  {
    MadeOfRecord(items, Q, data, k);
    if k + 1 < |Q| {
      CompleteRecord(items, Q, data, k + 1);
    }
  }
}

/** DBImpl::Write and BuildBatchGroup: writers queue up, the front one leads a group through
    the log and the memtable without the mutex, and releases those it took along. */
module WriteQueue {
  import opened Options
  import opened History

  datatype Status = OK | Error(message: string)

  /** Where the thread of a writer is: in the wait loop, in MakeRoomForWrite, away from the mutex with its
      group, or gone. */
  datatype Position = Waiting | MakingRoom | Unlocked | Left {
    /** Past the wait loop and not yet gone: the thread may write the log and the memtable. */
    predicate Busy() {
      MakingRoom? || Unlocked?
    }
  }

  class Writer {
    /** None is a null batch. */
    const batch: Option<seq<Op>>
    const sync: bool
    var done: bool
    var status: Status

    constructor (batch: Option<seq<Op>>, sync: bool)
      ensures this.batch == batch && this.sync == sync && !done
    {
      this.batch, this.sync, done, status := batch, sync, false, OK;
    }
  }

  function OpsOf(w: Writer): seq<Op> {
    if w.batch.Some? then w.batch.value else []
  }

  /** The batches of the writers, one after the other. */
  ghost function Joined(writers: seq<Writer>): seq<Op> {
    if writers == [] then [] else Joined(writers[..|writers| - 1]) + OpsOf(writers[|writers| - 1])
  }

  function SizeOf(w: Writer, bytes: seq<Op> -> nat): nat {
    if w.batch.Some? then bytes(w.batch.value) else 0
  }

  ghost function TotalSize(writers: seq<Writer>, bytes: seq<Op> -> nat): nat {
    if writers == [] then 0 else TotalSize(writers[..|writers| - 1], bytes) + SizeOf(writers[|writers| - 1], bytes)
  }

  /** How large a group may grow that starts with a batch of this size. */
  function MaxSize(first: nat): nat {
    if first <= 0x2_0000 then first + 0x2_0000 else 0x10_0000
  }

  /** Writer n may not ride along with the n writers before it. */
  ghost predicate Barred(writers: seq<Writer>, n: nat, bytes: seq<Op> -> nat)
    requires 0 < n < |writers|
  {
    || (writers[n].sync && !writers[0].sync)
    || (writers[n].batch.Some? && TotalSize(writers[..n + 1], bytes) > MaxSize(SizeOf(writers[0], bytes)))
  }

  lemma {:induction false} JoinedSplit(a: seq<Writer>, b: seq<Writer>)
    ensures Joined(a + b) == Joined(a) + Joined(b)
  {
    if b == [] {
      assert a + b == a;
    } else {
      var c := a + b;
      assert c[..|c| - 1] == a + b[..|b| - 1];
      JoinedSplit(a, b[..|b| - 1]);
    }
  }

  /** The first n writers may go as one group. */
  ghost predicate Unbarred(writers: seq<Writer>, n: nat, bytes: seq<Op> -> nat) {
    0 < n <= |writers| && forall i {:trigger Barred(writers, i, bytes)} :: 0 < i < n ==> !Barred(writers, i, bytes)
  }

  lemma OneMoreWriter(writers: seq<Writer>, n: nat, bytes: seq<Op> -> nat)
    requires n < |writers|
    ensures Joined(writers[..n + 1]) == Joined(writers[..n]) + OpsOf(writers[n])
    ensures TotalSize(writers[..n + 1], bytes) == TotalSize(writers[..n], bytes) + SizeOf(writers[n], bytes)
  {
    assert writers[..n + 1][..n] == writers[..n];
  }

  /** Whether the next writer may come along. */
  lemma NextWriter(writers: seq<Writer>, n: nat, bytes: seq<Op> -> nat)
    requires Unbarred(writers, n, bytes) && n < |writers|
    ensures Barred(writers, n, bytes) <==>
              || (writers[n].sync && !writers[0].sync)
              || (writers[n].batch.Some? && TotalSize(writers[..n], bytes) + SizeOf(writers[n], bytes) > MaxSize(SizeOf(writers[0], bytes)))
    ensures !Barred(writers, n, bytes) ==> Unbarred(writers, n + 1, bytes)
  {
    OneMoreWriter(writers, n, bytes);
  }

  /** The group that the front writer takes: the longest run of writers none of which is barred. */
  method BuildBatchGroup(writers: seq<Writer>, bytes: seq<Op> -> nat) returns (result: seq<Op>, n: nat)
    requires writers != [] && writers[0].batch.Some?
    ensures Unbarred(writers, n, bytes) && result == Joined(writers[..n])
    ensures n < |writers| ==> Barred(writers, n, bytes)
  {
    var first := writers[0];
    var size := bytes(first.batch.value);
    var maxSize := 0x10_0000;
    if size <= 0x2_0000 {
      maxSize := size + 0x2_0000;
    }
    result, n := first.batch.value, 1;
    OneMoreWriter(writers, 0, bytes);
    while n < |writers|
      invariant 0 < n <= |writers| && Unbarred(writers, n, bytes)
      invariant result == Joined(writers[..n]) && size == TotalSize(writers[..n], bytes)
    {
      var w := writers[n];
      OneMoreWriter(writers, n, bytes);
      NextWriter(writers, n, bytes);
      if w.sync && !first.sync {
        break;
      }
      if w.batch.Some? {
        size := size + bytes(w.batch.value);
        if size > maxSize {
          break;
        }
        result := result + w.batch.value;
      }
      n := n + 1;
    }
  }

  /** A group with a non-sync leader has no sync writer. One of several batches is no larger than 1 MiB, and adds no more
      than 128 KiB to a small first batch. */
  lemma GroupIsFair(writers: seq<Writer>, n: nat, bytes: seq<Op> -> nat)
    requires Unbarred(writers, n, bytes)
    ensures forall i :: 0 <= i < n && writers[i].sync ==> writers[0].sync
    ensures (exists i :: 0 < i < n && writers[i].batch.Some?) ==>
              && TotalSize(writers[..n], bytes) <= 1024 * 1024
              && (SizeOf(writers[0], bytes) <= 128 * 1024 ==> TotalSize(writers[..n], bytes) - SizeOf(writers[0], bytes) <= 128 * 1024)
  {
    forall i | 0 <= i < n && writers[i].sync ensures writers[0].sync {
      assert i > 0 ==> !Barred(writers, i, bytes);
    }
    if i :| 0 < i < n && writers[i].batch.Some? {
      LastBatchFits(writers, n, bytes);
    }
  }

  /** It ends where it has to: the next writer would break one of these rules. */
  lemma GroupIsLongest(writers: seq<Writer>, n: nat, bytes: seq<Op> -> nat)
    requires Unbarred(writers, n, bytes) && n < |writers| && Barred(writers, n, bytes)
    ensures var first, total := SizeOf(writers[0], bytes), TotalSize(writers[..n], bytes) + SizeOf(writers[n], bytes);
      || (writers[n].sync && !writers[0].sync)
      || (writers[n].batch.Some? && if first <= 128 * 1024 then total - first > 128 * 1024 else total > 1024 * 1024)
  {
    NextWriter(writers, n, bytes);
  }

  lemma {:induction false} LastBatchFits(writers: seq<Writer>, n: nat, bytes: seq<Op> -> nat)
    requires Unbarred(writers, n, bytes)
    requires exists i :: 0 < i < n && writers[i].batch.Some?
    ensures TotalSize(writers[..n], bytes) <= MaxSize(SizeOf(writers[0], bytes))
  {
    assert writers[..n][..n - 1] == writers[..n - 1];
    assert !Barred(writers, n - 1, bytes);
    if writers[n - 1].batch == None {
      LastBatchFits(writers, n - 1, bytes);
    }
  }

  /** One turn at the front of the queue: the writers it completed, leader first, the ops it
      carried, the last sequence number before them, and what became of it. */
  datatype Turn = Turn(writers: seq<Writer>, base: nat, ops: seq<Op>, status: Status)

  /** A turn took the batches of its writers in queue order, or failed before it took any. */
  ghost predicate Honest(t: Turn, bytes: seq<Op> -> nat) {
    && Unbarred(t.writers, |t.writers|, bytes)
    && (t.ops == Joined(t.writers) || (t.ops == [] && t.status != OK && |t.writers| == 1))
  }

  /** Sequence numbers continue from turn to turn without gap or overlap. */
  ghost predicate Contiguous(turns: seq<Turn>, first: nat) {
    && (turns != [] ==> turns[0].base == first)
    && forall k :: 0 < k < |turns| ==> turns[k].base == turns[k - 1].base + |turns[k - 1].ops|
  }

  /** The writers of the turns, in order. */
  ghost function Gone(turns: seq<Turn>): seq<Writer> {
    if turns == [] then [] else Gone(turns[..|turns| - 1]) + turns[|turns| - 1].writers
  }

  /** The ops of the turns, in order. */
  ghost function Stream(turns: seq<Turn>): seq<Op> {
    if turns == [] then [] else Stream(turns[..|turns| - 1]) + turns[|turns| - 1].ops
  }

  ghost function NextBase(turns: seq<Turn>, first: nat): nat {
    if turns == [] then first else turns[|turns| - 1].base + |turns[|turns| - 1].ops|
  }

  /** What the turns are, taken together. */
  ghost predicate TurnsOk(turns: seq<Turn>, first: nat, bytes: seq<Op> -> nat) {
    Contiguous(turns, first) && forall k {:trigger turns[k]} :: 0 <= k < |turns| ==> Honest(turns[k], bytes)
  }

  lemma AddTurn(turns: seq<Turn>, t: Turn, first: nat, bytes: seq<Op> -> nat)
    requires TurnsOk(turns, first, bytes) && t.base == NextBase(turns, first) && Honest(t, bytes)
    ensures TurnsOk(turns + [t], first, bytes) && NextBase(turns + [t], first) == t.base + |t.ops|
    ensures Gone(turns + [t]) == Gone(turns) + t.writers && Stream(turns + [t]) == Stream(turns) + t.ops
  {
  }

  /** The turns account for everyone who has left, and for the sequence numbers. */
  ghost predicate Accounted(turns: seq<Turn>, writers: seq<Writer>, arrivals: seq<Writer>, last: nat, first: nat, bytes: seq<Op> -> nat) {
    arrivals == Gone(turns) + writers && TurnsOk(turns, first, bytes) && NextBase(turns, first) == last
  }

  ghost function Seen(turns: seq<Turn>): set<Writer> {
    set k, i | 0 <= k < |turns| && 0 <= i < |turns[k].writers| :: turns[k].writers[i]
  }

  /** Every turn is over for all of its writers: each but the leader has been told how it ended. */
  ghost predicate Told(turns: seq<Turn>)
    reads Seen(turns)
  {
    forall k, i :: 0 <= k < |turns| && 0 < i < |turns[k].writers| ==>
      turns[k].writers[i].done && turns[k].writers[i].status == turns[k].status
  }

  /** The writers in the queue are different ones, and none has been told anything. */
  ghost predicate InQueue(writers: seq<Writer>)
    reads writers
  {
    (forall i, j :: 0 <= i < j < |writers| ==> writers[i] != writers[j]) && forall i :: 0 <= i < |writers| ==> !writers[i].done
  }

  lemma QueueRest(writers: seq<Writer>)
    requires InQueue(writers) && writers != []
    ensures InQueue(writers[1..]) && writers[0] !in writers[1..] && [writers[0]] + writers[1..] == writers
  {
  }

  /** Where everyone is that ever came: whoever is in the queue is not gone, and only the front is busy. */
  ghost predicate Placed(position: map<Writer, Position>, writers: seq<Writer>) {
    && (forall i :: 0 <= i < |writers| ==> writers[i] in position && position[writers[i]] != Left)
    && (forall w :: w in position && position[w].Busy() ==> writers != [] && w == writers[0])
  }

  lemma AlsoPlaced(position: map<Writer, Position>, writers: seq<Writer>, w: Writer)
    requires Placed(position, writers) && w !in position
    ensures var after := position[w := Waiting];
      && Placed(after, writers + [w])
      && after[(writers + [w])[0]] == if writers == [] then Waiting else position[writers[0]]
  {
  }

  lemma MovesOn(position: map<Writer, Position>, writers: seq<Writer>, w: Writer, to: Position)
    requires Placed(position, writers) && w in position
    requires (to.Busy() ==> writers != [] && w == writers[0]) && (to == Left ==> w !in writers)
    ensures Placed(position[w := to], writers)
  {
  }

  lemma FrontGoes(position: map<Writer, Position>, writers: seq<Writer>, w: Writer)
    requires Placed(position, [w] + writers) && w !in writers
    ensures var after := position[w := Left];
      Placed(after, writers) && (writers != [] ==> !after[writers[0]].Busy())
  {
    assert w == ([w] + writers)[0];
    forall i | 0 <= i < |writers| ensures writers[i] in position && position[writers[i]] != Left && writers[i] != w {
      assert ([w] + writers)[i + 1] == writers[i];
    }
  }

  /** The group of a leader is a prefix of the queue that nothing bars. */
  ghost predicate MayLead(writers: seq<Writer>, n: nat, ops: seq<Op>, bytes: seq<Op> -> nat) {
    Unbarred(writers, n, bytes) && writers[0].batch.Some? && ops == Joined(writers[..n])
  }

  /** What a leader that is away from the mutex holds, if there is one. */
  ghost predicate Leading(leading: Option<(nat, seq<Op>)>, writers: seq<Writer>, bytes: seq<Op> -> nat) {
    leading.Some? ==> MayLead(writers, leading.value.0, leading.value.1, bytes)
  }

  lemma StillLeading(leading: Option<(nat, seq<Op>)>, writers: seq<Writer>, w: Writer, bytes: seq<Op> -> nat)
    requires Leading(leading, writers, bytes)
    ensures Leading(leading, writers + [w], bytes)
  {
    if leading.Some? {
      StillMayLead(writers, w, leading.value.0, leading.value.1, bytes);
    }
  }

  lemma AlsoArrived(turns: seq<Turn>, writers: seq<Writer>, arrivals: seq<Writer>, w: Writer, last: nat, first: nat, bytes: seq<Op> -> nat)
    requires Accounted(turns, writers, arrivals, last, first, bytes)
    ensures Accounted(turns, writers + [w], arrivals + [w], last, first, bytes)
  {
  }

  lemma StillMayLead(writers: seq<Writer>, w: Writer, n: nat, ops: seq<Op>, bytes: seq<Op> -> nat)
    requires MayLead(writers, n, ops, bytes)
    ensures MayLead(writers + [w], n, ops, bytes)
  {
    assert (writers + [w])[..n] == writers[..n];
    forall i | 0 < i < n ensures !Barred(writers + [w], i, bytes) {
      assert (writers + [w])[..i + 1] == writers[..i + 1];
      assert !Barred(writers, i, bytes);
    }
  }

  lemma GroupIsHonest(writers: seq<Writer>, n: nat, ops: seq<Op>, bytes: seq<Op> -> nat, base: nat, status: Status)
    requires MayLead(writers, n, ops, bytes)
    ensures Honest(Turn(writers[..n], base, ops, status), bytes)
  {
    forall i | 0 < i < n ensures !Barred(writers[..n], i, bytes) {
      assert writers[..n][..i + 1] == writers[..i + 1];
      assert !Barred(writers, i, bytes);
    }
  }

  lemma Depart(turns: seq<Turn>, writers: seq<Writer>, arrivals: seq<Writer>, last: nat, n: nat, ops: seq<Op>, status: Status, first: nat, bytes: seq<Op> -> nat)
    requires Accounted(turns, writers, arrivals, last, first, bytes) && MayLead(writers, n, ops, bytes)
    ensures Accounted(turns + [Turn(writers[..n], last, ops, status)], writers[n..], arrivals, last + |ops|, first, bytes)
  {
    GroupIsHonest(writers, n, ops, bytes, last, status);
    AddTurn(turns, Turn(writers[..n], last, ops, status), first, bytes);
    Cut(Gone(turns), writers, n);
  }

  lemma DepartAlone(turns: seq<Turn>, writers: seq<Writer>, arrivals: seq<Writer>, last: nat, status: Status, first: nat, bytes: seq<Op> -> nat)
    requires Accounted(turns, writers, arrivals, last, first, bytes) && writers != [] && (status != OK || writers[0].batch == None)
    ensures Accounted(turns + [Turn([writers[0]], last, [], status)], writers[1..], arrivals, last, first, bytes)
  {
    assert writers[..1] == [writers[0]] && Joined([writers[0]]) == Joined([]) + OpsOf(writers[0]);
    AddTurn(turns, Turn([writers[0]], last, [], status), first, bytes);
    Cut(Gone(turns), writers, 1);
  }

  lemma AlsoTold(turns: seq<Turn>, t: Turn)
    requires Told(turns) && forall i :: 0 < i < |t.writers| ==> t.writers[i].done && t.writers[i].status == t.status
    ensures Told(turns + [t])
  {
  }

  lemma Cut<T>(a: seq<T>, b: seq<T>, n: nat)
    requires n <= |b|
    ensures a + b == a + b[..n] + b[n..]
  {
  }

  class Queue {
    const bytes: seq<Op> -> nat
    const first: nat
    var writers: seq<Writer>
    var lastSequence: nat
    /** What the leader holds while it is without the mutex: the size of its group, and its ops. */
    var leading: Option<(nat, seq<Op>)>
    /** Everyone who ever joined, in order, and where each of their threads is. */
    ghost var arrivals: seq<Writer>
    ghost var position: map<Writer, Position>
    ghost var turns: seq<Turn>

    ghost predicate Valid()
      reads this, writers, Seen(turns)
    {
      && Accounted(turns, writers, arrivals, lastSequence, first, bytes) && InQueue(writers) && Told(turns)
      && Leading(leading, writers, bytes)
      && Placed(position, writers)
      && (leading.Some? <==> writers != [] && position[writers[0]] == Unlocked)
    }

    constructor (bytes: seq<Op> -> nat, lastSequence: nat)
      ensures Valid() && writers == [] == arrivals && turns == [] && leading == None && position == map[] && this.lastSequence == lastSequence
    {
      this.bytes, this.first, this.lastSequence := bytes, lastSequence, lastSequence;
      writers, leading, arrivals, position, turns := [], None, [], map[], [];
    }

    /** A thread calls Write and waits. The front one may be away from the mutex meanwhile. */
    method Join(batch: Option<seq<Op>>, sync: bool) returns (w: Writer)
      requires Valid()
      modifies `writers, `arrivals, `position
      ensures Valid() && fresh(w) && w.batch == batch && w.sync == sync
      ensures writers == old(writers) + [w] && arrivals == old(arrivals) + [w] && position == old(position)[w := Waiting]
    {
      w := new Writer(batch, sync);
      StillLeading(leading, writers, w, bytes);
      AlsoArrived(turns, writers, arrivals, w, lastSequence, first, bytes);
      AlsoPlaced(position, writers, w);
      writers := writers + [w];
      arrivals := arrivals + [w];
      position := position[w := Waiting];
    }

    /** A thread wakes up with the mutex. It returns if it has been told that it is done, goes on if it is at
        the front, and waits again otherwise. */
    method Wake(w: Writer)
      requires Valid() && w in position && position[w] == Waiting
      modifies `position
      ensures Valid()
      ensures position == old(position)[w := if w.done then Left else if writers != [] && w == writers[0] then MakingRoom else Waiting]
      ensures forall v :: v in position && position[v].Busy() ==> writers != [] && v == writers[0]
    {
      ghost var to := Waiting;
      if w.done {
        to := Left;
      } else if writers != [] && w == writers[0] {
        to := MakingRoom;
      }
      MovesOn(position, writers, w, to);
      position := position[w := to];
    }

    /** A writer has made room, or failed to. It builds its group, with whoever has joined by now, or is done
        at once. */
    method Lead(w: Writer, room: Status)
      requires Valid() && w in position && position[w] == MakingRoom
      modifies `leading, `writers, `lastSequence, `turns, `position
      ensures Valid() && lastSequence == old(lastSequence) && old(writers) != [] && w == old(writers)[0] && old(leading) == None
      ensures room == OK && w.batch.Some? ==>
                leading.Some? && position == old(position)[w := Unlocked] && turns == old(turns) && writers == old(writers)
      ensures room != OK || w.batch == None ==>
                && leading == None && position == old(position)[w := Left] && writers == old(writers)[1..]
                && turns == old(turns) + [Turn([w], lastSequence, [], room)]
    {
      if room == OK && w.batch.Some? {
        var ops, n := BuildBatchGroup(writers, bytes);
        leading := Some((n, ops));
        MovesOn(position, writers, w, Unlocked);
        position := position[w := Unlocked];
      } else {
        LeaveAlone(w, room);
      }
    }

    method LeaveAlone(w: Writer, status: Status)
      requires Valid() && writers != [] && w == writers[0] && position[w] == MakingRoom && (status != OK || w.batch == None)
      modifies `writers, `leading, `lastSequence, `turns, `position
      ensures Valid() && writers == old(writers)[1..] && leading == None && lastSequence == old(lastSequence)
      ensures turns == old(turns) + [Turn([w], lastSequence, [], status)] && position == old(position)[w := Left]
    {
      DepartAlone(turns, writers, arrivals, lastSequence, status, first, bytes);
      QueueRest(writers);
      AlsoTold(turns, Turn([w], lastSequence, [], status));
      writers := writers[1..];
      Close(w, 0, Turn([w], lastSequence, [], status));
    }

    /** Back under the mutex: the sequence numbers are used up whatever the outcome, and the group
        leaves the queue. */
    method Finish(w: Writer, status: Status)
      requires Valid() && w in position && position[w] == Unlocked
      modifies this, writers
      ensures Valid() && old(writers) != [] && w == old(writers)[0] && old(leading).Some?
      ensures leading == None && arrivals == old(arrivals) && position == old(position)[w := Left]
      ensures lastSequence == old(lastSequence) + |old(leading).value.1|
      ensures var (n, ops) := old(leading).value;
        writers == old(writers)[n..] && turns == old(turns) + [Turn(old(writers)[..n], old(lastSequence), ops, status)]
    {
      var (n, ops) := leading.value;
      ghost var t := Turn(writers[..n], lastSequence, ops, status);
      Depart(turns, writers, arrivals, lastSequence, n, ops, status, first, bytes);
      Release(n, t, status);
      Close(w, |ops|, t);
    }

    /** Pops the group and tells each of its writers but the leader. */
    method Release(n: nat, ghost t: Turn, status: Status)
      requires 0 < n <= |writers| && InQueue(writers) && Told(turns)
      requires t.writers == writers[..n] && t.status == status
      modifies `writers, writers
      ensures writers == old(writers)[n..] && InQueue(writers) && Told(turns + [t])
    {
      ghost var queue := writers;
      var leader, k := writers[0], 0;
      while k < n
        invariant 0 <= k <= n && writers == queue[k..]
        invariant forall i :: 0 < i < k ==> queue[i].done && queue[i].status == status
        invariant forall i :: k <= i < |queue| ==> !queue[i].done
        invariant Told(turns)
      {
        var ready := writers[0];
        writers := writers[1..];
        if ready != leader {
          ready.status := status;
          ready.done := true;
        }
        k := k + 1;
      }
      AlsoTold(turns, t);
    }

    /** The turn of w, which was the front of the queue, is over. */
    method Close(w: Writer, used: nat, ghost t: Turn)
      requires Accounted(turns + [t], writers, arrivals, lastSequence + used, first, bytes)
      requires InQueue(writers) && Told(turns + [t]) && w !in writers
      requires Placed(position, [w] + writers)
      modifies `lastSequence, `leading, `turns, `position
      ensures Valid() && position == old(position)[w := Left] && leading == None
      ensures lastSequence == old(lastSequence) + used && turns == old(turns) + [t]
    {
      lastSequence := lastSequence + used;
      leading := None;
      turns := turns + [t];
      FrontGoes(position, writers, w);
      position := position[w := Left];
    }
  }

  /** When nothing fails, the ops of all turns are exactly the batches of all writers that have
      left, in the order in which the writers came: each batch once, none missing. */
  lemma {:induction false} AppliedOnceInOrder(turns: seq<Turn>, first: nat, bytes: seq<Op> -> nat)
    requires TurnsOk(turns, first, bytes) && forall t :: t in turns ==> t.status == OK
    ensures Stream(turns) == Joined(Gone(turns))
    ensures NextBase(turns, first) == first + |Stream(turns)|
  {
    if turns != [] {
      var before, t := turns[..|turns| - 1], turns[|turns| - 1];
      AppliedOnceInOrder(before, first, bytes);
      JoinedSplit(Gone(before), t.writers);
      assert Honest(t, bytes);
    }
  }

  /** The sequence numbers of different turns never overlap, and those of a turn are in one piece. */
  lemma {:induction false} TurnsAreDisjoint(turns: seq<Turn>, first: nat, j: nat, k: nat)
    requires Contiguous(turns, first) && j < k < |turns|
    ensures turns[j].base + |turns[j].ops| <= turns[k].base
  {
    if j < k - 1 {
      TurnsAreDisjoint(turns, first, j, k - 1);
    }
  }

  /** The batch of writer i of a turn has its own stretch of the turn's ops. */
  lemma BatchIsWhole(t: Turn, i: nat)
    requires t.ops == Joined(t.writers) && i < |t.writers|
    ensures var start := |Joined(t.writers[..i])|;
      && start + |OpsOf(t.writers[i])| == |Joined(t.writers[..i + 1])| <= |t.ops|
      && t.ops[start..start + |OpsOf(t.writers[i])|] == OpsOf(t.writers[i])
  {
    assert t.writers == t.writers[..i + 1] + t.writers[i + 1..];
    JoinedSplit(t.writers[..i + 1], t.writers[i + 1..]);
    assert t.writers[..i + 1][..i] == t.writers[..i];
  }
}

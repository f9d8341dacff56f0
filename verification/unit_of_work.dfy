/** One unit of background work as a transition relation: the background thread's own steps, and those that
    other threads take while it is away from the mutex. */
module UnitOfWork {
  import opened Options

  /** The flags that a unit of work looks at. A request is a number; those in done have been told so. */
  datatype Flags = Flags(bgError: bool, shuttingDown: bool, imm: bool, manual: Option<nat>, requests: nat, done: set<nat>)

  /** One critical section of another thread, if it touches the flags. */
  ghost predicate Other(f: Flags, g: Flags) {
    || SyncFails(f, g) || ShutsDown(f, g) || Switches(f, g) || Requests(f, g) || Withdraws(f, g)
  }

  /** A writer's sync of the log failed. */
  ghost predicate SyncFails(f: Flags, g: Flags) {
    g == f.(bgError := true)
  }

  ghost predicate ShutsDown(f: Flags, g: Flags) {
    g == f.(shuttingDown := true)
  }

  ghost predicate Switches(f: Flags, g: Flags) {
    !f.imm && !f.bgError && g == f.(imm := true)
  }

  ghost predicate Requests(f: Flags, g: Flags) {
    f.manual == None && !f.bgError && !f.shuttingDown && g == f.(manual := Some(f.requests), requests := f.requests + 1)
  }

  /** A requester stops waiting and takes back what is still its request. */
  ghost predicate Withdraws(f: Flags, g: Flags) {
    && f.manual.Some? && (f.bgError || f.shuttingDown || f.manual.value in f.done)
    && g == f.(manual := None)
  }

  /** Any number of those. */
  ghost predicate OthersIn(f: Flags, g: Flags, n: nat)
    decreases n
  {
    if n == 0 then f == g else exists h :: Other(f, h) && OthersIn(h, g, n - 1)
  }

  ghost predicate Others(f: Flags, g: Flags) {
    exists n :: OthersIn(f, g, n)
  }

  lemma NoOthers(f: Flags)
    ensures Others(f, f)
  {
    assert OthersIn(f, f, 0);
  }

  lemma OtherFirst(f: Flags, g: Flags, h: Flags, n: nat)
    requires Other(f, g) && OthersIn(g, h, n)
    ensures OthersIn(f, h, n + 1)
  {
    assert n + 1 - 1 == n;
  }

  lemma {:induction false} OneMoreOther(f: Flags, g: Flags, h: Flags, n: nat)
    requires OthersIn(f, g, n) && Other(g, h)
    ensures OthersIn(f, h, n + 1) && Others(f, h)
    decreases n
  {
    if n == 0 {
      OtherFirst(f, h, h, 0);
    } else {
      var k :| Other(f, k) && OthersIn(k, g, n - 1);
      OneMoreOther(k, g, h, n - 1);
      OtherFirst(f, k, h, n);
    }
  }

  lemma AndOther(f: Flags, g: Flags, h: Flags)
    requires Others(f, g) && Other(g, h)
    ensures Others(f, h)
  {
    var n :| OthersIn(f, g, n);
    OneMoreOther(f, g, h, n);
  }

  lemma {:induction false} MoreOthers(f: Flags, g: Flags, h: Flags, n: nat)
    requires Others(f, g) && OthersIn(g, h, n)
    ensures Others(f, h)
    decreases n
  {
    if n > 0 {
      var k :| Other(g, k) && OthersIn(k, h, n - 1);
      AndOther(f, g, k);
      MoreOthers(f, k, h, n - 1);
    }
  }

  lemma OthersOn(f: Flags, g: Flags, h: Flags)
    requires Others(f, g) && Others(g, h)
    ensures Others(f, h)
  {
    var n :| OthersIn(g, h, n);
    MoreOthers(f, g, h, n);
  }

  lemma {:induction false} SameDoneIn(f: Flags, g: Flags, n: nat)
    requires OthersIn(f, g, n)
    ensures f.done == g.done
    decreases n
  {
    if n > 0 {
      var h :| Other(f, h) && OthersIn(h, g, n - 1);
      SameDoneIn(h, g, n - 1);
    }
  }

  lemma SameDone(f: Flags, g: Flags)
    requires Others(f, g)
    ensures f.done == g.done
  {
    var n :| OthersIn(f, g, n);
    SameDoneIn(f, g, n);
  }

  /** How far the unit has come. NullPointer is what it follows at its end if its request is gone. */
  datatype Phase = Begun | Flushing | Working(request: Option<nat>) | Over | NullPointer

  datatype State = State(phase: Phase, flags: Flags)

  /** A step of the background thread; found says whether there is something to compact, for the request
      if there is one. */
  ghost predicate Own(found: bool, s: State, t: State) {
    var f := s.flags;
    match s.phase
    case Begun =>
      if f.imm then t == s.(phase := Flushing)
      else if found then t == s.(phase := Working(f.manual))
      else if f.manual.Some? then t == State(Over, f.(manual := None, done := f.done + {f.manual.value}))
      else t == s.(phase := Over)
    case Flushing => t == State(Over, f.(imm := false)) || t == State(Over, f.(bgError := true))
    case Working(request) =>
      || (f.imm && (t == s.(flags := f.(imm := false)) || t == s.(flags := f.(bgError := true))))
      || exists ok: bool :: t == Finished(request, f, ok)
    case Over => false
    case NullPointer => false
  }

  /** The end of a compaction: a request is looked up again. */
  ghost function Finished(request: Option<nat>, f: Flags, ok: bool): State {
    var g := if ok then f else f.(bgError := true);
    if request == None then State(Over, g)
    else if g.manual == None then State(NullPointer, g)
    else State(Over, g.(manual := None, done := if ok then g.done else g.done + {g.manual.value}))
  }

  ghost predicate Away(p: Phase) {
    p.Flushing? || p.Working?
  }

  ghost predicate Step(found: bool, s: State, t: State) {
    Own(found, s, t) || (Away(s.phase) && t.phase == s.phase && Other(s.flags, t.flags))
  }

  ghost predicate LeadsIn(found: bool, s: State, t: State, n: nat)
    decreases n
  {
    if n == 0 then s == t else exists u :: Step(found, s, u) && LeadsIn(found, u, t, n - 1)
  }

  /** Some schedule leads from s to t. */
  ghost predicate Leads(found: bool, s: State, t: State) {
    exists n :: LeadsIn(found, s, t, n)
  }

  lemma Stays(found: bool, s: State)
    ensures Leads(found, s, s)
  {
    assert LeadsIn(found, s, s, 0);
  }

  lemma {:induction false} OneMoreStep(found: bool, s: State, t: State, u: State, n: nat)
    requires LeadsIn(found, s, t, n) && Step(found, t, u)
    ensures LeadsIn(found, s, u, n + 1)
    decreases n
  {
    if n == 0 {
      assert Step(found, s, u) && LeadsIn(found, u, u, 0);
    } else {
      var v :| Step(found, s, v) && LeadsIn(found, v, t, n - 1);
      OneMoreStep(found, v, t, u, n - 1);
    }
  }

  lemma LeadsOn(found: bool, s: State, t: State, u: State)
    requires Leads(found, s, t) && Step(found, t, u)
    ensures Leads(found, s, u)
  {
    var n :| LeadsIn(found, s, t, n);
    OneMoreStep(found, s, t, u, n);
  }

  lemma {:induction false} LeadsOverIn(found: bool, s: State, p: Phase, f: Flags, g: Flags, n: nat)
    requires Leads(found, s, State(p, f)) && Away(p) && OthersIn(f, g, n)
    ensures Leads(found, s, State(p, g))
    decreases n
  {
    if n > 0 {
      var h :| Other(f, h) && OthersIn(h, g, n - 1);
      LeadsOn(found, s, State(p, f), State(p, h));
      LeadsOverIn(found, s, p, h, g, n - 1);
    }
  }

  lemma LeadsOver(found: bool, s: State, p: Phase, f: Flags, g: Flags)
    requires Leads(found, s, State(p, f)) && Away(p) && Others(f, g)
    ensures Leads(found, s, State(p, g))
  {
    var n :| OthersIn(f, g, n);
    LeadsOverIn(found, s, p, f, g, n);
  }

  lemma {:induction false} LeadsAllIn(found: bool, s: State, t: State, u: State, n: nat)
    requires Leads(found, s, t) && LeadsIn(found, t, u, n)
    ensures Leads(found, s, u)
    decreases n
  {
    if n > 0 {
      var v :| Step(found, t, v) && LeadsIn(found, v, u, n - 1);
      LeadsOn(found, s, t, v);
      LeadsAllIn(found, s, v, u, n - 1);
    }
  }

  lemma LeadsAll(found: bool, s: State, t: State, u: State)
    requires Leads(found, s, t) && Leads(found, t, u)
    ensures Leads(found, s, u)
  {
    var n :| LeadsIn(found, t, u, n);
    LeadsAllIn(found, s, t, u, n);
  }

  /** No schedule leads from s to the null pointer. */
  ghost predicate Survived(found: bool, s: State) {
    forall t :: Leads(found, s, t) ==> t.phase != NullPointer
  }

  // ---------- Exactly when every schedule is survived ----------

  /** Nothing will be looked up at the end. */
  ghost predicate Safe(found: bool, s: State) {
    match s.phase
    case Begun => s.flags.imm || s.flags.manual == None || !found
    case Flushing => true
    case Working(request) => request == None
    case Over => true
    case NullPointer => false
  }

  lemma {:induction false} StaysSafe(found: bool, s: State, t: State, n: nat)
    requires Safe(found, s) && LeadsIn(found, s, t, n)
    ensures Safe(found, t)
    decreases n
  {
    if n > 0 {
      var u :| Step(found, s, u) && LeadsIn(found, u, t, n - 1);
      StaysSafe(found, u, t, n - 1);
    }
  }

  /** The schedule on which a request is lost: the unit starts to compact for it, a writer's sync of the log
      fails, the requester sees the error and takes its request back, the compaction succeeds. */
  lemma LosesRequest(s: State)
    requires s.phase == Begun && !s.flags.imm && s.flags.manual.Some?
    ensures Leads(true, s, State(NullPointer, s.flags.(bgError := true, manual := None)))
  {
    var f := s.flags;
    var working := Working(f.manual);
    var failed := f.(bgError := true);
    var gone := failed.(manual := None);
    assert Finished(f.manual, gone, true) == State(NullPointer, gone);
    Stays(true, s);
    LeadsOn(true, s, s, State(working, f));
    LeadsOn(true, s, State(working, f), State(working, failed));
    LeadsOn(true, s, State(working, failed), State(working, gone));
    LeadsOn(true, s, State(working, gone), State(NullPointer, gone));
  }

  /** A unit of work survives every schedule if and only if there is a memtable to flush, or no request, or
      nothing to compact for it. */
  lemma SurvivedExactly(found: bool, s: State)
    requires s.phase == Begun
    ensures Survived(found, s) <==> s.flags.imm || s.flags.manual == None || !found
  {
    if s.flags.imm || s.flags.manual == None || !found {
      forall t | Leads(found, s, t) ensures t.phase != NullPointer {
        var n :| LeadsIn(found, s, t, n);
        StaysSafe(found, s, t, n);
      }
    } else {
      LosesRequest(s);
    }
  }

  // ---------- What the schedules keep ----------

  /** What holds of the flags and the request in hand: a request is not current any more once it has been
      told that it is done, one in hand is current until an error or a shutdown, and there is no null pointer
      before that. */
  ghost predicate Orderly(s: State) {
    var f := s.flags;
    && (forall r :: r in f.done ==> r < f.requests)
    && (f.manual.Some? ==> f.manual.value < f.requests && f.manual.value !in f.done)
    && (s.phase.Working? && s.phase.request.Some? ==>
          f.manual == s.phase.request || (f.manual == None && (f.bgError || f.shuttingDown)))
    && (s.phase.NullPointer? ==> f.bgError || f.shuttingDown)
  }

  /** The request that the unit may yet tell that it is done. */
  ghost function InHand(s: State): set<nat> {
    var request := if s.phase.Working? then s.phase.request else if s.phase.Begun? && !s.flags.imm then s.flags.manual else None;
    if request.Some? then {request.value} else {}
  }

  lemma StepOrderly(found: bool, s: State, t: State)
    requires Orderly(s) && Step(found, s, t)
    ensures Orderly(t) && s.flags.done <= t.flags.done
    ensures t.flags.done + InHand(t) <= s.flags.done + InHand(s)
  {
  }

  /** Whatever the schedule, the null pointer needs an error on record or a shutdown, and no request is told
      that it is done but the one that the unit found. */
  lemma {:induction false} ScheduleOrderly(found: bool, s: State, t: State, n: nat)
    requires Orderly(s) && LeadsIn(found, s, t, n)
    ensures Orderly(t) && s.flags.done <= t.flags.done <= s.flags.done + InHand(s)
    decreases n
  {
    if n > 0 {
      var u :| Step(found, s, u) && LeadsIn(found, u, t, n - 1);
      StepOrderly(found, s, u);
      ScheduleOrderly(found, u, t, n - 1);
    }
  }

  lemma {:induction false} WorkKeepsIn(found: bool, s: State, t: State, n: nat)
    requires LeadsIn(found, s, t, n) && s.phase.Working? && t.phase == s.phase
    ensures t.flags.done == s.flags.done
    decreases n
  {
    if n > 0 {
      var u :| Step(found, s, u) && LeadsIn(found, u, t, n - 1);
      if u.phase == s.phase {
        WorkKeepsIn(found, u, t, n - 1);
      } else {
        StaysOver(found, u, t, n - 1);
      }
    }
  }

  lemma StaysOver(found: bool, s: State, t: State, n: nat)
    requires LeadsIn(found, s, t, n) && (s.phase.Over? || s.phase.NullPointer?)
    ensures t == s
  {
  }

  /** While a compaction goes on, nobody is told anything, and its request is there or was taken back. */
  lemma WorkKeeps(found: bool, s: State, t: State)
    requires Orderly(s) && Leads(found, s, t) && s.phase.Working? && t.phase == s.phase
    ensures Orderly(t) && t.flags.done == s.flags.done
  {
    var n :| LeadsIn(found, s, t, n);
    ScheduleOrderly(found, s, t, n);
    WorkKeepsIn(found, s, t, n);
  }
}

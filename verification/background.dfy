/** The scheduling of background work: who sets which flag under the mutex, who waits for what,
    and what holds whenever the mutex is free. */
module Background {
  import opened Options
  import opened UnitOfWork

  const L0_COMPACTION_TRIGGER := 4
  const L0_SLOWDOWN_WRITES_TRIGGER := 8
  const L0_STOP_WRITES_TRIGGER := 12

  class DBImpl {
    /** Whether I/O may fail. */
    const faulty: bool
    var shuttingDown: bool
    var bgError: bool
    /** Memtables in the order in which they were made. */
    var mem: nat
    var imm: Option<nat>
    /** How many memtables have been written out. */
    ghost var flushed: nat
    /** mem_ is larger than write_buffer_size. */
    var memFull: bool
    /** manual_compaction_: the request of a thread in TEST_CompactRange, by number. */
    var manual: Option<nat>
    /** The requests that have been told that they are done. */
    var done: set<nat>
    var requests: nat
    /** background_compaction_scheduled_ */
    var scheduled: bool
    /** Calls handed to the background thread that have not ended. */
    ghost var calls: nat
    var level0Files: nat
    /** How many level-0 tables there were at each switch of the memtable. */
    ghost var switches: seq<nat>
    /** Another level, or a table that is read too often, asks for a compaction. */
    var otherNeed: bool

    /** versions_->NeedsCompaction(): a level-0 score of files / trigger counts from 1 on. */
    predicate NeedsCompaction()
      reads this
    {
      level0Files >= L0_COMPACTION_TRIGGER || otherNeed
    }

    predicate HasWork()
      reads this
    {
      imm != None || manual.Some? || NeedsCompaction()
    }

    /** No memtable was lost: each has been flushed, or is imm_, or is mem_. */
    ghost predicate NoneLost()
      reads this
    {
      (imm == None ==> mem == flushed) && (imm.Some? ==> imm.value == flushed && mem == flushed + 1)
    }

    /** What a unit of background work looks at. */
    ghost function Now(): Flags
      reads this
    {
      Flags(bgError, shuttingDown, imm.Some?, manual, requests, done)
    }

    /** What holds whenever the mutex is free. */
    ghost predicate Settled()
      reads this
    {
      && NoneLost() && calls == (if scheduled then 1 else 0) && Orderly(State(Flushing, Now()))
      && Paced(switches, mem)
      && (HasWork() && !bgError && !shuttingDown ==> scheduled)
    }

    constructor (faulty: bool)
      ensures Settled() && !scheduled && mem == 0 && this.faulty == faulty
    {
      this.faulty := faulty;
      shuttingDown, bgError, mem, imm, flushed, memFull := false, false, 0, None, 0, false;
      manual, done, requests := None, {}, 0;
      scheduled, calls, level0Files, otherNeed, switches := false, 0, 0, false, [];
    }

    /** How an operation that may fail turns out. */
    method Outcome() returns (ok: bool)
      ensures ok || faulty
    {
      ok := *;
      ok := ok || !faulty;
    }

    method RecordBackgroundError()
      modifies `bgError
      ensures bgError
    {
      if !bgError {
        bgError := true;
      }
    }

    /** Hands one call to the background thread if there is work and none is under way. */
    method MaybeScheduleCompaction()
      requires NoneLost() && calls == (if scheduled then 1 else 0) && Orderly(State(Flushing, Now())) && Paced(switches, mem)
      modifies `scheduled, `calls
      ensures Settled() && (scheduled <==> old(scheduled) || (HasWork() && !bgError && !shuttingDown))
    {
      if scheduled {
      } else if shuttingDown {
      } else if bgError {
      } else if imm == None && manual == None && !NeedsCompaction() {
      } else {
        scheduled := true;
        calls := calls + 1;
      }
    }

    // ---------- Other threads ----------

    /** What threads other than the background one may do while it is away from the mutex. Only the
        front writer switches memtables, so while it waits itself, nobody does. */
    twostate predicate OthersMoved(mayWrite: bool)
      reads this
    {
      && (old(scheduled) ==> scheduled) && flushed == old(flushed) && (old(imm).Some? ==> imm == old(imm))
      && (old(bgError) ==> bgError) && (old(shuttingDown) ==> shuttingDown)
      && level0Files == old(level0Files)
      && (!mayWrite ==> mem == old(mem) && memFull == old(memFull) && imm == old(imm))
      && Others(old(Now()), Now())
    }

    /** Any number of steps of other threads, each with the mutex from start to end. */
    method OtherThreads(mayWrite: bool)
      requires Settled()
      modifies this
      ensures Settled() && OthersMoved(mayWrite)
    {
      NoOthers(Now());
      var more: bool := *;
      var left: nat := *;
      while more && left > 0
        invariant Settled() && OthersMoved(mayWrite)
      {
        ghost var before := Now();
        OneOther(mayWrite);
        OthersOn(old(Now()), before, Now());
        more := *;
        left := left - 1;
      }
    }

    method OneOther(mayWrite: bool)
      requires Settled()
      modifies this
      ensures Settled() && OthersMoved(mayWrite)
    {
      var what: nat := *;
      if mayWrite && what == 0 {
        OneWriter();
      } else if what == 1 {
        // A Get or an iterator finds a table that is read too often.
        otherNeed := true;
        MaybeScheduleCompaction();
      } else if what == 2 {
        shuttingDown := true;
      } else if what == 3 && !shuttingDown && !bgError && manual == None {
        // TEST_CompactRange puts its request in.
        manual := Some(requests);
        requests := requests + 1;
        MaybeScheduleCompaction();
      } else if what == 4 && manual.Some? && (shuttingDown || bgError || manual.value in done) {
        // TEST_CompactRange stops waiting and takes its request back.
        manual := None;
      }
      OneStep(old(Now()), Now());
    }

    /** The front writer, when it is another thread. */
    method OneWriter()
      requires Settled()
      modifies `mem, `imm, `memFull, `scheduled, `calls, `switches, `bgError
      ensures Settled() && (old(scheduled) ==> scheduled) && (old(bgError) ==> bgError) && (old(imm).Some? ==> imm == old(imm))
      ensures Now() == old(Now()) || Other(old(Now()), Now())
    {
      var what: nat := *;
      if what == 0 && imm == None && !bgError && level0Files < L0_STOP_WRITES_TRIGGER {
        SwitchMemTable();
      } else if what == 1 {
        memFull := true;
      } else if what == 2 {
        // A sync of the log failed.
        RecordBackgroundError();
      }
    }

    // ---------- The background thread ----------

    /** imm_ becomes a table, or an error is on record. */
    method CompactMemTable(mayWrite: bool) returns (ghost last: Flags)
      requires Settled() && scheduled && imm.Some?
      modifies this
      ensures Settled() && scheduled && Others(old(Now()), last) && last.imm
      ensures Now() == if flushed == old(flushed) then last.(bgError := true) else last.(imm := false)
      ensures (flushed == old(flushed) + 1 && imm == None) || (bgError && flushed == old(flushed) && imm == old(imm))
      ensures flushed == old(flushed) + 1 || faulty || shuttingDown
      ensures !mayWrite ==> mem == old(mem) && memFull == old(memFull)
    {
      // WriteLevel0Table and LogAndApply let go of the mutex.
      OtherThreads(mayWrite);
      ghost var mid := Now();
      var ok := Outcome();
      if ok && shuttingDown {
        ok := false;
      }
      if ok {
        OtherThreads(mayWrite);
        OthersOn(old(Now()), mid, Now());
        ok := Outcome();
      }
      last := Now();
      EndFlush(ok);
    }

    /** The end of CompactMemTable */
    method EndFlush(ok: bool)
      requires Settled() && scheduled && imm.Some?
      modifies `imm, `flushed, `level0Files, `otherNeed, `bgError
      ensures Settled() && Now() == if ok then old(Now()).(imm := false) else old(Now()).(bgError := true)
      ensures if ok then imm == None && flushed == old(flushed) + 1 else bgError && imm == old(imm) && flushed == old(flushed)
    {
      if ok {
        imm := None;
        flushed := flushed + 1;
        var level: nat := *;
        if level == 0 {
          level0Files := level0Files + 1;
        }
        otherNeed := *;
      } else {
        RecordBackgroundError();
      }
    }

    /** A compaction of tables that lets go of the mutex many times, and flushes imm_ whenever it
        finds one. */
    method DoCompactionWork(mayWrite: bool, ghost found: bool, ghost start: State) returns (ok: bool, ghost last: Flags)
      requires Settled() && scheduled && start.phase.Working? && start.flags == Now()
      modifies this
      ensures Settled() && scheduled && Leads(found, start, start.(flags := last))
      ensures Now() == if ok then last else last.(bgError := true)
      ensures ok || faulty || shuttingDown
      ensures !mayWrite ==> mem == old(mem) && memFull == old(memFull)
    {
      Stays(found, start);
      var left: nat := *;
      while left > 0 && !shuttingDown
        invariant !mayWrite ==> mem == old(mem) && memFull == old(memFull)
        invariant Settled() && scheduled && Leads(found, start, start.(flags := Now()))
      {
        OthersDuring(mayWrite, found, start);
        if imm != None {
          FlushDuring(mayWrite, found, start);
        }
        left := left - 1;
      }
      ok, last := EndCompactionWork(mayWrite, found, start);
    }

    /** Installs the results, unless something failed or the database shuts down. */
    method EndCompactionWork(mayWrite: bool, ghost found: bool, ghost start: State) returns (ok: bool, ghost last: Flags)
      requires Settled() && scheduled && start.phase.Working? && Leads(found, start, start.(flags := Now()))
      modifies this
      ensures Settled() && scheduled && Leads(found, start, start.(flags := last))
      ensures Now() == if ok then last else last.(bgError := true)
      ensures ok || faulty || shuttingDown
      ensures !mayWrite ==> mem == old(mem) && memFull == old(memFull)
    {
      ok := Outcome();
      ok := ok && !shuttingDown;
      if ok {
        OthersDuring(mayWrite, found, start);
        ok := Outcome();
      }
      last := Now();
      if ok {
        level0Files := *;
        otherNeed := *;
      } else {
        RecordBackgroundError();
      }
    }

    method OthersDuring(mayWrite: bool, ghost found: bool, ghost start: State)
      requires Settled() && scheduled && start.phase.Working? && Leads(found, start, start.(flags := Now()))
      modifies this
      ensures Settled() && scheduled && Leads(found, start, start.(flags := Now()))
      ensures !mayWrite ==> mem == old(mem) && memFull == old(memFull)
    {
      OtherThreads(mayWrite);
      LeadsOver(found, start, start.phase, old(Now()), Now());
    }

    method FlushDuring(mayWrite: bool, ghost found: bool, ghost start: State)
      requires Settled() && scheduled && imm.Some? && start.phase.Working? && Leads(found, start, start.(flags := Now()))
      modifies this
      ensures Settled() && scheduled && Leads(found, start, start.(flags := Now()))
      ensures !mayWrite ==> mem == old(mem) && memFull == old(memFull)
    {
      ghost var last := CompactMemTable(mayWrite);
      LeadsOver(found, start, start.phase, old(Now()), last);
      LeadsOn(found, start, start.(flags := last), start.(flags := Now()));
    }

    /** One unit of background work. It finds something to compact or not, and goes well or not. A manual
        request is looked up again at the end; intact says that it was still there. */
    method BackgroundCompaction(mayWrite: bool) returns (intact: bool, found: bool, ok: bool)
      requires Settled() && scheduled && !shuttingDown && !bgError
      modifies this
      ensures Settled() && scheduled
      ensures Leads(found, State(Begun, old(Now())), State(if intact then Over else NullPointer, Now()))
      ensures old(imm).Some? || old(manual) == None || !found ==> intact
      ensures intact || bgError || shuttingDown
      ensures old(imm).Some? ==> flushed == old(flushed) + 1 || (bgError && (faulty || shuttingDown))
      ensures old(imm) == None && old(manual).Some? ==> manual == None
      ensures done == if old(imm) == None && old(manual).Some? && (!found || (intact && !ok)) then old(done) + {old(manual).value} else old(done)
      ensures !mayWrite ==> mem == old(mem) && memFull == old(memFull)
    {
      intact, ok := true, true;
      found := *;
      if imm != None {
        FlushAlone(mayWrite, found);
        return;
      }
      var isManual := manual.Some?;
      if isManual && !found {
        done := done + {manual.value};
      }
      ghost var last := Now();
      if found {
        ok, last := CompactFound(mayWrite, isManual);
      }
      if isManual {
        if manual == None {
          // The caller gave up meanwhile; the program dereferences a null pointer here.
          intact := false;
          Ends(old(Now()), last, ok);
          return;
        }
        if !ok {
          done := done + {manual.value};
        }
        manual := None;
      }
      if found {
        Ends(old(Now()), last, ok);
      } else {
        NothingFound(old(Now()));
      }
    }

    /** What has been found is moved or compacted. */
    method CompactFound(mayWrite: bool, isManual: bool) returns (ok: bool, ghost last: Flags)
      requires Settled() && scheduled && imm == None && isManual == manual.Some?
      modifies this
      ensures Settled() && scheduled && (ok || faulty || shuttingDown)
      ensures Worked(old(Now()), last) && Now() == if ok then last else last.(bgError := true)
      ensures !mayWrite ==> mem == old(mem) && memFull == old(memFull)
    {
      ghost var working := State(Working(manual), Now());
      var trivial: bool := *;
      if !isManual && trivial {
        OtherThreads(mayWrite);
        last := Now();
        Stays(true, working);
        LeadsOver(true, working, working.phase, working.flags, last);
        ok := Outcome();
        if ok {
          level0Files := *;
          otherNeed := *;
        } else {
          RecordBackgroundError();
        }
      } else {
        ok, last := DoCompactionWork(mayWrite, true, working);
      }
      HasWorked(working, last);
    }

    method FlushAlone(mayWrite: bool, ghost found: bool)
      requires Settled() && scheduled && imm.Some?
      modifies this
      ensures Settled() && scheduled && Leads(found, State(Begun, old(Now())), State(Over, Now())) && done == old(done)
      ensures flushed == old(flushed) + 1 || (bgError && (faulty || shuttingDown))
      ensures !mayWrite ==> mem == old(mem) && memFull == old(memFull)
    {
      ghost var begun, flushing := State(Begun, Now()), State(Flushing, Now());
      ghost var last := CompactMemTable(mayWrite);
      Stays(found, begun);
      LeadsOn(found, begun, begun, flushing);
      LeadsOver(found, begun, Flushing, begun.flags, last);
      LeadsOn(found, begun, State(Flushing, last), State(Over, Now()));
      SameDone(begun.flags, last);
    }

    /** The whole call: when it ends, whatever is left to do has been handed on. */
    method BackgroundCall(mayWrite: bool) returns (intact: bool)
      requires Settled() && scheduled
      modifies this
      ensures intact ==> Settled()
      ensures intact || bgError || shuttingDown
      ensures old(bgError) || old(shuttingDown) || old(imm).Some? || old(manual) == None ==> intact
      ensures !old(bgError) && !old(shuttingDown) && old(imm).Some? ==>
                (flushed == old(flushed) + 1 || (bgError && (faulty || shuttingDown)))
      ensures !mayWrite ==> mem == old(mem) && memFull == old(memFull)
    {
      intact := true;
      if shuttingDown {
      } else if bgError {
      } else {
        var found, ok;
        intact, found, ok := BackgroundCompaction(mayWrite);
        if !intact {
          return;
        }
      }
      scheduled := false;
      calls := calls - 1;
      MaybeScheduleCompaction();
    }

    // ---------- MakeRoomForWrite ----------

    /** The last branch of MakeRoomForWrite, once the new log is open. */
    method SwitchMemTable()
      requires Settled() && imm == None && level0Files < L0_STOP_WRITES_TRIGGER
      modifies `mem, `imm, `memFull, `scheduled, `calls, `switches
      ensures Settled() && imm == Some(old(mem)) && mem == old(mem) + 1 && !memFull
      ensures switches == old(switches) + [level0Files]
      ensures old(scheduled) ==> scheduled
    {
      OneMoreSwitch(switches, mem, level0Files);
      switches := switches + [level0Files];
      imm := Some(mem);
      mem := mem + 1;
      memFull := false;
      MaybeScheduleCompaction();
    }

    /** background_work_finished_signal_.Wait() in the front writer. It is not called in vain: unless
        the database shuts down, a background call is on its way that will signal. */
    method Wait() returns (alive: bool)
      requires Settled() && (scheduled || shuttingDown)
      modifies this
      ensures alive ==> Settled()
      ensures alive || bgError || shuttingDown
      ensures mem == old(mem) && memFull == old(memFull)
    {
      alive := true;
      OtherThreads(false);
      var called: bool := *;
      if scheduled && called {
        alive := BackgroundCall(false);
        if alive {
          OtherThreads(false);
        }
      }
    }

    /** There is nothing for a writer to wait for. */
    predicate Unhindered(force: bool)
      reads this
    {
      !bgError && !faulty && level0Files < L0_SLOWDOWN_WRITES_TRIGGER && (imm == None || (!force && !memFull))
    }

    /** Waits for room. On success there is room, and the memtable has been switched once if that was
        asked for or it was full, and not otherwise; and never while there were too many level-0 tables. */
    method MakeRoomForWrite(force: bool, patience: nat) returns (outcome: Outcome)
      requires Settled()
      modifies this
      ensures outcome.OK? || outcome.Failed? || outcome.StillWaiting? ==> Settled()
      ensures outcome == OK ==> !bgError && !memFull && mem == old(mem) + if force || old(memFull) then 1 else 0
      ensures outcome == OK ==> |switches| == mem && forall i :: old(mem) <= i < mem ==> switches[i] < L0_STOP_WRITES_TRIGGER
      ensures outcome == Crashed ==> bgError || shuttingDown
      ensures outcome == Failed ==> bgError || faulty
      ensures old(Unhindered(force)) && patience >= 2 ==> outcome == OK
    {
      var mustSwitch := force;
      var allowDelay := !force;
      var left := patience;
      while left > 0
        invariant Settled() && mem == old(mem) + (if (force || old(memFull)) && !(mustSwitch || memFull) then 1 else 0)
        invariant mustSwitch || memFull ==> force || old(memFull)
        invariant mustSwitch ==> force && memFull == old(memFull)
        invariant mem == old(mem) ==> memFull == old(memFull) && mustSwitch == force
        invariant left == patience ==> bgError == old(bgError) && level0Files == old(level0Files) && imm == old(imm) && mem == old(mem)
        invariant old(Unhindered(force)) ==>
                    left == patience || (left == patience - 1 && !bgError && level0Files == old(level0Files) && !mustSwitch && !memFull)
      {
        left := left - 1;
        if bgError {
          return Failed;
        } else if allowDelay && level0Files >= L0_SLOWDOWN_WRITES_TRIGGER {
          // The writer sleeps for a millisecond without the mutex.
          OtherThreads(false);
          allowDelay := false;
        } else if !mustSwitch && !memFull {
          return OK;
        } else if imm != None {
          var alive := Wait();
          if !alive {
            return Crashed;
          }
        } else if level0Files >= L0_STOP_WRITES_TRIGGER {
          var alive := Wait();
          if !alive {
            return Crashed;
          }
        } else {
          var logOpen := Outcome();
          if !logOpen {
            return Failed;
          }
          SwitchMemTable();
          mustSwitch := false;
        }
      }
      outcome := StillWaiting;
    }
  }

  /** No memtable was switched while there were too many level-0 tables. */
  ghost predicate Paced(switches: seq<nat>, mem: nat) {
    |switches| == mem && forall i :: 0 <= i < mem ==> switches[i] < L0_STOP_WRITES_TRIGGER
  }

  lemma OneStep(f: Flags, g: Flags)
    requires f == g || Other(f, g)
    ensures Others(f, g)
  {
    NoOthers(f);
    if f != g {
      AndOther(f, f, g);
    }
  }

  lemma OneMoreSwitch(switches: seq<nat>, mem: nat, level0Files: nat)
    requires Paced(switches, mem) && level0Files < L0_STOP_WRITES_TRIGGER
    ensures Paced(switches + [level0Files], mem + 1)
  {
  }

  /** From the start of a unit that compacts, some schedule leads to these flags in mid-work. */
  ghost predicate Worked(f: Flags, last: Flags) {
    && Leads(true, State(Begun, f), State(Working(f.manual), last))
    && last.done == f.done && (f.manual.Some? ==> last.manual == f.manual || (last.manual == None && (last.bgError || last.shuttingDown)))
  }

  lemma HasWorked(working: State, last: Flags)
    requires !working.flags.imm && working.phase == Working(working.flags.manual) && Orderly(working)
    requires Leads(true, working, working.(flags := last))
    ensures Worked(working.flags, last)
  {
    var begun := State(Begun, working.flags);
    Stays(true, begun);
    LeadsOn(true, begun, begun, working);
    LeadsAll(true, begun, working, working.(flags := last));
    WorkKeeps(true, working, working.(flags := last));
  }

  lemma Ends(f: Flags, last: Flags, ok: bool)
    requires Worked(f, last)
    ensures Leads(true, State(Begun, f), Finished(f.manual, last, ok))
  {
    LeadsOn(true, State(Begun, f), State(Working(f.manual), last), Finished(f.manual, last, ok));
  }

  lemma NothingFound(f: Flags)
    requires !f.imm
    ensures Leads(false, State(Begun, f),
                  State(Over, if f.manual == None then f else f.(manual := None, done := f.done + {f.manual.value})))
  {
    var over := State(Over, if f.manual == None then f else f.(manual := None, done := f.done + {f.manual.value}));
    Stays(false, State(Begun, f));
    LeadsOn(false, State(Begun, f), State(Begun, f), over);
  }

  /** How MakeRoomForWrite ends, or that it has not ended after so many turns. Crashed is the null
      pointer of BackgroundCompaction. */
  datatype Outcome = OK | Failed | Crashed | StillWaiting
}

/** What gets into the scheduler, how an execution leaves it, and what stop makes of the rest. */
module SchedulerAdmission {
  import opened Common
  import opened RunTracker
  import opened Scheduler
  import opened SchedulerGuarantees

  /** Every name the scheduler works with belongs to a registered job. */
  predicate Known(s: Sys) {
    && s.runningJobs <= s.registered && s.starting <= s.registered
    && (forall r <- s.manual :: s.manual[r] in s.registered)
    && (forall id <- s.slots :: s.slots[id].row.jobName in s.registered)
  }

  lemma NamesStep(s: Sys, e: Event)
    requires Known(s)
    ensures var t := Next(s, e);
            && s.registered <= t.registered && t.runningJobs <= t.registered && t.starting <= t.registered
            && (forall r <- t.manual :: t.manual[r] in t.registered)
  {
    hide NextSlot;
  }

  lemma RowNameStep(s: Sys, e: Event, id: nat)
    requires Known(s) && Inv(s) && id in Next(s, e).slots
    ensures Next(s, e).slots[id].row.jobName in Next(s, e).registered
  {
    if id in s.slots {
      Acts(s, e, id);
      assert RowOk(s, id);
      SlotKeeps(s.slots[id], if e.OnRow? then e.act else Cleaned, s.shuttingDown);
      NamesStep(s, e);
      hide Next;
    }
  }

  lemma KnownStep(s: Sys, e: Event)
    requires Known(s) && Inv(s)
    ensures Known(Next(s, e))
  {
    hide Next, Inv;
    NamesStep(s, e);
    forall id | id in Next(s, e).slots ensures Next(s, e).slots[id].row.jobName in Next(s, e).registered {
      RowNameStep(s, e, id);
    }
  }

  /** Over every run only registered jobs tick, are run by hand or have rows. */
  lemma {:induction false} OnlyRegisteredJobsRun(events: seq<Event>)
    ensures var s := Run(Initial(), events);
            && s.runningJobs <= s.registered && s.starting <= s.registered
            && (forall r <- s.manual :: s.manual[r] in s.registered)
            && (forall id <- s.slots :: s.slots[id].row.jobName in s.registered)
  {
    if events != [] {
      OnlyRegisteredJobsRun(events[..|events| - 1]);
      InitialInv();
      RunInv(Initial(), events[..|events| - 1]);
      KnownStep(Run(Initial(), events[..|events| - 1]), events[|events| - 1]);
    }
  }

  /** Once stopping, no job is registered and no manual run accepted; those under way keep their jobs. */
  lemma {:induction false} NothingIsAdmittedWhileStopping(s: Sys, events: seq<Event>)
    requires s.shuttingDown
    ensures var t := Run(s, events);
            && t.shuttingDown && t.registered == s.registered
            && forall r <- t.manual :: r in s.manual && t.manual[r] == s.manual[r]
  {
    if events != [] {
      NothingIsAdmittedWhileStopping(s, events[..|events| - 1]);
      DrainStep(Run(s, events[..|events| - 1]), events[|events| - 1]);
    }
  }

  /** A manual run asked for outside shutdown is accepted whatever is running, and keeps its job until its
      row is inserted or the insert fails; the row is then a pending one of that job, started unless the
      scheduler is stopping. */
  lemma ManualRunsKeepTheirJob(s: Sys, e: Event, request: nat)
    ensures e.RunNow? && e.request == request && !s.shuttingDown && e.name in s.registered && request !in s.manual ==>
              request in Next(s, e).manual && Next(s, e).manual[request] == e.name
    ensures request in s.manual && !(e.RunNowRecorded? && e.request == request) && e != RunNowFailed(request) ==>
              request in Next(s, e).manual && Next(s, e).manual[request] == s.manual[request]
    ensures e.RunNowRecorded? && e.request == request && request in s.manual && e.id !in s.slots ==>
              var t := Next(s, e);
              && request !in t.manual && e.id in t.slots
              && t.slots[e.id].row == Row(s.manual[request], Pending, 1, e.metadata, None)
              && t.slots[e.id].work == (if s.shuttingDown then None else Some(StartingRow(1)))
  {
  }

  /** The same for a tick: whose row cannot be inserted frees its job, so that the next tick passes the
      guard. */
  lemma FailedTickFreesItsJob(s: Sys, name: string)
    requires Inv(s) && name in s.starting && name in s.registered
    ensures var t := Next(s, TickFailed(name));
            && name !in t.runningJobs && name !in t.starting && t.slots == s.slots
            && name in Next(t, Tick(name)).starting
  {
  }

  /** A tick of a registered job that no earlier tick holds up starts, and its row is a pending one with the
      job's name, started unless the scheduler is stopping. */
  lemma TicksMakeTheirRow(s: Sys, name: string, id: nat, metadata: Metadata)
    requires name in s.registered && name !in s.runningJobs && id !in s.slots
    ensures var t := Next(Next(s, Tick(name)), TickRecorded(name, id, metadata));
            && id in t.slots && t.slots[id].row == Row(name, Pending, 1, metadata, None)
            && t.slots[id].work == (if s.shuttingDown then None else Some(StartingRow(1)))
  {
  }

  /** An execution ends with its clean-up, and with a recordRunning that fails: nothing is in flight then,
      the row stays as it is and nothing retries. */
  lemma ExecutionsEnd(s: Sys, id: nat)
    requires Inv(s) && id in s.slots && s.slots[id].work.Some?
    ensures s.slots[id].work.value.Cleaning? ==>
              var t := Next(s, OnRow(id, Cleaned));
              id !in InFlight(t) && id in t.slots && t.slots[id].row == s.slots[id].row && t.slots[id].retry == None
    ensures s.slots[id].work.value.StartingRow? ==>
              var t := Next(s, OnRow(id, RowRunningFailed));
              id !in InFlight(t) && id in t.slots && t.slots[id].row == s.slots[id].row && t.slots[id].retry == None
  {
    assert RowOk(s, id);
  }

  /** What stop finds: it clears every retry, touches no row, and waits for exactly what is in flight; with
      nothing in flight it is done waiting. */
  lemma StopFindsTheInFlight(s: Sys)
    requires !s.shuttingDown
    ensures var t := Next(s, Stop);
            && t.shuttingDown && t.slots.Keys == s.slots.Keys
            && (forall id <- s.slots ::
                  t.slots[id].row == s.slots[id].row && t.slots[id].work == s.slots[id].work && t.slots[id].retry == None)
            && (t.drain.Drained? <==> forall id <- s.slots :: s.slots[id].work == None)
            && (t.drain.Waiting? <==> exists id :: id in s.slots && s.slots[id].work != None)
            && (t.drain.Waiting? ==> forall id :: id in t.drain.on <==> id in s.slots && s.slots[id].work != None)
  {
    assert forall id :: id in InFlight(s) <==> id in s.slots && s.slots[id].work != None;
  }

  /** The sweep happens once, when the wait has ended well or timed out: it fails exactly the running rows
      with the shutdown message. In any other state nothing is swept. */
  lemma SweepFailsTheRunning(s: Sys)
    ensures var t := Next(s, Sweep);
            if s.drain.Drained? || s.drain.TimedOut? then
              && t.drain.Swept? && t.slots.Keys == s.slots.Keys
              && forall id <- s.slots ::
                   t.slots[id].row == if s.slots[id].row.status.Running?
                                      then s.slots[id].row.(status := Failed, error := Some("process shutdown"))
                                      else s.slots[id].row
            else t == s
  {
  }
}

/** InProcessScheduler with its separate maps and sets; every synchronous stretch of its methods is one
    step of the transition system in Scheduler. The continuations of an execution are called in the stage
    that awaited them; an execution in flight has no retry pending (the invariant SlotOk). */
module SchedulerClass {
  import opened Common
  import opened RunTracker
  import opened Scheduler

  /** What is remembered of a row only to state properties. */
  datatype History = History(calls: seq<nat>, lost: bool, ticked: bool)

  function Look<V>(entries: map<nat, V>, id: nat): Option<V> {
    if id in entries then Some(entries[id]) else None
  }

  function Put<V>(entries: map<nat, V>, id: nat, v: Option<V>): map<nat, V> {
    if v.Some? then entries[id := v.value] else entries - {id}
  }

  function Mark(ids: set<nat>, id: nat, present: bool): set<nat> {
    if present then ids + {id} else ids - {id}
  }

  function SlotOf(row: Row, work: Option<Work>, retry: Option<nat>, controller: bool, h: History): Slot {
    Slot(row, work, retry, controller, h.calls, h.lost, h.ticked)
  }

  /** The slots that the maps and sets of the scheduler make up together. */
  function SlotsOf(rows: Rows, inflight: map<nat, Work>, retries: map<nat, nat>, controllers: set<nat>,
                   history: map<nat, History>): map<nat, Slot> {
    map id | id in rows && id in history ::
      SlotOf(rows[id], Look(inflight, id), Look(retries, id), id in controllers, history[id])
  }

  /** Writing the parts of one row writes its slot and no other. */
  lemma PutSlot(rows: Rows, inflight: map<nat, Work>, retries: map<nat, nat>, controllers: set<nat>,
                history: map<nat, History>, id: nat, v: Slot)
    ensures SlotsOf(rows[id := v.row], Put(inflight, id, v.work), Put(retries, id, v.retry),
                    Mark(controllers, id, v.controller), history[id := History(v.calls, v.lost, v.ticked)])
         == SlotsOf(rows, inflight, retries, controllers, history)[id := v]
  {
  }

  lemma SameEntry<V>(entries: map<nat, V>, id: nat)
    ensures Put(entries, id, Look(entries, id)) == entries
  {
  }

  lemma SameMark(ids: set<nat>, id: nat)
    ensures Mark(ids, id, id in ids) == ids
  {
  }

  lemma InFlightKeys(rows: Rows, inflight: map<nat, Work>, retries: map<nat, nat>, controllers: set<nat>,
                     history: map<nat, History>)
    requires inflight.Keys <= rows.Keys == history.Keys
    ensures var slots := SlotsOf(rows, inflight, retries, controllers, history);
            (set id | id in slots && slots[id].work.Some?) == inflight.Keys
  {
    var slots := SlotsOf(rows, inflight, retries, controllers, history);
    assert forall id :: id in slots && slots[id].work.Some? <==> id in inflight;
  }

  lemma ClearedSlots(rows: Rows, inflight: map<nat, Work>, retries: map<nat, nat>, controllers: set<nat>,
                     history: map<nat, History>)
    ensures var slots := SlotsOf(rows, inflight, retries, controllers, history);
            SlotsOf(rows, inflight, map[], controllers, history) == map id | id in slots :: slots[id].(retry := None)
  {
  }

  lemma SweptSlots(rows: Rows, inflight: map<nat, Work>, retries: map<nat, nat>, controllers: set<nat>,
                   history: map<nat, History>)
    ensures var slots := SlotsOf(rows, inflight, retries, controllers, history);
            SlotsOf(RunTracker.Apply(rows, MarkShutdown), inflight, retries, controllers, history)
            == map id | id in slots :: slots[id].(row := SweptRow(slots[id].row))
  {
  }

  lemma ClosingStep(v: Slot, stopping: bool)
    requires v.work.Some? && v.retry.None?
    ensures NextSlot(v, RowClosed, stopping) == Closed(v, v.work.value)
    ensures NextSlot(v, RowCloseFailed, stopping) == CloseFailed(v, v.work.value)
  {
  }

  /** A new row whose call was suspended at recordStart. */
  lemma TickRow(s: Sys, t: Sys, name: string, id: nat, metadata: Metadata)
    requires name in s.starting && id !in s.slots
    requires t.slots == s.slots[id := Scheduler.Execute(Fresh(name, metadata, true), 1, s.shuttingDown)]
    requires t.registered == s.registered && t.manual == s.manual && t.shuttingDown == s.shuttingDown
    requires t.starting == s.starting - {name} && t.drain == s.drain
    requires t.runningJobs == if s.shuttingDown then s.runningJobs - {name} else s.runningJobs
    requires t.cronRuns == if s.shuttingDown then s.cronRuns else s.cronRuns[name := id]
    ensures t == Next(s, TickRecorded(name, id, metadata))
  {
  }

  lemma ManualRow(s: Sys, t: Sys, request: nat, id: nat, metadata: Metadata)
    requires request in s.manual && id !in s.slots
    requires t == s.(slots := s.slots[id := Scheduler.Execute(Fresh(s.manual[request], metadata, false), 1, s.shuttingDown)],
                     manual := s.manual - {request})
    ensures t == Next(s, RunNowRecorded(request, id, metadata))
  {
  }

  /** A row is inserted, and runs at once unless the scheduler is stopping. */
  lemma NewParts(rows: Rows, inflight: map<nat, Work>, retries: map<nat, nat>, controllers: set<nat>,
                 history: map<nat, History>, id: nat, name: string, metadata: Metadata, ticked: bool, stopping: bool)
    requires id !in inflight && id !in retries && id !in controllers
    ensures SlotsOf(rows[id := Row(name, Pending, 1, metadata, None)],
                    if stopping then inflight else inflight[id := StartingRow(1)], retries,
                    if stopping then controllers else controllers + {id},
                    history[id := History([], false, ticked)])
            == SlotsOf(rows, inflight, retries, controllers, history)
               [id := Scheduler.Execute(Fresh(name, metadata, ticked), 1, stopping)]
  {
    assert inflight - {id} == inflight && retries - {id} == retries && controllers - {id} == controllers;
    hide SlotsOf;
    PutSlot(rows, inflight, retries, controllers, history, id,
            Scheduler.Execute(Fresh(name, metadata, ticked), 1, stopping));
  }

  /** A state that differs by the slot of one row, settled if its promise ended, is one step ahead. */
  lemma RowStep(s: Sys, t: Sys, id: nat, act: Act, v: Slot)
    requires id in s.slots && v == NextSlot(s.slots[id], act, s.shuttingDown)
    requires t.slots == s.slots[id := v]
    requires t.registered == s.registered && t.starting == s.starting && t.manual == s.manual
    requires t.shuttingDown == s.shuttingDown
    requires s.slots[id].work.Some? && v.work.None? ==>
               t == Scheduler.Settle(s.(slots := t.slots), id, Rejects(act))
    requires !(s.slots[id].work.Some? && v.work.None?) ==>
               t.runningJobs == s.runningJobs && t.cronRuns == s.cronRuns && t.drain == s.drain
    ensures t == Next(s, OnRow(id, act))
  {
  }

  /** The parts of a row whose failure was written and which will be retried. */
  lemma FailedParts(s: Sys, rows: Rows, inflight: map<nat, Work>, retries: map<nat, nat>, controllers: set<nat>,
                    history: map<nat, History>, id: nat)
    requires s.slots == SlotsOf(rows, inflight, retries, controllers, history)
    requires id in rows && id in history && id !in retries
    requires id in inflight && inflight[id].Failing? && inflight[id].attempt < MAX_ATTEMPTS
    ensures var w := inflight[id];
            var f := Finish(Failed, Some(w.error), Some(w.attempt), None);
            Scheduler.Settle(s.(slots := SlotsOf(rows[id := Finished(rows[id], f)], inflight - {id}, retries[id := w.attempt + 1],
                                                 controllers - {id}, history)), id, false)
            == Next(s, OnRow(id, RowClosed))
  {
    var w := inflight[id];
    var v := s.slots[id];
    var f := Finish(Failed, Some(w.error), Some(w.attempt), None);
    var v' := v.(row := Finished(rows[id], f), work := None, retry := Some(w.attempt + 1), controller := false);
    ClosingStep(v, s.shuttingDown);
    assert history[id := History(v'.calls, v'.lost, v'.ticked)] == history;
    hide SlotsOf;
    PutSlot(rows, inflight, retries, controllers, history, id, v');
    RowStep(s, Scheduler.Settle(s.(slots := s.slots[id := v']), id, false), id, RowClosed, v');
  }

  /** The parts of a row whose success was written. */
  lemma SucceededParts(s: Sys, rows: Rows, inflight: map<nat, Work>, retries: map<nat, nat>, controllers: set<nat>,
                       history: map<nat, History>, id: nat)
    requires s.slots == SlotsOf(rows, inflight, retries, controllers, history)
    requires id in rows && id in history && id !in retries && id in inflight && inflight[id].Succeeding?
    ensures var w := inflight[id];
            var f := Finish(w.status, None, None, if w.metadata == map[] then None else Some(w.metadata));
            s.(slots := SlotsOf(rows[id := Finished(rows[id], f)], inflight[id := Cleaning(w.attempt)], retries,
                                controllers, history))
            == Next(s, OnRow(id, RowClosed))
  {
    var w, v := inflight[id], s.slots[id];
    var f := Finish(w.status, None, None, if w.metadata == map[] then None else Some(w.metadata));
    var v' := v.(row := Finished(rows[id], f), work := Some(Cleaning(w.attempt)));
    ClosingStep(v, s.shuttingDown);
    SameEntry(retries, id);
    SameMark(controllers, id);
    assert history[id := History(v'.calls, v'.lost, v'.ticked)] == history;
    hide SlotsOf, Finished;
    PutSlot(rows, inflight, retries, controllers, history, id, v');
    RowStep(s, s.(slots := s.slots[id := v']), id, RowClosed, v');
  }

  class InProcessScheduler {
    const runs: JobRuns
    /** Names with a registered definition. */
    var jobs: set<string>
    var runningJobs: set<string>
    var pendingRetries: map<nat, nat>
    var abortControllers: set<nat>
    var inflight: map<nat, Work>
    var shuttingDown: bool
    /** Suspended calls: execute before and after its row exists, runNow before its row exists, stop. */
    var starting: set<string>
    var cronRuns: map<string, nat>
    var manual: map<nat, string>
    var drain: Drain
    /** Controllers whose signal has fired. */
    var aborted: set<nat>
    ghost var history: map<nat, History>

    ghost predicate Valid()
      reads this, runs
    {
      && inflight.Keys <= runs.rows.Keys && pendingRetries.Keys <= runs.rows.Keys
      && abortControllers <= runs.rows.Keys && history.Keys == runs.rows.Keys
    }

    ghost function Slots(): map<nat, Slot>
      reads this, runs
    {
      SlotsOf(runs.rows, inflight, pendingRetries, abortControllers, history)
    }

    ghost function State(): Sys
      reads this, runs
    {
      Sys(Slots(), jobs, runningJobs, starting, cronRuns, manual, shuttingDown, drain)
    }

    /** The slot of a row; writing it back changes nothing. */
    ghost function SlotHere(id: nat): (v: Slot)
      requires id in runs.rows && id in history
      reads this, runs
      ensures id in Slots() && v == Slots()[id]
      ensures Put(inflight, id, v.work) == inflight && Put(pendingRetries, id, v.retry) == pendingRetries
      ensures Mark(abortControllers, id, v.controller) == abortControllers
      ensures runs.rows[id := v.row] == runs.rows && history[id := History(v.calls, v.lost, v.ticked)] == history
    {
      SameEntry(inflight, id);
      SameEntry(pendingRetries, id);
      SameMark(abortControllers, id);
      SlotOf(runs.rows[id], Look(inflight, id), Look(pendingRetries, id), id in abortControllers, history[id])
    }

    /** A row not yet in the table has no entry anywhere. */
    lemma NotHere(id: nat)
      requires Valid() && id !in runs.rows
      ensures id !in Slots() && id !in inflight && id !in pendingRetries && id !in abortControllers
    {
    }

    constructor (db: JobRuns)
      requires db.rows == map[]
      ensures runs == db && Valid() && State() == Initial()
    {
      runs := db;
      jobs, runningJobs, starting := {}, {}, {};
      pendingRetries, abortControllers, inflight := map[], {}, map[];
      cronRuns, manual, aborted := map[], map[], {};
      shuttingDown, drain := false, NotStopping;
      history := map[];
    }

    method Schedule(name: string)
      requires Valid()
      modifies this
      ensures Valid() && State() == Next(old(State()), Event.Schedule(name))
    {
      if shuttingDown {
        return;
      }
      jobs := jobs + {name};
    }

    /** execute up to the insertion of its row. */
    method Execute(name: string) returns (skipped: bool)
      requires Valid() && name in jobs
      modifies this
      ensures Valid() && State() == Next(old(State()), Tick(name))
      ensures skipped <==> name in old(runningJobs)
    {
      if name in runningJobs {
        return true;
      }
      runningJobs := runningJobs + {name};
      starting := starting + {name};
      return false;
    }

    /** Everything executeFromRow does before its first await. */
    method ExecuteFromRow(id: nat, attempt: nat)
      modifies this`abortControllers, this`inflight
      ensures inflight == if shuttingDown then old(inflight) else old(inflight)[id := StartingRow(attempt)]
      ensures abortControllers == if shuttingDown then old(abortControllers) else old(abortControllers) + {id}
    {
      if shuttingDown {
        return;
      }
      abortControllers := abortControllers + {id};
      inflight := inflight[id := StartingRow(attempt)];
    }

    /** recordStart came back: the row exists, and runs unless stopping. */
    method RowInserted(id: nat, name: string, metadata: Metadata, ghost byTick: bool)
      requires Valid() && id !in runs.rows
      modifies runs, this`history, this`abortControllers, this`inflight
      ensures Valid()
      ensures var slot := Scheduler.Execute(Fresh(name, metadata, byTick), 1, shuttingDown);
              State() == old(State()).(slots := old(Slots())[id := slot])
    {
      hide SlotsOf, Fresh;
      NotHere(id);
      NewParts(runs.rows, inflight, pendingRetries, abortControllers, history, id, name, metadata, byTick, shuttingDown);
      InsertRow(id, name, metadata);
      history := history[id := History([], false, byTick)];
      ExecuteFromRow(id, 1);
    }

    /** execute from the insertion of its row (recordStart) to the end, if stopping, or to the await. */
    method TickRecorded(name: string, id: nat, metadata: Metadata)
      requires Valid() && name in starting && id !in runs.rows
      modifies this, runs
      ensures Valid() && State() == Next(old(State()), Event.TickRecorded(name, id, metadata))
    {
      hide SlotsOf, Next, Fresh, Scheduler.Execute;
      ghost var s := State();
      NotHere(id);
      RowInserted(id, name, metadata, true);
      starting := starting - {name};
      if shuttingDown {
        runningJobs := runningJobs - {name};
      } else {
        cronRuns := cronRuns[name := id];
      }
      TickRow(s, State(), name, id, metadata);
    }

    method TickFailed(name: string)
      requires Valid() && name in starting
      modifies this
      ensures Valid() && State() == Next(old(State()), Event.TickFailed(name))
    {
      starting := starting - {name};
      runningJobs := runningJobs - {name};
    }

    /** runNow up to the insertion of its row; false is the thrown error. */
    method RunNow(request: nat, name: string) returns (accepted: bool)
      requires Valid() && request !in manual
      modifies this
      ensures Valid() && State() == Next(old(State()), Event.RunNow(request, name))
      ensures accepted <==> !shuttingDown && name in jobs
    {
      if shuttingDown || name !in jobs {
        return false;
      }
      manual := manual[request := name];
      return true;
    }

    method RunNowRecorded(request: nat, id: nat, metadata: Metadata) returns (jobRunId: nat)
      requires Valid() && request in manual && id !in runs.rows
      modifies this, runs
      ensures Valid() && State() == Next(old(State()), Event.RunNowRecorded(request, id, metadata))
      ensures jobRunId == id
    {
      hide SlotsOf, Next, Fresh, Scheduler.Execute;
      ghost var s := State();
      NotHere(id);
      RowInserted(id, manual[request], metadata, false);
      manual := manual - {request};
      jobRunId := id;
      ManualRow(s, State(), request, id, metadata);
    }

    /** The finally blocks of executeFromRow and execute, and what stop sees of them. */
    method Settle(id: nat, rejected: bool)
      modifies this`inflight, this`runningJobs, this`cronRuns, this`drain
      ensures inflight == old(inflight) - {id}
      ensures var names := set n | n in old(cronRuns) && old(cronRuns)[n] == id;
              runningJobs == old(runningJobs) - names && cronRuns == old(cronRuns) - names
      ensures drain == AfterSettling(old(drain), id, rejected)
    {
      inflight := inflight - {id};
      var names := set n | n in cronRuns && cronRuns[n] == id;
      runningJobs := runningJobs - names;
      cronRuns := cronRuns - names;
      if drain.Waiting? && id in drain.on {
        if rejected {
          drain := Broken;
        } else if drain.on == {id} {
          drain := Drained;
        } else {
          drain := Waiting(drain.on - {id});
        }
      }
    }

    /** recordRunning came back; on success the handler is called. */
    method Resume(id: nat, ok: bool)
      requires Valid() && id in inflight && inflight[id].StartingRow? && id !in pendingRetries
      modifies this, runs
      ensures Valid()
      ensures State() == Next(old(State()), OnRow(id, if ok then RowRunning else RowRunningFailed))
    {
      if ok {
        HandlerCalled(id);
      } else {
        StartFailed(id);
      }
    }

    method HandlerCalled(id: nat)
      requires Valid() && id in inflight && inflight[id].StartingRow? && id !in pendingRetries
      modifies this, runs
      ensures Valid() && State() == Next(old(State()), OnRow(id, RowRunning))
    {
      hide SlotsOf, Next;
      ghost var s, v := State(), SlotHere(id);
      var attempt := inflight[id].attempt;
      runs.RecordRunning(id);
      history := history[id := history[id].(calls := history[id].calls + [attempt])];
      inflight := inflight[id := InHandler(attempt)];
      v := v.(row := v.row.(status := Running), work := Some(inflight[id]), calls := v.calls + [attempt]);
      PutSlot(old(runs.rows), old(inflight), old(pendingRetries), old(abortControllers), old(history), id, v);
      RowStep(s, State(), id, RowRunning, v);
    }

    method StartFailed(id: nat)
      requires Valid() && id in inflight && inflight[id].StartingRow? && id !in pendingRetries
      modifies this
      ensures Valid() && State() == Next(old(State()), OnRow(id, RowRunningFailed))
    {
      hide SlotsOf, Next, AfterSettling;
      ghost var s, v := State(), SlotHere(id);
      Settle(id, true);
      v := v.(work := None);
      PutSlot(old(runs.rows), old(inflight), old(pendingRetries), old(abortControllers), old(history), id, v);
      RowStep(s, State(), id, RowRunningFailed, v);
    }

    /** The handler's promise settled. */
    method HandlerSettled(id: nat, outcome: Act)
      requires Valid() && id in inflight && inflight[id].InHandler? && id !in pendingRetries
      requires outcome.HandlerThrew? || (outcome.HandlerReturned? && SuccessLike(outcome.status))
      modifies this
      ensures outcome.HandlerReturned? ==>
                inflight == old(inflight)[id := Succeeding(old(inflight[id].attempt), outcome.status, outcome.metadata)]
      ensures outcome.HandlerThrew? ==> inflight == old(inflight)[id := Failing(old(inflight[id].attempt), outcome.error)]
      ensures Valid() && State() == Next(old(State()), OnRow(id, outcome))
    {
      hide SlotsOf, Next, Finished;
      ghost var s, v := State(), SlotHere(id);
      var a := inflight[id].attempt;
      match outcome {
        case HandlerReturned(status, metadata) => inflight := inflight[id := Succeeding(a, status, metadata)];
        case HandlerThrew(error) => inflight := inflight[id := Failing(a, error)];
      }
      v := v.(work := Some(inflight[id]));
      PutSlot(old(runs.rows), old(inflight), old(pendingRetries), old(abortControllers), old(history), id, v);
      RowStep(s, State(), id, outcome, v);
    }

    /** recordFinish of a row that exists. */
    method WriteFinish(id: nat, f: Finish)
      requires id in runs.rows
      modifies runs
      ensures runs.rows == old(runs.rows)[id := Finished(old(runs.rows)[id], f)]
    {
      var _ := runs.RecordFinish(id, f);
    }

    method InsertRow(id: nat, name: string, metadata: Metadata)
      requires id !in runs.rows
      modifies runs
      ensures runs.rows == old(runs.rows)[id := Row(name, Pending, 1, metadata, None)]
    {
      runs.RecordStart(id, name, metadata);
    }

    method ScheduleRetry(id: nat, nextAttempt: nat)
      modifies this`pendingRetries
      ensures pendingRetries == old(pendingRetries)[id := nextAttempt]
    {
      pendingRetries := pendingRetries[id := nextAttempt];
    }

    /** A successful handler's recordFinish went through. */
    method SuccessWritten(id: nat)
      requires Valid() && id in inflight && inflight[id].Succeeding? && id !in pendingRetries
      modifies this, runs
      ensures Valid() && State() == Next(old(State()), OnRow(id, RowClosed))
    {
      hide SlotsOf, Next, Finished, NextSlot;
      SucceededParts(State(), runs.rows, inflight, pendingRetries, abortControllers, history, id);
      var w := inflight[id];
      WriteFinish(id, Finish(w.status, None, None, if w.metadata == map[] then None else Some(w.metadata)));
      inflight := inflight[id := Cleaning(w.attempt)];
    }

    /** It threw: the catch block treats it as a failure of the handler. */
    method SuccessWriteThrew(id: nat)
      requires Valid() && id in inflight && inflight[id].Succeeding? && id !in pendingRetries
      modifies this
      ensures Valid() && State() == Next(old(State()), OnRow(id, RowCloseFailed))
    {
      hide SlotsOf, Next;
      ghost var s, v := State(), SlotHere(id);
      inflight := inflight[id := Failing(inflight[id].attempt, "write failed")];
      v := v.(work := Some(inflight[id]));
      PutSlot(old(runs.rows), old(inflight), old(pendingRetries), old(abortControllers), old(history), id, v);
      RowStep(s, State(), id, RowCloseFailed, v);
    }

    /** The catch block's first recordFinish went through: attempts left, or not. */
    method FailureWritten(id: nat)
      requires Valid() && id in inflight && inflight[id].Failing? && id !in pendingRetries
      modifies this, runs
      ensures Valid() && State() == Next(old(State()), OnRow(id, RowClosed))
    {
      if inflight[id].attempt < MAX_ATTEMPTS {
        FailedForNow(id);
      } else {
        FailedForGood(id);
      }
    }

    method FailedForNow(id: nat)
      requires Valid() && id in inflight && inflight[id].Failing? && id !in pendingRetries
      requires inflight[id].attempt < MAX_ATTEMPTS
      modifies this, runs
      ensures Valid() && State() == Next(old(State()), OnRow(id, RowClosed))
    {
      hide SlotsOf, Next, Finished, NextSlot, AfterSettling;
      FailedParts(State(), runs.rows, inflight, pendingRetries, abortControllers, history, id);
      var w := inflight[id];
      WriteFinish(id, Finish(Failed, Some(w.error), Some(w.attempt), None));
      ScheduleRetry(id, w.attempt + 1);
      abortControllers := abortControllers - {id};
      Settle(id, false);
    }

    method FailedForGood(id: nat)
      requires Valid() && id in inflight && inflight[id].Failing? && id !in pendingRetries
      requires inflight[id].attempt >= MAX_ATTEMPTS
      modifies this, runs
      ensures Valid() && State() == Next(old(State()), OnRow(id, RowClosed))
    {
      hide SlotsOf, Next, Finished, NextSlot;
      ghost var s, v := State(), SlotHere(id);
      ClosingStep(v, shuttingDown);
      var w := inflight[id];
      var f := Finish(Failed, Some(w.error), Some(w.attempt), None);
      WriteFinish(id, f);
      inflight := inflight[id := DeadLettering(w.attempt, w.error)];
      v := v.(row := Finished(v.row, f), work := Some(inflight[id]));
      PutSlot(old(runs.rows), old(inflight), old(pendingRetries), old(abortControllers), old(history), id, v);
      RowStep(s, State(), id, RowClosed, v);
    }

    /** The dead_letter recordFinish went through. */
    method DeadLetterWritten(id: nat)
      requires Valid() && id in inflight && inflight[id].DeadLettering? && id !in pendingRetries
      modifies this, runs
      ensures Valid() && State() == Next(old(State()), OnRow(id, RowClosed))
    {
      hide SlotsOf, Next, Finished, NextSlot, AfterSettling;
      ghost var s, v := State(), SlotHere(id);
      ClosingStep(v, shuttingDown);
      var f := Finish(DeadLetter, Some(inflight[id].error), Some(inflight[id].attempt), None);
      WriteFinish(id, f);
      abortControllers := abortControllers - {id};
      Settle(id, false);
      v := v.(row := Finished(v.row, f), work := None, controller := false);
      PutSlot(old(runs.rows), old(inflight), old(pendingRetries), old(abortControllers), old(history), id, v);
      RowStep(s, State(), id, RowClosed, v);
    }

    /** A recordFinish of the catch block threw: only the finally blocks run. */
    method CatchBlockThrew(id: nat)
      requires Valid() && id in inflight && (inflight[id].Failing? || inflight[id].DeadLettering?)
      requires id !in pendingRetries
      modifies this
      ensures Valid() && State() == Next(old(State()), OnRow(id, RowCloseFailed))
    {
      hide SlotsOf, Next, NextSlot, AfterSettling;
      ghost var s, v := State(), SlotHere(id);
      ClosingStep(v, shuttingDown);
      v := v.(work := None, controller := false, lost := v.lost || inflight[id].Failing?);
      history := history[id := history[id].(lost := v.lost)];
      abortControllers := abortControllers - {id};
      Settle(id, true);
      PutSlot(old(runs.rows), old(inflight), old(pendingRetries), old(abortControllers), old(history), id, v);
      RowStep(s, State(), id, RowCloseFailed, v);
    }

    /** afterCommit ended, well or badly. */
    method CleanedUp(id: nat)
      requires Valid() && id in inflight && inflight[id].Cleaning? && id !in pendingRetries
      modifies this
      ensures Valid() && State() == Next(old(State()), OnRow(id, Cleaned))
    {
      hide SlotsOf, Next, Finished;
      ghost var s, v := State(), SlotHere(id);
      abortControllers := abortControllers - {id};
      Settle(id, false);
      v := v.(work := None, controller := false);
      PutSlot(old(runs.rows), old(inflight), old(pendingRetries), old(abortControllers), old(history), id, v);
      RowStep(s, State(), id, Cleaned, v);
    }

    /** The callback of a retry timer. */
    method RetryTimer(id: nat)
      requires Valid() && id in pendingRetries && id !in inflight
      modifies this
      ensures Valid() && State() == Next(old(State()), OnRow(id, TimerFired))
    {
      hide SlotsOf, Next, Finished;
      ghost var s, v := State(), SlotHere(id);
      var attempt := pendingRetries[id];
      pendingRetries := pendingRetries - {id};
      ExecuteFromRow(id, attempt);
      v := Scheduler.Execute(v.(retry := None), attempt, shuttingDown);
      PutSlot(old(runs.rows), old(inflight), old(pendingRetries), old(abortControllers), old(history), id, v);
      RowStep(s, State(), id, TimerFired, v);
    }

    /** stop up to its wait: the timers are cleared one by one. */
    method Stop()
      requires Valid()
      modifies this
      ensures Valid() && State() == Next(old(State()), Event.Stop)
    {
      hide SlotsOf, Finished;
      if shuttingDown {
        return;
      }
      shuttingDown := true;
      while pendingRetries.Keys != {}
        invariant Valid() && shuttingDown && drain == old(drain)
        invariant inflight == old(inflight) && abortControllers == old(abortControllers) && history == old(history)
        invariant jobs == old(jobs) && runningJobs == old(runningJobs) && starting == old(starting)
        invariant cronRuns == old(cronRuns) && manual == old(manual)
        decreases |pendingRetries.Keys|
      {
        var jobRunId :| jobRunId in pendingRetries;
        pendingRetries := pendingRetries - {jobRunId};
      }
      assert InFlight(old(State())) == inflight.Keys by {
        InFlightKeys(runs.rows, inflight, old(pendingRetries), abortControllers, history);
      }
      drain := if inflight.Keys == {} then Drained else Waiting(inflight.Keys);
      assert pendingRetries == map[];
      ClearedSlots(runs.rows, inflight, old(pendingRetries), abortControllers, history);
    }

    /** The timeout wins the race: what is still running is told to abort. */
    method GracefulTimeout()
      requires Valid() && drain.Waiting?
      modifies this
      ensures Valid() && State() == Next(old(State()), DrainTimeout)
      ensures abortControllers <= aborted
    {
      aborted := aborted + abortControllers;
      drain := TimedOut;
    }

    /** The end of stop. */
    method MarkRemaining(yieldsRows: bool)
      requires Valid() && (drain.Drained? || drain.TimedOut?)
      modifies this, runs
      ensures Valid() && State() == Next(old(State()), Sweep)
    {
      hide SlotsOf, Finished;
      var _ := runs.MarkInflightAsShutdown(yieldsRows);
      drain := Swept;
      SweptSlots(old(runs.rows), inflight, pendingRetries, abortControllers, history);
    }
  }
}

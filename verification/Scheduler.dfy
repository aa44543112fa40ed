/** The in-process job scheduler as a transition system (packages/scheduler/src/scheduler.ts).

  JavaScript runs one synchronous stretch at a time, so an event is one stretch between two awaits: a
  cron tick, a call of runNow or stop, a timer, the outcome of one database write, of one handler or of
  one clean-up. Events arrive in any order. A `Slot` gathers what the scheduler and the job_runs table
  hold about one row; three of its fields are histories used only to state properties: the handler
  calls made (`calls`), a closing write that failed (`lost`), and whether a tick inserted the row
  (`ticked`). InProcessScheduler, the class with the separate maps, is in SchedulerClass.
 */
module Scheduler {
  import opened Common
  import opened RunTracker

  const MAX_ATTEMPTS: nat := 3

  /** What the promise in `inflight` is waiting for. */
  datatype Work =
    | StartingRow(attempt: nat)
    | InHandler(attempt: nat)
    | Succeeding(attempt: nat, status: Status, metadata: Metadata)
    | Cleaning(attempt: nat)
    | Failing(attempt: nat, error: string)
    | DeadLettering(attempt: nat, error: string)

  /** `work` is the entry in inflight, `retry` the one in pendingRetries (its attempt), `controller` the
      one in abortControllers. */
  datatype Slot = Slot(
    row: Row, work: Option<Work>, retry: Option<nat>, controller: bool,
    calls: seq<nat>, lost: bool, ticked: bool)

  /** Where `stop` is. */
  datatype Drain =
    | NotStopping
    | Waiting(on: set<nat>)
    | Drained
    | TimedOut
    | Broken
    | Swept

  datatype Sys = Sys(
    slots: map<nat, Slot>,
    registered: set<string>,
    runningJobs: set<string>,
    starting: set<string>,
    cronRuns: map<string, nat>,
    manual: map<nat, string>,
    shuttingDown: bool,
    drain: Drain)

  /** What can happen to one row. */
  datatype Act =
    | RowRunning
    | RowRunningFailed
    | HandlerReturned(status: Status, metadata: Metadata)
    | HandlerThrew(error: string)
    | RowClosed
    | RowCloseFailed
    | Cleaned
    | TimerFired

  datatype Event =
    | Schedule(name: string)
    | Tick(name: string)
    | TickRecorded(name: string, id: nat, metadata: Metadata)
    | TickFailed(name: string)
    | RunNow(request: nat, name: string)
    | RunNowRecorded(request: nat, id: nat, metadata: Metadata)
    | RunNowFailed(request: nat)
    | OnRow(id: nat, act: Act)
    | Stop
    | DrainTimeout
    | Sweep

  /******* One row *******/

  function Fresh(name: string, metadata: Metadata, ticked: bool): Slot {
    Slot(Row(name, Pending, 1, metadata, None), None, None, false, [], false, ticked)
  }

  /** executeFromRow up to its first await. */
  function Execute(slot: Slot, attempt: nat, shuttingDown: bool): Slot {
    if shuttingDown then slot else slot.(work := Some(StartingRow(attempt)), controller := true)
  }

  /** A closing write went through. */
  function Closed(slot: Slot, w: Work): Slot {
    match w
    case Succeeding(a, status, m) =>
      var f := Finish(status, None, None, if m == map[] then None else Some(m));
      slot.(row := Finished(slot.row, f), work := Some(Cleaning(a)))
    case Failing(a, e) =>
      var failed := slot.(row := Finished(slot.row, Finish(Failed, Some(e), Some(a), None)));
      if a < MAX_ATTEMPTS then failed.(work := None, retry := Some(a + 1), controller := false)
      else failed.(work := Some(DeadLettering(a, e)))
    case DeadLettering(a, e) =>
      slot.(row := Finished(slot.row, Finish(DeadLetter, Some(e), Some(a), None)), work := None, controller := false)
    case _ => slot
  }

  /** A closing write failed. */
  function CloseFailed(slot: Slot, w: Work): Slot {
    match w
    case Succeeding(a, _, _) => slot.(work := Some(Failing(a, "write failed")))
    case Failing(_, _) => slot.(work := None, lost := true, controller := false)
    case DeadLettering(_, _) => slot.(work := None, controller := false)
    case _ => slot
  }

  /** What one stretch of the promise that runs a row makes of its slot. The handler is called in the
      stretch that follows recordRunning; recordRunning is outside the try block, so that its failure
      rejects the promise and nothing retries. */
  function Working(slot: Slot, w: Work, act: Act): Slot {
    match act
    case RowRunning =>
      if w.StartingRow?
      then slot.(row := slot.row.(status := Running), work := Some(InHandler(w.attempt)),
                 calls := slot.calls + [w.attempt])
      else slot
    case RowRunningFailed => if w.StartingRow? then slot.(work := None) else slot
    case HandlerReturned(status, m) =>
      if w.InHandler? && SuccessLike(status) then slot.(work := Some(Succeeding(w.attempt, status, m))) else slot
    case HandlerThrew(error) => if w.InHandler? then slot.(work := Some(Failing(w.attempt, error))) else slot
    case RowClosed => Closed(slot, w)
    case RowCloseFailed => CloseFailed(slot, w)
    case Cleaned => if w.Cleaning? then slot.(work := None, controller := false) else slot
    case TimerFired => slot
  }

  function NextSlot(slot: Slot, act: Act, stopping: bool): Slot {
    if slot.retry.Some? && act.TimerFired? then Execute(slot.(retry := None), slot.retry.value, stopping)
    else if slot.work.Some? then Working(slot, slot.work.value, act)
    else slot
  }

  /** The promise that runs the row ends by being rejected. */
  predicate Rejects(act: Act) {
    act.RowRunningFailed? || act.RowCloseFailed?
  }

  /******* The scheduler *******/

  function Initial(): Sys {
    Sys(map[], {}, {}, {}, map[], map[], false, NotStopping)
  }

  function InFlight(s: Sys): set<nat> {
    set id | id in s.slots && s.slots[id].work.Some?
  }

  /** The promise of `id` settles: a cron execution of it ends and a waiting stop notices. A rejected
      promise makes Promise.all, and so stop itself, reject. */
  function Settle(s: Sys, id: nat, rejected: bool): Sys {
    var names := set n | n in s.cronRuns && s.cronRuns[n] == id;
    s.(runningJobs := s.runningJobs - names,
       cronRuns := s.cronRuns - names,
       drain := AfterSettling(s.drain, id, rejected))
  }

  function AfterSettling(d: Drain, id: nat, rejected: bool): Drain {
    if !d.Waiting? || id !in d.on then d
    else if rejected then Broken
    else if d.on - {id} == {} then Drained else Waiting(d.on - {id})
  }

  function NextRow(s: Sys, id: nat, act: Act): Sys
    requires id in s.slots
  {
    var slot := s.slots[id];
    var slot' := NextSlot(slot, act, s.shuttingDown);
    var t := s.(slots := s.slots[id := slot']);
    if slot.work.Some? && slot'.work.None? then Settle(t, id, Rejects(act)) else t
  }

  /** execute: a tick is skipped while an earlier tick of the job is under way. */
  function OnTick(s: Sys, name: string): Sys {
    if name !in s.registered || name in s.runningJobs then s
    else s.(runningJobs := s.runningJobs + {name}, starting := s.starting + {name})
  }

  function OnTickRecorded(s: Sys, name: string, id: nat, metadata: Metadata): Sys {
    if name !in s.starting || id in s.slots then s
    else
      var t := s.(slots := s.slots[id := Execute(Fresh(name, metadata, true), 1, s.shuttingDown)],
                  starting := s.starting - {name});
      if s.shuttingDown then t.(runningJobs := s.runningJobs - {name})
      else t.(cronRuns := s.cronRuns[name := id])
  }

  function OnTickFailed(s: Sys, name: string): Sys {
    if name !in s.starting then s
    else s.(starting := s.starting - {name}, runningJobs := s.runningJobs - {name})
  }

  function OnRunNow(s: Sys, request: nat, name: string): Sys {
    if s.shuttingDown || name !in s.registered || request in s.manual then s
    else s.(manual := s.manual[request := name])
  }

  function OnRunNowRecorded(s: Sys, request: nat, id: nat, metadata: Metadata): Sys {
    if request !in s.manual || id in s.slots then s
    else
      s.(slots := s.slots[id := Execute(Fresh(s.manual[request], metadata, false), 1, s.shuttingDown)],
         manual := s.manual - {request})
  }

  function OnStop(s: Sys): Sys {
    if s.shuttingDown then s
    else s.(slots := map id | id in s.slots :: s.slots[id].(retry := None),
            shuttingDown := true,
            drain := if InFlight(s) == {} then Drained else Waiting(InFlight(s)))
  }

  function OnSweep(s: Sys): Sys {
    if !s.drain.Drained? && !s.drain.TimedOut? then s
    else s.(slots := map id | id in s.slots :: s.slots[id].(row := SweptRow(s.slots[id].row)), drain := Swept)
  }

  function Next(s: Sys, e: Event): Sys {
    match e
    case Schedule(name) => if s.shuttingDown then s else s.(registered := s.registered + {name})
    case Tick(name) => OnTick(s, name)
    case TickRecorded(name, id, metadata) => OnTickRecorded(s, name, id, metadata)
    case TickFailed(name) => OnTickFailed(s, name)
    case RunNow(request, name) => OnRunNow(s, request, name)
    case RunNowRecorded(request, id, metadata) => OnRunNowRecorded(s, request, id, metadata)
    case RunNowFailed(request) => s.(manual := s.manual - {request})
    case OnRow(id, act) => if id in s.slots then NextRow(s, id, act) else s
    case Stop => OnStop(s)
    case DrainTimeout => if s.drain.Waiting? then s.(drain := TimedOut) else s
    case Sweep => OnSweep(s)
  }

  function Run(s: Sys, events: seq<Event>): Sys {
    if events == [] then s else Next(Run(s, events[..|events| - 1]), events[|events| - 1])
  }

  /******* Invariant of a row *******/

  /** 1, 2, ..., n */
  function UpTo(n: nat): seq<nat> { if n == 0 then [] else UpTo(n - 1) + [n] }

  /** The row is running, or was when the final sweep closed it under a handler that ignored its signal. */
  predicate Active(r: Row, swept: bool) {
    r.status.Running? || (swept && r.status.Failed?)
  }

  predicate WorkOk(r: Row, w: Work, calls: seq<nat>, swept: bool) {
    && 1 <= w.attempt <= MAX_ATTEMPTS
    && calls == UpTo(if w.StartingRow? then w.attempt - 1 else w.attempt)
    && match w
       case StartingRow(a) => if a == 1 then r.status.Pending? else r.status.Failed? && r.attempt == a - 1
       case InHandler(a) => Active(r, swept)
       case Succeeding(a, status, _) => Active(r, swept) && SuccessLike(status)
       case Failing(a, _) => Active(r, swept)
       case Cleaning(a) => SuccessLike(r.status)
       case DeadLettering(a, _) => r.status.Failed? && r.attempt == a && a == MAX_ATTEMPTS
  }

  predicate RetryOk(r: Row, attempt: nat, calls: seq<nat>) {
    2 <= attempt <= MAX_ATTEMPTS && r.status.Failed? && r.attempt == attempt - 1 && calls == UpTo(attempt - 1)
  }

  predicate SlotOk(v: Slot, swept: bool) {
    && (v.work.Some? ==> v.retry.None? && WorkOk(v.row, v.work.value, v.calls, swept))
    && (v.retry.Some? ==> RetryOk(v.row, v.retry.value, v.calls))
    && |v.calls| <= MAX_ATTEMPTS && v.calls == UpTo(|v.calls|)
    && (v.work.None? && v.row.status.Running? ==> v.lost)
    && (v.lost ==> v.work.None? && v.retry.None? && Active(v.row, swept))
    && (v.row.status.DeadLetter? ==> |v.calls| == MAX_ATTEMPTS && v.work.None? && v.retry.None?)
  }

  lemma LengthOfUpTo(n: nat)
    ensures |UpTo(n)| == n
  {
  }

  lemma ClosedOk(v: Slot, swept: bool)
    requires SlotOk(v, swept) && v.work.Some?
    ensures SlotOk(Closed(v, v.work.value), swept) && SlotOk(CloseFailed(v, v.work.value), swept)
  {
    LengthOfUpTo(v.work.value.attempt);
  }

  lemma WorkingOk(v: Slot, act: Act, swept: bool)
    requires SlotOk(v, swept) && v.work.Some?
    ensures SlotOk(Working(v, v.work.value, act), swept)
  {
    match act
    case RowClosed => ClosedOk(v, swept);
    case RowCloseFailed => ClosedOk(v, swept);
    case RowRunning => LengthOfUpTo(v.work.value.attempt);
    case _ =>
  }

  lemma SlotStaysOk(v: Slot, act: Act, stopping: bool, swept: bool)
    requires SlotOk(v, swept)
    ensures SlotOk(NextSlot(v, act, stopping), swept)
  {
    if v.work.Some? {
      WorkingOk(v, act, swept);
    }
  }

  /** What no stretch changes. */
  lemma SlotKeeps(v: Slot, act: Act, stopping: bool)
    requires v.work.Some? ==> v.retry.None?
    ensures var v' := NextSlot(v, act, stopping);
            && v'.row.jobName == v.row.jobName && v'.ticked == v.ticked
            && (v.work.Some? && v'.work.Some? ==> v'.work.value.attempt == v.work.value.attempt)
            && (v.work.None? && v'.work.Some? ==> !stopping && v.retry.Some? && v'.work.value.attempt == v.retry.value)
  {
  }

  /******* Invariant of the scheduler *******/

  predicate RowOk(s: Sys, id: nat)
    requires id in s.slots
  {
    SlotOk(s.slots[id], s.drain.Swept?)
  }

  predicate RowsOk(s: Sys) {
    forall id {:trigger RowOk(s, id)} :: id in s.slots ==> RowOk(s, id)
  }

  predicate FirstAttempt(v: Slot) { v.work.Some? && v.work.value.attempt == 1 }

  predicate CronRunOk(s: Sys, name: string)
    requires name in s.cronRuns
  {
    var id := s.cronRuns[name];
    id in s.slots && FirstAttempt(s.slots[id]) && s.slots[id].row.jobName == name
  }

  predicate TickedOk(s: Sys, id: nat)
    requires id in s.slots
  {
    var v := s.slots[id];
    v.ticked && FirstAttempt(v) ==> v.row.jobName in s.cronRuns && s.cronRuns[v.row.jobName] == id
  }

  predicate CronOk(s: Sys) {
    && s.runningJobs == s.starting + s.cronRuns.Keys && s.starting !! s.cronRuns.Keys
    && (forall n {:trigger CronRunOk(s, n)} :: n in s.cronRuns ==> CronRunOk(s, n))
    && (forall id {:trigger TickedOk(s, id)} :: id in s.slots ==> TickedOk(s, id))
  }

  predicate DrainOk(s: Sys) {
    && (s.drain.NotStopping? <==> !s.shuttingDown)
    && (s.drain.Waiting? ==> s.drain.on == InFlight(s) && InFlight(s) != {})
    && (s.drain.Drained? ==> InFlight(s) == {})
  }

  ghost predicate Inv(s: Sys) { RowsOk(s) && CronOk(s) && DrainOk(s) }

  lemma InitialInv()
    ensures Inv(Initial())
  {
  }

  /** A stretch of one row that leaves its promise in flight, or does not concern it. */
  lemma StretchInv(s: Sys, id: nat, v: Slot)
    requires Inv(s) && id in s.slots && SlotOk(v, s.drain.Swept?)
    requires v.row.jobName == s.slots[id].row.jobName && v.ticked == s.slots[id].ticked
    requires s.slots[id].work.Some? ==> v.work.Some? && v.work.value.attempt == s.slots[id].work.value.attempt
    requires s.slots[id].work.None? && v.work.Some? ==> !s.shuttingDown && v.work.value.attempt != 1
    ensures Inv(s.(slots := s.slots[id := v]))
  {
    var t := s.(slots := s.slots[id := v]);
    forall x | x in t.slots ensures RowOk(t, x) && TickedOk(t, x) {
      assert RowOk(s, x) && TickedOk(s, x);
    }
    forall n | n in t.cronRuns ensures CronRunOk(t, n) {
      assert CronRunOk(s, n);
    }
    if s.shuttingDown {
      assert InFlight(t) == InFlight(s);
    }
  }

  lemma SettleInv(s: Sys, id: nat, v: Slot, rejected: bool)
    requires Inv(s) && id in s.slots && SlotOk(v, s.drain.Swept?)
    requires v.row.jobName == s.slots[id].row.jobName && s.slots[id].work.Some? && v.work.None?
    ensures Inv(Settle(s.(slots := s.slots[id := v]), id, rejected))
  {
    var t := Settle(s.(slots := s.slots[id := v]), id, rejected);
    assert InFlight(t) == InFlight(s) - {id};
    forall x | x in t.slots ensures RowOk(t, x) && TickedOk(t, x) {
      assert RowOk(s, x) && TickedOk(s, x);
    }
    forall n | n in t.cronRuns ensures CronRunOk(t, n) {
      assert CronRunOk(s, n);
    }
    assert t.runningJobs == t.starting + t.cronRuns.Keys;
  }

  lemma NextRowInv(s: Sys, id: nat, act: Act)
    requires Inv(s) && id in s.slots
    ensures Inv(NextRow(s, id, act))
  {
    assert RowOk(s, id);
    var v, v' := s.slots[id], NextSlot(s.slots[id], act, s.shuttingDown);
    SlotStaysOk(v, act, s.shuttingDown, s.drain.Swept?);
    SlotKeeps(v, act, s.shuttingDown);
    if v.work.Some? && v'.work.None? {
      SettleInv(s, id, v', Rejects(act));
    } else {
      StretchInv(s, id, v');
    }
  }

  /** A new row, and the cron run that may start with it. */
  lemma FreshInv(s: Sys, t: Sys, id: nat, v: Slot)
    requires Inv(s) && id !in s.slots && t.slots == s.slots[id := v]
    requires SlotOk(v, s.drain.Swept?) && (s.shuttingDown ==> v.work.None?)
    requires t.drain == s.drain && t.shuttingDown == s.shuttingDown
    requires t.runningJobs == t.starting + t.cronRuns.Keys && t.starting !! t.cronRuns.Keys
    requires forall n :: n in s.cronRuns ==> n in t.cronRuns && t.cronRuns[n] == s.cronRuns[n]
    requires forall n :: n in t.cronRuns && n !in s.cronRuns ==> t.cronRuns[n] == id && CronRunOk(t, n)
    requires TickedOk(t, id)
    ensures Inv(t)
  {
    forall x | x in t.slots ensures RowOk(t, x) && TickedOk(t, x) {
      if x != id {
        assert RowOk(s, x) && TickedOk(s, x);
      }
    }
    forall n | n in t.cronRuns ensures CronRunOk(t, n) {
      if n in s.cronRuns {
        assert CronRunOk(s, n);
      }
    }
    if s.shuttingDown {
      assert InFlight(t) == InFlight(s);
    }
  }

  /** The slots stay as they are. */
  lemma QuietInv(s: Sys, t: Sys)
    requires Inv(s) && t.slots == s.slots && t.cronRuns == s.cronRuns && t.shuttingDown == s.shuttingDown
    requires t.drain == s.drain || (s.drain.Waiting? && t.drain.TimedOut?)
    requires t.runningJobs == t.starting + t.cronRuns.Keys && t.starting !! t.cronRuns.Keys
    ensures Inv(t)
  {
    forall x | x in t.slots ensures RowOk(t, x) && TickedOk(t, x) {
      assert RowOk(s, x) && TickedOk(s, x);
    }
    forall n | n in t.cronRuns ensures CronRunOk(t, n) {
      assert CronRunOk(s, n);
    }
    assert InFlight(t) == InFlight(s);
  }

  lemma TickInv(s: Sys, name: string)
    requires Inv(s)
    ensures Inv(OnTick(s, name)) && Inv(OnTickFailed(s, name))
  {
    if name in s.registered && name !in s.runningJobs {
      QuietInv(s, OnTick(s, name));
    }
    if name in s.starting {
      assert name !in s.cronRuns.Keys;
      QuietInv(s, OnTickFailed(s, name));
    }
  }

  lemma TickRecordedInv(s: Sys, name: string, id: nat, m: Metadata)
    requires Inv(s)
    ensures Inv(OnTickRecorded(s, name, id, m))
  {
    if name in s.starting && id !in s.slots {
      var t := OnTickRecorded(s, name, id, m);
      assert name !in s.cronRuns.Keys;
      assert t.runningJobs == t.starting + t.cronRuns.Keys;
      FreshInv(s, t, id, Execute(Fresh(name, m, true), 1, s.shuttingDown));
    }
  }

  lemma RunNowRecordedInv(s: Sys, request: nat, id: nat, m: Metadata)
    requires Inv(s)
    ensures Inv(OnRunNowRecorded(s, request, id, m))
  {
    if request in s.manual && id !in s.slots {
      FreshInv(s, OnRunNowRecorded(s, request, id, m), id, Execute(Fresh(s.manual[request], m, false), 1, s.shuttingDown));
    }
  }

  lemma StopInv(s: Sys)
    requires Inv(s)
    ensures Inv(OnStop(s))
  {
    if !s.shuttingDown {
      var t := OnStop(s);
      assert InFlight(t) == InFlight(s);
      forall x | x in t.slots ensures RowOk(t, x) && TickedOk(t, x) {
        assert RowOk(s, x) && TickedOk(s, x);
      }
      forall n | n in t.cronRuns ensures CronRunOk(t, n) {
        assert CronRunOk(s, n);
      }
    }
  }

  lemma SweptSlotOk(v: Slot)
    requires SlotOk(v, false)
    ensures SlotOk(v.(row := SweptRow(v.row)), true)
  {
  }

  lemma SweepInv(s: Sys)
    requires Inv(s)
    ensures Inv(OnSweep(s))
  {
    if s.drain.Drained? || s.drain.TimedOut? {
      var t := OnSweep(s);
      forall x | x in t.slots ensures RowOk(t, x) && TickedOk(t, x) {
        assert RowOk(s, x) && TickedOk(s, x);
        SweptSlotOk(s.slots[x]);
      }
      forall n | n in t.cronRuns ensures CronRunOk(t, n) {
        assert CronRunOk(s, n);
      }
    }
  }

  lemma NextInv(s: Sys, e: Event)
    requires Inv(s)
    ensures Inv(Next(s, e))
  {
    match e
    case Tick(name) => TickInv(s, name);
    case TickFailed(name) => TickInv(s, name);
    case TickRecorded(name, id, m) => TickRecordedInv(s, name, id, m);
    case RunNowRecorded(request, id, m) => RunNowRecordedInv(s, request, id, m);
    case OnRow(id, act) => if id in s.slots { NextRowInv(s, id, act); }
    case Stop => StopInv(s);
    case Sweep => SweepInv(s);
    case Schedule(_) => QuietInv(s, Next(s, e));
    case RunNow(_, _) => QuietInv(s, Next(s, e));
    case RunNowFailed(_) => QuietInv(s, Next(s, e));
    case DrainTimeout => QuietInv(s, Next(s, e));
  }

  lemma {:induction false} RunInv(s: Sys, events: seq<Event>)
    requires Inv(s)
    ensures Inv(Run(s, events))
  {
    if events != [] {
      RunInv(s, events[..|events| - 1]);
      NextInv(Run(s, events[..|events| - 1]), events[|events| - 1]);
    }
  }
}

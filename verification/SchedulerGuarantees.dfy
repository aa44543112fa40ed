/** What the scheduler guarantees over every sequence of events. */
module SchedulerGuarantees {
  import opened Common
  import opened RunTracker
  import opened Scheduler

  /** The slots that an event changes, and how. */
  lemma Acts(s: Sys, e: Event, id: nat)
    requires id in s.slots
    ensures id in Next(s, e).slots
    ensures var v, v' := s.slots[id], Next(s, e).slots[id];
            if e.OnRow? && e.id == id then v' == NextSlot(v, e.act, s.shuttingDown)
            else if e.Stop? then v' == v || v' == v.(retry := None)
            else if e.Sweep? then v' == v || v' == v.(row := SweptRow(v.row))
            else v' == v
  {
  }

  lemma {:induction false} RowsRemain(s: Sys, events: seq<Event>, id: nat)
    requires id in s.slots
    ensures id in Run(s, events).slots
  {
    if events != [] {
      RowsRemain(s, events[..|events| - 1], id);
      Acts(Run(s, events[..|events| - 1]), events[|events| - 1], id);
    }
  }

  /******* The life of a row *******/

  /** The moves of a row before the final sweep. */
  predicate Moves(r: Row, r': Row) {
    || r' == r
    || (r.status.Pending? && r'.status.Running? && r'.attempt == r.attempt)
    || (r.status.Running? && SuccessLike(r'.status) && r'.attempt == r.attempt)
    || (r.status.Running? && r'.status.Failed? && 1 <= r'.attempt <= 3)
    || (r.status.Failed? && r'.status.Running? && r'.attempt == r.attempt < 3)
    || (r.status.Failed? && r'.status.DeadLetter? && r'.attempt == r.attempt == 3)
  }

  lemma SlotMoves(v: Slot, act: Act, stopping: bool)
    requires SlotOk(v, false)
    ensures Moves(v.row, NextSlot(v, act, stopping).row)
    ensures v.row.status.Failed? && NextSlot(v, act, stopping).row.status.Running? ==>
              v.work == Some(StartingRow(v.row.attempt + 1)) && v.row.attempt + 1 > 1
  {
  }

  /** pending -> running -> success-like or failed; failed -> running only by a retry, whose attempt is
      one more than the recorded one, with attempts left; failed -> dead_letter only from attempt 3. */
  lemma RowMoves(s: Sys, e: Event, id: nat)
    requires Inv(s) && id in s.slots && !s.drain.Swept? && !e.Sweep?
    ensures id in Next(s, e).slots
    ensures Moves(s.slots[id].row, Next(s, e).slots[id].row)
    ensures s.slots[id].row.status.Failed? && Next(s, e).slots[id].row.status.Running? ==>
              s.slots[id].work == Some(StartingRow(s.slots[id].row.attempt + 1))
  {
    Acts(s, e, id);
    assert RowOk(s, id);
    if e.OnRow? && e.id == id {
      SlotMoves(s.slots[id], e.act, s.shuttingDown);
    }
  }

  predicate Terminal(st: Status) { SuccessLike(st) || st.DeadLetter? }

  lemma TerminalStep(s: Sys, e: Event, id: nat)
    requires RowsOk(s) && id in s.slots && Terminal(s.slots[id].row.status)
    ensures id in Next(s, e).slots && Next(s, e).slots[id].row == s.slots[id].row
  {
    Acts(s, e, id);
    assert RowOk(s, id);
  }

  /** Success-like and dead-letter rows never change again, not even by the sweep. */
  lemma {:induction false} TerminalIsForever(s: Sys, events: seq<Event>, id: nat)
    requires Inv(s) && id in s.slots
    requires var st := s.slots[id].row.status; st.Succeeded? || st.CompletedWithReview? || st.DeadLetter?
    ensures id in Run(s, events).slots && Run(s, events).slots[id].row == s.slots[id].row
  {
    if events != [] {
      TerminalIsForever(s, events[..|events| - 1], id);
      RunInv(s, events[..|events| - 1]);
      TerminalStep(Run(s, events[..|events| - 1]), events[|events| - 1], id);
    }
  }

  /** The clean-up of a job (a closure releases its lease there) starts only when the row is durably in
      a success-like status: from that moment on the row never changes. */
  lemma CleanupAfterDurableSuccess(events: seq<Event>, id: nat, later: seq<Event>)
    requires id in Run(Initial(), events).slots
    requires Run(Initial(), events).slots[id].work.Some? && Run(Initial(), events).slots[id].work.value.Cleaning?
    ensures var s := Run(Initial(), events);
            && (s.slots[id].row.status.Succeeded? || s.slots[id].row.status.CompletedWithReview?)
            && id in Run(s, later).slots && Run(s, later).slots[id].row == s.slots[id].row
  {
    InitialInv();
    RunInv(Initial(), events);
    assert RowOk(Run(Initial(), events), id);
    TerminalIsForever(Run(Initial(), events), later, id);
  }

  /** The handler of a row is called with attempts 1, 2, 3 in this order and never a fourth time; a
      dead-letter row has used all three. */
  lemma AttemptsInOrder(events: seq<Event>, id: nat)
    requires id in Run(Initial(), events).slots
    ensures var v := Run(Initial(), events).slots[id];
            && |v.calls| <= 3 && (forall k :: 0 <= k < |v.calls| ==> v.calls[k] == k + 1)
            && (v.row.status.DeadLetter? ==> |v.calls| == 3)
  {
    InitialInv();
    RunInv(Initial(), events);
    assert RowOk(Run(Initial(), events), id);
    UpToAt(|Run(Initial(), events).slots[id].calls|);
  }

  lemma {:induction false} UpToAt(n: nat)
    ensures |UpTo(n)| == n && forall k :: 0 <= k < n ==> UpTo(n)[k] == k + 1
  {
    if n > 0 {
      UpToAt(n - 1);
    }
  }

  predicate Bound(r: Row, key: MetadataKey, value: string) {
    key in r.metadata && r.metadata[key] == value
  }

  lemma SlotKeepsBinding(v: Slot, act: Act, stopping: bool, key: MetadataKey, value: string)
    requires !key.Other? && Bound(v.row, key, value)
    ensures Bound(NextSlot(v, act, stopping).row, key, value)
  {
  }

  /** A binding key of the metadata a row was enqueued with keeps its value, whatever the handlers
      return: the lease owner and fence of a closure job among them. */
  lemma {:induction false} SchedulerKeepsBinding(s: Sys, events: seq<Event>, id: nat, key: MetadataKey)
    requires id in s.slots && !key.Other? && key in s.slots[id].row.metadata
    ensures id in Run(s, events).slots
    ensures key in Run(s, events).slots[id].row.metadata
    ensures Run(s, events).slots[id].row.metadata[key] == s.slots[id].row.metadata[key]
  {
    if events != [] {
      SchedulerKeepsBinding(s, events[..|events| - 1], id, key);
      var u, e := Run(s, events[..|events| - 1]), events[|events| - 1];
      Acts(u, e, id);
      if e.OnRow? {
        SlotKeepsBinding(u.slots[id], e.act, u.shuttingDown, key, s.slots[id].row.metadata[key]);
      }
    }
  }

  /** Attempts left come first, then the stages of one attempt. */
  function Rank(v: Slot): int {
    if v.work.Some? then
      8 * (MAX_ATTEMPTS - v.work.value.attempt) +
      match v.work.value
      case StartingRow(_) => 6
      case InHandler(_) => 5
      case Succeeding(_, _, _) => 4
      case Failing(_, _) => 3
      case Cleaning(_) => 1
      case DeadLettering(_, _) => 1
    else if v.retry.Some? then 8 * (MAX_ATTEMPTS - v.retry.value) + 8
    else 0
  }

  predicate SameStage(v: Slot, v': Slot) { v'.work == v.work && v'.retry == v.retry }

  lemma SlotRank(v: Slot, act: Act, stopping: bool, swept: bool)
    requires SlotOk(v, swept)
    ensures 0 <= Rank(v) <= 8 * MAX_ATTEMPTS
    ensures SameStage(v, NextSlot(v, act, stopping)) || Rank(NextSlot(v, act, stopping)) < Rank(v)
  {
  }

  lemma RankStep(s: Sys, e: Event, id: nat)
    requires RowsOk(s) && id in s.slots
    ensures id in Next(s, e).slots
    ensures 0 <= Rank(s.slots[id]) <= 8 * MAX_ATTEMPTS
    ensures SameStage(s.slots[id], Next(s, e).slots[id]) || Rank(Next(s, e).slots[id]) < Rank(s.slots[id])
  {
    Acts(s, e, id);
    assert RowOk(s, id);
    SlotRank(s.slots[id], if e.OnRow? then e.act else Cleaned, s.shuttingDown, s.drain.Swept?);
  }

  /** How many events of the run move the stage of `id`. */
  function Stages(s: Sys, events: seq<Event>, id: nat): nat
    requires id in s.slots
  {
    if events == [] then 0
    else
      RowsRemain(s, events[..|events| - 1], id);
      RowsRemain(s, events, id);
      Stages(s, events[..|events| - 1], id) +
      if SameStage(Run(s, events[..|events| - 1]).slots[id], Run(s, events).slots[id]) then 0 else 1
  }

  /** Retries terminate: however long the run, the stage of a row moves at most 24 times. */
  lemma {:induction false} RowsComeToRest(s: Sys, events: seq<Event>, id: nat)
    requires Inv(s) && id in s.slots
    ensures id in Run(s, events).slots
    ensures Stages(s, events, id) + Rank(Run(s, events).slots[id]) <= Rank(s.slots[id])
    ensures Stages(s, events, id) <= 24
  {
    RunInv(s, events);
    RowsRemain(s, events, id);
    RankStep(Run(s, events), Sweep, id);
    if events != [] {
      RowsComeToRest(s, events[..|events| - 1], id);
      RunInv(s, events[..|events| - 1]);
      RankStep(Run(s, events[..|events| - 1]), events[|events| - 1], id);
    }
    RankStep(s, Sweep, id);
  }

  /******* Shutdown *******/

  function CallsOf(s: Sys, id: nat): seq<nat> {
    if id in s.slots then s.slots[id].calls else []
  }

  lemma DrainStep(s: Sys, e: Event)
    requires s.shuttingDown
    ensures var t := Next(s, e);
            && t.shuttingDown && InFlight(t) <= InFlight(s)
            && (forall id :: id !in InFlight(s) ==> CallsOf(t, id) == CallsOf(s, id))
  {
    var t := Next(s, e);
    forall id | id in t.slots
      ensures id in InFlight(t) ==> id in InFlight(s)
      ensures id !in InFlight(s) ==> CallsOf(t, id) == CallsOf(s, id)
    {
      if id in s.slots {
        Acts(s, e, id);
      }
    }
    forall id | id !in t.slots ensures CallsOf(t, id) == CallsOf(s, id) {
      if id in s.slots {
        Acts(s, e, id);
      }
    }
  }

  /** Once stop has begun, nothing new gets in flight (a retry timer armed while draining starts nothing)
      and every handler called from then on belongs to a row that was in flight at that moment. */
  lemma {:induction false} DrainingOnlyShrinks(s: Sys, events: seq<Event>)
    requires s.shuttingDown
    ensures var t := Run(s, events);
            && t.shuttingDown && InFlight(t) <= InFlight(s)
            && (forall id :: id !in InFlight(s) ==> CallsOf(t, id) == CallsOf(s, id))
  {
    if events != [] {
      DrainingOnlyShrinks(s, events[..|events| - 1]);
      DrainStep(Run(s, events[..|events| - 1]), events[|events| - 1]);
    }
  }

  /** In particular a retry armed while draining runs no handler, ever: its timer only forgets it. */
  lemma RetryArmedWhileDrainingNeverRuns(s: Sys, events: seq<Event>, id: nat)
    requires Inv(s) && s.shuttingDown && id in s.slots && s.slots[id].retry.Some?
    ensures CallsOf(Run(s, events), id) == s.slots[id].calls && id !in InFlight(Run(s, events))
  {
    assert RowOk(s, id);
    DrainingOnlyShrinks(s, events);
  }

  /** The event ends the promise of `id`; `rejected` is how. */
  predicate Settles(s: Sys, e: Event, id: nat, rejected: bool) {
    && e.OnRow? && e.id == id && id in s.slots && s.slots[id].work.Some?
    && NextSlot(s.slots[id], e.act, s.shuttingDown).work.None? && Rejects(e.act) == rejected
  }

  /** stop waits for exactly what is in flight. It goes on when the last of it settles or its timeout
      fires, and it gives up, without its sweep, when an execution it waits for is rejected; nothing else
      ends the waiting. */
  lemma StopWaitsForExactlyTheInFlight(events: seq<Event>, e: Event)
    requires Run(Initial(), events).drain.Waiting?
    ensures var s, t := Run(Initial(), events), Next(Run(Initial(), events), e);
            && s.drain.on == InFlight(s) && InFlight(s) != {}
            && (t.drain.Drained? <==> exists id :: InFlight(s) == {id} && Settles(s, e, id, false))
            && (t.drain.Drained? ==> InFlight(t) == {})
            && (t.drain.TimedOut? <==> e == DrainTimeout)
            && (t.drain.Broken? <==> exists id :: Settles(s, e, id, true))
            && !t.drain.Swept? && !t.drain.NotStopping?
  {
    InitialInv();
    RunInv(Initial(), events);
    var s, t := Run(Initial(), events), Next(Run(Initial(), events), e);
    NextInv(s, e);
    if e.OnRow? && e.id in s.slots && s.slots[e.id].work.Some? && NextSlot(s.slots[e.id], e.act, s.shuttingDown).work.None? {
      var id := e.id;
      assert id in InFlight(s) && s.drain.on == InFlight(s);
      assert Settles(s, e, id, Rejects(e.act));
      assert s.drain.on - {id} == {} <==> s.drain.on == {id};
    }
  }

  /** When everything in flight finished in time, a row of this process is left running exactly where the
      write that should have closed it failed. */
  lemma DrainedLeavesNothingRunning(events: seq<Event>, id: nat)
    requires var s := Run(Initial(), events); s.drain.Drained? && id in s.slots
    ensures var v := Run(Initial(), events).slots[id]; v.row.status.Running? <==> v.lost
  {
    InitialInv();
    RunInv(Initial(), events);
    var s := Run(Initial(), events);
    assert RowOk(s, id) && id !in InFlight(s);
  }

  lemma BrokenStep(s: Sys, e: Event)
    requires s.drain.Broken? && s.shuttingDown
    ensures Next(s, e).drain.Broken? && Next(s, e).shuttingDown
  {
  }

  lemma {:induction false} BrokenForever(s: Sys, events: seq<Event>)
    requires s.drain.Broken? && s.shuttingDown
    ensures Run(s, events).drain.Broken? && Run(s, events).shuttingDown
  {
    if events != [] {
      BrokenForever(s, events[..|events| - 1]);
      BrokenStep(Run(s, events[..|events| - 1]), events[|events| - 1]);
    }
  }

  /** An execution that stop still waits for is rejected: its recordRunning failed, or a recordFinish of its
      catch block did. */
  predicate BreaksStop(s: Sys, e: Event) {
    && s.drain.Waiting? && e.OnRow? && e.id in s.drain.on && e.id in s.slots && s.slots[e.id].work.Some?
    && var w := s.slots[e.id].work.value;
       (e.act.RowRunningFailed? && w.StartingRow?) || (e.act.RowCloseFailed? && (w.Failing? || w.DeadLettering?))
  }

  lemma BreaksStep(s: Sys, e: Event)
    requires Inv(s) && !s.drain.Broken?
    ensures Next(s, e).drain.Broken? <==> BreaksStop(s, e)
  {
    if e.OnRow? && e.id in s.slots {
      assert RowOk(s, e.id);
    }
  }

  predicate BrokeAt(events: seq<Event>, i: int) {
    0 <= i < |events| && BreaksStop(Run(Initial(), events[..i]), events[i])
  }

  lemma BrokeAtPrefix(events: seq<Event>, n: nat, i: int)
    requires n <= |events| && i < n
    ensures BrokeAt(events[..n], i) == BrokeAt(events, i)
  {
    if 0 <= i {
      assert events[..n][..i] == events[..i];
    }
  }

  /** When stop never reaches its sweep: at whatever moment one looks, stop has failed iff at some earlier
      moment an execution that it was waiting for was rejected, by a failed write of recordRunning or
      recordFinish. From then on no later event sweeps. */
  lemma {:induction false} RejectionSkipsTheSweepIff(events: seq<Event>)
    ensures Run(Initial(), events).drain.Broken? <==> exists i :: BrokeAt(events, i)
  {
    hide Next, BreaksStop;
    if events != [] {
      var n := |events| - 1;
      var prefix, e := events[..n], events[n];
      var s := Run(Initial(), prefix);
      RejectionSkipsTheSweepIff(prefix);
      forall i | i < n ensures BrokeAt(prefix, i) == BrokeAt(events, i) {
        BrokeAtPrefix(events, n, i);
      }
      assert BrokeAt(events, n) == BreaksStop(s, e);
      hide Run, BrokeAt;
      BrokenStops(prefix);
      if s.drain.Broken? {
        BrokenStep(s, e);
        var i :| BrokeAt(prefix, i);
        BrokeAtRange(prefix, i);
        assert BrokeAt(events, i);
      } else {
        InitialInv();
        RunInv(Initial(), prefix);
        BreaksStep(s, e);
        forall i | i != n ensures !BrokeAt(events, i) {
          BrokeAtRange(events, i);
        }
      }
      RunStep(Initial(), prefix, e);
      assert prefix + [e] == events;
    }
  }

  lemma BrokeAtRange(events: seq<Event>, i: int)
    ensures BrokeAt(events, i) ==> 0 <= i < |events|
  {
  }

  lemma BrokenStops(events: seq<Event>)
    ensures Run(Initial(), events).drain.Broken? ==> Run(Initial(), events).shuttingDown
  {
    InitialInv();
    RunInv(Initial(), events);
  }

  /******* Runs that exist *******/

  /** Run, event by event. */
  lemma RunStep(s: Sys, events: seq<Event>, e: Event)
    ensures Run(s, events + [e]) == Next(Run(s, events), e)
  {
    assert (events + [e])[..|events|] == events;
  }

  lemma {:induction false} RunAppends(s: Sys, a: seq<Event>, b: seq<Event>)
    ensures Run(s, a + b) == Run(Run(s, a), b)
  {
    if b == [] {
      assert a + b == a;
    } else {
      RunAppends(s, a, b[..|b| - 1]);
      assert (a + b)[..|a + b| - 1] == a + b[..|b| - 1];
    }
  }

  lemma ThreeSteps(s: Sys, e1: Event, e2: Event, e3: Event)
    ensures Run(s, [e1, e2, e3]) == Next(Next(Next(s, e1), e2), e3)
  {
    hide Next;
    RunStep(s, [], e1);
    RunStep(s, [e1], e2);
    RunStep(s, [e1, e2], e3);
    assert [] + [e1] == [e1] && [e1] + [e2] == [e1, e2] && [e1, e2] + [e3] == [e1, e2, e3];
  }

  /** A job is registered, ticks, and its row is inserted. */
  function FirstTick(): seq<Event> { [Schedule("job"), Tick("job"), TickRecorded("job", 0, map[])] }

  /** The row of attempt 1 with handler calls `calls`, in the stage `work`. */
  function TickedSlot(status: Status, work: Option<Work>, retry: Option<nat>, controller: bool, calls: seq<nat>,
                      error: Option<string>): Slot {
    Slot(Row("job", status, 1, map[], error), work, retry, controller, calls, false, true)
  }

  function TickedSys(slot: Slot): Sys {
    Sys(map[0 := slot], {"job"}, {"job"}, {}, map["job" := 0], map[], false, NotStopping)
  }

  function Handling(): Slot { TickedSlot(Running, Some(InHandler(1)), None, true, [1], None) }

  lemma FirstTickRuns()
    ensures Run(Initial(), FirstTick() + [OnRow(0, RowRunning)]) == TickedSys(Handling())
  {
    var e := FirstTick();
    ThreeSteps(Initial(), e[0], e[1], e[2]);
    RunStep(Initial(), FirstTick(), OnRow(0, RowRunning));
    assert Next(Initial(), e[0]) == Initial().(registered := {"job"});
    assert Next(Next(Initial(), e[0]), e[1]) == Initial().(registered := {"job"}, runningJobs := {"job"}, starting := {"job"});
    var v := TickedSlot(Pending, Some(StartingRow(1)), None, true, [], None);
    assert Execute(Fresh("job", map[], true), 1, false) == v;
    assert Run(Initial(), e) == TickedSys(v);
    assert NextSlot(v, RowRunning, false) == Handling();
    assert Next(TickedSys(v), OnRow(0, RowRunning)) == TickedSys(Handling());
  }

  /** A stretch of a row whose promise goes on, or was not there. */
  lemma StretchStep(s: Sys, id: nat, act: Act, v: Slot)
    requires id in s.slots && NextSlot(s.slots[id], act, s.shuttingDown) == v
    requires s.slots[id].work.Some? ==> v.work.Some?
    ensures Next(s, OnRow(id, act)) == s.(slots := s.slots[id := v])
  {
    hide NextSlot;
  }

  lemma HandlerFails(v: Slot, error: string, stopping: bool)
    requires v.work.Some? && v.work.value.InHandler?
    ensures NextSlot(v, HandlerThrew(error), stopping) == v.(work := Some(Failing(v.work.value.attempt, error)))
  {
  }

  lemma RowStarts(v: Slot, stopping: bool)
    requires v.work.Some? && v.work.value.StartingRow?
    ensures NextSlot(v, RowRunning, stopping) ==
            v.(row := v.row.(status := Running), work := Some(InHandler(v.work.value.attempt)),
               calls := v.calls + [v.work.value.attempt])
  {
  }

  lemma StopStep(s: Sys)
    requires !s.shuttingDown && InFlight(s) != {}
    ensures var t := Next(s, Stop);
            && t.shuttingDown && t.drain == Waiting(InFlight(s)) && t.slots.Keys == s.slots.Keys
            && forall id <- s.slots :: t.slots[id] == s.slots[id].(retry := None)
  {
  }

  lemma RejectedStep(s: Sys, id: nat)
    requires s.drain.Waiting? && id in s.drain.on && id in s.slots
    requires s.slots[id].work.Some? && s.slots[id].work.value.Failing?
    ensures var t := Next(s, OnRow(id, RowCloseFailed));
            && t.drain.Broken? && t.shuttingDown == s.shuttingDown && id in t.slots
            && t.slots[id] == s.slots[id].(work := None, lost := true, controller := false)
  {
  }

  /** A stop that fails: a handler throws while stop waits, and the write of the failure fails too. */
  function BrokenRun(): seq<Event> {
    FirstTick() + [OnRow(0, RowRunning)] + [Stop, OnRow(0, HandlerThrew("boom")), OnRow(0, RowCloseFailed)]
  }

  lemma BrokenRunEnds()
    ensures var s := Run(Initial(), BrokenRun());
            && s.drain.Broken? && s.shuttingDown && 0 in s.slots
            && s.slots[0].work.None? && s.slots[0].retry.None? && s.slots[0].row.status.Running?
  {
    hide Run, Next, NextSlot, NextRow;
    var s4, throws, fails := TickedSys(Handling()), OnRow(0, HandlerThrew("boom")), OnRow(0, RowCloseFailed);
    FirstTickRuns();
    RunAppends(Initial(), FirstTick() + [OnRow(0, RowRunning)], [Stop, throws, fails]);
    ThreeSteps(s4, Stop, throws, fails);
    assert 0 in InFlight(s4);
    StopStep(s4);
    var s5 := Next(s4, Stop);
    HandlerFails(s5.slots[0], "boom", true);
    var v := s5.slots[0].(work := Some(Failing(1, "boom")));
    StretchStep(s5, 0, HandlerThrew("boom"), v);
    var s6 := s5.(slots := s5.slots[0 := v]);
    RejectedStep(s6, 0);
  }

  /** Whatever comes after it, the row of that run stays running and stop never sweeps it. */
  lemma RejectionLeavesARowRunning(later: seq<Event>)
    ensures var s := Run(Initial(), BrokenRun() + later);
            s.drain.Broken? && 0 in s.slots && s.slots[0].row.status.Running?
  {
    hide BrokenRun;
    BrokenRunEnds();
    RunAppends(Initial(), BrokenRun(), later);
    LostForever(Run(Initial(), BrokenRun()), later, 0);
    BrokenForever(Run(Initial(), BrokenRun()), later);
  }

  lemma {:induction false} LostForever(s: Sys, events: seq<Event>, id: nat)
    requires s.drain.Broken? && s.shuttingDown && id in s.slots
    requires s.slots[id].work.None? && s.slots[id].retry.None? && s.slots[id].row.status.Running?
    ensures var t := Run(s, events);
            id in t.slots && t.slots[id].work.None? && t.slots[id].retry.None? && t.slots[id].row.status.Running?
  {
    if events != [] {
      LostForever(s, events[..|events| - 1], id);
      BrokenForever(s, events[..|events| - 1]);
      Acts(Run(s, events[..|events| - 1]), events[|events| - 1], id);
    }
  }
}

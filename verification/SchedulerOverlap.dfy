/** The guard against a second run of one job while the first is under way: what it covers, and exactly when
  an execution starts beside another one of its job (packages/scheduler/src/scheduler.ts).
 */
module SchedulerOverlap {
  import opened Common
  import opened RunTracker
  import opened Scheduler
  import opened SchedulerGuarantees

  /** An execution of the job is in flight that the guard over running names does not see: a manual run or
      a retry. */
  predicate Unguarded(s: Sys, name: string) {
    exists id :: id in InFlight(s) && s.slots[id].row.jobName == name &&
                 (!s.slots[id].ticked || s.slots[id].work.value.attempt > 1)
  }

  /** A tick of the job holds its name, and its row is inserted. */
  predicate Held(s: Sys, name: string) { name in s.runningJobs && name !in s.starting }

  /** Another execution of the same job is in flight beside this one. */
  predicate Beside(s: Sys, id: nat) {
    id in InFlight(s) &&
    exists other :: other in InFlight(s) && other != id && s.slots[other].row.jobName == s.slots[id].row.jobName
  }

  /** The event puts a new execution in flight. */
  predicate Starts(s: Sys, e: Event, id: nat) { id !in InFlight(s) && id in InFlight(Next(s, e)) }

  lemma StartsAre(s: Sys, e: Event, id: nat)
    requires Starts(s, e, id)
    ensures (e.TickRecorded? && e.id == id) || (e.RunNowRecorded? && e.id == id) || (e.OnRow? && e.id == id)
    ensures Next(s, e).slots == s.slots[id := Next(s, e).slots[id]]
    ensures InFlight(Next(s, e)) == InFlight(s) + {id}
    ensures e.TickRecorded? ==> e.name in s.starting && Next(s, e).slots[id].row.jobName == e.name
    ensures e.OnRow? ==> id in s.slots && Next(s, e).slots[id].row.jobName == s.slots[id].row.jobName
  {
  }

  lemma InFlightOfJob(s: Sys, name: string)
    requires Inv(s)
    ensures (exists id :: id in InFlight(s) && s.slots[id].row.jobName == name) <==> Held(s, name) || Unguarded(s, name)
    ensures name in s.starting ==> !Held(s, name)
  {
    if id :| id in InFlight(s) && s.slots[id].row.jobName == name {
      assert TickedOk(s, id) && RowOk(s, id);
    }
    if Held(s, name) {
      assert name in s.cronRuns.Keys;
      assert CronRunOk(s, name);
      assert s.cronRuns[name] in InFlight(s);
    }
  }

  /** When a new execution starts beside another one of its job, told from what the scheduler holds at
      that moment. A tick that the guard let through: iff a manual run or a retry of the job is in flight.
      A manual run or a retry: iff one of those is, or a tick holds the job's name with its row inserted. */
  lemma StartsBesideIff(s: Sys, e: Event, id: nat)
    requires Inv(s) && Starts(s, e, id)
    ensures var t := Next(s, e);
            var name := t.slots[id].row.jobName;
            Beside(t, id) <==> Unguarded(s, name) || (!e.TickRecorded? && Held(s, name))
  {
    var t := Next(s, e);
    StartsAre(s, e, id);
    var name := t.slots[id].row.jobName;
    InFlightOfJob(s, name);
    hide Next, Inv, Unguarded, Held;
    forall x | x in InFlight(s) ensures x != id && t.slots[x] == s.slots[x] {
    }
    if x :| x in InFlight(s) && s.slots[x].row.jobName == name {
      assert x in InFlight(t);
    }
  }

  ghost predicate Overlaps(s: Sys) { exists id :: Beside(s, id) }

  /** The event starts an execution where StartsBesideIff says that another one is in flight. */
  ghost predicate StartsOverlap(s: Sys, e: Event) {
    exists id :: id in Next(s, e).slots && Starts(s, e, id) &&
                 var name := Next(s, e).slots[id].row.jobName;
                 Unguarded(s, name) || (!e.TickRecorded? && Held(s, name))
  }

  lemma KeepsJob(s: Sys, e: Event, id: nat)
    requires Inv(s) && id in s.slots
    ensures id in Next(s, e).slots && Next(s, e).slots[id].row.jobName == s.slots[id].row.jobName
  {
    Acts(s, e, id);
    assert RowOk(s, id);
    if e.OnRow? && e.id == id {
      SlotKeeps(s.slots[id], e.act, s.shuttingDown);
    }
  }

  /** One more event: two executions of a job overlap after it only if they did before or it starts one of
      them beside the other. */
  lemma OverlapStep(s: Sys, e: Event)
    requires Inv(s)
    ensures Overlaps(Next(s, e)) ==> Overlaps(s) || StartsOverlap(s, e)
    ensures StartsOverlap(s, e) ==> Overlaps(Next(s, e))
  {
    var t := Next(s, e);
    if a :| Beside(t, a) {
      var b :| b in InFlight(t) && b != a && t.slots[b].row.jobName == t.slots[a].row.jobName;
      if a in InFlight(s) && b in InFlight(s) {
        KeepsJob(s, e, a);
        KeepsJob(s, e, b);
        assert Beside(s, a);
      } else {
        var id := if a in InFlight(s) then b else a;
        assert Beside(t, id) && Starts(s, e, id);
        StartsBesideIff(s, e, id);
      }
    }
    if StartsOverlap(s, e) {
      var id :| id in t.slots && Starts(s, e, id) &&
                var name := t.slots[id].row.jobName; Unguarded(s, name) || (!e.TickRecorded? && Held(s, name));
      StartsBesideIff(s, e, id);
    }
  }

  ghost predicate OverlapsAt(events: seq<Event>, n: int) { 0 <= n <= |events| && Overlaps(Run(Initial(), events[..n])) }

  ghost predicate StartsAt(events: seq<Event>, i: int) {
    0 <= i < |events| && StartsOverlap(Run(Initial(), events[..i]), events[i])
  }

  /** Over any run: two executions of one job are at some moment in flight together iff at some moment an
      execution was started where the condition of StartsBesideIff held. The guard rules out nothing else
      and nothing less. */
  lemma {:induction false} JobsOverlapIff(events: seq<Event>)
    ensures (exists n :: OverlapsAt(events, n)) <==> (exists i :: StartsAt(events, i))
  {
    if n :| OverlapsAt(events, n) {
      OverlapWasStarted(events, n);
    }
    if i :| StartsAt(events, i) {
      StateAt(events, i);
      OverlapStep(Run(Initial(), events[..i]), events[i]);
      assert OverlapsAt(events, i + 1);
    }
  }

  lemma StateAt(events: seq<Event>, i: nat)
    requires i < |events|
    ensures Inv(Run(Initial(), events[..i]))
    ensures Run(Initial(), events[..i + 1]) == Next(Run(Initial(), events[..i]), events[i])
  {
    InitialInv();
    RunInv(Initial(), events[..i]);
    RunStep(Initial(), events[..i], events[i]);
    assert events[..i] + [events[i]] == events[..i + 1];
  }

  lemma NothingOverlapsAtFirst(events: seq<Event>)
    ensures !OverlapsAt(events, 0)
  {
    assert events[..0] == [] && InFlight(Run(Initial(), [])) == {};
  }

  lemma {:induction false} OverlapWasStarted(events: seq<Event>, n: int)
    requires OverlapsAt(events, n)
    ensures exists i :: StartsAt(events, i)
    decreases n
  {
    NothingOverlapsAtFirst(events);
    if n > 0 {
      StateAt(events, n - 1);
      OverlapStep(Run(Initial(), events[..n - 1]), events[n - 1]);
      if Overlaps(Run(Initial(), events[..n - 1])) {
        assert OverlapsAt(events, n - 1);
        OverlapWasStarted(events, n - 1);
      } else {
        assert StartsAt(events, n - 1);
      }
    }
  }

  /** What the guard does give: first attempts of ticks of one job never overlap. */
  lemma GuardCoversFirstAttemptsOfTicks(events: seq<Event>, a: nat, b: nat)
    requires var s := Run(Initial(), events);
             && a != b && a in InFlight(s) && b in InFlight(s) && s.slots[a].row.jobName == s.slots[b].row.jobName
    ensures var s := Run(Initial(), events);
            || !s.slots[a].ticked || !s.slots[b].ticked
            || s.slots[a].work.value.attempt > 1 || s.slots[b].work.value.attempt > 1
  {
    InitialInv();
    RunInv(Initial(), events);
    var s := Run(Initial(), events);
    assert TickedOk(s, a) && TickedOk(s, b) && RowOk(s, a) && RowOk(s, b);
  }

  /******* Both happen *******/

  /** Two handlers of one job run side by side. */
  predicate SideBySide(s: Sys, a: nat, b: nat) {
    && Beside(s, a) && b in InFlight(s) && a != b && s.slots[b].row.jobName == s.slots[a].row.jobName
    && s.slots[a].work.value.InHandler? && s.slots[b].work.value.InHandler?
  }

  lemma RunNowSteps(s: Sys, request: nat, name: string, id: nat)
    requires !s.shuttingDown && name in s.registered && request !in s.manual && id !in s.slots
    ensures var v := Fresh(name, map[], false).(work := Some(StartingRow(1)), controller := true);
            Next(Next(s, RunNow(request, name)), RunNowRecorded(request, id, map[])) == s.(slots := s.slots[id := v])
  {
    assert s.manual[request := name] - {request} == s.manual;
  }

  lemma TickRecordedStep(s: Sys, name: string, id: nat)
    requires !s.shuttingDown && name in s.starting && id !in s.slots
    ensures var t := Next(s, TickRecorded(name, id, map[]));
            && t.slots == s.slots[id := Fresh(name, map[], true).(work := Some(StartingRow(1)), controller := true)]
            && !t.shuttingDown
  {
  }

  lemma TimerStep(v: Slot)
    requires v.retry.Some?
    ensures NextSlot(v, TimerFired, false) == v.(retry := None, work := Some(StartingRow(v.retry.value)), controller := true)
  {
  }

  lemma BothHandling(s: Sys, a: nat, b: nat)
    requires a != b && a in s.slots && b in s.slots && s.slots[a].row.jobName == s.slots[b].row.jobName
    requires s.slots[a].work.Some? && s.slots[b].work.Some?
    requires s.slots[a].work.value.InHandler? && s.slots[b].work.value.InHandler?
    ensures SideBySide(s, a, b)
  {
    assert a in InFlight(s) && b in InFlight(s);
  }

  function ManualRun(): seq<Event> {
    FirstTick() + [OnRow(0, RowRunning)] + [RunNow(0, "job"), RunNowRecorded(0, 1, map[]), OnRow(1, RowRunning)]
  }

  /** A manual run beside a tick. */
  lemma RunNowOverlapsATick()
    ensures SideBySide(Run(Initial(), ManualRun()), 1, 0)
  {
    hide Run, Next, NextSlot, SideBySide;
    var s4, e := TickedSys(Handling()), [RunNow(0, "job"), RunNowRecorded(0, 1, map[]), OnRow(1, RowRunning)];
    FirstTickRuns();
    RunAppends(Initial(), FirstTick() + [OnRow(0, RowRunning)], e);
    ThreeSteps(s4, e[0], e[1], e[2]);
    RunNowSteps(s4, 0, "job", 1);
    var v := Fresh("job", map[], false).(work := Some(StartingRow(1)), controller := true);
    var s6 := s4.(slots := s4.slots[1 := v]);
    RowStarts(v, false);
    StretchStep(s6, 1, RowRunning, NextSlot(v, RowRunning, false));
    BothHandling(s6.(slots := s6.slots[1 := NextSlot(v, RowRunning, false)]), 1, 0);
  }

  /** The first attempt fails, its write goes through, and a retry is armed; then the job ticks. */
  function FirstAttemptFails(): seq<Event> {
    FirstTick() + [OnRow(0, RowRunning)] + [OnRow(0, HandlerThrew("boom")), OnRow(0, RowClosed), Tick("job")]
  }

  function RetryRun(): seq<Event> {
    FirstAttemptFails() + [TickRecorded("job", 1, map[]), OnRow(1, RowRunning), OnRow(0, TimerFired)] +
    [OnRow(0, RowRunning)]
  }

  lemma FailureClosedStep(s: Sys, id: nat)
    requires id in s.slots && s.slots[id].work.Some? && s.slots[id].work.value.Failing?
    requires s.slots[id].work.value.attempt == 1 && !s.shuttingDown
    ensures var t := Next(s, OnRow(id, RowClosed));
            && id in t.slots && t.slots[id].work.None? && t.slots[id].retry == Some(2)
            && t.slots[id].row.jobName == s.slots[id].row.jobName
            && t.slots.Keys == s.slots.Keys && t.registered == s.registered && !t.shuttingDown
            && t.runningJobs == s.runningJobs - (set n | n in s.cronRuns && s.cronRuns[n] == id)
  {
  }

  lemma TickStep(s: Sys, name: string)
    requires name in s.registered && name !in s.runningJobs
    ensures Next(s, Tick(name)) == s.(runningJobs := s.runningJobs + {name}, starting := s.starting + {name})
  {
  }

  lemma FirstAttemptFailsRuns()
    ensures var s := Run(Initial(), FirstAttemptFails());
            && !s.shuttingDown && "job" in s.starting && s.slots.Keys == {0}
            && s.slots[0].row.jobName == "job" && s.slots[0].work.None? && s.slots[0].retry == Some(2)
  {
    hide Run, Next, NextSlot;
    var s4, e := TickedSys(Handling()), [OnRow(0, HandlerThrew("boom")), OnRow(0, RowClosed), Tick("job")];
    FirstTickRuns();
    RunAppends(Initial(), FirstTick() + [OnRow(0, RowRunning)], e);
    ThreeSteps(s4, e[0], e[1], e[2]);
    HandlerFails(Handling(), "boom", false);
    var v := Handling().(work := Some(Failing(1, "boom")));
    StretchStep(s4, 0, HandlerThrew("boom"), v);
    var s5 := s4.(slots := s4.slots[0 := v]);
    FailureClosedStep(s5, 0);
    assert "job" in s5.cronRuns && s5.cronRuns["job"] == 0;
    TickStep(Next(s5, OnRow(0, RowClosed)), "job");
  }

  /** A retry beside a tick: while the first tick's row waits for its retry the name is free, so the next
      tick of the job runs, and the retry joins it. */
  lemma RetryOverlapsATick()
    ensures SideBySide(Run(Initial(), RetryRun()), 0, 1)
  {
    hide Run, Next, NextSlot, SideBySide, FirstAttemptFails;
    var e := [TickRecorded("job", 1, map[]), OnRow(1, RowRunning), OnRow(0, TimerFired)];
    FirstAttemptFailsRuns();
    var s7 := Run(Initial(), FirstAttemptFails());
    RunAppends(Initial(), FirstAttemptFails(), e);
    RunStep(Initial(), FirstAttemptFails() + e, OnRow(0, RowRunning));
    ThreeSteps(s7, e[0], e[1], e[2]);
    TickRecordedStep(s7, "job", 1);
    var s8 := Next(s7, e[0]);
    var v := NextSlot(s8.slots[1], RowRunning, false);
    RowStarts(s8.slots[1], false);
    StretchStep(s8, 1, RowRunning, v);
    var s9 := s8.(slots := s8.slots[1 := v]);
    var u := NextSlot(s9.slots[0], TimerFired, false);
    TimerStep(s9.slots[0]);
    StretchStep(s9, 0, TimerFired, u);
    var s10 := s9.(slots := s9.slots[0 := u]);
    var w := NextSlot(u, RowRunning, false);
    RowStarts(u, false);
    StretchStep(s10, 0, RowRunning, w);
    BothHandling(s10.(slots := s10.slots[0 := w]), 0, 1);
  }
}

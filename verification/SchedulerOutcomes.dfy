/** How a row ends, told by what its handler did: over every run, the status, metadata, error and attempt
    that the closing write leaves are those of the handler's own result or exception. */
module SchedulerOutcomes {
  import opened Common
  import opened RunTracker
  import opened Scheduler
  import opened SchedulerGuarantees

  /** The outcome of a closing write of row `id`. */
  predicate Closes(e: Event, id: nat) {
    e == OnRow(id, RowClosed) || e == OnRow(id, RowCloseFailed)
  }

  /** Event `j` is the first closing write of row `id` after event `i` to have an outcome, and it went through. */
  predicate ClosedNext(events: seq<Event>, id: nat, i: nat, j: nat) {
    && i < j < |events| && events[j] == OnRow(id, RowClosed)
    && forall k :: i < k < j ==> !Closes(events[k], id)
  }

  /** The state just before event `n`. */
  function Before(events: seq<Event>, n: nat): Sys
    requires n <= |events|
  {
    Run(Initial(), events[..n])
  }

  lemma BeforeNext(events: seq<Event>, n: nat)
    requires n < |events|
    ensures Before(events, n + 1) == Next(Before(events, n), events[n])
  {
    assert events[..n + 1][..n] == events[..n];
  }

  /** A promise that waits for a closing write waits on while other things happen, and only that write
      touches the row's metadata and attempt. */
  lemma {:induction false} WriteIsAwaited(events: seq<Event>, id: nat, i: nat, j: nat, w: Work)
    requires i <= j <= |events| && id in Before(events, i).slots && Before(events, i).slots[id].work == Some(w)
    requires w.Succeeding? || w.Failing? || w.DeadLettering?
    requires forall k :: i <= k < j ==> !Closes(events[k], id)
    ensures id in Before(events, j).slots
    ensures var v, v' := Before(events, i).slots[id], Before(events, j).slots[id];
            && v'.work == Some(w) && v'.row.metadata == v.row.metadata && v'.row.attempt == v.row.attempt
            && v'.row.jobName == v.row.jobName && v'.calls == v.calls
            && (v.retry.None? ==> v'.retry.None?)
    decreases j - i
  {
    if i < j {
      WriteIsAwaited(events, id, i, j - 1, w);
      BeforeNext(events, j - 1);
      Acts(Before(events, j - 1), events[j - 1], id);
      InvBefore(events, j - 1);
      assert RowOk(Before(events, j - 1), id);
    }
  }

  lemma InvBefore(events: seq<Event>, n: nat)
    requires n <= |events|
    ensures Inv(Before(events, n))
  {
    InitialInv();
    RunInv(Initial(), events[..n]);
  }

  /** What a handler returns and the result of its successful closing write: the row gets exactly the
      returned status, so a run that completed with review never reads as succeeded. Its other columns stay,
      but for the metadata: returned metadata replaces all keys that bind nothing, and binds only keys that
      nothing had bound; an empty one leaves the stored metadata alone. */
  lemma RowEndsAsItsHandlerReturned(events: seq<Event>, id: nat, i: nat, j: nat, st: Status, m: Metadata)
    requires ClosedNext(events, id, i, j) && events[i] == OnRow(id, HandlerReturned(st, m))
    requires st.Succeeded? || st.CompletedWithReview?
    requires id in Before(events, i).slots
    requires Before(events, i).slots[id].work.Some? && Before(events, i).slots[id].work.value.InHandler?
    ensures id in Before(events, j + 1).slots
    ensures var row, row' := Before(events, i).slots[id].row, Before(events, j + 1).slots[id].row;
            && row'.status == st && row'.attempt == row.attempt && row'.jobName == row.jobName
            && (m == map[] ==> row'.metadata == row.metadata)
            && (m != map[] ==> forall k: MetadataKey ::
                  var source := if !k.Other? && k in row.metadata then row.metadata else m;
                  (k in row'.metadata <==> k in source) && (k in source ==> row'.metadata[k] == source[k]))
  {
    hide Run;
    var v := Before(events, i).slots[id];
    var w := Succeeding(v.work.value.attempt, st, m);
    BeforeNext(events, i);
    Acts(Before(events, i), events[i], id);
    InvBefore(events, i);
    assert RowOk(Before(events, i), id);
    WriteIsAwaited(events, id, i + 1, j, w);
    BeforeNext(events, j);
    Acts(Before(events, j), events[j], id);
    InvBefore(events, j);
    assert RowOk(Before(events, j), id);
    var v1 := Before(events, j).slots[id];
    assert NextSlot(v1, RowClosed, Before(events, j).shuttingDown) == Closed(v1, w);
    hide Before, NextSlot;
  }

  /** The row once the failure of an attempt is written: failed, with that error and that attempt. A retry
      with the next attempt is armed while fewer than three have been made; otherwise the dead-letter write
      of the same failure comes next. */
  predicate FailureRecorded(v: Slot, attempt: nat, error: string) {
    && v.row.status.Failed? && v.row.error == Some(error) && v.row.attempt == attempt && 1 <= attempt <= 3
    && (attempt < 3 ==> v.retry == Some(attempt + 1) && v.work == None)
    && (attempt == 3 ==> v.retry == None && v.work == Some(DeadLettering(3, error)))
  }

  lemma FailureIsWritten(events: seq<Event>, id: nat, i: nat, j: nat, attempt: nat, error: string)
    requires ClosedNext(events, id, i, j) && id in Before(events, i + 1).slots
    requires Before(events, i + 1).slots[id].work == Some(Failing(attempt, error))
    ensures id in Before(events, j + 1).slots
    ensures FailureRecorded(Before(events, j + 1).slots[id], attempt, error)
    ensures Before(events, j + 1).slots[id].row.metadata == Before(events, i + 1).slots[id].row.metadata
  {
    hide Run;
    WriteIsAwaited(events, id, i + 1, j, Failing(attempt, error));
    BeforeNext(events, j);
    Acts(Before(events, j), events[j], id);
    InvBefore(events, j);
    assert RowOk(Before(events, j), id);
  }

  /** After a handler throws and its failure is written, the row is failed with the error it threw and the
      attempt it was called with, and it is retried iff attempts are left. */
  lemma RowFailsAsItsHandlerThrew(events: seq<Event>, id: nat, i: nat, j: nat, error: string)
    requires ClosedNext(events, id, i, j) && events[i] == OnRow(id, HandlerThrew(error))
    requires id in Before(events, i).slots
    requires Before(events, i).slots[id].work.Some? && Before(events, i).slots[id].work.value.InHandler?
    ensures id in Before(events, j + 1).slots
    ensures FailureRecorded(Before(events, j + 1).slots[id], Before(events, i).slots[id].work.value.attempt, error)
    ensures Before(events, j + 1).slots[id].row.metadata == Before(events, i).slots[id].row.metadata
  {
    hide Run;
    BeforeNext(events, i);
    Acts(Before(events, i), events[i], id);
    InvBefore(events, i);
    assert RowOk(Before(events, i), id);
    FailureIsWritten(events, id, i, j, Before(events, i).slots[id].work.value.attempt, error);
  }

  /** A success whose closing write fails counts as a failed attempt: the next write records that failure,
      and the handler that had succeeded is retried like any other. */
  lemma LostSuccessIsAFailedAttempt(events: seq<Event>, id: nat, i: nat, j: nat)
    requires ClosedNext(events, id, i, j) && events[i] == OnRow(id, RowCloseFailed)
    requires id in Before(events, i).slots
    requires Before(events, i).slots[id].work.Some? && Before(events, i).slots[id].work.value.Succeeding?
    ensures id in Before(events, j + 1).slots
    ensures FailureRecorded(Before(events, j + 1).slots[id], Before(events, i).slots[id].work.value.attempt, "write failed")
  {
    hide Run;
    BeforeNext(events, i);
    Acts(Before(events, i), events[i], id);
    InvBefore(events, i);
    assert RowOk(Before(events, i), id);
    FailureIsWritten(events, id, i, j, Before(events, i).slots[id].work.value.attempt, "write failed");
  }

  /** The third failure ends in a dead letter that carries the error of the last attempt. */
  lemma ThirdFailureIsADeadLetter(events: seq<Event>, id: nat, i: nat, j: nat, error: string)
    requires i < |events| && ClosedNext(events, id, i, j) && id in Before(events, i + 1).slots
    requires Before(events, i + 1).slots[id].work == Some(DeadLettering(3, error))
    ensures id in Before(events, j + 1).slots
    ensures var v := Before(events, j + 1).slots[id];
            && v.row.status.DeadLetter? && v.row.error == Some(error) && v.row.attempt == 3
            && v.work == None && v.retry == None
  {
    hide Run;
    WriteIsAwaited(events, id, i + 1, j, DeadLettering(3, error));
    BeforeNext(events, j);
    Acts(Before(events, j), events[j], id);
    InvBefore(events, j);
    assert RowOk(Before(events, j), id);
  }

  /** A handler is called only behind a durable `running`, with the number of handler calls made so far
      plus one as its attempt. */
  lemma HandlerRunsOnARunningRow(events: seq<Event>, id: nat, n: nat)
    requires n < |events| && events[n] == OnRow(id, RowRunning) && id in Before(events, n).slots
    requires Before(events, n).slots[id].work.Some? && Before(events, n).slots[id].work.value.StartingRow?
    ensures id in Before(events, n + 1).slots
    ensures var v, v' := Before(events, n).slots[id], Before(events, n + 1).slots[id];
            && v'.row == v.row.(status := Running) && v'.work == Some(InHandler(v.work.value.attempt))
            && v'.calls == v.calls + [|v.calls| + 1] && v.work.value.attempt == |v.calls| + 1
            && 1 <= v.work.value.attempt <= 3
  {
    hide Run;
    BeforeNext(events, n);
    Acts(Before(events, n), events[n], id);
    InvBefore(events, n);
    assert RowOk(Before(events, n), id);
    LengthOfUpTo(Before(events, n).slots[id].work.value.attempt - 1);
  }

  lemma AbortableStep(s: Sys, e: Event, id: nat)
    requires id in Next(s, e).slots && Next(s, e).slots[id].work.Some?
    requires id in s.slots && s.slots[id].work.Some? ==> s.slots[id].controller
    ensures Next(s, e).slots[id].controller
  {
    if id in s.slots {
      Acts(s, e, id);
    }
  }

  /** Whatever is in flight has an abort controller, so that the timeout of stop reaches all of it. */
  lemma {:induction false} InFlightCanBeAborted(events: seq<Event>, id: nat)
    requires id in Run(Initial(), events).slots && Run(Initial(), events).slots[id].work.Some?
    ensures Run(Initial(), events).slots[id].controller
  {
    if events != [] {
      var s := Run(Initial(), events[..|events| - 1]);
      if id in s.slots && s.slots[id].work.Some? {
        InFlightCanBeAborted(events[..|events| - 1], id);
      }
      AbortableStep(s, events[|events| - 1], id);
    }
  }

  /** A retry timer that fires outside shutdown starts the armed attempt on the same row. */
  lemma TimerStartsTheArmedAttempt(events: seq<Event>, id: nat, n: nat)
    requires n < |events| && events[n] == OnRow(id, TimerFired) && id in Before(events, n).slots
    requires Before(events, n).slots[id].retry.Some? && !Before(events, n).shuttingDown
    ensures id in Before(events, n + 1).slots
    ensures var v, v' := Before(events, n).slots[id], Before(events, n + 1).slots[id];
            && v'.work == Some(StartingRow(v.retry.value)) && v'.retry == None && v'.row == v.row && v'.calls == v.calls
            && v.retry.value == |v.calls| + 1 == v.row.attempt + 1 && v.row.status.Failed?
  {
    hide Run;
    BeforeNext(events, n);
    Acts(Before(events, n), events[n], id);
    InvBefore(events, n);
    assert RowOk(Before(events, n), id);
    LengthOfUpTo(Before(events, n).slots[id].retry.value - 1);
  }
}

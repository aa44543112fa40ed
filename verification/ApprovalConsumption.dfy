/** What one decide call, one public consumption, one execution and one clean-up do, told by the row they
  find (packages/approval/src/service.ts, apps/api/src/routes/approval.ts), and, over every run, what a
  token consumed through the public route was when it was looked at.
 */
module ApprovalConsumption {
  import opened Common
  import opened ApprovalDecision

  /******* One call while nothing else moves *******/

  lemma RunThree(s: Sys, a: Event, b: Event, c: Event)
    ensures Run(s, [a, b, c]) == Next(Next(Next(s, a), b), c)
  {
    hide Next;
    assert [a, b, c][..2] == [a, b] && [a, b][..1] == [a] && [a][..0] == [];
    assert Run(s, []) == s;
    assert Run(s, [a]) == Next(s, a);
    assert Run(s, [a, b]) == Next(Run(s, [a]), b);
  }

  lemma RunFour(s: Sys, a: Event, b: Event, c: Event, d: Event)
    ensures Run(s, [a, b, c, d]) == Next(Next(Next(Next(s, a), b), c), d)
  {
    hide Next;
    RunThree(s, a, b, c);
    assert [a, b, c, d][..3] == [a, b, c];
  }

  /** Worker `w` has no call under way. */
  predicate Idle(s: Sys, w: nat) { w in s.workers ==> !Running(s.workers[w]) }

  /** A decision that nothing disturbs goes through: on an open request that neither clock reading finds
      expired, by somebody other than its requester, the row and the caller get exactly that decision. */
  lemma LoneDecisionGoesThrough(s: Sys, w: nat, call: Call, now: int, decisionAt: int, uuid: nat)
    requires Idle(s, w) && !Locked(s, call.id) && !call.kind.OtherAction?
    requires call.id in s.rows && s.rows[call.id].kind == call.kind && s.rows[call.id].requester != call.actor
    requires var row := s.rows[call.id];
             row.status.Pending? && row.decision.None? && row.usedAt.None? && row.expiresAt > now && row.expiresAt > decisionAt
    ensures var verdict := if call.approve then Approved else Rejected;
            var d := Decision(verdict, call.actor, call.reason, call.evidence,
                              if call.kind.CommunityWork? then call.fingerprint else None,
                              decisionAt, if call.approve then Some(uuid) else None);
            var row := s.rows[call.id].(status := verdict, decision := Some(d));
            var t := Run(s, [Decide(w, call), Step(w, now, uuid), Step(w, decisionAt, uuid), Step(w, now, uuid)]);
            && w in t.workers && t.workers[w] == Decided(call, row)
            && t.rows == s.rows[call.id := row] && t.log == s.log[call.id := d]
  {
    var read, update, commit := Step(w, now, uuid), Step(w, decisionAt, uuid), Step(w, now, uuid);
    RunFour(s, Decide(w, call), read, update, commit);
    var s1 := Next(s, Decide(w, call));
    assert s1 == s.(workers := s.workers[w := Reading(call)]);
    var s2 := Next(s1, read);
    assert s2 == s.(workers := s1.workers[w := Updating(call)]);
    assert !Locked(s2, call.id);
    var draft := WithDecision(s.rows[call.id], call, decisionAt, uuid);
    var s3 := Next(s2, update);
    assert s3 == s.(workers := s2.workers[w := Holding(call, draft)]);
  }

  /** A token is consumed through the public route iff it is there, unused, unexpired and no treasury
      request; then it is approved and used at that clock, and nothing else changes. */
  lemma LoneConsumptionIff(s: Sys, w: nat, id: nat, now: int, at: int, uuid: nat)
    requires Idle(s, w) && !Locked(s, id)
    ensures var live := id in s.rows && s.rows[id].usedAt.None? && s.rows[id].expiresAt > now && s.rows[id].kind.OtherAction?;
            var t := Run(s, [Post(w, id), Step(w, now, uuid), Step(w, at, uuid)]);
            && w in t.workers && t.workers[w] == PublicDone(id, live) && t.log == s.log
            && t.rows == if live then s.rows[id := s.rows[id].(usedAt := Some(at), status := Approved)] else s.rows
  {
    var view, consume := Step(w, now, uuid), Step(w, at, uuid);
    RunThree(s, Post(w, id), view, consume);
    var s1 := Next(s, Post(w, id));
    assert s1 == s.(workers := s.workers[w := Viewing(id)]);
    var s2 := Next(s1, view);
    assert !Locked(s2, id);
  }

  /** A treasury request is executed iff it is approved, unused and unexpired, no decision of it is being
      written, and the caller is its decider and has its execution id; then it is used at that clock and
      nothing else changes, so that executing it again does nothing. */
  lemma ExecutedOnceIff(s: Sys, id: nat, execution: nat, actor: nat, now: int, again: int)
    ensures var may := && !Locked(s, id) && id in s.rows && !s.rows[id].kind.OtherAction? && s.rows[id].status.Approved?
                       && s.rows[id].usedAt.None? && now < s.rows[id].expiresAt
                       && s.rows[id].decision.Some? && s.rows[id].decision.value.executionId == Some(execution)
                       && s.rows[id].decision.value.decider == actor;
            var t := Next(s, Execute(id, execution, actor, now));
            && t == (if may then s.(rows := s.rows[id := s.rows[id].(usedAt := Some(now))]) else s)
            && (may ==> Next(t, Execute(id, execution, actor, again)) == t)
  {
  }

  /** A request is inserted open under an id that was never used, and cleaned up unless a decision of it is
      being written. */
  lemma InsertedOpenAndCleanedUp(s: Sys, id: nat, kind: Kind, requester: nat, expiresAt: int)
    ensures id !in s.known ==>
              var t := Next(s, Insert(id, kind, requester, expiresAt));
              t.rows == s.rows[id := Row(kind, requester, expiresAt, Pending, None, None)] && t.workers == s.workers
    ensures !Locked(s, id) ==> Next(s, Purge(id)).rows == s.rows - {id}
    ensures Locked(s, id) ==> Next(s, Purge(id)) == s
  {
  }

  /** A rolled-back decide call says so and writes nothing, whatever it held. */
  lemma RollbackWritesNothing(s: Sys, w: nat)
    requires w in s.workers
    ensures var t := Next(s, Abort(w));
            && t.rows == s.rows && t.log == s.log && w in t.workers
            && (s.workers[w].Reading? || s.workers[w].Updating? || s.workers[w].Holding? || s.workers[w].Rereading? ==>
                  t.workers[w] == Refused(s.workers[w].call, RolledBack))
  {
  }

  /******* Every consumption of every run *******/

  /** Step `i` looked at token `id`: it was unused and unexpired, and no treasury request. */
  ghost predicate SeenLiveAt(s0: Sys, events: seq<Event>, i: nat, w: nat, id: nat) {
    && i < |events| && events[i].Step? && events[i].worker == w
    && var s := Run(s0, events[..i]);
       && w in s.workers && s.workers[w] == Viewing(id) && id in s.rows
       && s.rows[id].usedAt.None? && events[i].now < s.rows[id].expiresAt && s.rows[id].kind.OtherAction?
  }

  /** Step `j` used token `id`, which was unused until then. */
  ghost predicate UsedAt(s0: Sys, events: seq<Event>, j: nat, w: nat, id: nat) {
    && j < |events| && events[j].Step? && events[j].worker == w
    && var s := Run(s0, events[..j]);
       && w in s.workers && s.workers[w] == Consuming(id) && id in s.rows && s.rows[id].usedAt.None?
       && var t := Run(s0, events[..j + 1]); id in t.rows && t.rows[id].usedAt == Some(events[j].now)
  }

  ghost predicate WasSeenLive(s0: Sys, events: seq<Event>, w: nat, id: nat) {
    exists i: nat :: SeenLiveAt(s0, events, i, w, id)
  }

  ghost predicate WasConsumed(s0: Sys, events: seq<Event>, w: nat, id: nat) {
    exists i: nat, j: nat :: i < j && SeenLiveAt(s0, events, i, w, id) && UsedAt(s0, events, j, w, id)
  }

  ghost predicate PublicEarned(s0: Sys, events: seq<Event>, w: nat, pc: Pc) {
    match pc
    case Consuming(id) => WasSeenLive(s0, events, w, id)
    case PublicDone(id, consumed) => consumed ==> WasConsumed(s0, events, w, id)
    case _ => true
  }

  lemma SamePrefix(s0: Sys, events: seq<Event>, e: Event, i: nat)
    requires i < |events|
    ensures (events + [e])[i] == events[i]
    ensures (events + [e])[..i] == events[..i] && (events + [e])[..i + 1] == events[..i + 1]
  {
  }

  lemma EarnedEarlier(s0: Sys, events: seq<Event>, e: Event, w: nat, pc: Pc)
    requires PublicEarned(s0, events, w, pc)
    ensures PublicEarned(s0, events + [e], w, pc)
  {
    hide Run;
    match pc
    case Consuming(id) =>
      var i: nat :| SeenLiveAt(s0, events, i, w, id);
      SamePrefix(s0, events, e, i);
      assert SeenLiveAt(s0, events + [e], i, w, id);
    case PublicDone(id, consumed) =>
      if consumed {
        var i: nat, j: nat :| i < j && SeenLiveAt(s0, events, i, w, id) && UsedAt(s0, events, j, w, id);
        SamePrefix(s0, events, e, i);
        SamePrefix(s0, events, e, j);
        assert SeenLiveAt(s0, events + [e], i, w, id) && UsedAt(s0, events + [e], j, w, id);
      }
    case _ =>
  }

  /** Where a step takes a worker of the public route. */
  lemma PublicMoves(s: Sys, e: Event, w: nat)
    requires w in Next(s, e).workers
    ensures var pc' := Next(s, e).workers[w];
            && (pc'.Consuming? ==>
                  w in s.workers && (s.workers[w] == pc' ||
                    (e.Step? && e.worker == w && s.workers[w] == Viewing(pc'.id) && pc'.id in s.rows &&
                       s.rows[pc'.id].usedAt.None? && e.now < s.rows[pc'.id].expiresAt && s.rows[pc'.id].kind.OtherAction?)))
            && (pc'.PublicDone? && pc'.consumed ==>
                  w in s.workers && (s.workers[w] == pc' ||
                    (e.Step? && e.worker == w && s.workers[w] == Consuming(pc'.id) && pc'.id in s.rows &&
                       s.rows[pc'.id].usedAt.None? && pc'.id in Next(s, e).rows &&
                       Next(s, e).rows[pc'.id].usedAt == Some(e.now))))
  {
    hide Locked, IsExact, WithDecision, Open;
  }

  lemma SeenNow(s0: Sys, events: seq<Event>, e: Event, id: nat)
    requires var s := Run(s0, events);
             e.Step? && e.worker in s.workers && s.workers[e.worker] == Viewing(id) && id in s.rows &&
             s.rows[id].usedAt.None? && e.now < s.rows[id].expiresAt && s.rows[id].kind.OtherAction?
    ensures WasSeenLive(s0, events + [e], e.worker, id)
  {
    assert (events + [e])[..|events|] == events;
    assert SeenLiveAt(s0, events + [e], |events|, e.worker, id);
  }

  lemma UsedNow(s0: Sys, events: seq<Event>, e: Event, id: nat)
    requires e.Step? && WasSeenLive(s0, events, e.worker, id)
    requires var s, t := Run(s0, events), Next(Run(s0, events), e);
             e.worker in s.workers && s.workers[e.worker] == Consuming(id) && id in s.rows &&
             s.rows[id].usedAt.None? && id in t.rows && t.rows[id].usedAt == Some(e.now)
    ensures WasConsumed(s0, events + [e], e.worker, id)
  {
    var later, n := events + [e], |events|;
    assert later[..n] == events && later[..n + 1] == later && later[n] == e;
    assert Run(s0, later) == Next(Run(s0, events), e);
    hide Next, Run;
    var i: nat :| SeenLiveAt(s0, events, i, e.worker, id);
    SamePrefix(s0, events, e, i);
    assert SeenLiveAt(s0, later, i, e.worker, id) && UsedAt(s0, later, n, e.worker, id);
  }

  lemma StepEarns(s0: Sys, events: seq<Event>, e: Event, w: nat)
    requires w in Run(s0, events).workers ==> PublicEarned(s0, events, w, Run(s0, events).workers[w])
    requires w in Next(Run(s0, events), e).workers
    ensures PublicEarned(s0, events + [e], w, Next(Run(s0, events), e).workers[w])
  {
    hide Next, Run, WasSeenLive, WasConsumed;
    var s := Run(s0, events);
    PublicMoves(s, e, w);
    var pc' := Next(s, e).workers[w];
    if w in s.workers && s.workers[w] == pc' {
      EarnedEarlier(s0, events, e, w, pc');
    } else if pc'.Consuming? {
      SeenNow(s0, events, e, pc'.id);
    } else if pc'.PublicDone? && pc'.consumed {
      UsedNow(s0, events, e, pc'.id);
    }
  }

  lemma {:induction false} RunEarns(s0: Sys, events: seq<Event>, w: nat)
    requires s0.workers == map[] && w in Run(s0, events).workers
    ensures PublicEarned(s0, events, w, Run(s0, events).workers[w])
  {
    if events != [] {
      var prefix, e := events[..|events| - 1], events[|events| - 1];
      hide Next, PublicEarned;
      if w in Run(s0, prefix).workers {
        RunEarns(s0, prefix, w);
      }
      StepEarns(s0, prefix, e, w);
      assert events == prefix + [e];
    }
  }

  /** Over every run: a public call that consumed a token had looked at it while it was unused, unexpired and
      no treasury request, and then used it while it was still unused. */
  lemma ConsumedTokensWereLive(s0: Sys, events: seq<Event>, w: nat)
    requires s0.workers == map[] && w in Run(s0, events).workers
    requires Run(s0, events).workers[w].PublicDone? && Run(s0, events).workers[w].consumed
    ensures var id := Run(s0, events).workers[w].id;
            exists i: nat, j: nat :: i < j && SeenLiveAt(s0, events, i, w, id) && UsedAt(s0, events, j, w, id)
  {
    RunEarns(s0, events, w);
  }

  /** Step `i` executed the decision `d` of request `id`, whose row then shows that clock. */
  predicate ExecutedAt(events: seq<Event>, i: nat, id: nat, row: Row, d: Decision) {
    && i < |events| && events[i].Execute? && events[i].id == id
    && d.executionId == Some(events[i].execution) && d.decider == events[i].actor && d.verdict.Approved?
    && row.usedAt == Some(events[i].now) && events[i].now < row.expiresAt
  }

  lemma TreasuryUseStep(s: Sys, e: Event, id: nat)
    requires Inv(s) && id in Next(s, e).rows && !Next(s, e).rows[id].kind.OtherAction?
    ensures var row := Next(s, e).rows[id];
            row.usedAt.Some? ==>
              && row.decision.Some?
              && ((id in s.rows && s.rows[id] == row) || ExecutedAt([e], 0, id, row, row.decision.value))
  {
    if id in s.rows {
      assert RowOk(s, id);
    }
    if e.Step? && e.worker in s.workers {
      assert WorkerOk(s, e.worker);
    }
  }

  /** Over every run: a treasury request is used only by an execution that its decider asked for, under the
      execution id of its approval and before it expired; no other route ever uses it. */
  lemma {:induction false} TreasuryUsesAreExecutions(events: seq<Event>, id: nat)
    requires id in Run(Initial(), events).rows && !Run(Initial(), events).rows[id].kind.OtherAction?
    requires Run(Initial(), events).rows[id].usedAt.Some?
    ensures var row := Run(Initial(), events).rows[id];
            row.decision.Some? && exists i: nat :: ExecutedAt(events, i, id, row, row.decision.value)
  {
    var n := |events| - 1;
    var s, e := Run(Initial(), events[..n]), events[n];
    var row := Run(Initial(), events).rows[id];
    InitialInv();
    RunInv(Initial(), events[..n]);
    TreasuryUseStep(s, e, id);
    hide Next;
    if id in s.rows && s.rows[id] == row {
      TreasuryUsesAreExecutions(events[..n], id);
      var i: nat :| ExecutedAt(events[..n], i, id, row, row.decision.value);
      assert ExecutedAt(events, i, id, row, row.decision.value);
    } else {
      assert ExecutedAt(events, n, id, row, row.decision.value);
    }
  }
}

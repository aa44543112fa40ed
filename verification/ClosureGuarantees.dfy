/** What every interleaving of closure phases guarantees, derived from the invariant of ClosurePhases. */
module ClosureGuarantees {
  import opened ClosureEvidence
  import opened ClosurePhases

  /******* Receipts and effects *******/

  /** The step is a COMMIT of a worker whose transaction has written. */
  predicate Publishes(s: Sys, e: Event) {
    (e.Statement? || e.CommitUnacknowledged?) && e.worker in s.workers && s.workers[e.worker].Committing?
  }

  lemma OnlyCommitsWrite(input: Input, s: Sys, e: Event)
    ensures Publishes(s, e) ==>
              var pc := s.workers[e.worker];
              Next(input, s, e).db == Publish(s.db, pc.call, pc.draft, pc.receipt)
    ensures !Publishes(s, e) ==> Next(input, s, e).db == s.db
  {
  }

  lemma PublishIsOwn(input: Input, db: Db, pc: Pc)
    requires WorkerOk(input, db, pc) && pc.Committing?
    ensures KeyOf(pc.call) !in db.receipts
    ensures OnlyOwnRows(db, Publish(db, pc.call, pc.draft, pc.receipt), pc.call)
    ensures Publish(db, pc.call, pc.draft, pc.receipt).receipts == db.receipts[KeyOf(pc.call) := pc.receipt]
  {
    assert DraftMatches(input, db, pc.call, pc.draft);
  }

  /** A step keeps every committed receipt, and it changes the tables only when it is the COMMIT of a
      worker whose key had no receipt yet; that COMMIT publishes the receipt and touches only the rows
      the worker's own call may touch. */
  lemma StepPublishesAtMostOneReceipt(input: Input, s: Sys, e: Event)
    requires Inv(input, s)
    ensures forall k <- s.db.receipts ::
              k in Next(input, s, e).db.receipts && Next(input, s, e).db.receipts[k] == s.db.receipts[k]
    ensures Next(input, s, e).db != s.db ==>
              && Publishes(s, e)
              && KeyOf(s.workers[e.worker].call) !in s.db.receipts
              && Next(input, s, e).db.receipts ==
                 s.db.receipts[KeyOf(s.workers[e.worker].call) := s.workers[e.worker].receipt]
              && OnlyOwnRows(s.db, Next(input, s, e).db, s.workers[e.worker].call)
  {
    OnlyCommitsWrite(input, s, e);
    if Publishes(s, e) {
      assert WorkerOk(input, s.db, s.workers[e.worker]);
      PublishIsOwn(input, s.db, s.workers[e.worker]);
    }
  }

  predicate OnlyOwnRows(db: Db, db': Db, call: Call) {
    && (db'.candidates - {call.batch} == db.candidates - {call.batch})
    && (!call.Candidates? ==> db'.candidates == db.candidates)
    && (forall id <- db.evidence :: id in db'.evidence && db'.evidence[id] == db.evidence[id])
    && (forall id <- db'.evidence :: id !in db.evidence ==> db'.evidence[id].batch == call.batch)
    && (!call.Members? ==> db'.evidence == db.evidence)
    && (db'.applications - {call.execution} == db.applications - {call.execution})
    && (!call.Apply? ==> db'.applications == db.applications)
  }

  /** A committed receipt is never changed or removed by the rest of a run. */
  lemma {:induction false} ReceiptsArePermanent(input: Input, s: Sys, events: seq<Event>, k: Key)
    requires Inv(input, s) && k in s.db.receipts
    ensures k in Run(input, s, events).db.receipts
    ensures Run(input, s, events).db.receipts[k] == s.db.receipts[k]
  {
    if events != [] {
      var prefix := events[..|events| - 1];
      ReceiptsArePermanent(input, s, prefix, k);
      RunInv(input, s, prefix);
      StepPublishesAtMostOneReceipt(input, Run(input, s, prefix), events[|events| - 1]);
    }
  }

  lemma {:induction false} RunAppends(input: Input, s: Sys, a: seq<Event>, b: seq<Event>)
    ensures Run(input, s, a + b) == Run(input, Run(input, s, a), b)
  {
    if b == [] {
      assert a + b == a;
    } else {
      RunAppends(input, s, a, b[..|b| - 1]);
      assert (a + b)[..|a + b| - 1] == a + b[..|b| - 1];
    }
  }

  /** Event `e` changes the tables on behalf of key `k`. */
  ghost predicate Touches(input: Input, s: Sys, e: Event, k: Key) {
    && (e.Statement? || e.CommitUnacknowledged?)
    && e.worker in s.workers && KeyOf(s.workers[e.worker].call) == k
    && Next(input, s, e).db != s.db
  }

  lemma TouchRecords(input: Input, s: Sys, e: Event, k: Key)
    requires Inv(input, s) && Touches(input, s, e, k)
    ensures k !in s.db.receipts && k in Next(input, s, e).db.receipts
  {
    StepPublishesAtMostOneReceipt(input, s, e);
  }

  lemma RunUpTo(input: Input, s: Sys, events: seq<Event>, i: nat)
    requires i < |events|
    ensures Run(input, s, events[..i + 1]) == Next(input, Run(input, s, events[..i]), events[i])
  {
    assert events[..i + 1][..i] == events[..i];
  }

  /** Effects happen once: whatever workers do, however often they crash, retry or overlap, the tables
      change at most once on behalf of one (execution identity, phase). */
  lemma EffectsHappenOnce(input: Input, s: Sys, events: seq<Event>, i: nat, j: nat, k: Key)
    requires Inv(input, s)
    requires i < j < |events|
    requires Touches(input, Run(input, s, events[..i]), events[i], k)
    ensures !Touches(input, Run(input, s, events[..j]), events[j], k)
  {
    hide *;
    RunInv(input, s, events[..i]);
    TouchRecords(input, Run(input, s, events[..i]), events[i], k);
    RunUpTo(input, s, events, i);
    RunInv(input, s, events[..i + 1]);
    ReceiptsArePermanent(input, Run(input, s, events[..i + 1]), events[i + 1..j], k);
    RunAppends(input, s, events[..i + 1], events[i + 1..j]);
    assert events[..j] == events[..i + 1] + events[i + 1..j];
    RunInv(input, s, events[..j]);
    if Touches(input, Run(input, s, events[..j]), events[j], k) {
      TouchRecords(input, Run(input, s, events[..j]), events[j], k);
    }
  }

  /** Every call that returns, at any time, returns the one committed receipt of its key, with its own
      batch and fingerprint. */
  lemma ReturnsTheCommittedReceipt(input: Input, s: Sys, events: seq<Event>, later: seq<Event>, v: nat, w: nat)
    requires Inv(input, s)
    requires var s1 := Run(input, s, events); v in s1.workers && s1.workers[v].Returned?
    requires var s2 := Run(input, s, events + later); w in s2.workers && s2.workers[w].Returned?
    requires KeyOf(Run(input, s, events).workers[v].call) == KeyOf(Run(input, s, events + later).workers[w].call)
    ensures var a, b := Run(input, s, events).workers[v], Run(input, s, events + later).workers[w];
            a.receipt == b.receipt && Binds(a.call, a.receipt) && Binds(b.call, b.receipt)
  {
    var s1, s2 := Run(input, s, events), Run(input, s, events + later);
    RunInv(input, s, events);
    RunInv(input, s, events + later);
    assert WorkerOk(input, s1.db, s1.workers[v]) && WorkerOk(input, s2.db, s2.workers[w]);
    RunAppends(input, s, events, later);
    ReceiptsArePermanent(input, s1, later, KeyOf(s1.workers[v].call));
  }

  predicate Incompatible(s: Sys, w: nat) {
    && w in s.workers && KeyOf(s.workers[w].call) in s.db.receipts
    && !Binds(s.workers[w].call, s.db.receipts[KeyOf(s.workers[w].call)])
  }

  lemma IncompatibleStep(input: Input, s: Sys, e: Event, w: nat)
    requires Inv(input, s) && Incompatible(s, w) && (e.Start? ==> e.worker != w)
    ensures !s.workers[w].Returned? && Incompatible(Next(input, s, e), w)
    ensures e == Statement(w) || e == CommitUnacknowledged(w) ==> Next(input, s, e).db == s.db
  {
    assert WorkerOk(input, s.db, s.workers[w]);
    OnlyCommitsWrite(input, s, e);
    CallKept(input, s, e, w);
    StepPublishesAtMostOneReceipt(input, s, e);
  }

  /** A call whose batch or fingerprint differs from the committed receipt never returns, whatever else
      happens, and none of its statements changes a table. */
  lemma {:induction false} IncompatibleCallIsInert(input: Input, s: Sys, events: seq<Event>, w: nat)
    requires Inv(input, s) && Incompatible(s, w)
    requires forall i :: 0 <= i < |events| && events[i].Start? ==> events[i].worker != w
    ensures Incompatible(Run(input, s, events), w) && !Run(input, s, events).workers[w].Returned?
    ensures forall i :: 0 <= i < |events| && (events[i] == Statement(w) || events[i] == CommitUnacknowledged(w)) ==>
              Run(input, s, events[..i + 1]).db == Run(input, s, events[..i]).db
  {
    hide Next, Incompatible, Inv;
    if events == [] {
      IncompatibleReturns(input, s, w);
    } else {
      var n := |events| - 1;
      var prefix, e := events[..n], events[n];
      IncompatibleCallIsInert(input, s, prefix, w);
      RunInv(input, s, prefix);
      IncompatibleStep(input, Run(input, s, prefix), e, w);
      RunInv(input, s, events);
      IncompatibleReturns(input, Run(input, s, events), w);
      assert events[..n + 1] == events;
      forall i | 0 <= i < |events| && (events[i] == Statement(w) || events[i] == CommitUnacknowledged(w))
        ensures Run(input, s, events[..i + 1]).db == Run(input, s, events[..i]).db
      {
        if i < n {
          assert prefix[..i] == events[..i] && prefix[..i + 1] == events[..i + 1] && prefix[i] == events[i];
        }
      }
    }
  }

  lemma IncompatibleReturns(input: Input, s: Sys, w: nat)
    requires Inv(input, s) && Incompatible(s, w)
    ensures w in s.workers && !s.workers[w].Returned?
  {
    assert WorkerOk(input, s.db, s.workers[w]);
  }

  /** Only a new start changes what a worker was called with. */
  lemma CallKept(input: Input, s: Sys, e: Event, w: nat)
    requires w in s.workers && (e.Start? ==> e.worker != w)
    ensures w in Next(input, s, e).workers && Next(input, s, e).workers[w].call == s.workers[w].call
  {
  }

  /******* The members receipt stays true *******/

  /** Once a members receipt is committed, every raw event of its batch has its evidence row, and at
      every later moment the counts of the table are still the counts of the receipt. */
  lemma MembersReceiptStaysTrue(input: Input, s: Sys, events: seq<Event>, x: string)
    requires Inv(input, s) && Key(x, MembersPhase) in s.db.receipts
    ensures s.db.receipts[Key(x, MembersPhase)].PhaseReceipt?
    ensures var r, es := s.db.receipts[Key(x, MembersPhase)], Run(input, s, events).db.evidence;
            && Reconciled(r.counts)
            && r.counts == MemberCounts(input.raw, es, r.batch)
            && OfBatch(es, r.batch) == RawOfBatch(input.raw, r.batch)
  {
    var k := Key(x, MembersPhase);
    var s2 := Run(input, s, events);
    RunInv(input, s, events);
    ReceiptsArePermanent(input, s, events, k);
    assert CommittedOk(input, s.db, k) && CommittedOk(input, s2.db, k);
    EvidenceWithinRaw(input, s2.db, s2.db.receipts[k].batch);
    ReconciledIffComplete(input.raw, s2.db.evidence, s2.db.receipts[k].batch);
  }

  /** An application inserts exactly as many rows as its receipt says were applied, and no execution has
      application rows without a receipt. */
  lemma ApplicationRowsMatchReceipt(input: Input, s: Sys, x: string)
    requires Inv(input, s)
    ensures x in s.db.applications <==> Key(x, ApplicationPhase) in s.db.receipts
    ensures x in s.db.applications ==>
              var r := s.db.receipts[Key(x, ApplicationPhase)];
              r.ApplicationReceipt? && |s.db.applications[x]| == r.applied.applied
  {
    if Key(x, ApplicationPhase) in s.db.receipts {
      assert CommittedOk(input, s.db, Key(x, ApplicationPhase));
    }
  }

  /******* Conservation across phases *******/

  /** The worker is applying resolutions of `batch`, and what it has read or recorded reconciles with `m`. */
  ghost predicate Tracks(m: PhaseCounts, batch: string, pc: Pc) {
    && pc.call.Apply? && pc.call.batch == batch
    && match pc
       case Reading(_) => true
       case Writing(_, leaves) => ApplicationReconciled(m, CountLeaves(leaves))
       case Measuring(_, _) => false
       case Recording(_, _, r) => r.ApplicationReceipt? && ApplicationReconciled(m, r.applied)
       case Committing(_, _, r) => r.ApplicationReceipt? && ApplicationReconciled(m, r.applied)
       case Replaying(_, r) => r.ApplicationReceipt? && ApplicationReconciled(m, r.applied)
       case Returned(_, r) => r.ApplicationReceipt? && ApplicationReconciled(m, r.applied)
       case Failed(_) => true
  }

  lemma ReadingTracks(input: Input, s: Sys, x: string, call: Call)
    requires Inv(input, s) && Key(x, MembersPhase) in s.db.receipts && call.Apply?
    requires s.db.receipts[Key(x, MembersPhase)].batch == call.batch
    ensures s.db.receipts[Key(x, MembersPhase)].PhaseReceipt?
    ensures Tracks(s.db.receipts[Key(x, MembersPhase)].counts, call.batch, Read(input, s, call))
  {
    hide CountLeaves, MemberCounts, FingerprintOf, Reconciled, WorkerOk, Compatible;
    assert CommittedOk(input, s.db, Key(x, MembersPhase));
    var m, leaves := s.db.receipts[Key(x, MembersPhase)].counts, ReadLeaves(input, s.db, s.world, call.batch);
    SameEvidenceReconciles(input.raw, s.db.evidence, call.batch, leaves);
    if Read(input, s, call).Replaying? {
      assert CommittedOk(input, s.db, KeyOf(call));
      ReplayReconciles(m, leaves, s.db.receipts[KeyOf(call)]);
    }
  }

  /** Counts recorded for the same fingerprint as the leaves read now reconcile as well. */
  lemma ReplayReconciles(m: PhaseCounts, leaves: Leaves, r: Receipt)
    requires r.ApplicationReceipt? && CountsOf(r.leaves, r.applied) && r.leaves == FingerprintOf(leaves)
    requires OnlyExceptions(leaves) && ApplicationReconciled(m, CountLeaves(leaves))
    ensures ApplicationReconciled(m, r.applied)
  {
    hide OutcomeOf, WithOutcome, UnresolvedOf;
    var l :| OnlyExceptions(l) && FingerprintOf(l) == r.leaves && CountLeaves(l) == r.applied;
    FingerprintFixesCounts(l, leaves);
    OutcomesPartitionLeaves(l);
  }

  /** A worker's own step, in the states where it only moves on. */
  lemma AdvanceTracks(input: Input, s: Sys, pc: Pc, m: PhaseCounts, batch: string)
    requires Tracks(m, batch, pc) && !pc.Reading?
    ensures Tracks(m, batch, Advance(input, s, pc))
  {
  }

  lemma OthersStandStill(input: Input, s: Sys, e: Event, w: nat)
    requires w in s.workers && (e.Start? ==> e.worker != w)
    ensures w in Next(input, s, e).workers
    ensures var pc, pc' := s.workers[w], Next(input, s, e).workers[w];
            pc' == pc || pc' == Failed(pc.call) || (e == Statement(w) && pc' == Advance(input, s, pc))
  {
  }

  lemma StepTracks(input: Input, s: Sys, e: Event, w: nat, x: string, batch: string)
    requires Inv(input, s) && Key(x, MembersPhase) in s.db.receipts && w in s.workers
    requires s.db.receipts[Key(x, MembersPhase)].batch == batch
    requires s.db.receipts[Key(x, MembersPhase)].PhaseReceipt?
    requires Tracks(s.db.receipts[Key(x, MembersPhase)].counts, batch, s.workers[w])
    requires e.Start? ==> e.worker != w
    ensures w in Next(input, s, e).workers
    ensures Tracks(s.db.receipts[Key(x, MembersPhase)].counts, batch, Next(input, s, e).workers[w])
  {
    var pc, m := s.workers[w], s.db.receipts[Key(x, MembersPhase)].counts;
    OthersStandStill(input, s, e, w);
    var pc' := Next(input, s, e).workers[w];
    if pc' != pc && pc' != Failed(pc.call) {
      if pc.Reading? {
        assert pc' == Read(input, s, pc.call);
        ReadingTracks(input, s, x, pc.call);
      } else {
        AdvanceTracks(input, s, pc, m, batch);
      }
    }
  }

  /** Conservation end to end: an application of a batch that starts after some members receipt of that
      batch is committed returns, fresh or replayed and whatever happens in between, a receipt that
      reconciles with that members receipt. */
  lemma {:induction false} ApplicationAlwaysReconciles(
    input: Input, s: Sys, events: seq<Event>, w: nat, x: string, batch: string)
    requires Inv(input, s) && Key(x, MembersPhase) in s.db.receipts && w in s.workers
    requires s.db.receipts[Key(x, MembersPhase)].batch == batch
    requires s.workers[w].Reading? && s.workers[w].call.Apply? && s.workers[w].call.batch == batch
    requires forall i :: 0 <= i < |events| && events[i].Start? ==> events[i].worker != w
    ensures s.db.receipts[Key(x, MembersPhase)].PhaseReceipt?
    ensures w in Run(input, s, events).workers
    ensures var pc := Run(input, s, events).workers[w];
            && Tracks(s.db.receipts[Key(x, MembersPhase)].counts, batch, pc)
            && (pc.Returned? ==>
                  pc.receipt.ApplicationReceipt? &&
                  ApplicationReconciled(s.db.receipts[Key(x, MembersPhase)].counts, pc.receipt.applied))
  {
    assert CommittedOk(input, s.db, Key(x, MembersPhase));
    if events != [] {
      var prefix := events[..|events| - 1];
      ApplicationAlwaysReconciles(input, s, prefix, w, x, batch);
      RunInv(input, s, prefix);
      ReceiptsArePermanent(input, s, prefix, Key(x, MembersPhase));
      StepTracks(input, Run(input, s, prefix), events[|events| - 1], w, x, batch);
    }
  }

  /******* When a phase completes *******/

  ghost predicate Undisturbed(s: Sys, w: nat) {
    w in s.workers && s.workers[w].Reading? && KeyOf(s.workers[w].call) !in s.db.receipts &&
    forall v <- s.workers :: v != w ==> !InFlight(s.workers[v])
  }

  function Five(w: nat): seq<Event> {
    [Statement(w), Statement(w), Statement(w), Statement(w), Statement(w)]
  }

  lemma FiveStatements(input: Input, s: Sys, w: nat)
    ensures Run(input, s, Five(w)) ==
            Next(input, Next(input, Next(input, Next(input, Next(input, s, Statement(w)), Statement(w)),
                                         Statement(w)), Statement(w)), Statement(w))
  {
    var e := Statement(w);
    var e1, e2, e3, e4 := [e], [e, e], [e, e, e], [e, e, e, e];
    assert e1[..0] == [] && e2[..1] == e1 && e3[..2] == e2 && e4[..3] == e3 && Five(w)[..4] == e4;
    assert Run(input, s, []) == s;
    assert Run(input, s, e1) == Next(input, s, e);
    assert Run(input, s, e2) == Next(input, Run(input, s, e1), e);
    assert Run(input, s, e3) == Next(input, Run(input, s, e2), e);
    assert Run(input, s, e4) == Next(input, Run(input, s, e3), e);
  }

  /** Where a lone worker stands just before its COMMIT, or where it ends if it does not write. */
  ghost function Alone(input: Input, s: Sys, pc: Pc): Pc {
    Towards(input, s, Towards(input, s, Towards(input, s, Towards(input, s, pc))))
  }

  ghost function Towards(input: Input, s: Sys, pc: Pc): Pc {
    if pc.Committing? then pc else Advance(input, s, pc)
  }

  /** One statement of a worker that nothing blocks and that does not commit yet. */
  lemma QuietStatement(input: Input, s: Sys, w: nat, pc: Pc)
    requires w in s.workers && forall v <- s.workers :: v != w ==> !InFlight(s.workers[v])
    requires !pc.Committing? && !(pc.Reading? && pc.call.Apply?)
    ensures Next(input, s.(workers := s.workers[w := pc]), Statement(w)) ==
            s.(workers := s.workers[w := Advance(input, s, pc)])
  {
    var s1 := s.(workers := s.workers[w := pc]);
    assert !Waits(input, s1, w);
    assert Advance(input, s1, pc) == Advance(input, s, pc);
    assert s1.workers[w := Advance(input, s, pc)] == s.workers[w := Advance(input, s, pc)];
  }

  lemma LoneRun(input: Input, s: Sys, w: nat)
    requires Undisturbed(s, w) && !s.workers[w].call.Apply?
    ensures var pc, s' := Alone(input, s, s.workers[w]), Run(input, s, Five(w));
            && (pc.Committing? ==>
                  s' == s.(db := Publish(s.db, pc.call, pc.draft, pc.receipt),
                           workers := s.workers[w := Returned(pc.call, pc.receipt)]))
            && (pc.Failed? ==> s' == s.(workers := s.workers[w := pc]))
            && pc.call == s.workers[w].call
  {
    var call := s.workers[w].call;
    FiveStatements(input, s, w);
    var p1 := Advance(input, s, s.workers[w]);
    assert p1 == Writing(call, map[]);
    var p2 := Advance(input, s, p1);
    assert p2.Measuring? || p2.Failed?;
    var p3 := Advance(input, s, p2);
    var p4 := Advance(input, s, p3);
    assert s.workers[w := s.workers[w]] == s.workers;
    QuietStatement(input, s, w, s.workers[w]);
    QuietStatement(input, s, w, p1);
    QuietStatement(input, s, w, p2);
    QuietStatement(input, s, w, p3);
    if p4.Committing? {
      LastStatement(input, s, w, p4);
    } else if p4.Failed? {
      QuietStatement(input, s, w, p4);
    }
  }

  lemma LastStatement(input: Input, s: Sys, w: nat, pc: Pc)
    requires pc.Committing?
    ensures Next(input, s.(workers := s.workers[w := pc]), Statement(w)) ==
            s.(db := Publish(s.db, pc.call, pc.draft, pc.receipt), workers := s.workers[w := Returned(pc.call, pc.receipt)])
  {
    var s1 := s.(workers := s.workers[w := pc]);
    assert !Waits(input, s1, w);
    assert s1.workers[w := Returned(pc.call, pc.receipt)] == s.workers[w := Returned(pc.call, pc.receipt)];
  }

  lemma LoneOutcome(input: Input, s: Sys, w: nat)
    requires Undisturbed(s, w) && !s.workers[w].call.Apply?
    ensures var pc, s' := Alone(input, s, Reading(s.workers[w].call)), Run(input, s, Five(w));
            && w in s'.workers && (s'.workers[w].Returned? <==> pc.Committing?) && (pc.Committing? || pc.Failed?)
            && pc.call == s.workers[w].call
            && (pc.Committing? ==> s'.db == Publish(s.db, pc.call, pc.draft, pc.receipt))
            && (pc.Failed? ==> s'.workers[w].Failed? && s'.db == s.db)
  {
    hide Publish;
    AloneEnds(input, s, s.workers[w].call);
    LoneRun(input, s, w);
  }

  lemma AloneEnds(input: Input, s: Sys, call: Call)
    requires KeyOf(call) !in s.db.receipts && !call.Apply?
    ensures var pc := Alone(input, s, Reading(call)); pc.Committing? || pc.Failed?
  {
    assert Read(input, s, call) == Writing(call, map[]);
    var p2 := Write(input, s, call, map[]);
    assert p2.Measuring? || p2.Failed?;
  }

  /** A fresh members phase that nothing disturbs commits iff every row it joins can be inserted and no
      raw event of the batch lacks both an evidence row and identity evidence; otherwise it fails and
      changes nothing. */
  lemma MembersCommitsIff(input: Input, s: Sys, w: nat)
    requires Inv(input, s) && Undisturbed(s, w) && s.workers[w].call.Members?
    ensures var b, s' := s.workers[w].call.batch, Run(input, s, Five(w));
            && w in s'.workers
            && (s'.workers[w].Returned? <==>
                  s.workers[w].call.fingerprint != "" && AllInsertable(input, s.world, b) &&
                  forall id <- RawOfBatch(input.raw, b) :: id in s.db.evidence || id in s.world.identities)
            && (!s'.workers[w].Returned? ==> s'.workers[w].Failed? && s'.db == s.db)
  {
    hide Next, Run, Alone, NewEvidence, MemberCounts, Reconciled, WorkerOk;
    LoneOutcome(input, s, w);
    MembersAlone(input, s, s.workers[w].call);
    if AllInsertable(input, s.world, s.workers[w].call.batch) {
      JoinCoversBatch(input, s, s.workers[w].call.batch);
    }
  }

  /** No transaction is under way. */
  predicate Quiet(s: Sys) { forall v <- s.workers :: !InTransaction(s.workers[v]) }

  /** One worker starts a call and runs it to its end. */
  function Lone(w: nat, call: Call): seq<Event> { [Start(w, call)] + Five(w) }

  lemma StartAlone(input: Input, s: Sys, w: nat, call: Call)
    requires Inv(input, s) && Quiet(s) && KeyOf(call) !in s.db.receipts
    ensures var s1 := s.(workers := s.workers[w := Reading(call)]);
            && Inv(input, s1) && Undisturbed(s1, w) && s1.workers[w] == Reading(call)
            && Run(input, s, Lone(w, call)) == Run(input, s1, Five(w))
  {
    var e := Start(w, call);
    assert [e][..0] == [] && Run(input, s, []) == s;
    assert Run(input, s, [e]) == Next(input, s, e);
    NextInv(input, s, e);
    RunAppends(input, s, [e], Five(w));
  }

  /** What a lone call that no receipt answers leaves behind. */
  lemma LoneCall(input: Input, s: Sys, w: nat, call: Call)
    requires Inv(input, s) && Quiet(s) && KeyOf(call) !in s.db.receipts && !call.Apply?
    ensures var s1, s' := s.(workers := s.workers[w := Reading(call)]), Run(input, s, Lone(w, call));
            && Inv(input, s1) && Undisturbed(s1, w) && s1.workers[w] == Reading(call) && s' == Run(input, s1, Five(w))
            && Inv(input, s') && (forall v <- s'.workers :: v != w ==> v in s.workers && s'.workers[v] == s.workers[v])
            && s'.world == s.world && w in s'.workers
            && (s'.workers[w].Returned? || s'.workers[w].Failed? ==> Quiet(s'))
            && (s'.workers[w].Returned? ==> s'.workers[w].call == call)
  {
    hide Next, Run, Inv;
    StartAlone(input, s, w, call);
    var s1 := s.(workers := s.workers[w := Reading(call)]);
    RunInv(input, s1, Five(w));
    LoneRun(input, s1, w);
    AloneEnds(input, s1, call);
  }

  /** The phase is live: over a batch whose every raw event can be inserted and has identity evidence, a
      first members phase commits its receipt, so that the results about later phases are about runs
      that exist. */
  lemma CompleteBatchGetsItsReceipt(input: Input, s: Sys, w: nat, b: string, x: string, fp: string)
    requires Inv(input, s) && Quiet(s) && Key(x, MembersPhase) !in s.db.receipts && fp != ""
    requires AllInsertable(input, s.world, b) && forall id <- RawOfBatch(input.raw, b) :: id in s.world.identities
    ensures var s' := Run(input, s, Lone(w, Members(b, x, fp)));
            && Inv(input, s') && Quiet(s') && s'.world == s.world && s'.db.candidates == s.db.candidates
            && s'.db.receipts.Keys == s.db.receipts.Keys + {Key(x, MembersPhase)}
            && s'.db.receipts[Key(x, MembersPhase)].batch == b
            && s'.db.evidence == NewEvidence(input, s.db, s.world, b) + s.db.evidence
  {
    hide Next, Run, Inv, Undisturbed, Alone, NewEvidence, MemberCounts, Reconciled;
    var call := Members(b, x, fp);
    LoneCall(input, s, w, call);
    var s1 := s.(workers := s.workers[w := Reading(call)]);
    MembersCommitsIff(input, s1, w);
    LoneOutcome(input, s1, w);
    MembersAlone(input, s1, call);
  }

  lemma MembersWrites(input: Input, s: Sys, call: Call)
    requires call.Members? && KeyOf(call) !in s.db.receipts
    ensures Advance(input, s, Advance(input, s, Reading(call))) ==
            if AllInsertable(input, s.world, call.batch)
            then Measuring(call, EvidenceRows(NewEvidence(input, s.db, s.world, call.batch)))
            else Failed(call)
  {
    assert Read(input, s, call) == Writing(call, map[]);
  }

  lemma MembersRecords(input: Input, s: Sys, call: Call, rows: map<nat, Evidence>)
    requires call.Members? && KeyOf(call) !in s.db.receipts
    ensures var counts := MemberCounts(input.raw, rows + s.db.evidence, call.batch);
            Advance(input, s, Advance(input, s, Measuring(call, EvidenceRows(rows)))) ==
            if call.fingerprint != "" && Reconciled(counts)
            then Committing(call, EvidenceRows(rows), PhaseReceipt(call.batch, call.fingerprint, counts))
            else Failed(call)
  {
    hide MemberCounts;
  }

  /** The lone run of a members phase, spelled out. */
  lemma MembersAlone(input: Input, s: Sys, call: Call)
    requires call.Members?
    ensures Alone(input, s, Reading(call)) ==
            if KeyOf(call) in s.db.receipts then
              if Binds(call, s.db.receipts[KeyOf(call)]) then Returned(call, s.db.receipts[KeyOf(call)]) else Failed(call)
            else if !AllInsertable(input, s.world, call.batch) then Failed(call)
            else
              var rows := NewEvidence(input, s.db, s.world, call.batch);
              var counts := MemberCounts(input.raw, rows + s.db.evidence, call.batch);
              if call.fingerprint != "" && Reconciled(counts)
              then Committing(call, EvidenceRows(rows), PhaseReceipt(call.batch, call.fingerprint, counts))
              else Failed(call)
  {
    hide AllInsertable, NewEvidence, MemberCounts, Reconciled;
    if KeyOf(call) !in s.db.receipts {
      MembersWrites(input, s, call);
      if AllInsertable(input, s.world, call.batch) {
        MembersRecords(input, s, call, NewEvidence(input, s.db, s.world, call.batch));
      }
    }
  }

  lemma JoinCoversBatch(input: Input, s: Sys, b: string)
    requires EvidenceOk(input, s.db) && AllInsertable(input, s.world, b)
    ensures Reconciled(MemberCounts(input.raw, NewEvidence(input, s.db, s.world, b) + s.db.evidence, b)) <==>
            forall id <- RawOfBatch(input.raw, b) :: id in s.db.evidence || id in s.world.identities
  {
    var es := NewEvidence(input, s.db, s.world, b) + s.db.evidence;
    forall id | id in RawOfBatch(input.raw, b)
      ensures id in OfBatch(es, b) <==> id in s.db.evidence || id in s.world.identities
    {
    }
    assert OfBatch(es, b) <= RawOfBatch(input.raw, b);
    ReconciledIffComplete(input.raw, es, b);
  }

  /** A fresh candidates phase that nothing disturbs commits iff its fingerprint is not empty, its
      snapshot exists and no row points at a candidate of the batch: no evidence, no application and no
      resolution, superseded or not. Otherwise it fails and changes nothing. */
  lemma CandidatesCommitsIff(input: Input, s: Sys, w: nat)
    requires Undisturbed(s, w) && s.workers[w].call.Candidates?
    ensures var call, s' := s.workers[w].call, Run(input, s, Five(w));
            && w in s'.workers
            && (s'.workers[w].Returned? <==>
                  call.fingerprint != "" && call.batch in s.world.snapshots && !Cited(s.db, s.world, call.batch))
            && (s'.workers[w].Returned? ==>
                  s'.db == s.db.(candidates := s.db.candidates[call.batch := Rebuild(input.sources, call.batch)],
                                 receipts := s'.db.receipts) &&
                  s'.db.receipts.Keys == s.db.receipts.Keys + {KeyOf(call)})
            && (!s'.workers[w].Returned? ==> s'.workers[w].Failed? && s'.db == s.db)
  {
    hide Next, Run, Alone, Rebuild, Cited;
    LoneOutcome(input, s, w);
    CandidatesAlone(input, s, s.workers[w].call);
  }

  /** The lone run of a candidates phase, spelled out. */
  lemma CandidatesAlone(input: Input, s: Sys, call: Call)
    requires call.Candidates? && KeyOf(call) !in s.db.receipts
    ensures Alone(input, s, Reading(call)) ==
            if call.fingerprint != "" && call.batch in s.world.snapshots && !Cited(s.db, s.world, call.batch) then
              var rows := Rebuild(input.sources, call.batch);
              Committing(call, CandidateRows(rows),
                         PhaseReceipt(call.batch, call.fingerprint, PhaseCounts(|rows|, |rows|, 0, 0, 0, 0)))
            else Failed(call)
  {
    hide Rebuild, Cited;
    assert Read(input, s, call) == Writing(call, map[]);
  }
}

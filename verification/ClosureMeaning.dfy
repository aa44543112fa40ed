/** What the rows of a closure mean, said about the tables themselves.

  The theorems of ClosureGuarantees speak of what a phase computes by the names of the functions that
  compute it. Here every condition is spelled out on the rows: which identity evidence makes a member
  validated, what decides that a resolution is applied or stale, which source row becomes a candidate.
  The results are about one call and about every run from empty tables.
 */
module ClosureMeaning {
  import opened Common
  import opened ClosureEvidence
  import opened ClosurePhases
  import opened ClosureGuarantees

  /******* Candidates *******/

  /** A rebuilt catalog has one candidate for each code of its batch, the row with the greatest ordinal and,
      among those, the greatest id. */
  ghost predicate LatestRows(sources: map<nat, SourceRow>, batch: string, catalog: map<string, nat>) {
    && (forall code :: code in catalog <==>
          exists id :: id in sources && sources[id].batch == batch && sources[id].code == code)
    && (forall code <- catalog ::
          && catalog[code] in sources && sources[catalog[code]].batch == batch && sources[catalog[code]].code == code
          && forall id :: id in sources && sources[id].batch == batch && sources[id].code == code ==>
               sources[id].ordinal < sources[catalog[code]].ordinal ||
               (sources[id].ordinal == sources[catalog[code]].ordinal && id <= catalog[code]))
  }

  lemma RebuildTakesLatestRows(sources: map<nat, SourceRow>, batch: string)
    ensures LatestRows(sources, batch, Rebuild(sources, batch))
  {
    var catalog := Rebuild(sources, batch);
    forall code | code in catalog
      ensures catalog[code] in RowsOfCode(sources, batch, code)
      ensures forall id :: id in RowsOfCode(sources, batch, code) ==> Outranks(sources, catalog[code], id)
    {
      CodeHasRows(sources, batch, code);
    }
    forall code, id | code in catalog && id in sources && sources[id].batch == batch && sources[id].code == code
      ensures sources[id].ordinal < sources[catalog[code]].ordinal ||
              (sources[id].ordinal == sources[catalog[code]].ordinal && id <= catalog[code])
    {
      assert id in RowsOfCode(sources, batch, code);
    }
  }

  /** No row has a foreign key to a candidate of the batch: no evidence, no application and no resolution,
      superseded or not. */
  ghost predicate NothingPointsAt(db: Db, world: World, batch: string) {
    forall code :: batch in db.candidates && code in db.candidates[batch] ==>
      var row := db.candidates[batch][code];
      && (forall id <- db.evidence :: db.evidence[id].typeRow != Some(row))
      && (forall x <- db.applications :: forall id <- db.applications[x] :: db.applications[x][id].typeRow != row)
      && (forall id <- world.resolutions :: forall i :: 0 <= i < |world.resolutions[id]| ==>
            world.resolutions[id][i].typeRow != Some(row))
  }

  lemma CitedIffSomethingPoints(db: Db, world: World, batch: string)
    ensures Cited(db, world, batch) <==> !NothingPointsAt(db, world, batch)
  {
    if batch in db.candidates {
      var catalog := db.candidates[batch];
      if Cited(db, world, batch) {
        var row :| row in catalog.Values && CitedRow(db, world, row);
        var code :| code in catalog && catalog[code] == row;
      }
      if !NothingPointsAt(db, world, batch) {
        var code :| code in catalog && CitedRow(db, world, catalog[code]);
        assert catalog[code] in catalog.Values;
      }
    }
  }

  /******* Members *******/

  /** The evidence row says what its identity evidence and the catalog of the newest snapshot say. */
  ghost predicate SaysWhatIsKnown(raw: RawEvent, i: Identity, db: Db, world: World, e: Evidence) {
    var n := |world.snapshots|;
    var known := n > 0 && world.snapshots[n - 1] in db.candidates && raw.typeCode.Some? &&
                 raw.typeCode.value in db.candidates[world.snapshots[n - 1]];
    && e.batch == raw.batch
    && (e.state.Validated? <==> i.validated && i.member.Some? && known)
    && (e.state.MissingIdentity? <==> i.validated && i.member.None?)
    && (e.state.UnknownType? <==> i.validated && i.member.Some? && !known)
    && (e.state.AmbiguousIdentity? <==> !i.validated)
    && (if e.state.Validated?
        then e.member == i.member && e.typeRow == Some(db.candidates[world.snapshots[n - 1]][raw.typeCode.value])
        else e.member == None && e.typeRow == None)
  }

  lemma ProjectSaysWhatIsKnown(raw: RawEvent, i: Identity, db: Db, world: World)
    requires Insertable(raw)
    ensures SaysWhatIsKnown(raw, i, db, world, Project(raw, i, Selectable(db, world)))
  {
  }

  /** The rows a members phase leaves: those that were there, untouched, and one for each raw event of the
      batch that has identity evidence. */
  ghost predicate Projected(input: Input, before: Db, world: World, batch: string, after: map<nat, Evidence>) {
    && (forall id :: id in after <==>
          id in before.evidence || (id in input.raw && input.raw[id].batch == batch && id in world.identities))
    && (forall id <- before.evidence :: id in after && after[id] == before.evidence[id])
    && (forall id <- after :: id !in before.evidence ==>
          id in input.raw && id in world.identities &&
          SaysWhatIsKnown(input.raw[id], world.identities[id], before, world, after[id]))
  }

  lemma NewEvidenceIsProjected(input: Input, db: Db, world: World, batch: string)
    requires AllInsertable(input, world, batch)
    ensures Projected(input, db, world, batch, NewEvidence(input, db, world, batch) + db.evidence)
  {
    var after := NewEvidence(input, db, world, batch) + db.evidence;
    forall id | id in after && id !in db.evidence
      ensures SaysWhatIsKnown(input.raw[id], world.identities[id], db, world, after[id])
    {
      ProjectSaysWhatIsKnown(input.raw[id], world.identities[id], db, world);
    }
  }

  /** Every raw event of the batch that has identity evidence has a type code, and a fee that is blank or
      a number. */
  ghost predicate CanBeInserted(input: Input, world: World, batch: string) {
    forall id :: id in input.raw && input.raw[id].batch == batch && id in world.identities ==>
      input.raw[id].typeCode.Some? && (input.raw[id].fee.Blank? || input.raw[id].fee.Amount?)
  }

  lemma InsertableIff(input: Input, world: World, batch: string)
    ensures AllInsertable(input, world, batch) <==> CanBeInserted(input, world, batch)
  {
    if AllInsertable(input, world, batch) {
      forall id | id in input.raw && input.raw[id].batch == batch && id in world.identities
        ensures Insertable(input.raw[id])
      {
        assert id in Joined(input, world, batch);
      }
    }
  }

  /** The counts of the table: each state of the batch, and the raw events themselves. */
  ghost predicate CountsTheBatch(raw: map<nat, RawEvent>, es: map<nat, Evidence>, batch: string, c: PhaseCounts) {
    && c.eligible == |set id | id in raw && raw[id].batch == batch|
    && c.projected == |set id | id in es && es[id].batch == batch && es[id].state.Validated?|
    && c.unknownType == |set id | id in es && es[id].batch == batch && es[id].state.UnknownType?|
    && c.ambiguous == |set id | id in es && es[id].batch == batch && es[id].state.AmbiguousIdentity?|
    && c.missing == |set id | id in es && es[id].batch == batch && es[id].state.MissingIdentity?|
    && c.exceptions == |set id | id in es && es[id].batch == batch && !es[id].state.Validated?|
  }

  lemma ExceptionsAreTheRest(es: map<nat, Evidence>, batch: string, rest: set<nat>)
    requires rest == set id | id in es && es[id].batch == batch && !es[id].state.Validated?
    ensures |rest| == |OfBatch(es, batch)| - |OfState(es, batch, Validated)|
  {
    assert OfBatch(es, batch) == OfState(es, batch, Validated) + rest;
    DisjointUnionSize(OfBatch(es, batch), OfState(es, batch, Validated), rest);
  }

  lemma MemberCountsAreCounts(raw: map<nat, RawEvent>, es: map<nat, Evidence>, batch: string)
    ensures CountsTheBatch(raw, es, batch, MemberCounts(raw, es, batch))
  {
    assert OfState(es, batch, Validated) == set id | id in es && es[id].batch == batch && es[id].state.Validated?;
    assert OfState(es, batch, UnknownType) == set id | id in es && es[id].batch == batch && es[id].state.UnknownType?;
    assert OfState(es, batch, AmbiguousIdentity) ==
           set id | id in es && es[id].batch == batch && es[id].state.AmbiguousIdentity?;
    assert OfState(es, batch, MissingIdentity) ==
           set id | id in es && es[id].batch == batch && es[id].state.MissingIdentity?;
    assert RawOfBatch(raw, batch) == set id | id in raw && raw[id].batch == batch;
    hide OfState, RawOfBatch, OfBatch;
    ExceptionsAreTheRest(es, batch, set id | id in es && es[id].batch == batch && !es[id].state.Validated?);
    StatesPartitionBatch(es, batch);
  }

  /** What a fresh members phase does when nothing disturbs it, told by the tables: it commits iff all rows
      it joins can be inserted and no raw event of the batch is without both an evidence row and identity
      evidence; then the evidence says what is known and the receipt counts it. */
  lemma MembersPhaseMeans(input: Input, s: Sys, w: nat)
    requires Inv(input, s) && Undisturbed(s, w) && s.workers[w].call.Members?
    ensures var call, s' := s.workers[w].call, Run(input, s, Five(w));
            && w in s'.workers
            && (s'.workers[w].Returned? <==>
                  && call.fingerprint != "" && CanBeInserted(input, s.world, call.batch)
                  && forall id :: id in input.raw && input.raw[id].batch == call.batch ==>
                       id in s.db.evidence || id in s.world.identities)
            && (s'.workers[w].Returned? ==>
                  && s'.workers[w].receipt.PhaseReceipt?
                  && Projected(input, s.db, s.world, call.batch, s'.db.evidence)
                  && CountsTheBatch(input.raw, s'.db.evidence, call.batch, s'.workers[w].receipt.counts)
                  && s'.db == s.db.(evidence := s'.db.evidence,
                                    receipts := s.db.receipts[Key(call.execution, MembersPhase) :=
                                                PhaseReceipt(call.batch, call.fingerprint, s'.workers[w].receipt.counts)]))
            && (!s'.workers[w].Returned? ==> s'.workers[w].Failed? && s'.db == s.db)
  {
    hide Next, Run, Alone, NewEvidence, MemberCounts, Reconciled, WorkerOk, SaysWhatIsKnown, Projected;
    var call := s.workers[w].call;
    MembersCommitsIff(input, s, w);
    InsertableIff(input, s.world, call.batch);
    LoneRun(input, s, w);
    LoneOutcome(input, s, w);
    MembersAlone(input, s, call);
    if Run(input, s, Five(w)).workers[w].Returned? {
      NewEvidenceIsProjected(input, s.db, s.world, call.batch);
      MemberCountsAreCounts(input.raw, Run(input, s, Five(w)).db.evidence, call.batch);
    }
  }

  /** At moment `n` of the run a members phase of the row's batch ran its INSERT, and the row says what was
      known then. */
  ghost predicate InsertedAt(input: Input, s0: Sys, events: seq<Event>, n: nat, id: nat, e: Evidence) {
    && n < |events| && events[n].Statement?
    && var s := Run(input, s0, events[..n]);
       && events[n].worker in s.workers
       && var pc := s.workers[events[n].worker];
          && pc.Writing? && pc.call.Members? && pc.call.batch == e.batch
          && id in input.raw && id in s.world.identities && id !in s.db.evidence
          && SaysWhatIsKnown(input.raw[id], s.world.identities[id], s.db, s.world, e)
  }

  ghost predicate WasInserted(input: Input, s0: Sys, events: seq<Event>, id: nat, e: Evidence) {
    exists n: nat :: InsertedAt(input, s0, events, n, id, e)
  }

  /** The same for the uncommitted rows of a worker. */
  ghost predicate DraftWasInserted(input: Input, s0: Sys, events: seq<Event>, pc: Pc) {
    InFlight(pc) && pc.draft.EvidenceRows? ==>
      forall id <- pc.draft.byId :: WasInserted(input, s0, events, id, pc.draft.byId[id])
  }

  lemma InsertedEarlier(input: Input, s0: Sys, events: seq<Event>, x: Event, id: nat, e: Evidence)
    requires WasInserted(input, s0, events, id, e)
    ensures WasInserted(input, s0, events + [x], id, e)
  {
    hide SaysWhatIsKnown, Run;
    var n: nat :| InsertedAt(input, s0, events, n, id, e);
    assert (events + [x])[..n] == events[..n];
    assert InsertedAt(input, s0, events + [x], n, id, e);
  }

  /** A members worker's INSERT, in a run. */
  lemma InsertNow(input: Input, s0: Sys, events: seq<Event>, w: nat)
    requires var s := Run(input, s0, events);
             w in s.workers && s.workers[w].Writing? && s.workers[w].call.Members? &&
             AllInsertable(input, s.world, s.workers[w].call.batch)
    ensures var s := Run(input, s0, events);
            forall id <- NewEvidence(input, s.db, s.world, s.workers[w].call.batch) ::
              WasInserted(input, s0, events + [Statement(w)], id,
                          NewEvidence(input, s.db, s.world, s.workers[w].call.batch)[id])
  {
    hide Run;
    var s := Run(input, s0, events);
    var rows := NewEvidence(input, s.db, s.world, s.workers[w].call.batch);
    forall id | id in rows ensures WasInserted(input, s0, events + [Statement(w)], id, rows[id]) {
      ProjectSaysWhatIsKnown(input.raw[id], s.world.identities[id], s.db, s.world);
      assert (events + [Statement(w)])[..|events|] == events;
      assert InsertedAt(input, s0, events + [Statement(w)], |events|, id, rows[id]);
    }
  }

  /** Where the rows of a worker come from when a step has given it new ones. */
  lemma DraftStep(input: Input, s: Sys, e: Event, w: nat)
    requires w in Next(input, s, e).workers
    ensures var pc' := Next(input, s, e).workers[w];
            InFlight(pc') && pc'.draft.EvidenceRows? ==>
              && w in s.workers
              && ((InFlight(s.workers[w]) && pc'.draft == s.workers[w].draft) ||
                  (&& e == Statement(w) && s.workers[w].Writing? && s.workers[w].call.Members?
                   && AllInsertable(input, s.world, s.workers[w].call.batch)
                   && pc'.draft.byId == NewEvidence(input, s.db, s.world, s.workers[w].call.batch)))
  {
  }

  /** Evidence comes only from a draft. */
  lemma EvidenceStep(input: Input, s: Sys, e: Event, id: nat)
    requires id in Next(input, s, e).db.evidence
    ensures var row := Next(input, s, e).db.evidence[id];
            || (id in s.db.evidence && s.db.evidence[id] == row)
            || exists w :: w in s.workers && InFlight(s.workers[w]) && s.workers[w].draft.EvidenceRows? &&
                           id in s.workers[w].draft.byId && s.workers[w].draft.byId[id] == row
  {
    OnlyCommitsWrite(input, s, e);
  }

  ghost predicate RowsWereInserted(input: Input, s0: Sys, events: seq<Event>, s: Sys) {
    && (forall id <- s.db.evidence :: WasInserted(input, s0, events, id, s.db.evidence[id]))
    && (forall w <- s.workers :: DraftWasInserted(input, s0, events, s.workers[w]))
  }

  lemma {:induction false} RunRowsWereInserted(input: Input, s0: Sys, events: seq<Event>)
    requires s0.db.evidence == map[] && s0.workers == map[]
    ensures RowsWereInserted(input, s0, events, Run(input, s0, events))
  {
    hide Next, NewEvidence, AllInsertable, WasInserted;
    if events != [] {
      var prefix, e := events[..|events| - 1], events[|events| - 1];
      RunRowsWereInserted(input, s0, prefix);
      assert events == prefix + [e];
      var s, s' := Run(input, s0, prefix), Run(input, s0, events);
      assert s' == Next(input, s, e);
      hide Run;
      forall id | id in s'.db.evidence ensures WasInserted(input, s0, events, id, s'.db.evidence[id]) {
        EvidenceStep(input, s, e, id);
        if !(id in s.db.evidence && s.db.evidence[id] == s'.db.evidence[id]) {
          var w :| w in s.workers && InFlight(s.workers[w]) && s.workers[w].draft.EvidenceRows? &&
                   id in s.workers[w].draft.byId && s.workers[w].draft.byId[id] == s'.db.evidence[id];
          assert DraftWasInserted(input, s0, prefix, s.workers[w]);
        }
        InsertedEarlier(input, s0, prefix, e, id, s'.db.evidence[id]);
      }
      forall w | w in s'.workers ensures DraftWasInserted(input, s0, events, s'.workers[w]) {
        DraftSurvives(input, s0, prefix, e, w);
      }
    }
  }

  lemma DraftSurvives(input: Input, s0: Sys, prefix: seq<Event>, e: Event, w: nat)
    requires RowsWereInserted(input, s0, prefix, Run(input, s0, prefix))
    requires w in Next(input, Run(input, s0, prefix), e).workers
    ensures DraftWasInserted(input, s0, prefix + [e], Next(input, Run(input, s0, prefix), e).workers[w])
  {
    hide Next, NewEvidence, AllInsertable, WasInserted, Run;
    var s := Run(input, s0, prefix);
    var pc' := Next(input, s, e).workers[w];
    if InFlight(pc') && pc'.draft.EvidenceRows? {
      DraftStep(input, s, e, w);
      if InFlight(s.workers[w]) && pc'.draft == s.workers[w].draft {
        assert DraftWasInserted(input, s0, prefix, s.workers[w]);
        forall id | id in pc'.draft.byId ensures WasInserted(input, s0, prefix + [e], id, pc'.draft.byId[id]) {
          InsertedEarlier(input, s0, prefix, e, id, pc'.draft.byId[id]);
        }
      } else {
        InsertNow(input, s0, prefix, w);
      }
    }
  }

  /** Over every run from empty tables: a committed evidence row, and so every member and every type that
      evidence names, comes from a members phase that saw what the row says when its INSERT ran. In
      particular a row with a member had validated identity evidence for that member. */
  lemma EvidenceSaysWhatWasKnown(input: Input, s0: Sys, events: seq<Event>, id: nat)
    requires s0.db.evidence == map[] && s0.workers == map[] && id in Run(input, s0, events).db.evidence
    ensures var e := Run(input, s0, events).db.evidence[id];
            exists n: nat ::
              && InsertedAt(input, s0, events, n, id, e)
              && (e.member.Some? || e.typeRow.Some? ==>
                    var i := Run(input, s0, events[..n]).world.identities[id]; i.validated && i.member == e.member)
  {
    RunRowsWereInserted(input, s0, events);
    var n: nat :| InsertedAt(input, s0, events, n, id, Run(input, s0, events).db.evidence[id]);
  }

  /** A committed members receipt counts, at every later moment, what is in the table, and accounts for
      every raw event of its batch. */
  lemma MembersReceiptCountsTheTable(input: Input, s: Sys, events: seq<Event>, x: string)
    requires Inv(input, s) && Key(x, MembersPhase) in s.db.receipts
    ensures s.db.receipts[Key(x, MembersPhase)].PhaseReceipt?
    ensures var r, es := s.db.receipts[Key(x, MembersPhase)], Run(input, s, events).db.evidence;
            && CountsTheBatch(input.raw, es, r.batch, r.counts)
            && r.counts.eligible == r.counts.projected + r.counts.exceptions
            && forall id <- input.raw :: input.raw[id].batch == r.batch ==> id in es && es[id].batch == r.batch
  {
    MembersReceiptStaysTrue(input, s, events, x);
    var r, es := s.db.receipts[Key(x, MembersPhase)], Run(input, s, events).db.evidence;
    MemberCountsAreCounts(input.raw, es, r.batch);
    forall id | id in input.raw && input.raw[id].batch == r.batch ensures id in es && es[id].batch == r.batch {
      assert id in RawOfBatch(input.raw, r.batch);
    }
  }

  /******* Bindings *******/

  /** A call that returns, at any moment of any run, returns the committed receipt of its own execution and
      phase, made for its own batch and for the fingerprint it passed. */
  lemma ReturnedReceiptIsItsOwn(input: Input, s: Sys, events: seq<Event>, w: nat)
    requires Inv(input, s)
    requires w in Run(input, s, events).workers && Run(input, s, events).workers[w].Returned?
    ensures var s', pc := Run(input, s, events), Run(input, s, events).workers[w];
            && KeyOf(pc.call) in s'.db.receipts && s'.db.receipts[KeyOf(pc.call)] == pc.receipt
            && pc.receipt.batch == pc.call.batch
            && (pc.call.Apply? <==> pc.receipt.ApplicationReceipt?)
            && (!pc.call.Apply? ==> pc.receipt.fingerprint == pc.call.fingerprint)
            && (pc.call.Apply? && pc.call.expected.Some? ==> pc.receipt.leaves == pc.call.expected.value)
  {
    RunInv(input, s, events);
    assert WorkerOk(input, Run(input, s, events).db, Run(input, s, events).workers[w]);
  }

  /** A call that differs from the committed receipt of its execution and phase in the batch or in the
      fingerprint never returns and changes no table, whatever else happens. */
  lemma DifferingCallIsInert(input: Input, s: Sys, events: seq<Event>, w: nat)
    requires Inv(input, s) && w in s.workers && KeyOf(s.workers[w].call) in s.db.receipts
    requires var call, r := s.workers[w].call, s.db.receipts[KeyOf(s.workers[w].call)];
             || r.batch != call.batch
             || (!call.Apply? && r.PhaseReceipt? && r.fingerprint != call.fingerprint)
             || (call.Apply? && call.expected.Some? && r.ApplicationReceipt? && r.leaves != call.expected.value)
    requires forall i :: 0 <= i < |events| && events[i].Start? ==> events[i].worker != w
    ensures w in Run(input, s, events).workers && !Run(input, s, events).workers[w].Returned?
    ensures forall i :: 0 <= i < |events| && (events[i] == Statement(w) || events[i] == CommitUnacknowledged(w)) ==>
              Run(input, s, events[..i + 1]).db == Run(input, s, events[..i]).db
  {
    IncompatibleCallIsInert(input, s, events, w);
  }
}

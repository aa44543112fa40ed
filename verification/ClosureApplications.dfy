/** Which resolutions an application applies, said about the tables themselves
  (packages/promotion/src/legacy-member-evidence-resolution-application.ts).

  An exception of the batch is unresolved while nobody has decided it, applied when its last resolution
  was made for the evidence as it is and names a member and a candidate that exist, stale when it was not
  or does not, and technical when it has no member identity at all.
 */
module ClosureApplications {
  import opened Common
  import opened ClosureEvidence
  import opened ClosurePhases
  import opened ClosureGuarantees

  /** Evidence `id` is an exception of the batch that a steward can decide. */
  ghost predicate Decidable(input: Input, db: Db, batch: string, id: nat) {
    && id in db.evidence && id in input.raw && db.evidence[id].batch == batch
    && (db.evidence[id].state.UnknownType? || db.evidence[id].state.AmbiguousIdentity?)
  }

  ghost predicate HasResolution(world: World, id: nat) {
    id in world.resolutions && |world.resolutions[id]| > 0
  }

  /** The last resolution of `id`, which no other supersedes, was made for this kind of exception and for
      the raw event as it is, and its member and its candidate exist. */
  ghost predicate ResolutionHolds(input: Input, db: Db, world: World, id: nat)
    requires id in db.evidence && id in input.raw
  {
    && HasResolution(world, id)
    && var r := world.resolutions[id][|world.resolutions[id]| - 1];
       && r.kind == db.evidence[id].state && r.evidenceFingerprint == input.raw[id].contentHash
       && r.member.Some? && r.member.value in world.members
       && r.typeRow.Some?
       && exists b, code :: b in db.candidates && code in db.candidates[b] && db.candidates[b][code] == r.typeRow.value
  }

  /** The rows an application inserts: one for each decidable exception whose resolution holds, with that
      resolution's id, member and type, and no others. */
  ghost predicate AppliesExactly(input: Input, db: Db, world: World, batch: string, rows: map<nat, Application>) {
    && (forall id :: id in rows <==> Decidable(input, db, batch, id) && ResolutionHolds(input, db, world, id))
    && (forall id <- rows :: HasResolution(world, id) &&
          var r := world.resolutions[id][|world.resolutions[id]| - 1];
          r.member.Some? && r.typeRow.Some? && rows[id] == Application(r.id, r.member.value, r.typeRow.value))
  }

  /** What the receipt of an application counts. A stale exception is a decidable one that has a resolution
      which does not hold. */
  ghost predicate CountsOutcomes(input: Input, db: Db, world: World, batch: string, c: ApplicationCounts) {
    && c.eligible ==
       |set id | id in db.evidence && id in input.raw &&
                 db.evidence[id].batch == batch && !db.evidence[id].state.Validated?|
    && c.technical ==
       |set id | id in db.evidence && id in input.raw &&
                 db.evidence[id].batch == batch && db.evidence[id].state.MissingIdentity?|
    && c.applied ==
       |set id | id in db.evidence && Decidable(input, db, batch, id) && ResolutionHolds(input, db, world, id)|
    && c.stale ==
       |set id | id in db.evidence && Decidable(input, db, batch, id) && HasResolution(world, id) &&
                 !ResolutionHolds(input, db, world, id)|
    && c.unresolved == |set id | id in db.evidence && Decidable(input, db, batch, id) && !HasResolution(world, id)|
    && c.unresolvedUnknown ==
       |set id | id in db.evidence && Decidable(input, db, batch, id) && !HasResolution(world, id) &&
                 db.evidence[id].state.UnknownType?|
    && c.unresolvedAmbiguous ==
       |set id | id in db.evidence && Decidable(input, db, batch, id) && !HasResolution(world, id) &&
                 db.evidence[id].state.AmbiguousIdentity?|
  }

  /******* One reading *******/

  /** The outcome of one leaf as it was read. */
  lemma OutcomeMeans(input: Input, db: Db, world: World, batch: string, id: nat)
    requires id in ReadLeaves(input, db, world, batch)
    ensures id in db.evidence && id in input.raw
    ensures var leaf := ReadLeaves(input, db, world, batch)[id];
            && leaf.key.kind == db.evidence[id].state
            && (OutcomeOf(leaf).Technical? <==> db.evidence[id].state.MissingIdentity?)
            && (OutcomeOf(leaf).Unresolved? <==> Decidable(input, db, batch, id) && !HasResolution(world, id))
            && (OutcomeOf(leaf).Applied? <==> Decidable(input, db, batch, id) && ResolutionHolds(input, db, world, id))
            && (OutcomeOf(leaf).Stale? <==>
                  Decidable(input, db, batch, id) && HasResolution(world, id) && !ResolutionHolds(input, db, world, id))
  {
    var leaf := ReadLeaves(input, db, world, batch)[id];
    assert leaf == LeafFor(input, db, world, id);
    if HasResolution(world, id) {
      var r := world.resolutions[id][|world.resolutions[id]| - 1];
      if r.typeRow.Some? {
        TypeExistsIff(db, r.typeRow.value);
      }
    }
  }

  lemma TypeExistsIff(db: Db, row: nat)
    ensures TypeExists(db, row) <==>
            exists b, code :: b in db.candidates && code in db.candidates[b] && db.candidates[b][code] == row
  {
    if TypeExists(db, row) {
      var b :| b in db.candidates && row in db.candidates[b].Values;
      var code :| code in db.candidates[b] && db.candidates[b][code] == row;
    }
    if b, code :| b in db.candidates && code in db.candidates[b] && db.candidates[b][code] == row {
      assert row in db.candidates[b].Values;
    }
  }

  lemma ReadingApplies(input: Input, db: Db, world: World, batch: string)
    requires AllWellFormed(ReadLeaves(input, db, world, batch))
    ensures AppliesExactly(input, db, world, batch, ApplicationsOf(ReadLeaves(input, db, world, batch)))
  {
    var leaves := ReadLeaves(input, db, world, batch);
    var rows := ApplicationsOf(leaves);
    forall id ensures id in rows <==> Decidable(input, db, batch, id) && ResolutionHolds(input, db, world, id) {
      if id in leaves {
        OutcomeMeans(input, db, world, batch, id);
      }
    }
    forall id | id in rows
      ensures HasResolution(world, id)
      ensures var r := world.resolutions[id][|world.resolutions[id]| - 1];
              r.member.Some? && r.typeRow.Some? && rows[id] == Application(r.id, r.member.value, r.typeRow.value)
    {
      OutcomeMeans(input, db, world, batch, id);
      assert leaves[id] == LeafFor(input, db, world, id);
    }
  }

  lemma OutcomesMean(input: Input, db: Db, world: World, batch: string)
    ensures var leaves := ReadLeaves(input, db, world, batch);
            && WithOutcome(leaves, Technical) ==
               (set id | id in db.evidence && id in input.raw && db.evidence[id].batch == batch &&
                         db.evidence[id].state.MissingIdentity?)
            && WithOutcome(leaves, Applied) ==
               (set id | id in db.evidence && Decidable(input, db, batch, id) && ResolutionHolds(input, db, world, id))
            && WithOutcome(leaves, Stale) ==
               (set id | id in db.evidence && Decidable(input, db, batch, id) && HasResolution(world, id) &&
                         !ResolutionHolds(input, db, world, id))
            && WithOutcome(leaves, Unresolved) ==
               (set id | id in db.evidence && Decidable(input, db, batch, id) && !HasResolution(world, id))
  {
    var leaves := ReadLeaves(input, db, world, batch);
    forall id
      ensures id in leaves ==>
                && (OutcomeOf(leaves[id]).Technical? <==> db.evidence[id].state.MissingIdentity?)
                && (OutcomeOf(leaves[id]).Unresolved? <==> Decidable(input, db, batch, id) && !HasResolution(world, id))
                && (OutcomeOf(leaves[id]).Applied? <==> Decidable(input, db, batch, id) && ResolutionHolds(input, db, world, id))
                && (OutcomeOf(leaves[id]).Stale? <==>
                      Decidable(input, db, batch, id) && HasResolution(world, id) && !ResolutionHolds(input, db, world, id))
      ensures id in leaves <==> IsException(input, db, batch, id)
    {
      if id in leaves {
        OutcomeMeans(input, db, world, batch, id);
      }
    }
    hide OutcomeOf, ReadLeaves, ResolutionHolds, HasResolution;
    forall id ensures id in WithOutcome(leaves, Technical) <==> id in leaves && OutcomeOf(leaves[id]).Technical? {
    }
  }

  ghost predicate IsException(input: Input, db: Db, batch: string, id: nat) {
    id in db.evidence && id in input.raw && db.evidence[id].batch == batch && !db.evidence[id].state.Validated?
  }

  lemma UnresolvedMeans(input: Input, db: Db, world: World, batch: string)
    ensures var leaves := ReadLeaves(input, db, world, batch);
            && UnresolvedOf(leaves, UnknownType) ==
               (set id | id in db.evidence && Decidable(input, db, batch, id) && !HasResolution(world, id) &&
                         db.evidence[id].state.UnknownType?)
            && UnresolvedOf(leaves, AmbiguousIdentity) ==
               (set id | id in db.evidence && Decidable(input, db, batch, id) && !HasResolution(world, id) &&
                         db.evidence[id].state.AmbiguousIdentity?)
  {
    var leaves := ReadLeaves(input, db, world, batch);
    forall id
      ensures id in leaves ==>
                && id in db.evidence && leaves[id].key.kind == db.evidence[id].state
                && (OutcomeOf(leaves[id]).Unresolved? <==> Decidable(input, db, batch, id) && !HasResolution(world, id))
      ensures id in leaves <==> IsException(input, db, batch, id)
    {
      if id in leaves {
        OutcomeMeans(input, db, world, batch, id);
      }
    }
    hide OutcomeOf, ReadLeaves, HasResolution;
  }

  lemma ReadingCounts(input: Input, db: Db, world: World, batch: string)
    ensures CountsOutcomes(input, db, world, batch, CountLeaves(ReadLeaves(input, db, world, batch)))
  {
    var leaves := ReadLeaves(input, db, world, batch);
    assert leaves.Keys ==
           set id | id in db.evidence && id in input.raw && db.evidence[id].batch == batch && !db.evidence[id].state.Validated?;
    hide ReadLeaves, ResolutionHolds, HasResolution, Decidable, WithOutcome, UnresolvedOf, OutcomeOf;
    OutcomesMean(input, db, world, batch);
    UnresolvedMeans(input, db, world, batch);
  }

  /** What the fingerprint binds of one raw event: nothing unless it is an exception of the batch, else its
      state, its content hash and its last resolution. */
  lemma BoundIff(input: Input, db: Db, world: World, batch: string, id: nat)
    ensures var f := FingerprintOf(ReadLeaves(input, db, world, batch));
            && (id in f <==> IsException(input, db, batch, id))
            && (id in f ==>
                  f[id] == LeafKey(db.evidence[id].state, input.raw[id].contentHash,
                                   if HasResolution(world, id)
                                   then Some(world.resolutions[id][|world.resolutions[id]| - 1]) else None))
  {
  }

  /** Two readings have the same fingerprint iff they see the same exceptions, each in the same state and
      with the same last resolution: content hashes are immutable. */
  lemma SameFingerprintIff(input: Input, db1: Db, world1: World, db2: Db, world2: World, batch: string)
    ensures FingerprintOf(ReadLeaves(input, db1, world1, batch)) == FingerprintOf(ReadLeaves(input, db2, world2, batch)) <==>
            forall id :: (IsException(input, db1, batch, id) <==> IsException(input, db2, batch, id)) &&
                         (IsException(input, db1, batch, id) ==>
                            && db1.evidence[id].state == db2.evidence[id].state
                            && (HasResolution(world1, id) <==> HasResolution(world2, id))
                            && (HasResolution(world1, id) ==>
                                  world1.resolutions[id][|world1.resolutions[id]| - 1] ==
                                  world2.resolutions[id][|world2.resolutions[id]| - 1]))
  {
    var f1 := FingerprintOf(ReadLeaves(input, db1, world1, batch));
    var f2 := FingerprintOf(ReadLeaves(input, db2, world2, batch));
    hide FingerprintOf, ReadLeaves;
    forall id
      ensures id in f1 <==> IsException(input, db1, batch, id)
      ensures id in f2 <==> IsException(input, db2, batch, id)
      ensures id in f1 && id in f2 ==>
                (f1[id] == f2[id] <==>
                   && db1.evidence[id].state == db2.evidence[id].state
                   && (HasResolution(world1, id) <==> HasResolution(world2, id))
                   && (HasResolution(world1, id) ==>
                         world1.resolutions[id][|world1.resolutions[id]| - 1] ==
                         world2.resolutions[id][|world2.resolutions[id]| - 1]))
    {
      BoundIff(input, db1, world1, batch, id);
      BoundIff(input, db2, world2, batch, id);
    }
    hide HasResolution, IsException;
    if f1 == f2 {
      forall id | id in f1 ensures f1[id] == f2[id] {
      }
    }
  }

  /******* Runs *******/

  /** At moment `n` of the run an application of execution `x` read the tables of batch `batch`. */
  ghost predicate ReadAt(input: Input, s0: Sys, events: seq<Event>, n: nat, x: string, batch: string) {
    && n < |events| && events[n].Statement?
    && var s := Run(input, s0, events[..n]);
       && events[n].worker in s.workers
       && var pc := s.workers[events[n].worker];
          pc.Reading? && pc.call.Apply? && pc.call.execution == x && pc.call.batch == batch
  }

  /** The leaves were read by an application of execution `x`. */
  ghost predicate LeavesWereRead(input: Input, s0: Sys, events: seq<Event>, x: string, batch: string, leaves: Leaves) {
    exists n: nat ::
      && ReadAt(input, s0, events, n, x, batch)
      && var s := Run(input, s0, events[..n]); leaves == ReadLeaves(input, s.db, s.world, batch)
  }

  /** The rows and the receipt come from leaves that were read. */
  ghost predicate RowsWereRead(input: Input, s0: Sys, events: seq<Event>, x: string, rows: map<nat, Application>, r: Receipt) {
    && r.ApplicationReceipt?
    && exists leaves :: LeavesWereRead(input, s0, events, x, r.batch, leaves) && AllWellFormed(leaves) &&
                        rows == ApplicationsOf(leaves) && r.leaves == FingerprintOf(leaves) && r.applied == CountLeaves(leaves)
  }

  ghost predicate WorkerRead(input: Input, s0: Sys, events: seq<Event>, pc: Pc) {
    pc.call.Apply? ==>
      match pc
      case Writing(call, leaves) => LeavesWereRead(input, s0, events, call.execution, call.batch, leaves)
      case Measuring(_, _) => false
      case Recording(call, draft, r) =>
        draft.ApplicationRows? && RowsWereRead(input, s0, events, call.execution, draft.byEvidence, r)
      case Committing(call, draft, r) =>
        draft.ApplicationRows? && RowsWereRead(input, s0, events, call.execution, draft.byEvidence, r)
      case _ => true
  }

  ghost predicate AllRead(input: Input, s0: Sys, events: seq<Event>, s: Sys) {
    && (forall x <- s.db.applications ::
          Key(x, ApplicationPhase) in s.db.receipts &&
          RowsWereRead(input, s0, events, x, s.db.applications[x], s.db.receipts[Key(x, ApplicationPhase)]))
    && (forall w <- s.workers :: WorkerRead(input, s0, events, s.workers[w]))
  }

  lemma ReadEarlier(input: Input, s0: Sys, events: seq<Event>, e: Event, x: string, batch: string, leaves: Leaves)
    requires LeavesWereRead(input, s0, events, x, batch, leaves)
    ensures LeavesWereRead(input, s0, events + [e], x, batch, leaves)
  {
    hide Run, ReadLeaves;
    var n: nat :| ReadAt(input, s0, events, n, x, batch) &&
                  leaves == ReadLeaves(input, Run(input, s0, events[..n]).db, Run(input, s0, events[..n]).world, batch);
    assert (events + [e])[..n] == events[..n];
    assert ReadAt(input, s0, events + [e], n, x, batch);
  }

  lemma RowsReadEarlier(input: Input, s0: Sys, events: seq<Event>, e: Event, x: string, rows: map<nat, Application>, r: Receipt)
    requires RowsWereRead(input, s0, events, x, rows, r)
    ensures RowsWereRead(input, s0, events + [e], x, rows, r)
  {
    hide LeavesWereRead, ApplicationsOf, FingerprintOf, CountLeaves;
    var leaves :| LeavesWereRead(input, s0, events, x, r.batch, leaves) && AllWellFormed(leaves) &&
                  rows == ApplicationsOf(leaves) && r.leaves == FingerprintOf(leaves) && r.applied == CountLeaves(leaves);
    ReadEarlier(input, s0, events, e, x, r.batch, leaves);
  }

  lemma WorkerReadEarlier(input: Input, s0: Sys, events: seq<Event>, e: Event, pc: Pc)
    requires WorkerRead(input, s0, events, pc)
    ensures WorkerRead(input, s0, events + [e], pc)
  {
    hide LeavesWereRead, RowsWereRead;
    if pc.call.Apply? {
      match pc
      case Writing(call, leaves) => ReadEarlier(input, s0, events, e, call.execution, call.batch, leaves);
      case Recording(call, draft, r) => RowsReadEarlier(input, s0, events, e, call.execution, draft.byEvidence, r);
      case Committing(call, draft, r) => RowsReadEarlier(input, s0, events, e, call.execution, draft.byEvidence, r);
      case _ =>
    }
  }

  /** A worker's own statement. */
  lemma AdvanceRead(input: Input, s0: Sys, events: seq<Event>, w: nat)
    requires var s := Run(input, s0, events); w in s.workers && WorkerRead(input, s0, events, s.workers[w])
    ensures var s := Run(input, s0, events);
            WorkerRead(input, s0, events + [Statement(w)], Advance(input, s, s.workers[w]))
  {
    hide Run, ReadLeaves, ApplicationsOf, FingerprintOf, CountLeaves, LeavesWereRead;
    var s := Run(input, s0, events);
    var pc := s.workers[w];
    var later := events + [Statement(w)];
    if pc.call.Apply? {
      match pc
      case Reading(call) => ReadNow(input, s0, events, w);
      case Writing(call, leaves) =>
        ReadEarlier(input, s0, events, Statement(w), call.execution, call.batch, leaves);
      case Recording(call, draft, r) => RowsReadEarlier(input, s0, events, Statement(w), call.execution, draft.byEvidence, r);
      case _ =>
    }
  }

  lemma ReadNow(input: Input, s0: Sys, events: seq<Event>, w: nat)
    requires var s := Run(input, s0, events); w in s.workers && s.workers[w].Reading? && s.workers[w].call.Apply?
    ensures var s := Run(input, s0, events);
            var call := s.workers[w].call;
            LeavesWereRead(input, s0, events + [Statement(w)], call.execution, call.batch,
                           ReadLeaves(input, s.db, s.world, call.batch))
  {
    hide Run, ReadLeaves;
    assert (events + [Statement(w)])[..|events|] == events;
    var call := Run(input, s0, events).workers[w].call;
    assert ReadAt(input, s0, events + [Statement(w)], |events|, call.execution, call.batch);
  }

  lemma StepRead(input: Input, s0: Sys, events: seq<Event>, e: Event)
    requires AllRead(input, s0, events, Run(input, s0, events))
    requires Inv(input, Run(input, s0, events))
    ensures AllRead(input, s0, events + [e], Next(input, Run(input, s0, events), e))
  {
    hide Run, Next, Inv, WorkerRead, RowsWereRead;
    var s := Run(input, s0, events);
    var s' := Next(input, s, e);
    forall w | w in s'.workers ensures WorkerRead(input, s0, events + [e], s'.workers[w]) {
      if w in s.workers && !(e.Start? && e.worker == w) {
        OthersStandStill(input, s, e, w);
        WorkerReadEarlier(input, s0, events, e, s.workers[w]);
        if s'.workers[w] == Failed(s.workers[w].call) {
          FailedHasRead(input, s0, events + [e], s.workers[w].call);
        } else if s'.workers[w] != s.workers[w] {
          AdvanceRead(input, s0, events, w);
        }
      } else {
        StartedHasRead(input, s0, events, e, w);
      }
    }
    forall x | x in s'.db.applications
      ensures Key(x, ApplicationPhase) in s'.db.receipts
      ensures RowsWereRead(input, s0, events + [e], x, s'.db.applications[x], s'.db.receipts[Key(x, ApplicationPhase)])
    {
      ApplicationStep(input, s0, events, e, x);
    }
  }

  lemma FailedHasRead(input: Input, s0: Sys, events: seq<Event>, call: Call)
    ensures WorkerRead(input, s0, events, Failed(call))
  {
  }

  lemma StartedHasRead(input: Input, s0: Sys, events: seq<Event>, e: Event, w: nat)
    requires w in Next(input, Run(input, s0, events), e).workers
    requires w in Run(input, s0, events).workers ==> e.Start? && e.worker == w
    requires w in Run(input, s0, events).workers ==> WorkerRead(input, s0, events, Run(input, s0, events).workers[w])
    ensures WorkerRead(input, s0, events + [e], Next(input, Run(input, s0, events), e).workers[w])
  {
    hide WorkerRead;
    var s := Run(input, s0, events);
    var pc' := Next(input, s, e).workers[w];
    if w in s.workers && pc' == s.workers[w] {
      WorkerReadEarlier(input, s0, events, e, pc');
    } else {
      assert pc'.Reading?;
      ReadingHasRead(input, s0, events + [e], pc');
    }
  }

  lemma ReadingHasRead(input: Input, s0: Sys, events: seq<Event>, pc: Pc)
    requires pc.Reading?
    ensures WorkerRead(input, s0, events, pc)
  {
  }

  lemma ApplicationStep(input: Input, s0: Sys, events: seq<Event>, e: Event, x: string)
    requires AllRead(input, s0, events, Run(input, s0, events)) && Inv(input, Run(input, s0, events))
    requires x in Next(input, Run(input, s0, events), e).db.applications
    ensures Key(x, ApplicationPhase) in Next(input, Run(input, s0, events), e).db.receipts
    ensures var s' := Next(input, Run(input, s0, events), e);
            RowsWereRead(input, s0, events + [e], x, s'.db.applications[x], s'.db.receipts[Key(x, ApplicationPhase)])
  {
    hide Run, Next, Inv, RowsWereRead, Publish;
    var s := Run(input, s0, events);
    OnlyCommitsWrite(input, s, e);
    StepPublishesAtMostOneReceipt(input, s, e);
    if Publishes(s, e) && s.workers[e.worker].call.Apply? && s.workers[e.worker].call.execution == x {
      var pc := s.workers[e.worker];
      assert WorkerRead(input, s0, events, pc);
      PublishedApplication(s.db, pc);
      RowsReadEarlier(input, s0, events, e, x, pc.draft.byEvidence, pc.receipt);
    } else {
      ApplicationKept(input, s, e, x);
      RowsReadEarlier(input, s0, events, e, x, s.db.applications[x], s.db.receipts[Key(x, ApplicationPhase)]);
    }
  }

  lemma PublishedApplication(db: Db, pc: Pc)
    requires pc.Committing? && pc.call.Apply? && pc.draft.ApplicationRows?
    ensures var db' := Publish(db, pc.call, pc.draft, pc.receipt);
            && pc.call.execution in db'.applications && db'.applications[pc.call.execution] == pc.draft.byEvidence
            && Key(pc.call.execution, ApplicationPhase) in db'.receipts
            && db'.receipts[Key(pc.call.execution, ApplicationPhase)] == pc.receipt
  {
  }

  lemma ApplicationKept(input: Input, s: Sys, e: Event, x: string)
    requires Inv(input, s) && x in Next(input, s, e).db.applications
    requires !(Publishes(s, e) && s.workers[e.worker].call.Apply? && s.workers[e.worker].call.execution == x)
    ensures x in s.db.applications && Next(input, s, e).db.applications[x] == s.db.applications[x]
  {
    hide Next, Inv, Publish;
    StepPublishesAtMostOneReceipt(input, s, e);
    if Next(input, s, e).db != s.db {
      var call := s.workers[e.worker].call;
      assert OnlyOwnRows(s.db, Next(input, s, e).db, call);
      if call.Apply? {
        assert x in Next(input, s, e).db.applications - {call.execution};
      }
    }
  }

  lemma {:induction false} RunRead(input: Input, s0: Sys, events: seq<Event>)
    requires Inv(input, s0) && s0.db.applications == map[] && s0.workers == map[]
    ensures AllRead(input, s0, events, Run(input, s0, events))
  {
    hide Next, Inv, WorkerRead, RowsWereRead;
    if events != [] {
      var prefix, e := events[..|events| - 1], events[|events| - 1];
      hide AllRead;
      RunRead(input, s0, prefix);
      RunInv(input, s0, prefix);
      StepRead(input, s0, prefix, e);
      assert events == prefix + [e];
    }
  }

  /** Over every run from empty tables: the application rows of an execution are exactly those whose
      resolution held at one moment, when an application of that execution read the tables, and its receipt
      counts the exceptions of that moment. So a resolution made for other evidence, of another kind or for
      a member or a type that is not there is never applied, and one that held is never left out. */
  lemma ApplicationsHeldWhenRead(input: Input, s0: Sys, events: seq<Event>, x: string)
    requires Inv(input, s0) && s0.db.applications == map[] && s0.workers == map[]
    requires x in Run(input, s0, events).db.applications
    ensures Key(x, ApplicationPhase) in Run(input, s0, events).db.receipts
    ensures var s := Run(input, s0, events);
            var rows, r := s.db.applications[x], s.db.receipts[Key(x, ApplicationPhase)];
            && r.ApplicationReceipt?
            && exists n: nat ::
                 && ReadAt(input, s0, events, n, x, r.batch)
                 && AppliesExactly(input, Run(input, s0, events[..n]).db, Run(input, s0, events[..n]).world, r.batch, rows)
                 && CountsOutcomes(input, Run(input, s0, events[..n]).db, Run(input, s0, events[..n]).world, r.batch, r.applied)
  {
    hide Next, Inv, AppliesExactly, CountsOutcomes, ReadLeaves, ApplicationsOf, CountLeaves, FingerprintOf;
    RunRead(input, s0, events);
    var s := Run(input, s0, events);
    var rows, r := s.db.applications[x], s.db.receipts[Key(x, ApplicationPhase)];
    var leaves :| LeavesWereRead(input, s0, events, x, r.batch, leaves) && AllWellFormed(leaves) &&
                  rows == ApplicationsOf(leaves) && r.leaves == FingerprintOf(leaves) && r.applied == CountLeaves(leaves);
    var n: nat :| ReadAt(input, s0, events, n, x, r.batch) &&
                  leaves == ReadLeaves(input, Run(input, s0, events[..n]).db, Run(input, s0, events[..n]).world, r.batch);
    ReadingApplies(input, Run(input, s0, events[..n]).db, Run(input, s0, events[..n]).world, r.batch);
    ReadingCounts(input, Run(input, s0, events[..n]).db, Run(input, s0, events[..n]).world, r.batch);
  }

  /******* Who waits for whom *******/

  /** The worker has read its leaves and has not come to rest. */
  predicate PastReading(pc: Pc) {
    pc.call.Apply? && (pc.Writing? || pc.Recording? || pc.Committing? || pc.Replaying?)
  }

  predicate HasWritten(pc: Pc) { pc.Measuring? || pc.Recording? || pc.Committing? }

  /** Some candidate of the batch is cited by one of the rows. */
  ghost predicate SomeCited(db: Db, batch: string, types: set<nat>) {
    exists code :: batch in db.candidates && code in db.candidates[batch] && db.candidates[batch][code] in types
  }

  function TypesOfEvidence(rows: map<nat, Evidence>): set<nat> {
    set id | id in rows && rows[id].typeRow.Some? :: rows[id].typeRow.value
  }

  function TypesOfApplications(rows: map<nat, Application>): set<nat> {
    set id | id in rows :: rows[id].typeRow
  }

  function TypesOfDraft(draft: Draft): set<nat> {
    match draft
    case CandidateRows(_) => {}
    case EvidenceRows(rows) => TypesOfEvidence(rows)
    case ApplicationRows(rows) => TypesOfApplications(rows)
  }

  lemma ConflictsIff(db: Db, batch: string, draft: Draft)
    ensures Conflicts(db, batch, draft) <==> SomeCited(db, batch, TypesOfDraft(draft))
  {
    if Conflicts(db, batch, draft) {
      var row :| row in db.candidates[batch].Values && DraftCites(draft, row);
      var code :| code in db.candidates[batch] && db.candidates[batch][code] == row;
      assert row in TypesOfDraft(draft);
    }
    if SomeCited(db, batch, TypesOfDraft(draft)) {
      var code :| code in db.candidates[batch] && db.candidates[batch][code] in TypesOfDraft(draft);
      assert db.candidates[batch][code] in db.candidates[batch].Values;
    }
  }

  /** A statement waits for another transaction exactly in these cases: the reading of an application while one
      of its execution is past its own; a rebuild while another one of its batch has written, or while rows
      that cite its catalog are uncommitted; a members insert while one of its batch has uncommitted rows, or
      while the catalog that its rows cite is being rebuilt; an application's insert likewise; and a receipt
      while another with its key is uncommitted. */
  lemma WaitsIff(input: Input, s: Sys, pc: Pc, other: Pc)
    requires Inv(input, s) && WorkerOk(input, s.db, pc) && WorkerOk(input, s.db, other)
    ensures BlockedBy(input, s, pc, other) <==>
            var b := pc.call.batch;
            match pc
            case Reading(Apply(_, x, _)) => PastReading(other) && other.call.execution == x
            case Writing(Candidates(_, _, _), _) =>
              HasWritten(other) &&
              ((other.call.Candidates? && other.call.batch == b) || SomeCited(s.db, b, TypesOfDraft(other.draft)))
            case Writing(Members(_, _, _), _) =>
              HasWritten(other) &&
              ((other.call.Members? && other.call.batch == b && other.draft.byId != map[]) ||
               (other.call.Candidates? && AllInsertable(input, s.world, b) &&
                  SomeCited(s.db, other.call.batch, TypesOfEvidence(NewEvidence(input, s.db, s.world, b)))))
            case Writing(Apply(_, _, _), leaves) =>
              HasWritten(other) && other.call.Candidates? && AllWellFormed(leaves) &&
              SomeCited(s.db, other.call.batch, TypesOfApplications(ApplicationsOf(leaves)))
            case Recording(_, _, _) => other.Committing? && KeyOf(other.call) == KeyOf(pc.call)
            case _ => false
  {
    hide Conflicts, SomeCited, NewEvidence, ApplicationsOf, Inv, ReceiptMatches;
    if HasWritten(other) {
      assert DraftMatches(input, s.db, other.call, other.draft);
      ConflictsIff(s.db, pc.call.batch, other.draft);
      if pc.Writing? && pc.call.Members? && AllInsertable(input, s.world, pc.call.batch) {
        ConflictsIff(s.db, other.call.batch, EvidenceRows(NewEvidence(input, s.db, s.world, pc.call.batch)));
      }
      if pc.Writing? && pc.call.Apply? && AllWellFormed(pc.leaves) {
        ConflictsIff(s.db, other.call.batch, ApplicationRows(ApplicationsOf(pc.leaves)));
      }
    }
  }

  /******* The advisory lock *******/

  predicate OneApplying(s: Sys) {
    forall v, w :: v in s.workers && w in s.workers && v != w && PastReading(s.workers[v]) && PastReading(s.workers[w]) ==>
      s.workers[v].call.execution != s.workers[w].call.execution
  }

  lemma OneApplyingStep(input: Input, s: Sys, e: Event)
    requires OneApplying(s)
    ensures OneApplying(Next(input, s, e))
  {
    var t := Next(input, s, e);
    forall w | w in t.workers && PastReading(t.workers[w])
      ensures w in s.workers && t.workers[w].call == s.workers[w].call
      ensures PastReading(s.workers[w]) || (e == Statement(w) && s.workers[w].Reading? && !Waits(input, s, w))
    {
      ComesFrom(input, s, e, w);
    }
    hide Next;
    forall v, w | v in t.workers && w in t.workers && v != w && PastReading(t.workers[v]) && PastReading(t.workers[w])
      ensures t.workers[v].call.execution != t.workers[w].call.execution
    {
      if !PastReading(s.workers[w]) {
        assert !BlockedBy(input, s, s.workers[w], s.workers[v]);
      } else if !PastReading(s.workers[v]) {
        assert !BlockedBy(input, s, s.workers[v], s.workers[w]);
      }
    }
  }

  lemma ComesFrom(input: Input, s: Sys, e: Event, w: nat)
    requires w in Next(input, s, e).workers && PastReading(Next(input, s, e).workers[w])
    ensures w in s.workers && Next(input, s, e).workers[w].call == s.workers[w].call
    ensures PastReading(s.workers[w]) || (e == Statement(w) && s.workers[w].Reading? && !Waits(input, s, w))
  {
    hide Waits, ReadLeaves, FingerprintOf, CountLeaves, ApplicationsOf;
  }

  /** The advisory lock does what it is for: over every run, of two applications of one execution at most one
      is between its reading and its end, so that nothing another of them writes can come between. */
  lemma ApplicationsOfOneExecutionFollowEachOther(
    input: Input, s0: Sys, events: seq<Event>, v: nat, w: nat)
    requires s0.workers == map[] && v != w
    requires var s := Run(input, s0, events);
             v in s.workers && w in s.workers && PastReading(s.workers[v]) && PastReading(s.workers[w])
    ensures var s := Run(input, s0, events); s.workers[v].call.execution != s.workers[w].call.execution
  {
    RunOneApplying(input, s0, events);
  }

  lemma {:induction false} RunOneApplying(input: Input, s0: Sys, events: seq<Event>)
    requires s0.workers == map[]
    ensures OneApplying(Run(input, s0, events))
  {
    if events != [] {
      RunOneApplying(input, s0, events[..|events| - 1]);
      OneApplyingStep(input, Run(input, s0, events[..|events| - 1]), events[|events| - 1]);
    }
  }
}

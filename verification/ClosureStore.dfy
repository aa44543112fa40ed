/** The phases as the program runs them: one session, one transaction, the rows changed in place.

  Each method is one call of `transactional`: it reads the receipt, works on the session's own view and
  assigns the table once, at COMMIT; every other way out leaves the table as it was. Each is proved to
  do exactly what its worker does in ClosurePhases when no other transaction is under way.
 */
module ClosureStore {
  import opened Common
  import opened ClosureEvidence
  import opened ClosurePhases
  import opened ClosureGuarantees
  import opened ClosureMeaning
  import opened ClosureApplications

  /** What a lone worker's transaction leaves behind: its result and the table. */
  ghost predicate RunsAlone(input: Input, before: Db, world: World, call: Call, after: Db, r: Option<Receipt>) {
    var pc := Alone(input, Sys(before, world, map[]), Reading(call));
    && (pc.Committing? ==> r == Some(pc.receipt) && after == Publish(before, call, pc.draft, pc.receipt))
    && (pc.Returned? ==> r == Some(pc.receipt) && after == before)
    && (pc.Failed? ==> r == None && after == before)
    && (pc.Committing? || pc.Returned? || pc.Failed?)
  }

  /** The lone run of a phase that a receipt answers. */
  lemma ReplayAlone(input: Input, s: Sys, call: Call)
    requires !call.Apply? && KeyOf(call) in s.db.receipts
    ensures Alone(input, s, Reading(call)) ==
            if Binds(call, s.db.receipts[KeyOf(call)]) then Returned(call, s.db.receipts[KeyOf(call)]) else Failed(call)
  {
    assert Read(input, s, call).Replaying? || Read(input, s, call).Failed?;
  }

  /** The lone run of an application, spelled out. */
  lemma ApplyAlone(input: Input, s: Sys, call: Call)
    requires call.Apply?
    ensures var leaves := ReadLeaves(input, s.db, s.world, call.batch);
            && OnlyExceptions(leaves) && AllWellFormed(leaves)
            && Alone(input, s, Reading(call)) ==
               var pc := Read(input, s, call);
               if pc.Writing?
               then Committing(call, ApplicationRows(ApplicationsOf(leaves)),
                               ApplicationReceipt(call.batch, FingerprintOf(leaves), CountLeaves(leaves)))
               else if pc.Replaying? then Returned(call, pc.receipt)
               else Failed(call)
  {
    var leaves := ReadLeaves(input, s.db, s.world, call.batch);
    var pc := Read(input, s, call);
    if pc.Writing? {
      OutcomesPartitionLeaves(leaves);
      assert pc == Writing(call, leaves);
      ReadTypesExist(input, s.db, s.world, call.batch);
      WritingRecords(input, s, call, leaves);
    }
  }

  /** A leaf is applied only when the candidate it names was there. */
  lemma ReadTypesExist(input: Input, db: Db, world: World, batch: string)
    requires AllWellFormed(ReadLeaves(input, db, world, batch))
    ensures TypesExist(db, ApplicationsOf(ReadLeaves(input, db, world, batch)))
  {
    var leaves := ReadLeaves(input, db, world, batch);
    forall id | id in ApplicationsOf(leaves) ensures TypeExists(db, ApplicationsOf(leaves)[id].typeRow) {
      assert leaves[id] == LeafFor(input, db, world, id) && leaves[id].typeExists;
    }
  }

  lemma WritingRecords(input: Input, s: Sys, call: Call, leaves: Leaves)
    requires call.Apply? && KeyOf(call) !in s.db.receipts && AllWellFormed(leaves) && OnlyExceptions(leaves)
    requires TypesExist(s.db, ApplicationsOf(leaves))
    ensures Advance(input, s, Advance(input, s, Writing(call, leaves))) ==
            Committing(call, ApplicationRows(ApplicationsOf(leaves)),
                       ApplicationReceipt(call.batch, FingerprintOf(leaves), CountLeaves(leaves)))
  {
    OutcomesPartitionLeaves(leaves);
  }

  class EvidenceStore {
    const input: Input
    var world: World
    var db: Db

    constructor (input: Input, world: World)
      ensures this.input == input && this.world == world && db == Db(map[], map[], map[], map[])
    {
      this.input, this.world := input, world;
      db := Db(map[], map[], map[], map[]);
    }

    /** replayOrReject: None for no receipt, Some(None) for an incompatible one. */
    method ReplayOrReject(call: Call) returns (replay: Option<Option<Receipt>>)
      requires !call.Apply?
      ensures replay.None? <==> KeyOf(call) !in db.receipts
      ensures replay.Some? ==>
                replay.value == if Binds(call, db.receipts[KeyOf(call)]) then Some(db.receipts[KeyOf(call)]) else None
    {
      if KeyOf(call) !in db.receipts {
        return None;
      }
      var existing := db.receipts[KeyOf(call)];
      if !existing.PhaseReceipt? || existing.batch != call.batch || existing.fingerprint != call.fingerprint {
        return Some(None);
      }
      return Some(Some(existing));
    }

    method ProjectLegacyMembershipCandidates(batch: string, execution: string, fingerprint: string)
      returns (r: Option<Receipt>)
      modifies this`db
      ensures Key(execution, CandidatesPhase) in old(db).receipts ==>
                var existing := old(db).receipts[Key(execution, CandidatesPhase)];
                && db == old(db)
                && r == if existing.PhaseReceipt? && existing.batch == batch && existing.fingerprint == fingerprint
                        then Some(existing) else None
      ensures Key(execution, CandidatesPhase) !in old(db).receipts ==>
                && (r.Some? <==> fingerprint != "" && batch in world.snapshots && NothingPointsAt(old(db), world, batch))
                && (r.None? ==> db == old(db))
                && (r.Some? ==>
                      && batch in db.candidates && LatestRows(input.sources, batch, db.candidates[batch])
                      && r.value == PhaseReceipt(batch, fingerprint,
                                                 PhaseCounts(|db.candidates[batch]|, |db.candidates[batch]|, 0, 0, 0, 0))
                      && db == old(db).(candidates := old(db).candidates[batch := db.candidates[batch]],
                                        receipts := old(db).receipts[Key(execution, CandidatesPhase) := r.value]))
      ensures RunsAlone(input, old(db), world, Candidates(batch, execution, fingerprint), db, r)
    {
      hide Alone, Rebuild, Cited, LatestRows, NothingPointsAt;
      var call := Candidates(batch, execution, fingerprint);
      if KeyOf(call) in db.receipts {
        ReplayAlone(input, Sys(db, world, map[]), call);
      } else {
        CandidatesAlone(input, Sys(db, world, map[]), call);
      }
      var replay := ReplayOrReject(call);
      if replay.Some? {
        return replay.value;
      }
      if batch !in world.snapshots {
        return None;
      }
      CitedIffSomethingPoints(db, world, batch);
      if Cited(db, world, batch) {
        return None;
      }
      if fingerprint == "" {
        return None;
      }
      var rows := Rebuild(input.sources, batch);
      RebuildTakesLatestRows(input.sources, batch);
      r := Some(PhaseReceipt(batch, fingerprint, PhaseCounts(|rows|, |rows|, 0, 0, 0, 0)));
      db := db.(candidates := db.candidates[batch := rows], receipts := db.receipts[KeyOf(call) := r.value]);
    }

    method ProjectLegacyMemberEvidence(batch: string, execution: string, fingerprint: string)
      returns (r: Option<Receipt>)
      modifies this`db
      ensures Key(execution, MembersPhase) in old(db).receipts ==>
                var existing := old(db).receipts[Key(execution, MembersPhase)];
                && db == old(db)
                && r == if existing.PhaseReceipt? && existing.batch == batch && existing.fingerprint == fingerprint
                        then Some(existing) else None
      ensures Key(execution, MembersPhase) !in old(db).receipts ==>
                && (r.None? ==> db == old(db))
                && (EvidenceOk(input, old(db)) ==>
                      (r.Some? <==>
                         && fingerprint != "" && CanBeInserted(input, world, batch)
                         && forall id <- input.raw :: input.raw[id].batch == batch ==>
                              id in old(db).evidence || id in world.identities))
                && (r.Some? ==>
                      && r.value.PhaseReceipt? && r.value.batch == batch && r.value.fingerprint == fingerprint
                      && CountsTheBatch(input.raw, db.evidence, batch, r.value.counts)
                      && Projected(input, old(db), world, batch, db.evidence)
                      && db == old(db).(evidence := db.evidence,
                                        receipts := old(db).receipts[Key(execution, MembersPhase) := r.value]))
      ensures RunsAlone(input, old(db), world, Members(batch, execution, fingerprint), db, r)
    {
      hide Alone, AllInsertable, CanBeInserted, NewEvidence, Projected, MemberCounts, CountsTheBatch;
      var call := Members(batch, execution, fingerprint);
      MembersAlone(input, Sys(db, world, map[]), call);
      var replay := ReplayOrReject(call);
      if replay.Some? {
        return replay.value;
      }
      InsertableIff(input, world, batch);
      if !AllInsertable(input, world, batch) {
        return None;
      }
      var evidence := NewEvidence(input, db, world, batch) + db.evidence;
      var counts := MemberCounts(input.raw, evidence, batch);
      NewEvidenceIsProjected(input, db, world, batch);
      MemberCountsAreCounts(input.raw, evidence, batch);
      if EvidenceOk(input, db) {
        JoinCoversBatch(input, Sys(db, world, map[]), batch);
      }
      if fingerprint == "" || !Reconciled(counts) {
        return None;
      }
      r := Some(PhaseReceipt(batch, fingerprint, counts));
      db := db.(evidence := evidence, receipts := db.receipts[KeyOf(call) := r.value]);
    }

    /** The rows of the leaves query, one per exception. Their order does not reach the result. */
    method QueryLeaves(batch: string) returns (rows: seq<(nat, Leaf)>)
      ensures DistinctIds(rows) && ByEvidence(rows) == ReadLeaves(input, db, world, batch)
    {
      rows := ToRows(ReadLeaves(input, db, world, batch));
    }

    method ApplyLegacyMemberEvidenceResolutions(batch: string, execution: string, expected: Option<Fingerprint>)
      returns (r: Option<Receipt>)
      modifies this`db
      ensures r.None? ==> db == old(db)
      ensures r.Some? <==>
                var fingerprint, key := FingerprintOf(ReadLeaves(input, old(db), world, batch)), Key(execution, ApplicationPhase);
                && (expected.None? || expected.value == fingerprint)
                && (key in old(db).receipts ==>
                      old(db).receipts[key].ApplicationReceipt? && old(db).receipts[key].batch == batch &&
                      old(db).receipts[key].leaves == fingerprint)
      ensures Key(execution, ApplicationPhase) in old(db).receipts && r.Some? ==>
                db == old(db) && r.value == db.receipts[Key(execution, ApplicationPhase)]
      ensures Key(execution, ApplicationPhase) !in old(db).receipts && r.Some? ==>
                && r.value.ApplicationReceipt? && r.value.batch == batch
                && r.value.leaves == FingerprintOf(ReadLeaves(input, old(db), world, batch))
                && CountsOutcomes(input, old(db), world, batch, r.value.applied)
                && execution in db.applications
                && AppliesExactly(input, old(db), world, batch, db.applications[execution])
                && db == old(db).(applications := old(db).applications[execution := db.applications[execution]],
                                  receipts := old(db).receipts[Key(execution, ApplicationPhase) := r.value])
      ensures RunsAlone(input, old(db), world, Apply(batch, execution, expected), db, r)
    {
      hide Alone, ReadLeaves, FingerprintOf, ApplicationsOf, CountLeaves, AppliesExactly, CountsOutcomes;
      var call := Apply(batch, execution, expected);
      ApplyAlone(input, Sys(db, world, map[]), call);
      var rows := QueryLeaves(batch);
      var leaves := ByEvidence(rows);
      var fingerprint := FingerprintOf(leaves);
      if expected.Some? && expected.value != fingerprint {
        return None;
      }
      if KeyOf(call) in db.receipts {
        var existing := db.receipts[KeyOf(call)];
        if !existing.ApplicationReceipt? || existing.batch != batch || existing.leaves != fingerprint {
          return None;
        }
        return Some(existing);
      }
      var counts := CountOutcomes(rows);
      var inserted := InsertApplications(rows);
      ReadingApplies(input, db, world, batch);
      ReadingCounts(input, db, world, batch);
      r := Some(ApplicationReceipt(batch, fingerprint, counts));
      db := db.(receipts := db.receipts[KeyOf(call) := r.value], applications := db.applications[execution := inserted]);
    }
  }
}

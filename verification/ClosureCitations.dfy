/** Foreign keys to the catalog candidates over every interleaving of closure phases: whatever cites a
  candidate keeps the whole catalog of its batch as it is, for good
  (packages/db/drizzle/0039, 0044 and 0045: ON DELETE RESTRICT; packages/promotion/src/legacy-membership-evidence.ts).
 */
module ClosureCitations {
  import opened Common
  import opened ClosureEvidence
  import opened ClosurePhases
  import opened ClosureGuarantees

  /** Two transactions that may both be under way: they rebuild different batches, and neither deletes a
      candidate that the other cites. */
  predicate Apart(db: Db, a: Pc, b: Pc) {
    Rebuilding(a) && InFlight(b) ==>
      && !(b.call.Candidates? && b.call.batch == a.call.batch)
      && !Conflicts(db, a.call.batch, b.draft)
  }

  /** What a transaction under way may hold. */
  ghost predicate Sound(db: Db, world: World, pc: Pc) {
    InFlight(pc) ==>
      && (pc.call.Candidates? ==> !Cited(db, world, pc.call.batch) && pc.draft.CandidateRows?)
      && (forall row :: DraftCites(pc.draft, row) ==> TypeExists(db, row))
  }

  /** Referential integrity of committed and uncommitted rows. */
  ghost predicate CitesOk(s: Sys) {
    && (forall row :: CitedRow(s.db, s.world, row) ==> TypeExists(s.db, row))
    && (forall w <- s.workers :: Sound(s.db, s.world, s.workers[w]))
    && (forall v, w :: v in s.workers && w in s.workers && v != w ==> Apart(s.db, s.workers[v], s.workers[w]))
  }

  lemma InitialCitesOk(identities: map<nat, Identity>, members: set<nat>, snapshots: seq<string>)
    ensures CitesOk(Initial(identities, members, snapshots))
  {
  }

  /******* One step *******/

  lemma SelectableExists(db: Db, world: World, code: string)
    requires code in Selectable(db, world)
    ensures TypeExists(db, Selectable(db, world)[code])
  {
    var b := world.snapshots[|world.snapshots| - 1];
    assert Selectable(db, world)[code] in db.candidates[b].Values;
  }

  lemma NewEvidenceCites(input: Input, db: Db, world: World, batch: string, row: nat)
    requires AllInsertable(input, world, batch) && DraftCites(EvidenceRows(NewEvidence(input, db, world, batch)), row)
    ensures TypeExists(db, row)
  {
    var rows := NewEvidence(input, db, world, batch);
    var id :| id in rows && rows[id].typeRow == Some(row);
    SelectableExists(db, world, input.raw[id].typeCode.value);
  }

  lemma AdvanceSound(input: Input, s: Sys, pc: Pc)
    requires Sound(s.db, s.world, pc)
    ensures Sound(s.db, s.world, Advance(input, s, pc))
  {
    if pc.Writing? && pc.call.Members? && AllInsertable(input, s.world, pc.call.batch) {
      hide NewEvidence, AllInsertable, TypeExists;
      var draft := EvidenceRows(NewEvidence(input, s.db, s.world, pc.call.batch));
      forall row | DraftCites(draft, row) ensures TypeExists(s.db, row) {
        NewEvidenceCites(input, s.db, s.world, pc.call.batch, row);
      }
    } else {
      hide TypeExists, NewEvidence, AllInsertable, Cited, ApplicationsOf;
    }
  }

  lemma AdvanceApart(input: Input, s: Sys, w: nat, v: nat)
    requires CitesOk(s) && w in s.workers && v in s.workers && v != w && !Waits(input, s, w)
    ensures Apart(s.db, Advance(input, s, s.workers[w]), s.workers[v])
    ensures Apart(s.db, s.workers[v], Advance(input, s, s.workers[w]))
  {
    hide NewEvidence, AllInsertable, Cited, ApplicationsOf, TypeExists, Sound, CitedRow, Conflicts, TypesExist;
    var pc, other := s.workers[w], s.workers[v];
    assert Apart(s.db, pc, other) && Apart(s.db, other, pc);
    assert !BlockedBy(input, s, pc, other);
    if pc.Writing? && pc.call.Candidates? {
      var pc' := Advance(input, s, pc);
      assert pc'.Measuring? ==> pc'.draft.CandidateRows?;
      CatalogsCiteNothing(s.db, other.call.batch);
    }
  }

  lemma CatalogsCiteNothing(db: Db, batch: string)
    ensures forall draft: Draft :: draft.CandidateRows? ==> !Conflicts(db, batch, draft)
  {
  }

  /** What a COMMIT cites was cited before or by its own rows. */
  lemma CommitCites(input: Input, s: Sys, w: nat, row: nat)
    requires w in s.workers && s.workers[w].Committing?
    ensures var pc := s.workers[w];
            CitedRow(Publish(s.db, pc.call, pc.draft, pc.receipt), s.world, row) ==>
              CitedRow(s.db, s.world, row) || DraftCites(pc.draft, row)
  {
    var pc := s.workers[w];
    match pc.draft
    case CandidateRows(_) =>
    case EvidenceRows(rows) => EvidenceCites(s.db, s.world, rows, row);
    case ApplicationRows(rows) => ApplicationsCite(s.db, s.world, pc.call.execution, rows, row);
  }

  lemma EvidenceCites(db: Db, world: World, rows: map<nat, Evidence>, row: nat)
    ensures CitedRow(db.(evidence := rows + db.evidence), world, row) ==>
              CitedRow(db, world, row) || DraftCites(EvidenceRows(rows), row)
  {
  }

  lemma ApplicationsCite(db: Db, world: World, x: string, rows: map<nat, Application>, row: nat)
    ensures CitedRow(db.(applications := db.applications[x := rows]), world, row) ==>
              CitedRow(db, world, row) || DraftCites(ApplicationRows(rows), row)
  {
  }

  /** Only the rebuild of a catalog changes candidates, and only those of its batch. */
  lemma CommitCandidates(input: Input, db: Db, pc: Pc, b: string)
    requires pc.Committing? && WorkerOk(input, db, pc) && !(pc.call.Candidates? && pc.call.batch == b)
    ensures var db' := Publish(db, pc.call, pc.draft, pc.receipt);
            && (b in db'.candidates <==> b in db.candidates)
            && (b in db.candidates ==> db'.candidates[b] == db.candidates[b])
  {
    assert DraftMatches(input, db, pc.call, pc.draft);
  }

  /** A rebuild deletes only candidates that nothing cites. */
  lemma CitedIsNotDeleted(s: Sys, w: nat, row: nat)
    requires CitesOk(s) && w in s.workers
    ensures CitedRow(s.db, s.world, row) ==> !Deletes(s.db, s.workers[w], row)
    ensures forall v <- s.workers :: v != w && InFlight(s.workers[v]) && DraftCites(s.workers[v].draft, row) ==>
                                       !Deletes(s.db, s.workers[w], row)
  {
    hide DraftCites, CitedRow, TypeExists;
    assert Sound(s.db, s.world, s.workers[w]);
    forall v | v in s.workers && v != w && InFlight(s.workers[v]) && DraftCites(s.workers[v].draft, row)
      ensures !Deletes(s.db, s.workers[w], row)
    {
      assert Apart(s.db, s.workers[w], s.workers[v]);
    }
  }

  lemma CommitKeepsTypes(input: Input, db: Db, pc: Pc, row: nat)
    requires pc.Committing? && WorkerOk(input, db, pc) && TypeExists(db, row) && !Deletes(db, pc, row)
    ensures TypeExists(Publish(db, pc.call, pc.draft, pc.receipt), row)
  {
    hide Publish, WorkerOk;
    var b :| b in db.candidates && row in db.candidates[b].Values;
    CommitCandidates(input, db, pc, b);
    assert b in Publish(db, pc.call, pc.draft, pc.receipt).candidates;
  }

  lemma CommitIntegrity(input: Input, s: Sys, w: nat, row: nat)
    requires CitesOk(s) && w in s.workers && s.workers[w].Committing? && WorkerOk(input, s.db, s.workers[w])
    requires var pc := s.workers[w]; CitedRow(Publish(s.db, pc.call, pc.draft, pc.receipt), s.world, row)
    ensures var pc := s.workers[w]; TypeExists(Publish(s.db, pc.call, pc.draft, pc.receipt), row)
  {
    hide CitedRow, DraftCites, TypeExists, Publish;
    CommitCites(input, s, w, row);
    var pc := s.workers[w];
    assert Sound(s.db, s.world, pc);
    if pc.call.Candidates? {
      NoRowCited(pc.draft, row);
    }
    CitedIsNotDeleted(s, w, row);
    CommitKeepsTypes(input, s.db, pc, row);
  }

  lemma NoRowCited(draft: Draft, row: nat)
    ensures draft.CandidateRows? ==> !DraftCites(draft, row)
  {
  }

  /** The batch that another worker rebuilds keeps its candidates, and nothing comes to cite them. */
  lemma CommitElsewhere(input: Input, s: Sys, w: nat, v: nat)
    requires CitesOk(s) && w in s.workers && v in s.workers && v != w
    requires s.workers[w].Committing? && WorkerOk(input, s.db, s.workers[w]) && Rebuilding(s.workers[v])
    ensures var pc, b := s.workers[w], s.workers[v].call.batch;
            var db' := Publish(s.db, pc.call, pc.draft, pc.receipt);
            && (b in db'.candidates <==> b in s.db.candidates)
            && (b in s.db.candidates ==> db'.candidates[b] == s.db.candidates[b])
            && !Cited(db', s.world, b)
  {
    var pc, other := s.workers[w], s.workers[v];
    assert Apart(s.db, other, pc) && Sound(s.db, s.world, other);
    hide DraftCites, Publish, WorkerOk, CitesOk, CitedRow;
    CommitCandidates(input, s.db, pc, other.call.batch);
    forall row ensures CitedRow(Publish(s.db, pc.call, pc.draft, pc.receipt), s.world, row) ==>
                         CitedRow(s.db, s.world, row) || DraftCites(pc.draft, row)
    {
      CommitCites(input, s, w, row);
    }
  }

  lemma CommitSound(input: Input, s: Sys, w: nat, v: nat)
    requires CitesOk(s) && w in s.workers && v in s.workers && v != w
    requires s.workers[w].Committing? && WorkerOk(input, s.db, s.workers[w])
    ensures var pc := s.workers[w]; Sound(Publish(s.db, pc.call, pc.draft, pc.receipt), s.world, s.workers[v])
  {
    hide CitedRow, DraftCites, TypeExists, Publish, WorkerOk;
    var pc, other := s.workers[w], s.workers[v];
    var db' := Publish(s.db, pc.call, pc.draft, pc.receipt);
    assert Sound(s.db, s.world, other) && Apart(s.db, other, pc);
    if InFlight(other) {
      forall row | DraftCites(other.draft, row) ensures TypeExists(db', row) {
        CitedIsNotDeleted(s, w, row);
        CommitKeepsTypes(input, s.db, pc, row);
      }
      if other.call.Candidates? {
        CommitElsewhere(input, s, w, v);
      }
    }
  }

  lemma CommitApart(input: Input, s: Sys, w: nat, u: nat, v: nat)
    requires CitesOk(s) && w in s.workers && u in s.workers && v in s.workers && v != w && u != w && u != v
    requires s.workers[w].Committing? && WorkerOk(input, s.db, s.workers[w])
    ensures var pc := s.workers[w]; Apart(Publish(s.db, pc.call, pc.draft, pc.receipt), s.workers[u], s.workers[v])
  {
    hide CitedRow, DraftCites, TypeExists, Publish, WorkerOk, Sound;
    assert Apart(s.db, s.workers[u], s.workers[v]);
    if Rebuilding(s.workers[u]) {
      CommitElsewhere(input, s, w, u);
    }
  }

  lemma CommitOk(input: Input, s: Sys, w: nat, after: Pc)
    requires Inv(input, s) && CitesOk(s) && w in s.workers && s.workers[w].Committing? && !InFlight(after)
    ensures var pc := s.workers[w];
            CitesOk(s.(db := Publish(s.db, pc.call, pc.draft, pc.receipt), workers := s.workers[w := after]))
  {
    var pc := s.workers[w];
    assert WorkerOk(input, s.db, pc);
    hide CitedRow, DraftCites, TypeExists, Publish, WorkerOk, Inv, CitesOk, Cited, Conflicts;
    var db', workers' := Publish(s.db, pc.call, pc.draft, pc.receipt), s.workers[w := after];
    forall row | CitedRow(db', s.world, row) ensures TypeExists(db', row) {
      CommitIntegrity(input, s, w, row);
    }
    forall v | v in workers' ensures Sound(db', s.world, workers'[v]) {
      if v != w {
        CommitSound(input, s, w, v);
      }
    }
    forall u, v | u in workers' && v in workers' && u != v ensures Apart(db', workers'[u], workers'[v]) {
      if u != w && v != w {
        CommitApart(input, s, w, u, v);
      }
    }
    GatherCitesOk(Sys(db', s.world, workers'));
  }

  lemma GatherCitesOk(s: Sys)
    requires forall row :: CitedRow(s.db, s.world, row) ==> TypeExists(s.db, row)
    requires forall w <- s.workers :: Sound(s.db, s.world, s.workers[w])
    requires forall v, w :: v in s.workers && w in s.workers && v != w ==> Apart(s.db, s.workers[v], s.workers[w])
    ensures CitesOk(s)
  {
    hide CitedRow, TypeExists, Sound, Apart;
  }

  lemma TurnOk(s: Sys, next: World)
    requires CitesOk(s) && MayBecome(s, next)
    ensures CitesOk(s.(world := next))
  {
  }

  /** A worker that holds nothing disturbs nobody. */
  lemma RestingCitesOk(s: Sys, w: nat, pc: Pc)
    requires CitesOk(s) && !InFlight(pc)
    ensures CitesOk(s.(workers := s.workers[w := pc]))
  {
    hide CitedRow, DraftCites, TypeExists, Cited, Conflicts;
  }

  lemma StatementCitesOk(input: Input, s: Sys, w: nat)
    requires CitesOk(s) && w in s.workers && !Waits(input, s, w) && !s.workers[w].Committing?
    ensures CitesOk(s.(workers := s.workers[w := Advance(input, s, s.workers[w])]))
  {
    hide CitedRow, TypeExists, Advance;
    var pc' := Advance(input, s, s.workers[w]);
    assert Sound(s.db, s.world, s.workers[w]);
    AdvanceSound(input, s, s.workers[w]);
    hide Sound;
    forall v | v in s.workers && v != w ensures Apart(s.db, pc', s.workers[v]) && Apart(s.db, s.workers[v], pc') {
      AdvanceApart(input, s, w, v);
    }
    hide Apart, Waits;
  }

  lemma NextCitesOk(input: Input, s: Sys, e: Event)
    requires Inv(input, s) && CitesOk(s)
    ensures CitesOk(Next(input, s, e))
  {
    hide CitesOk, Inv, Publish, MayBecome;
    match e
    case Turn(world) =>
      if MayBecome(s, world) {
        TurnOk(s, world);
      }
    case Start(w, call) => RestingCitesOk(s, w, Reading(call));
    case Abort(w) =>
      if w in s.workers {
        RestingCitesOk(s, w, Failed(s.workers[w].call));
      }
    case Statement(w) =>
      if w in s.workers && s.workers[w].Committing? {
        CommitOk(input, s, w, Returned(s.workers[w].call, s.workers[w].receipt));
      } else if w in s.workers && !Waits(input, s, w) {
        StatementCitesOk(input, s, w);
      }
    case CommitUnacknowledged(w) =>
      if w in s.workers && s.workers[w].Committing? {
        CommitOk(input, s, w, Failed(s.workers[w].call));
      }
  }

  lemma {:induction false} RunCitesOk(input: Input, s: Sys, events: seq<Event>)
    requires Inv(input, s) && CitesOk(s)
    ensures CitesOk(Run(input, s, events))
  {
    if events != [] {
      RunCitesOk(input, s, events[..|events| - 1]);
      RunInv(input, s, events[..|events| - 1]);
      NextCitesOk(input, Run(input, s, events[..|events| - 1]), events[|events| - 1]);
    }
  }

  /******* What a citation means for later closures *******/

  /** A committed row that cites a candidate always finds it, at every moment of every run. */
  lemma CitationsResolve(input: Input, identities: map<nat, Identity>, members: set<nat>, snapshots: seq<string>,
                         events: seq<Event>, row: nat)
    requires var s := Run(input, Initial(identities, members, snapshots), events); CitedRow(s.db, s.world, row)
    ensures TypeExists(Run(input, Initial(identities, members, snapshots), events).db, row)
  {
    InitialInv(input, identities, members, snapshots);
    InitialCitesOk(identities, members, snapshots);
    RunCitesOk(input, Initial(identities, members, snapshots), events);
  }

  lemma CitedRowStays(input: Input, s: Sys, e: Event, row: nat)
    requires Inv(input, s) && CitedRow(s.db, s.world, row)
    ensures CitedRow(Next(input, s, e).db, Next(input, s, e).world, row)
  {
    hide Inv, CitedRow, Publish;
    OnlyCommitsWrite(input, s, e);
    if Publishes(s, e) {
      PublishKeepsCitation(input, s, e.worker, row);
    } else if e.Turn? && MayBecome(s, e.next) {
      TurnKeepsCitation(s, e.next, row);
    }
  }

  lemma PublishKeepsCitation(input: Input, s: Sys, w: nat, row: nat)
    requires Inv(input, s) && w in s.workers && s.workers[w].Committing? && CitedRow(s.db, s.world, row)
    ensures var pc := s.workers[w]; CitedRow(Publish(s.db, pc.call, pc.draft, pc.receipt), s.world, row)
  {
    var pc := s.workers[w];
    var db' := Publish(s.db, pc.call, pc.draft, pc.receipt);
    assert WorkerOk(input, s.db, pc);
    hide WorkerOk, Publish, CitedRow;
    PublishIsOwn(input, s.db, pc);
    forall x | x in s.db.applications ensures x in db'.applications && db'.applications[x] == s.db.applications[x] {
      if x == pc.call.execution {
        assert !pc.call.Apply?;
      } else {
        assert x in s.db.applications - {pc.call.execution};
      }
    }
    MoreRowsCiteMore(s.db, db', s.world, row);
  }

  lemma MoreRowsCiteMore(db: Db, db': Db, world: World, row: nat)
    requires CitedRow(db, world, row)
    requires forall id <- db.evidence :: id in db'.evidence && db'.evidence[id] == db.evidence[id]
    requires forall x <- db.applications :: x in db'.applications && db'.applications[x] == db.applications[x]
    ensures CitedRow(db', world, row)
  {
  }

  lemma TurnKeepsCitation(s: Sys, next: World, row: nat)
    requires MayBecome(s, next) && CitedRow(s.db, s.world, row)
    ensures CitedRow(s.db, next, row)
  {
  }

  lemma CitedStep(input: Input, s: Sys, e: Event, b: string)
    requires Inv(input, s) && CitesOk(s) && Cited(s.db, s.world, b)
    ensures var s' := Next(input, s, e);
            Cited(s'.db, s'.world, b) && b in s'.db.candidates && s'.db.candidates[b] == s.db.candidates[b]
    ensures forall k <- Next(input, s, e).db.receipts ::
              k.slot.CandidatesPhase? && Next(input, s, e).db.receipts[k].batch == b ==> k in s.db.receipts
  {
    var row :| row in s.db.candidates[b].Values && CitedRow(s.db, s.world, row);
    CitedRowStays(input, s, e, row);
    hide CitedRow;
    OnlyCommitsWrite(input, s, e);
    if Publishes(s, e) {
      var pc := s.workers[e.worker];
      assert WorkerOk(input, s.db, pc) && Sound(s.db, s.world, pc);
      hide WorkerOk, Inv, CitesOk, Sound;
      CommitCandidates(input, s.db, pc, b);
    }
  }

  /** From the moment anything cites a candidate of a batch, a superseded resolution included, that
      catalog is frozen: whatever runs afterwards, it is never rebuilt and no further execution identity
      ever gets a candidates receipt for it. */
  lemma {:induction false} CitedCatalogIsFrozen(input: Input, s: Sys, events: seq<Event>, b: string)
    requires Inv(input, s) && CitesOk(s) && Cited(s.db, s.world, b)
    ensures var s' := Run(input, s, events);
            && Cited(s'.db, s'.world, b) && b in s'.db.candidates && s'.db.candidates[b] == s.db.candidates[b]
            && (forall k <- s'.db.receipts ::
                  k.slot.CandidatesPhase? && s'.db.receipts[k].batch == b ==>
                    k in s.db.receipts && s'.db.receipts[k] == s.db.receipts[k])
  {
    assert b in s.db.candidates;
    hide Cited, Inv, CitesOk, Next;
    if events != [] {
      var prefix, e := events[..|events| - 1], events[|events| - 1];
      CitedCatalogIsFrozen(input, s, prefix, b);
      RunInv(input, s, prefix);
      RunCitesOk(input, s, prefix);
      CitedStep(input, Run(input, s, prefix), e, b);
      StepPublishesAtMostOneReceipt(input, Run(input, s, prefix), e);
    }
  }

  /** The ordinary course of a first closure: the catalog is rebuilt, then the members are projected and
      one of them is validated against it. */
  function FirstClosure(b: string, mb: string, x: string, fp: string): seq<Event> {
    Lone(0, Candidates(b, x, fp)) + Lone(0, Members(mb, x, fp))
  }

  /** A batch that can be projected in full, with a row that the catalog `b` validates. */
  predicate ProjectsOnto(input: Input, world: World, b: string, mb: string, id: nat) {
    && world.snapshots != [] && world.snapshots[|world.snapshots| - 1] == b
    && (forall i <- RawOfBatch(input.raw, mb) :: i in world.identities && Insertable(input.raw[i]))
    && id in RawOfBatch(input.raw, mb) && world.identities[id].validated && world.identities[id].member.Some?
    && input.raw[id].typeCode.value in CodesOf(input.sources, b)
  }

  lemma BatchIsProjected(input: Input, world: World, b: string, mb: string, id: nat)
    requires ProjectsOnto(input, world, b, mb, id)
    ensures AllInsertable(input, world, mb) && forall i <- RawOfBatch(input.raw, mb) :: i in world.identities
  {
  }

  lemma MembersAfterCatalog(input: Input, s: Sys, b: string, mb: string, x: string, fp: string, id: nat)
    requires Inv(input, s) && Quiet(s) && fp != "" && ProjectsOnto(input, s.world, b, mb, id)
    requires b in s.db.candidates && s.db.candidates[b] == Rebuild(input.sources, b)
    requires s.db.evidence == map[] && s.db.receipts.Keys == {Key(x, CandidatesPhase)}
    ensures var s' := Run(input, s, Lone(0, Members(mb, x, fp)));
            && Inv(input, s') && Quiet(s') && Cited(s'.db, s'.world, b)
            && s'.db.receipts.Keys == {Key(x, CandidatesPhase), Key(x, MembersPhase)}
  {
    hide *;
    BatchIsProjected(input, s.world, b, mb, id);
    CompleteBatchGetsItsReceipt(input, s, 0, mb, x, fp);
    var s' := Run(input, s, Lone(0, Members(mb, x, fp)));
    ValidatedCites(input, s.db, s'.db, s'.world, b, mb, id);
  }

  lemma FirstClosureCites(input: Input, s: Sys, b: string, mb: string, x: string, fp: string, id: nat)
    requires Inv(input, s) && Quiet(s) && fp != "" && ProjectsOnto(input, s.world, b, mb, id)
    requires s.db.candidates == map[] && s.db.evidence == map[] && s.db.receipts == map[]
    ensures var s' := Run(input, s, FirstClosure(b, mb, x, fp));
            && Inv(input, s') && Quiet(s') && Cited(s'.db, s'.world, b)
            && s'.db.receipts.Keys == {Key(x, CandidatesPhase), Key(x, MembersPhase)}
  {
    assert !Cited(s.db, s.world, b) && b in s.world.snapshots;
    hide Next, Run, Inv, Quiet, Cited, Rebuild, Lone, ProjectsOnto;
    CatalogFirst(input, s, b, x, fp);
    MembersAfterCatalog(input, Run(input, s, Lone(0, Candidates(b, x, fp))), b, mb, x, fp, id);
    RunAppends(input, s, Lone(0, Candidates(b, x, fp)), Lone(0, Members(mb, x, fp)));
  }

  /** So on every input the first closure that validates anybody freezes its catalog, and a second
      execution identity that names the same catalog fails in its candidates phase. */
  lemma SecondExecutionFails(input: Input, identities: map<nat, Identity>, members: set<nat>, snapshots: seq<string>,
                             b: string, mb: string, x: string, fp: string, id: nat, y: string, again: string)
    requires fp != "" && y != x && ProjectsOnto(input, Initial(identities, members, snapshots).world, b, mb, id)
    ensures var s := Run(input, Initial(identities, members, snapshots), FirstClosure(b, mb, x, fp));
            var s' := Run(input, s, Lone(0, Candidates(b, y, again)));
            && Key(x, MembersPhase) in s.db.receipts && Cited(s.db, s.world, b)
            && 0 in s'.workers && s'.workers[0].Failed? && s'.db == s.db
  {
    hide Next, Run, Inv, Cited, FirstClosure, Lone, ProjectsOnto;
    InitialInv(input, identities, members, snapshots);
    FirstClosureCites(input, Initial(identities, members, snapshots), b, mb, x, fp, id);
    var s := Run(input, Initial(identities, members, snapshots), FirstClosure(b, mb, x, fp));
    SecondCatalogFails(input, s, b, y, again);
  }

  lemma CatalogFirst(input: Input, s: Sys, b: string, x: string, fp: string)
    requires Inv(input, s) && Quiet(s) && fp != "" && b in s.world.snapshots && !Cited(s.db, s.world, b)
    requires Key(x, CandidatesPhase) !in s.db.receipts
    ensures var s' := Run(input, s, Lone(0, Candidates(b, x, fp)));
            && Inv(input, s') && Quiet(s') && s'.world == s.world
            && s'.db == s.db.(candidates := s.db.candidates[b := Rebuild(input.sources, b)], receipts := s'.db.receipts)
            && s'.db.receipts.Keys == s.db.receipts.Keys + {Key(x, CandidatesPhase)}
  {
    hide Next, Run, Inv, Undisturbed, Cited;
    var call := Candidates(b, x, fp);
    LoneCall(input, s, 0, call);
    CandidatesCommitsIff(input, s.(workers := s.workers[0 := Reading(call)]), 0);
  }

  lemma SecondCatalogFails(input: Input, s: Sys, b: string, y: string, fp: string)
    requires Inv(input, s) && Quiet(s) && Cited(s.db, s.world, b) && Key(y, CandidatesPhase) !in s.db.receipts
    ensures var s' := Run(input, s, Lone(0, Candidates(b, y, fp)));
            0 in s'.workers && s'.workers[0].Failed? && s'.db == s.db
  {
    hide Next, Run, Inv, Undisturbed, Cited;
    var call := Candidates(b, y, fp);
    LoneCall(input, s, 0, call);
    CandidatesCommitsIff(input, s.(workers := s.workers[0 := Reading(call)]), 0);
  }

  lemma ValidatedCites(input: Input, db: Db, db': Db, world: World, b: string, mb: string, id: nat)
    requires ProjectsOnto(input, world, b, mb, id) && AllInsertable(input, world, mb) && db.evidence == map[]
    requires b in db.candidates && db.candidates[b] == Rebuild(input.sources, b) && db'.candidates == db.candidates
    requires db'.evidence == NewEvidence(input, db, world, mb) + db.evidence
    ensures Cited(db', world, b)
  {
    var code := input.raw[id].typeCode.value;
    var row := Rebuild(input.sources, b)[code];
    assert id in Joined(input, world, mb);
    assert db'.evidence[id].typeRow == Some(row);
    assert row in db'.candidates[b].Values && CitedRow(db', world, row);
  }
}

/** The three transactional phases of a socios evidence closure as a state machine
  (packages/promotion/src/legacy-membership-evidence.ts and
  packages/promotion/src/legacy-member-evidence-resolution-application.ts).

  A step is a statement of the worker that issues it, or several in a row that a lock keeps together:
  the rebuild of a catalog works on rows of the snapshot it has locked, and an application reads leaves
  and receipt behind its advisory lock. Writes are private to the transaction (`draft`) until its COMMIT
  publishes them together with its receipt. Any number of workers interleave, each may fail, roll back
  or crash before any statement, a COMMIT may be applied without the caller learning of it, and the
  tables the phases only read (`World`) may change between any two steps. What a phase waits for (row
  locks, the advisory lock, an uncommitted unique key, an uncommitted foreign key) is a step that
  changes nothing.
 */
module ClosurePhases {
  import opened Common
  import opened ClosureEvidence

  /******* State *******/

  datatype Slot = CandidatesPhase | MembersPhase | ApplicationPhase

  datatype Key = Key(execution: string, slot: Slot)

  datatype Receipt =
    | PhaseReceipt(batch: string, fingerprint: string, counts: PhaseCounts)
    | ApplicationReceipt(batch: string, leaves: Fingerprint, applied: ApplicationCounts)

  datatype SourceRow = SourceRow(batch: string, ordinal: nat, code: string)

  /** Rows that are immutable while closures run. */
  datatype Input = Input(raw: map<nat, RawEvent>, sources: map<nat, SourceRow>)

  /** Rows that other parts of the system write: identity evidence, the known members, the catalog
      snapshots in the order of their sequence, and all resolutions ever made of each evidence row.
      A resolution supersedes the one before it; rows are never deleted and the last is the active leaf. */
  datatype World = World(
    identities: map<nat, Identity>, members: set<nat>, snapshots: seq<string>,
    resolutions: map<nat, seq<Resolution>>)

  /** Committed rows. Candidates are kept by batch and code, applications by execution and evidence. */
  datatype Db = Db(
    candidates: map<string, map<string, nat>>, evidence: map<nat, Evidence>,
    applications: map<string, map<nat, Application>>, receipts: map<Key, Receipt>)

  datatype Call =
    | Candidates(batch: string, execution: string, fingerprint: string)
    | Members(batch: string, execution: string, fingerprint: string)
    | Apply(batch: string, execution: string, expected: Option<Fingerprint>)

  datatype Draft =
    | CandidateRows(byCode: map<string, nat>)
    | EvidenceRows(byId: map<nat, Evidence>)
    | ApplicationRows(byEvidence: map<nat, Application>)

  datatype Pc =
    | Reading(call: Call)
    | Writing(call: Call, leaves: Leaves)
    | Measuring(call: Call, draft: Draft)
    | Recording(call: Call, draft: Draft, receipt: Receipt)
    | Committing(call: Call, draft: Draft, receipt: Receipt)
    | Replaying(call: Call, receipt: Receipt)
    | Returned(call: Call, receipt: Receipt)
    | Failed(call: Call)

  datatype Sys = Sys(db: Db, world: World, workers: map<nat, Pc>)

  datatype Event =
    | Start(worker: nat, startedCall: Call)
    | Statement(worker: nat)
    | CommitUnacknowledged(worker: nat)
    | Abort(worker: nat)
    | Turn(next: World)

  function KeyOf(call: Call): Key {
    match call
    case Candidates(_, x, _) => Key(x, CandidatesPhase)
    case Members(_, x, _) => Key(x, MembersPhase)
    case Apply(_, x, _) => Key(x, ApplicationPhase)
  }

  /** The receipt binds this call: same batch and same fingerprint. */
  predicate Binds(call: Call, r: Receipt) {
    match call
    case Candidates(b, _, fp) => r.PhaseReceipt? && r.batch == b && r.fingerprint == fp
    case Members(b, _, fp) => r.PhaseReceipt? && r.batch == b && r.fingerprint == fp
    case Apply(b, _, e) => r.ApplicationReceipt? && r.batch == b && (e.Some? ==> r.leaves == e.value)
  }

  /******* What the statements compute *******/

  predicate Outranks(src: map<nat, SourceRow>, a: nat, b: nat)
    requires a in src && b in src
  {
    src[a].ordinal > src[b].ordinal || (src[a].ordinal == src[b].ordinal && a >= b)
  }

  function RowsOfCode(src: map<nat, SourceRow>, batch: string, code: string): set<nat> {
    set id | id in src && src[id].batch == batch && src[id].code == code
  }

  function CodesOf(src: map<nat, SourceRow>, batch: string): set<string> {
    set id | id in src && src[id].batch == batch :: src[id].code
  }

  /** row_number() OVER (PARTITION BY code ORDER BY record_ordinal DESC, id DESC) = 1 */
  function Best(src: map<nat, SourceRow>, ids: set<nat>): (best: nat)
    requires ids != {} && ids <= src.Keys
    ensures best in ids && forall id <- ids :: Outranks(src, best, id)
  {
    BestExists(src, ids);
    var x :| x in ids && forall id <- ids :: Outranks(src, x, id);
    x
  }

  lemma {:induction false} BestExists(src: map<nat, SourceRow>, ids: set<nat>)
    requires ids != {} && ids <= src.Keys
    ensures exists x :: x in ids && forall id <- ids :: Outranks(src, x, id)
  {
    var x :| x in ids;
    assert forall id <- ids :: id == x || id in ids - {x};
    if ids - {x} != {} {
      BestExists(src, ids - {x});
      var y :| y in ids - {x} && forall id <- ids - {x} :: Outranks(src, y, id);
      var best := if Outranks(src, x, y) then x else y;
      assert forall id <- ids :: Outranks(src, best, id);
    } else {
      assert forall id <- ids :: Outranks(src, x, id);
    }
  }

  function Rebuild(src: map<nat, SourceRow>, batch: string): map<string, nat> {
    map code | code in CodesOf(src, batch) ::
      (CodeHasRows(src, batch, code); Best(src, RowsOfCode(src, batch, code)))
  }

  lemma CodeHasRows(src: map<nat, SourceRow>, batch: string, code: string)
    requires code in CodesOf(src, batch)
    ensures RowsOfCode(src, batch, code) != {} && RowsOfCode(src, batch, code) <= src.Keys
  {
    var id :| id in src && src[id].batch == batch && src[id].code == code;
    assert id in RowsOfCode(src, batch, code);
  }

  /** The rebuild is determined by the source rows: every code of the batch gets one candidate, the row
      with the greatest (ordinal, id), and no other row would do. */
  lemma RebuildIsDetermined(src: map<nat, SourceRow>, batch: string, other: map<string, nat>)
    requires other.Keys == CodesOf(src, batch)
    requires forall code <- other :: other[code] in RowsOfCode(src, batch, code)
    requires forall code <- other :: forall id <- RowsOfCode(src, batch, code) :: Outranks(src, other[code], id)
    ensures other == Rebuild(src, batch)
  {
    forall code | code in other ensures other[code] == Rebuild(src, batch)[code] {
      CodeHasRows(src, batch, code);
      var best := Rebuild(src, batch)[code];
      assert Outranks(src, best, other[code]) && Outranks(src, other[code], best);
    }
  }

  /** A committed row has a foreign key to this candidate: evidence, an application, or a resolution,
      superseded or not. */
  predicate CitedRow(db: Db, world: World, row: nat) {
    || (exists id :: id in db.evidence && db.evidence[id].typeRow == Some(row))
    || (exists x, id :: x in db.applications && id in db.applications[x] && db.applications[x][id].typeRow == row)
    || (exists id, i :: id in world.resolutions && 0 <= i < |world.resolutions[id]| &&
                        world.resolutions[id][i].typeRow == Some(row))
  }

  /** ON DELETE RESTRICT: some committed row points at a candidate of the batch. */
  predicate Cited(db: Db, world: World, batch: string) {
    batch in db.candidates && exists row :: row in db.candidates[batch].Values && CitedRow(db, world, row)
  }

  /** The same for the uncommitted rows of a transaction. */
  predicate DraftCites(draft: Draft, row: nat) {
    match draft
    case CandidateRows(_) => false
    case EvidenceRows(rows) => exists id :: id in rows && rows[id].typeRow == Some(row)
    case ApplicationRows(rows) => exists id :: id in rows && rows[id].typeRow == row
  }

  /** The view legacy_membership_type_selectable: the candidates of the newest snapshot. */
  function Selectable(db: Db, world: World): map<string, nat> {
    if world.snapshots == [] || world.snapshots[|world.snapshots| - 1] !in db.candidates then map[]
    else db.candidates[world.snapshots[|world.snapshots| - 1]]
  }

  function Joined(input: Input, world: World, batch: string): set<nat> {
    set id | id in RawOfBatch(input.raw, batch) && id in world.identities
  }

  predicate AllInsertable(input: Input, world: World, batch: string) {
    forall id <- Joined(input, world, batch) :: Insertable(input.raw[id])
  }

  /** INSERT ... ON CONFLICT (raw_event_id) DO NOTHING: only rows that are not there yet. */
  function NewEvidence(input: Input, db: Db, world: World, batch: string): map<nat, Evidence>
    requires AllInsertable(input, world, batch)
  {
    map id | id in Joined(input, world, batch) && id !in db.evidence ::
      Project(input.raw[id], world.identities[id], Selectable(db, world))
  }

  predicate TypeExists(db: Db, row: nat) {
    exists b :: b in db.candidates && row in db.candidates[b].Values
  }

  /** The foreign key of the applications that a transaction inserts. */
  predicate TypesExist(db: Db, rows: map<nat, Application>) {
    forall id <- rows :: TypeExists(db, rows[id].typeRow)
  }

  function ActiveLeaf(world: World, id: nat): Option<Resolution> {
    if id !in world.resolutions || world.resolutions[id] == [] then None
    else Some(world.resolutions[id][|world.resolutions[id]| - 1])
  }

  function LeafFor(input: Input, db: Db, world: World, id: nat): Leaf
    requires id in db.evidence && id in input.raw
  {
    var r := ActiveLeaf(world, id);
    Leaf(
      LeafKey(db.evidence[id].state, input.raw[id].contentHash, r),
      r.Some? && r.value.member.Some? && r.value.member.value in world.members,
      r.Some? && r.value.typeRow.Some? && TypeExists(db, r.value.typeRow.value))
  }

  function ReadLeaves(input: Input, db: Db, world: World, batch: string): Leaves {
    map id | id in OfBatch(db.evidence, batch) && !db.evidence[id].state.Validated? && id in input.raw ::
      LeafFor(input, db, world, id)
  }

  /** CHECK constraints of the two receipt tables. */
  predicate PassesChecks(r: Receipt) {
    match r
    case PhaseReceipt(_, fp, c) => fp != "" && Reconciled(c)
    case ApplicationReceipt(_, _, c) =>
      c.eligible == c.applied + c.unresolved + c.stale + c.technical &&
      c.unresolved == c.unresolvedUnknown + c.unresolvedAmbiguous
  }

  function Publish(db: Db, call: Call, draft: Draft, r: Receipt): Db {
    var db1 := db.(receipts := db.receipts[KeyOf(call) := r]);
    match draft
    case CandidateRows(rows) => db1.(candidates := db.candidates[call.batch := rows])
    case EvidenceRows(rows) => db1.(evidence := rows + db.evidence)
    case ApplicationRows(rows) => db1.(applications := db.applications[call.execution := rows])
  }

  /******* Steps *******/

  /** The transaction has written. */
  predicate InFlight(pc: Pc) { pc.Measuring? || pc.Recording? || pc.Committing? }

  predicate HoldsSnapshotLock(pc: Pc, batch: string) {
    InFlight(pc) && pc.call.Candidates? && pc.call.batch == batch
  }

  /** Holds uncommitted evidence rows of the batch, on which another insert of them waits. */
  predicate HoldsEvidenceRows(pc: Pc, batch: string) {
    InFlight(pc) && pc.call.Members? && pc.call.batch == batch && pc.draft.EvidenceRows? && pc.draft.byId != map[]
  }

  predicate HoldsAdvisoryLock(pc: Pc, execution: string) {
    (pc.Writing? || pc.Recording? || pc.Committing? || pc.Replaying?) &&
    pc.call.Apply? && pc.call.execution == execution
  }

  /** The transaction has deleted the candidates of its batch. */
  predicate Rebuilding(pc: Pc) { InFlight(pc) && pc.call.Candidates? }

  /** The uncommitted rows of one transaction cite a candidate that another deletes: the later one waits. */
  predicate Conflicts(db: Db, batch: string, draft: Draft) {
    batch in db.candidates && exists row :: row in db.candidates[batch].Values && DraftCites(draft, row)
  }

  /** The next statement of worker `w` has to wait for another transaction. */
  ghost predicate Waits(input: Input, s: Sys, w: nat)
    requires w in s.workers
  {
    exists v :: v in s.workers && v != w && BlockedBy(input, s, s.workers[w], s.workers[v])
  }

  predicate BlockedBy(input: Input, s: Sys, pc: Pc, other: Pc) {
    match pc
    case Reading(Apply(_, x, _)) => HoldsAdvisoryLock(other, x)
    case Writing(Candidates(b, _, _), _) =>
      HoldsSnapshotLock(other, b) ||
      (InFlight(other) && Conflicts(s.db, b, other.draft))
    case Writing(Members(b, _, _), _) =>
      HoldsEvidenceRows(other, b) ||
      (Rebuilding(other) && AllInsertable(input, s.world, b) &&
         Conflicts(s.db, other.call.batch, EvidenceRows(NewEvidence(input, s.db, s.world, b))))
    case Writing(Apply(_, _, _), leaves) =>
      Rebuilding(other) && AllWellFormed(leaves) &&
      Conflicts(s.db, other.call.batch, ApplicationRows(ApplicationsOf(leaves)))
    case Recording(call, _, _) => other.Committing? && KeyOf(other.call) == KeyOf(call)
    case _ => false
  }

  function Read(input: Input, s: Sys, call: Call): Pc {
    var rs, k := s.db.receipts, KeyOf(call);
    if call.Apply? then
      var leaves := ReadLeaves(input, s.db, s.world, call.batch);
      var fp := FingerprintOf(leaves);
      if call.expected.Some? && call.expected.value != fp then Failed(call)
      else if k !in rs then Writing(call, leaves)
      else if rs[k].ApplicationReceipt? && rs[k].batch == call.batch && rs[k].leaves == fp then Replaying(call, rs[k])
      else Failed(call)
    else if k !in rs then Writing(call, map[])
    else if Binds(call, rs[k]) then Replaying(call, rs[k])
    else Failed(call)
  }

  function Write(input: Input, s: Sys, call: Call, leaves: Leaves): Pc {
    match call
    case Candidates(b, _, _) =>
      if b !in s.world.snapshots || Cited(s.db, s.world, b) then Failed(call)
      else Measuring(call, CandidateRows(Rebuild(input.sources, b)))
    case Members(b, _, _) =>
      if !AllInsertable(input, s.world, b) then Failed(call)
      else Measuring(call, EvidenceRows(NewEvidence(input, s.db, s.world, b)))
    case Apply(b, _, _) =>
      if !AllWellFormed(leaves) || !TypesExist(s.db, ApplicationsOf(leaves)) then Failed(call)
      else Recording(call, ApplicationRows(ApplicationsOf(leaves)),
                     ApplicationReceipt(b, FingerprintOf(leaves), CountLeaves(leaves)))
  }

  function Measure(input: Input, s: Sys, call: Call, draft: Draft): PhaseCounts {
    match draft
    case EvidenceRows(rows) => MemberCounts(input.raw, rows + s.db.evidence, call.batch)
    case CandidateRows(rows) => PhaseCounts(|rows|, |rows|, 0, 0, 0, 0)
    case ApplicationRows(_) => PhaseCounts(0, 0, 0, 0, 0, 0)
  }

  function Advance(input: Input, s: Sys, pc: Pc): Pc {
    match pc
    case Reading(call) => Read(input, s, call)
    case Writing(call, leaves) => Write(input, s, call, leaves)
    case Measuring(call, draft) =>
      if call.Apply? then Failed(call)
      else Recording(call, draft, PhaseReceipt(call.batch, call.fingerprint, Measure(input, s, call, draft)))
    case Recording(call, draft, r) =>
      if KeyOf(call) in s.db.receipts || !PassesChecks(r) then Failed(call) else Committing(call, draft, r)
    case Committing(call, _, r) => Returned(call, r)
    case Replaying(call, r) => Returned(call, r)
    case _ => pc
  }

  predicate InTransaction(pc: Pc) { !pc.Returned? && !pc.Failed? }

  predicate Deletes(db: Db, pc: Pc, row: nat) {
    Rebuilding(pc) && pc.call.batch in db.candidates && row in db.candidates[pc.call.batch].Values
  }

  /** A new resolution passes the CHECKs and foreign keys of its table, and waits for no transaction. */
  ghost predicate MayInsert(s: Sys, id: nat, r: Resolution) {
    && id in s.db.evidence && r.kind == s.db.evidence[id].state && r.member.Some?
    && (r.kind.AmbiguousIdentity? || (r.kind.UnknownType? && r.typeRow.Some?))
    && (r.typeRow.Some? ==>
          TypeExists(s.db, r.typeRow.value) && forall v <- s.workers :: !Deletes(s.db, s.workers[v], r.typeRow.value))
  }

  function Made(world: World, id: nat): nat {
    if id in world.resolutions then |world.resolutions[id]| else 0
  }

  /** What the rest of the system may do between two steps: snapshots and resolutions are only added. */
  ghost predicate MayBecome(s: Sys, next: World) {
    && s.world.snapshots <= next.snapshots
    && (forall id <- s.world.resolutions :: id in next.resolutions && s.world.resolutions[id] <= next.resolutions[id])
    && (forall id, i :: id in next.resolutions && Made(s.world, id) <= i < |next.resolutions[id]| ==>
          MayInsert(s, id, next.resolutions[id][i]))
  }

  ghost function Next(input: Input, s: Sys, e: Event): Sys {
    match e
    case Turn(world) => if MayBecome(s, world) then s.(world := world) else s
    case Start(w, call) =>
      if w in s.workers && InTransaction(s.workers[w]) then s
      else s.(workers := s.workers[w := Reading(call)])
    case Abort(w) =>
      if w in s.workers && InTransaction(s.workers[w])
      then s.(workers := s.workers[w := Failed(s.workers[w].call)]) else s
    case Statement(w) =>
      if w !in s.workers || Waits(input, s, w) then s
      else
        var pc := s.workers[w];
        var db := if pc.Committing? then Publish(s.db, pc.call, pc.draft, pc.receipt) else s.db;
        s.(db := db, workers := s.workers[w := Advance(input, s, pc)])
    case CommitUnacknowledged(w) =>
      if w in s.workers && s.workers[w].Committing? then
        var pc := s.workers[w];
        s.(db := Publish(s.db, pc.call, pc.draft, pc.receipt), workers := s.workers[w := Failed(pc.call)])
      else s
  }

  ghost function Run(input: Input, s: Sys, events: seq<Event>): Sys {
    if events == [] then s else Next(input, Run(input, s, events[..|events| - 1]), events[|events| - 1])
  }

  /** Before the first closure: no resolution can exist without evidence. */
  function Initial(identities: map<nat, Identity>, members: set<nat>, snapshots: seq<string>): Sys {
    Sys(Db(map[], map[], map[], map[]), World(identities, members, snapshots, map[]), map[])
  }

  /******* Invariant *******/

  predicate DraftOk(input: Input, db: Db, batch: string, rows: map<nat, Evidence>) {
    && rows.Keys <= RawOfBatch(input.raw, batch)
    && rows.Keys !! db.evidence.Keys
    && (forall id <- rows :: rows[id].batch == batch)
  }

  /** The counts of an application receipt are those of some leaves with its fingerprint. */
  ghost predicate CountsOf(fp: Fingerprint, c: ApplicationCounts) {
    exists l: Leaves :: OnlyExceptions(l) && FingerprintOf(l) == fp && CountLeaves(l) == c
  }

  ghost predicate DraftMatches(input: Input, db: Db, call: Call, draft: Draft) {
    match call
    case Candidates(_, _, _) => draft.CandidateRows?
    case Members(b, _, _) => draft.EvidenceRows? && DraftOk(input, db, b, draft.byId)
    case Apply(_, _, _) => draft.ApplicationRows?
  }

  ghost predicate ReceiptMatches(input: Input, db: Db, call: Call, draft: Draft, r: Receipt) {
    && Binds(call, r)
    && (call.Members? && Reconciled(r.counts) ==>
          draft.EvidenceRows? && r.counts == MemberCounts(input.raw, draft.byId + db.evidence, call.batch))
    && (call.Apply? ==>
          CountsOf(r.leaves, r.applied) && draft.ApplicationRows? && |draft.byEvidence| == r.applied.applied)
  }

  ghost predicate WorkerOk(input: Input, db: Db, pc: Pc) {
    match pc
    case Writing(call, leaves) =>
      call.Apply? ==> OnlyExceptions(leaves) && (call.expected.Some? ==> call.expected.value == FingerprintOf(leaves))
    case Measuring(call, draft) => DraftMatches(input, db, call, draft)
    case Recording(call, draft, r) => DraftMatches(input, db, call, draft) && ReceiptMatches(input, db, call, draft, r)
    case Committing(call, draft, r) =>
      && DraftMatches(input, db, call, draft) && ReceiptMatches(input, db, call, draft, r)
      && PassesChecks(r) && KeyOf(call) !in db.receipts
    case Replaying(call, r) => Binds(call, r) && KeyOf(call) in db.receipts && db.receipts[KeyOf(call)] == r
    case Returned(call, r) => Binds(call, r) && KeyOf(call) in db.receipts && db.receipts[KeyOf(call)] == r
    case _ => true
  }

  predicate Compatible(a: Pc, b: Pc) {
    && (HoldsEvidenceRows(a, b.call.batch) ==> !HoldsEvidenceRows(b, b.call.batch))
    && (a.Committing? && b.Committing? ==> KeyOf(a.call) != KeyOf(b.call))
  }

  predicate EvidenceOk(input: Input, db: Db) {
    forall id <- db.evidence :: id in input.raw && db.evidence[id].batch == input.raw[id].batch
  }

  ghost predicate CommittedOk(input: Input, db: Db, k: Key)
    requires k in db.receipts
  {
    var r := db.receipts[k];
    match k.slot
    case CandidatesPhase => r.PhaseReceipt? && Reconciled(r.counts)
    case MembersPhase =>
      r.PhaseReceipt? && Reconciled(r.counts) && r.counts == MemberCounts(input.raw, db.evidence, r.batch)
    case ApplicationPhase =>
      r.ApplicationReceipt? && CountsOf(r.leaves, r.applied) &&
      k.execution in db.applications && |db.applications[k.execution]| == r.applied.applied
  }

  /** Applications have their receipts. */
  predicate ApplicationsRecorded(db: Db) {
    forall x <- db.applications :: Key(x, ApplicationPhase) in db.receipts
  }

  ghost predicate Inv(input: Input, s: Sys) {
    && EvidenceOk(input, s.db)
    && (forall k <- s.db.receipts :: CommittedOk(input, s.db, k))
    && ApplicationsRecorded(s.db)
    && (forall w <- s.workers :: WorkerOk(input, s.db, s.workers[w]))
    && (forall v, w :: v in s.workers && w in s.workers && v != w ==> Compatible(s.workers[v], s.workers[w]))
  }

  lemma InitialInv(input: Input, identities: map<nat, Identity>, members: set<nat>, snapshots: seq<string>)
    ensures Inv(input, Initial(identities, members, snapshots))
  {
  }

  lemma EvidenceWithinRaw(input: Input, db: Db, batch: string)
    requires EvidenceOk(input, db)
    ensures OfBatch(db.evidence, batch) <= RawOfBatch(input.raw, batch)
  {
  }

  /** Rows added to another batch, or no rows at all, leave the counts of a batch alone. */
  lemma CountsUnmoved(raw: map<nat, RawEvent>, a: map<nat, Evidence>, b: map<nat, Evidence>, batch: string)
    requires a.Keys <= b.Keys
    requires forall id <- a :: b[id] == a[id]
    requires forall id <- b :: id !in a ==> b[id].batch != batch
    ensures MemberCounts(raw, b, batch) == MemberCounts(raw, a, batch)
    ensures OfBatch(b, batch) == OfBatch(a, batch)
  {
    forall st: ReviewState ensures OfState(b, batch, st) == OfState(a, batch, st) {
    }
    assert OfState(b, batch, Validated) == OfState(a, batch, Validated);
    assert OfState(b, batch, UnknownType) == OfState(a, batch, UnknownType);
    assert OfState(b, batch, AmbiguousIdentity) == OfState(a, batch, AmbiguousIdentity);
    assert OfState(b, batch, MissingIdentity) == OfState(a, batch, MissingIdentity);
  }

  /** A batch whose counts reconcile has nothing left to project, so no draft adds to it. */
  lemma CompleteBatchTakesNoRows(input: Input, es: map<nat, Evidence>, batch: string, rows: map<nat, Evidence>)
    requires forall id <- es :: id in input.raw && es[id].batch == input.raw[id].batch
    requires Reconciled(MemberCounts(input.raw, es, batch))
    requires rows.Keys <= RawOfBatch(input.raw, batch) && rows.Keys !! es.Keys
    ensures rows == map[]
  {
    assert OfBatch(es, batch) <= RawOfBatch(input.raw, batch);
    ReconciledIffComplete(input.raw, es, batch);
    assert rows.Keys == {} by {
      if id :| id in rows.Keys {
        assert id in OfBatch(es, batch);
      }
    }
  }

  /******* Preservation *******/

  /** What a commit of evidence rows does to the receipts already committed. */
  lemma CommittedSurvives(input: Input, db: Db, k: Key, batch: string, rows: map<nat, Evidence>)
    requires EvidenceOk(input, db) && k in db.receipts && CommittedOk(input, db, k)
    requires DraftOk(input, db, batch, rows)
    ensures CommittedOk(input, db.(evidence := rows + db.evidence), k)
  {
    if k.slot.MembersPhase? {
      var b := db.receipts[k].batch;
      if b == batch {
        CompleteBatchTakesNoRows(input, db.evidence, batch, rows);
      }
      CountsUnmoved(input.raw, db.evidence, rows + db.evidence, b);
    }
  }

  /** ... and to another worker in flight: on another batch its counts do not move, ... */
  lemma OtherBatchSurvives(input: Input, db: Db, call: Call, theirs: map<nat, Evidence>, r: Receipt,
                           batch: string, rows: map<nat, Evidence>)
    requires DraftOk(input, db, batch, rows)
    requires call.Members? && call.batch != batch && DraftMatches(input, db, call, EvidenceRows(theirs))
    ensures var db' := db.(evidence := rows + db.evidence);
            && DraftMatches(input, db', call, EvidenceRows(theirs))
            && (ReceiptMatches(input, db, call, EvidenceRows(theirs), r) ==>
                  ReceiptMatches(input, db', call, EvidenceRows(theirs), r))
  {
    CountsUnmoved(input.raw, theirs + db.evidence, theirs + (rows + db.evidence), call.batch);
  }

  /** ... and on the same batch one of the two drafts is empty. */
  lemma SameBatchSurvives(input: Input, db: Db, call: Call, theirs: map<nat, Evidence>, r: Receipt,
                          rows: map<nat, Evidence>)
    requires EvidenceOk(input, db) && call.Members? && DraftOk(input, db, call.batch, rows)
    requires DraftMatches(input, db, call, EvidenceRows(theirs))
    requires rows == map[] || theirs == map[]
    ensures var db' := db.(evidence := rows + db.evidence);
            && DraftMatches(input, db', call, EvidenceRows(theirs))
            && (ReceiptMatches(input, db, call, EvidenceRows(theirs), r) ==>
                  ReceiptMatches(input, db', call, EvidenceRows(theirs), r))
  {
    if rows == map[] {
      assert rows + db.evidence == db.evidence;
    } else {
      assert theirs + db.evidence == db.evidence && theirs + (rows + db.evidence) == rows + db.evidence;
      if ReceiptMatches(input, db, call, EvidenceRows(theirs), r) && Reconciled(r.counts) {
        CompleteBatchTakesNoRows(input, db.evidence, call.batch, rows);
      }
    }
  }

  lemma OtherDraftSurvives(input: Input, db: Db, pc: Pc, mine: Pc)
    requires EvidenceOk(input, db) && WorkerOk(input, db, pc) && WorkerOk(input, db, mine)
    requires mine.Committing? && mine.call.Members? && Compatible(mine, pc)
    requires InFlight(pc) && pc.call.Members?
    ensures mine.draft.EvidenceRows?
    ensures var db' := db.(evidence := mine.draft.byId + db.evidence);
            && DraftMatches(input, db', pc.call, pc.draft)
            && (!pc.Measuring? ==> ReceiptMatches(input, db', pc.call, pc.draft, pc.receipt))
  {
    assert DraftMatches(input, db, mine.call, mine.draft) && DraftMatches(input, db, pc.call, pc.draft);
    var rows, theirs := mine.draft.byId, pc.draft.byId;
    assert pc.draft == EvidenceRows(theirs);
    var r := if pc.Measuring? then mine.receipt else pc.receipt;
    if pc.call.batch == mine.call.batch {
      SameBatchSurvives(input, db, pc.call, theirs, r, rows);
    } else {
      OtherBatchSurvives(input, db, pc.call, theirs, r, mine.call.batch, rows);
    }
  }

  lemma PublishKeepsOthers(input: Input, db: Db, pc: Pc, mine: Pc)
    requires EvidenceOk(input, db) && WorkerOk(input, db, pc) && WorkerOk(input, db, mine)
    requires mine.Committing? && Compatible(mine, pc)
    ensures WorkerOk(input, Publish(db, mine.call, mine.draft, mine.receipt), pc)
  {
    hide MemberCounts, CountsOf, Reconciled;
    var db' := Publish(db, mine.call, mine.draft, mine.receipt);
    if mine.call.Members? {
      var mid := db.(evidence := mine.draft.byId + db.evidence);
      assert db' == mid.(receipts := db.receipts[KeyOf(mine.call) := mine.receipt]);
      if InFlight(pc) && pc.call.Members? {
        OtherDraftSurvives(input, db, pc, mine);
      }
    } else {
      assert db'.evidence == db.evidence;
    }
  }

  /** The receipt that a COMMIT publishes is true of the tables it publishes. */
  lemma PublishedIsTrue(input: Input, db: Db, mine: Pc)
    requires WorkerOk(input, db, mine) && mine.Committing?
    ensures CommittedOk(input, Publish(db, mine.call, mine.draft, mine.receipt), KeyOf(mine.call))
  {
    assert DraftMatches(input, db, mine.call, mine.draft);
    assert ReceiptMatches(input, db, mine.call, mine.draft, mine.receipt);
  }

  /** A committed receipt depends on the evidence, on its own row and on its own applications only. */
  lemma CommittedFrame(input: Input, db: Db, db': Db, k: Key)
    requires k in db.receipts && CommittedOk(input, db, k)
    requires k in db'.receipts && db'.receipts[k] == db.receipts[k] && db'.evidence == db.evidence
    requires k.slot.ApplicationPhase? && k.execution in db.applications ==>
               k.execution in db'.applications && db'.applications[k.execution] == db.applications[k.execution]
    ensures CommittedOk(input, db', k)
  {
  }

  lemma PublishKeepsCommitted(input: Input, db: Db, call: Call, draft: Draft, r: Receipt, k: Key)
    requires EvidenceOk(input, db) && DraftMatches(input, db, call, draft) && KeyOf(call) !in db.receipts
    requires k in db.receipts && CommittedOk(input, db, k)
    ensures CommittedOk(input, Publish(db, call, draft, r), k)
  {
    var db' := Publish(db, call, draft, r);
    if call.Members? {
      CommittedSurvives(input, db, k, call.batch, draft.byId);
      CommittedFrame(input, db.(evidence := draft.byId + db.evidence), db', k);
    } else {
      CommittedFrame(input, db, db', k);
    }
  }

  lemma PublishKeepsEvidence(input: Input, db: Db, pc: Pc)
    requires pc.Committing? && EvidenceOk(input, db) && DraftMatches(input, db, pc.call, pc.draft)
    ensures EvidenceOk(input, Publish(db, pc.call, pc.draft, pc.receipt))
  {
  }

  lemma PublishedReceipts(input: Input, s: Sys, pc: Pc, k: Key)
    requires Inv(input, s) && WorkerOk(input, s.db, pc) && pc.Committing?
    requires k in Publish(s.db, pc.call, pc.draft, pc.receipt).receipts
    ensures CommittedOk(input, Publish(s.db, pc.call, pc.draft, pc.receipt), k)
  {
    hide CommittedOk, DraftMatches, ReceiptMatches, EvidenceOk, Compatible;
    if k in s.db.receipts {
      PublishKeepsCommitted(input, s.db, pc.call, pc.draft, pc.receipt, k);
    } else {
      PublishedIsTrue(input, s.db, pc);
    }
  }

  lemma PublishKeepsApplications(input: Input, db: Db, pc: Pc)
    requires pc.Committing? && ApplicationsRecorded(db) && DraftMatches(input, db, pc.call, pc.draft)
    ensures ApplicationsRecorded(Publish(db, pc.call, pc.draft, pc.receipt))
  {
  }

  lemma PublishKeepsDb(input: Input, s: Sys, pc: Pc)
    requires Inv(input, s) && WorkerOk(input, s.db, pc) && pc.Committing?
    ensures var db' := Publish(s.db, pc.call, pc.draft, pc.receipt);
            && EvidenceOk(input, db') && ApplicationsRecorded(db')
            && (forall k <- db'.receipts :: CommittedOk(input, db', k))
  {
    hide CommittedOk, EvidenceOk, Compatible, DraftMatches, ReceiptMatches;
    var db' := Publish(s.db, pc.call, pc.draft, pc.receipt);
    PublishKeepsEvidence(input, s.db, pc);
    PublishKeepsApplications(input, s.db, pc);
    hide Publish;
    forall k | k in db'.receipts ensures CommittedOk(input, db', k) {
      PublishedReceipts(input, s, pc, k);
    }
  }

  lemma PublishInv(input: Input, s: Sys, w: nat, after: Pc)
    requires Inv(input, s) && w in s.workers && s.workers[w].Committing?
    requires after == Returned(s.workers[w].call, s.workers[w].receipt) || after == Failed(s.workers[w].call)
    ensures var pc := s.workers[w];
            Inv(input, s.(db := Publish(s.db, pc.call, pc.draft, pc.receipt), workers := s.workers[w := after]))
  {
    hide CommittedOk, EvidenceOk, DraftMatches, ApplicationsRecorded;
    var pc := s.workers[w];
    var db' := Publish(s.db, pc.call, pc.draft, pc.receipt);
    assert WorkerOk(input, s.db, pc);
    PublishKeepsDb(input, s, pc);
    assert WorkerOk(input, db', after);
    hide WorkerOk, Publish, ReceiptMatches;
    var workers' := s.workers[w := after];
    forall v | v in workers' ensures WorkerOk(input, db', workers'[v]) {
      if v != w {
        assert Compatible(pc, s.workers[v]);
        PublishKeepsOthers(input, s.db, s.workers[v], pc);
      }
    }
    RestingIsCompatible(s.workers, w, after);
  }

  /** Workers that hold nothing are compatible with all. */
  lemma RestingIsCompatible(workers: map<nat, Pc>, w: nat, after: Pc)
    requires forall v, u :: v in workers && u in workers && v != u ==> Compatible(workers[v], workers[u])
    requires after.Returned? || after.Failed? || after.Reading?
    ensures var workers' := workers[w := after];
            forall v, u :: v in workers' && u in workers' && v != u ==> Compatible(workers'[v], workers'[u])
  {
  }

  lemma ReadOk(input: Input, s: Sys, call: Call)
    requires Inv(input, s)
    ensures WorkerOk(input, s.db, Read(input, s, call))
  {
    hide MemberCounts, CountsOf, Reconciled, Compatible, DraftMatches, EvidenceOk;
    if KeyOf(call) in s.db.receipts {
      assert CommittedOk(input, s.db, KeyOf(call));
    }
  }

  lemma WriteOk(input: Input, s: Sys, call: Call, leaves: Leaves)
    requires Inv(input, s) && WorkerOk(input, s.db, Writing(call, leaves))
    ensures WorkerOk(input, s.db, Write(input, s, call, leaves))
  {
    if call.Apply? && AllWellFormed(leaves) {
      assert CountsOf(FingerprintOf(leaves), CountLeaves(leaves));
      assert ApplicationsOf(leaves).Keys == WithOutcome(leaves, Applied);
    } else if call.Members? && AllInsertable(input, s.world, call.batch) {
      var rows := NewEvidence(input, s.db, s.world, call.batch);
      assert rows.Keys <= RawOfBatch(input.raw, call.batch);
    }
  }

  lemma AdvanceOk(input: Input, s: Sys, w: nat)
    requires Inv(input, s) && w in s.workers && !s.workers[w].Committing?
    ensures WorkerOk(input, s.db, Advance(input, s, s.workers[w]))
  {
    var pc := s.workers[w];
    assert WorkerOk(input, s.db, pc);
    if pc.Reading? {
      ReadOk(input, s, pc.call);
    } else if pc.Writing? {
      WriteOk(input, s, pc.call, pc.leaves);
    }
  }

  lemma AdvanceCompatible(input: Input, s: Sys, w: nat, v: nat)
    requires Inv(input, s) && w in s.workers && v in s.workers && v != w
    requires !s.workers[w].Committing? && !Waits(input, s, w)
    ensures Compatible(Advance(input, s, s.workers[w]), s.workers[v])
    ensures Compatible(s.workers[v], Advance(input, s, s.workers[w]))
  {
    var pc, other := s.workers[w], s.workers[v];
    assert Compatible(pc, other) && Compatible(other, pc);
    assert !BlockedBy(input, s, pc, other);
  }

  lemma StatementInv(input: Input, s: Sys, w: nat)
    requires Inv(input, s) && w in s.workers && !Waits(input, s, w) && !s.workers[w].Committing?
    ensures Inv(input, s.(workers := s.workers[w := Advance(input, s, s.workers[w])]))
  {
    AdvanceOk(input, s, w);
    forall v | v in s.workers && v != w
      ensures Compatible(Advance(input, s, s.workers[w]), s.workers[v])
      ensures Compatible(s.workers[v], Advance(input, s, s.workers[w]))
    {
      AdvanceCompatible(input, s, w, v);
    }
  }

  lemma CommitInv(input: Input, s: Sys, w: nat)
    requires Inv(input, s) && w in s.workers && s.workers[w].Committing?
    ensures Inv(input, Next(input, s, Statement(w))) && Inv(input, Next(input, s, CommitUnacknowledged(w)))
  {
    var pc := s.workers[w];
    PublishInv(input, s, w, Returned(pc.call, pc.receipt));
    PublishInv(input, s, w, Failed(pc.call));
    assert !Waits(input, s, w);
    assert Advance(input, s, pc) == Returned(pc.call, pc.receipt);
  }

  lemma FreshWorkerInv(input: Input, s: Sys, w: nat, pc: Pc)
    requires Inv(input, s) && (pc.Reading? || pc.Failed?)
    ensures Inv(input, s.(workers := s.workers[w := pc]))
  {
  }

  lemma NextInv(input: Input, s: Sys, e: Event)
    requires Inv(input, s)
    ensures Inv(input, Next(input, s, e))
  {
    match e
    case Turn(_) =>
    case Start(w, call) => FreshWorkerInv(input, s, w, Reading(call));
    case Abort(w) =>
      if w in s.workers {
        FreshWorkerInv(input, s, w, Failed(s.workers[w].call));
      }
    case Statement(w) =>
      if w in s.workers && s.workers[w].Committing? {
        CommitInv(input, s, w);
      } else if w in s.workers && !Waits(input, s, w) {
        StatementInv(input, s, w);
      }
    case CommitUnacknowledged(w) =>
      if w in s.workers && s.workers[w].Committing? {
        CommitInv(input, s, w);
      }
  }

  lemma {:induction false} RunInv(input: Input, s: Sys, events: seq<Event>)
    requires Inv(input, s)
    ensures Inv(input, Run(input, s, events))
  {
    if events != [] {
      RunInv(input, s, events[..|events| - 1]);
      NextInv(input, Run(input, s, events[..|events| - 1]), events[|events| - 1]);
    }
  }
}

/** The rows and receipts of a socios evidence closure, and the counting both phases do on them
  (packages/promotion/src/legacy-membership-evidence.ts and
  packages/promotion/src/legacy-member-evidence-resolution-application.ts).

  Identifiers that the program only compares are natural numbers (uuids) or strings. A SHA-256 of a
  JSON text is modelled by the value that was hashed, which is what an injective hash preserves.
 */
module ClosureEvidence {
  import opened Common

  datatype ReviewState = Validated | UnknownType | AmbiguousIdentity | MissingIdentity

  /** SOCIMPCUOT after trimming: absent, a number, or a text the cast to numeric rejects. */
  datatype Fee = Blank | Amount(cents: int) | Malformed

  datatype RawEvent = RawEvent(batch: string, contentHash: string, typeCode: Option<string>, fee: Fee)

  /** A row of legacy_identity_evidence; `validated` is review_state = 'validated'. */
  datatype Identity = Identity(member: Option<nat>, validated: bool)

  /** A row of legacy_member_evidence; its raw event id is its key. */
  datatype Evidence = Evidence(batch: string, state: ReviewState, member: Option<nat>, typeRow: Option<nat>)

  datatype Resolution = Resolution(
    id: nat, kind: ReviewState, evidenceFingerprint: string, reason: string, steward: nat,
    key: string, member: Option<nat>, typeRow: Option<nat>)

  /** What the application fingerprint binds for one exception. */
  datatype LeafKey = LeafKey(kind: ReviewState, contentHash: string, resolution: Option<Resolution>)

  datatype Leaf = Leaf(key: LeafKey, memberExists: bool, typeExists: bool)

  type Leaves = map<nat, Leaf>
  type Fingerprint = map<nat, LeafKey>

  datatype Outcome = Applied | Unresolved | Stale | Technical

  datatype PhaseCounts = PhaseCounts(
    eligible: nat, projected: nat, exceptions: nat, unknownType: nat, ambiguous: nat, missing: nat)

  datatype ApplicationCounts = ApplicationCounts(
    eligible: nat, applied: nat, unresolved: nat, unresolvedUnknown: nat, unresolvedAmbiguous: nat,
    stale: nat, technical: nat)

  /******* Projection of one raw event *******/

  function Classify(i: Identity, selectable: bool): ReviewState {
    if i.validated && i.member.Some? && selectable then Validated
    else if i.validated && i.member.None? then MissingIdentity
    else if i.validated then UnknownType
    else AmbiguousIdentity
  }

  /** NOT NULL on the type code and the cast of the fee: a row the INSERT can carry at all. */
  predicate Insertable(r: RawEvent) {
    r.typeCode.Some? && !r.fee.Malformed?
  }

  function Project(r: RawEvent, i: Identity, selectable: map<string, nat>): Evidence
    requires Insertable(r)
  {
    var state := Classify(i, r.typeCode.value in selectable);
    if state.Validated? then Evidence(r.batch, state, i.member, Some(selectable[r.typeCode.value]))
    else Evidence(r.batch, state, None, None)
  }

  /** legacy_member_evidence_review_attachment_check: exactly the validated rows carry a member and a type. */
  lemma ProjectedRowsAreAttachedIffValidated(r: RawEvent, i: Identity, selectable: map<string, nat>)
    requires Insertable(r)
    ensures var e := Project(r, i, selectable);
            && (e.state.Validated? <==> e.member.Some? && e.typeRow.Some?)
            && (e.member.Some? <==> e.typeRow.Some?)
            && (e.state.MissingIdentity? ==> i.member.None?)
  {
  }

  /******* Counting evidence rows of a batch *******/

  function OfBatch(es: map<nat, Evidence>, batch: string): set<nat> {
    set id | id in es && es[id].batch == batch
  }

  function OfState(es: map<nat, Evidence>, batch: string, state: ReviewState): set<nat> {
    set id | id in es && es[id].batch == batch && es[id].state == state
  }

  function RawOfBatch(raw: map<nat, RawEvent>, batch: string): set<nat> {
    set id | id in raw && raw[id].batch == batch
  }

  /** The metrics query of the members phase. */
  function MemberCounts(raw: map<nat, RawEvent>, es: map<nat, Evidence>, batch: string): PhaseCounts {
    var u, a, m := |OfState(es, batch, UnknownType)|, |OfState(es, batch, AmbiguousIdentity)|,
                   |OfState(es, batch, MissingIdentity)|;
    PhaseCounts(|RawOfBatch(raw, batch)|, |OfState(es, batch, Validated)|, u + a + m, u, a, m)
  }

  predicate Reconciled(c: PhaseCounts) {
    c.eligible == c.projected + c.exceptions && c.exceptions == c.unknownType + c.ambiguous + c.missing
  }

  /** Every row of the batch is in exactly one review state. */
  lemma StatesPartitionBatch(es: map<nat, Evidence>, batch: string)
    ensures |OfBatch(es, batch)| ==
            |OfState(es, batch, Validated)| + |OfState(es, batch, UnknownType)| +
            |OfState(es, batch, AmbiguousIdentity)| + |OfState(es, batch, MissingIdentity)|
  {
    var v, u, a, m := OfState(es, batch, Validated), OfState(es, batch, UnknownType),
                      OfState(es, batch, AmbiguousIdentity), OfState(es, batch, MissingIdentity);
    assert OfBatch(es, batch) == v + u + a + m;
    assert v !! u && (v + u) !! a && (v + u + a) !! m;
  }

  /** The table's CHECK (eligible = projected + exceptions) holds iff every raw event of the batch
      has an evidence row, that is, iff none was dropped by the join with the identity evidence. */
  lemma ReconciledIffComplete(raw: map<nat, RawEvent>, es: map<nat, Evidence>, batch: string)
    requires OfBatch(es, batch) <= RawOfBatch(raw, batch)
    ensures Reconciled(MemberCounts(raw, es, batch)) <==> OfBatch(es, batch) == RawOfBatch(raw, batch)
  {
    StatesPartitionBatch(es, batch);
    if Reconciled(MemberCounts(raw, es, batch)) {
      SubsetOfSameSize(OfBatch(es, batch), RawOfBatch(raw, batch));
    }
  }

  /******* Resolution leaves *******/

  function OutcomeOf(leaf: Leaf): Outcome {
    var k := leaf.key;
    if k.kind.MissingIdentity? then Technical
    else if k.resolution.None? then Unresolved
    else if k.resolution.value.kind != k.kind || k.resolution.value.evidenceFingerprint != k.contentHash ||
            !leaf.memberExists || !leaf.typeExists then Stale
    else Applied
  }

  function FingerprintOf(leaves: Leaves): Fingerprint {
    map id | id in leaves :: leaves[id].key
  }

  function WithOutcome(leaves: Leaves, o: Outcome): set<nat> {
    set id | id in leaves && OutcomeOf(leaves[id]) == o
  }

  function UnresolvedOf(leaves: Leaves, kind: ReviewState): set<nat> {
    set id | id in leaves && OutcomeOf(leaves[id]).Unresolved? && leaves[id].key.kind == kind
  }

  function CountLeaves(leaves: Leaves): ApplicationCounts {
    ApplicationCounts(
      |leaves|, |WithOutcome(leaves, Applied)|, |WithOutcome(leaves, Unresolved)|,
      |UnresolvedOf(leaves, UnknownType)|, |UnresolvedOf(leaves, AmbiguousIdentity)|,
      |WithOutcome(leaves, Stale)|, |WithOutcome(leaves, Technical)|)
  }

  /** The leaves query selects exceptions only. */
  predicate OnlyExceptions(leaves: Leaves) {
    forall id <- leaves :: !leaves[id].key.kind.Validated?
  }

  predicate ApplicationReconciled(m: PhaseCounts, a: ApplicationCounts) {
    && a.eligible == m.exceptions
    && a.eligible == a.applied + a.unresolvedUnknown + a.unresolvedAmbiguous + a.stale + a.technical
    && a.unresolved == a.unresolvedUnknown + a.unresolvedAmbiguous
    && a.technical == m.missing
  }

  lemma DisjointUnionSize<T>(all: set<T>, a: set<T>, b: set<T>)
    requires all == a + b && a !! b
    ensures |all| == |a| + |b|
  {
  }

  /** Every exception gets exactly one outcome. */
  lemma OutcomesPartitionLeaves(leaves: Leaves)
    requires OnlyExceptions(leaves)
    ensures var c := CountLeaves(leaves);
            && c.unresolved == c.unresolvedUnknown + c.unresolvedAmbiguous
            && c.eligible == c.applied + c.unresolved + c.stale + c.technical
  {
    var a, u, s, t := WithOutcome(leaves, Applied), WithOutcome(leaves, Unresolved),
                      WithOutcome(leaves, Stale), WithOutcome(leaves, Technical);
    UnresolvedSplitByKind(leaves);
    hide OutcomeOf, OnlyExceptions, UnresolvedOf;
    OutcomesCover(leaves);
    DisjointUnionSize(a + u, a, u);
    DisjointUnionSize(a + u + s, a + u, s);
    DisjointUnionSize(leaves.Keys, a + u + s, t);
  }

  lemma OutcomesCover(leaves: Leaves)
    ensures leaves.Keys == WithOutcome(leaves, Applied) + WithOutcome(leaves, Unresolved) +
                           WithOutcome(leaves, Stale) + WithOutcome(leaves, Technical)
  {
    hide OutcomeOf;
    forall id | id in leaves
      ensures exists o :: id in WithOutcome(leaves, o) && (o.Applied? || o.Unresolved? || o.Stale? || o.Technical?)
    {
      assert id in WithOutcome(leaves, OutcomeOf(leaves[id]));
    }
  }

  lemma UnresolvedSplitByKind(leaves: Leaves)
    requires OnlyExceptions(leaves)
    ensures |WithOutcome(leaves, Unresolved)| ==
            |UnresolvedOf(leaves, UnknownType)| + |UnresolvedOf(leaves, AmbiguousIdentity)|
  {
    forall id | id in WithOutcome(leaves, Unresolved)
      ensures id in UnresolvedOf(leaves, UnknownType) + UnresolvedOf(leaves, AmbiguousIdentity)
    {
      assert leaves[id].key.kind.UnknownType? || leaves[id].key.kind.AmbiguousIdentity?;
    }
    DisjointUnionSize(WithOutcome(leaves, Unresolved),
                      UnresolvedOf(leaves, UnknownType), UnresolvedOf(leaves, AmbiguousIdentity));
  }

  /** Two sets of leaves with one fingerprint agree on every count except how the resolved ones split
      into applied and stale, which also depends on rows the fingerprint does not bind. */
  lemma FingerprintFixesCounts(l1: Leaves, l2: Leaves)
    requires OnlyExceptions(l1) && FingerprintOf(l1) == FingerprintOf(l2)
    ensures OnlyExceptions(l2)
    ensures var c1, c2 := CountLeaves(l1), CountLeaves(l2);
            c1.eligible == c2.eligible && c1.technical == c2.technical && c1.unresolved == c2.unresolved &&
            c1.unresolvedUnknown == c2.unresolvedUnknown && c1.applied + c1.stale == c2.applied + c2.stale
  {
    assert FingerprintOf(l1).Keys == l1.Keys && FingerprintOf(l2).Keys == l2.Keys;
    forall id | id in l1 ensures l1[id].key == l2[id].key {
      assert FingerprintOf(l1)[id] == FingerprintOf(l2)[id];
    }
    SameKeysSameSets(l1, l2);
    OutcomesPartitionLeaves(l1);
    OutcomesPartitionLeaves(l2);
  }

  lemma SameKeysSameSets(l1: Leaves, l2: Leaves)
    requires l1.Keys == l2.Keys && forall id <- l1 :: l1[id].key == l2[id].key
    ensures WithOutcome(l1, Technical) == WithOutcome(l2, Technical)
    ensures WithOutcome(l1, Unresolved) == WithOutcome(l2, Unresolved)
    ensures UnresolvedOf(l1, UnknownType) == UnresolvedOf(l2, UnknownType)
  {
    forall id | id in l1
      ensures OutcomeOf(l1[id]).Technical? == OutcomeOf(l2[id]).Technical?
      ensures OutcomeOf(l1[id]).Unresolved? == OutcomeOf(l2[id]).Unresolved?
    {
    }
  }

  /** The leaves read over a batch whose evidence is `es`, joined with its exceptions only. */
  predicate LeavesOf(leaves: Leaves, es: map<nat, Evidence>, batch: string) {
    && leaves.Keys == OfBatch(es, batch) - OfState(es, batch, Validated)
    && forall id <- leaves :: leaves[id].key.kind == es[id].state
  }

  /** Conservation: the receipt of the members projection and the receipt of the resolution loop,
      counted over the same evidence rows, always reconcile. */
  lemma SameEvidenceReconciles(raw: map<nat, RawEvent>, es: map<nat, Evidence>, batch: string, leaves: Leaves)
    requires LeavesOf(leaves, es, batch)
    ensures OnlyExceptions(leaves)
    ensures ApplicationReconciled(MemberCounts(raw, es, batch), CountLeaves(leaves))
  {
    assert OfState(es, batch, Validated) <= OfBatch(es, batch);
    StatesPartitionBatch(es, batch);
    assert |leaves.Keys| == |OfBatch(es, batch)| - |OfState(es, batch, Validated)|;
    assert WithOutcome(leaves, Technical) == OfState(es, batch, MissingIdentity);
    OutcomesPartitionLeaves(leaves);
  }

  /******* The loops of applyLegacyMemberEvidenceResolutions *******/

  /** The rows of a query result, keyed by evidence id. */
  function ByEvidence(rows: seq<(nat, Leaf)>): Leaves
    requires DistinctIds(rows)
  {
    map i | 0 <= i < |rows| :: rows[i].0 := rows[i].1
  }

  /** At most one active leaf per evidence row, so the left join never repeats an id. */
  predicate DistinctIds(rows: seq<(nat, Leaf)>) {
    forall i, j :: 0 <= i < j < |rows| ==> rows[i].0 != rows[j].0
  }

  /** The rows of a keyed result in some order, as a query returns them. */
  method ToRows(leaves: Leaves) returns (rows: seq<(nat, Leaf)>)
    ensures DistinctIds(rows) && ByEvidence(rows) == leaves
  {
    var left := leaves.Keys;
    rows := [];
    while left != {}
      invariant left <= leaves.Keys && DistinctIds(rows)
      invariant forall i :: 0 <= i < |rows| ==> rows[i].0 in leaves.Keys - left && rows[i].1 == leaves[rows[i].0]
      invariant forall id <- leaves.Keys - left :: exists i :: 0 <= i < |rows| && rows[i].0 == id
      decreases left
    {
      var id :| id in left;
      ghost var before, done := rows, leaves.Keys - left;
      rows, left := rows + [(id, leaves[id])], left - {id};
      forall x | x in leaves.Keys - left ensures exists i :: 0 <= i < |rows| && rows[i].0 == x {
        if x == id {
          assert rows[|before|].0 == id;
        } else {
          assert x in done;
          var i :| 0 <= i < |before| && before[i].0 == x;
          assert rows[i].0 == x;
        }
      }
    }
    assert leaves.Keys - left == leaves.Keys;
    assert forall id :: id in ByEvidence(rows) <==> id in leaves;
  }

  lemma ByEvidencePrefix(rows: seq<(nat, Leaf)>, n: nat)
    requires DistinctIds(rows) && n < |rows|
    ensures DistinctIds(rows[..n]) && DistinctIds(rows[..n + 1])
    ensures rows[n].0 !in ByEvidence(rows[..n])
    ensures ByEvidence(rows[..n + 1]) == ByEvidence(rows[..n])[rows[n].0 := rows[n].1]
  {
    var small, big := rows[..n], rows[..n + 1];
    var left, right := ByEvidence(big), ByEvidence(small)[rows[n].0 := rows[n].1];
    forall id ensures id in left <==> id in right {
      if id in ByEvidence(small) {
        var i :| 0 <= i < n && small[i].0 == id;
        assert big[i].0 == id;
      }
      assert big[n].0 == rows[n].0;
    }
  }

  function Bit(b: bool): nat { if b then 1 else 0 }

  lemma OutcomeOneMore(leaves: Leaves, id: nat, leaf: Leaf, o: Outcome)
    requires id !in leaves
    ensures |WithOutcome(leaves[id := leaf], o)| == |WithOutcome(leaves, o)| + Bit(OutcomeOf(leaf) == o)
  {
    var before, after := WithOutcome(leaves, o), WithOutcome(leaves[id := leaf], o);
    if OutcomeOf(leaf) == o {
      assert after == before + {id};
    } else {
      assert after == before;
    }
  }

  lemma UnresolvedOneMore(leaves: Leaves, id: nat, leaf: Leaf, k: ReviewState)
    requires id !in leaves
    ensures |UnresolvedOf(leaves[id := leaf], k)| ==
            |UnresolvedOf(leaves, k)| + Bit(OutcomeOf(leaf).Unresolved? && leaf.key.kind == k)
  {
    var before, after := UnresolvedOf(leaves, k), UnresolvedOf(leaves[id := leaf], k);
    if OutcomeOf(leaf).Unresolved? && leaf.key.kind == k {
      assert after == before + {id};
    } else {
      assert after == before;
    }
  }

  /** How one more leaf moves the counts. */
  function Bump(c: ApplicationCounts, leaf: Leaf): ApplicationCounts {
    var o := OutcomeOf(leaf);
    ApplicationCounts(
      c.eligible + 1, c.applied + Bit(o.Applied?), c.unresolved + Bit(o.Unresolved?),
      c.unresolvedUnknown + Bit(o.Unresolved? && leaf.key.kind.UnknownType?),
      c.unresolvedAmbiguous + Bit(o.Unresolved? && leaf.key.kind.AmbiguousIdentity?),
      c.stale + Bit(o.Stale?), c.technical + Bit(o.Technical?))
  }

  lemma CountOneMore(leaves: Leaves, id: nat, leaf: Leaf)
    requires id !in leaves
    ensures CountLeaves(leaves[id := leaf]) == Bump(CountLeaves(leaves), leaf)
  {
    assert leaves[id := leaf].Keys == leaves.Keys + {id};
    OutcomeOneMore(leaves, id, leaf, Applied);
    OutcomeOneMore(leaves, id, leaf, Unresolved);
    OutcomeOneMore(leaves, id, leaf, Stale);
    OutcomeOneMore(leaves, id, leaf, Technical);
    UnresolvedOneMore(leaves, id, leaf, UnknownType);
    UnresolvedOneMore(leaves, id, leaf, AmbiguousIdentity);
  }

  /** One row of legacy_member_evidence_resolution_applications. */
  datatype Application = Application(resolution: nat, member: nat, typeRow: nat)

  /** Stored resolutions name a member, and a row whose type or member exists names that row. */
  predicate LeafWellFormed(leaf: Leaf) {
    && (leaf.memberExists ==> leaf.key.resolution.Some? && leaf.key.resolution.value.member.Some?)
    && (leaf.typeExists ==> leaf.key.resolution.Some? && leaf.key.resolution.value.typeRow.Some?)
  }

  function ApplicationOf(leaf: Leaf): Application
    requires LeafWellFormed(leaf) && OutcomeOf(leaf).Applied?
  {
    var r := leaf.key.resolution.value;
    Application(r.id, r.member.value, r.typeRow.value)
  }

  predicate AllWellFormed(leaves: Leaves) {
    forall id <- leaves :: LeafWellFormed(leaves[id])
  }

  /** The rows an application inserts: one per applied leaf. */
  function ApplicationsOf(leaves: Leaves): map<nat, Application>
    requires AllWellFormed(leaves)
  {
    map id | id in WithOutcome(leaves, Applied) :: ApplicationOf(leaves[id])
  }

  /** One turn of the counting loop. An unresolved leaf that is not an unknown type is counted as
      ambiguous, which is right for exceptions only. */
  method CountOne(before: ApplicationCounts, leaf: Leaf) returns (after: ApplicationCounts)
    requires !leaf.key.kind.Validated?
    ensures after == Bump(before, leaf)
  {
    after := before.(eligible := before.eligible + 1);
    var outcome := OutcomeOf(leaf);
    match outcome {
      case Applied => after := after.(applied := after.applied + 1);
      case Stale => after := after.(stale := after.stale + 1);
      case Technical => after := after.(technical := after.technical + 1);
      case Unresolved =>
        after := after.(unresolved := after.unresolved + 1);
        if leaf.key.kind.UnknownType? {
          after := after.(unresolvedUnknown := after.unresolvedUnknown + 1);
        } else {
          after := after.(unresolvedAmbiguous := after.unresolvedAmbiguous + 1);
        }
    }
  }

  lemma CountPrefix(rows: seq<(nat, Leaf)>, n: nat)
    requires DistinctIds(rows) && n < |rows| && OnlyExceptions(ByEvidence(rows))
    ensures DistinctIds(rows[..n]) && DistinctIds(rows[..n + 1])
    ensures !rows[n].1.key.kind.Validated?
    ensures CountLeaves(ByEvidence(rows[..n + 1])) == Bump(CountLeaves(ByEvidence(rows[..n])), rows[n].1)
  {
    ByEvidencePrefix(rows, n);
    CountOneMore(ByEvidence(rows[..n]), rows[n].0, rows[n].1);
    assert ByEvidence(rows)[rows[n].0] == rows[n].1;
  }

  /** The counting loop over one query result. */
  method CountOutcomes(rows: seq<(nat, Leaf)>) returns (counts: ApplicationCounts)
    requires DistinctIds(rows) && OnlyExceptions(ByEvidence(rows))
    ensures counts == CountLeaves(ByEvidence(rows))
  {
    counts := ApplicationCounts(0, 0, 0, 0, 0, 0, 0);
    for i := 0 to |rows|
      invariant DistinctIds(rows[..i])
      invariant counts == CountLeaves(ByEvidence(rows[..i]))
    {
      CountPrefix(rows, i);
      counts := CountOne(counts, rows[i].1);
    }
    assert rows[..|rows|] == rows;
  }

  /** The inserting loop: one row per applied leaf, so as many rows as the receipt's applied count. */
  method InsertApplications(rows: seq<(nat, Leaf)>) returns (inserted: map<nat, Application>)
    requires DistinctIds(rows) && AllWellFormed(ByEvidence(rows))
    ensures inserted == ApplicationsOf(ByEvidence(rows))
    ensures |inserted| == CountLeaves(ByEvidence(rows)).applied
  {
    inserted := map[];
    for i := 0 to |rows|
      invariant DistinctIds(rows[..i]) && AllWellFormed(ByEvidence(rows[..i]))
      invariant inserted == ApplicationsOf(ByEvidence(rows[..i]))
    {
      var id, leaf := rows[i].0, rows[i].1;
      ByEvidencePrefix(rows, i);
      assert ByEvidence(rows)[id] == leaf;
      ApplicationsOneMore(ByEvidence(rows[..i]), id, leaf);
      if OutcomeOf(leaf).Applied? {
        inserted := inserted[id := ApplicationOf(leaf)];
      }
    }
    assert rows[..|rows|] == rows;
    assert inserted.Keys == WithOutcome(ByEvidence(rows), Applied);
  }

  lemma ApplicationsOneMore(leaves: Leaves, id: nat, leaf: Leaf)
    requires id !in leaves && AllWellFormed(leaves) && LeafWellFormed(leaf)
    ensures AllWellFormed(leaves[id := leaf])
    ensures ApplicationsOf(leaves[id := leaf]) ==
            if OutcomeOf(leaf).Applied? then ApplicationsOf(leaves)[id := ApplicationOf(leaf)]
            else ApplicationsOf(leaves)
  {
  }
}

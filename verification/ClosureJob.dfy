/** The closure job: gated phases in a fixed order, then the reconciliation of their receipts
  (apps/api/src/jobs/socios-evidence-closure.ts).

  What the job asks of the outside (was it cancelled, was the lease renewed, what did each phase
  return) is `Answers`; what it does, in order, is the trace of `Step`s it leaves.
 */
module ClosureJob {
  import opened Common
  import opened ClosureEvidence
  import ClosureLease
  import ClosurePhases
  import ClosureGuarantees

  /** Answers at one gate: the two cancellation checks and the renewal between them. */
  datatype Gate = Gate(cancelledBefore: bool, renewed: bool, cancelledAfter: bool)

  datatype Phase = Catalog | CandidatesRun | MembersRun | ApplyRun | LastCheck

  datatype Step = Checked(cancelled: bool) | Renewed(ok: bool) | Ran(phase: Phase)

  /** `catalog` is whether the phase returned. `application` is None when the metadata asks for no
      resolution application, Some(None) when the phase threw. */
  datatype Answers = Answers(
    gates: Phase -> Gate, catalog: bool, candidates: Option<PhaseCounts>, members: Option<PhaseCounts>,
    application: Option<Option<ApplicationCounts>>)

  datatype JobStatus = Succeeded | CompletedWithReview

  datatype JobResult = JobResult(status: JobStatus, members: PhaseCounts, application: Option<ApplicationCounts>)

  predicate Opens(g: Gate) { !g.cancelledBefore && g.renewed && !g.cancelledAfter }

  /** The gates are passed in this order. */
  function Plan(a: Answers): seq<Phase> {
    [Catalog, CandidatesRun, MembersRun] + if a.application.Some? then [ApplyRun, LastCheck] else []
  }

  /** Exactly when the job returns a result rather than throwing. */
  predicate Completes(a: Answers) {
    && (forall p <- Plan(a) :: Opens(a.gates(p)))
    && a.catalog && a.candidates.Some? && a.members.Some?
    && Reconciled(a.candidates.value) && Reconciled(a.members.value)
    && (a.application.None? ==> a.members.value.missing == 0)
    && (a.application.Some? ==>
          && a.application.value.Some? && ApplicationReconciled(a.members.value, a.application.value.value)
          && a.application.value.value.stale == 0 && a.application.value.value.technical == 0)
  }

  function PhasesIn(trace: seq<Step>): seq<Phase> {
    if trace == [] then []
    else PhasesIn(trace[..|trace| - 1]) + match trace[|trace| - 1] case Ran(p) => [p] case _ => []
  }

  /** Every phase starts right after: not cancelled, lease renewed, not cancelled. */
  predicate Gated(trace: seq<Step>) {
    forall i :: 0 <= i < |trace| && trace[i].Ran? ==> JustPassed(trace[..i])
  }

  predicate JustPassed(trace: seq<Step>) {
    var n := |trace|;
    n >= 3 && trace[n - 3] == Checked(false) && trace[n - 2] == Renewed(true) && trace[n - 1] == Checked(false)
  }

  /** What a gate is, step by step: right before a phase runs the job was found not cancelled, then renewed
      its lease, then was found not cancelled again. */
  lemma EveryPhaseIsGated(trace: seq<Step>, i: nat)
    requires Gated(trace) && i < |trace| && trace[i].Ran?
    ensures i >= 3 && trace[i - 3] == Checked(false) && trace[i - 2] == Renewed(true) && trace[i - 1] == Checked(false)
  {
    assert JustPassed(trace[..i]);
  }

  lemma OneMoreStep(trace: seq<Step>, step: Step)
    ensures PhasesIn(trace + [step]) == PhasesIn(trace) + if step.Ran? then [step.phase] else []
  {
    assert (trace + [step])[..|trace|] == trace;
  }

  class ClosureRun {
    const answers: Answers
    var trace: seq<Step>

    constructor (answers: Answers)
      ensures this.answers == answers && trace == []
    {
      this.answers, trace := answers, [];
    }

    method Record(step: Step)
      requires Gated(trace) && (step.Ran? ==> JustPassed(trace))
      modifies this
      ensures Gated(trace) && trace == old(trace) + [step]
      ensures PhasesIn(trace) == PhasesIn(old(trace)) + if step.Ran? then [step.phase] else []
    {
      OneMoreStep(trace, step);
      trace := trace + [step];
    }

    /** The gate of a phase; true when the phase's work starts. */
    method Enter(p: Phase) returns (started: bool)
      requires Gated(trace)
      modifies this
      ensures Gated(trace)
      ensures started <==> Opens(answers.gates(p))
      ensures PhasesIn(trace) == PhasesIn(old(trace)) + if started then [p] else []
    {
      hide Gated, PhasesIn;
      var g := answers.gates(p);
      Record(Checked(g.cancelledBefore));
      if g.cancelledBefore {
        return false;
      }
      Record(Renewed(g.renewed));
      if !g.renewed {
        return false;
      }
      Record(Checked(g.cancelledAfter));
      if g.cancelledAfter {
        return false;
      }
      Record(Ran(p));
      return true;
    }

    /** The three phases that every closure runs. */
    method CollectReceipts() returns (r: Option<PhaseCounts>)
      requires trace == []
      modifies this
      ensures Gated(trace) && PhasesIn(trace) <= [Catalog, CandidatesRun, MembersRun]
      ensures r.Some? <==>
                && Opens(answers.gates(Catalog)) && Opens(answers.gates(CandidatesRun)) && Opens(answers.gates(MembersRun))
                && answers.catalog && answers.candidates.Some? && answers.members.Some?
                && Reconciled(answers.candidates.value) && Reconciled(answers.members.value)
      ensures r.Some? ==> r == answers.members && PhasesIn(trace) == [Catalog, CandidatesRun, MembersRun]
    {
      r := None;
      var started := Enter(Catalog);
      if !started || !answers.catalog {
        return;
      }
      started := Enter(CandidatesRun);
      if !started || answers.candidates.None? {
        return;
      }
      started := Enter(MembersRun);
      if !started || answers.members.None? {
        return;
      }
      if !Reconciled(answers.candidates.value) || !Reconciled(answers.members.value) {
        return;
      }
      r := answers.members;
    }

    /** The whole job: phases run in the planned order and each behind its gate, and it completes exactly
        when every gate opened, every phase returned and the receipts leave nothing unaccounted for. */
    method RunSociosEvidenceClosure() returns (r: Option<JobResult>)
      requires trace == []
      modifies this
      ensures Gated(trace) && PhasesIn(trace) <= Plan(answers)
      ensures r.Some? <==> Completes(answers)
      ensures r.Some? ==> PhasesIn(trace) == Plan(answers) && r == Some(ResultOf(answers))
    {
      r := None;
      var collected := CollectReceipts();
      if collected.None? {
        return;
      }
      var members := collected.value;
      if answers.application.Some? {
        var started := Enter(ApplyRun);
        if !started || answers.application.value.None? {
          return;
        }
        var application := answers.application.value.value;
        if !ApplicationReconciled(members, application) || application.stale > 0 || application.technical > 0 {
          return;
        }
        var status := if application.unresolved > 0 then CompletedWithReview else Succeeded;
        started := Enter(LastCheck);
        if !started {
          return;
        }
        r := Some(JobResult(status, members, Some(application)));
      } else {
        if members.missing > 0 {
          return;
        }
        var status := if members.exceptions > 0 then CompletedWithReview else Succeeded;
        r := Some(JobResult(status, members, None));
      }
    }
  }

  /** When a job completes, spelled out: at each of its gates it was found not cancelled, renewed its lease and
      was found not cancelled again; its catalog, candidates and members phases returned, and both receipts
      balance; without an application no row may lack a member identity; with one, it returned, counts
      exactly the exceptions of the members receipt, and leaves nothing stale or technical. */
  lemma CompletesIff(a: Answers)
    ensures Plan(a) == [Catalog, CandidatesRun, MembersRun] + if a.application.Some? then [ApplyRun, LastCheck] else []
    ensures Completes(a) <==>
              && (forall p: Phase :: p.Catalog? || p.CandidatesRun? || p.MembersRun? || a.application.Some? ==>
                    !a.gates(p).cancelledBefore && a.gates(p).renewed && !a.gates(p).cancelledAfter)
              && a.catalog && a.candidates.Some? && a.members.Some?
              && var c, m := a.candidates.value, a.members.value;
                 && c.eligible == c.projected + c.exceptions && c.exceptions == c.unknownType + c.ambiguous + c.missing
                 && m.eligible == m.projected + m.exceptions && m.exceptions == m.unknownType + m.ambiguous + m.missing
                 && match a.application
                    case None => m.missing == 0
                    case Some(None) => false
                    case Some(Some(x)) =>
                      && x.eligible == m.exceptions && x.technical == m.missing
                      && x.unresolved == x.unresolvedUnknown + x.unresolvedAmbiguous
                      && x.eligible == x.applied + x.unresolved + x.stale + x.technical
                      && x.stale == 0 && x.technical == 0
  {
    assert Plan(a) == if a.application.Some? then [Catalog, CandidatesRun, MembersRun, ApplyRun, LastCheck]
                      else [Catalog, CandidatesRun, MembersRun];
    forall p: Phase ensures p in Plan(a) <==> p.Catalog? || p.CandidatesRun? || p.MembersRun? || a.application.Some? {
      match p
      case ApplyRun =>
      case LastCheck =>
      case _ =>
    }
    hide Plan;
    assert (forall p <- Plan(a) :: Opens(a.gates(p))) <==>
           forall p: Phase :: p.Catalog? || p.CandidatesRun? || p.MembersRun? || a.application.Some? ==> Opens(a.gates(p));
  }

  function ResultOf(a: Answers): JobResult
    requires Completes(a)
  {
    match a.application
    case Some(Some(c)) => JobResult(if c.unresolved > 0 then CompletedWithReview else Succeeded, a.members.value, Some(c))
    case _ => JobResult(if a.members.value.exceptions > 0 then CompletedWithReview else Succeeded, a.members.value, None)
  }

  /** Conservation: with an application the eligible rows are exactly the projected, the applied and the
      unresolved ones; without one they are the projected and the unknown or ambiguous. The job reports
      success iff every eligible row was projected or applied. */
  lemma ResultAccountsForEveryRow(a: Answers)
    requires Completes(a)
    ensures var r := ResultOf(a);
            && r.members.missing == 0
            && (r.application.Some? ==>
                  var c := r.application.value;
                  && r.members.eligible == r.members.projected + c.applied + c.unresolved
                  && (r.status.Succeeded? <==> r.members.eligible == r.members.projected + c.applied))
            && (r.application.None? ==>
                  && r.members.eligible == r.members.projected + r.members.unknownType + r.members.ambiguous
                  && (r.status.Succeeded? <==> r.members.eligible == r.members.projected))
  {
  }

  /** A result with an application is the one that the resolution receipt allows: given the receipts the
      phases really produce, the reconciliation of the two never fails, and the job behind open gates
      completes iff no resolution is stale and no row of the batch lacks a member identity. */
  lemma RealReceiptsCompleteIff(
    input: ClosurePhases.Input, s: ClosurePhases.Sys, events: seq<ClosurePhases.Event>, w: nat, x: string, batch: string,
    a: Answers)
    requires ClosurePhases.Inv(input, s) && ClosurePhases.Key(x, ClosurePhases.MembersPhase) in s.db.receipts
    requires s.db.receipts[ClosurePhases.Key(x, ClosurePhases.MembersPhase)].batch == batch
    requires w in s.workers && s.workers[w].Reading? && s.workers[w].call.Apply? && s.workers[w].call.batch == batch
    requires forall i :: 0 <= i < |events| && events[i].Start? ==> events[i].worker != w
    requires var t := ClosurePhases.Run(input, s, events); w in t.workers && t.workers[w].Returned?
    requires forall p <- Plan(a) :: Opens(a.gates(p))
    requires a.catalog && a.candidates.Some? && Reconciled(a.candidates.value)
    requires a.members.Some? && a.application.Some? && a.application.value.Some?
    requires var m, r := s.db.receipts[ClosurePhases.Key(x, ClosurePhases.MembersPhase)],
                         ClosurePhases.Run(input, s, events).workers[w].receipt;
             && (m.PhaseReceipt? ==> a.members.value == m.counts)
             && (r.ApplicationReceipt? ==> a.application.value.value == r.applied)
    ensures Completes(a) <==> a.application.value.value.stale == 0 && a.members.value.missing == 0
  {
    hide ClosurePhases.Next, ClosurePhases.Run;
    ClosureGuarantees.ApplicationAlwaysReconciles(input, s, events, w, x, batch);
    ClosureGuarantees.MembersReceiptStaysTrue(input, s, [], x);
  }

  /** What a job takes from the receipts of the workers that ran its phases; `application` is None when
      its metadata asks for no resolution application. */
  predicate TakesFrom(a: Answers, s: ClosurePhases.Sys, members: nat, application: Option<nat>) {
    && members in s.workers && s.workers[members].Returned? && s.workers[members].receipt.PhaseReceipt?
    && a.members == Some(s.workers[members].receipt.counts)
    && match application
       case None => a.application == None
       case Some(p) =>
         && p in s.workers && s.workers[p].Returned? && s.workers[p].receipt.ApplicationReceipt?
         && a.application == Some(Some(s.workers[p].receipt.applied))
  }

  /** Crashes, retries and overlapping runs cannot disagree: two jobs with one execution identity, both
      with or both without a resolution application, that complete return the same result whenever their
      phases returned. */
  lemma RerunsAgree(
    input: ClosurePhases.Input, s: ClosurePhases.Sys, events: seq<ClosurePhases.Event>, later: seq<ClosurePhases.Event>,
    m1: nat, p1: Option<nat>, m2: nat, p2: Option<nat>, a1: Answers, a2: Answers)
    requires ClosurePhases.Inv(input, s)
    requires var t1, t2 := ClosurePhases.Run(input, s, events), ClosurePhases.Run(input, s, events + later);
             && TakesFrom(a1, t1, m1, p1) && TakesFrom(a2, t2, m2, p2)
             && ClosurePhases.KeyOf(t1.workers[m1].call) == ClosurePhases.KeyOf(t2.workers[m2].call)
             && (p1.Some? <==> p2.Some?)
             && (p1.Some? ==>
                   ClosurePhases.KeyOf(t1.workers[p1.value].call) == ClosurePhases.KeyOf(t2.workers[p2.value].call))
    requires Completes(a1) && Completes(a2)
    ensures ResultOf(a1) == ResultOf(a2)
  {
    hide ClosurePhases.Next, ClosurePhases.Run, ClosurePhases.Inv, Completes;
    ClosureGuarantees.ReturnsTheCommittedReceipt(input, s, events, later, m1, m2);
    if p1.Some? {
      ClosureGuarantees.ReturnsTheCommittedReceipt(input, s, events, later, p1.value, p2.value);
    }
  }

  /******* The lease and the job together *******/

  /** How many renewals the job has asked for in its first `n` steps. */
  function RenewalsAsked(trace: seq<Step>, n: nat): nat
    requires n <= |trace|
  {
    if n == 0 then 0 else RenewalsAsked(trace, n - 1) + if trace[n - 1].Renewed? then 1 else 0
  }

  /** `at[k]` is where, in a run of the lease table, the job's k-th renewal was executed. */
  ghost predicate RenewsIn(trace: seq<Step>, ops: seq<ClosureLease.Op>, at: seq<nat>,
                           key: string, owner: string, fence: nat) {
    && |at| == RenewalsAsked(trace, |trace|)
    && (forall k :: 0 <= k < |at| ==>
          && at[k] < |ops| && ops[at[k]].Renew? && ops[at[k]].key == key
          && ops[at[k]].owner == owner && ops[at[k]].fence == fence)
    && (forall i :: 0 <= i < |trace| && trace[i].Renewed? && RenewalsAsked(trace, i) < |at| ==>
          (trace[i].ok <==>
             ClosureLease.Succeeds(ClosureLease.TableAt(map[], ops, at[RenewalsAsked(trace, i)]),
                                   ops[at[RenewalsAsked(trace, i)]])))
  }

  lemma {:induction false} RenewalsGrow(trace: seq<Step>, i: nat, j: nat)
    requires i <= j <= |trace|
    ensures RenewalsAsked(trace, i) <= RenewalsAsked(trace, j)
    decreases j - i
  {
    if i < j {
      RenewalsGrow(trace, i, j - 1);
    }
  }

  /** Every phase starts right after a renewal that lies inside the holding interval of the job's own
      fence: at that instant all holds of other fences have ended or have not begun. Every grantee's own
      clock must not go back; nothing is asked of the clocks of different jobs. */
  lemma PhasesStartInsideOwnHold(trace: seq<Step>, ops: seq<ClosureLease.Op>, at: seq<nat>,
                                 key: string, owner: string, fence: nat, i: nat)
    requires Gated(trace) && ClosureLease.OwnClocks(ops, key) && RenewsIn(trace, ops, at, key, owner, fence)
    requires i < |trace| && trace[i].Ran?
    ensures i >= 2 && trace[i - 2] == Renewed(true) && RenewalsAsked(trace, i - 2) < |at|
    ensures var now, hs := ops[at[RenewalsAsked(trace, i - 2)]].now, ClosureLease.Holds(ops, key, |ops|);
            && 1 <= fence <= |hs|
            && hs[fence - 1].owner == owner && hs[fence - 1].from <= now <= hs[fence - 1].until
            && (forall k :: 0 <= k < fence - 1 ==> hs[k].until <= now)
            && (forall k :: fence <= k < |hs| ==> now <= hs[k].from)
  {
    RenewalsGrow(trace, i - 1, |trace|);
    var k := RenewalsAsked(trace, i - 2);
    assert trace[i - 2].Renewed? && k < |at|;
    ClosureLease.RenewalIsInsideOwnHold(ops, key, at[k]);
  }
}

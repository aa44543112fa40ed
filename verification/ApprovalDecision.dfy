/** Deciding approval requests while others decide, consume, execute or clean up
  (packages/approval/src/service.ts, apps/api/src/routes/approval.ts).

  A decide call is a transaction of up to three statements: it reads the request, updates it under the
  guard "still pending", and, if the guard found no row, reads it again. Its update keeps the row locked
  until the route's transaction commits or rolls back. Condonation and community-work requests are
  decided by the same steps and differ only in what makes two decisions the same.
 */
module ApprovalDecision {
  import opened Common

  datatype Kind = Condonation | CommunityWork | OtherAction

  datatype Status = Pending | Approved | Rejected | Expired

  /** The columns that a decision writes, all in one statement. */
  datatype Decision = Decision(
    verdict: Status, decider: nat, reason: string, evidence: string, fingerprint: Option<string>,
    at: int, executionId: Option<nat>)

  datatype Row = Row(
    kind: Kind, requester: nat, expiresAt: int, status: Status, usedAt: Option<int>, decision: Option<Decision>)

  datatype Call = Call(
    kind: Kind, id: nat, actor: nat, approve: bool, reason: string, evidence: string, fingerprint: Option<string>)

  datatype Error = NotFound | InsufficientPermissions | Conflict | LinkExpired | RolledBack

  datatype Pc =
    | Reading(call: Call)
    | Updating(call: Call)
    | Holding(call: Call, draft: Row)
    | Rereading(call: Call)
    | Decided(call: Call, row: Row)
    | Refused(call: Call, error: Error)
    | Viewing(id: nat)
    | Consuming(id: nat)
    | PublicDone(id: nat, consumed: bool)

  /** `log` is history: the decision committed for each request. `known` are all ids ever used. */
  datatype Sys = Sys(rows: map<nat, Row>, workers: map<nat, Pc>, log: map<nat, Decision>, known: set<nat>)

  datatype Event =
    | Insert(id: nat, kind: Kind, requester: nat, expiresAt: int)
    | Decide(worker: nat, call: Call)
    | Post(worker: nat, id: nat)
    | Step(worker: nat, now: int, uuid: nat)
    | Abort(worker: nat)
    | Execute(id: nat, execution: nat, actor: nat, now: int)
    | Purge(id: nat)

  predicate Treasury(k: Kind) { k.Condonation? || k.CommunityWork? }

  function VerdictOf(call: Call): Status { if call.approve then Approved else Rejected }

  /** isExactDecision and isExactCommunityWorkDecision. */
  predicate IsExact(row: Row, call: Call) {
    && row.status == VerdictOf(call) && row.decision.Some?
    && row.decision.value.decider == call.actor && row.decision.value.reason == call.reason
    && row.decision.value.evidence == call.evidence
    && (call.kind.CommunityWork? ==> row.decision.value.fingerprint == call.fingerprint)
  }

  predicate Open(row: Row) { row.status.Pending? && row.decision.None? && row.usedAt.None? }

  function WithDecision(row: Row, call: Call, now: int, uuid: nat): Row {
    row.(status := VerdictOf(call),
         decision := Some(Decision(VerdictOf(call), call.actor, call.reason, call.evidence,
                                   if call.kind.CommunityWork? then call.fingerprint else None,
                                   now, if call.approve then Some(uuid) else None)))
  }

  function Read(rows: map<nat, Row>, call: Call, now: int): Pc {
    if call.id !in rows || rows[call.id].kind != call.kind then Refused(call, NotFound)
    else
      var row := rows[call.id];
      if row.requester == call.actor then Refused(call, InsufficientPermissions)
      else if !Open(row) then if IsExact(row, call) then Decided(call, row) else Refused(call, Conflict)
      else if row.expiresAt <= now then Refused(call, LinkExpired)
      else Updating(call)
  }

  function Update(rows: map<nat, Row>, call: Call, now: int, uuid: nat): Pc {
    if call.id in rows && Open(rows[call.id]) && rows[call.id].expiresAt > now
    then Holding(call, WithDecision(rows[call.id], call, now, uuid))
    else Rereading(call)
  }

  function Reread(rows: map<nat, Row>, call: Call): Pc {
    if call.id in rows && IsExact(rows[call.id], call) then Decided(call, rows[call.id]) else Refused(call, Conflict)
  }

  /** The public token route looks at the row first and refuses treasury requests. */
  function View(rows: map<nat, Row>, id: nat, now: int): Pc {
    if id in rows && rows[id].usedAt.None? && rows[id].expiresAt > now && !Treasury(rows[id].kind)
    then Consuming(id) else PublicDone(id, false)
  }

  /** The execution of a decision: by its decider, under its execution id, once and before it expires. */
  predicate Executable(row: Row, execution: nat, actor: nat, now: int) {
    && Treasury(row.kind) && row.status.Approved? && row.usedAt.None? && row.expiresAt > now
    && row.decision.Some? && row.decision.value.executionId == Some(execution) && row.decision.value.decider == actor
  }

  predicate Locked(s: Sys, id: nat) {
    exists w :: w in s.workers && s.workers[w].Holding? && s.workers[w].call.id == id
  }

  predicate Running(pc: Pc) {
    pc.Reading? || pc.Updating? || pc.Holding? || pc.Rereading? || pc.Viewing? || pc.Consuming?
  }

  function Aborted(pc: Pc): Pc {
    match pc
    case Viewing(id) => PublicDone(id, false)
    case Consuming(id) => PublicDone(id, false)
    case PublicDone(_, _) => pc
    case Decided(_, _) => pc
    case Refused(_, _) => pc
    case _ => Refused(pc.call, RolledBack)
  }

  ghost function StepOf(s: Sys, w: nat, now: int, uuid: nat): Sys
    requires w in s.workers
  {
    match s.workers[w]
    case Reading(call) => s.(workers := s.workers[w := Read(s.rows, call, now)])
    case Updating(call) =>
      if Locked(s, call.id) then s else s.(workers := s.workers[w := Update(s.rows, call, now, uuid)])
    case Holding(call, draft) =>
      s.(rows := s.rows[call.id := draft], workers := s.workers[w := Decided(call, draft)],
         log := if draft.decision.Some? then s.log[call.id := draft.decision.value] else s.log)
    case Rereading(call) => s.(workers := s.workers[w := Reread(s.rows, call)])
    case Viewing(id) => s.(workers := s.workers[w := View(s.rows, id, now)])
    case Consuming(id) =>
      if Locked(s, id) then s
      else if id in s.rows && s.rows[id].usedAt.None?
      then s.(rows := s.rows[id := s.rows[id].(usedAt := Some(now), status := Approved)],
              workers := s.workers[w := PublicDone(id, true)])
      else s.(workers := s.workers[w := PublicDone(id, false)])
    case _ => s
  }

  ghost function Next(s: Sys, e: Event): Sys {
    match e
    case Insert(id, kind, requester, expiresAt) =>
      if id in s.known then s
      else s.(rows := s.rows[id := Row(kind, requester, expiresAt, Pending, None, None)], known := s.known + {id})
    case Decide(w, call) =>
      if !Treasury(call.kind) || (w in s.workers && Running(s.workers[w])) then s
      else s.(workers := s.workers[w := Reading(call)])
    case Post(w, id) =>
      if w in s.workers && Running(s.workers[w]) then s else s.(workers := s.workers[w := Viewing(id)])
    case Step(w, now, uuid) => if w in s.workers then StepOf(s, w, now, uuid) else s
    case Abort(w) => if w in s.workers then s.(workers := s.workers[w := Aborted(s.workers[w])]) else s
    case Execute(id, execution, actor, now) =>
      if Locked(s, id) || id !in s.rows || !Executable(s.rows[id], execution, actor, now) then s
      else s.(rows := s.rows[id := s.rows[id].(usedAt := Some(now))])
    case Purge(id) => if Locked(s, id) then s else s.(rows := s.rows - {id})
  }

  ghost function Run(s: Sys, events: seq<Event>): Sys {
    if events == [] then s else Next(Run(s, events[..|events| - 1]), events[|events| - 1])
  }

  function Initial(): Sys { Sys(map[], map[], map[], {}) }

  /******* Invariant *******/

  /** What every committed decision satisfies, in terms of its request. */
  predicate Sound(row: Row, d: Decision) {
    && d.decider != row.requester && d.at < row.expiresAt && (d.verdict.Approved? || d.verdict.Rejected?)
    && (d.executionId.Some? <==> d.verdict.Approved?)
  }

  predicate RowOk(s: Sys, id: nat)
    requires id in s.rows
  {
    var row := s.rows[id];
    Treasury(row.kind) ==>
      && (row.decision.Some? <==> id in s.log)
      && (row.decision.Some? ==>
            row.decision.value == s.log[id] && row.status == row.decision.value.verdict && Sound(row, row.decision.value))
      && (row.decision.None? ==> Open(row))
  }

  /** A row still shows what a decide call saw of it, if it is still there. */
  predicate Reachable(s: Sys, call: Call) {
    && Treasury(call.kind) && call.id in s.known
    && (call.id in s.rows ==> s.rows[call.id].kind == call.kind && s.rows[call.id].requester != call.actor)
  }

  predicate WorkerOk(s: Sys, w: nat)
    requires w in s.workers
  {
    match s.workers[w]
    case Reading(call) => Treasury(call.kind)
    case Updating(call) => Reachable(s, call)
    case Holding(call, draft) =>
      && Reachable(s, call) && call.id in s.rows && Open(s.rows[call.id]) && draft.decision.Some?
      && draft == s.rows[call.id].(status := draft.decision.value.verdict, decision := draft.decision)
      && Sound(draft, draft.decision.value) && IsExact(draft, call)
    case Rereading(call) => Reachable(s, call)
    case Decided(call, row) =>
      && row.decision.Some? && call.id in s.log && s.log[call.id] == row.decision.value && IsExact(row, call)
      && row.status == row.decision.value.verdict
    case Consuming(id) => id in s.known && (id in s.rows ==> !Treasury(s.rows[id].kind))
    case _ => true
  }

  predicate HoldSameRow(a: Pc, b: Pc) {
    a.Holding? && b.Holding? && a.call.id == b.call.id
  }

  predicate Inv(s: Sys) {
    && s.log.Keys <= s.known && s.rows.Keys <= s.known
    && (forall id {:trigger RowOk(s, id)} :: id in s.rows ==> RowOk(s, id))
    && (forall w {:trigger WorkerOk(s, w)} :: w in s.workers ==> WorkerOk(s, w))
    && (forall v, w :: v in s.workers && w in s.workers && HoldSameRow(s.workers[v], s.workers[w]) ==> v == w)
  }

  lemma InitialInv()
    ensures Inv(Initial())
  {
  }

  /** A step that changes only where worker `w` stands. */
  lemma MovesInv(s: Sys, w: nat, pc: Pc)
    requires Inv(s) && WorkerOk(s.(workers := s.workers[w := pc]), w)
    requires pc.Holding? ==> !Locked(s, pc.call.id)
    ensures Inv(s.(workers := s.workers[w := pc]))
  {
    var t := s.(workers := s.workers[w := pc]);
    forall id | id in t.rows ensures RowOk(t, id) {
      assert RowOk(s, id);
    }
    forall v | v in t.workers ensures WorkerOk(t, v) {
      if v != w {
        assert WorkerOk(s, v);
      }
    }
  }

  /** A step that changes one row that no worker holds, without touching its decision. */
  lemma RowInv(s: Sys, id: nat, row: Row)
    requires Inv(s) && !Locked(s, id)
    requires id in s.rows ==> row.kind == s.rows[id].kind && row.requester == s.rows[id].requester
    requires id !in s.rows ==> id !in s.known
    requires RowOk(s.(rows := s.rows[id := row], known := s.known + {id}), id)
    ensures Inv(s.(rows := s.rows[id := row], known := s.known + {id}))
  {
    var t := s.(rows := s.rows[id := row], known := s.known + {id});
    forall x | x in t.rows ensures RowOk(t, x) {
      if x != id {
        assert RowOk(s, x);
      }
    }
    forall v | v in t.workers ensures WorkerOk(t, v) {
      assert WorkerOk(s, v);
    }
  }

  lemma CommitInv(s: Sys, w: nat)
    requires Inv(s) && w in s.workers && s.workers[w].Holding?
    ensures s.workers[w].call.id !in s.log
    ensures Inv(StepOf(s, w, 0, 0))
  {
    assert WorkerOk(s, w);
    var call, draft := s.workers[w].call, s.workers[w].draft;
    assert RowOk(s, call.id);
    var t := StepOf(s, w, 0, 0);
    forall x | x in t.rows ensures RowOk(t, x) {
      if x != call.id {
        assert RowOk(s, x);
      }
    }
    forall v | v in t.workers ensures WorkerOk(t, v) {
      if v != w {
        assert WorkerOk(s, v);
      }
    }
  }

  lemma DecideStepInv(s: Sys, w: nat, now: int, uuid: nat)
    requires Inv(s) && w in s.workers && (s.workers[w].Reading? || s.workers[w].Updating? || s.workers[w].Rereading?)
    ensures Inv(StepOf(s, w, now, uuid))
  {
    assert WorkerOk(s, w);
    var call := s.workers[w].call;
    if call.id in s.rows {
      assert RowOk(s, call.id);
    }
    match s.workers[w]
    case Reading(_) => MovesInv(s, w, Read(s.rows, call, now));
    case Updating(_) =>
      if !Locked(s, call.id) {
        MovesInv(s, w, Update(s.rows, call, now, uuid));
      }
    case Rereading(_) => MovesInv(s, w, Reread(s.rows, call));
  }

  lemma PublicStepInv(s: Sys, w: nat, now: int, uuid: nat)
    requires Inv(s) && w in s.workers && (s.workers[w].Viewing? || s.workers[w].Consuming?)
    ensures Inv(StepOf(s, w, now, uuid))
  {
    assert WorkerOk(s, w);
    var id := s.workers[w].id;
    if id in s.rows {
      assert RowOk(s, id);
    }
    if s.workers[w].Viewing? {
      MovesInv(s, w, View(s.rows, id, now));
    } else if !Locked(s, id) {
      MovesInv(s, w, PublicDone(id, false));
      MovesInv(s, w, PublicDone(id, true));
      if id in s.rows && s.rows[id].usedAt.None? {
        var m := s.(workers := s.workers[w := PublicDone(id, true)]);
        RowInv(m, id, s.rows[id].(usedAt := Some(now), status := Approved));
        assert m.known + {id} == m.known;
      }
    }
  }

  lemma PurgeInv(s: Sys, id: nat)
    requires Inv(s) && !Locked(s, id)
    ensures Inv(s.(rows := s.rows - {id}))
  {
    var t := s.(rows := s.rows - {id});
    forall x | x in t.rows ensures RowOk(t, x) {
      assert RowOk(s, x);
    }
    forall v | v in t.workers ensures WorkerOk(t, v) {
      assert WorkerOk(s, v);
    }
  }

  lemma UnknownIsUnlocked(s: Sys, id: nat)
    requires Inv(s) && id !in s.known
    ensures !Locked(s, id)
  {
    forall w | w in s.workers ensures !(s.workers[w].Holding? && s.workers[w].call.id == id) {
      assert WorkerOk(s, w);
    }
  }

  lemma NextInv(s: Sys, e: Event)
    requires Inv(s)
    ensures Inv(Next(s, e))
  {
    match e
    case Insert(id, kind, requester, expiresAt) =>
      if id !in s.known {
        UnknownIsUnlocked(s, id);
        RowInv(s, id, Row(kind, requester, expiresAt, Pending, None, None));
      }
    case Decide(w, call) => if Treasury(call.kind) { MovesInv(s, w, Reading(call)); }
    case Post(w, id) => MovesInv(s, w, Viewing(id));
    case Step(w, now, uuid) => if w in s.workers { StepInv(s, w, now, uuid); }
    case Abort(w) =>
      if w in s.workers {
        assert WorkerOk(s, w);
        MovesInv(s, w, Aborted(s.workers[w]));
      }
    case Execute(id, execution, actor, now) =>
      if !Locked(s, id) && id in s.rows && Executable(s.rows[id], execution, actor, now) {
        assert RowOk(s, id);
        RowInv(s, id, s.rows[id].(usedAt := Some(now)));
        assert s.known + {id} == s.known;
      }
    case Purge(id) => if !Locked(s, id) { PurgeInv(s, id); }
  }

  lemma StepInv(s: Sys, w: nat, now: int, uuid: nat)
    requires Inv(s) && w in s.workers
    ensures Inv(StepOf(s, w, now, uuid))
  {
    match s.workers[w]
    case Reading(_) => DecideStepInv(s, w, now, uuid);
    case Updating(_) => DecideStepInv(s, w, now, uuid);
    case Rereading(_) => DecideStepInv(s, w, now, uuid);
    case Holding(_, _) => CommitInv(s, w);
    case Viewing(_) => PublicStepInv(s, w, now, uuid);
    case Consuming(_) => PublicStepInv(s, w, now, uuid);
    case _ =>
  }

  lemma {:induction false} RunInv(s: Sys, events: seq<Event>)
    requires Inv(s)
    ensures Inv(Run(s, events))
  {
    if events != [] {
      RunInv(s, events[..|events| - 1]);
      NextInv(Run(s, events[..|events| - 1]), events[|events| - 1]);
    }
  }

  /******* Guarantees *******/

  /** Whatever is done, a step commits a decision only as the COMMIT of a worker whose request had none,
      and it keeps every decision committed before. */
  lemma StepWritesOneDecision(s: Sys, e: Event)
    requires Inv(s)
    ensures forall id <- s.log :: id in Next(s, e).log && Next(s, e).log[id] == s.log[id]
    ensures Next(s, e).log != s.log ==>
              && e.Step? && e.worker in s.workers && s.workers[e.worker].Holding?
              && var pc := s.workers[e.worker];
                 pc.call.id !in s.log && Next(s, e).log == s.log[pc.call.id := pc.draft.decision.value]
  {
    if e.Step? && e.worker in s.workers && s.workers[e.worker].Holding? {
      assert WorkerOk(s, e.worker);
      CommitInv(s, e.worker);
    }
  }

  /** At most one decision is ever written for a request, and it never changes. */
  lemma {:induction false} DecisionIsPermanent(s: Sys, events: seq<Event>, id: nat)
    requires Inv(s) && id in s.log
    ensures id in Run(s, events).log && Run(s, events).log[id] == s.log[id]
  {
    if events != [] {
      DecisionIsPermanent(s, events[..|events| - 1], id);
      RunInv(s, events[..|events| - 1]);
      StepWritesOneDecision(Run(s, events[..|events| - 1]), events[|events| - 1]);
    }
  }

  lemma {:induction false} RunAppends(s: Sys, a: seq<Event>, b: seq<Event>)
    ensures Run(s, a + b) == Run(Run(s, a), b)
  {
    if b == [] {
      assert a + b == a;
    } else {
      RunAppends(s, a, b[..|b| - 1]);
      assert (a + b)[..|a + b| - 1] == a + b[..|b| - 1];
    }
  }

  /** Every successful decide call, at any time, sees exactly the one decision of its request; so any two of
      them, however far apart, asked for the same. */
  lemma SuccessesAgree(events: seq<Event>, later: seq<Event>, v: nat, w: nat)
    requires v in Run(Initial(), events).workers && Run(Initial(), events).workers[v].Decided?
    requires w in Run(Initial(), events + later).workers && Run(Initial(), events + later).workers[w].Decided?
    requires Run(Initial(), events).workers[v].call.id == Run(Initial(), events + later).workers[w].call.id
    ensures var a, b := Run(Initial(), events).workers[v], Run(Initial(), events + later).workers[w];
            && a.row.decision.Some? && a.row.decision == b.row.decision
            && a.call.actor == b.call.actor && a.call.approve == b.call.approve
            && a.call.reason == b.call.reason && a.call.evidence == b.call.evidence
  {
    hide Next;
    InitialInv();
    RunInv(Initial(), events);
    RunInv(Initial(), events + later);
    RunAppends(Initial(), events, later);
    var s1, s2 := Run(Initial(), events), Run(Initial(), events + later);
    assert WorkerOk(s1, v) && WorkerOk(s2, w);
    DecisionIsPermanent(s1, later, s1.workers[v].call.id);
  }

  /** What "the decision it asked for" means, field by field: at every moment of every run, a decide call
      that has succeeded holds a decision with its own actor as decider, its own reason and evidence, the
      verdict it asked for and, for community work, its own fingerprint; and that is the decision written
      for its request. */
  lemma DecidedAsAsked(events: seq<Event>, w: nat)
    requires w in Run(Initial(), events).workers && Run(Initial(), events).workers[w].Decided?
    ensures var s, pc := Run(Initial(), events), Run(Initial(), events).workers[w];
            && pc.row.decision.Some?
            && var d := pc.row.decision.value;
               && pc.call.id in s.log && s.log[pc.call.id] == d
               && d.decider == pc.call.actor && d.reason == pc.call.reason && d.evidence == pc.call.evidence
               && d.verdict == (if pc.call.approve then Approved else Rejected) && pc.row.status == d.verdict
               && (pc.call.kind.CommunityWork? ==> d.fingerprint == pc.call.fingerprint)
  {
    InitialInv();
    RunInv(Initial(), events);
    assert WorkerOk(Run(Initial(), events), w);
  }

  /** The decision that a treasury row shows: decided by someone other than the requester, before the
      request expired, with an execution id iff it was approved. An undecided row is unused. */
  lemma DecisionsAreSound(events: seq<Event>, id: nat)
    requires id in Run(Initial(), events).rows && !Run(Initial(), events).rows[id].kind.OtherAction?
    ensures var row := Run(Initial(), events).rows[id];
            && (row.decision.None? ==> row.status.Pending? && row.usedAt.None?)
            && (row.decision.Some? ==>
                  var d := row.decision.value;
                  && row.status == d.verdict && (d.verdict.Approved? || d.verdict.Rejected?)
                  && d.decider != row.requester && d.at < row.expiresAt
                  && (d.executionId.Some? <==> d.verdict.Approved?))
  {
    InitialInv();
    RunInv(Initial(), events);
    assert RowOk(Run(Initial(), events), id);
  }

  /** The decision fields of a row never change once written, whatever route is used, for as long as the
      row exists. */
  lemma DecisionFieldsFrozen(s: Sys, events: seq<Event>, id: nat)
    requires Inv(s) && id in s.rows && !s.rows[id].kind.OtherAction? && s.rows[id].decision.Some?
    requires id in Run(s, events).rows
    ensures var row := Run(s, events).rows[id];
            row.decision == s.rows[id].decision && row.status == s.rows[id].status && row.kind == s.rows[id].kind
  {
    hide Next;
    RunInv(s, events);
    assert RowOk(s, id) && RowOk(Run(s, events), id);
    DecisionIsPermanent(s, events, id);
    KnownRow(s, events, id);
  }

  lemma KindStep(s: Sys, e: Event, id: nat)
    requires Inv(s) && id in s.known
    ensures id in Next(s, e).known && (id in Next(s, e).rows ==> id in s.rows && Next(s, e).rows[id].kind == s.rows[id].kind)
  {
    if e.Step? && e.worker in s.workers {
      assert WorkerOk(s, e.worker);
    }
  }

  lemma {:induction false} KnownRow(s: Sys, events: seq<Event>, id: nat)
    requires Inv(s) && id in s.rows
    ensures id in Run(s, events).known
    ensures id in Run(s, events).rows ==> Run(s, events).rows[id].kind == s.rows[id].kind
  {
    if events != [] {
      KnownRow(s, events[..|events| - 1], id);
      RunInv(s, events[..|events| - 1]);
      KindStep(Run(s, events[..|events| - 1]), events[|events| - 1], id);
    }
  }

  /** The public token route never changes a treasury request, however its two reads and its update
      interleave with everything else. */
  lemma PublicRouteLeavesTreasuryAlone(s: Sys, w: nat, now: int, uuid: nat, id: nat)
    requires Inv(s) && w in s.workers && (s.workers[w].Viewing? || s.workers[w].Consuming?)
    requires id in s.rows && !s.rows[id].kind.OtherAction?
    ensures id in Next(s, Step(w, now, uuid)).rows && Next(s, Step(w, now, uuid)).rows[id] == s.rows[id]
  {
    assert WorkerOk(s, w);
  }

  lemma UsedStep(s: Sys, e: Event, id: nat)
    requires Inv(s) && id in s.rows && s.rows[id].usedAt.Some? && id in Next(s, e).rows
    ensures Next(s, e).rows[id].usedAt == s.rows[id].usedAt
  {
    if e.Step? && e.worker in s.workers {
      assert WorkerOk(s, e.worker);
    }
    assert RowOk(s, id);
  }

  /** A used token is never unused or used again, as long as its row exists: of two consumers of one token
      only the first wins. */
  lemma {:induction false} UsedIsForever(s: Sys, events: seq<Event>, id: nat)
    requires Inv(s) && id in s.rows && s.rows[id].usedAt.Some?
    ensures id in Run(s, events).known
    ensures id in Run(s, events).rows ==> Run(s, events).rows[id].usedAt == s.rows[id].usedAt
  {
    if events != [] {
      var prefix := events[..|events| - 1];
      UsedIsForever(s, prefix, id);
      RunInv(s, prefix);
      KindStep(Run(s, prefix), events[|events| - 1], id);
      if id in Run(s, events).rows {
        UsedStep(Run(s, prefix), events[|events| - 1], id);
      }
    }
  }

  /** Asking again is safe: while its row exists, a decide call that repeats a committed decision in every
      field returns it, one that differs in any field gets a conflict, and the requester is refused. */
  lemma RepeatedDecision(s: Sys, call: Call, now: int)
    requires Inv(s) && !call.kind.OtherAction? && call.id in s.log && call.id in s.rows && s.rows[call.id].kind == call.kind
    ensures var row, d := s.rows[call.id], s.log[call.id];
            var same := && d.decider == call.actor && d.reason == call.reason && d.evidence == call.evidence
                        && d.verdict == (if call.approve then Approved else Rejected)
                        && (call.kind.CommunityWork? ==> d.fingerprint == call.fingerprint);
            && row.decision == Some(d)
            && Read(s.rows, call, now) ==
               if row.requester == call.actor then Refused(call, InsufficientPermissions)
               else if same then Decided(call, row)
               else Refused(call, Conflict)
  {
    assert RowOk(s, call.id);
  }

  /** A decide call that loses the race to another one, after it has seen the request open, ends with
      that other decision if it asked for the same in every field, and with a conflict otherwise. */
  lemma LoserOfTheRace(s: Sys, w: nat, now: int, uuid: nat)
    requires Inv(s) && w in s.workers && s.workers[w].Updating? && s.workers[w].call.id in s.log
    requires !Locked(s, s.workers[w].call.id)
    ensures var call, t := s.workers[w].call, Next(Next(s, Step(w, now, uuid)), Step(w, now, uuid));
            var d := s.log[call.id];
            var same := && d.decider == call.actor && d.reason == call.reason && d.evidence == call.evidence
                        && d.verdict == (if call.approve then Approved else Rejected)
                        && (call.kind.CommunityWork? ==> d.fingerprint == call.fingerprint);
            && t.rows == s.rows && t.log == s.log
            && w in t.workers
            && t.workers[w] == (if call.id in s.rows && same then Decided(call, s.rows[call.id])
                                else Refused(call, Conflict))
            && (call.id in s.rows ==> s.rows[call.id].decision == Some(d))
  {
    var call := s.workers[w].call;
    assert WorkerOk(s, w);
    if call.id in s.rows {
      assert RowOk(s, call.id);
    }
    assert Update(s.rows, call, now, uuid) == Rereading(call);
  }

  /******* One call with nothing in between *******/

  datatype Outcome = Ok(row: Row) | Err(error: Error)

  /** The approval_tokens table changed in place by one session. */
  class ApprovalService {
    var rows: map<nat, Row>

    constructor ()
      ensures rows == map[]
    {
      rows := map[];
    }

    /** decideCondonationApproval and decideCommunityWorkApproval: two clock readings, one random id. */
    method Decide(call: Call, now: int, decisionAt: int, uuid: nat) returns (r: Outcome)
      requires !call.kind.OtherAction?
      modifies this
      ensures r.Err? ==> rows == old(rows)
      ensures r.Ok? ==>
                && call.id in old(rows) && rows == old(rows)[call.id := r.row]
                && r.row.status == (if call.approve then Approved else Rejected)
                && r.row.decision.Some?
                && r.row.decision.value.decider == call.actor && r.row.decision.value.reason == call.reason
                && r.row.decision.value.evidence == call.evidence
                && (call.kind.CommunityWork? ==> r.row.decision.value.fingerprint == call.fingerprint)
      ensures r == Err(NotFound) <==> call.id !in old(rows) || old(rows)[call.id].kind != call.kind
      ensures r == Err(InsufficientPermissions) <==>
                call.id in old(rows) && old(rows)[call.id].kind == call.kind && old(rows)[call.id].requester == call.actor
      ensures r != Err(NotFound) && r != Err(InsufficientPermissions) ==>
                var row := old(rows)[call.id];
                if row.status.Pending? && row.decision.None? && row.usedAt.None? then
                  && (r == Err(LinkExpired) <==> row.expiresAt <= now)
                  && (r == Err(Conflict) <==> now < row.expiresAt <= decisionAt)
                  && (r.Ok? ==>
                        && r.row.(status := Pending, decision := None) == row
                        && r.row.decision.value.verdict == r.row.status && r.row.decision.value.at == decisionAt
                        && r.row.decision.value.executionId == (if call.approve then Some(uuid) else None)
                        && (!call.kind.CommunityWork? ==> r.row.decision.value.fingerprint == None))
                else
                  && (r.Ok? ==> r.row == row)
                  && (r != Err(Conflict) <==>
                        && row.decision.Some? && row.status == (if call.approve then Approved else Rejected)
                        && row.decision.value.decider == call.actor && row.decision.value.reason == call.reason
                        && row.decision.value.evidence == call.evidence
                        && (call.kind.CommunityWork? ==> row.decision.value.fingerprint == call.fingerprint))
                  && r != Err(LinkExpired)
      ensures Some(r) == Alone(old(rows), call, now, decisionAt, uuid)
    {
      if call.id !in rows || rows[call.id].kind != call.kind {
        return Err(NotFound);
      }
      var current := rows[call.id];
      if current.requester == call.actor {
        return Err(InsufficientPermissions);
      }
      if !current.status.Pending? || current.decision.Some? || current.usedAt.Some? {
        if IsExact(current, call) {
          assert rows[call.id := current] == rows;
          return Ok(current);
        }
        return Err(Conflict);
      }
      if current.expiresAt <= now {
        return Err(LinkExpired);
      }
      if current.expiresAt > decisionAt {
        var decision := Decision(VerdictOf(call), call.actor, call.reason, call.evidence,
                                 if call.kind.CommunityWork? then call.fingerprint else None,
                                 decisionAt, if call.approve then Some(uuid) else None);
        var updated := current.(status := VerdictOf(call), decision := Some(decision));
        rows := rows[call.id := updated];
        return Ok(updated);
      }
      var raced := rows[call.id];
      if IsExact(raced, call) {
        return Ok(raced);
      }
      return Err(Conflict);
    }
  }

  /** How the steps of the state machine end when nothing else moves. */
  function Alone(rows: map<nat, Row>, call: Call, now: int, decisionAt: int, uuid: nat): Option<Outcome> {
    match Read(rows, call, now)
    case Updating(_) =>
      (match Update(rows, call, decisionAt, uuid)
       case Holding(_, draft) => Some(Ok(draft))
       case Rereading(_) => OutcomeOf(Reread(rows, call))
       case _ => None)
    case pc => OutcomeOf(pc)
  }

  function OutcomeOf(pc: Pc): Option<Outcome> {
    match pc
    case Decided(_, row) => Some(Ok(row))
    case Refused(_, e) => Some(Err(e))
    case _ => None
  }
}

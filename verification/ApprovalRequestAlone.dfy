/** What one create call does while nothing else moves, told by the rows it finds
  (packages/approval/src/service.ts, apps/api/src/routes/approval.ts): on its own, and as a route runs it,
  with the route's own look and its locks in front.
 */
module ApprovalRequestAlone {
  import opened Common
  import opened ApprovalCreate

  /** The ids of some obligations, each as often as it occurs. */
  function IdBag(s: seq<Obligation>): multiset<nat> {
    multiset(seq(|s|, i requires 0 <= i < |s| => s[i].id))
  }

  lemma {:induction false} IdsAre(s: seq<Obligation>)
    ensures Ids(s) == seq(|s|, i requires 0 <= i < |s| => s[i].id)
  {
    if s != [] {
      IdsAre(s[1..]);
    }
  }

  predicate Idle(s: Sys, w: nat) { w in s.workers ==> !Running(s.workers[w]) }

  /** Row `id` was made under the call's kind, requester and caller key. */
  predicate SameRequest(row: Row, call: Call) {
    row.kind == call.kind && row.req.requester == call.req.requester && row.req.callerKey == call.req.callerKey
  }

  /** A complete request: texts, a member, and obligations of one currency with positive amounts, none twice. */
  predicate Complete(r: Request) {
    && r.complete && r.member != "" && r.obligations != []
    && (forall i, j :: 0 <= i < j < |r.obligations| ==> r.obligations[i].id != r.obligations[j].id)
    && (forall o <- r.obligations :: o.currency != "" && o.currency == r.obligations[0].currency && o.amountCents > 0)
  }

  /** Nobody but `w` is about to insert under this id or this key. */
  predicate Free(s: Sys, w: nat, call: Call, id: nat) {
    && id !in s.rows
    && forall v <- s.workers :: v != w && s.workers[v].Holding? ==>
         s.workers[v].id != id && !SameRequest(s.workers[v].row, call)
  }

  lemma FreeStays(s: Sys, t: Sys, w: nat, call: Call, id: nat)
    requires Free(s, w, call, id) && t.rows == s.rows && t.workers - {w} == s.workers - {w}
    ensures Free(t, w, call, id)
  {
    forall v | v in t.workers && v != w ensures v in s.workers && s.workers[v] == t.workers[v] {
      assert v in t.workers - {w};
    }
  }

  /******* The stages *******/

  /** The route's own look: without a row it goes on to lock the obligations; a row for another member or other
      obligations is a conflict; otherwise the call goes on with that row's obligations and requester key. */
  lemma RouteLooks(s: Sys, w: nat, id: nat, expiresAt: int)
    requires w in s.workers && s.workers[w].Looking?
    ensures var call, t := s.workers[w].call, Next(s, Step(w, id, expiresAt));
            && t.rows == s.rows && w in t.workers
            && ((forall x <- s.rows :: !SameRequest(s.rows[x], call)) ==> t.workers[w] == Locking(call))
            && (id in s.rows && SameRequest(s.rows[id], call) ==>
                  var was := s.rows[id].req;
                  t.workers[w] ==
                  if was.member == call.req.member && IdBag(was.obligations) == IdBag(call.req.obligations)
                  then Finding(call.(req := call.req.(obligations := was.obligations, requesterKey := was.requesterKey)), {})
                  else Refused(call, Conflict))
  {
    var call := s.workers[w].call;
    IdsAre(call.req.obligations);
    if id in s.rows {
      IdsAre(s.rows[id].req.obligations);
    }
  }

  /** The locks: the call goes on with what exactly its obligations owe now, and those are locked; a
      community-work request gets the fresh key. */
  lemma RouteLocks(s: Sys, w: nat, captured: seq<Obligation>, key: nat)
    requires w in s.workers && s.workers[w].Locking?
    ensures var call, t := s.workers[w].call, Next(s, Lock(w, captured, key));
            && t.rows == s.rows && w in t.workers
            && (t.workers[w] != s.workers[w] ==>
                  && IdBag(captured) == IdBag(call.req.obligations)
                  && t.workers[w] == Finding(
                       call.(req := call.req.(obligations := captured,
                                              requesterKey := if call.kind.CommunityWork? then Some(key) else None)),
                       set o | o in captured :: o.id))
  {
    IdsAre(captured);
    IdsAre(s.workers[w].call.req.obligations);
  }

  /** The find of the create itself. */
  lemma CreateFinds(s: Sys, w: nat, id: nat, expiresAt: int)
    requires w in s.workers && s.workers[w].Finding?
    ensures var call, t := s.workers[w].call, Next(s, Step(w, id, expiresAt));
            && t.rows == s.rows && w in t.workers
            && (!Complete(call.req) ==> t.workers[w] == Refused(call, ValidationError))
            && (Complete(call.req) && (forall x <- s.rows :: !SameRequest(s.rows[x], call)) ==>
                  t.workers[w] == Inserting(call, s.workers[w].locks))
            && (Complete(call.req) && id in s.rows && SameRequest(s.rows[id], call) ==>
                  t.workers[w] == if s.rows[id].fingerprint == FingerprintOf(call.req) then Returned(call, id, s.rows[id])
                                  else Refused(call, Conflict))
  {
    hide FingerprintOf;
    assert Valid(s.workers[w].call.req) <==> Complete(s.workers[w].call.req);
  }

  /** The insert, when nobody is in its way. */
  lemma CreateInserts(s: Sys, w: nat, id: nat, expiresAt: int)
    requires w in s.workers && s.workers[w].Inserting? && Free(s, w, s.workers[w].call, id)
    requires forall x <- s.rows :: !SameRequest(s.rows[x], s.workers[w].call)
    ensures var call, t := s.workers[w].call, Next(s, Step(w, id, expiresAt));
            var row := Row(call.kind, call.req, FingerprintOf(call.req), expiresAt);
            if call.inTransaction then t == s.(workers := s.workers[w := Holding(call, s.workers[w].locks, id, row)])
            else t == s.(rows := s.rows[id := row], workers := s.workers[w := Returned(call, id, row)])
  {
    hide FingerprintOf;
    var call := s.workers[w].call;
    assert !KeyHeld(s, call) && !IdUsed(s, id) && !KeyTaken(s.rows, call);
  }

  lemma Starts(s: Sys, w: nat, call: Call)
    requires Idle(s, w)
    ensures Next(s, Create(w, call)) ==
            s.(workers := s.workers[w := if call.inTransaction then Looking(call) else Finding(call, {})])
  {
  }

  /******* Whole calls *******/

  lemma RunOne(s: Sys, a: Event)
    ensures Run(s, [a]) == Next(s, a)
  {
    assert [a][..0] == [] && Run(s, []) == s;
  }

  lemma RunMore(s: Sys, events: seq<Event>, a: Event)
    ensures Run(s, events + [a]) == Next(Run(s, events), a)
  {
    assert (events + [a])[..|events|] == events;
  }

  /** A first create on its own inserts its row and returns it. */
  lemma FirstCreateInserts(s: Sys, w: nat, call: Call, id: nat, expiresAt: int)
    requires Idle(s, w) && !call.inTransaction && Complete(call.req)
    requires (forall x <- s.rows :: !SameRequest(s.rows[x], call)) && Free(s, w, call, id)
    ensures var step := Step(w, id, expiresAt);
            var t := Run(s, [Create(w, call)] + [step] + [step]);
            var row := Row(call.kind, call.req, FingerprintOf(call.req), expiresAt);
            && t.rows == s.rows[id := row] && w in t.workers && t.workers[w] == Returned(call, id, row)
  {
    hide Run, Next, FingerprintOf, Complete;
    var step := Step(w, id, expiresAt);
    RunOne(s, Create(w, call));
    RunMore(s, [Create(w, call)], step);
    RunMore(s, [Create(w, call)] + [step], step);
    Starts(s, w, call);
    var s1 := s.(workers := s.workers[w := Finding(call, {})]);
    CreateFinds(s1, w, id, expiresAt);
    OthersStay(s1, w, step);
    assert s1.workers - {w} == s.workers - {w};
    FreeStays(s, Next(s1, step), w, call, id);
    CreateInserts(Next(s1, step), w, id, expiresAt);
  }

  /** A step of `w` moves no other worker. */
  lemma OthersStay(s: Sys, w: nat, e: Event)
    requires (e.Step? || e.Lock?) && e.worker == w
    ensures Next(s, e).workers - {w} == s.workers - {w}
  {
    hide Look, Find, MayLock, KeyHeld, IdUsed, KeyTaken;
  }

  /** A retry of a create on its own gets the row when it asks for the same, and a conflict when it does not. */
  lemma RepeatedCreateReturnsTheRow(s: Sys, w: nat, call: Call, id: nat, expiresAt: int)
    requires Idle(s, w) && !call.inTransaction && Complete(call.req)
    requires id in s.rows && SameRequest(s.rows[id], call)
    ensures var t := Run(s, [Create(w, call)] + [Step(w, id, expiresAt)]);
            && t.rows == s.rows && w in t.workers
            && t.workers[w] == if s.rows[id].fingerprint == FingerprintOf(call.req) then Returned(call, id, s.rows[id])
                               else Refused(call, Conflict)
  {
    hide Run, Next, FingerprintOf, Complete;
    RunOne(s, Create(w, call));
    RunMore(s, [Create(w, call)], Step(w, id, expiresAt));
    Starts(s, w, call);
    CreateFinds(s.(workers := s.workers[w := Finding(call, {})]), w, id, expiresAt);
  }

  /** A retried route, for the same member and obligations, whatever they owe by now: it gets the row it made
      iff everything else it asks for is the same, and a conflict otherwise. */
  lemma RepeatedRouteReturnsTheRow(s: Sys, w: nat, call: Call, id: nat, expiresAt: int)
    requires Idle(s, w) && call.inTransaction && call.req.complete
    requires id in s.rows && SameRequest(s.rows[id], call)
    requires Complete(s.rows[id].req) && s.rows[id].fingerprint == FingerprintOf(s.rows[id].req)
    requires s.rows[id].req.member == call.req.member
    requires IdBag(s.rows[id].req.obligations) == IdBag(call.req.obligations)
    ensures var t := Run(s, [Create(w, call)] + [Step(w, id, expiresAt)] + [Step(w, id, expiresAt)]);
            && t.rows == s.rows && w in t.workers
            && (s.rows[id].req.details == call.req.details ==>
                  t.workers[w].Returned? && t.workers[w].id == id && t.workers[w].row == s.rows[id])
            && (s.rows[id].req.details != call.req.details ==> t.workers[w].Refused? && t.workers[w].error == Conflict)
  {
    hide Run, Next, Complete;
    var step := Step(w, id, expiresAt);
    RunOne(s, Create(w, call));
    RunMore(s, [Create(w, call)], step);
    RunMore(s, [Create(w, call)] + [step], step);
    Starts(s, w, call);
    var s1 := s.(workers := s.workers[w := Looking(call)]);
    RouteLooks(s1, w, id, expiresAt);
    var was := s.rows[id].req;
    var next := call.(req := call.req.(obligations := was.obligations, requesterKey := was.requesterKey));
    SameTexts(was, next.req);
    CreateFinds(Next(s1, step), w, id, expiresAt);
  }

  lemma SameTexts(a: Request, b: Request)
    requires Complete(a) && a.obligations == b.obligations && a.member == b.member && (a.complete ==> b.complete)
    ensures Complete(b)
  {
  }

  /** What a route asks for once it has locked its obligations. */
  function Captured(call: Call, captured: seq<Obligation>, key: nat): Call {
    call.(req := call.req.(obligations := captured, requesterKey := if call.kind.CommunityWork? then Some(key) else None))
  }

  /** A route that works alone, up to its locks ... */
  lemma LoneRouteLocks(s: Sys, w: nat, call: Call, captured: seq<Obligation>, key: nat, id: nat, expiresAt: int)
    requires Idle(s, w) && call.inTransaction && s.workers.Keys <= {w}
    requires forall x <- s.rows :: !SameRequest(s.rows[x], call) && s.rows[x].req.requesterKey != Some(key)
    requires call.req.requesterKey == None && IdBag(captured) == IdBag(call.req.obligations)
    ensures var t := Run(s, [Create(w, call)] + [Step(w, id, expiresAt)] + [Lock(w, captured, key)]);
            && t.rows == s.rows && t.workers.Keys == {w}
            && t.workers[w] == Finding(Captured(call, captured, key), set o | o in captured :: o.id)
  {
    hide Run, Next, IdBag;
    var step, lock := Step(w, id, expiresAt), Lock(w, captured, key);
    RunOne(s, Create(w, call));
    RunMore(s, [Create(w, call)], step);
    RunMore(s, [Create(w, call)] + [step], lock);
    Starts(s, w, call);
    var s1 := s.(workers := s.workers[w := Looking(call)]);
    RouteLooks(s1, w, id, expiresAt);
    OnlyWorker(s1, w, step);
    LockGoesThrough(Next(s1, step), w, captured, key);
    OnlyWorker(Next(s1, step), w, lock);
    RouteLocks(Next(s1, step), w, captured, key);
  }

  lemma OnlyWorker(s: Sys, w: nat, e: Event)
    requires (e.Step? || e.Lock?) && e.worker == w && w in s.workers && s.workers.Keys <= {w}
    ensures Next(s, e).workers.Keys <= {w}
  {
    OthersStay(s, w, e);
    hide Next;
    var t := Next(s, e);
    assert (s.workers - {w}).Keys == {};
    assert t.workers.Keys <= (t.workers - {w}).Keys + {w};
  }

  /** ... and from there to its COMMIT. */
  lemma LoneRouteInserts(s: Sys, w: nat, id: nat, expiresAt: int)
    requires s.workers.Keys == {w} && s.workers[w].Finding? && s.workers[w].call.inTransaction && id !in s.rows
    requires Complete(s.workers[w].call.req)
    requires forall x <- s.rows :: !SameRequest(s.rows[x], s.workers[w].call)
    ensures var step, call := Step(w, id, expiresAt), s.workers[w].call;
            var t := Run(s, [step] + [step] + [step]);
            var row := Row(call.kind, call.req, FingerprintOf(call.req), expiresAt);
            t.rows == s.rows[id := row] && w in t.workers && t.workers[w] == Returned(call, id, row)
  {
    hide Run, Next, FingerprintOf, Complete;
    var step := Step(w, id, expiresAt);
    RunOne(s, step);
    RunMore(s, [step], step);
    RunMore(s, [step] + [step], step);
    CreateFinds(s, w, id, expiresAt);
    OthersStay(s, w, step);
    FreeStays(s, Next(s, step), w, s.workers[w].call, id);
    CreateInserts(Next(s, step), w, id, expiresAt);
    CommitShowsTheRow(Next(Next(s, step), step), w, id, expiresAt);
  }

  lemma LockGoesThrough(s: Sys, w: nat, captured: seq<Obligation>, key: nat)
    requires w in s.workers && s.workers[w].Locking? && s.workers.Keys <= {w}
    requires forall x <- s.rows :: s.rows[x].req.requesterKey != Some(key)
    requires s.workers[w].call.req.requesterKey == None
    requires IdBag(captured) == IdBag(s.workers[w].call.req.obligations)
    ensures w in Next(s, Lock(w, captured, key)).workers && Next(s, Lock(w, captured, key)).workers[w] != s.workers[w]
  {
    IdsAre(captured);
    IdsAre(s.workers[w].call.req.obligations);
  }

  lemma CommitShowsTheRow(s: Sys, w: nat, id: nat, expiresAt: int)
    requires w in s.workers && s.workers[w].Holding?
    ensures var pc, t := s.workers[w], Next(s, Step(w, id, expiresAt));
            t == s.(rows := s.rows[pc.id := pc.row], workers := s.workers[w := Returned(pc.call, pc.id, pc.row)])
  {
  }

  /** A first route that works alone locks its obligations, inserts a row that asks for what they owe now and,
      at its COMMIT, makes it visible. */
  lemma FirstRouteInserts(s: Sys, w: nat, call: Call, captured: seq<Obligation>, key: nat, id: nat, expiresAt: int)
    requires Idle(s, w) && call.inTransaction && s.workers.Keys <= {w}
    requires forall x <- s.rows :: !SameRequest(s.rows[x], call) && s.rows[x].req.requesterKey != Some(key)
    requires call.req.requesterKey == None && IdBag(captured) == IdBag(call.req.obligations)
    requires Complete(call.req.(obligations := captured)) && id !in s.rows
    ensures var step := Step(w, id, expiresAt);
            var t := Run(s, ([Create(w, call)] + [step] + [Lock(w, captured, key)]) + ([step] + [step] + [step]));
            var req := call.req.(obligations := captured, requesterKey := if call.kind.CommunityWork? then Some(key) else None);
            var row := Row(call.kind, req, FingerprintOf(req), expiresAt);
            t.rows == s.rows[id := row] && w in t.workers && t.workers[w] == Returned(call.(req := req), id, row)
  {
    hide Run, Next, FingerprintOf, Complete, IdBag;
    var step := Step(w, id, expiresAt);
    RunAppends(s, [Create(w, call)] + [step] + [Lock(w, captured, key)], [step] + [step] + [step]);
    LoneRouteLocks(s, w, call, captured, key, id, expiresAt);
    SameTexts(call.req.(obligations := captured), Captured(call, captured, key).req);
    LoneRouteInserts(Run(s, [Create(w, call)] + [step] + [Lock(w, captured, key)]), w, id, expiresAt);
  }
}

/** Creates of approval requests under races: when one caller key ends with two rows, and what the
  obligation locks of the routes leave of that
  (packages/approval/src/service.ts, apps/api/src/routes/approval.ts).
 */
module ApprovalRace {
  import opened Common
  import opened ApprovalCreate

  /******* The life of one insert *******/

  lemma StateAt(events: seq<Event>, i: nat)
    requires i < |events|
    ensures Run(Initial(), events[..i + 1]) == Next(Run(Initial(), events[..i]), events[i])
  {
    assert events[..i + 1][..i] == events[..i];
  }

  /** Event `j` makes row `id` visible. */
  ghost predicate CommitsAt(events: seq<Event>, j: int, id: nat) {
    0 <= j < |events| && id !in Run(Initial(), events[..j]).rows && id in Run(Initial(), events[..j + 1]).rows
  }

  predicate Writing(pc: Pc, call: Call) { (pc.Inserting? || pc.Holding?) && pc.call == call }

  /** Event `i` is the find of worker `w` that shows no row for its call. */
  ghost predicate FindsNothingAt(events: seq<Event>, i: int, w: nat, call: Call) {
    && 0 <= i < |events| && events[i].Step? && events[i].worker == w
    && var s := Run(Initial(), events[..i]);
       w in s.workers && s.workers[w].Finding? && s.workers[w].call == call && !Exists(s.rows, call)
  }

  /** From its find at `i` up to event `j` worker `w` is at work on one insert. */
  ghost predicate WritesFrom(events: seq<Event>, i: int, j: int, w: nat, call: Call) {
    && i < j <= |events| && FindsNothingAt(events, i, w, call)
    && forall k :: i < k <= j ==>
         w in Run(Initial(), events[..k]).workers && Writing(Run(Initial(), events[..k]).workers[w], call)
  }

  lemma WritingBefore(s: Sys, e: Event, w: nat, call: Call)
    requires w in Next(s, e).workers && Writing(Next(s, e).workers[w], call)
    ensures w in s.workers
    ensures Writing(s.workers[w], call) ||
            (e.Step? && e.worker == w && s.workers[w].Finding? && s.workers[w].call == call && !Exists(s.rows, call))
  {
  }

  lemma {:induction false} WritingHasFound(events: seq<Event>, n: nat, w: nat, call: Call)
    requires n <= |events|
    requires w in Run(Initial(), events[..n]).workers && Writing(Run(Initial(), events[..n]).workers[w], call)
    ensures exists i :: WritesFrom(events, i, n, w, call)
    decreases n
  {
    if n == 0 {
      NobodyAtFirst(events);
    } else {
      StateAt(events, n - 1);
      WritingBefore(Run(Initial(), events[..n - 1]), events[n - 1], w, call);
      if Writing(Run(Initial(), events[..n - 1]).workers[w], call) {
        WritingHasFound(events, n - 1, w, call);
        var i :| WritesFrom(events, i, n - 1, w, call);
        assert WritesFrom(events, i, n, w, call);
      } else {
        assert FindsNothingAt(events, n - 1, w, call);
        assert WritesFrom(events, n - 1, n, w, call);
      }
    }
  }

  lemma NobodyAtFirst(events: seq<Event>)
    ensures Run(Initial(), events[..0]) == Initial()
  {
    assert events[..0] == [];
  }

  /** A step makes at most one row visible, and that is the row of the worker's own call. */
  lemma OneRowPerStep(s: Sys, e: Event, id: nat)
    requires Inv(s) && id !in s.rows && id in Next(s, e).rows
    ensures e.Step? && e.worker in s.workers && Writing(s.workers[e.worker], s.workers[e.worker].call)
    ensures Answers(Next(s, e).rows[id], s.workers[e.worker].call)
    ensures Next(s, e).rows == s.rows[id := Next(s, e).rows[id]]
  {
    if e.Step? && e.worker in s.workers {
      assert WorkerOk(s, e.worker);
    }
  }

  lemma {:induction false} RowWasCommitted(events: seq<Event>, n: nat, id: nat)
    requires n <= |events| && id in Run(Initial(), events[..n]).rows
    ensures exists j :: j < n && CommitsAt(events, j, id)
    decreases n
  {
    if n == 0 {
      NobodyAtFirst(events);
    } else if id in Run(Initial(), events[..n - 1]).rows {
      RowWasCommitted(events, n - 1, id);
    } else {
      assert CommitsAt(events, n - 1, id);
    }
  }

  lemma RowStaysFrom(events: seq<Event>, i: nat, j: nat, id: nat)
    requires i <= j <= |events| && id in Run(Initial(), events[..i]).rows
    ensures id in Run(Initial(), events[..j]).rows
    ensures Run(Initial(), events[..j]).rows[id] == Run(Initial(), events[..i]).rows[id]
  {
    RunInv(Initial(), events[..i]);
    RowsStay(Run(Initial(), events[..i]), events[i..j], id);
    RunAppends(Initial(), events[..i], events[i..j]);
    assert events[..i] + events[i..j] == events[..j];
  }

  /** The commit at `c` of one create falls between the find at `i` and the commit at `j` of another. */
  ghost predicate CommitsBetween(events: seq<Event>, i: int, c: int, j: int, a: nat, b: nat) {
    && i < c < j && CommitsAt(events, c, a) && CommitsAt(events, j, b) && events[j].Step?
    && exists call :: WritesFrom(events, i, j, events[j].worker, call)
  }

  lemma CommitsAreApart(events: seq<Event>, c: int, j: int, a: nat, b: nat)
    requires CommitsAt(events, c, a) && CommitsAt(events, j, b)
    ensures c == j ==> a == b
    ensures c < j ==> a != b
  {
    StateAt(events, c);
    RunInv(Initial(), events[..c]);
    OneRowPerStep(Run(Initial(), events[..c]), events[c], a);
    if c < j {
      RowStaysFrom(events, c + 1, j, a);
    }
  }

  /** A find that shows nothing comes before every commit of its key. */
  lemma FindComesFirst(events: seq<Event>, i: nat, c: nat, w: nat, call: Call, a: nat)
    requires FindsNothingAt(events, i, w, call) && CommitsAt(events, c, a)
    requires Answers(Run(Initial(), events[..c + 1]).rows[a], call)
    ensures i < c
  {
    StateAt(events, i);
    if c + 1 <= i {
      RowStaysFrom(events, c + 1, i, a);
    }
  }

  /** A commit belongs to a create that was at work on it from its find on. */
  lemma CommitHasFound(events: seq<Event>, j: int, b: nat) returns (i: int, call: Call)
    requires CommitsAt(events, j, b)
    ensures events[j].Step? && WritesFrom(events, i, j, events[j].worker, call)
    ensures Answers(Run(Initial(), events[..j + 1]).rows[b], call)
  {
    StateAt(events, j);
    RunInv(Initial(), events[..j]);
    hide Next, Run, Inv, FindsNothingAt, WritesFrom;
    var s := Run(Initial(), events[..j]);
    OneRowPerStep(s, events[j], b);
    call := s.workers[events[j].worker].call;
    WritingHasFound(events, j, events[j].worker, call);
    i :| WritesFrom(events, i, j, events[j].worker, call);
  }

  lemma FinalRow(events: seq<Event>, c: int, a: nat)
    requires CommitsAt(events, c, a)
    ensures a in Run(Initial(), events).rows
    ensures Run(Initial(), events).rows[a] == Run(Initial(), events[..c + 1]).rows[a]
  {
    assert events[..|events|] == events;
    RowStaysFrom(events, c + 1, |events|, a);
  }

  lemma LaterCommitOverlaps(events: seq<Event>, c: int, j: int, a: nat, b: nat)
    requires CommitsAt(events, c, a) && CommitsAt(events, j, b) && c < j
    requires var s := Run(Initial(), events); a in s.rows && b in s.rows && SameKey(s.rows[a], s.rows[b])
    ensures exists i :: CommitsBetween(events, i, c, j, a, b)
  {
    FinalRow(events, c, a);
    FinalRow(events, j, b);
    var i, call := CommitHasFound(events, j, b);
    hide Next, Run, FindsNothingAt;
    WritesFound(events, i, j, events[j].worker, call);
    FindComesFirst(events, i, c, events[j].worker, call, a);
    assert CommitsBetween(events, i, c, j, a, b);
  }

  lemma WritesFound(events: seq<Event>, i: int, j: int, w: nat, call: Call)
    requires WritesFrom(events, i, j, w, call)
    ensures 0 <= i < j && FindsNothingAt(events, i, w, call)
  {
  }

  /** Two rows under one (action type, requester, caller key): iff some create committed its row between
      the find and the commit of another one. Nothing but that race makes a second row, and for community
      work nothing prevents it. */
  lemma KeyHasTwoRowsIff(events: seq<Event>)
    ensures var rows := Run(Initial(), events).rows;
            (exists a, b :: a in rows && b in rows && a != b && SameKey(rows[a], rows[b])) <==>
            (exists i, c, j, a, b :: CommitsBetween(events, i, c, j, a, b) && a in rows && b in rows && SameKey(rows[a], rows[b]))
  {
    var rows := Run(Initial(), events).rows;
    assert events[..|events|] == events;
    if a, b :| a in rows && b in rows && a != b && SameKey(rows[a], rows[b]) {
      RowWasCommitted(events, |events|, a);
      RowWasCommitted(events, |events|, b);
      var c :| c < |events| && CommitsAt(events, c, a);
      var j :| j < |events| && CommitsAt(events, j, b);
      CommitsAreApart(events, c, j, a, b);
      if c < j {
        LaterCommitOverlaps(events, c, j, a, b);
      } else {
        LaterCommitOverlaps(events, j, c, b, a);
      }
    }
    if i, c, j, a, b :| CommitsBetween(events, i, c, j, a, b) && a in rows && b in rows && SameKey(rows[a], rows[b]) {
      CommitsAreApart(events, c, j, a, b);
    }
  }

  /******* The routes and their locks *******/

  predicate OfRoute(e: Event) { e.Create? ==> e.call.inTransaction && e.call.req.requesterKey.None? }

  predicate RoutesOnly(events: seq<Event>) { forall e <- events :: OfRoute(e) }

  /** A row of the same key asks for none of these obligations. */
  predicate Elsewhere(rows: map<nat, Row>, call: Call, locks: set<nat>) {
    forall id :: id in rows && Answers(rows[id], call) ==> IdSet(rows[id].req.obligations) !! locks
  }

  predicate OwnKey(s: Sys, w: nat)
    requires w in s.workers
  {
    var call := s.workers[w].call;
    call.kind.CommunityWork? ==>
      && call.req.requesterKey.Some?
      && (forall id :: id in s.rows ==> s.rows[id].req.requesterKey != call.req.requesterKey)
      && (forall v :: v in s.workers && v != w ==> s.workers[v].call.req.requesterKey != call.req.requesterKey)
  }

  predicate RouteOk(s: Sys, w: nat)
    requires w in s.workers
  {
    && s.workers[w].call.inTransaction
    && (LocksOf(s.workers[w]) != {} ==> OwnKey(s, w))
    && match s.workers[w]
       case Finding(call, locks) => locks == IdSet(call.req.obligations) || Exists(s.rows, call)
       case Inserting(call, locks) => locks == IdSet(call.req.obligations) && Elsewhere(s.rows, call, locks)
       case Holding(call, locks, _, _) => locks == IdSet(call.req.obligations) && Elsewhere(s.rows, call, locks)
       case _ => true
  }

  predicate RowOk(s: Sys, id: nat)
    requires id in s.rows
  {
    && s.rows[id].fingerprint == FingerprintOf(s.rows[id].req)
    && forall b :: b in s.rows && b != id && SameKey(s.rows[id], s.rows[b]) ==>
         IdSet(s.rows[id].req.obligations) !! IdSet(s.rows[b].req.obligations)
  }

  ghost predicate RouteInv(s: Sys) {
    && Inv(s)
    && (forall w {:trigger RouteOk(s, w)} :: w in s.workers ==> RouteOk(s, w))
    && (forall id {:trigger RowOk(s, id)} :: id in s.rows ==> RowOk(s, id))
    && (forall v, w :: v in s.workers && w in s.workers && v != w ==> LocksOf(s.workers[v]) !! LocksOf(s.workers[w]))
  }

  /** A worker moves and no row changes. */
  lemma RouteMoves(s: Sys, w: nat, pc: Pc)
    requires RouteInv(s) && Inv(s.(workers := s.workers[w := pc]))
    requires RouteOk(s.(workers := s.workers[w := pc]), w)
    requires forall v :: v in s.workers && v != w ==> LocksOf(pc) !! LocksOf(s.workers[v])
    requires forall v :: v in s.workers && v != w && LocksOf(s.workers[v]) != {} && s.workers[v].call.kind.CommunityWork? ==>
               pc.call.req.requesterKey != s.workers[v].call.req.requesterKey
    ensures RouteInv(s.(workers := s.workers[w := pc]))
  {
    var t := s.(workers := s.workers[w := pc]);
    forall v | v in t.workers ensures RouteOk(t, v) {
      if v != w {
        assert RouteOk(s, v);
      }
    }
    forall id | id in t.rows ensures RowOk(t, id) {
      assert RowOk(s, id);
    }
  }

  /** The locks and the key that a worker keeps or gives up. */
  lemma RouteGoesOn(s: Sys, w: nat, pc: Pc)
    requires RouteInv(s) && w in s.workers && Inv(s.(workers := s.workers[w := pc]))
    requires pc.call == s.workers[w].call && LocksOf(pc) <= LocksOf(s.workers[w])
    requires match pc
             case Finding(call, locks) => locks == IdSet(call.req.obligations) || Exists(s.rows, call)
             case Inserting(call, locks) => locks == IdSet(call.req.obligations) && Elsewhere(s.rows, call, locks)
             case Holding(call, locks, _, _) => locks == IdSet(call.req.obligations) && Elsewhere(s.rows, call, locks)
             case _ => true
    ensures RouteInv(s.(workers := s.workers[w := pc]))
  {
    assert RouteOk(s, w);
    forall v | v in s.workers && v != w && LocksOf(s.workers[v]) != {} && s.workers[v].call.kind.CommunityWork?
      ensures pc.call.req.requesterKey != s.workers[v].call.req.requesterKey
    {
      assert RouteOk(s, v);
    }
    RouteMoves(s, w, pc);
  }

  function Committed(s: Sys, w: nat): Sys
    requires w in s.workers && s.workers[w].Holding?
  {
    var pc := s.workers[w];
    s.(rows := s.rows[pc.id := pc.row], workers := s.workers[w := Returned(pc.call, pc.id, pc.row)])
  }

  lemma ExistsStays(rows: map<nat, Row>, id: nat, row: Row, call: Call)
    requires id !in rows && Exists(rows, call)
    ensures Exists(rows[id := row], call)
  {
    var x :| x in rows && Answers(rows[x], call);
    assert rows[id := row][x] == rows[x];
  }

  lemma CommitLeavesOthers(s: Sys, w: nat, v: nat)
    requires RouteInv(s) && w in s.workers && s.workers[w].Holding? && v in s.workers && v != w
    ensures RouteOk(Committed(s, w), v)
  {
    var pc, other := s.workers[w], s.workers[v];
    assert WorkerOk(s, w) && RouteOk(s, w) && RouteOk(s, v);
    assert pc.row.req == pc.call.req;
    if Exists(s.rows, other.call) {
      ExistsStays(s.rows, pc.id, pc.row, other.call);
    }
  }

  lemma CommitKeepsRows(s: Sys, w: nat, id: nat)
    requires RouteInv(s) && w in s.workers && s.workers[w].Holding? && id in Committed(s, w).rows
    ensures RowOk(Committed(s, w), id)
  {
    var pc := s.workers[w];
    assert WorkerOk(s, w) && RouteOk(s, w);
    assert pc.row.req == pc.call.req && Answers(pc.row, pc.call);
    if id != pc.id {
      assert RowOk(s, id);
    }
  }

  lemma RouteCommits(s: Sys, w: nat)
    requires RouteInv(s) && w in s.workers && s.workers[w].Holding? && Inv(Committed(s, w))
    ensures RouteInv(Committed(s, w))
  {
    var t := Committed(s, w);
    assert RouteOk(s, w);
    assert LocksOf(t.workers[w]) == {};
    assert RouteOk(t, w);
    hide RouteOk, RowOk, Inv;
    forall v | v in t.workers ensures RouteOk(t, v) {
      if v != w {
        CommitLeavesOthers(s, w, v);
      }
    }
    forall id | id in t.rows ensures RowOk(t, id) {
      CommitKeepsRows(s, w, id);
    }
  }

  lemma RouteLooks(s: Sys, w: nat, id: nat, expiresAt: int)
    requires RouteInv(s) && w in s.workers && s.workers[w].Looking?
    ensures RouteInv(StepOf(s, w, id, expiresAt))
  {
    var call := s.workers[w].call;
    var pc := Look(s.rows, call, id);
    assert RouteOk(s, w);
    StepInv(s, w, id, expiresAt);
    if pc.Finding? {
      assert Answers(s.rows[id], pc.call);
      forall v | v in s.workers && v != w && LocksOf(s.workers[v]) != {} && s.workers[v].call.kind.CommunityWork?
        ensures pc.call.req.requesterKey != s.workers[v].call.req.requesterKey
      {
        assert RouteOk(s, v);
      }
      RouteMoves(s, w, pc);
    } else {
      RouteGoesOn(s, w, pc);
    }
  }

  lemma RouteLocks(s: Sys, w: nat, captured: seq<Obligation>, key: nat)
    requires RouteInv(s) && w in s.workers && s.workers[w].Locking? && MayLock(s, s.workers[w].call, captured, key)
    ensures RouteInv(s.(workers := s.workers[w := Locked(s.workers[w].call, captured, key)]))
  {
    var pc := Locked(s.workers[w].call, captured, key);
    assert RouteOk(s, w);
    MovesInv(s, w, pc);
    forall v | v in s.workers && v != w && LocksOf(s.workers[v]) != {} && s.workers[v].call.kind.CommunityWork?
      ensures pc.call.req.requesterKey != s.workers[v].call.req.requesterKey
    {
      assert RouteOk(s, v) && OwnKey(s, v);
    }
    RouteMoves(s, w, pc);
  }

  lemma RouteSteps(s: Sys, w: nat, id: nat, expiresAt: int)
    requires RouteInv(s) && w in s.workers
    ensures RouteInv(StepOf(s, w, id, expiresAt))
  {
    assert RouteOk(s, w);
    StepInv(s, w, id, expiresAt);
    match s.workers[w]
    case Looking(_) => RouteLooks(s, w, id, expiresAt);
    case Finding(call, locks) => RouteGoesOn(s, w, Find(s.rows, call, locks, id));
    case Inserting(call, locks) =>
      if !KeyHeld(s, call) && !IdUsed(s, id) {
        RouteGoesOn(s, w, if KeyTaken(s.rows, call) then Refused(call, TransactionAborted)
                          else Holding(call, locks, id, NewRow(call, expiresAt)));
      }
    case Holding(_, _, _, _) => RouteCommits(s, w);
    case Refinding(call) =>
      if id in s.rows && Answers(s.rows[id], call) {
        RouteGoesOn(s, w, Found(s.rows, call, id));
      }
    case _ =>
  }

  lemma RouteNext(s: Sys, e: Event)
    requires RouteInv(s) && OfRoute(e)
    ensures RouteInv(Next(s, e))
  {
    NextInv(s, e);
    match e
    case Create(w, call) =>
      if !(w in s.workers && Running(s.workers[w])) {
        RouteStarts(s, w, call);
      }
    case Lock(w, captured, key) =>
      if w in s.workers && s.workers[w].Locking? && MayLock(s, s.workers[w].call, captured, key) {
        RouteLocks(s, w, captured, key);
      }
    case Step(w, id, expiresAt) =>
      if w in s.workers {
        RouteSteps(s, w, id, expiresAt);
      }
    case Abort(w) =>
      if w in s.workers && Running(s.workers[w]) {
        RouteGoesOn(s, w, Refused(s.workers[w].call, RolledBack));
      }
  }

  lemma RouteStarts(s: Sys, w: nat, call: Call)
    requires RouteInv(s) && call.inTransaction && call.req.requesterKey.None?
    requires Inv(s.(workers := s.workers[w := Looking(call)]))
    ensures RouteInv(s.(workers := s.workers[w := Looking(call)]))
  {
    forall v | v in s.workers && v != w && LocksOf(s.workers[v]) != {} && s.workers[v].call.kind.CommunityWork?
      ensures s.workers[v].call.req.requesterKey.Some?
    {
      assert RouteOk(s, v) && OwnKey(s, v);
    }
    RouteMoves(s, w, Looking(call));
  }

  lemma {:induction false} RouteRuns(events: seq<Event>)
    requires RoutesOnly(events)
    ensures RouteInv(Run(Initial(), events))
  {
    if events != [] {
      var prefix, e := events[..|events| - 1], events[|events| - 1];
      assert e in events && forall x <- prefix :: x in events;
      RouteRuns(prefix);
      RouteNext(Run(Initial(), prefix), e);
    }
  }

  /** What the locks give: however the routes race, two requests with one key never ask for the same
      obligation. */
  lemma RowsOfOneKeyAskForDifferentObligations(events: seq<Event>, a: nat, b: nat)
    requires RoutesOnly(events)
    requires var rows := Run(Initial(), events).rows; a in rows && b in rows && a != b && SameKey(rows[a], rows[b])
    ensures var rows := Run(Initial(), events).rows; IdSet(rows[a].req.obligations) !! IdSet(rows[b].req.obligations)
  {
    RouteRuns(events);
    assert RowOk(Run(Initial(), events), a);
  }

  lemma DisjointDiffer(r: Request, q: Request)
    requires IdSet(r.obligations) !! IdSet(q.obligations) && r.obligations != []
    ensures FingerprintOf(r) != FingerprintOf(q)
  {
    SortSorts(r.obligations);
    SortSorts(q.obligations);
    var o := r.obligations[0];
    assert o in r.obligations && o.id in IdSet(r.obligations);
    assert o !in q.obligations;
    assert multiset(r.obligations)[o] > 0 && multiset(q.obligations)[o] == 0;
  }

  /** The condonation route that loses the race for the unique key: the row that won was made for other
      obligations, so that the answer due is a conflict; instead the violated key aborts the transaction,
      and the second find of the recovery is never made. The same request never gets here: it waits for
      the obligations and then finds the row. */
  lemma LostRaceOfARoute(events: seq<Event>, w: nat, id: nat, other: nat, expiresAt: int)
    requires RoutesOnly(events)
    requires var s := Run(Initial(), events);
             && w in s.workers && s.workers[w].Inserting? && s.workers[w].call.kind.Condonation? && !IdUsed(s, id)
             && other in s.rows && Answers(s.rows[other], s.workers[w].call)
    ensures var s, t := Run(Initial(), events), Next(Run(Initial(), events), Step(w, id, expiresAt));
            && s.rows[other].fingerprint != FingerprintOf(s.workers[w].call.req)
            && t.rows == s.rows && t.workers == s.workers[w := Refused(s.workers[w].call, TransactionAborted)]
  {
    RouteRuns(events);
    var s := Run(Initial(), events);
    var call := s.workers[w].call;
    assert WorkerOk(s, w) && RouteOk(s, w) && RowOk(s, other);
    DisjointDiffer(call.req, s.rows[other].req);
    NobodyHolds(s, call, other);
  }

  lemma NobodyHolds(s: Sys, call: Call, other: nat)
    requires Inv(s) && call.kind.Condonation? && other in s.rows && Answers(s.rows[other], call)
    ensures !KeyHeld(s, call) && KeyTaken(s.rows, call)
  {
    forall v | v in s.workers && s.workers[v].Holding? ensures !Answers(s.workers[v].row, call) {
      assert WorkerOk(s, v);
    }
  }

  /** A call outside a transaction that loses the race ends as its find would have: the row for the same
      fingerprint, a conflict for another. */
  lemma LostRaceAlone(s: Sys, w: nat, id: nat, other: nat, expiresAt: int)
    requires Inv(s) && w in s.workers && s.workers[w].Inserting? && s.workers[w].call.kind.Condonation?
    requires other in s.rows && Answers(s.rows[other], s.workers[w].call)
    requires !IdUsed(s, id) && !s.workers[w].call.inTransaction
    ensures var call, t := s.workers[w].call, Next(Next(s, Step(w, id, expiresAt)), Step(w, other, expiresAt));
            && t.rows == s.rows && w in t.workers
            && t.workers[w] == if s.rows[other].fingerprint == FingerprintOf(call.req)
                               then Returned(call, other, s.rows[other]) else Refused(call, Conflict)
  {
    var call := s.workers[w].call;
    NobodyHolds(s, call, other);
    var u := Next(s, Step(w, id, expiresAt));
    assert u.rows == s.rows && u.workers == s.workers[w := Refinding(call)];
  }

  /** A community-work route whose own find came before the row was committed is refused even when it asks
      for the same thing: its fresh requester key is in its fingerprint. */
  lemma RacedRetryConflicts(events: seq<Event>, w: nat, id: nat, expiresAt: int)
    requires RoutesOnly(events)
    requires var s := Run(Initial(), events);
             && w in s.workers && s.workers[w].Finding? && s.workers[w].locks != {} && s.workers[w].call.kind.CommunityWork?
             && Valid(s.workers[w].call.req) && id in s.rows && Answers(s.rows[id], s.workers[w].call)
    ensures var s, t := Run(Initial(), events), Next(Run(Initial(), events), Step(w, id, expiresAt));
            t.rows == s.rows && t.workers == s.workers[w := Refused(s.workers[w].call, Conflict)]
  {
    RouteRuns(events);
    var s := Run(Initial(), events);
    assert RouteOk(s, w) && OwnKey(s, w) && RowOk(s, id);
  }

  /******* The race that the locks leave *******/

  predicate Routed(call: Call) {
    call.kind.CommunityWork? && call.inTransaction && Valid(call.req) && call.req.requesterKey.None?
  }

  /** Both look, both lock, both find nothing, both insert, both commit. */
  function Race(a: Call, b: Call): seq<Event> {
    [Create(0, a), Create(1, b), Step(0, 0, 0), Step(1, 0, 0)] +
    [Lock(0, a.req.obligations, 0), Lock(1, b.req.obligations, 1), Step(0, 0, 0), Step(1, 0, 0)] +
    [Step(0, 0, 0), Step(1, 1, 0), Step(0, 0, 0), Step(1, 0, 0)]
  }

  lemma FourSteps(s: Sys, a: Event, b: Event, c: Event, d: Event)
    ensures Run(s, [a, b, c, d]) == Next(Next(Next(Next(s, a), b), c), d)
  {
    hide Next;
    assert [a, b, c, d][..3] == [a, b, c] && [a, b, c][..2] == [a, b] && [a, b][..1] == [a] && [a][..0] == [];
    assert Run(s, [a]) == Next(s, a);
    assert Run(s, [a, b]) == Next(Run(s, [a]), b);
    assert Run(s, [a, b, c]) == Next(Run(s, [a, b]), c);
  }

  function Both(rows: map<nat, Row>, p: Pc, q: Pc): Sys { Sys(rows, map[0 := p, 1 := q]) }

  lemma BothLook(a: Call, b: Call)
    requires a.inTransaction && b.inTransaction
    ensures Run(Initial(), [Create(0, a), Create(1, b), Step(0, 0, 0), Step(1, 0, 0)]) == Both(map[], Locking(a), Locking(b))
  {
    FourSteps(Initial(), Create(0, a), Create(1, b), Step(0, 0, 0), Step(1, 0, 0));
    hide Run;
    var s1 := Next(Initial(), Create(0, a));
    assert s1 == Sys(map[], map[0 := Looking(a)]);
    assert Next(s1, Create(1, b)) == Both(map[], Looking(a), Looking(b));
    assert Next(Both(map[], Looking(a), Looking(b)), Step(0, 0, 0)) == Both(map[], Locking(a), Looking(b));
    assert Next(Both(map[], Locking(a), Looking(b)), Step(1, 0, 0)) == Both(map[], Locking(a), Locking(b));
  }

  function LockedCall(call: Call, key: nat): Call { call.(req := call.req.(requesterKey := Some(key))) }

  lemma LockStep(s: Sys, w: nat, call: Call, key: nat)
    requires w in s.workers && s.workers[w] == Locking(call) && MayLock(s, call, call.req.obligations, key)
    requires call.kind.CommunityWork?
    ensures Next(s, Lock(w, call.req.obligations, key)) ==
            s.(workers := s.workers[w := Finding(LockedCall(call, key), IdSet(call.req.obligations))])
  {
    hide MayLock, IdSet;
  }

  lemma FindStep(s: Sys, w: nat, call: Call, locks: set<nat>)
    requires s.rows == map[] && w in s.workers && s.workers[w] == Finding(call, locks) && Valid(call.req)
    ensures Next(s, Step(w, 0, 0)) == s.(workers := s.workers[w := Inserting(call, locks)])
  {
    hide Valid;
    assert !Exists(s.rows, call);
  }

  lemma InsertStep(s: Sys, w: nat, call: Call, locks: set<nat>, id: nat)
    requires w in s.workers && s.workers[w] == Inserting(call, locks) && call.kind.CommunityWork? && call.inTransaction
    requires !IdUsed(s, id)
    ensures Next(s, Step(w, id, 0)) == s.(workers := s.workers[w := Holding(call, locks, id, NewRow(call, 0))])
  {
    hide NewRow, IdUsed;
  }

  lemma CommitStep(s: Sys, w: nat, id: nat)
    requires w in s.workers && s.workers[w].Holding?
    ensures Next(s, Step(w, id, 0)) == Committed(s, w)
  {
  }

  lemma BothLock(a: Call, b: Call)
    requires Routed(a) && Routed(b) && IdSet(a.req.obligations) !! IdSet(b.req.obligations)
    ensures var p, q := Finding(LockedCall(a, 0), IdSet(a.req.obligations)), Finding(LockedCall(b, 1), IdSet(b.req.obligations));
            Next(Next(Both(map[], Locking(a), Locking(b)), Lock(0, a.req.obligations, 0)), Lock(1, b.req.obligations, 1)) ==
            Both(map[], p, q)
  {
    var s0, la := Both(map[], Locking(a), Locking(b)), IdSet(a.req.obligations);
    var p, q := Finding(LockedCall(a, 0), la), Finding(LockedCall(b, 1), IdSet(b.req.obligations));
    var s1 := Both(map[], p, Locking(b));
    assert MayLock(s0, a, a.req.obligations, 0) && MayLock(s1, b, b.req.obligations, 1);
    hide Next, Ids, IdSet, Valid, MayLock;
    LockStep(s0, 0, a, 0);
    assert s0.(workers := s0.workers[0 := p]) == s1;
    LockStep(s1, 1, b, 1);
    assert s1.(workers := s1.workers[1 := q]) == Both(map[], p, q);
  }

  lemma BothFind(a: Call, b: Call, la: set<nat>, lb: set<nat>)
    requires Valid(a.req) && Valid(b.req)
    ensures Next(Next(Both(map[], Finding(a, la), Finding(b, lb)), Step(0, 0, 0)), Step(1, 0, 0)) ==
            Both(map[], Inserting(a, la), Inserting(b, lb))
  {
    hide Next, Valid;
    var s2, s3 := Both(map[], Finding(a, la), Finding(b, lb)), Both(map[], Inserting(a, la), Finding(b, lb));
    FindStep(s2, 0, a, la);
    assert s2.(workers := s2.workers[0 := Inserting(a, la)]) == s3;
    FindStep(s3, 1, b, lb);
    assert s3.(workers := s3.workers[1 := Inserting(b, lb)]) == Both(map[], Inserting(a, la), Inserting(b, lb));
  }

  lemma BothCommit(a: Call, b: Call, la: set<nat>, lb: set<nat>)
    requires a.kind.CommunityWork? && b.kind.CommunityWork? && a.inTransaction && b.inTransaction
    ensures Run(Both(map[], Inserting(a, la), Inserting(b, lb)), [Step(0, 0, 0), Step(1, 1, 0), Step(0, 0, 0), Step(1, 0, 0)]) ==
            Both(map[0 := NewRow(a, 0), 1 := NewRow(b, 0)], Returned(a, 0, NewRow(a, 0)), Returned(b, 1, NewRow(b, 0)))
  {
    var s0 := Both(map[], Inserting(a, la), Inserting(b, lb));
    FourSteps(s0, Step(0, 0, 0), Step(1, 1, 0), Step(0, 0, 0), Step(1, 0, 0));
    hide Run, Next, NewRow;
    var p, q := Holding(a, la, 0, NewRow(a, 0)), Holding(b, lb, 1, NewRow(b, 0));
    assert !IdUsed(s0, 0);
    InsertStep(s0, 0, a, la, 0);
    var s1 := Both(map[], p, Inserting(b, lb));
    assert s0.(workers := s0.workers[0 := p]) == s1;
    assert !IdUsed(s1, 1);
    InsertStep(s1, 1, b, lb, 1);
    var s2 := Both(map[], p, q);
    assert s1.(workers := s1.workers[1 := q]) == s2;
    CommitStep(s2, 0, 0);
    var r, t := Returned(a, 0, NewRow(a, 0)), Returned(b, 1, NewRow(b, 0));
    var s3 := Both(map[0 := NewRow(a, 0)], r, q);
    assert Committed(s2, 0) == s3;
    CommitStep(s3, 1, 0);
    assert Committed(s3, 1) == Both(map[0 := NewRow(a, 0), 1 := NewRow(b, 0)], r, t);
  }

  lemma StillValid(call: Call, key: nat)
    ensures Valid(LockedCall(call, key).req) == Valid(call.req)
  {
  }

  lemma RaceRuns(a: Call, b: Call)
    requires Routed(a) && Routed(b) && IdSet(a.req.obligations) !! IdSet(b.req.obligations)
    ensures var a', b' := LockedCall(a, 0), LockedCall(b, 1);
            Run(Initial(), Race(a, b)) ==
            Both(map[0 := NewRow(a', 0), 1 := NewRow(b', 0)], Returned(a', 0, NewRow(a', 0)), Returned(b', 1, NewRow(b', 0)))
  {
    StillValid(a, 0);
    StillValid(b, 1);
    hide Run, Next, NewRow, Valid, IdSet;
    var looks := [Create(0, a), Create(1, b), Step(0, 0, 0), Step(1, 0, 0)];
    var finds := [Lock(0, a.req.obligations, 0), Lock(1, b.req.obligations, 1), Step(0, 0, 0), Step(1, 0, 0)];
    var commits := [Step(0, 0, 0), Step(1, 1, 0), Step(0, 0, 0), Step(1, 0, 0)];
    BothLook(a, b);
    BothLock(a, b);
    BothFind(LockedCall(a, 0), LockedCall(b, 1), IdSet(a.req.obligations), IdSet(b.req.obligations));
    FourSteps(Both(map[], Locking(a), Locking(b)), Lock(0, a.req.obligations, 0), Lock(1, b.req.obligations, 1), Step(0, 0, 0), Step(1, 0, 0));
    BothCommit(LockedCall(a, 0), LockedCall(b, 1), IdSet(a.req.obligations), IdSet(b.req.obligations));
    RunAppends(Initial(), looks + finds, commits);
    RunAppends(Initial(), looks, finds);
  }

  /** The run leaves a row made for this call. */
  ghost predicate HasRowOf(events: seq<Event>, id: nat, call: Call) {
    var rows := Run(Initial(), events).rows;
    id in rows && Answers(rows[id], call) && IdSet(rows[id].req.obligations) == IdSet(call.req.obligations)
  }

  /** So the caller key of a community-work request is an idempotency key per obligation only: two valid
      requests of one requester with one key can both end with a row, each told of its own, iff they ask
      for different obligations. */
  lemma BothRequestsGetRowsIff(a: Call, b: Call)
    requires Routed(a) && Routed(b) && a.req.requester == b.req.requester && a.req.callerKey == b.req.callerKey
    ensures (exists events, i, j :: RoutesOnly(events) && i != j && HasRowOf(events, i, a) && HasRowOf(events, j, b)) <==>
            IdSet(a.req.obligations) !! IdSet(b.req.obligations)
  {
    if events, i, j :| RoutesOnly(events) && i != j && HasRowOf(events, i, a) && HasRowOf(events, j, b) {
      RowsOfOneKeyAskForDifferentObligations(events, i, j);
    }
    if IdSet(a.req.obligations) !! IdSet(b.req.obligations) {
      RaceRuns(a, b);
      hide Run;
      var events := Race(a, b);
      assert HasRowOf(events, 0, a) && HasRowOf(events, 1, b);
      assert RoutesOnly(events);
    }
  }
}

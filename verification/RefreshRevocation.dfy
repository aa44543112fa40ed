/** What the deletion of an operator leaves: which tokens can be live once its second statement has revoked
  the operator's tokens (apps/api/src/services/operators.ts, auth.ts, login.ts).
 */
module RefreshRevocation {
  import opened RefreshTokens

  /** A refresh or login of the operator has already read the operator as active. */
  predicate PastItsRead(pc: Pc, operator: nat) {
    (pc.Rotating? || pc.Revoked? || pc.Inserted? || pc.LoginInserting? || pc.LoginInserted?) && pc.operator == operator
  }

  /** ... and nothing that has happened yet keeps it from committing. */
  predicate CanCommit(s: Sys, v: nat, operator: nat) {
    v in s.workers && PastItsRead(s.workers[v], operator) &&
    (s.workers[v].Rotating? ==> s.workers[v].token in LiveOf(s.tokens, operator))
  }

  predicate Inactive(s: Sys, operator: nat) { operator in s.active && !s.active[operator] }

  /** The operator is not made active again, and worker `w` gets no other call. */
  predicate Ordinary(e: Event, w: nat, operator: nat) {
    && !(e.SetActive? && e.operator == operator && e.value)
    && !((e.Refresh? || e.Login? || e.SoftDelete?) && e.worker == w)
  }

  predicate AllOrdinary(events: seq<Event>, w: nat, operator: nat) { forall e <- events :: Ordinary(e, w, operator) }

  /** The deletion is done and the operator has a live token. */
  predicate LeftLive(t: Sys, w: nat, operator: nat) {
    w in t.workers && t.workers[w] == Deleted(operator) && LiveOf(t.tokens, operator) != {}
  }

  /******* When nobody can commit any more *******/

  ghost predicate NobodyCanCommit(s: Sys, operator: nat) {
    Inactive(s, operator) && forall v {:trigger CanCommit(s, v, operator)} :: !CanCommit(s, v, operator)
  }

  ghost predicate Closed(s: Sys, w: nat, operator: nat) {
    && NobodyCanCommit(s, operator)
    && w in s.workers
    && (s.workers[w] == Deleted(operator) ==> LiveOf(s.tokens, operator) == {})
    && (s.workers[w].RevokingRows? && s.workers[w].operator == operator ==>
          LiveOf(s.tokens, operator) <= s.workers[w].targets)
  }

  predicate Reactivates(e: Event, operator: nat) { e.SetActive? && e.operator == operator && e.value }

  lemma LiveShrinks(s: Sys, e: Event, operator: nat)
    requires Inv(s) && NobodyCanCommit(s, operator)
    ensures LiveOf(Next(s, e).tokens, operator) <= LiveOf(s.tokens, operator)
  {
    LiveMoves(s, e, operator);
    if e.Step? && e.worker in s.workers {
      assert !CanCommit(s, e.worker, operator);
    }
  }

  /** Nobody gets past its read of an inactive operator, and a dead token stays dead. */
  lemma NobodyNew(s: Sys, e: Event, operator: nat, v: nat)
    requires Inv(s) && NobodyCanCommit(s, operator) && !Reactivates(e, operator)
    ensures !CanCommit(Next(s, e), v, operator)
  {
    LiveShrinks(s, e, operator);
    assert !CanCommit(s, v, operator);
    assert v in s.workers ==> WorkerOk(s, v);
    hide Inv, Locked, IdUsed, Revoke, RevokeEach, Rotated, LiveOf;
    assert v in s.workers && s.workers[v].Rotating? && s.workers[v].operator == operator ==>
             s.workers[v].token !in LiveOf(s.tokens, operator);
    var t := Next(s, e);
    if v in t.workers && !(v in s.workers && t.workers[v] == s.workers[v]) && e.Step? && e.worker == v {
      DeadTokenIsRefused(s, v, operator);
    }
  }

  lemma DeadTokenIsRefused(s: Sys, v: nat, operator: nat)
    ensures v in s.workers && s.workers[v].Rotating? && WorkerOk(s, v) && s.workers[v].operator == operator &&
            s.workers[v].token !in LiveOf(s.tokens, operator) ==>
              s.workers[v].token in s.tokens && s.tokens[s.workers[v].token].revoked
  {
  }

  lemma NobodyStep(s: Sys, e: Event, operator: nat)
    requires Inv(s) && NobodyCanCommit(s, operator) && !Reactivates(e, operator)
    ensures NobodyCanCommit(Next(s, e), operator)
  {
    forall v ensures !CanCommit(Next(s, e), v, operator) {
      NobodyNew(s, e, operator, v);
    }
  }

  lemma DeletionMoves(s: Sys, e: Event, w: nat, operator: nat)
    requires Inv(s) && Closed(s, w, operator) && Ordinary(e, w, operator)
    ensures var t := Next(s, e);
            && w in t.workers
            && (t.workers[w] == Deleted(operator) ==> LiveOf(t.tokens, operator) == {})
            && (t.workers[w].RevokingRows? && t.workers[w].operator == operator ==>
                  LiveOf(t.tokens, operator) <= t.workers[w].targets)
  {
    LiveShrinks(s, e, operator);
    hide Inv, IdUsed, Rotated;
  }

  lemma ClosedStep(s: Sys, e: Event, w: nat, operator: nat)
    requires Inv(s) && Closed(s, w, operator) && Ordinary(e, w, operator)
    ensures Closed(Next(s, e), w, operator)
  {
    NobodyStep(s, e, operator);
    DeletionMoves(s, e, w, operator);
  }

  lemma {:induction false} ClosedRun(s: Sys, events: seq<Event>, w: nat, operator: nat)
    requires Inv(s) && Closed(s, w, operator) && AllOrdinary(events, w, operator)
    ensures Closed(Run(s, events), w, operator)
  {
    if events != [] {
      var prefix, e := events[..|events| - 1], events[|events| - 1];
      assert e in events && forall x <- prefix :: x in events;
      ClosedRun(s, prefix, w, operator);
      RunInv(s, prefix);
      ClosedStep(Run(s, prefix), e, w, operator);
    }
  }

  /******* When somebody can *******/

  lemma {:induction false} Above(ids: set<nat>) returns (n: nat)
    ensures forall id <- ids :: id < n
  {
    if ids == {} {
      n := 0;
    } else {
      var x :| x in ids;
      var m := Above(ids - {x});
      n := if x < m then m else x + 1;
      forall id | id in ids ensures id < n {
        assert id == x || id in ids - {x};
      }
    }
  }

  lemma FreshId(s: Sys) returns (n: nat)
    ensures !IdUsed(s, n)
  {
    var reserved := set v | v in s.workers && (s.workers[v].Inserted? || s.workers[v].LoginInserted?) :: s.workers[v].newToken;
    n := Above(s.tokens.Keys + reserved);
    forall v | v in s.workers ensures !Reserves(s.workers[v], n) {
      if s.workers[v].Inserted? || s.workers[v].LoginInserted? {
        assert s.workers[v].newToken in reserved;
      }
    }
  }

  lemma {:induction false} RunAppends(s: Sys, a: seq<Event>, b: seq<Event>)
    ensures Run(s, a + b) == Run(Run(s, a), b)
  {
    if b == [] {
      assert a + b == a;
    } else {
      RunAppends(s, a, b[..|b| - 1]);
      assert (a + b)[..|a + b| - 1] == a + b[..|b| - 1];
    }
  }

  lemma RunCons(s: Sys, e: Event, rest: seq<Event>)
    ensures Run(s, [e] + rest) == Run(Next(s, e), rest)
  {
    hide Next;
    RunAppends(s, [e], rest);
    assert [e][..0] == [];
    assert Run(s, [e]) == Next(Run(s, []), e);
  }

  function Stage(pc: Pc): nat {
    match pc
    case Rotating(_, _) => 3
    case Revoked(_, _) => 2
    case LoginInserting(_) => 2
    case _ => 1
  }

  /** One step of worker `v` towards its COMMIT. */
  lemma DriveStep(s: Sys, v: nat, operator: nat, n: nat)
    requires Inv(s) && CanCommit(s, v, operator) && !IdUsed(s, n)
    requires s.workers[v].Rotating? ==> !Locked(s, s.workers[v].token)
    ensures var t := Next(s, Step(v, 0, n, 0));
            && t.active == s.active && v in t.workers
            && (forall x :: x in s.workers && x != v ==> x in t.workers && t.workers[x] == s.workers[x])
            && if s.workers[v].Inserted? || s.workers[v].LoginInserted?
               then s.workers[v].newToken !in s.tokens && s.workers[v].newToken in LiveOf(t.tokens, operator)
               else t.tokens == s.tokens && CanCommit(t, v, operator) && !t.workers[v].Rotating? &&
                    Stage(t.workers[v]) < Stage(s.workers[v])
  {
    assert WorkerOk(s, v);
  }

  /** A refresh or login that can commit does so when the others let it. */
  lemma {:induction false} Drive(s: Sys, v: nat, w: nat, operator: nat) returns (events: seq<Event>, n: nat)
    requires Inv(s) && CanCommit(s, v, operator) && v != w
    requires s.workers[v].Rotating? ==> !Locked(s, s.workers[v].token)
    ensures AllOrdinary(events, w, operator)
    ensures var t := Run(s, events);
            && t.active == s.active && n !in s.tokens && n in LiveOf(t.tokens, operator)
            && (forall x :: x in s.workers && x != v ==> x in t.workers && t.workers[x] == s.workers[x])
    decreases Stage(s.workers[v])
  {
    var pc := s.workers[v];
    var id := FreshId(s);
    var e := Step(v, 0, id, 0);
    DriveStep(s, v, operator, id);
    NextInv(s, e);
    hide Next, Inv, CanCommit;
    if pc.Inserted? || pc.LoginInserted? {
      events, n := [e], pc.newToken;
      RunCons(s, e, []);
      assert [e] + [] == [e];
    } else {
      var rest;
      rest, n := Drive(Next(s, e), v, w, operator);
      events := [e] + rest;
      RunCons(s, e, rest);
    }
  }

  /** All of these workers are rolled back. */
  lemma {:induction false} AbortEach(s: Sys, ws: set<nat>, w: nat, operator: nat) returns (events: seq<Event>)
    requires w !in ws && ws <= s.workers.Keys
    ensures AllOrdinary(events, w, operator)
    ensures var t := Run(s, events);
            && t.tokens == s.tokens && t.active == s.active && t.workers.Keys == s.workers.Keys
            && (forall v <- s.workers :: v !in ws ==> t.workers[v] == s.workers[v])
            && (forall v <- ws :: !Running(t.workers[v]))
    decreases |ws|
  {
    if ws == {} {
      events := [];
    } else {
      var v :| v in ws;
      var e, t := Abort(v), Next(s, Abort(v));
      assert t.tokens == s.tokens && t.active == s.active && !Running(t.workers[v]);
      var rest := AbortEach(t, ws - {v}, w, operator);
      events := [e] + rest;
      RunCons(s, e, rest);
      hide Next, Run;
      assert forall x <- ws :: x == v || x in ws - {v};
    }
  }

  /** The deletion's second statement once nothing is locked. */
  lemma RevokingEnds(s: Sys, w: nat, n: nat)
    requires w in s.workers && s.workers[w].RevokingRows? && forall v <- s.workers :: v != w ==> !Running(s.workers[v])
    requires n in LiveOf(s.tokens, s.workers[w].operator) && n !in s.workers[w].targets
    ensures LeftLive(Next(s, Step(w, 0, 0, 0)), w, s.workers[w].operator)
  {
    forall id ensures !Locked(s, id) {
    }
    assert n in LiveOf(Next(s, Step(w, 0, 0, 0)).tokens, s.workers[w].operator);
  }

  /** The one that holds the token, if somebody does, can commit first. */
  lemma SomebodyIsFree(s: Sys, v: nat, operator: nat) returns (u: nat)
    requires Inv(s) && CanCommit(s, v, operator)
    ensures CanCommit(s, u, operator) && (s.workers[u].Rotating? ==> !Locked(s, s.workers[u].token))
  {
    u := v;
    if s.workers[v].Rotating? && Locked(s, s.workers[v].token) {
      u :| u in s.workers && HoldsLock(s.workers[u], s.workers[v].token);
      assert WorkerOk(s, u);
    }
  }

  lemma SnapshotStep(s: Sys, w: nat, u: nat, operator: nat)
    requires Inv(s) && w in s.workers && s.workers[w] == RevokingAll(operator) && CanCommit(s, u, operator)
    requires s.workers[u].Rotating? ==> !Locked(s, s.workers[u].token)
    ensures var t := Next(s, Step(w, 0, 0, 0));
            && t == s.(workers := s.workers[w := RevokingRows(operator, LiveOf(s.tokens, operator))])
            && CanCommit(t, u, operator) && u != w
            && (t.workers[u].Rotating? ==> !Locked(t, t.workers[u].token))
  {
  }

  /** The deletion takes its snapshot, then worker `v` commits, then the deletion ends. */
  lemma SurvivorRun(s: Sys, w: nat, v: nat) returns (events: seq<Event>)
    requires Inv(s) && w in s.workers && s.workers[w].RevokingAll? && CanCommit(s, v, s.workers[w].operator)
    ensures AllOrdinary(events, w, s.workers[w].operator)
    ensures LeftLive(Run(s, events), w, s.workers[w].operator)
  {
    var op, e := s.workers[w].operator, Step(w, 0, 0, 0);
    var u := SomebodyIsFree(s, v, op);
    SnapshotStep(s, w, u, op);
    NextInv(s, e);
    var s1 := Next(s, e);
    hide Next, Inv, CanCommit, LeftLive;
    var commit, n := Drive(s1, u, w, op);
    var s2 := Run(s1, commit);
    assert w in s2.workers && s2.workers[w] == s1.workers[w];
    var aborts := AbortEach(s2, s2.workers.Keys - {w}, w, op);
    var s3 := Run(s2, aborts);
    RevokingEnds(s3, w, n);
    events := [e] + (commit + (aborts + [e]));
    RunCons(s, e, commit + (aborts + [e]));
    RunAppends(s1, commit, aborts + [e]);
    RunAppends(s2, aborts, [e]);
    RunCons(s3, e, []);
    assert [e] + [] == [e];
  }

  lemma NobodyCloses(s: Sys, w: nat)
    requires w in s.workers && s.workers[w].RevokingAll? && Inactive(s, s.workers[w].operator)
    requires forall v :: !CanCommit(s, v, s.workers[w].operator)
    ensures Closed(s, w, s.workers[w].operator)
  {
  }

  /** When an operator's deletion can leave a live token: at the moment its second statement starts, for an
      operator that is not made active again, iff some refresh or login of the operator has already read
      it as active and can still commit (for a refresh: its token is live). Otherwise nothing of the
      operator lives once the deletion is done, whatever else happens. */
  lemma DeletionCanLeaveALiveTokenIff(s: Sys, w: nat)
    requires Inv(s) && w in s.workers && s.workers[w].RevokingAll? && Inactive(s, s.workers[w].operator)
    ensures var op := s.workers[w].operator;
            (exists events :: AllOrdinary(events, w, op) && LeftLive(Run(s, events), w, op)) <==>
            (exists v :: CanCommit(s, v, op))
  {
    var op := s.workers[w].operator;
    if v :| CanCommit(s, v, op) {
      var events := SurvivorRun(s, w, v);
      assert AllOrdinary(events, w, op) && LeftLive(Run(s, events), w, op);
    } else {
      NobodyCloses(s, w);
      forall events | AllOrdinary(events, w, op) ensures !LeftLive(Run(s, events), w, op) {
        ClosedRun(s, events, w, op);
      }
    }
  }

  function Race(operator: nat): seq<Event> {
    [Login(0, operator), Step(0, 0, 0, 0), SoftDelete(1, operator), Step(1, 0, 0, 0)]
  }

  /** A login reads the operator and then a deletion deactivates it. */
  lemma RaceStarts(operator: nat)
    ensures Run(Sys(map[], map[operator := true], map[]), Race(operator)) ==
            Sys(map[], map[operator := false], map[0 := LoginInserting(operator), 1 := RevokingAll(operator)])
  {
    var s0, e := Sys(map[], map[operator := true], map[]), Race(operator);
    FourSteps(s0, e[0], e[1], e[2], e[3]);
    hide Run;
    var s1 := Sys(map[], map[operator := true], map[0 := LoginReading(operator)]);
    assert Next(s0, e[0]) == s1;
    var s2 := Sys(map[], map[operator := true], map[0 := LoginInserting(operator)]);
    assert Next(s1, e[1]) == s2;
    var s3 := Sys(map[], map[operator := true], map[0 := LoginInserting(operator), 1 := Deactivating(operator)]);
    assert Next(s2, e[2]) == s3;
    assert Next(s3, e[3]).workers == map[0 := LoginInserting(operator), 1 := RevokingAll(operator)];
    assert Next(s3, e[3]).active == map[operator := false];
  }

  lemma FourSteps(s: Sys, a: Event, b: Event, c: Event, d: Event)
    ensures Run(s, [a, b, c, d]) == Next(Next(Next(Next(s, a), b), c), d)
  {
    hide Next;
    assert [a, b, c, d][..3] == [a, b, c] && [a, b, c][..2] == [a, b] && [a, b][..1] == [a] && [a][..0] == [];
    assert Run(s, [a]) == Next(s, a);
    assert Run(s, [a, b]) == Next(Run(s, [a]), b);
    assert Run(s, [a, b, c]) == Next(Run(s, [a, b]), c);
  }

  /** It happens: that login commits between the start and the end of the deletion's second statement. */
  lemma SurvivorIsReachable(operator: nat)
    ensures exists events :: LeftLive(Run(Sys(map[], map[operator := true], map[]), events), 1, operator)
  {
    var s0 := Sys(map[], map[operator := true], map[]);
    RaceStarts(operator);
    RunInv(s0, Race(operator));
    var s4 := Run(s0, Race(operator));
    assert CanCommit(s4, 0, operator);
    hide Run, Inv, LeftLive, CanCommit, Race;
    var rest := SurvivorRun(s4, 1, 0);
    RunAppends(s0, Race(operator), rest);
    assert LeftLive(Run(s0, Race(operator) + rest), 1, operator);
  }

  /** Nothing lives for good: once the operator is inactive and nobody can commit, the live tokens only
      become fewer. */
  lemma {:induction false} SurvivorsOnlyShrink(s: Sys, events: seq<Event>, operator: nat)
    requires Inv(s) && NobodyCanCommit(s, operator) && forall e <- events :: !Reactivates(e, operator)
    ensures NobodyCanCommit(Run(s, events), operator)
    ensures LiveOf(Run(s, events).tokens, operator) <= LiveOf(s.tokens, operator)
  {
    if events != [] {
      var prefix, e := events[..|events| - 1], events[|events| - 1];
      assert e in events && forall x <- prefix :: x in events;
      SurvivorsOnlyShrink(s, prefix, operator);
      RunInv(s, prefix);
      NobodyStep(Run(s, prefix), e, operator);
      LiveShrinks(Run(s, prefix), e, operator);
    }
  }
}

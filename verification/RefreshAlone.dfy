/** What one refresh, one login and one deletion do while nothing else moves
  (apps/api/src/services/auth.ts, login.ts, operators.ts): the steps of the state machine, run to their end
  by one worker, told by the rows they find.
 */
module RefreshAlone {
  import opened Common
  import opened RefreshTokens

  predicate Idle(s: Sys, w: nat) { w in s.workers ==> !Running(s.workers[w]) }

  lemma RunCons(s: Sys, e: Event, rest: seq<Event>)
    ensures Run(s, [e] + rest) == Run(Next(s, e), rest)
    decreases |rest|
  {
    hide Next;
    if rest == [] {
      assert [e] + rest == [e] && [e][..0] == [] && Run(s, []) == s;
      assert Run(s, [e]) == Next(s, e);
    } else {
      var n := |rest| - 1;
      assert ([e] + rest)[..n + 1] == [e] + rest[..n];
      RunCons(s, e, rest[..n]);
    }
  }

  function Steps(n: nat, e: Event): seq<Event> { if n == 0 then [] else [e] + Steps(n - 1, e) }

  lemma Unroll(s: Sys, n: nat, e: Event)
    requires n > 0
    ensures Run(s, Steps(n, e)) == Run(Next(s, e), Steps(n - 1, e))
  {
    RunCons(s, e, Steps(n - 1, e));
  }

  /** A worker that has come to rest stays there. */
  lemma {:induction false} RestingStays(s: Sys, n: nat, e: Event)
    requires e.Step? && e.worker in s.workers && !Running(s.workers[e.worker])
    ensures Run(s, Steps(n, e)) == s
  {
    if n == 0 {
      assert Steps(0, e) == [];
    } else {
      Unroll(s, n, e);
      RestStep(s, e);
      RestingStays(s, n - 1, e);
    }
  }

  lemma RestStep(s: Sys, e: Event)
    requires e.Step? && e.worker in s.workers && !Running(s.workers[e.worker])
    ensures Next(s, e) == s
  {
    hide Locked, IdUsed;
  }

  /** `s` with worker `w` at `pc`. */
  function At(s: Sys, w: nat, pc: Pc): Sys { s.(workers := s.workers[w := pc]) }

  /** The row is free: no other worker holds it. */
  predicate FreeFor(s: Sys, w: nat, id: nat) { forall v <- s.workers :: v != w ==> !HoldsLock(s.workers[v], id) }

  /** No row has the id and no other worker is inserting it. */
  predicate NewFor(s: Sys, w: nat, id: nat) {
    id !in s.tokens && forall v <- s.workers :: v != w ==> !Reserves(s.workers[v], id)
  }

  lemma FindStage(s: Sys, w: nat, id: nat, e: Event)
    requires e.Step? && e.worker == w
    ensures var found := id in s.tokens && !s.tokens[id].revoked && e.now < s.tokens[id].expiresAt;
            Next(At(s, w, Finding(id)), e) ==
            At(s, w, if found then ReadingOperator(id, s.tokens[id].operator) else TokenInvalid(id))
  {
  }

  lemma ReadStage(s: Sys, w: nat, id: nat, op: nat, e: Event)
    requires e.Step? && e.worker == w
    ensures Next(At(s, w, ReadingOperator(id, op)), e) ==
            At(s, w, if op in s.active && s.active[op] then Rotating(id, op) else RevokingOrphan(id))
  {
  }

  lemma OrphanStage(s: Sys, w: nat, id: nat, e: Event)
    requires e.Step? && e.worker == w && FreeFor(s, w, id) && id in s.tokens && !s.tokens[id].revoked
    ensures Next(At(s, w, RevokingOrphan(id)), e) ==
            At(s.(tokens := s.tokens[id := s.tokens[id].(revoked := true)]), w, TokenInvalid(id))
  {
    assert !Locked(At(s, w, RevokingOrphan(id)), id);
  }

  lemma RotateStage(s: Sys, w: nat, id: nat, op: nat, e: Event)
    requires e.Step? && e.worker == w && FreeFor(s, w, id) && id in s.tokens && !s.tokens[id].revoked
    ensures Next(At(s, w, Rotating(id, op)), e) == At(s, w, Revoked(id, op))
  {
    assert !Locked(At(s, w, Rotating(id, op)), id);
  }

  lemma InsertStage(s: Sys, w: nat, id: nat, op: nat, e: Event)
    requires e.Step? && e.worker == w && NewFor(s, w, e.newId)
    ensures Next(At(s, w, Revoked(id, op)), e) == At(s, w, Inserted(id, op, e.newId, e.now + e.ttl))
  {
    assert !IdUsed(At(s, w, Revoked(id, op)), e.newId);
  }

  lemma CommitStage(s: Sys, w: nat, id: nat, op: nat, n: nat, exp: int, e: Event)
    requires e.Step? && e.worker == w && id in s.tokens
    ensures Next(At(s, w, Inserted(id, op, n, exp)), e) ==
            At(s.(tokens := s.tokens[id := s.tokens[id].(revoked := true)][n := Token(op, exp, false, Some(id))]), w,
               Refreshed(id, n))
  {
  }

  lemma StartStage(s: Sys, w: nat, pc: Pc, e: Event)
    requires Idle(s, w)
    requires match pc
             case Finding(id) => e == Refresh(w, id)
             case LoginReading(op) => e == Login(w, op)
             case Deactivating(op) => e == SoftDelete(w, op)
             case _ => false
    ensures Next(s, e) == At(s, w, pc)
  {
  }

  /** A refresh that nothing disturbs: with a live, unexpired token of an active operator it revokes exactly
      that token, inserts exactly its successor and returns it; of an inactive operator it revokes the
      token; in all other cases it changes nothing. */
  lemma LoneRefresh(s: Sys, w: nat, id: nat, now: int, newId: nat, ttl: int)
    requires Idle(s, w) && FreeFor(s, w, id) && NewFor(s, w, newId)
    ensures var t := Run(s, [Refresh(w, id)] + Steps(5, Step(w, now, newId, ttl)));
            if !(id in s.tokens && !s.tokens[id].revoked && now < s.tokens[id].expiresAt) then t == At(s, w, TokenInvalid(id))
            else
              var op := s.tokens[id].operator;
              var spent := s.tokens[id := s.tokens[id].(revoked := true)];
              if op in s.active && s.active[op]
              then t == At(s.(tokens := spent[newId := Token(op, now + ttl, false, Some(id))]), w, Refreshed(id, newId))
              else t == At(s.(tokens := spent), w, TokenInvalid(id))
  {
    hide Run, Next, Steps, FreeFor, NewFor;
    var e := Step(w, now, newId, ttl);
    RunCons(s, Refresh(w, id), Steps(5, e));
    StartStage(s, w, Finding(id), Refresh(w, id));
    Unroll(At(s, w, Finding(id)), 5, e);
    FindStage(s, w, id, e);
    if !(id in s.tokens && !s.tokens[id].revoked && now < s.tokens[id].expiresAt) {
      RestingStays(At(s, w, TokenInvalid(id)), 4, e);
    } else {
      var op := s.tokens[id].operator;
      Unroll(At(s, w, ReadingOperator(id, op)), 4, e);
      ReadStage(s, w, id, op, e);
      if op in s.active && s.active[op] {
        LoneRotation(s, w, id, op, e);
      } else {
        var u := At(s.(tokens := s.tokens[id := s.tokens[id].(revoked := true)]), w, TokenInvalid(id));
        Unroll(At(s, w, RevokingOrphan(id)), 3, e);
        OrphanStage(s, w, id, e);
        RestingStays(u, 2, e);
      }
    }
  }

  lemma LoneRotation(s: Sys, w: nat, id: nat, op: nat, e: Event)
    requires e.Step? && e.worker == w && FreeFor(s, w, id) && NewFor(s, w, e.newId)
    requires id in s.tokens && !s.tokens[id].revoked
    ensures Run(At(s, w, Rotating(id, op)), Steps(3, e)) ==
            At(s.(tokens := s.tokens[id := s.tokens[id].(revoked := true)]
                              [e.newId := Token(op, e.now + e.ttl, false, Some(id))]), w, Refreshed(id, e.newId))
  {
    hide Run, Next, Steps, FreeFor, NewFor;
    var held := Inserted(id, op, e.newId, e.now + e.ttl);
    Unroll(At(s, w, Rotating(id, op)), 3, e);
    RotateStage(s, w, id, op, e);
    Unroll(At(s, w, Revoked(id, op)), 2, e);
    InsertStage(s, w, id, op, e);
    Unroll(At(s, w, held), 1, e);
    CommitStage(s, w, id, op, e.newId, e.now + e.ttl, e);
    RestingStays(Next(At(s, w, held), e), 0, e);
  }

  lemma LoginReadStage(s: Sys, w: nat, op: nat, e: Event)
    requires e.Step? && e.worker == w
    ensures Next(At(s, w, LoginReading(op)), e) ==
            At(s, w, if op in s.active && s.active[op] then LoginInserting(op) else Failed)
  {
  }

  lemma LoginInsertStage(s: Sys, w: nat, op: nat, e: Event)
    requires e.Step? && e.worker == w && NewFor(s, w, e.newId)
    ensures Next(At(s, w, LoginInserting(op)), e) == At(s, w, LoginInserted(op, e.newId, e.now + e.ttl))
  {
    assert !IdUsed(At(s, w, LoginInserting(op)), e.newId);
  }

  lemma LoginCommitStage(s: Sys, w: nat, op: nat, n: nat, exp: int, e: Event)
    requires e.Step? && e.worker == w
    ensures Next(At(s, w, LoginInserted(op, n, exp)), e) ==
            At(s.(tokens := s.tokens[n := Token(op, exp, false, None)]), w, LoggedIn(op, n))
  {
  }

  /** A login that nothing disturbs gives an active operator a new live token, and nobody else anything. */
  lemma LoneLogin(s: Sys, w: nat, operator: nat, now: int, newId: nat, ttl: int)
    requires Idle(s, w) && NewFor(s, w, newId)
    ensures var t := Run(s, [Login(w, operator)] + Steps(3, Step(w, now, newId, ttl)));
            if operator in s.active && s.active[operator]
            then t == At(s.(tokens := s.tokens[newId := Token(operator, now + ttl, false, None)]), w, LoggedIn(operator, newId))
            else t == At(s, w, Failed)
  {
    hide Run, Next, Steps, NewFor;
    var e := Step(w, now, newId, ttl);
    RunCons(s, Login(w, operator), Steps(3, e));
    StartStage(s, w, LoginReading(operator), Login(w, operator));
    Unroll(At(s, w, LoginReading(operator)), 3, e);
    LoginReadStage(s, w, operator, e);
    if operator in s.active && s.active[operator] {
      LoneSession(s, w, operator, e);
    } else {
      RestingStays(At(s, w, Failed), 2, e);
    }
  }

  lemma LoneSession(s: Sys, w: nat, op: nat, e: Event)
    requires e.Step? && e.worker == w && NewFor(s, w, e.newId)
    ensures Run(At(s, w, LoginInserting(op)), Steps(2, e)) ==
            At(s.(tokens := s.tokens[e.newId := Token(op, e.now + e.ttl, false, None)]), w, LoggedIn(op, e.newId))
  {
    hide Run, Next, Steps, NewFor;
    var held := LoginInserted(op, e.newId, e.now + e.ttl);
    Unroll(At(s, w, LoginInserting(op)), 2, e);
    LoginInsertStage(s, w, op, e);
    Unroll(At(s, w, held), 1, e);
    LoginCommitStage(s, w, op, e.newId, e.now + e.ttl, e);
    RestingStays(Next(At(s, w, held), e), 0, e);
  }

  lemma DeactivateStage(s: Sys, w: nat, op: nat, e: Event)
    requires e.Step? && e.worker == w
    ensures Next(At(s, w, Deactivating(op)), e) ==
            if op in s.active then At(s.(active := s.active[op := false]), w, RevokingAll(op)) else At(s, w, Failed)
  {
  }

  lemma SnapshotStage(s: Sys, w: nat, op: nat, e: Event)
    requires e.Step? && e.worker == w
    ensures Next(At(s, w, RevokingAll(op)), e) == At(s, w, RevokingRows(op, LiveOf(s.tokens, op)))
  {
  }

  /** The tokens with all of the operator's revoked. */
  function Without(tokens: map<nat, Token>, operator: nat): map<nat, Token> {
    map id | id in tokens :: if tokens[id].operator == operator then tokens[id].(revoked := true) else tokens[id]
  }

  lemma RevokeStage(s: Sys, w: nat, op: nat, e: Event)
    requires e.Step? && e.worker == w && forall id <- s.tokens :: FreeFor(s, w, id)
    ensures Next(At(s, w, RevokingRows(op, LiveOf(s.tokens, op))), e) ==
            At(s.(tokens := Without(s.tokens, op)), w, Deleted(op))
  {
    var live := LiveOf(s.tokens, op);
    var rows := RevokingRows(op, live);
    forall id | id in live ensures !Locked(At(s, w, rows), id) {
      assert FreeFor(s, w, id);
    }
    assert RevokeEach(s.tokens, live) == Without(s.tokens, op);
    hide LiveOf, RevokeEach, Without, Locked, FreeFor;
  }

  /** A deletion that nothing disturbs deactivates a known operator and revokes all of its tokens and no
      other; an unknown one changes nothing. */
  lemma LoneDeletion(s: Sys, w: nat, operator: nat, now: int, newId: nat, ttl: int)
    requires Idle(s, w) && forall id <- s.tokens :: FreeFor(s, w, id)
    ensures var t := Run(s, [SoftDelete(w, operator)] + Steps(3, Step(w, now, newId, ttl)));
            if operator !in s.active then t == At(s, w, Failed)
            else
              var revoked := map id | id in s.tokens ::
                if s.tokens[id].operator == operator then s.tokens[id].(revoked := true) else s.tokens[id];
              t == At(s.(active := s.active[operator := false], tokens := revoked), w, Deleted(operator))
  {
    hide Run, Next, Steps, LiveOf;
    var e := Step(w, now, newId, ttl);
    RunCons(s, SoftDelete(w, operator), Steps(3, e));
    StartStage(s, w, Deactivating(operator), SoftDelete(w, operator));
    Unroll(At(s, w, Deactivating(operator)), 3, e);
    DeactivateStage(s, w, operator, e);
    if operator in s.active {
      LoneRevocation(s.(active := s.active[operator := false]), w, operator, e);
    } else {
      RestingStays(At(s, w, Failed), 2, e);
    }
  }

  lemma LoneRevocation(s: Sys, w: nat, op: nat, e: Event)
    requires e.Step? && e.worker == w && forall id <- s.tokens :: FreeFor(s, w, id)
    ensures Run(At(s, w, RevokingAll(op)), Steps(2, e)) == At(s.(tokens := Without(s.tokens, op)), w, Deleted(op))
  {
    hide Run, Next, Steps, LiveOf, Without, FreeFor;
    var rows := RevokingRows(op, LiveOf(s.tokens, op));
    Unroll(At(s, w, RevokingAll(op)), 2, e);
    SnapshotStage(s, w, op, e);
    Unroll(At(s, w, rows), 1, e);
    RevokeStage(s, w, op, e);
    RestingStays(Next(At(s, w, rows), e), 0, e);
  }
}

/** Where every refresh token comes from (apps/api/src/services/auth.ts, login.ts): over every run, a token
  with a parent was issued by one refresh that had found that parent live and unexpired and its operator
  active, and a token without one by a login of an active operator; either way it expires its lifetime
  after the clock that was read for its insert.
 */
module RefreshProvenance {
  import opened Common
  import opened RefreshTokens

  /** Step `i` of the run is worker `w`'s, at the clock `now`. */
  predicate StepsAt(events: seq<Event>, i: nat, w: nat) {
    i < |events| && events[i].Step? && events[i].worker == w
  }

  function Before(s0: Sys, events: seq<Event>, i: nat): Sys
    requires i <= |events|
  {
    Run(s0, events[..i])
  }

  /** Step `i` found token `id` of `operator`: unrevoked, and not expired at its clock. */
  predicate FoundAt(s0: Sys, events: seq<Event>, i: nat, w: nat, id: nat, operator: nat) {
    && StepsAt(events, i, w)
    && var s := Before(s0, events, i);
       && w in s.workers && s.workers[w] == Finding(id)
       && id in s.tokens && s.tokens[id].operator == operator
       && !s.tokens[id].revoked && events[i].now < s.tokens[id].expiresAt
  }

  /** Step `i` read the operator of a refresh or a login, and it was active. */
  predicate SeenActiveAt(s0: Sys, events: seq<Event>, i: nat, w: nat, token: Option<nat>, operator: nat) {
    && StepsAt(events, i, w)
    && var s := Before(s0, events, i);
       && w in s.workers && operator in s.active && s.active[operator]
       && s.workers[w] == match token case Some(id) => ReadingOperator(id, operator) case None => LoginReading(operator)
  }

  /** Step `i` inserted token `n`, new and with `ttl` to live. */
  predicate IssuedAt(s0: Sys, events: seq<Event>, i: nat, w: nat, token: Option<nat>, operator: nat, n: nat, expiresAt: int) {
    && StepsAt(events, i, w) && events[i].newId == n && expiresAt == events[i].now + events[i].ttl
    && var s := Before(s0, events, i);
       && w in s.workers && n !in s.tokens
       && s.workers[w] == match token case Some(id) => Revoked(id, operator) case None => LoginInserting(operator)
  }

  /** Step `j` let a refresh of `token`, or a login, go on to its insert: for a refresh, after an earlier step
      of the same worker had found the token. */
  ghost predicate EntitledAt(s0: Sys, events: seq<Event>, j: nat, w: nat, token: Option<nat>, operator: nat) {
    && SeenActiveAt(s0, events, j, w, token, operator)
    && (token.Some? ==> exists i: nat :: i < j && FoundAt(s0, events, i, w, token.value, operator))
  }

  ghost predicate Entitled(s0: Sys, events: seq<Event>, w: nat, token: Option<nat>, operator: nat) {
    exists j :: EntitledAt(s0, events, j, w, token, operator)
  }

  ghost predicate Issued(s0: Sys, events: seq<Event>, w: nat, token: Option<nat>, operator: nat, n: nat, expiresAt: int) {
    exists j: nat, k: nat :: j < k && EntitledAt(s0, events, j, w, token, operator) &&
                   IssuedAt(s0, events, k, w, token, operator, n, expiresAt)
  }

  ghost predicate WorkerEarned(s0: Sys, events: seq<Event>, w: nat, pc: Pc) {
    match pc
    case ReadingOperator(id, op) => exists i :: FoundAt(s0, events, i, w, id, op)
    case Rotating(id, op) => Entitled(s0, events, w, Some(id), op)
    case Revoked(id, op) => Entitled(s0, events, w, Some(id), op)
    case Inserted(id, op, n, exp) => Issued(s0, events, w, Some(id), op, n, exp)
    case LoginInserting(op) => Entitled(s0, events, w, None, op)
    case LoginInserted(op, n, exp) => Issued(s0, events, w, None, op, n, exp)
    case _ => true
  }

  ghost predicate TokenEarned(s0: Sys, events: seq<Event>, n: nat, t: Token) {
    exists w :: Issued(s0, events, w, t.parent, t.operator, n, t.expiresAt)
  }

  ghost predicate AllEarned(s0: Sys, events: seq<Event>, s: Sys) {
    && (forall n <- s.tokens :: n in s0.tokens || TokenEarned(s0, events, n, s.tokens[n]))
    && (forall w <- s.workers :: WorkerEarned(s0, events, w, s.workers[w]))
  }

  lemma SameBefore(s0: Sys, events: seq<Event>, e: Event, i: nat)
    requires i < |events|
    ensures (events + [e])[i] == events[i] && Before(s0, events + [e], i) == Before(s0, events, i)
  {
    assert (events + [e])[..i] == events[..i];
  }

  lemma FoundEarlier(s0: Sys, events: seq<Event>, e: Event, w: nat, id: nat, operator: nat)
    requires exists i :: FoundAt(s0, events, i, w, id, operator)
    ensures exists i :: FoundAt(s0, events + [e], i, w, id, operator)
  {
    hide Before;
    var i :| FoundAt(s0, events, i, w, id, operator);
    SameBefore(s0, events, e, i);
    assert FoundAt(s0, events + [e], i, w, id, operator);
  }

  lemma EntitledAtEarlier(s0: Sys, events: seq<Event>, e: Event, j: nat, w: nat, token: Option<nat>, operator: nat)
    requires EntitledAt(s0, events, j, w, token, operator)
    ensures EntitledAt(s0, events + [e], j, w, token, operator)
  {
    hide Before;
    SameBefore(s0, events, e, j);
    if token.Some? {
      var i: nat :| i < j && FoundAt(s0, events, i, w, token.value, operator);
      SameBefore(s0, events, e, i);
      assert FoundAt(s0, events + [e], i, w, token.value, operator);
    }
  }

  lemma EntitledEarlier(s0: Sys, events: seq<Event>, e: Event, w: nat, token: Option<nat>, operator: nat)
    requires Entitled(s0, events, w, token, operator)
    ensures Entitled(s0, events + [e], w, token, operator)
  {
    hide EntitledAt;
    var j :| EntitledAt(s0, events, j, w, token, operator);
    EntitledAtEarlier(s0, events, e, j, w, token, operator);
  }

  lemma IssuedEarlier(s0: Sys, events: seq<Event>, e: Event, w: nat, token: Option<nat>, operator: nat, n: nat, expiresAt: int)
    requires Issued(s0, events, w, token, operator, n, expiresAt)
    ensures Issued(s0, events + [e], w, token, operator, n, expiresAt)
  {
    hide Before, EntitledAt;
    var j: nat, k: nat :| j < k && EntitledAt(s0, events, j, w, token, operator) &&
                IssuedAt(s0, events, k, w, token, operator, n, expiresAt);
    EntitledAtEarlier(s0, events, e, j, w, token, operator);
    SameBefore(s0, events, e, k);
    assert IssuedAt(s0, events + [e], k, w, token, operator, n, expiresAt);
  }

  lemma WorkerEarnedEarlier(s0: Sys, events: seq<Event>, e: Event, w: nat, pc: Pc)
    requires WorkerEarned(s0, events, w, pc)
    ensures WorkerEarned(s0, events + [e], w, pc)
  {
    hide Entitled, Issued, FoundAt;
    match pc
    case ReadingOperator(id, op) => FoundEarlier(s0, events, e, w, id, op);
    case Rotating(id, op) => EntitledEarlier(s0, events, e, w, Some(id), op);
    case Revoked(id, op) => EntitledEarlier(s0, events, e, w, Some(id), op);
    case Inserted(id, op, n, exp) => IssuedEarlier(s0, events, e, w, Some(id), op, n, exp);
    case LoginInserting(op) => EntitledEarlier(s0, events, e, w, None, op);
    case LoginInserted(op, n, exp) => IssuedEarlier(s0, events, e, w, None, op, n, exp);
    case _ =>
  }

  /** Where a step of a worker can take it on its way to a new token. */
  lemma OwnMoves(s: Sys, e: Event)
    requires e.Step? && e.worker in s.workers
    ensures e.worker in Next(s, e).workers
    ensures var pc, pc' := s.workers[e.worker], Next(s, e).workers[e.worker];
            match pc'
            case ReadingOperator(id, op) =>
              pc == pc' ||
              (pc == Finding(id) && id in s.tokens && s.tokens[id].operator == op && !s.tokens[id].revoked &&
                 e.now < s.tokens[id].expiresAt)
            case Rotating(id, op) =>
              pc == pc' || (pc == ReadingOperator(id, op) && op in s.active && s.active[op])
            case Revoked(id, op) => pc == pc' || pc == Rotating(id, op)
            case Inserted(id, op, n, exp) =>
              pc == pc' || (pc == Revoked(id, op) && n == e.newId && n !in s.tokens && exp == e.now + e.ttl)
            case LoginInserting(op) => pc == pc' || (pc == LoginReading(op) && op in s.active && s.active[op])
            case LoginInserted(op, n, exp) =>
              pc == pc' || (pc == LoginInserting(op) && n == e.newId && n !in s.tokens && exp == e.now + e.ttl)
            case _ => true
  {
    hide Locked;
  }

  /** A step of worker `w` found the token, at the end of the run so far. */
  lemma FoundNow(s0: Sys, events: seq<Event>, e: Event, id: nat, op: nat)
    requires var s := Run(s0, events);
             e.Step? && e.worker in s.workers && s.workers[e.worker] == Finding(id) && id in s.tokens &&
             s.tokens[id].operator == op && !s.tokens[id].revoked && e.now < s.tokens[id].expiresAt
    ensures exists i :: FoundAt(s0, events + [e], i, e.worker, id, op)
  {
    assert (events + [e])[..|events|] == events;
    assert FoundAt(s0, events + [e], |events|, e.worker, id, op);
  }

  lemma EntitledNow(s0: Sys, events: seq<Event>, e: Event, token: Option<nat>, op: nat)
    requires var s := Run(s0, events);
             && e.Step? && e.worker in s.workers && op in s.active && s.active[op]
             && s.workers[e.worker] == match token case Some(id) => ReadingOperator(id, op) case None => LoginReading(op)
    requires token.Some? ==> exists i :: FoundAt(s0, events, i, e.worker, token.value, op)
    ensures Entitled(s0, events + [e], e.worker, token, op)
  {
    assert (events + [e])[..|events|] == events;
    if token.Some? {
      var i :| FoundAt(s0, events, i, e.worker, token.value, op);
      SameBefore(s0, events, e, i);
      assert FoundAt(s0, events + [e], i, e.worker, token.value, op);
    }
    assert EntitledAt(s0, events + [e], |events|, e.worker, token, op);
  }

  lemma IssuedNow(s0: Sys, events: seq<Event>, e: Event, token: Option<nat>, op: nat)
    requires var s := Run(s0, events);
             && e.Step? && e.worker in s.workers && e.newId !in s.tokens
             && s.workers[e.worker] == match token case Some(id) => Revoked(id, op) case None => LoginInserting(op)
    requires Entitled(s0, events, e.worker, token, op)
    ensures Issued(s0, events + [e], e.worker, token, op, e.newId, e.now + e.ttl)
  {
    assert (events + [e])[..|events|] == events;
    var j :| EntitledAt(s0, events, j, e.worker, token, op);
    EntitledAtEarlier(s0, events, e, j, e.worker, token, op);
    assert IssuedAt(s0, events + [e], |events|, e.worker, token, op, e.newId, e.now + e.ttl);
  }

  /** A worker's own step. */
  lemma OwnStepEarned(s0: Sys, events: seq<Event>, e: Event)
    requires var s := Run(s0, events); e.Step? && e.worker in s.workers && WorkerEarned(s0, events, e.worker, s.workers[e.worker])
    ensures e.worker in Next(Run(s0, events), e).workers
    ensures WorkerEarned(s0, events + [e], e.worker, Next(Run(s0, events), e).workers[e.worker])
  {
    hide Run, Next, Entitled, Issued, FoundAt;
    var s, w := Run(s0, events), e.worker;
    OwnMoves(s, e);
    var pc, pc' := s.workers[w], Next(s, e).workers[w];
    if pc' == pc {
      WorkerEarnedEarlier(s0, events, e, w, pc);
    } else {
      match pc'
      case ReadingOperator(id, op) => FoundNow(s0, events, e, id, op);
      case Rotating(id, op) => EntitledNow(s0, events, e, Some(id), op);
      case Revoked(id, op) => EntitledEarlier(s0, events, e, w, Some(id), op);
      case Inserted(id, op, _, _) => IssuedNow(s0, events, e, Some(id), op);
      case LoginInserting(op) => EntitledNow(s0, events, e, None, op);
      case LoginInserted(op, _, _) => IssuedNow(s0, events, e, None, op);
      case _ =>
    }
  }

  /** Other workers stand still, or start. */
  lemma OtherWorkers(s: Sys, e: Event, w: nat)
    requires w in Next(s, e).workers && !(e.Step? && e.worker == w)
    ensures var pc' := Next(s, e).workers[w];
            || (w in s.workers && pc' == s.workers[w])
            || pc'.Finding? || pc'.LoginReading? || pc'.Deactivating? || pc'.Failed?
  {
  }

  /** Where a token of the next state comes from: it was there, apart from its revocation, or a COMMIT
      brought it in. */
  lemma TokenStep(s: Sys, e: Event, n: nat)
    requires Inv(s) && n in Next(s, e).tokens
    ensures var t := Next(s, e).tokens[n];
            if n in s.tokens then t == s.tokens[n] || t == s.tokens[n].(revoked := true)
            else
              && e.Step? && e.worker in s.workers
              && s.workers[e.worker] == match t.parent
                   case Some(id) => Inserted(id, t.operator, n, t.expiresAt)
                   case None => LoginInserted(t.operator, n, t.expiresAt)
  {
    if e.Step? && e.worker in s.workers {
      assert WorkerOk(s, e.worker);
    }
  }

  lemma StepEarned(s0: Sys, events: seq<Event>, e: Event)
    requires AllEarned(s0, events, Run(s0, events)) && Inv(Run(s0, events))
    ensures AllEarned(s0, events + [e], Next(Run(s0, events), e))
  {
    hide Run, Next, Inv, WorkerEarned, Issued;
    var s := Run(s0, events);
    var s' := Next(s, e);
    forall w | w in s'.workers ensures WorkerEarned(s0, events + [e], w, s'.workers[w]) {
      if e.Step? && e.worker == w && w in s.workers {
        OwnStepEarned(s0, events, e);
      } else {
        StandingEarned(s0, events, e, w);
      }
    }
    forall n | n in s'.tokens && n !in s0.tokens ensures TokenEarned(s0, events + [e], n, s'.tokens[n]) {
      TokenStepEarned(s0, events, e, n);
    }
  }

  lemma StandingEarned(s0: Sys, events: seq<Event>, e: Event, w: nat)
    requires AllEarned(s0, events, Run(s0, events))
    requires w in Next(Run(s0, events), e).workers && !(e.Step? && e.worker == w && w in Run(s0, events).workers)
    ensures WorkerEarned(s0, events + [e], w, Next(Run(s0, events), e).workers[w])
  {
    hide Run, Issued, Entitled, FoundAt, StepOf;
    var s := Run(s0, events);
    OtherWorkers(s, e, w);
    if w in s.workers && Next(s, e).workers[w] == s.workers[w] {
      WorkerEarnedEarlier(s0, events, e, w, s.workers[w]);
    }
  }

  lemma TokenStepEarned(s0: Sys, events: seq<Event>, e: Event, n: nat)
    requires AllEarned(s0, events, Run(s0, events)) && Inv(Run(s0, events))
    requires n in Next(Run(s0, events), e).tokens && n !in s0.tokens
    ensures TokenEarned(s0, events + [e], n, Next(Run(s0, events), e).tokens[n])
  {
    hide Run, Next, Inv, Issued;
    var s := Run(s0, events);
    TokenStep(s, e, n);
    var t := Next(s, e).tokens[n];
    if n in s.tokens {
      var w :| Issued(s0, events, w, t.parent, t.operator, n, t.expiresAt);
      IssuedEarlier(s0, events, e, w, t.parent, t.operator, n, t.expiresAt);
    } else {
      assert WorkerEarned(s0, events, e.worker, s.workers[e.worker]);
      IssuedEarlier(s0, events, e, e.worker, t.parent, t.operator, n, t.expiresAt);
    }
  }

  lemma {:induction false} RunEarned(s0: Sys, events: seq<Event>)
    requires Quiet(s0)
    ensures AllEarned(s0, events, Run(s0, events))
  {
    hide Next, Inv, WorkerEarned, TokenEarned, Quiet;
    if events == [] {
      NothingEarned(s0);
    } else {
      var prefix, e := events[..|events| - 1], events[|events| - 1];
      hide AllEarned;
      RunEarned(s0, prefix);
      QuietInv(s0);
      RunInv(s0, prefix);
      StepEarned(s0, prefix, e);
      assert events == prefix + [e];
    }
  }

  lemma NothingEarned(s0: Sys)
    requires Quiet(s0)
    ensures AllEarned(s0, [], s0)
  {
  }

  lemma QuietInv(s0: Sys)
    requires Quiet(s0)
    ensures Inv(s0)
  {
  }

  /** Every token of every run that was not there at its start was earned: for a successor, one worker found
      its parent unrevoked and unexpired, saw the operator active and then inserted it; for a session, one
      worker saw the operator active and then inserted it. It belongs to that operator and expires its
      lifetime after the clock that was read for that insert. */
  lemma EveryTokenWasEarned(s0: Sys, events: seq<Event>, n: nat)
    requires Quiet(s0) && n in Run(s0, events).tokens && n !in s0.tokens
    ensures var t := Run(s0, events).tokens[n];
            exists w, j: nat, k: nat ::
              && j < k && SeenActiveAt(s0, events, j, w, t.parent, t.operator)
              && IssuedAt(s0, events, k, w, t.parent, t.operator, n, t.expiresAt)
              && (t.parent.Some? ==> exists i: nat :: i < j && FoundAt(s0, events, i, w, t.parent.value, t.operator))
  {
    RunEarned(s0, events);
    hide Run, SeenActiveAt, IssuedAt, FoundAt;
    var t := Run(s0, events).tokens[n];
    var w :| Issued(s0, events, w, t.parent, t.operator, n, t.expiresAt);
    var j: nat, k: nat :| j < k && EntitledAt(s0, events, j, w, t.parent, t.operator) &&
                IssuedAt(s0, events, k, w, t.parent, t.operator, n, t.expiresAt);
  }
}

/** Refresh-token rotation, login, logout and soft deletion of operators
  (apps/api/src/services/auth.ts, apps/api/src/services/login.ts, apps/api/src/services/operators.ts).

  A refresh finds the active token, reads the operator, and then runs a transaction: it revokes the token,
  inserts its successor and commits. A login reads the operator and then inserts a token in a transaction.
  What a transaction has written is private until its COMMIT, and the token it has revoked is locked:
  other writes of that row wait. A soft deletion is two statements. The second one works on the tokens
  that were live when it started; it waits for those that are locked, and does not see tokens committed
  meanwhile (READ COMMITTED). Any number of all these interleave, fail or roll back. Hashes are injective,
  so a presented token is its row; `parent` is history: the token whose refresh inserted the row.
 */
module RefreshTokens {
  import opened Common

  datatype Token = Token(operator: nat, expiresAt: int, revoked: bool, parent: Option<nat>)

  datatype Pc =
    | Finding(token: nat)
    | ReadingOperator(token: nat, operator: nat)
    | RevokingOrphan(token: nat)
    | Rotating(token: nat, operator: nat)
    | Revoked(token: nat, operator: nat)
    | Inserted(token: nat, operator: nat, newToken: nat, expiresAt: int)
    | Refreshed(token: nat, successor: nat)
    | TokenInvalid(token: nat)
    | LoginReading(operator: nat)
    | LoginInserting(operator: nat)
    | LoginInserted(operator: nat, newToken: nat, expiresAt: int)
    | LoggedIn(operator: nat, session: nat)
    | Deactivating(operator: nat)
    | RevokingAll(operator: nat)
    | RevokingRows(operator: nat, targets: set<nat>)
    | Deleted(operator: nat)
    | Failed

  datatype Sys = Sys(tokens: map<nat, Token>, active: map<nat, bool>, workers: map<nat, Pc>)

  /** `newId` is the id of a row that the step inserts. */
  datatype Event =
    | Refresh(worker: nat, token: nat)
    | Login(worker: nat, operator: nat)
    | SoftDelete(worker: nat, operator: nat)
    | Step(worker: nat, now: int, newId: nat, ttl: int)
    | Logout(token: nat)
    | SetActive(operator: nat, value: bool)
    | Abort(worker: nat)

  predicate Running(pc: Pc) {
    !pc.Refreshed? && !pc.TokenInvalid? && !pc.LoggedIn? && !pc.Deleted? && !pc.Failed?
  }

  function Revoke(tokens: map<nat, Token>, id: nat): map<nat, Token> {
    if id in tokens && !tokens[id].revoked then tokens[id := tokens[id].(revoked := true)] else tokens
  }

  function RevokeEach(tokens: map<nat, Token>, targets: set<nat>): map<nat, Token> {
    map id | id in tokens :: if id in targets then tokens[id].(revoked := true) else tokens[id]
  }

  function LiveOf(tokens: map<nat, Token>, operator: nat): set<nat> {
    set id | id in tokens && tokens[id].operator == operator && !tokens[id].revoked
  }

  /** The COMMIT of a rotation. */
  function Rotated(tokens: map<nat, Token>, id: nat, operator: nat, newId: nat, expiresAt: int): map<nat, Token>
    requires id in tokens
  {
    tokens[id := tokens[id].(revoked := true)][newId := Token(operator, expiresAt, false, Some(id))]
  }

  predicate HoldsLock(pc: Pc, id: nat) { (pc.Revoked? || pc.Inserted?) && pc.token == id }

  predicate Reserves(pc: Pc, id: nat) { (pc.Inserted? || pc.LoginInserted?) && pc.newToken == id }

  /** A transaction holds the row. */
  predicate Locked(s: Sys, id: nat) { exists v :: v in s.workers && HoldsLock(s.workers[v], id) }

  predicate IdUsed(s: Sys, id: nat) {
    id in s.tokens || exists v :: v in s.workers && Reserves(s.workers[v], id)
  }

  function StepOf(s: Sys, w: nat, now: int, newId: nat, ttl: int): Sys
    requires w in s.workers
  {
    match s.workers[w]
    case Finding(id) =>
      if id in s.tokens && !s.tokens[id].revoked && s.tokens[id].expiresAt > now
      then s.(workers := s.workers[w := ReadingOperator(id, s.tokens[id].operator)])
      else s.(workers := s.workers[w := TokenInvalid(id)])
    case ReadingOperator(id, op) =>
      s.(workers := s.workers[w := if op in s.active && s.active[op] then Rotating(id, op) else RevokingOrphan(id)])
    case RevokingOrphan(id) =>
      if Locked(s, id) then s else s.(tokens := Revoke(s.tokens, id), workers := s.workers[w := TokenInvalid(id)])
    case Rotating(id, op) =>
      if Locked(s, id) then s
      else s.(workers := s.workers[w := if id in s.tokens && !s.tokens[id].revoked then Revoked(id, op) else TokenInvalid(id)])
    case Revoked(id, op) =>
      if IdUsed(s, newId) then s else s.(workers := s.workers[w := Inserted(id, op, newId, now + ttl)])
    case Inserted(id, op, n, exp) =>
      if id !in s.tokens then s
      else s.(tokens := Rotated(s.tokens, id, op, n, exp), workers := s.workers[w := Refreshed(id, n)])
    case LoginReading(op) =>
      s.(workers := s.workers[w := if op in s.active && s.active[op] then LoginInserting(op) else Failed])
    case LoginInserting(op) =>
      if IdUsed(s, newId) then s else s.(workers := s.workers[w := LoginInserted(op, newId, now + ttl)])
    case LoginInserted(op, n, exp) =>
      s.(tokens := s.tokens[n := Token(op, exp, false, None)], workers := s.workers[w := LoggedIn(op, n)])
    case Deactivating(op) =>
      if op in s.active then s.(active := s.active[op := false], workers := s.workers[w := RevokingAll(op)])
      else s.(workers := s.workers[w := Failed])
    case RevokingAll(op) => s.(workers := s.workers[w := RevokingRows(op, LiveOf(s.tokens, op))])
    case RevokingRows(op, targets) =>
      if exists id :: id in targets && Locked(s, id) then s
      else s.(tokens := RevokeEach(s.tokens, targets), workers := s.workers[w := Deleted(op)])
    case _ => s
  }

  function Start(s: Sys, w: nat, pc: Pc): Sys {
    if w in s.workers && Running(s.workers[w]) then s else s.(workers := s.workers[w := pc])
  }

  function Next(s: Sys, e: Event): Sys {
    match e
    case Refresh(w, id) => Start(s, w, Finding(id))
    case Login(w, op) => Start(s, w, LoginReading(op))
    case SoftDelete(w, op) => Start(s, w, Deactivating(op))
    case Step(w, now, newId, ttl) => if w in s.workers then StepOf(s, w, now, newId, ttl) else s
    case Logout(id) => if Locked(s, id) then s else s.(tokens := Revoke(s.tokens, id))
    case SetActive(op, value) => s.(active := s.active[op := value])
    case Abort(w) => if w in s.workers && Running(s.workers[w]) then s.(workers := s.workers[w := Failed]) else s
  }

  function Run(s: Sys, events: seq<Event>): Sys {
    if events == [] then s else Next(Run(s, events[..|events| - 1]), events[|events| - 1])
  }

  /******* Invariant *******/

  predicate TokenOk(s: Sys, id: nat)
    requires id in s.tokens
  {
    s.tokens[id].parent.Some? ==>
      var p := s.tokens[id].parent.value;
      p in s.tokens && s.tokens[p].revoked && s.tokens[p].operator == s.tokens[id].operator
  }

  predicate OwnedBy(tokens: map<nat, Token>, id: nat, operator: nat) {
    id in tokens && tokens[id].operator == operator
  }

  predicate WorkerOk(s: Sys, w: nat)
    requires w in s.workers
  {
    match s.workers[w]
    case ReadingOperator(id, op) => OwnedBy(s.tokens, id, op)
    case Rotating(id, op) => OwnedBy(s.tokens, id, op)
    case Revoked(id, op) => OwnedBy(s.tokens, id, op) && !s.tokens[id].revoked
    case Inserted(id, op, n, _) => OwnedBy(s.tokens, id, op) && !s.tokens[id].revoked && n !in s.tokens
    case LoginInserted(op, n, _) => n !in s.tokens
    case Refreshed(id, n) => n in s.tokens && s.tokens[n].parent == Some(id)
    case RevokingRows(op, targets) => forall id <- targets :: OwnedBy(s.tokens, id, op)
    case _ => true
  }

  predicate OneSuccessor(tokens: map<nat, Token>) {
    forall a, b :: a in tokens && b in tokens && tokens[a].parent.Some? && tokens[a].parent == tokens[b].parent ==> a == b
  }

  /** Two transactions hold one row or insert one id. */
  predicate Clash(a: Pc, b: Pc) {
    ((a.Revoked? || a.Inserted?) && HoldsLock(b, a.token)) || ((a.Inserted? || a.LoginInserted?) && Reserves(b, a.newToken))
  }

  predicate Inv(s: Sys) {
    && (forall id {:trigger TokenOk(s, id)} :: id in s.tokens ==> TokenOk(s, id))
    && (forall w {:trigger WorkerOk(s, w)} :: w in s.workers ==> WorkerOk(s, w))
    && (forall v, w :: v in s.workers && w in s.workers && Clash(s.workers[v], s.workers[w]) ==> v == w)
    && OneSuccessor(s.tokens)
  }

  /** A worker moves and no token changes. */
  lemma MovesInv(s: Sys, w: nat, pc: Pc)
    requires Inv(s) && WorkerOk(s.(workers := s.workers[w := pc]), w)
    requires forall v :: v in s.workers && v != w ==> !Clash(pc, s.workers[v]) && !Clash(s.workers[v], pc)
    ensures Inv(s.(workers := s.workers[w := pc]))
  {
    var t := s.(workers := s.workers[w := pc]);
    forall id | id in t.tokens ensures TokenOk(t, id) {
      assert TokenOk(s, id);
    }
    forall v | v in t.workers ensures WorkerOk(t, v) {
      if v != w {
        assert WorkerOk(s, v);
      }
    }
  }

  /** Tokens that nobody has locked are revoked, and a worker comes to rest. */
  lemma RevokingInv(s: Sys, t: Sys, targets: set<nat>)
    requires Inv(s) && t.tokens == RevokeEach(s.tokens, targets) && forall id <- targets :: !Locked(s, id)
    requires forall v <- t.workers :: (v in s.workers && t.workers[v] == s.workers[v]) || (WorkerOk(t, v) && !Running(t.workers[v]))
    ensures Inv(t)
  {
    forall id | id in t.tokens ensures TokenOk(t, id) {
      assert TokenOk(s, id);
    }
    forall v | v in t.workers ensures WorkerOk(t, v) {
      if v in s.workers && t.workers[v] == s.workers[v] {
        assert WorkerOk(s, v);
        if s.workers[v].Revoked? || s.workers[v].Inserted? {
          assert HoldsLock(s.workers[v], s.workers[v].token);
          assert s.workers[v].token !in targets;
        }
      }
    }
    forall a, b | a in t.tokens && b in t.tokens && t.tokens[a].parent.Some? && t.tokens[a].parent == t.tokens[b].parent
      ensures a == b
    {
      assert s.tokens[a].parent == t.tokens[a].parent && s.tokens[b].parent == t.tokens[b].parent;
    }
  }

  lemma RevokeIsEach(tokens: map<nat, Token>, id: nat)
    ensures Revoke(tokens, id) == RevokeEach(tokens, {id})
  {
  }

  function AfterRotation(s: Sys, w: nat): Sys
    requires w in s.workers && s.workers[w].Inserted? && s.workers[w].token in s.tokens
  {
    var pc := s.workers[w];
    s.(tokens := Rotated(s.tokens, pc.token, pc.operator, pc.newToken, pc.expiresAt),
       workers := s.workers[w := Refreshed(pc.token, pc.newToken)])
  }

  lemma RotationKeepsWorker(s: Sys, w: nat, v: nat)
    requires Inv(s) && w in s.workers && v in s.workers && s.workers[w].Inserted? && s.workers[w].token in s.tokens
    ensures WorkerOk(AfterRotation(s, w), v)
  {
    assert WorkerOk(s, w) && WorkerOk(s, v);
    assert Clash(s.workers[w], s.workers[v]) ==> v == w;
  }

  lemma RotationInv(s: Sys, w: nat)
    requires Inv(s) && w in s.workers && s.workers[w].Inserted? && s.workers[w].token in s.tokens
    ensures Inv(AfterRotation(s, w))
  {
    var pc, t := s.workers[w], AfterRotation(s, w);
    assert WorkerOk(s, w);
    forall x | x in t.tokens ensures TokenOk(t, x) {
      if x != pc.newToken {
        assert TokenOk(s, x);
      }
    }
    forall v | v in t.workers ensures WorkerOk(t, v) {
      RotationKeepsWorker(s, w, v);
    }
    forall x | x in s.tokens ensures s.tokens[x].parent != Some(pc.token) {
      assert TokenOk(s, x);
    }
  }

  function AfterLogin(s: Sys, w: nat): Sys
    requires w in s.workers && s.workers[w].LoginInserted?
  {
    var pc := s.workers[w];
    s.(tokens := s.tokens[pc.newToken := Token(pc.operator, pc.expiresAt, false, None)],
       workers := s.workers[w := LoggedIn(pc.operator, pc.newToken)])
  }

  lemma LoginInv(s: Sys, w: nat)
    requires Inv(s) && w in s.workers && s.workers[w].LoginInserted?
    ensures Inv(AfterLogin(s, w))
  {
    var pc, t := s.workers[w], AfterLogin(s, w);
    assert WorkerOk(s, w);
    forall x | x in t.tokens ensures TokenOk(t, x) {
      if x != pc.newToken {
        assert TokenOk(s, x);
      }
    }
    forall v | v in t.workers ensures WorkerOk(t, v) {
      if v != w {
        assert WorkerOk(s, v);
        assert !Clash(pc, s.workers[v]);
      }
    }
  }

  lemma RefreshStepInv(s: Sys, w: nat, now: int, newId: nat, ttl: int)
    requires Inv(s) && w in s.workers
    requires var pc := s.workers[w];
             pc.Finding? || pc.ReadingOperator? || pc.RevokingOrphan? || pc.Rotating? || pc.Revoked?
    ensures Inv(StepOf(s, w, now, newId, ttl))
  {
    assert WorkerOk(s, w);
    var pc, t := s.workers[w], StepOf(s, w, now, newId, ttl);
    if pc.RevokingOrphan? {
      if !Locked(s, pc.token) {
        RevokeIsEach(s.tokens, pc.token);
        RevokingInv(s, t, {pc.token});
      }
    } else if pc.Rotating? {
      if !Locked(s, pc.token) {
        MovesInv(s, w, t.workers[w]);
      }
    } else if pc.Revoked? {
      if !IdUsed(s, newId) {
        forall v | v in s.workers && v != w ensures !Clash(t.workers[w], s.workers[v]) && !Clash(s.workers[v], t.workers[w]) {
          assert !Clash(pc, s.workers[v]) && !Clash(s.workers[v], pc);
        }
        MovesInv(s, w, t.workers[w]);
      }
    } else {
      MovesInv(s, w, t.workers[w]);
    }
  }

  lemma DeletionStepInv(s: Sys, w: nat, now: int, newId: nat, ttl: int)
    requires Inv(s) && w in s.workers
    requires var pc := s.workers[w]; pc.Deactivating? || pc.RevokingAll? || pc.RevokingRows?
    ensures Inv(StepOf(s, w, now, newId, ttl))
  {
    assert WorkerOk(s, w);
    var pc, t := s.workers[w], StepOf(s, w, now, newId, ttl);
    if pc.RevokingRows? {
      if !exists id :: id in pc.targets && Locked(s, id) {
        RevokingInv(s, t, pc.targets);
      }
    } else {
      MovesInv(s, w, t.workers[w]);
      ActiveInv(s.(workers := s.workers[w := t.workers[w]]), t.active);
    }
  }

  lemma LoginStepInv(s: Sys, w: nat, now: int, newId: nat, ttl: int)
    requires Inv(s) && w in s.workers && (s.workers[w].LoginReading? || s.workers[w].LoginInserting?)
    ensures Inv(StepOf(s, w, now, newId, ttl))
  {
    if s.workers[w].LoginReading? || !IdUsed(s, newId) {
      MovesInv(s, w, StepOf(s, w, now, newId, ttl).workers[w]);
    }
  }

  lemma StepInv(s: Sys, w: nat, now: int, newId: nat, ttl: int)
    requires Inv(s) && w in s.workers
    ensures Inv(StepOf(s, w, now, newId, ttl))
  {
    hide Inv, WorkerOk, Locked, IdUsed, Rotated;
    match s.workers[w]
    case Inserted(id, _, _, _) => if id in s.tokens { RotationInv(s, w); }
    case LoginInserted(_, _, _) => LoginInv(s, w);
    case LoginReading(_) => LoginStepInv(s, w, now, newId, ttl);
    case LoginInserting(_) => LoginStepInv(s, w, now, newId, ttl);
    case Deactivating(_) => DeletionStepInv(s, w, now, newId, ttl);
    case RevokingAll(_) => DeletionStepInv(s, w, now, newId, ttl);
    case RevokingRows(_, _) => DeletionStepInv(s, w, now, newId, ttl);
    case Finding(_) => RefreshStepInv(s, w, now, newId, ttl);
    case ReadingOperator(_, _) => RefreshStepInv(s, w, now, newId, ttl);
    case RevokingOrphan(_) => RefreshStepInv(s, w, now, newId, ttl);
    case Rotating(_, _) => RefreshStepInv(s, w, now, newId, ttl);
    case Revoked(_, _) => RefreshStepInv(s, w, now, newId, ttl);
    case _ =>
  }

  /** Nothing in the invariant looks at who is active. */
  lemma ActiveInv(s: Sys, active: map<nat, bool>)
    requires Inv(s)
    ensures Inv(s.(active := active))
  {
    var t := s.(active := active);
    forall id | id in t.tokens ensures TokenOk(t, id) {
      assert TokenOk(s, id);
    }
    forall v | v in t.workers ensures WorkerOk(t, v) {
      assert WorkerOk(s, v);
    }
  }

  lemma NextInv(s: Sys, e: Event)
    requires Inv(s)
    ensures Inv(Next(s, e))
  {
    match e
    case Refresh(w, id) => MovesInv(s, w, Finding(id));
    case Login(w, op) => MovesInv(s, w, LoginReading(op));
    case SoftDelete(w, op) => MovesInv(s, w, Deactivating(op));
    case Step(w, now, newId, ttl) => if w in s.workers { StepInv(s, w, now, newId, ttl); }
    case Logout(id) =>
      if !Locked(s, id) {
        RevokeIsEach(s.tokens, id);
        RevokingInv(s, Next(s, e), {id});
      }
    case SetActive(op, value) => ActiveInv(s, s.active[op := value]);
    case Abort(w) => MovesInv(s, w, Failed);
  }

  lemma {:induction false} RunInv(s: Sys, events: seq<Event>)
    requires Inv(s)
    ensures Inv(Run(s, events))
  {
    if events != [] {
      RunInv(s, events[..|events| - 1]);
      NextInv(Run(s, events[..|events| - 1]), events[|events| - 1]);
    }
  }

  /******* Guarantees *******/

  /** A state with tokens that no refresh has rotated yet: where runs start. */
  predicate Quiet(s: Sys) {
    s.workers == map[] && forall id :: id in s.tokens ==> s.tokens[id].parent.None?
  }

  /** Rotation: however refreshes, logins, logouts and deletions interleave, a token has at most one
      successor, and a token with a successor is revoked and belongs to the same operator. */
  lemma AtMostOneSuccessor(s: Sys, events: seq<Event>, a: nat, b: nat)
    requires Quiet(s)
    requires var t := Run(s, events).tokens; a in t && b in t && t[a].parent.Some? && t[b].parent == t[a].parent
    ensures a == b
    ensures var t := Run(s, events).tokens;
            t[a].parent.value in t && t[t[a].parent.value].revoked && t[t[a].parent.value].operator == t[a].operator
  {
    RunInv(s, events);
    assert TokenOk(Run(s, events), a);
  }

  /** So of two refreshes that present the same token at most one ever succeeds, and its caller gets the
      one successor. */
  lemma OneWinner(s: Sys, events: seq<Event>, v: nat, w: nat)
    requires Quiet(s)
    requires var t := Run(s, events); v in t.workers && w in t.workers && t.workers[v].Refreshed? && t.workers[w].Refreshed?
    requires Run(s, events).workers[v].token == Run(s, events).workers[w].token
    ensures Run(s, events).workers[v].successor == Run(s, events).workers[w].successor
  {
    RunInv(s, events);
    assert WorkerOk(Run(s, events), v) && WorkerOk(Run(s, events), w);
  }

  predicate CommitsRotation(s: Sys, e: Event) { e.Step? && e.worker in s.workers && s.workers[e.worker].Inserted? }

  predicate CommitsLogin(s: Sys, e: Event) { e.Step? && e.worker in s.workers && s.workers[e.worker].LoginInserted? }

  /** How a step moves the live tokens of an operator: the COMMIT of a refresh swaps one for a new one, the
      COMMIT of a login adds one, and no other step adds any. */
  lemma LiveMoves(s: Sys, e: Event, operator: nat)
    requires Inv(s)
    ensures var a, b, pc := LiveOf(s.tokens, operator), LiveOf(Next(s, e).tokens, operator), if e.Step? && e.worker in s.workers then s.workers[e.worker] else Failed;
            if CommitsRotation(s, e) && pc.operator == operator
              then pc.token in a && pc.newToken !in s.tokens && b == a - {pc.token} + {pc.newToken}
            else if CommitsLogin(s, e) && pc.operator == operator then pc.newToken !in s.tokens && b == a + {pc.newToken}
            else b <= a
  {
    if e.Step? && e.worker in s.workers {
      assert WorkerOk(s, e.worker);
    }
  }

  /** Each successful refresh leaves the number of live tokens of every operator what it was. */
  lemma RefreshKeepsLiveCount(s: Sys, e: Event, operator: nat)
    requires Inv(s) && CommitsRotation(s, e)
    ensures |LiveOf(Next(s, e).tokens, operator)| == |LiveOf(s.tokens, operator)|
    ensures Next(s, e).workers[e.worker] == Refreshed(s.workers[e.worker].token, s.workers[e.worker].newToken)
  {
    assert WorkerOk(s, e.worker);
    var pc := s.workers[e.worker];
    var a, b := LiveOf(s.tokens, operator), LiveOf(Next(s, e).tokens, operator);
    if pc.operator == operator {
      LiveMoves(s, e, operator);
      assert b == a - {pc.token} + {pc.newToken};
    } else {
      assert b == a;
    }
  }

  /** The conditional update decides: it succeeds iff the token is live once nobody else holds it, and from
      then on the refresh can only commit its swap or be rolled back. */
  lemma RotationNeedsALiveToken(s: Sys, w: nat, now: int, newId: nat, ttl: int)
    requires Inv(s) && w in s.workers && s.workers[w].Rotating? && !Locked(s, s.workers[w].token)
    ensures var id, op, t := s.workers[w].token, s.workers[w].operator, Next(s, Step(w, now, newId, ttl));
            && t.tokens == s.tokens && w in t.workers
            && t.workers[w] == if id in LiveOf(s.tokens, op) then Revoked(id, op) else TokenInvalid(id)
  {
    assert WorkerOk(s, w);
  }

  /******* One call at a time, in place *******/

  class AuthStore {
    var tokens: map<nat, Token>
    var active: map<nat, bool>

    constructor ()
      ensures tokens == map[] && active == map[]
    {
      tokens, active := map[], map[];
    }

    /** findActiveRefreshToken */
    method FindActiveRefreshToken(id: nat, now: int) returns (operator: Option<nat>)
      ensures operator == if id in tokens && !tokens[id].revoked && tokens[id].expiresAt > now
                          then Some(tokens[id].operator) else None
    {
      if id in tokens && !tokens[id].revoked && tokens[id].expiresAt > now {
        return Some(tokens[id].operator);
      }
      return None;
    }

    /** refresh with nothing in between: the successor, or None for TOKEN_INVALID. */
    method Refresh(id: nat, now: int, later: int, newId: nat, ttl: int) returns (successor: Option<nat>)
      requires newId !in tokens
      modifies this
      ensures active == old(active)
      ensures successor.Some? <==>
                && id in old(tokens) && !old(tokens)[id].revoked && old(tokens)[id].expiresAt > now
                && old(tokens)[id].operator in active && active[old(tokens)[id].operator]
      ensures successor.Some? ==>
                && successor.value == newId && newId in tokens && tokens.Keys == old(tokens).Keys + {newId}
                && tokens[newId] == Token(old(tokens)[id].operator, later + ttl, false, Some(id))
                && id in tokens && tokens[id] == old(tokens)[id].(revoked := true)
                && forall x <- old(tokens) :: x != id ==> x in tokens && tokens[x] == old(tokens)[x]
      ensures successor.None? ==>
                tokens == if id in old(tokens) && !old(tokens)[id].revoked && old(tokens)[id].expiresAt > now
                          then old(tokens)[id := old(tokens)[id].(revoked := true)] else old(tokens)
      ensures successor.Some? ==> tokens == Rotated(old(tokens), id, old(tokens)[id].operator, newId, later + ttl)
    {
      var operator := FindActiveRefreshToken(id, now);
      if operator.None? {
        return None;
      }
      if operator.value !in active || !active[operator.value] {
        tokens := Revoke(tokens, id);
        return None;
      }
      tokens := tokens[id := tokens[id].(revoked := true)];
      tokens := tokens[newId := Token(operator.value, later + ttl, false, Some(id))];
      return Some(newId);
    }

    method Logout(id: nat)
      modifies this
      ensures active == old(active) && tokens == Revoke(old(tokens), id)
      ensures tokens == if id in old(tokens) then old(tokens)[id := old(tokens)[id].(revoked := true)] else old(tokens)
    {
      if id in tokens && !tokens[id].revoked {
        tokens := tokens[id := tokens[id].(revoked := true)];
      }
    }

    /** softDeleteOperator; false when the operator is unknown. */
    method SoftDelete(operator: nat) returns (found: bool)
      modifies this
      ensures found <==> operator in old(active)
      ensures found ==>
                && active == old(active)[operator := false] && tokens.Keys == old(tokens).Keys
                && forall id <- tokens ::
                     tokens[id] == if old(tokens)[id].operator == operator then old(tokens)[id].(revoked := true)
                                   else old(tokens)[id]
      ensures found ==> tokens == RevokeEach(old(tokens), LiveOf(old(tokens), operator))
      ensures !found ==> active == old(active) && tokens == old(tokens)
    {
      if operator !in active {
        return false;
      }
      active := active[operator := false];
      tokens := RevokeEach(tokens, LiveOf(tokens, operator));
      return true;
    }
  }
}

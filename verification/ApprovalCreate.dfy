/** Idempotent creation of approval requests under races
  (packages/approval/src/service.ts, apps/api/src/routes/approval.ts,
  packages/db/src/schema/approval-tokens.ts).

  A create call is a find, an insert, and, when the insert violates a unique key, another find. Called
  on its own each statement commits by itself. The routes call it inside a transaction (`inTransaction`):
  a find of their own comes first; when it shows no row, the obligations are read FOR UPDATE and stay
  locked, and a community-work request is given a fresh requester key, which its fingerprint covers; when
  it shows a row, the call goes on with that row's snapshot and key. In a transaction the inserted row is
  invisible (but its unique key taken) until COMMIT, and a violated key aborts the transaction, so that
  the second find fails.
 */
module ApprovalCreate {
  import opened Common

  datatype Kind = Condonation | CommunityWork

  datatype Obligation = Obligation(id: nat, currency: string, amountCents: int)

  datatype Request = Request(
    requester: nat, callerKey: string, member: string, obligations: seq<Obligation>,
    /** Everything else that is hashed: context, channel, address, reason, evidence, agreement. */
    details: string,
    /** Community work only. */
    requesterKey: Option<nat>,
    /** The required texts are present. */
    complete: bool)

  /******* The fingerprint *******/

  /** What is hashed: the fields, with the obligations ordered by id. */
  datatype Fingerprint = Fingerprint(
    requester: nat, member: string, ordered: seq<Obligation>, details: string, requesterKey: Option<nat>)

  function InsertById(o: Obligation, s: seq<Obligation>): seq<Obligation> {
    if s == [] || o.id <= s[0].id then [o] + s else [s[0]] + InsertById(o, s[1..])
  }

  /** sort((left, right) => left.obligationId.localeCompare(right.obligationId)) */
  function SortById(s: seq<Obligation>): seq<Obligation> {
    if s == [] then [] else InsertById(s[0], SortById(s[1..]))
  }

  function FingerprintOf(r: Request): Fingerprint {
    Fingerprint(r.requester, r.member, SortById(r.obligations), r.details, r.requesterKey)
  }

  predicate DistinctIds(s: seq<Obligation>) {
    forall i, j :: 0 <= i < j < |s| ==> s[i].id != s[j].id
  }

  predicate SortedById(s: seq<Obligation>) {
    forall i, j :: 0 <= i < j < |s| ==> s[i].id <= s[j].id
  }

  lemma {:induction false} InsertAdds(o: Obligation, s: seq<Obligation>)
    ensures multiset(InsertById(o, s)) == multiset(s) + multiset{o}
  {
    if s != [] && o.id > s[0].id {
      InsertAdds(o, s[1..]);
      assert s == [s[0]] + s[1..];
    }
  }

  lemma ConsSorted(o: Obligation, s: seq<Obligation>)
    requires SortedById(s) && forall x <- s :: o.id <= x.id
    ensures SortedById([o] + s)
  {
  }

  lemma {:induction false} InsertSorts(o: Obligation, s: seq<Obligation>)
    requires SortedById(s)
    ensures SortedById(InsertById(o, s))
  {
    if s == [] || o.id <= s[0].id {
      forall x | x in s ensures o.id <= x.id {
        var k :| 0 <= k < |s| && s[k] == x;
      }
      ConsSorted(o, s);
    } else {
      InsertSorts(o, s[1..]);
      InsertAdds(o, s[1..]);
      forall x | x in InsertById(o, s[1..]) ensures s[0].id <= x.id {
        assert x in multiset(InsertById(o, s[1..]));
      }
      ConsSorted(s[0], InsertById(o, s[1..]));
    }
  }

  lemma {:induction false} SortSorts(s: seq<Obligation>)
    ensures SortedById(SortById(s)) && multiset(SortById(s)) == multiset(s)
  {
    if s != [] {
      SortSorts(s[1..]);
      InsertSorts(s[0], SortById(s[1..]));
      InsertAdds(s[0], SortById(s[1..]));
      assert s == [s[0]] + s[1..];
    }
  }

  /** Distinct ids in one order are distinct in every order of the same obligations. */
  lemma DistinctIsOrderFree(a: seq<Obligation>, b: seq<Obligation>)
    requires DistinctIds(a) && multiset(a) == multiset(b)
    ensures DistinctIds(b)
  {
    forall i, j | 0 <= i < j < |b| ensures b[i].id != b[j].id {
      if b[i].id == b[j].id {
        assert b[i] in multiset(a) && b[j] in multiset(a);
        var k :| 0 <= k < |a| && a[k] == b[i];
        var l :| 0 <= l < |a| && a[l] == b[j];
        assert k == l && b[i] == b[j];
        assert b == b[..i] + [b[i]] + b[i + 1..j] + [b[j]] + b[j + 1..];
        assert multiset(b)[b[i]] >= 2;
        OnceInDistinct(a, b[i]);
      }
    }
  }

  lemma {:induction false} OnceInDistinct(a: seq<Obligation>, o: Obligation)
    requires DistinctIds(a)
    ensures multiset(a)[o] <= 1
  {
    if a != [] {
      assert a == [a[0]] + a[1..];
      OnceInDistinct(a[1..], o);
      if a[0] == o {
        assert o !in a[1..];
      }
    }
  }

  /** Sorted, with distinct ids and the same elements: the same sequence. */
  lemma {:induction false} SortedUnique(a: seq<Obligation>, b: seq<Obligation>)
    requires SortedById(a) && SortedById(b) && DistinctIds(a) && DistinctIds(b)
    requires forall o :: o in a <==> o in b
    ensures a == b
  {
    assert b == [] || b[0] in b;
    if a != [] {
      assert a[0] in b && b != [] && b[0] in a;
      assert a[0] == b[0];
      forall o ensures o in a[1..] <==> o in b[1..] {
        if o in a[1..] {
          assert o in b && o != b[0];
        }
        if o in b[1..] {
          assert o in a && o != a[0];
        }
      }
      SortedUnique(a[1..], b[1..]);
      assert a == [a[0]] + a[1..] && b == [b[0]] + b[1..];
    }
  }

  lemma SameElements(a: seq<Obligation>, b: seq<Obligation>)
    requires multiset(a) == multiset(b)
    ensures forall o :: o in a <==> o in b
  {
    forall o ensures o in a <==> o in b {
      assert multiset(a)[o] == multiset(b)[o];
      assert o in multiset(a) <==> o in a;
      assert o in multiset(b) <==> o in b;
    }
  }

  /** Two valid requests have one fingerprint iff they agree in every field and ask for the same
      obligations, in whatever order. */
  lemma FingerprintBindsRequestUpToOrder(r1: Request, r2: Request)
    requires DistinctIds(r1.obligations) && DistinctIds(r2.obligations)
    ensures FingerprintOf(r1) == FingerprintOf(r2) <==>
              && r1.requester == r2.requester && r1.member == r2.member && r1.details == r2.details
              && r1.requesterKey == r2.requesterKey
              && multiset(r1.obligations) == multiset(r2.obligations)
  {
    SortSorts(r1.obligations);
    SortSorts(r2.obligations);
    if multiset(r1.obligations) == multiset(r2.obligations) {
      DistinctIsOrderFree(r1.obligations, SortById(r1.obligations));
      DistinctIsOrderFree(r2.obligations, SortById(r2.obligations));
      SameElements(SortById(r1.obligations), SortById(r2.obligations));
      SortedUnique(SortById(r1.obligations), SortById(r2.obligations));
    }
  }

  /** assertCondonationSnapshot and the check of the request's texts. */
  predicate Valid(r: Request) {
    && r.member != "" && r.obligations != [] && DistinctIds(r.obligations) && r.complete
    && (forall o <- r.obligations :: o.currency == r.obligations[0].currency && o.currency != "" && o.amountCents > 0)
  }

  /******* The race *******/

  datatype Row = Row(kind: Kind, req: Request, fingerprint: Fingerprint, expiresAt: int)

  datatype Call = Call(kind: Kind, req: Request, inTransaction: bool)

  datatype Error = ValidationError | Conflict | TransactionAborted | RolledBack

  /** `locks` are the obligations that the transaction has locked. */
  datatype Pc =
    | Looking(call: Call)
    | Locking(call: Call)
    | Finding(call: Call, locks: set<nat>)
    | Inserting(call: Call, locks: set<nat>)
    | Holding(call: Call, locks: set<nat>, id: nat, row: Row)
    | Refinding(call: Call)
    | Returned(call: Call, id: nat, row: Row)
    | Refused(call: Call, error: Error)

  datatype Sys = Sys(rows: map<nat, Row>, workers: map<nat, Pc>)

  /** `id` of a step: the row a find picks when several match, or the id of a row it inserts. `captured` is
      what the locked obligations still owe, `key` the random requester key. */
  datatype Event =
    | Create(worker: nat, call: Call)
    | Lock(worker: nat, captured: seq<Obligation>, key: nat)
    | Step(worker: nat, id: nat, expiresAt: int)
    | Abort(worker: nat)

  /** The row answers the call's (action type, requester, caller key). */
  predicate Answers(row: Row, call: Call) {
    row.kind == call.kind && row.req.requester == call.req.requester && row.req.callerKey == call.req.callerKey
  }

  predicate Exists(rows: map<nat, Row>, call: Call) {
    exists id :: id in rows && Answers(rows[id], call)
  }

  /** The partial unique index covers condonation requests only. */
  predicate KeyTaken(rows: map<nat, Row>, call: Call) {
    call.kind.Condonation? && Exists(rows, call)
  }

  function NewRow(call: Call, expiresAt: int): Row {
    Row(call.kind, call.req, FingerprintOf(call.req), expiresAt)
  }

  function IdSet(s: seq<Obligation>): set<nat> { set o | o in s :: o.id }

  function Ids(s: seq<Obligation>): seq<nat> { if s == [] then [] else [s[0].id] + Ids(s[1..]) }

  /** sameSnapshot: same member and obligations, whatever they owed. */
  predicate SameSnapshot(a: Request, b: Request) {
    a.member == b.member && multiset(Ids(a.obligations)) == multiset(Ids(b.obligations))
  }

  /** What a find that returned row `id` leads to. */
  function Found(rows: map<nat, Row>, call: Call, id: nat): Pc
    requires id in rows
  {
    if rows[id].fingerprint == FingerprintOf(call.req) then Returned(call, id, rows[id]) else Refused(call, Conflict)
  }

  function Find(rows: map<nat, Row>, call: Call, locks: set<nat>, id: nat): Pc {
    if !Valid(call.req) then Refused(call, ValidationError)
    else if !Exists(rows, call) then Inserting(call, locks)
    else if id in rows && Answers(rows[id], call) then Found(rows, call, id)
    else Finding(call, locks)
  }

  /** The route's own find. */
  function Look(rows: map<nat, Row>, call: Call, id: nat): Pc {
    if !Exists(rows, call) then Locking(call)
    else if id !in rows || !Answers(rows[id], call) then Looking(call)
    else
      var row := rows[id].req;
      if !SameSnapshot(row, call.req) then Refused(call, Conflict)
      else Finding(call.(req := call.req.(obligations := row.obligations, requesterKey := row.requesterKey)), {})
  }

  function LocksOf(pc: Pc): set<nat> {
    if pc.Finding? || pc.Inserting? || pc.Holding? then pc.locks else {}
  }

  /** SELECT ... FOR UPDATE: the obligations are free, and the random key is nobody's. */
  predicate MayLock(s: Sys, call: Call, captured: seq<Obligation>, key: nat) {
    && multiset(Ids(captured)) == multiset(Ids(call.req.obligations))
    && (forall v <- s.workers :: LocksOf(s.workers[v]) !! IdSet(captured))
    && (forall id <- s.rows :: s.rows[id].req.requesterKey != Some(key))
    && (forall v <- s.workers :: s.workers[v].call.req.requesterKey != Some(key))
  }

  function Locked(call: Call, captured: seq<Obligation>, key: nat): Pc {
    var own := if call.kind.CommunityWork? then Some(key) else None;
    Finding(call.(req := call.req.(obligations := captured, requesterKey := own)), IdSet(captured))
  }

  /** A row with this unique key is inserted but not committed: the insert has to wait. */
  predicate KeyHeld(s: Sys, call: Call) {
    call.kind.Condonation? &&
    exists w :: w in s.workers && s.workers[w].Holding? && Answers(s.workers[w].row, call)
  }

  predicate IdUsed(s: Sys, id: nat) {
    id in s.rows || exists w :: w in s.workers && s.workers[w].Holding? && s.workers[w].id == id
  }

  ghost function StepOf(s: Sys, w: nat, id: nat, expiresAt: int): Sys
    requires w in s.workers
  {
    match s.workers[w]
    case Looking(call) => s.(workers := s.workers[w := Look(s.rows, call, id)])
    case Finding(call, locks) => s.(workers := s.workers[w := Find(s.rows, call, locks, id)])
    case Inserting(call, locks) =>
      if KeyHeld(s, call) || IdUsed(s, id) then s
      else if KeyTaken(s.rows, call) then
        s.(workers := s.workers[w := if call.inTransaction then Refused(call, TransactionAborted) else Refinding(call)])
      else if call.inTransaction then s.(workers := s.workers[w := Holding(call, locks, id, NewRow(call, expiresAt))])
      else
        var row := NewRow(call, expiresAt);
        s.(rows := s.rows[id := row], workers := s.workers[w := Returned(call, id, row)])
    case Holding(call, locks, rowId, row) =>
      s.(rows := s.rows[rowId := row], workers := s.workers[w := Returned(call, rowId, row)])
    case Refinding(call) =>
      if id in s.rows && Answers(s.rows[id], call) then s.(workers := s.workers[w := Found(s.rows, call, id)]) else s
    case _ => s
  }

  predicate Running(pc: Pc) { !pc.Returned? && !pc.Refused? }

  function Started(call: Call): Pc { if call.inTransaction then Looking(call) else Finding(call, {}) }

  ghost function Next(s: Sys, e: Event): Sys {
    match e
    case Create(w, call) =>
      if w in s.workers && Running(s.workers[w]) then s
      else s.(workers := s.workers[w := Started(call)])
    case Lock(w, captured, key) =>
      if w in s.workers && s.workers[w].Locking? && MayLock(s, s.workers[w].call, captured, key)
      then s.(workers := s.workers[w := Locked(s.workers[w].call, captured, key)])
      else s
    case Step(w, id, expiresAt) => if w in s.workers then StepOf(s, w, id, expiresAt) else s
    case Abort(w) =>
      if w in s.workers && Running(s.workers[w]) then s.(workers := s.workers[w := Refused(s.workers[w].call, RolledBack)])
      else s
  }

  ghost function Run(s: Sys, events: seq<Event>): Sys {
    if events == [] then s else Next(Run(s, events[..|events| - 1]), events[|events| - 1])
  }

  function Initial(): Sys { Sys(map[], map[]) }

  predicate SameKey(a: Row, b: Row) {
    a.kind == b.kind && a.req.requester == b.req.requester && a.req.callerKey == b.req.callerKey
  }

  /** At most one condonation request per requester and caller key. */
  predicate Unique(rows: map<nat, Row>) {
    forall a, b :: a in rows && b in rows && rows[a].kind.Condonation? && SameKey(rows[a], rows[b]) ==> a == b
  }

  predicate WorkerOk(s: Sys, w: nat)
    requires w in s.workers
  {
    match s.workers[w]
    case Inserting(call, _) => Valid(call.req)
    case Holding(call, _, id, row) =>
      && id !in s.rows && !KeyTaken(s.rows, call) && row == NewRow(call, row.expiresAt)
    case Returned(call, id, row) =>
      id in s.rows && s.rows[id] == row && Answers(row, call) && row.fingerprint == FingerprintOf(call.req)
    case _ => true
  }

  predicate Clash(a: Pc, b: Pc) {
    a.Holding? && b.Holding? && (a.id == b.id || (a.row.kind.Condonation? && SameKey(a.row, b.row)))
  }

  predicate Inv(s: Sys) {
    && Unique(s.rows)
    && (forall w {:trigger WorkerOk(s, w)} :: w in s.workers ==> WorkerOk(s, w))
    && (forall v, w :: v in s.workers && w in s.workers && Clash(s.workers[v], s.workers[w]) ==> v == w)
  }

  lemma MovesInv(s: Sys, w: nat, pc: Pc)
    requires Inv(s) && WorkerOk(s.(workers := s.workers[w := pc]), w)
    requires pc.Holding? ==> !IdUsed(s, pc.id) && (pc.row.kind.Condonation? ==> !KeyHeld(s, pc.call))
    ensures Inv(s.(workers := s.workers[w := pc]))
  {
    var t := s.(workers := s.workers[w := pc]);
    forall v | v in t.workers ensures WorkerOk(t, v) {
      if v != w {
        assert WorkerOk(s, v);
      }
    }
  }

  /** A row becomes visible. */
  lemma VisibleInv(s: Sys, w: nat, id: nat, row: Row, call: Call)
    requires Inv(s) && w in s.workers && id !in s.rows && Answers(row, call)
    requires row.fingerprint == FingerprintOf(call.req) && !KeyTaken(s.rows, call)
    requires forall v :: v in s.workers && v != w && s.workers[v].Holding? ==>
               s.workers[v].id != id && !(row.kind.Condonation? && SameKey(s.workers[v].row, row))
    ensures Inv(s.(rows := s.rows[id := row], workers := s.workers[w := Returned(call, id, row)]))
  {
    var t := s.(rows := s.rows[id := row], workers := s.workers[w := Returned(call, id, row)]);
    forall v | v in t.workers ensures WorkerOk(t, v) {
      if v != w {
        assert WorkerOk(s, v);
      }
    }
  }

  lemma InsertInv(s: Sys, w: nat, id: nat, expiresAt: int)
    requires Inv(s) && w in s.workers && s.workers[w].Inserting?
    ensures Inv(StepOf(s, w, id, expiresAt))
  {
    var call := s.workers[w].call;
    assert WorkerOk(s, w);
    if !KeyHeld(s, call) && !IdUsed(s, id) {
      if KeyTaken(s.rows, call) {
        MovesInv(s, w, if call.inTransaction then Refused(call, TransactionAborted) else Refinding(call));
      } else if call.inTransaction {
        MovesInv(s, w, Holding(call, s.workers[w].locks, id, NewRow(call, expiresAt)));
      } else {
        VisibleInv(s, w, id, NewRow(call, expiresAt), call);
      }
    }
  }

  lemma StepInv(s: Sys, w: nat, id: nat, expiresAt: int)
    requires Inv(s) && w in s.workers
    ensures Inv(StepOf(s, w, id, expiresAt))
  {
    assert WorkerOk(s, w);
    match s.workers[w]
    case Looking(call) => MovesInv(s, w, Look(s.rows, call, id));
    case Finding(call, locks) => MovesInv(s, w, Find(s.rows, call, locks, id));
    case Inserting(_, _) => InsertInv(s, w, id, expiresAt);
    case Holding(call, _, rowId, row) =>
      forall v | v in s.workers && v != w && s.workers[v].Holding?
        ensures s.workers[v].id != rowId && !(row.kind.Condonation? && SameKey(s.workers[v].row, row))
      {
        assert !Clash(s.workers[w], s.workers[v]) && !Clash(s.workers[v], s.workers[w]);
      }
      VisibleInv(s, w, rowId, row, call);
    case Refinding(call) =>
      if id in s.rows && Answers(s.rows[id], call) {
        MovesInv(s, w, Found(s.rows, call, id));
      }
    case _ =>
  }

  lemma NextInv(s: Sys, e: Event)
    requires Inv(s)
    ensures Inv(Next(s, e))
  {
    match e
    case Create(w, call) => MovesInv(s, w, Started(call));
    case Lock(w, captured, key) =>
      if w in s.workers && s.workers[w].Locking? {
        MovesInv(s, w, Locked(s.workers[w].call, captured, key));
      }
    case Step(w, id, expiresAt) => if w in s.workers { StepInv(s, w, id, expiresAt); }
    case Abort(w) => if w in s.workers { MovesInv(s, w, Refused(s.workers[w].call, RolledBack)); }
  }

  lemma {:induction false} RunInv(s: Sys, events: seq<Event>)
    requires Inv(s)
    ensures Inv(Run(s, events))
  {
    if events != [] {
      RunInv(s, events[..|events| - 1]);
      NextInv(Run(s, events[..|events| - 1]), events[|events| - 1]);
    }
  }

  /******* Guarantees *******/

  lemma RowStays(s: Sys, e: Event, id: nat)
    requires Inv(s) && id in s.rows
    ensures id in Next(s, e).rows && Next(s, e).rows[id] == s.rows[id]
  {
    if e.Step? && e.worker in s.workers {
      assert WorkerOk(s, e.worker);
    }
  }

  lemma {:induction false} RowsStay(s: Sys, events: seq<Event>, id: nat)
    requires Inv(s) && id in s.rows
    ensures id in Run(s, events).rows && Run(s, events).rows[id] == s.rows[id]
  {
    if events != [] {
      RowsStay(s, events[..|events| - 1], id);
      RunInv(s, events[..|events| - 1]);
      RowStays(Run(s, events[..|events| - 1]), events[|events| - 1], id);
    }
  }

  lemma {:induction false} RunAppends(s: Sys, a: seq<Event>, b: seq<Event>)
    ensures Run(s, a + b) == Run(Run(s, a), b)
  {
    if b == [] {
      assert a + b == a;
    } else {
      RunAppends(s, a, b[..|b| - 1]);
      assert (a + b)[..|a + b| - 1] == a + b[..|b| - 1];
    }
  }

  /** One row per key: every condonation create that succeeds, at any time and however the calls
      interleave or fail, returns the one row of its (requester, caller key), and that row was made for
      the caller's own fingerprint. */
  lemma CreatesReturnTheOneRow(events: seq<Event>, later: seq<Event>, v: nat, w: nat)
    requires v in Run(Initial(), events).workers && Run(Initial(), events).workers[v].Returned?
    requires w in Run(Initial(), events + later).workers && Run(Initial(), events + later).workers[w].Returned?
    requires var a, b := Run(Initial(), events).workers[v].call, Run(Initial(), events + later).workers[w].call;
             && a.kind.Condonation? && b.kind.Condonation?
             && a.req.requester == b.req.requester && a.req.callerKey == b.req.callerKey
    ensures var a, b := Run(Initial(), events).workers[v], Run(Initial(), events + later).workers[w];
            && a.id == b.id && a.row == b.row
            && a.row.fingerprint == FingerprintOf(a.call.req) == FingerprintOf(b.call.req)
    ensures Unique(Run(Initial(), events + later).rows)
  {
    hide Next;
    RunInv(Initial(), events);
    RunInv(Initial(), events + later);
    RunAppends(Initial(), events, later);
    var s1, s2 := Run(Initial(), events), Run(Initial(), events + later);
    assert WorkerOk(s1, v) && WorkerOk(s2, w);
    RowsStay(s1, later, s1.workers[v].id);
    assert SameKey(s2.rows[s1.workers[v].id], s2.rows[s2.workers[w].id]);
  }

  /** Every row was made from a valid request, and so was every row that is about to be. */
  predicate RowsMade(s: Sys) {
    && (forall id <- s.rows :: Made(s.rows[id]))
    && (forall w <- s.workers :: RequestChecked(s.workers[w]))
  }

  predicate Made(row: Row) { Valid(row.req) && row.fingerprint == FingerprintOf(row.req) }

  predicate RequestChecked(pc: Pc) {
    match pc
    case Inserting(call, _) => Valid(call.req)
    case Holding(_, _, _, row) => Made(row)
    case Refinding(call) => Valid(call.req)
    case Returned(call, _, row) =>
      Valid(call.req) && Made(row) && Answers(row, call) && row.fingerprint == FingerprintOf(call.req)
    case _ => true
  }

  lemma StepMakes(s: Sys, e: Event)
    requires RowsMade(s) && Inv(s)
    ensures RowsMade(Next(s, e))
  {
    hide Valid, FingerprintOf, MayLock;
    var t := Next(s, e);
    if e.Step? && e.worker in s.workers {
      assert RequestChecked(s.workers[e.worker]) && WorkerOk(s, e.worker);
    }
    forall w | w in t.workers ensures RequestChecked(t.workers[w]) {
      if w in s.workers {
        assert RequestChecked(s.workers[w]);
      }
    }
  }

  lemma {:induction false} RunMakes(events: seq<Event>)
    ensures RowsMade(Run(Initial(), events))
  {
    hide Next, RowsMade;
    if events == [] {
      NothingMade();
    } else {
      RunMakes(events[..|events| - 1]);
      RunInv(Initial(), events[..|events| - 1]);
      StepMakes(Run(Initial(), events[..|events| - 1]), events[|events| - 1]);
    }
  }

  lemma NothingMade()
    ensures RowsMade(Run(Initial(), []))
  {
  }

  /** What a create that succeeds returns, field by field, at every moment of every run: a row of its own
      kind, requester and caller key that asks for exactly what the call asks for, obligations in any order,
      and whose request is complete, with obligations of one currency and positive amounts, none twice. */
  lemma ReturnedRowIsTheRequest(events: seq<Event>, w: nat)
    requires w in Run(Initial(), events).workers && Run(Initial(), events).workers[w].Returned?
    ensures var s, pc := Run(Initial(), events), Run(Initial(), events).workers[w];
            var want, got := pc.call.req, pc.row.req;
            && pc.id in s.rows && s.rows[pc.id] == pc.row && pc.row.kind == pc.call.kind
            && got.requester == want.requester && got.callerKey == want.callerKey
            && got.member == want.member && got.details == want.details && got.requesterKey == want.requesterKey
            && multiset(got.obligations) == multiset(want.obligations)
            && got.complete && got.member != "" && got.obligations != []
            && (forall i, j :: 0 <= i < j < |got.obligations| ==> got.obligations[i].id != got.obligations[j].id)
            && (forall o <- got.obligations ::
                  o.currency != "" && o.currency == got.obligations[0].currency && o.amountCents > 0)
  {
    hide Next;
    RunMakes(events);
    RunInv(Initial(), events);
    var s := Run(Initial(), events);
    assert RequestChecked(s.workers[w]) && WorkerOk(s, w);
    FingerprintBindsRequestUpToOrder(s.workers[w].row.req, s.workers[w].call.req);
  }

  /** Once the row exists, a call with another fingerprint is never returned it. */
  lemma OtherFingerprintNeverReturns(events: seq<Event>, id: nat, w: nat)
    requires var s := Run(Initial(), events);
             && id in s.rows && s.rows[id].kind.Condonation? && w in s.workers
             && Answers(s.rows[id], s.workers[w].call) && s.rows[id].fingerprint != FingerprintOf(s.workers[w].call.req)
    ensures !Run(Initial(), events).workers[w].Returned?
  {
    RunInv(Initial(), events);
    assert WorkerOk(Run(Initial(), events), w);
  }

  /******* One call with nothing in between *******/

  datatype Outcome = Ok(id: nat, row: Row) | Err(error: Error)

  /** The approval_tokens table changed in place by one session. */
  class RequestStore {
    var rows: map<nat, Row>

    constructor ()
      ensures rows == map[]
    {
      rows := map[];
    }

    method FindRequest(call: Call) returns (found: Option<nat>)
      ensures found.Some? <==> Exists(rows, call)
      ensures found.Some? ==> found.value in rows && Answers(rows[found.value], call)
    {
      if id :| id in rows && Answers(rows[id], call) {
        return Some(id);
      }
      return None;
    }

    /** createCondonationApprovalRequest and createCommunityWorkApprovalRequest. */
    method Create(call: Call, id: nat, expiresAt: int) returns (r: Outcome)
      requires id !in rows
      modifies this
      ensures r.Err? ==> rows == old(rows)
      ensures r == Err(ValidationError) <==>
                !(&& call.req.complete && call.req.member != "" && call.req.obligations != []
                  && (forall i, j :: 0 <= i < j < |call.req.obligations| ==>
                        call.req.obligations[i].id != call.req.obligations[j].id)
                  && (forall o <- call.req.obligations ::
                        o.currency != "" && o.currency == call.req.obligations[0].currency && o.amountCents > 0))
      ensures r.Ok? ==>
                && r.row.kind == call.kind && r.row.req.requester == call.req.requester
                && r.row.req.callerKey == call.req.callerKey
      ensures r != Err(ValidationError) &&
              (forall x <- old(rows) ::
                 !(old(rows)[x].kind == call.kind && old(rows)[x].req.requester == call.req.requester &&
                   old(rows)[x].req.callerKey == call.req.callerKey)) ==>
                && r.Ok? && r.id == id && r.row.req == call.req && r.row.expiresAt == expiresAt
                && rows == old(rows)[id := r.row]
      ensures r == Err(ValidationError) <==> !Valid(call.req)
      ensures r.Ok? ==> r.id in rows && rows[r.id] == r.row && Answers(r.row, call)
      ensures r.Ok? ==> r.row.fingerprint == FingerprintOf(call.req)
      ensures Valid(call.req) && !Exists(old(rows), call) ==>
                r == Ok(id, NewRow(call, expiresAt)) && rows == old(rows)[id := r.row]
      ensures Valid(call.req) && Exists(old(rows), call) ==> rows == old(rows) && (r.Ok? || r == Err(Conflict))
      ensures Unique(old(rows)) ==> Unique(rows)
    {
      if !Valid(call.req) {
        return Err(ValidationError);
      }
      var existing := FindRequest(call);
      if existing.Some? {
        if rows[existing.value].fingerprint != FingerprintOf(call.req) {
          return Err(Conflict);
        }
        return Ok(existing.value, rows[existing.value]);
      }
      var row := NewRow(call, expiresAt);
      rows := rows[id := row];
      return Ok(id, row);
    }
  }
}

/** The login lockout (apps/api/src/services/login.ts): how often a password can be tried.

  Times are milliseconds. A login reads the operator row and the clock, checks the password, and after a
  wrong one reads the clock again and writes. Logins of one operator follow one another.
 */
module Lockout {
  import opened Common

  const LOCKOUT_THRESHOLD: nat := 5
  const LOCKOUT_MS: nat := 15 * 60 * 1000

  datatype Operator = Operator(failedLoginAttempts: nat, lockedUntil: Option<int>)

  datatype Attempt = Attempt(passwordOk: bool, readAt: int, recordAt: int)

  datatype Outcome = LoggedIn | InvalidCredentials | AccountLocked

  function ComputeLockoutUpdate(currentAttempts: nat, now: int): (o: Operator)
    ensures currentAttempts < LOCKOUT_THRESHOLD ==> o.failedLoginAttempts < LOCKOUT_THRESHOLD
    ensures o.lockedUntil.Some? ==> o.failedLoginAttempts == 0
  {
    var nextAttempts := currentAttempts + 1;
    if nextAttempts >= LOCKOUT_THRESHOLD then Operator(0, Some(now + LOCKOUT_MS))
    else Operator(nextAttempts, None)
  }

  predicate Locked(o: Operator, now: int) { o.lockedUntil.Some? && o.lockedUntil.value > now }

  function After(o: Operator, a: Attempt): Operator {
    if Locked(o, a.readAt) then o
    else if a.passwordOk then Operator(0, None)
    else ComputeLockoutUpdate(o.failedLoginAttempts, a.recordAt)
  }

  function OutcomeOf(o: Operator, a: Attempt): Outcome {
    if Locked(o, a.readAt) then AccountLocked else if a.passwordOk then LoggedIn else InvalidCredentials
  }

  class OperatorRow {
    var row: Operator

    constructor ()
      ensures row == Operator(0, None)
    {
      row := Operator(0, None);
    }

    method Login(a: Attempt) returns (r: Outcome)
      modifies this
      ensures r.AccountLocked? <==> old(row).lockedUntil.Some? && old(row).lockedUntil.value > a.readAt
      ensures !r.AccountLocked? ==> (r.LoggedIn? <==> a.passwordOk)
      ensures r.AccountLocked? ==> row == old(row)
      ensures r.LoggedIn? ==> row == Operator(0, None)
      ensures r.InvalidCredentials? ==>
                if old(row).failedLoginAttempts < 4 then row == Operator(old(row).failedLoginAttempts + 1, None)
                else row == Operator(0, Some(a.recordAt + 15 * 60 * 1000))
      ensures row == After(old(row), a) && r == OutcomeOf(old(row), a)
    {
      if row.lockedUntil.Some? && row.lockedUntil.value > a.readAt {
        return AccountLocked;
      }
      if !a.passwordOk {
        RecordFailedAttempt(a.recordAt);
        return InvalidCredentials;
      }
      row := Operator(0, None);
      return LoggedIn;
    }

    method RecordFailedAttempt(now: int)
      modifies this
      ensures row == ComputeLockoutUpdate(old(row).failedLoginAttempts, now)
    {
      row := ComputeLockoutUpdate(row.failedLoginAttempts, now);
    }
  }

  /******* Runs *******/

  function Run(o: Operator, attempts: seq<Attempt>): Operator {
    if attempts == [] then o else After(Run(o, attempts[..|attempts| - 1]), attempts[|attempts| - 1])
  }

  /** The times at which a wrong password was checked and recorded. */
  function Recorded(o: Operator, attempts: seq<Attempt>): seq<int> {
    if attempts == [] then []
    else
      var n := |attempts| - 1;
      Recorded(o, attempts[..n]) +
      if OutcomeOf(Run(o, attempts[..n]), attempts[n]).InvalidCredentials? then [attempts[n].recordAt] else []
  }

  /** The clock does not go back within a login or between logins. */
  predicate ForwardClock(attempts: seq<Attempt>) {
    && (forall i :: 0 <= i < |attempts| ==> attempts[i].readAt <= attempts[i].recordAt)
    && (forall i, j :: 0 <= i < j < |attempts| ==> attempts[i].recordAt <= attempts[j].readAt)
  }

  /** The counter stays within 0..4 in every run, with successes and at any clock. */
  lemma {:induction false} CounterStaysBelowThreshold(o: Operator, attempts: seq<Attempt>)
    requires o.failedLoginAttempts < 5
    ensures Run(o, attempts).failedLoginAttempts < 5
  {
    if attempts != [] {
      CounterStaysBelowThreshold(o, attempts[..|attempts| - 1]);
    }
  }

  predicate AllWrong(attempts: seq<Attempt>) { forall i :: 0 <= i < |attempts| ==> !attempts[i].passwordOk }

  /** After recorded failure i the counter has wrapped round. */
  predicate LocksAt(o: Operator, i: int) { (o.failedLoginAttempts + i) % LOCKOUT_THRESHOLD == 0 }

  ghost predicate History(o: Operator, rec: seq<int>, now: Operator, clock: int) {
    && (forall i, j :: 0 <= i <= j < |rec| ==> rec[i] <= rec[j])
    && (forall i :: 0 <= i < |rec| ==> rec[i] <= clock)
    && (forall i :: 0 < i < |rec| && LocksAt(o, i) ==> rec[i] >= rec[i - 1] + LOCKOUT_MS)
    && now.failedLoginAttempts == (o.failedLoginAttempts + |rec|) % LOCKOUT_THRESHOLD
    && (rec != [] && LocksAt(o, |rec|) ==> now.lockedUntil == Some(rec[|rec| - 1] + LOCKOUT_MS))
  }

  lemma RecordingKeepsHistory(o: Operator, rec: seq<int>, now: Operator, clock: int, a: Attempt)
    requires o.failedLoginAttempts < LOCKOUT_THRESHOLD && History(o, rec, now, clock)
    requires clock <= a.readAt <= a.recordAt && !a.passwordOk && !Locked(now, a.readAt)
    ensures History(o, rec + [a.recordAt], After(now, a), a.recordAt)
  {
    var c, n := o.failedLoginAttempts, |rec|;
    NextRemainder(c + n);
  }

  lemma NextRemainder(x: nat)
    ensures (x + 1) % 5 == if x % 5 == 4 then 0 else x % 5 + 1
  {
  }

  lemma LaterClock(o: Operator, rec: seq<int>, now: Operator, clock: int, later: int)
    requires History(o, rec, now, clock) && clock <= later
    ensures History(o, rec, now, later)
  {
  }

  lemma NothingRecorded(o: Operator, clock: int)
    requires o.failedLoginAttempts < LOCKOUT_THRESHOLD
    ensures History(o, [], o, clock)
  {
  }

  predicate Follows(attempts: seq<Attempt>, clock: int) { forall i :: 0 <= i < |attempts| ==> attempts[i].recordAt <= clock }

  lemma {:induction false} RunHistory(o: Operator, attempts: seq<Attempt>, clock: int)
    requires o.failedLoginAttempts < LOCKOUT_THRESHOLD && ForwardClock(attempts) && AllWrong(attempts)
    requires Follows(attempts, clock)
    ensures History(o, Recorded(o, attempts), Run(o, attempts), clock)
  {
    hide History, After, ComputeLockoutUpdate;
    if attempts == [] {
      NothingRecorded(o, clock);
    } else {
      var n := |attempts| - 1;
      var a, rec, now := attempts[n], Recorded(o, attempts[..n]), Run(o, attempts[..n]);
      RunHistory(o, attempts[..n], a.readAt);
      if Locked(now, a.readAt) {
        LockedStays(now, a);
        assert rec + [] == rec;
        LaterClock(o, rec, now, a.readAt, clock);
      } else {
        RecordingKeepsHistory(o, rec, now, a.readAt, a);
        LaterClock(o, rec + [a.recordAt], After(now, a), a.recordAt, clock);
      }
    }
  }

  lemma LockedStays(o: Operator, a: Attempt)
    requires Locked(o, a.readAt)
    ensures After(o, a) == o
  {
  }

  /** One of any five consecutive failures wraps the counter round. */
  lemma NextLock(o: Operator, i: nat) returns (j: nat)
    ensures i < j <= i + 5 && LocksAt(o, j)
  {
    var x := o.failedLoginAttempts + i + 1;
    var r := x % 5;
    assert x == 5 * (x / 5) + r && x + 5 - r == 5 * (x / 5 + 1);
    j := if r == 0 then i + 1 else i + 1 + (5 - r);
    MultipleOfFive(if r == 0 then x / 5 else x / 5 + 1);
    var q := if r == 0 then x / 5 else x / 5 + 1;
    assert o.failedLoginAttempts + j == 5 * q;
    assert (o.failedLoginAttempts + j) % 5 == 0;
  }

  lemma MultipleOfFive(q: int)
    ensures (5 * q) % 5 == 0
  {
  }

  /** Any six consecutive wrong passwords span at least fifteen minutes. */
  lemma SixFailuresTakeFifteenMinutes(o: Operator, attempts: seq<Attempt>, i: nat)
    requires o.failedLoginAttempts < LOCKOUT_THRESHOLD && ForwardClock(attempts) && AllWrong(attempts)
    requires i + 5 < |Recorded(o, attempts)|
    ensures Recorded(o, attempts)[i + 5] - Recorded(o, attempts)[i] >= 900000
  {
    hide LocksAt, Recorded, Run;
    var rec := Recorded(o, attempts);
    RunHistory(o, attempts, LastTime(attempts));
    var j := NextLock(o, i);
    assert rec[j] >= rec[j - 1] + LOCKOUT_MS;
  }

  function LastTime(attempts: seq<Attempt>): (t: int)
    requires ForwardClock(attempts)
    ensures Follows(attempts, t)
  {
    if attempts == [] then 0 else attempts[|attempts| - 1].recordAt
  }

  /** The rate bound: without a success or an unlock in between, no fifteen minutes (closed at the start,
      open at the end) hold more than five recorded wrong-password checks. */
  lemma AtMostFivePerWindow(o: Operator, attempts: seq<Attempt>, from: int)
    requires o.failedLoginAttempts < LOCKOUT_THRESHOLD && ForwardClock(attempts) && AllWrong(attempts)
    ensures var rec := Recorded(o, attempts);
            |set i: nat | i < |rec| && from <= rec[i] < from + 900000| <= 5
  {
    var rec := Recorded(o, attempts);
    RunHistory(o, attempts, LastTime(attempts));
    assert forall i, j :: 0 <= i <= j < |rec| ==> rec[i] <= rec[j];
    hide Recorded, Run, History, ForwardClock, AllWrong;
    forall i: nat | i + 5 < |rec| ensures rec[i + 5] - rec[i] >= 900000 {
      SixFailuresTakeFifteenMinutes(o, attempts, i);
    }
    WindowIsShort(rec, from);
  }

  lemma WindowIsShort(rec: seq<int>, from: int)
    requires forall i, j :: 0 <= i <= j < |rec| ==> rec[i] <= rec[j]
    requires forall i: nat :: i + 5 < |rec| ==> rec[i + 5] - rec[i] >= 900000
    ensures |set i: nat | i < |rec| && from <= rec[i] < from + 900000| <= 5
  {
    var w := set i: nat | i < |rec| && from <= rec[i] < from + 900000;
    if w != {} {
      var x :| x in w;
      var a := LeastFrom(w, x);
      var late := a + 5;
      assert late < |rec| ==> rec[late] - rec[a] >= 900000;
      assert forall i <- w :: a <= i < late;
      FiveInARow(w, a);
    }
  }

  lemma FiveInARow(w: set<nat>, a: nat)
    requires forall i <- w :: a <= i < a + 5
    ensures |w| <= 5
  {
    assert w <= {a, a + 1, a + 2, a + 3, a + 4};
    SubsetSize(w, {a, a + 1, a + 2, a + 3, a + 4});
  }

  ghost function LeastFrom(w: set<nat>, x: nat): (a: nat)
    requires x in w
    ensures a in w && forall i <- w :: a <= i
    decreases x
  {
    if y :| y in w && y < x then LeastFrom(w, y) else x
  }
}

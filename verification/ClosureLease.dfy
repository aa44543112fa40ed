/** The fenced lease that guards one socios evidence closure (packages/db/src/evidence-closure.ts).

  One row per pair fingerprint. Each of the three SQL statements is one atomic step: `Succeeds` is its
  guard and `Apply` its effect. `LeaseStore` is the table the statements change in place. The
  theorems are about every finite run of the three statements by any workers, with any owners,
  fences, clocks and durations.
 */
module ClosureLease {

  datatype Lease = Lease(owner: string, fence: nat, expiresAt: int)

  type Table = map<string, Lease>

  datatype Op =
    | Acquire(key: string, owner: string, now: int, durationMs: int)
    | Renew(key: string, owner: string, fence: nat, now: int, durationMs: int)
    | Release(key: string, owner: string, fence: nat, now: int)

  /** True iff the statement matches (or inserts) a row, that is, iff RETURNING yields one row. */
  predicate Succeeds(t: Table, op: Op) {
    match op
    case Acquire(key, _, now, _) => key !in t || t[key].expiresAt <= now
    case Renew(key, owner, fence, now, _) =>
      key in t && t[key].owner == owner && t[key].fence == fence && t[key].expiresAt > now
    case Release(key, owner, fence, now) =>
      key in t && t[key].owner == owner && t[key].fence == fence && t[key].expiresAt > now
  }

  function Apply(t: Table, op: Op): Table {
    if !Succeeds(t, op) then t else
      match op
      case Acquire(key, owner, now, d) =>
        t[key := Lease(owner, if key in t then t[key].fence + 1 else 1, now + d)]
      case Renew(key, _, _, now, d) => t[key := t[key].(expiresAt := now + d)]
      case Release(key, _, _, now) => t[key := t[key].(expiresAt := now)]
  }

  datatype AcquireResult = Acquired(fence: nat) | NotAcquired

  /** The table `evidence_closure_leases`, changed in place by the three statements. */
  class LeaseStore {
    var rows: Table

    constructor ()
      ensures rows == map[]
    {
      rows := map[];
    }

    method AcquireClosureLease(fingerprint: string, owner: string, now: int, durationMs: int)
      returns (r: AcquireResult)
      modifies this
      ensures r.Acquired? <==> fingerprint !in old(rows) || old(rows)[fingerprint].expiresAt <= now
      ensures r.Acquired? ==>
                && r.fence == (if fingerprint in old(rows) then old(rows)[fingerprint].fence + 1 else 1)
                && rows == old(rows)[fingerprint := Lease(owner, r.fence, now + durationMs)]
      ensures r.NotAcquired? ==> rows == old(rows)
      ensures rows == Apply(old(rows), Acquire(fingerprint, owner, now, durationMs))
      ensures r.Acquired? <==> Succeeds(old(rows), Acquire(fingerprint, owner, now, durationMs))
    {
      if fingerprint !in rows {
        rows := rows[fingerprint := Lease(owner, 1, now + durationMs)];
        return Acquired(1);
      }
      var row := rows[fingerprint];
      if row.expiresAt <= now {
        rows := rows[fingerprint := Lease(owner, row.fence + 1, now + durationMs)];
        return Acquired(row.fence + 1);
      }
      return NotAcquired;
    }

    method RenewClosureLease(fingerprint: string, owner: string, fence: nat, now: int, durationMs: int)
      returns (renewed: bool)
      modifies this
      ensures renewed <==>
                && fingerprint in old(rows) && old(rows)[fingerprint].owner == owner
                && old(rows)[fingerprint].fence == fence && old(rows)[fingerprint].expiresAt > now
      ensures renewed ==> rows == old(rows)[fingerprint := Lease(owner, fence, now + durationMs)]
      ensures !renewed ==> rows == old(rows)
      ensures rows == Apply(old(rows), Renew(fingerprint, owner, fence, now, durationMs))
      ensures renewed <==> Succeeds(old(rows), Renew(fingerprint, owner, fence, now, durationMs))
    {
      if fingerprint in rows {
        var row := rows[fingerprint];
        if row.owner == owner && row.fence == fence && row.expiresAt > now {
          rows := rows[fingerprint := row.(expiresAt := now + durationMs)];
          return true;
        }
      }
      return false;
    }

    method ReleaseClosureLease(fingerprint: string, owner: string, fence: nat, now: int)
      returns (released: bool)
      modifies this
      ensures released <==>
                && fingerprint in old(rows) && old(rows)[fingerprint].owner == owner
                && old(rows)[fingerprint].fence == fence && old(rows)[fingerprint].expiresAt > now
      ensures released ==> rows == old(rows)[fingerprint := Lease(owner, fence, now)]
      ensures !released ==> rows == old(rows)
      ensures rows == Apply(old(rows), Release(fingerprint, owner, fence, now))
      ensures released <==> Succeeds(old(rows), Release(fingerprint, owner, fence, now))
    {
      if fingerprint in rows {
        var row := rows[fingerprint];
        if row.owner == owner && row.fence == fence && row.expiresAt > now {
          rows := rows[fingerprint := row.(expiresAt := now)];
          return true;
        }
      }
      return false;
    }
  }

  /******* Runs *******/

  /** The table after the first `n` statements of a run. */
  function TableAt(t0: Table, ops: seq<Op>, n: nat): Table
    requires n <= |ops|
  {
    if n == 0 then t0 else Apply(TableAt(t0, ops, n - 1), ops[n - 1])
  }

  /** Statement `i` of the run is an acquire of `key` that was granted. */
  predicate Granted(t0: Table, ops: seq<Op>, key: string, i: nat)
    requires i < |ops|
  {
    ops[i].Acquire? && ops[i].key == key && Succeeds(TableAt(t0, ops, i), ops[i])
  }

  /** The fence that the row of `key` holds after `n` statements; 0 while there is no row. */
  function FenceAt(t0: Table, ops: seq<Op>, key: string, n: nat): nat
    requires n <= |ops|
  {
    var t := TableAt(t0, ops, n);
    if key in t then t[key].fence else 0
  }

  /** Rows never disappear, fences never decrease, and a row keeps its owner while it keeps its fence. */
  lemma {:induction false} FenceMonotone(t0: Table, ops: seq<Op>, key: string, i: nat, j: nat)
    requires i <= j <= |ops|
    ensures FenceAt(t0, ops, key, i) <= FenceAt(t0, ops, key, j)
    ensures key in TableAt(t0, ops, i) ==> key in TableAt(t0, ops, j)
    ensures key in TableAt(t0, ops, i) && FenceAt(t0, ops, key, i) == FenceAt(t0, ops, key, j) ==>
              TableAt(t0, ops, i)[key].owner == TableAt(t0, ops, j)[key].owner
    decreases j - i
  {
    if i < j {
      FenceMonotone(t0, ops, key, i, j - 1);
    }
  }

  /** Successive grants of one key carry strictly increasing fences, in every run. */
  lemma FencesStrictlyIncrease(t0: Table, ops: seq<Op>, key: string, i: nat, j: nat)
    requires i < j < |ops|
    requires Granted(t0, ops, key, i) && Granted(t0, ops, key, j)
    ensures FenceAt(t0, ops, key, i + 1) < FenceAt(t0, ops, key, j + 1)
  {
    FenceMonotone(t0, ops, key, i + 1, j);
  }

  /** Once a grant has superseded a fence, that fence never renews or releases again, whatever
      clock it passes. */
  lemma SupersededIsDead(t0: Table, ops: seq<Op>, key: string, i: nat, j: nat)
    requires i < j < |ops|
    requires Granted(t0, ops, key, i)
    requires !ops[j].Acquire? && ops[j].key == key
    requires ops[j].fence < FenceAt(t0, ops, key, i + 1)
    ensures !Succeeds(TableAt(t0, ops, j), ops[j])
    ensures TableAt(t0, ops, j + 1) == TableAt(t0, ops, j)
  {
    FenceMonotone(t0, ops, key, i + 1, j);
  }

  /** Who may renew: a renewal or release that succeeds after some grant was made carries exactly
      the owner and fence of the latest grant before it. */
  lemma {:induction false} SuccessIsLatestGrant(t0: Table, ops: seq<Op>, key: string, i: nat, j: nat)
    requires i < j < |ops|
    requires Granted(t0, ops, key, i)
    requires forall k :: i < k < j ==> !Granted(t0, ops, key, k)
    requires !ops[j].Acquire? && ops[j].key == key && Succeeds(TableAt(t0, ops, j), ops[j])
    ensures ops[j].owner == ops[i].owner
    ensures ops[j].fence == FenceAt(t0, ops, key, i + 1)
  {
    NoGrantKeepsFence(t0, ops, key, i + 1, j);
    FenceMonotone(t0, ops, key, i + 1, j);
  }

  lemma {:induction false} NoGrantKeepsFence(t0: Table, ops: seq<Op>, key: string, i: nat, j: nat)
    requires i <= j <= |ops|
    requires forall k :: i <= k < j ==> !Granted(t0, ops, key, k)
    ensures FenceAt(t0, ops, key, i) == FenceAt(t0, ops, key, j)
    decreases j - i
  {
    if i < j {
      NoGrantKeepsFence(t0, ops, key, i, j - 1);
      assert !Granted(t0, ops, key, j - 1);
    }
  }

  /******* Holding intervals *******/

  /** One grant and the time it covers, [from, until): `until` is where its last successful renewal
      or release left it. */
  datatype Hold = Hold(owner: string, from: int, until: int)

  predicate Covers(h: Hold, t: int) { h.from <= t < h.until }

  /** Effect of one successful statement on the list of holds of its key. */
  function Extend(hs: seq<Hold>, op: Op): seq<Hold> {
    if op.Acquire? then hs + [Hold(op.owner, op.now, op.now + op.durationMs)]
    else if hs == [] then []
    else hs[|hs| - 1 := hs[|hs| - 1].(until := if op.Renew? then op.now + op.durationMs else op.now)]
  }

  /** The holds of `key` after `n` statements of a run that starts with an empty table, oldest first.
      The hold at position k is the one with fence k + 1. */
  function Holds(ops: seq<Op>, key: string, n: nat): seq<Hold>
    requires n <= |ops|
  {
    if n == 0 then []
    else
      var before := Holds(ops, key, n - 1);
      if ops[n - 1].key == key && Succeeds(TableAt(map[], ops, n - 1), ops[n - 1])
      then Extend(before, ops[n - 1])
      else before
  }

  /** The row of the table is the newest hold. */
  lemma {:induction false} RowIsLastHold(ops: seq<Op>, key: string, n: nat)
    requires n <= |ops|
    ensures var t, hs := TableAt(map[], ops, n), Holds(ops, key, n);
            if key in t then hs != [] && t[key].fence == |hs| &&
                             t[key].owner == hs[|hs| - 1].owner && t[key].expiresAt == hs[|hs| - 1].until
            else hs == []
  {
    if n > 0 {
      RowIsLastHold(ops, key, n - 1);
    }
  }

  predicate SuccessOn(ops: seq<Op>, key: string, j: nat)
    requires j < |ops|
  {
    ops[j].key == key && Succeeds(TableAt(map[], ops, j), ops[j])
  }

  /** What a statement does to the holds of its key, told by the holds alone: a grant needs the newest one
      to have ended, a renewal or release needs it to be the caller's own, by owner and fence, and not to
      have ended. */
  lemma StatementsMoveHolds(ops: seq<Op>, key: string, j: nat)
    requires j < |ops| && ops[j].key == key
    ensures var op, hs, hs' := ops[j], Holds(ops, key, j), Holds(ops, key, j + 1);
            match op
            case Acquire(_, owner, now, d) =>
              && (SuccessOn(ops, key, j) <==> hs == [] || hs[|hs| - 1].until <= now)
              && hs' == if hs == [] || hs[|hs| - 1].until <= now then hs + [Hold(owner, now, now + d)] else hs
            case Renew(_, owner, fence, now, d) =>
              var own := hs != [] && hs[|hs| - 1].owner == owner && |hs| == fence && now < hs[|hs| - 1].until;
              && (SuccessOn(ops, key, j) <==> own)
              && hs' == if own then hs[|hs| - 1 := Hold(owner, hs[|hs| - 1].from, now + d)] else hs
            case Release(_, owner, fence, now) =>
              var own := hs != [] && hs[|hs| - 1].owner == owner && |hs| == fence && now < hs[|hs| - 1].until;
              && (SuccessOn(ops, key, j) <==> own)
              && hs' == if own then hs[|hs| - 1 := Hold(owner, hs[|hs| - 1].from, now)] else hs
  {
    RowIsLastHold(ops, key, j);
  }

  /** No hold is ever extended at or after its end: a statement that moves an end, whichever way, passes a
      clock strictly before it, and a hold that has ended at every later clock stays as it is. */
  lemma EndedHoldsStayEnded(ops: seq<Op>, key: string, j: nat, k: nat)
    requires j < |ops| && k < |Holds(ops, key, j)|
    ensures k < |Holds(ops, key, j + 1)|
    ensures Holds(ops, key, j + 1)[k] != Holds(ops, key, j)[k] ==>
              && !ops[j].Acquire? && ops[j].key == key
              && k == |Holds(ops, key, j)| - 1 && ops[j].fence == k + 1
              && ops[j].owner == Holds(ops, key, j)[k].owner
              && ops[j].now < Holds(ops, key, j)[k].until
              && Holds(ops, key, j + 1)[k].from == Holds(ops, key, j)[k].from
  {
    if ops[j].key == key {
      StatementsMoveHolds(ops, key, j);
    }
  }

  /** Over the rest of a run: once every later clock is at or after its end, a hold keeps its end. */
  lemma {:induction false} LateClocksExtendNothing(ops: seq<Op>, key: string, i: nat, j: nat, k: nat)
    requires i <= j <= |ops| && k < |Holds(ops, key, i)|
    requires forall n :: i <= n < j ==> ops[n].now >= Holds(ops, key, i)[k].until
    ensures k < |Holds(ops, key, j)| && Holds(ops, key, j)[k] == Holds(ops, key, i)[k]
    decreases j - i
  {
    if i < j {
      LateClocksExtendNothing(ops, key, i, j - 1, k);
      EndedHoldsStayEnded(ops, key, j - 1, k);
    }
  }

  lemma SuccessHasHold(ops: seq<Op>, key: string, j: nat)
    requires j < |ops| && SuccessOn(ops, key, j)
    ensures Holds(ops, key, j + 1) != []
    ensures !ops[j].Acquire? ==> Holds(ops, key, j) != []
    ensures ops[j].Acquire? && Holds(ops, key, j) != [] ==> Holds(ops, key, j)[|Holds(ops, key, j)| - 1].until <= ops[j].now
  {
    RowIsLastHold(ops, key, j);
  }

  /** At any clocks, a hold starts no earlier than where the one before it was left. */
  lemma {:induction false} NeighboursMeet(ops: seq<Op>, key: string, n: nat, k: nat)
    requires n <= |ops| && k + 1 < |Holds(ops, key, n)|
    ensures Holds(ops, key, n)[k].until <= Holds(ops, key, n)[k + 1].from
  {
    var before := Holds(ops, key, n - 1);
    if k + 1 < |before| {
      NeighboursMeet(ops, key, n - 1, k);
    } else {
      SuccessHasHold(ops, key, n - 1);
    }
  }

  /** Two holds cover one instant, at any clocks, only when a hold between them was left to end before it
      began: some worker renewed or released with a clock behind its own grant. So they are never
      neighbours. Exactly when they do is told by their ends. */
  lemma HoldsOverlapIff(ops: seq<Op>, key: string, k: nat, l: nat)
    requires k < l < |Holds(ops, key, |ops|)|
    ensures var hs := Holds(ops, key, |ops|);
            && ((exists t :: Covers(hs[k], t) && Covers(hs[l], t)) ==>
                  exists m :: k < m < l && hs[m].until < hs[m].from)
            && ((exists t :: Covers(hs[k], t) && Covers(hs[l], t)) <==>
                  hs[k].from < hs[k].until && hs[l].from < hs[l].until &&
                  hs[l].from < hs[k].until && hs[k].from < hs[l].until)
  {
    var hs := Holds(ops, key, |ops|);
    if hs[k].from < hs[k].until && hs[l].from < hs[l].until && hs[l].from < hs[k].until && hs[k].from < hs[l].until {
      var t := if hs[k].from < hs[l].from then hs[l].from else hs[k].from;
      assert Covers(hs[k], t) && Covers(hs[l], t);
      UprightBetween(ops, key, k, l);
    }
  }

  lemma {:induction false} UprightBetween(ops: seq<Op>, key: string, k: nat, l: nat)
    requires k < l < |Holds(ops, key, |ops|)|
    ensures var hs := Holds(ops, key, |ops|);
            hs[k].until <= hs[l].from || exists m :: k < m < l && hs[m].until < hs[m].from
    decreases l - k
  {
    var hs := Holds(ops, key, |ops|);
    NeighboursMeet(ops, key, |ops|, l - 1);
    if k < l - 1 {
      UprightBetween(ops, key, k, l - 1);
      assert hs[l - 1].until < hs[l - 1].from || hs[l - 1].from <= hs[l - 1].until;
    }
  }

  /** The row can be granted next to a hold that still lasts iff it says it expired before that hold ends:
      the table itself shows only the newest grant. */
  lemma NextGrantCanOverlapIff(ops: seq<Op>, key: string)
    requires Holds(ops, key, |ops|) != []
    ensures var hs := Holds(ops, key, |ops|);
            (exists owner, now, d, t, k: nat ::
               && Succeeds(TableAt(map[], ops, |ops|), Acquire(key, owner, now, d)) && k < |hs|
               && Covers(Hold(owner, now, now + d), t) && Covers(hs[k], t))
            <==> (exists k: nat :: k < |hs| && hs[k].from < hs[k].until && hs[|hs| - 1].until < hs[k].until)
  {
    var hs := Holds(ops, key, |ops|);
    var last := hs[|hs| - 1];
    RowIsLastHold(ops, key, |ops|);
    if k: nat :| k < |hs| && hs[k].from < hs[k].until && last.until < hs[k].until {
      var now := if last.until < hs[k].from then hs[k].from else last.until;
      assert Succeeds(TableAt(map[], ops, |ops|), Acquire(key, "", now, 1));
      assert Covers(Hold("", now, now + 1), now) && Covers(hs[k], now);
    }
  }

  /** No successful renewal or release of the key leaves its grant to end before it began. A worker can
      check this before the call: the new end is not before the clock of its own grant. */
  predicate KeepsOwnStart(ops: seq<Op>, key: string) {
    forall j :: 0 <= j < |ops| && SuccessOn(ops, key, j) ==>
      var hs := Holds(ops, key, j + 1); hs != [] && hs[|hs| - 1].from <= hs[|hs| - 1].until
  }

  lemma {:induction false} HoldsUpright(ops: seq<Op>, key: string, n: nat, k: nat)
    requires n <= |ops| && KeepsOwnStart(ops, key) && k < |Holds(ops, key, n)|
    ensures Holds(ops, key, n)[k].from <= Holds(ops, key, n)[k].until
  {
    if SuccessOn(ops, key, n - 1) && k == |Holds(ops, key, n)| - 1 {
      assert KeepsOwnStart(ops, key);
    } else {
      HoldsUpright(ops, key, n - 1, k);
    }
  }

  /** Mutual exclusion, with no common clock: when no worker ends its own grant before it began, two
      different holds never cover the same instant. */
  lemma HoldsNeverOverlap(ops: seq<Op>, key: string, k: nat, l: nat, t: int)
    requires KeepsOwnStart(ops, key)
    requires k < |Holds(ops, key, |ops|)| && l < |Holds(ops, key, |ops|)|
    requires Covers(Holds(ops, key, |ops|)[k], t) && Covers(Holds(ops, key, |ops|)[l], t)
    ensures k == l
  {
    var a, b := if k < l then k else l, if k < l then l else k;
    if a < b {
      HoldsOverlapIff(ops, key, a, b);
      var hs := Holds(ops, key, |ops|);
      var m :| a < m < b && hs[m].until < hs[m].from;
      HoldsUpright(ops, key, |ops|, m);
      assert false;
    }
  }

  /******* Each grant's own clock *******/

  /** The clock of the newest successful statement on the key. */
  function LastClock(ops: seq<Op>, key: string, n: nat): int
    requires n <= |ops|
  {
    if n == 0 then 0 else if SuccessOn(ops, key, n - 1) then ops[n - 1].now else LastClock(ops, key, n - 1)
  }

  /** Within one grant the clock does not go back from one successful statement to the next, and no
      duration is negative. Clocks of other grants, keys and workers are free. */
  predicate OwnClocks(ops: seq<Op>, key: string) {
    forall j :: 0 <= j < |ops| && SuccessOn(ops, key, j) ==>
      && (ops[j].Acquire? || LastClock(ops, key, j) <= ops[j].now)
      && (ops[j].Release? || ops[j].durationMs >= 0)
  }

  /** The newest hold began by the last statement on it and lasts until then at least. */
  lemma {:induction false} LastClockInside(ops: seq<Op>, key: string, n: nat)
    requires n <= |ops| && OwnClocks(ops, key) && Holds(ops, key, n) != []
    ensures var hs := Holds(ops, key, n); hs[|hs| - 1].from <= LastClock(ops, key, n) <= hs[|hs| - 1].until
  {
    if SuccessOn(ops, key, n - 1) {
      SuccessHasHold(ops, key, n - 1);
      if !ops[n - 1].Acquire? {
        LastClockInside(ops, key, n - 1);
      }
    } else {
      LastClockInside(ops, key, n - 1);
    }
  }

  lemma OwnClocksKeepStart(ops: seq<Op>, key: string)
    requires OwnClocks(ops, key)
    ensures KeepsOwnStart(ops, key)
  {
    forall j | 0 <= j < |ops| && SuccessOn(ops, key, j)
      ensures var hs := Holds(ops, key, j + 1); hs != [] && hs[|hs| - 1].from <= hs[|hs| - 1].until
    {
      SuccessHasHold(ops, key, j);
      LastClockInside(ops, key, j + 1);
    }
  }

  /** A clock that never goes back for anybody is more than enough. */
  predicate ForwardClock(ops: seq<Op>) {
    && (forall i, j :: 0 <= i < j < |ops| ==> ops[i].now <= ops[j].now)
    && (forall i :: 0 <= i < |ops| && !ops[i].Release? ==> ops[i].durationMs > 0)
  }

  lemma ForwardClockSuffices(ops: seq<Op>, key: string)
    requires ForwardClock(ops)
    ensures OwnClocks(ops, key)
  {
    forall j | 0 <= j < |ops| && SuccessOn(ops, key, j) && !ops[j].Acquire?
      ensures LastClock(ops, key, j) <= ops[j].now
    {
      SuccessHasHold(ops, key, j);
      LastClockWasGiven(ops, key, j);
    }
  }

  lemma {:induction false} LastClockWasGiven(ops: seq<Op>, key: string, n: nat)
    requires n <= |ops| && Holds(ops, key, n) != []
    ensures exists i :: 0 <= i < n && LastClock(ops, key, n) == ops[i].now
  {
    if !SuccessOn(ops, key, n - 1) {
      LastClockWasGiven(ops, key, n - 1);
    }
  }

  /** Old holds keep their start and owner, and all but the newest are frozen. */
  lemma {:induction false} HoldsGrow(ops: seq<Op>, key: string, i: nat, j: nat)
    requires i <= j <= |ops|
    ensures |Holds(ops, key, i)| <= |Holds(ops, key, j)|
    ensures forall k :: 0 <= k < |Holds(ops, key, i)| ==>
              Holds(ops, key, j)[k].from == Holds(ops, key, i)[k].from &&
              Holds(ops, key, j)[k].owner == Holds(ops, key, i)[k].owner
    decreases j - i
  {
    if i < j {
      HoldsGrow(ops, key, i, j - 1);
    }
  }

  /** A hold ends no earlier than any clock that was passed while it was the newest. */
  lemma {:induction false} HoldOutlastsItsClocks(ops: seq<Op>, key: string, i: nat, j: nat)
    requires i <= j <= |ops| && OwnClocks(ops, key) && Holds(ops, key, i) != []
    ensures |Holds(ops, key, i)| <= |Holds(ops, key, j)|
    ensures Holds(ops, key, j)[|Holds(ops, key, i)| - 1].until >= LastClock(ops, key, i)
    ensures |Holds(ops, key, i)| == |Holds(ops, key, j)| ==> LastClock(ops, key, j) >= LastClock(ops, key, i)
    decreases j - i
  {
    if i == j {
      LastClockInside(ops, key, i);
    } else {
      HoldOutlastsItsClocks(ops, key, i, j - 1);
      HoldsGrow(ops, key, i, j);
      if SuccessOn(ops, key, j - 1) && |Holds(ops, key, i)| == |Holds(ops, key, j)| {
        SuccessHasHold(ops, key, j - 1);
        LastClockInside(ops, key, j);
      }
    }
  }

  lemma RenewalExtendsLastHold(ops: seq<Op>, key: string, j: nat)
    requires OwnClocks(ops, key) && j < |ops| && ops[j].Renew? && SuccessOn(ops, key, j)
    ensures var hs := Holds(ops, key, j + 1);
            && |hs| == ops[j].fence && hs != []
            && hs[|hs| - 1].owner == ops[j].owner && hs[|hs| - 1].from <= ops[j].now
            && LastClock(ops, key, j + 1) == ops[j].now
  {
    RowIsLastHold(ops, key, j);
    SuccessHasHold(ops, key, j);
    LastClockInside(ops, key, j + 1);
  }

  /** Holds in order of time. */
  lemma {:induction false} HoldsInOrder(ops: seq<Op>, key: string, k: nat, l: nat)
    requires OwnClocks(ops, key) && k < l < |Holds(ops, key, |ops|)|
    ensures Holds(ops, key, |ops|)[k].until <= Holds(ops, key, |ops|)[l].from
  {
    OwnClocksKeepStart(ops, key);
    UprightBetween(ops, key, k, l);
    var hs := Holds(ops, key, |ops|);
    forall m | k < m < l ensures hs[m].from <= hs[m].until {
      HoldsUpright(ops, key, |ops|, m);
    }
  }

  /** What a worker may rely on: a renewal that succeeds at `now` with fence f lies inside the final
      interval of f, every older interval has ended by then and every newer one starts no earlier. */
  lemma RenewalIsInsideOwnHold(ops: seq<Op>, key: string, j: nat)
    requires OwnClocks(ops, key) && j < |ops| && ops[j].Renew? && SuccessOn(ops, key, j)
    ensures var hs, f := Holds(ops, key, |ops|), ops[j].fence;
            && 1 <= f <= |hs|
            && hs[f - 1].from <= ops[j].now <= hs[f - 1].until
            && hs[f - 1].owner == ops[j].owner
            && (forall k :: 0 <= k < f - 1 ==> hs[k].until <= ops[j].now)
            && (forall k :: f <= k < |hs| ==> ops[j].now <= hs[k].from)
  {
    hide TableAt, Holds, Succeeds, OwnClocks;
    RenewalExtendsLastHold(ops, key, j);
    HoldsGrow(ops, key, j + 1, |ops|);
    HoldOutlastsItsClocks(ops, key, j + 1, |ops|);
    var hs, f := Holds(ops, key, |ops|), ops[j].fence;
    forall k | 0 <= k < f - 1 ensures hs[k].until <= ops[j].now {
      HoldsInOrder(ops, key, k, f - 1);
    }
    forall k | f <= k < |hs| ensures ops[j].now <= hs[k].from {
      HoldsInOrder(ops, key, f - 1, k);
    }
  }

  /** The condition is needed: every call is granted in turn, and one release with a clock behind its own
      grant lets two other fences hold one instant. */
  lemma BackwardClockOverlaps()
    ensures exists ops: seq<Op>, key, t, k: nat, l: nat ::
              && k < l < |Holds(ops, key, |ops|)|
              && Covers(Holds(ops, key, |ops|)[k], t) && Covers(Holds(ops, key, |ops|)[l], t)
              && (forall i :: 0 <= i < |ops| && !ops[i].Release? ==> ops[i].durationMs > 0)
  {
    var a, b, c, d :=
      Acquire("k", "w1", 10, 10), Acquire("k", "w2", 20, 10), Release("k", "w2", 2, 3), Acquire("k", "w3", 3, 10);
    var ops := [a, b, c, d];
    var t1, t2, t3: Table :=
      map["k" := Lease("w1", 1, 20)], map["k" := Lease("w2", 2, 30)], map["k" := Lease("w2", 2, 3)];
    assert TableAt(map[], ops, 0) == map[];
    assert TableAt(map[], ops, 1) == t1;
    assert TableAt(map[], ops, 2) == t2;
    assert TableAt(map[], ops, 3) == t3;
    assert Holds(ops, "k", 0) == [];
    assert Holds(ops, "k", 1) == [Hold("w1", 10, 20)];
    assert Holds(ops, "k", 2) == [Hold("w1", 10, 20), Hold("w2", 20, 30)];
    assert Holds(ops, "k", 3) == [Hold("w1", 10, 20), Hold("w2", 20, 3)];
    var hs := Holds(ops, "k", 4);
    assert hs == [Hold("w1", 10, 20), Hold("w2", 20, 3), Hold("w3", 3, 13)];
    assert Covers(hs[0], 12) && Covers(hs[2], 12);
  }
}

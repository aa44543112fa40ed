/** Promotion of ctacte and ctacte1 over a sequence of runs, each of which may end with the catch-all error
  (packages/promotion/src/promote.ts, packages/promotion/src/dedup.ts).

  A run reads the raw events that are not promoted yet. Its inserts are kept as they go through; its stamps
  are one update after the last batch. The raw events were given their legacy ids by migration 0018 and
  their key columns are plain.
 */
module PromotionHistory {
  import opened Common
  import opened Promotion
  import opened PromotionKeys
  import opened PromotionRun
  import opened PromotionGuarantees

  /** One run. What the transform accepts may change from run to run. */
  datatype Turn = Turn(rows: seq<Raw>, accepts: Raw -> bool, selects: bool, lookups: bool, stamping: bool, fails: nat -> bool)

  function AttemptOf(l: Ledger, turn: Turn): Attempt {
    Attempt(turn.rows, LedgerTransform(l, turn.accepts), turn.selects, turn.lookups, turn.stamping, turn.fails)
  }

  /** The raw events of a ledger: ids and legacy ids are unique, migrated, and their keys plain. */
  predicate RawsOk(l: Ledger, raws: set<Raw>) {
    && (forall r, s :: r in raws && s in raws && (r.id == s.id || r.legacyId == s.legacyId) ==> r == s)
    && (forall r <- raws :: r.legacyId == SqlKey(l, r.payload) && Plain(l, r.payload))
  }

  /** WHERE promoted_at IS NULL, in any order. */
  ghost predicate Reads(raws: set<Raw>, t: Tables, rows: seq<Raw>) {
    && (forall r :: r in rows <==> r in raws && r.id !in t.promoted)
    && DistinctIds(rows)
  }

  function PromotedKeys(raws: set<Raw>, t: Tables): set<string> {
    set r | r in raws && r.id in t.promoted :: r.sourceKey
  }

  function Next(l: Ledger, raws: set<Raw>, t: Tables, turn: Turn): Tables {
    After(t, PromotedKeys(raws, t), AttemptOf(l, turn))
  }

  predicate Star(l: Ledger, raws: set<Raw>, t: Tables, turn: Turn) {
    EndsInStar(t, PromotedKeys(raws, t), AttemptOf(l, turn))
  }

  function History(l: Ledger, raws: set<Raw>, t: Tables, turns: seq<Turn>): Tables {
    if turns == [] then t else Next(l, raws, History(l, raws, t, turns[..|turns| - 1]), turns[|turns| - 1])
  }

  /** Every run reads what is there when it starts. */
  ghost predicate Reading(l: Ledger, raws: set<Raw>, t: Tables, turns: seq<Turn>) {
    forall i :: 0 <= i < |turns| ==> Reads(raws, History(l, raws, t, turns[..i]), turns[i].rows)
  }

  /******* One run *******/

  lemma ReadRowsAreMigrated(l: Ledger, raws: set<Raw>, t: Tables, rows: seq<Raw>)
    requires RawsOk(l, raws) && Reads(raws, t, rows)
    ensures Migrated(l, rows) && PlainKeys(l, rows)
  {
    hide SqlKey, Plain;
    forall i, j | 0 <= i < j < |rows| ensures rows[i].legacyId != rows[j].legacyId {
      assert rows[i] in rows && rows[j] in rows;
    }
  }

  /** The row of `r` is inserted by this run. */
  predicate Inserts(l: Ledger, raws: set<Raw>, t: Tables, turn: Turn, r: Raw) {
    r.legacyId !in t.master && r.legacyId in Next(l, raws, t, turn).master
  }

  /** What comes into the master comes from the raw event with that legacy id, which this run has read. */
  lemma NewRowIsOwn(l: Ledger, raws: set<Raw>, t: Tables, turn: Turn, k: string) returns (r: Raw)
    requires RawsOk(l, raws) && Reads(raws, t, turn.rows)
    requires k !in t.master && k in Next(l, raws, t, turn).master
    ensures r in raws && r.legacyId == k && r.id !in t.promoted && Next(l, raws, t, turn).master[k] == r.id
  {
    hide Promote, SqlKey, JsKey, Plain, Migrated, PlainKeys;
    ReadRowsAreMigrated(l, raws, t, turn.rows);
    NewRowsCameFromTheirRawEvent(l, t.master, t.master.Keys + PromotedKeys(raws, t), turn.rows, turn.accepts, turn.fails, k);
    r :| r in turn.rows && r.legacyId == k && r.id == Next(l, raws, t, turn).master[k];
  }

  lemma RunGrows(l: Ledger, raws: set<Raw>, t: Tables, turn: Turn)
    ensures Kept(t.master, Next(l, raws, t, turn).master) && t.promoted <= Next(l, raws, t, turn).promoted
  {
    hide Promote;
    PromoteCounts(t.master, t.master.Keys + PromotedKeys(raws, t), turn.rows, LedgerTransform(l, turn.accepts), turn.fails);
  }

  lemma CollectedByRun(l: Ledger, raws: set<Raw>, t: Tables, turn: Turn)
    requires RawsOk(l, raws) && Reads(raws, t, turn.rows)
    ensures var t' := Next(l, raws, t, turn);
            t'.promoted == t.promoted + if Star(l, raws, t, turn) then {} else NewOrigins(t.master, t'.master)
  {
    hide Promote, SqlKey, JsKey, Plain, Migrated, PlainKeys, NewOrigins;
    ReadRowsAreMigrated(l, raws, t, turn.rows);
    MigratedRowsCollectExactly(l, t.master, t.master.Keys + PromotedKeys(raws, t), turn.rows, turn.accepts, turn.fails);
  }

  /** A raw event is stamped by a run iff the run inserts its row and does not end in the catch-all error. */
  lemma StampedByRunIff(l: Ledger, raws: set<Raw>, t: Tables, turn: Turn, r: Raw)
    requires RawsOk(l, raws) && Reads(raws, t, turn.rows) && r in raws
    ensures r.id in Next(l, raws, t, turn).promoted <==>
              r.id in t.promoted || (Inserts(l, raws, t, turn, r) && !Star(l, raws, t, turn))
  {
    hide Next, Star, SqlKey, Plain, Reads;
    CollectedByRun(l, raws, t, turn);
    var t' := Next(l, raws, t, turn);
    if r.id in NewOrigins(t.master, t'.master) {
      var k :| k in t'.master && k !in t.master && t'.master[k] == r.id;
      var s := NewRowIsOwn(l, raws, t, turn, k);
    }
    if Inserts(l, raws, t, turn, r) {
      var s := NewRowIsOwn(l, raws, t, turn, r.legacyId);
      assert t'.master[r.legacyId] == r.id;
    }
  }

  /** Precise stamping, on the table: a run stamps exactly the raw events whose master row it inserted, iff it
      did not both insert something and end in the catch-all error. */
  lemma RunStampsItsInsertsIff(l: Ledger, raws: set<Raw>, t: Tables, turn: Turn)
    requires RawsOk(l, raws) && Reads(raws, t, turn.rows)
    ensures var t' := Next(l, raws, t, turn);
            t'.promoted - t.promoted == NewOrigins(t.master, t'.master) <==>
            !(Star(l, raws, t, turn) && |t'.master| > |t.master|)
  {
    hide Next, Star, SqlKey, Plain, Reads;
    var t' := Next(l, raws, t, turn);
    CollectedByRun(l, raws, t, turn);
    RunGrows(l, raws, t, turn);
    GrowsIff(t.master, t'.master);
    forall x | x in NewOrigins(t.master, t'.master) ensures x !in t.promoted {
      var k :| k in t'.master && k !in t.master && t'.master[k] == x;
      var s := NewRowIsOwn(l, raws, t, turn, k);
    }
  }

  lemma GrowsIff(m: Master, m': Master)
    requires Kept(m, m')
    ensures |m'| > |m| <==> NewOrigins(m, m') != {}
  {
    assert m.Keys <= m'.Keys && m'.Keys == m.Keys + (m'.Keys - m.Keys);
    if k :| k in m'.Keys - m.Keys {
      assert m'[k] in NewOrigins(m, m');
    } else {
      assert m'.Keys == m.Keys;
    }
  }

  /******* A sequence of runs *******/

  lemma ReadingPrefix(l: Ledger, raws: set<Raw>, t: Tables, turns: seq<Turn>)
    requires Reading(l, raws, t, turns) && turns != []
    ensures Reading(l, raws, t, turns[..|turns| - 1])
    ensures Reads(raws, History(l, raws, t, turns[..|turns| - 1]), turns[|turns| - 1].rows)
  {
    hide History, Reads;
    var prefix := turns[..|turns| - 1];
    forall i | 0 <= i < |prefix| ensures Reads(raws, History(l, raws, t, prefix[..i]), prefix[i].rows) {
      assert prefix[..i] == turns[..i] && prefix[i] == turns[i];
    }
  }

  /** The `i`-th run inserts the row of `r`; `star` is how it ends. */
  ghost predicate InsertedAt(l: Ledger, raws: set<Raw>, t: Tables, turns: seq<Turn>, i: int, r: Raw, star: bool) {
    0 <= i < |turns| &&
    var u := History(l, raws, t, turns[..i]);
    Inserts(l, raws, u, turns[i], r) && Star(l, raws, u, turns[i]) == star
  }

  lemma InsertedAtPrefix(l: Ledger, raws: set<Raw>, t: Tables, turns: seq<Turn>, i: int, r: Raw, star: bool)
    requires turns != [] && i != |turns| - 1
    ensures InsertedAt(l, raws, t, turns[..|turns| - 1], i, r, star) == InsertedAt(l, raws, t, turns, i, r, star)
  {
    var prefix := turns[..|turns| - 1];
    if 0 <= i < |prefix| {
      assert prefix[..i] == turns[..i];
    }
  }

  /** Some run inserts the row of `r` and ends so. */
  ghost predicate InsertedByARun(l: Ledger, raws: set<Raw>, t: Tables, turns: seq<Turn>, r: Raw, star: bool) {
    exists i :: InsertedAt(l, raws, t, turns, i, r, star)
  }

  lemma OneMoreRun(l: Ledger, raws: set<Raw>, t: Tables, turns: seq<Turn>, r: Raw, star: bool)
    requires turns != []
    ensures var n := |turns| - 1;
            var u := History(l, raws, t, turns[..n]);
            InsertedByARun(l, raws, t, turns, r, star) <==>
            InsertedByARun(l, raws, t, turns[..n], r, star) ||
            (Inserts(l, raws, u, turns[n], r) && Star(l, raws, u, turns[n]) == star)
  {
    hide Star, Inserts, History;
    var n := |turns| - 1;
    assert InsertedAt(l, raws, t, turns, n, r, star) <==>
           Inserts(l, raws, History(l, raws, t, turns[..n]), turns[n], r) &&
           Star(l, raws, History(l, raws, t, turns[..n]), turns[n]) == star;
    assert !InsertedAt(l, raws, t, turns[..n], n, r, star);
    hide InsertedAt;
    forall i | i != n ensures InsertedAt(l, raws, t, turns[..n], i, r, star) == InsertedAt(l, raws, t, turns, i, r, star) {
      InsertedAtPrefix(l, raws, t, turns, i, r, star);
    }
  }

  /** How a raw event fares over any sequence of runs. It is stamped iff the run that inserted its row went
      through; and its row is in the master while it stays unstamped iff that run ended in the catch-all
      error. */
  lemma {:induction false} StampedAndStrandedIff(l: Ledger, raws: set<Raw>, t: Tables, turns: seq<Turn>, r: Raw)
    requires RawsOk(l, raws) && Reading(l, raws, t, turns) && r in raws
    requires r.id !in t.promoted && r.legacyId !in t.master
    ensures var u := History(l, raws, t, turns);
            && (r.id in u.promoted <==> InsertedByARun(l, raws, t, turns, r, false))
            && (r.legacyId in u.master && r.id !in u.promoted <==> InsertedByARun(l, raws, t, turns, r, true))
            && (r.id in u.promoted ==> r.legacyId in u.master)
  {
    if turns != [] {
      var n := |turns| - 1;
      ReadingPrefix(l, raws, t, turns);
      StampedAndStrandedIff(l, raws, t, turns[..n], r);
      var u, turn := History(l, raws, t, turns[..n]), turns[n];
      StampedByRunIff(l, raws, u, turn, r);
      RunGrows(l, raws, u, turn);
      OneMoreRun(l, raws, t, turns, r, false);
      OneMoreRun(l, raws, t, turns, r, true);
      hide Next, Star, Reading, Reads, RawsOk, InsertedByARun;
    }
  }

  /** A raw event whose row is in the master but which is not stamped stays so: every later run reads it,
      skips it, and leaves it unstamped; its row is never replaced. */
  lemma {:induction false} StrandedForever(l: Ledger, raws: set<Raw>, t: Tables, turns: seq<Turn>, r: Raw)
    requires RawsOk(l, raws) && Reading(l, raws, t, turns) && r in raws
    requires r.legacyId in t.master && r.id !in t.promoted
    ensures var u := History(l, raws, t, turns);
            r.id !in u.promoted && r.legacyId in u.master && u.master[r.legacyId] == t.master[r.legacyId]
  {
    if turns != [] {
      var n := |turns| - 1;
      ReadingPrefix(l, raws, t, turns);
      StrandedForever(l, raws, t, turns[..n], r);
      StampedByRunIff(l, raws, History(l, raws, t, turns[..n]), turns[n], r);
      RunGrows(l, raws, History(l, raws, t, turns[..n]), turns[n]);
    }
  }

  /** What is stamped has its master row. */
  predicate StampedHaveRows(raws: set<Raw>, t: Tables) {
    forall r <- raws :: r.id in t.promoted ==> r.legacyId in t.master
  }

  lemma {:induction false} StampedKeepRows(l: Ledger, raws: set<Raw>, t: Tables, turns: seq<Turn>)
    requires RawsOk(l, raws) && Reading(l, raws, t, turns) && StampedHaveRows(raws, t)
    ensures StampedHaveRows(raws, History(l, raws, t, turns))
  {
    if turns != [] {
      var n := |turns| - 1;
      ReadingPrefix(l, raws, t, turns);
      StampedKeepRows(l, raws, t, turns[..n]);
      var u := History(l, raws, t, turns[..n]);
      RunGrows(l, raws, u, turns[n]);
      hide Next, Star;
      forall r | r in raws && r.id in Next(l, raws, u, turns[n]).promoted ensures r.legacyId in Next(l, raws, u, turns[n]).master {
        StampedByRunIff(l, raws, u, turns[n], r);
      }
    }
  }

  /** A run that goes through completes the master, whatever the runs before it left: every raw event is then
      in it under its own legacy id, or was rejected by this run's transform, or carries a legacy id that is
      the source key of a promoted one. */
  lemma RunThatGoesThroughCompletes(l: Ledger, raws: set<Raw>, t: Tables, turns: seq<Turn>, turn: Turn, r: Raw)
    requires RawsOk(l, raws) && Reading(l, raws, t, turns) && StampedHaveRows(raws, t) && r in raws
    requires var u := History(l, raws, t, turns); Reads(raws, u, turn.rows) && !Star(l, raws, u, turn)
    ensures var u := History(l, raws, t, turns);
            r.legacyId in Next(l, raws, u, turn).master || !turn.accepts(r) || r.legacyId in PromotedKeys(raws, u)
  {
    StampedKeepRows(l, raws, t, turns);
    var u := History(l, raws, t, turns);
    RunGrows(l, raws, u, turn);
    if r.id !in u.promoted {
      ReadRowsAreMigrated(l, raws, u, turn.rows);
      hide Promote, Migrated, PlainKeys, SqlKey, JsKey, Plain;
      MigratedRowsEndUnderTheirOwnId(l, u.master, u.master.Keys + PromotedKeys(raws, u), turn.rows, turn.accepts, turn.fails, r);
    }
  }

  /** It happens: the one row of a run goes in and the update of its stamp throws. */
  lemma StrandedIsReachable(l: Ledger, r: Raw, accepts: Raw -> bool)
    requires RawsOk(l, {r}) && accepts(r)
    ensures var t, turn := Tables(map[], {}), Turn([r], accepts, true, true, false, Never);
            && Reads({r}, t, turn.rows)
            && Next(l, {r}, t, turn) == Tables(map[r.legacyId := r.id], {})
  {
    var t, turn := Tables(map[], {}), Turn([r], accepts, true, true, false, Never);
    assert Reads({r}, t, turn.rows);
    assert PromotedKeys({r}, t) == {} && t.master.Keys + {} == {};
    ReadRowsAreMigrated(l, {r}, t, turn.rows);
    NeverStops([r], LedgerTransform(l, accepts));
    hide Promote, Migrated, PlainKeys, SqlKey, JsKey, Plain, NewOrigins, Next, RawsOk, Reads;
    LoneRowGoesIn(l, r, t, turn);
    CollectedByRun(l, {r}, t, turn);
    MigratedRowsCollectExactly(l, map[], {}, [r], accepts, Never);
    LoneRun(l, r, t, turn);
  }

  lemma LoneRowGoesIn(l: Ledger, r: Raw, t: Tables, turn: Turn)
    requires RawsOk(l, {r}) && Reads({r}, t, turn.rows) && t == Tables(map[], {}) && Migrated(l, [r]) && PlainKeys(l, [r])
    requires turn == Turn([r], turn.accepts, true, true, false, Never) && turn.accepts(r)
    requires Promote(Fresh(map[], {}), [r], LedgerTransform(l, turn.accepts), Never).Going?
    ensures Next(l, {r}, t, turn).master == map[r.legacyId := r.id]
  {
    assert PromotedKeys({r}, t) == {} && t.master.Keys + {} == {};
    hide Promote, Migrated, PlainKeys, SqlKey, JsKey, Plain, Reads;
    var m := Next(l, {r}, t, turn).master;
    assert r.legacyId in m by {
      MigratedRowsEndUnderTheirOwnId(l, map[], {}, [r], turn.accepts, Never, r);
    }
    hide Next;
    forall k | k in m ensures k == r.legacyId && m[k] == r.id {
      var s := NewRowIsOwn(l, {r}, t, turn, k);
    }
  }

  /** Something was collected, so the update was needed. */
  lemma LoneRun(l: Ledger, r: Raw, t: Tables, turn: Turn)
    requires t == Tables(map[], {}) && turn.selects && turn.lookups && !turn.stamping && PromotedKeys({r}, t) == {}
    requires Next(l, {r}, t, turn).master == map[r.legacyId := r.id]
    requires var w := Promote(Fresh(map[], {}), turn.rows, LedgerTransform(l, turn.accepts), turn.fails).w;
             w.collected == NewOrigins(map[], w.master)
    ensures Star(l, {r}, t, turn)
  {
    hide Promote, NewOrigins;
    assert t.master.Keys + {} == {};
    SomethingCollected(Next(l, {r}, t, turn).master, r.legacyId);
  }

  lemma SomethingCollected(m: Master, k: string)
    requires k in m
    ensures NewOrigins(map[], m) != {}
  {
    assert m[k] in NewOrigins(map[], m);
  }
}

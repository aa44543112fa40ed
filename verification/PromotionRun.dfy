/** promoteDomain and promoteAll as the program runs them (packages/promotion/src/promote.ts). */
module PromotionRun {
  import opened Common
  import opened Promotion

  /******* Running again *******/

  /** After a run in which nothing threw, every row it read was already known, has a transform that
      throws, or has its master row. */
  predicate Accounted(known: set<string>, rows: seq<Raw>, transform: Transform, m: Master) {
    forall r <- rows :: r.legacyId in known || transform(r).None? || transform(r).value in m
  }

  /** raw_events.legacy_id is unique. */
  predicate DistinctLegacyIds(rows: seq<Raw>) {
    forall i, j :: 0 <= i < j < |rows| ==> rows[i].legacyId != rows[j].legacyId
  }

  function Pending(es: seq<Entry>): set<string> { set e | e in es :: e.legacyId }

  predicate SoFar(known: set<string>, rows: seq<Raw>, transform: Transform, w: Work) {
    && w.keys <= known + (set r | r in rows :: r.legacyId)
    && forall r <- rows :: r.legacyId in known || transform(r).None? || transform(r).value in w.master.Keys + Pending(w.buffer)
  }

  lemma FlushKeepsPending(w: Work, fails: nat -> bool)
    requires TryFlush(w, fails).Going?
    ensures w.master.Keys + Pending(w.buffer) <= TryFlush(w, fails).w.master.Keys
    ensures TryFlush(w, fails).w.keys == w.keys
  {
    forall k | k in w.master.Keys + Pending(w.buffer) ensures k in TryFlush(w, fails).w.master {
      BatchKeys(w.master, w.buffer, k);
      if k in Pending(w.buffer) {
        var e :| e in w.buffer && e.legacyId == k;
        var i :| 0 <= i < |w.buffer| && w.buffer[i] == e;
        EntryIsMapped(w.buffer, i);
      }
    }
  }

  lemma {:induction false} EntryIsMapped(es: seq<Entry>, i: nat)
    requires i < |es|
    ensures es[i].legacyId in Correlation(es)
  {
    if i < |es| - 1 {
      EntryIsMapped(es[..|es| - 1], i);
    }
  }

  lemma ConsiderSoFar(known: set<string>, rows: seq<Raw>, transform: Transform, w: Work, row: Raw)
    requires SoFar(known, rows, transform, w) && forall r <- rows :: r.legacyId != row.legacyId
    ensures SoFar(known, rows + [row], transform, Considered(w, row, transform))
  {
    var c := Considered(w, row, transform);
    assert forall r <- rows + [row] :: r in rows || r == row;
    assert forall r <- rows :: r in rows + [row];
    assert row in rows + [row];
    if c.buffer != w.buffer {
      var e := Entry(transform(row).value, row.id);
      assert c.buffer == w.buffer + [e] && e in c.buffer;
      assert Pending(c.buffer) == Pending(w.buffer) + {e.legacyId};
    }
  }

  lemma FlushSoFar(known: set<string>, rows: seq<Raw>, transform: Transform, w: Work, fails: nat -> bool)
    requires SoFar(known, rows, transform, w) && TryFlush(w, fails).Going?
    ensures SoFar(known, rows, transform, TryFlush(w, fails).w)
  {
    FlushKeepsPending(w, fails);
  }

  lemma {:induction false} LoopSoFar(master: Master, known: set<string>, rows: seq<Raw>, transform: Transform, fails: nat -> bool)
    requires DistinctLegacyIds(rows) && Loop(Fresh(master, known), rows, transform, fails).Going?
    ensures SoFar(known, rows, transform, Loop(Fresh(master, known), rows, transform, fails).w)
  {
    hide SoFar, TryFlush, Considered;
    if rows == [] {
      NothingSoFar(master, known, transform);
    } else {
      var n := |rows| - 1;
      LoopSoFar(master, known, rows[..n], transform, fails);
      NewLegacyId(rows);
      assert rows == rows[..n] + [rows[n]];
      var w := Loop(Fresh(master, known), rows[..n], transform, fails).w;
      ConsiderSoFar(known, rows[..n], transform, w, rows[n]);
      var c := Considered(w, rows[n], transform);
      if |c.buffer| >= BATCH_SIZE {
        FlushSoFar(known, rows, transform, c, fails);
      }
    }
  }

  lemma NothingSoFar(master: Master, known: set<string>, transform: Transform)
    ensures SoFar(known, [], transform, Fresh(master, known))
  {
  }

  lemma NewLegacyId(rows: seq<Raw>)
    requires DistinctLegacyIds(rows) && rows != []
    ensures forall r <- rows[..|rows| - 1] :: r.legacyId != rows[|rows| - 1].legacyId
  {
    var n := |rows| - 1;
    forall r | r in rows[..n] ensures r.legacyId != rows[n].legacyId {
      var i :| 0 <= i < n && rows[..n][i] == r;
      assert rows[i].legacyId != rows[n].legacyId;
    }
  }

  lemma CompleteRunAccounts(master: Master, known: set<string>, rows: seq<Raw>, transform: Transform, fails: nat -> bool)
    requires DistinctLegacyIds(rows) && Promote(Fresh(master, known), rows, transform, fails).Going?
    ensures Accounted(known, rows, transform, Promote(Fresh(master, known), rows, transform, fails).w.master)
  {
    LoopSoFar(master, known, rows, transform, fails);
    var w := Loop(Fresh(master, known), rows, transform, fails).w;
    FlushKeepsPending(w, fails);
  }

  /******* What a run does, said about its rows *******/

  /** The rows that a run does not know and whose transform throws. */
  function Throwing(known: set<string>, rows: seq<Raw>, transform: Transform): set<Raw> {
    set r | r in rows && r.legacyId !in known && transform(r).None?
  }

  ghost predicate Promotes(known: set<string>, rows: seq<Raw>, transform: Transform, k: string) {
    exists r :: r in rows && r.legacyId !in known && transform(r) == Some(k)
  }

  ghost predicate MeansSoFar(master: Master, known: set<string>, rows: seq<Raw>, transform: Transform, w: Work) {
    && w.failed == |Throwing(known, rows, transform)|
    && (forall k :: k in w.master.Keys + Pending(w.buffer) <==> k in master || Promotes(known, rows, transform, k))
    && known <= w.keys <= known + (set r | r in rows :: r.legacyId)
  }

  lemma FlushTakesPending(w: Work, fails: nat -> bool)
    requires TryFlush(w, fails).Going?
    ensures var w' := TryFlush(w, fails).w;
            && w'.master.Keys == w.master.Keys + Pending(w.buffer) && w'.buffer == []
            && w'.keys == w.keys && w'.failed == w.failed
  {
    FlushKeepsPending(w, fails);
    var w' := TryFlush(w, fails).w;
    forall k | k in w'.master ensures k in w.master.Keys + Pending(w.buffer) {
      BatchKeys(w.master, w.buffer, k);
      if k !in w.master {
        var i :| 0 <= i < |w.buffer| && w.buffer[i].legacyId == k;
        assert w.buffer[i] in w.buffer;
      }
    }
  }

  lemma FlushMeans(master: Master, known: set<string>, rows: seq<Raw>, transform: Transform, w: Work, fails: nat -> bool)
    requires MeansSoFar(master, known, rows, transform, w) && TryFlush(w, fails).Going?
    ensures MeansSoFar(master, known, rows, transform, TryFlush(w, fails).w)
    ensures TryFlush(w, fails).w.buffer == []
  {
    hide Promotes, Throwing, TryFlush;
    FlushTakesPending(w, fails);
    assert Pending([]) == {};
  }

  lemma ThrowingOneMore(known: set<string>, rows: seq<Raw>, transform: Transform, row: Raw)
    requires row !in rows
    ensures |Throwing(known, rows + [row], transform)| ==
            |Throwing(known, rows, transform)| + if row.legacyId !in known && transform(row).None? then 1 else 0
  {
    var before, after := Throwing(known, rows, transform), Throwing(known, rows + [row], transform);
    assert after == if row.legacyId !in known && transform(row).None? then before + {row} else before;
  }

  lemma PromotesOneMore(known: set<string>, rows: seq<Raw>, transform: Transform, row: Raw, k: string)
    ensures Promotes(known, rows + [row], transform, k) <==>
            Promotes(known, rows, transform, k) || (row.legacyId !in known && transform(row) == Some(k))
  {
    if r :| r in rows && r.legacyId !in known && transform(r) == Some(k) {
      assert r in rows + [row];
    }
    assert row in rows + [row];
  }

  lemma ConsiderMeans(master: Master, known: set<string>, rows: seq<Raw>, transform: Transform, w: Work, row: Raw)
    requires MeansSoFar(master, known, rows, transform, w) && forall r <- rows :: r.legacyId != row.legacyId
    ensures MeansSoFar(master, known, rows + [row], transform, Considered(w, row, transform))
  {
    var c := Considered(w, row, transform);
    assert row.legacyId in w.keys <==> row.legacyId in known;
    ThrowingOneMore(known, rows, transform, row);
    forall k ensures k in c.master.Keys + Pending(c.buffer) <==> k in master || Promotes(known, rows + [row], transform, k) {
      PromotesOneMore(known, rows, transform, row, k);
      if c.buffer != w.buffer {
        PendingOneMore(w.buffer, Entry(transform(row).value, row.id));
      }
    }
    assert row in rows + [row];
    assert forall r <- rows :: r in rows + [row];
  }

  lemma PendingOneMore(es: seq<Entry>, e: Entry)
    ensures Pending(es + [e]) == Pending(es) + {e.legacyId}
  {
    assert e in es + [e];
    assert forall x <- es :: x in es + [e];
  }

  lemma NothingMeans(master: Master, known: set<string>, transform: Transform)
    ensures MeansSoFar(master, known, [], transform, Fresh(master, known))
  {
    assert forall k :: !Promotes(known, [], transform, k);
  }

  lemma {:induction false} LoopMeans(master: Master, known: set<string>, rows: seq<Raw>, transform: Transform, fails: nat -> bool)
    requires DistinctLegacyIds(rows) && Loop(Fresh(master, known), rows, transform, fails).Going?
    ensures MeansSoFar(master, known, rows, transform, Loop(Fresh(master, known), rows, transform, fails).w)
  {
    hide MeansSoFar, TryFlush, Considered;
    if rows == [] {
      NothingMeans(master, known, transform);
    } else {
      var n := |rows| - 1;
      LoopMeans(master, known, rows[..n], transform, fails);
      NewLegacyId(rows);
      assert rows == rows[..n] + [rows[n]];
      var w := Loop(Fresh(master, known), rows[..n], transform, fails).w;
      ConsiderMeans(master, known, rows[..n], transform, w, rows[n]);
      var c := Considered(w, rows[n], transform);
      if |c.buffer| >= BATCH_SIZE {
        FlushMeans(master, known, rows, transform, c, fails);
      }
    }
  }

  /** A run in which nothing threw, said about its rows: it fails exactly the rows it did not know whose
      transform throws, and the master ends with exactly the ids it had and those of the other rows it did
      not know. All remaining rows, known or with an id that was taken, are skipped. */
  lemma CompleteRunMeans(master: Master, known: set<string>, rows: seq<Raw>, transform: Transform, fails: nat -> bool)
    requires DistinctLegacyIds(rows) && Promote(Fresh(master, known), rows, transform, fails).Going?
    ensures var w := Promote(Fresh(master, known), rows, transform, fails).w;
            && w.failed == |set r | r in rows && r.legacyId !in known && transform(r).None?|
            && (forall k :: k in w.master <==>
                  k in master || exists r :: r in rows && r.legacyId !in known && transform(r) == Some(k))
            && (forall k <- master :: w.master[k] == master[k])
            && w.inserted == |w.master| - |master|
            && w.skipped == |rows| - w.failed - w.inserted
  {
    LoopMeans(master, known, rows, transform, fails);
    PromoteCounts(master, known, rows, transform, fails);
    var w := Loop(Fresh(master, known), rows, transform, fails).w;
    FlushMeans(master, known, rows, transform, w, fails);
    var end := Promote(Fresh(master, known), rows, transform, fails).w;
    assert Pending(end.buffer) == {};
    hide Promote, Loop, TryFlush;
    assert Throwing(known, rows, transform) == set r | r in rows && r.legacyId !in known && transform(r).None?;
  }

  predicate Idle(m: Master, w: Work) {
    w.master == m && w.inserted == 0 && Pending(w.buffer) <= m.Keys
  }

  lemma {:induction false} OldEntriesInsertNothing(m: Master, es: seq<Entry>)
    requires Pending(es) <= m.Keys
    ensures InsertBatch(m, es) == m
  {
    if es != [] {
      var n := |es| - 1;
      assert es[n] in es && es[n].legacyId in Pending(es);
      assert forall e <- es[..n] :: e in es;
      OldEntriesInsertNothing(m, es[..n]);
    }
  }

  lemma IdleFlush(m: Master, w: Work, fails: nat -> bool)
    requires Idle(m, w)
    ensures Idle(m, TryFlush(w, fails).w)
  {
    OldEntriesInsertNothing(m, w.buffer);
  }

  /** Once only: after a run in which nothing threw, another run over any of the same rows, with at least
      the keys that were known then and those now in the master, inserts nothing. */
  lemma {:induction false} SecondRunIsIdle(known: set<string>, rows: seq<Raw>, transform: Transform, m: Master,
                                           known': set<string>, again: seq<Raw>, fails: nat -> bool)
    requires Accounted(known, rows, transform, m) && known <= known' && forall r <- again :: r in rows
    ensures Idle(m, Loop(Fresh(m, known'), again, transform, fails).w)
    ensures var w := Promote(Fresh(m, known'), again, transform, fails).w; w.master == m && w.inserted == 0
    ensures known' <= Loop(Fresh(m, known'), again, transform, fails).w.keys
  {
    if again != [] {
      var n := |again| - 1;
      SecondRunIsIdle(known, rows, transform, m, known', again[..n], fails);
      var before := Loop(Fresh(m, known'), again[..n], transform, fails);
      if before.Going? {
        var c := Considered(before.w, again[n], transform);
        assert again[n] in again;
        if c.buffer != before.w.buffer {
          var e := c.buffer[|before.w.buffer|];
          assert c.buffer == before.w.buffer + [e];
          assert Pending(c.buffer) == Pending(before.w.buffer) + {e.legacyId};
        }
        IdleFlush(m, c, fails);
      }
    }
    IdleFlush(m, Loop(Fresh(m, known'), again, transform, fails).w, fails);
  }

  /** The rows that are neither in the master nor marked as promoted fail when their transform throws, and
      the ids of the others are what the master has gained. */
  ghost predicate RowsFailedAndPromoted(master: Master, promotedKeys: set<string>, rows: seq<Raw>, transform: Transform,
                                        after: Master, failed: nat) {
    && failed == |set r | r in rows && r.legacyId !in master && r.legacyId !in promotedKeys && transform(r).None?|
    && forall k :: k in after <==>
         k in master ||
         exists r :: r in rows && r.legacyId !in master && r.legacyId !in promotedKeys && transform(r) == Some(k)
  }

  lemma CompleteDomainMeans(master: Master, promotedKeys: set<string>, rows: seq<Raw>, transform: Transform,
                            fails: nat -> bool, w: Work)
    requires DistinctLegacyIds(rows)
    requires Promote(Fresh(master, master.Keys + promotedKeys), rows, transform, fails) == Going(w)
    ensures RowsFailedAndPromoted(master, promotedKeys, rows, transform, w.master, w.failed)
  {
    CompleteRunMeans(master, master.Keys + promotedKeys, rows, transform, fails);
    hide Promote;
    assert (set r | r in rows && r.legacyId !in master.Keys + promotedKeys && transform(r).None?) ==
           set r | r in rows && r.legacyId !in master && r.legacyId !in promotedKeys && transform(r).None?;
  }

  /******* The program *******/

  function Returned(m: Master, es: seq<Entry>): set<string> {
    InsertBatch(m, es).Keys - m.Keys
  }

  /** One master table and the promoted marks of its raw events, changed in place. */
  class Database {
    var master: Master
    var promoted: set<nat>

    constructor ()
      ensures master == map[] && promoted == {}
    {
      master, promoted := map[], {};
    }

    /** insertMasterBatch: the legacy ids of the rows that RETURNING yields. */
    method InsertMasterBatch(rows: seq<Entry>) returns (inserted: set<string>)
      modifies this`master
      ensures master == InsertBatch(old(master), rows)
      ensures inserted == Returned(old(master), rows)
    {
      inserted := Returned(master, rows);
      master := InsertBatch(master, rows);
    }
  }

  /** The master table of a domain and the promoted marks of its raw events. */
  datatype Tables = Tables(master: Master, promoted: set<nat>)

  /** What a call of promoteDomain meets: `rows` is what the select returns, in any order; `selects`, `lookups`
      and `stamping` say whether the select, the statements of loadExistingNaturalKeys and the update go
      through, and the n-th batch insert throws when `fails(n)`. */
  datatype Attempt = Attempt(
    rows: seq<Raw>, transform: Transform, selects: bool, lookups: bool, stamping: bool, fails: nat -> bool)

  function Worked(t: Tables, promotedKeys: set<string>, a: Attempt): Progress {
    Promote(Fresh(t.master, t.master.Keys + promotedKeys), a.rows, a.transform, a.fails)
  }

  /** The run ends with the catch-all error. */
  predicate EndsInStar(t: Tables, promotedKeys: set<string>, a: Attempt) {
    !a.selects || !a.lookups || Worked(t, promotedKeys, a).Star? ||
    (Worked(t, promotedKeys, a).w.collected != {} && !a.stamping)
  }

  /** The tables after the run: its inserts stay, its stamps are made by one update at the end. */
  function After(t: Tables, promotedKeys: set<string>, a: Attempt): Tables {
    if !a.selects || !a.lookups then t
    else
      var w := Worked(t, promotedKeys, a).w;
      Tables(w.master, if EndsInStar(t, promotedKeys, a) then t.promoted else t.promoted + w.collected)
  }

  class DomainPromotion {
    const db: Database
    const transform: Transform
    var attempted: nat
    var inserted: nat
    var skipped: nat
    var failed: nat
    var existingKeys: set<string>
    var buffer: seq<Entry>
    var insertedRawEventIds: set<nat>
    ghost var flushes: seq<Flush>

    constructor (db: Database, transform: Transform)
      ensures this.db == db && this.transform == transform && attempted == 0
      ensures Now() == Fresh(db.master, {})
    {
      this.db, this.transform := db, transform;
      attempted, inserted, skipped, failed := 0, 0, 0, 0;
      existingKeys, buffer, insertedRawEventIds, flushes := {}, [], {}, [];
    }

    ghost function Now(): Work
      reads this, db`master
    {
      Work(db.master, existingKeys, buffer, inserted, skipped, failed, insertedRawEventIds, flushes)
    }

    method BuildCorrelation() returns (m: Master)
      ensures m == Correlation(buffer)
    {
      m := map[];
      for i := 0 to |buffer|
        invariant m == Correlation(buffer[..i])
      {
        assert buffer[..i + 1][..i] == buffer[..i];
        m := m[buffer[i].legacyId := buffer[i].rawEventId];
      }
      assert buffer[..|buffer|] == buffer;
    }

    /** The loop over the returned rows. */
    method Correlate(returned: set<string>, legacyIdToRawEventId: Master)
      modifies this`insertedRawEventIds
      ensures insertedRawEventIds == old(insertedRawEventIds) + Named(returned, legacyIdToRawEventId)
    {
      var left := returned;
      while left != {}
        invariant left <= returned
        invariant insertedRawEventIds == old(insertedRawEventIds) + Named(returned - left, legacyIdToRawEventId)
        decreases left
      {
        var k :| k in left;
        ghost var done := returned - left;
        left := left - {k};
        assert returned - left == done + {k};
        if k in legacyIdToRawEventId {
          insertedRawEventIds := insertedRawEventIds + {legacyIdToRawEventId[k]};
        }
      }
      assert returned - left == returned;
    }

    /** flush; false when the insert threw. */
    method Flush(fails: bool) returns (ok: bool)
      modifies this, db`master
      ensures attempted == old(attempted)
      ensures ok <==> old(buffer) == [] || !fails
      ensures Now() == if ok then Flushed(old(Now())) else old(Now())
    {
      hide Flushed, Correlation;
      if |buffer| == 0 {
        NothingFlushed(Now());
        return true;
      }
      var legacyIdToRawEventId := BuildCorrelation();
      if fails {
        return false;
      }
      Inserted(legacyIdToRawEventId);
      return true;
    }

    /** The insert goes through; its rows are counted and correlated. */
    method Inserted(legacyIdToRawEventId: Master)
      requires buffer != [] && legacyIdToRawEventId == Correlation(buffer)
      modifies this, db`master
      ensures attempted == old(attempted) && Now() == Flushed(old(Now()))
    {
      hide InsertBatch, Collected, Correlation, Named, Flushed, Returned;
      ghost var w := Now();
      var returned := db.InsertMasterBatch(buffer);
      ReturnedRows(w.master, w.buffer);
      FlushedParts(w, |returned|);
      inserted := inserted + |returned|;
      skipped := skipped + (|buffer| - |returned|);
      Correlate(returned, legacyIdToRawEventId);
      flushes := flushes + [Promotion.Flush.Flush(w.master, w.buffer)];
      buffer := [];
    }

    /** One row of the loop. */
    method Consider(row: Raw)
      modifies this
      ensures attempted == old(attempted) && Now() == Considered(old(Now()), row, transform)
    {
      if row.legacyId in existingKeys {
        skipped := skipped + 1;
        return;
      }
      match transform(row) {
        case None =>
          failed := failed + 1;
        case Some(id) =>
          buffer := buffer + [Entry(id, row.id)];
          existingKeys := existingKeys + {row.legacyId};
      }
    }

    /** The loop and the last flush; false when a batch threw. */
    method PromoteRows(rows: seq<Raw>, fails: nat -> bool) returns (ok: bool)
      requires flushes == [] && buffer == []
      modifies this, db`master
      ensures attempted == old(attempted)
      ensures var p := Promote(old(Now()), rows, transform, fails); Now() == p.w && (ok <==> p.Going?)
    {
      var count := 0;
      for i := 0 to |rows|
        invariant attempted == old(attempted) && count == |flushes|
        invariant Loop(old(Now()), rows[..i], transform, fails) == Going(Now())
      {
        assert rows[..i + 1][..i] == rows[..i];
        Consider(rows[i]);
        if |buffer| >= BATCH_SIZE {
          ok := Flush(fails(count));
          if !ok {
            StarStays(old(Now()), rows, i + 1, transform, fails);
            return false;
          }
          count := count + 1;
        }
      }
      assert rows[..|rows|] == rows;
      ok := Flush(fails(count));
    }

    /** promoteDomain for ctacte and ctacte1; `promotedKeys` are the source keys of rows already promoted. */
    method PromoteDomain(rows: seq<Raw>, promotedKeys: set<string>, selects: bool, lookups: bool, stamping: bool,
                         fails: nat -> bool)
      returns (r: Result)
      requires attempted == 0 && Now() == Fresh(db.master, {})
      modifies this, db
      ensures Kept(old(db.master), db.master) && r.inserted == |db.master| - |old(db.master)|
      ensures r.inserted + r.skipped + r.failed <= r.attempted
      ensures !r.star ==> r.attempted == |rows| == r.inserted + r.skipped + r.failed
      ensures var w := Promote(Fresh(old(db.master), old(db.master).Keys + promotedKeys), rows, transform, fails).w;
              && (selects && lookups ==> db.master == w.master)
              && (!(selects && lookups) ==> db.master == old(db.master) && r.star)
              && (!r.star ==> db.promoted == old(db.promoted) + w.collected)
              && (r.star ==> db.promoted == old(db.promoted))
      ensures var t, a := Tables(old(db.master), old(db.promoted)), Attempt(rows, transform, selects, lookups, stamping, fails);
              Tables(db.master, db.promoted) == After(t, promotedKeys, a) && (r.star <==> EndsInStar(t, promotedKeys, a))
      ensures !r.star && DistinctLegacyIds(rows) ==>
                RowsFailedAndPromoted(old(db.master), promotedKeys, rows, transform, db.master, r.failed)
      ensures r.star ==> !FullyFailed(r)
      ensures r.attempted == if selects then |rows| else 0
    {
      hide Promote, RowsFailedAndPromoted;
      if !selects {
        return Result(0, 0, 0, 0, true);
      }
      attempted := |rows|;
      if !lookups {
        return Result(attempted, 0, 0, 0, true);
      }
      existingKeys := db.master.Keys + promotedKeys;
      ghost var start := Now();
      PromoteCounts(db.master, existingKeys, rows, transform, fails);
      var ok := PromoteRows(rows, fails);
      if ok && DistinctLegacyIds(rows) {
        CompleteDomainMeans(start.master, promotedKeys, rows, transform, fails, Now());
      }
      if !ok {
        return Result(attempted, inserted, skipped, failed, true);
      }
      if insertedRawEventIds != {} {
        CollectedMeansInserted(start, rows, transform, fails);
        assert inserted > 0;
        if !stamping {
          return Result(attempted, inserted, skipped, failed, true);
        }
        db.promoted := db.promoted + insertedRawEventIds;
      }
      return Result(attempted, inserted, skipped, failed, false);
    }
  }

  lemma NothingFlushed(w: Work)
    requires w.buffer == []
    ensures Flushed(w) == w
  {
  }

  lemma FlushedParts(w: Work, n: nat)
    requires w.buffer != [] && n == |InsertBatch(w.master, w.buffer)| - |w.master| <= |w.buffer|
    ensures Flushed(w) ==
            Work(InsertBatch(w.master, w.buffer), w.keys, [], w.inserted + n, w.skipped + (|w.buffer| - n), w.failed,
                 w.collected + Collected(w.master, w.buffer), w.flushes + [Promotion.Flush.Flush(w.master, w.buffer)])
  {
  }

  /** The raw events that the map names for the returned legacy ids. */
  function Named(returned: set<string>, m: Master): set<nat> {
    set k | k in returned && k in m :: m[k]
  }

  lemma ReturnedRows(m: Master, es: seq<Entry>)
    ensures |Returned(m, es)| == |InsertBatch(m, es)| - |m| <= |es|
    ensures Named(Returned(m, es), Correlation(es)) == Collected(m, es)
  {
    BatchGrows(m, es);
    BatchKeeps(m, es);
    assert InsertBatch(m, es).Keys == m.Keys + Returned(m, es);
    forall k ensures k in Returned(m, es) && k in Correlation(es) <==> k in Correlation(es) && k !in m {
      BatchKeys(m, es, k);
    }
  }

  lemma {:induction false} StarStays(start: Work, rows: seq<Raw>, n: nat, transform: Transform, fails: nat -> bool)
    requires n <= |rows| && Loop(start, rows[..n], transform, fails).Star?
    ensures Loop(start, rows, transform, fails) == Loop(start, rows[..n], transform, fails)
    decreases |rows|
  {
    if n < |rows| {
      assert rows[..|rows| - 1][..n] == rows[..n];
      StarStays(start, rows[..|rows| - 1], n, transform, fails);
    } else {
      assert rows[..n] == rows;
    }
  }

  /** Something is collected iff something was inserted. */
  predicate CollectedIffInserted(w: Work) { w.collected != {} <==> w.inserted > 0 }

  lemma BatchCollectsIffItGrows(m: Master, es: seq<Entry>)
    ensures Collected(m, es) != {} <==> |InsertBatch(m, es)| > |m|
  {
    var m' := InsertBatch(m, es);
    BatchGrows(m, es);
    BatchKeeps(m, es);
    assert m'.Keys == m.Keys + (m'.Keys - m.Keys);
    if x :| x in Collected(m, es) {
      var k :| k in Correlation(es) && k !in m && Correlation(es)[k] == x;
      BatchKeys(m, es, k);
      assert k in m'.Keys - m.Keys;
    }
    if k :| k in m'.Keys - m.Keys {
      BatchKeys(m, es, k);
      assert Correlation(es)[k] in Collected(m, es);
    }
  }

  lemma FlushCollectsInsertions(w: Work, fails: nat -> bool)
    requires CollectedIffInserted(w)
    ensures CollectedIffInserted(TryFlush(w, fails).w)
  {
    BatchCollectsIffItGrows(w.master, w.buffer);
    BatchGrows(w.master, w.buffer);
  }

  lemma {:induction false} CollectedMeansInserted(start: Work, rows: seq<Raw>, transform: Transform, fails: nat -> bool)
    requires CollectedIffInserted(start)
    ensures CollectedIffInserted(Loop(start, rows, transform, fails).w)
    ensures CollectedIffInserted(Promote(start, rows, transform, fails).w)
  {
    if rows != [] {
      var n := |rows| - 1;
      CollectedMeansInserted(start, rows[..n], transform, fails);
      var before := Loop(start, rows[..n], transform, fails);
      FlushCollectsInsertions(Considered(before.w, rows[n], transform), fails);
    }
    FlushCollectsInsertions(Loop(start, rows, transform, fails).w, fails);
  }

  /** Only a batch that throws leaves the loop. */
  lemma {:induction false} OnlyFailuresStop(start: Work, rows: seq<Raw>, transform: Transform, fails: nat -> bool)
    requires forall n :: !fails(n)
    ensures Loop(start, rows, transform, fails).Going? && Promote(start, rows, transform, fails).Going?
  {
    if rows != [] {
      OnlyFailuresStop(start, rows[..|rows| - 1], transform, fails);
    }
  }

  /** When a run ends with the catch-all error, and what that leaves: always when it cannot select or look up,
      and then it has done nothing; otherwise, if no batch insert throws, iff the final update throws and
      there was something to stamp, that is, the run inserted something. Its inserts stay, and its marks are
      made iff it does not end so. */
  lemma EndsInStarIff(t: Tables, promotedKeys: set<string>, a: Attempt)
    ensures !a.selects || !a.lookups ==> EndsInStar(t, promotedKeys, a) && After(t, promotedKeys, a) == t
    ensures a.selects && a.lookups && (forall n :: !a.fails(n)) ==>
              (EndsInStar(t, promotedKeys, a) <==> !a.stamping && After(t, promotedKeys, a).master != t.master)
    ensures EndsInStar(t, promotedKeys, a) ==> After(t, promotedKeys, a).promoted == t.promoted
    ensures !EndsInStar(t, promotedKeys, a) ==>
              (After(t, promotedKeys, a).master == t.master ==> After(t, promotedKeys, a) == t)
  {
    hide Promote;
    var start := Fresh(t.master, t.master.Keys + promotedKeys);
    CollectedMeansInserted(start, a.rows, a.transform, a.fails);
    PromoteCounts(t.master, t.master.Keys + promotedKeys, a.rows, a.transform, a.fails);
    var w := Promote(start, a.rows, a.transform, a.fails).w;
    if a.selects && a.lookups {
      GrownIffMoved(t.master, w.master);
      if forall n :: !a.fails(n) {
        OnlyFailuresStop(start, a.rows, a.transform, a.fails);
      }
    }
  }

  lemma GrownIffMoved(m: Master, m': Master)
    requires Kept(m, m')
    ensures |m'| > |m| <==> m' != m
  {
    assert m'.Keys == m.Keys + (m'.Keys - m.Keys);
    if m' != m {
      assert exists k :: k in m'.Keys - m.Keys;
    }
  }

  /******* All domains *******/

  datatype Domain = Socios | Escuela | Deportes | Locacion | Caja | Gastos | Ctacte | Ctacte1

  const PROMOTION_ORDER: seq<Domain> := [Socios, Escuela, Deportes, Locacion, Caja, Gastos, Ctacte, Ctacte1]

  predicate Blocks(d: Domain) { d.Socios? || d.Ctacte? }

  /** Attempted and failed entirely. A run that ended with the catch-all error never is. */
  predicate FullyFailed(r: Result) { r.inserted == 0 && r.failed > 0 && r.failed == r.attempted }

  datatype Promoted = Ran(domain: Domain, result: Result) | SkippedBecauseOf(domain: Domain, upstream: Domain)

  /** The place of the first fully failed blocking domain, or the end. */
  function StopsAt(outcome: Domain -> Result, i: nat): (n: nat)
    requires i <= |PROMOTION_ORDER|
    ensures i <= n <= |PROMOTION_ORDER|
    ensures forall k :: i <= k < n ==> !(Blocks(PROMOTION_ORDER[k]) && FullyFailed(outcome(PROMOTION_ORDER[k])))
    ensures n < |PROMOTION_ORDER| ==> Blocks(PROMOTION_ORDER[n]) && FullyFailed(outcome(PROMOTION_ORDER[n]))
    decreases |PROMOTION_ORDER| - i
  {
    if i == |PROMOTION_ORDER| || (Blocks(PROMOTION_ORDER[i]) && FullyFailed(outcome(PROMOTION_ORDER[i]))) then i
    else StopsAt(outcome, i + 1)
  }

  function RanUpTo(outcome: Domain -> Result, n: nat): seq<Promoted>
    requires n <= |PROMOTION_ORDER|
  {
    if n == 0 then [] else RanUpTo(outcome, n - 1) + [Ran(PROMOTION_ORDER[n - 1], outcome(PROMOTION_ORDER[n - 1]))]
  }

  function SkippedFrom(n: nat, upstream: Domain): seq<Promoted>
    requires n <= |PROMOTION_ORDER|
    decreases |PROMOTION_ORDER| - n
  {
    if n == |PROMOTION_ORDER| then []
    else [SkippedBecauseOf(PROMOTION_ORDER[n], upstream)] + SkippedFrom(n + 1, upstream)
  }

  function AllResults(outcome: Domain -> Result): seq<Promoted> {
    var n := StopsAt(outcome, 0);
    if n == |PROMOTION_ORDER| then RanUpTo(outcome, n)
    else RanUpTo(outcome, n + 1) + SkippedFrom(n + 1, PROMOTION_ORDER[n])
  }

  lemma RanStep(outcome: Domain -> Result)
    ensures RanUpTo(outcome, 0) == []
    ensures forall n :: 0 < n <= |PROMOTION_ORDER| ==>
              RanUpTo(outcome, n) == RanUpTo(outcome, n - 1) + [Ran(PROMOTION_ORDER[n - 1], outcome(PROMOTION_ORDER[n - 1]))]
  {
    hide PROMOTION_ORDER;
  }

  lemma {:induction false} RanUpToAt(outcome: Domain -> Result, n: nat, i: nat)
    requires n <= |PROMOTION_ORDER|
    ensures |RanUpTo(outcome, n)| == n
    ensures i < n ==> RanUpTo(outcome, n)[i] == Ran(PROMOTION_ORDER[i], outcome(PROMOTION_ORDER[i]))
  {
    hide PROMOTION_ORDER;
    if n > 0 {
      RanUpToAt(outcome, n - 1, i);
    }
  }

  lemma {:induction false} SkippedFromAt(n: nat, upstream: Domain, i: nat)
    requires n <= |PROMOTION_ORDER|
    ensures |SkippedFrom(n, upstream)| == |PROMOTION_ORDER| - n
    ensures n <= i < |PROMOTION_ORDER| ==> SkippedFrom(n, upstream)[i - n] == SkippedBecauseOf(PROMOTION_ORDER[i], upstream)
    decreases |PROMOTION_ORDER| - n
  {
    hide PROMOTION_ORDER;
    if n < |PROMOTION_ORDER| {
      SkippedFromAt(n + 1, upstream, i);
    }
  }

  /** One result per domain, in order: the domains up to the first fully failed blocking one were
      promoted, and every later one says that it was skipped because of that one. */
  lemma OneResultPerDomain(outcome: Domain -> Result, i: nat)
    requires i < |PROMOTION_ORDER|
    ensures |AllResults(outcome)| == |PROMOTION_ORDER|
    ensures var n := StopsAt(outcome, 0);
            AllResults(outcome)[i] ==
              if i <= n then Ran(PROMOTION_ORDER[i], outcome(PROMOTION_ORDER[i]))
              else SkippedBecauseOf(PROMOTION_ORDER[i], PROMOTION_ORDER[n])
  {
    hide PROMOTION_ORDER, RanUpTo, SkippedFrom;
    var n := StopsAt(outcome, 0);
    RanUpToAt(outcome, if n == |PROMOTION_ORDER| then n else n + 1, i);
    if n < |PROMOTION_ORDER| {
      SkippedFromAt(n + 1, PROMOTION_ORDER[n], i);
    }
  }

  /** The same, domain by domain: a wholly failed Socios skips all others, a wholly failed Ctacte skips
      Ctacte1, and no other result skips anything. A result with the catch-all error, or of no rows, or with
      one row inserted or skipped, is not wholly failed. */
  lemma OnlySociosAndCtacteBlock(outcome: Domain -> Result, i: nat)
    requires i < 8
    ensures |AllResults(outcome)| == 8
    ensures var domain := [Socios, Escuela, Deportes, Locacion, Caja, Gastos, Ctacte, Ctacte1][i];
            var s, c := outcome(Socios), outcome(Ctacte);
            AllResults(outcome)[i] ==
              if i > 0 && s.inserted == 0 && s.failed > 0 && s.failed == s.attempted then SkippedBecauseOf(domain, Socios)
              else if i == 7 && c.inserted == 0 && c.failed > 0 && c.failed == c.attempted then SkippedBecauseOf(domain, Ctacte)
              else Ran(domain, outcome(domain))
  {
    OneResultPerDomain(outcome, i);
    var n := StopsAt(outcome, 0);
    hide AllResults, StopsAt;
    assert PROMOTION_ORDER[0] == Socios && PROMOTION_ORDER[6] == Ctacte;
  }

  class Promoter {
    /** The domains whose promoteDomain was called, in order. */
    var called: seq<Domain>

    constructor ()
      ensures called == []
    {
      called := [];
    }

    method CallPromoteDomain(d: Domain, outcome: Domain -> Result) returns (r: Result)
      modifies this
      ensures called == old(called) + [d] && r == outcome(d)
    {
      called := called + [d];
      r := outcome(d);
    }

    method SkipDownstream(done: seq<Promoted>, upstream: Domain) returns (results: seq<Promoted>)
      requires |done| <= |PROMOTION_ORDER|
      ensures results == done + SkippedFrom(|done|, upstream)
    {
      hide PROMOTION_ORDER;
      results := done;
      for j := |done| to |PROMOTION_ORDER|
        invariant results + SkippedFrom(j, upstream) == done + SkippedFrom(|done|, upstream)
      {
        assert results + [SkippedBecauseOf(PROMOTION_ORDER[j], upstream)] + SkippedFrom(j + 1, upstream) ==
               results + SkippedFrom(j, upstream);
        results := results + [SkippedBecauseOf(PROMOTION_ORDER[j], upstream)];
      }
    }

    /** promoteAll: the results of OneResultPerDomain, and nothing after a fully failed blocking domain
        is touched. */
    method PromoteAll(outcome: Domain -> Result) returns (results: seq<Promoted>)
      requires called == []
      modifies this
      ensures results == AllResults(outcome)
      ensures var n := StopsAt(outcome, 0); called == PROMOTION_ORDER[..if n < |PROMOTION_ORDER| then n + 1 else n]
    {
      hide PROMOTION_ORDER, RanUpTo, SkippedFrom, StopsAt, Blocks, FullyFailed;
      RanStep(outcome);
      results := [];
      ghost var n := StopsAt(outcome, 0);
      for i := 0 to |PROMOTION_ORDER|
        invariant i <= n && called == PROMOTION_ORDER[..i] && results == RanUpTo(outcome, i) && |results| == i
      {
        var domain := PROMOTION_ORDER[i];
        var r := CallPromoteDomain(domain, outcome);
        results := results + [Ran(domain, r)];
        assert PROMOTION_ORDER[..i + 1] == PROMOTION_ORDER[..i] + [domain];
        if Blocks(domain) && FullyFailed(r) {
          results := SkipDownstream(results, domain);
          return;
        }
      }
    }
  }
}

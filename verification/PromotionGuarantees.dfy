/** What a run of promotion guarantees for ctacte and ctacte1 as they are: raw_events.legacy_id was filled
  by migration 0018 from the payload, and the transform hashes the same columns of that payload again
  (packages/promotion/src/promote.ts, packages/promotion/src/transforms, packages/db/drizzle/0018).
 */
module PromotionGuarantees {
  import opened Common
  import opened Promotion
  import opened PromotionKeys
  import opened PromotionRun
  import Saldo

  /** The transform of a ledger: it throws where a foreign key or a date is missing (`accepts`). */
  function LedgerTransform(l: Ledger, accepts: Raw -> bool): Transform {
    (r: Raw) => if accepts(r) then Some(JsKey(l, r.payload)) else None
  }

  /** Migration 0018 ran over these rows; the unique index keeps their ids apart. */
  predicate Migrated(l: Ledger, rows: seq<Raw>) {
    && (forall r <- rows :: r.legacyId == SqlKey(l, r.payload))
    && DistinctLegacyIds(rows) && DistinctIds(rows)
  }

  predicate PlainKeys(l: Ledger, rows: seq<Raw>) { forall r <- rows :: Plain(l, r.payload) }

  /** The transform gives a row the legacy id that its raw event has. */
  lemma TransformKeepsLegacyId(l: Ledger, rows: seq<Raw>, accepts: Raw -> bool, r: Raw)
    requires Migrated(l, rows) && PlainKeys(l, rows) && r in rows
    ensures LedgerTransform(l, accepts)(r) == if accepts(r) then Some(r.legacyId) else None
  {
    LegacyIdsAgreeIff(l, r.payload);
  }

  lemma SameLegacyIdSameRow(rows: seq<Raw>, r: Raw, s: Raw)
    requires DistinctLegacyIds(rows) && r in rows && s in rows && r.legacyId == s.legacyId
    ensures r == s
  {
    var i :| 0 <= i < |rows| && rows[i] == r;
    var j :| 0 <= j < |rows| && rows[j] == s;
    assert i == j;
  }

  /** Whatever the tables held and whichever batch inserts threw, the raw events collected so far are exactly
      those whose master row this run inserted. When they are stamped is in PromotionHistory. */
  lemma MigratedRowsCollectExactly(l: Ledger, master: Master, known: set<string>, rows: seq<Raw>,
                                 accepts: Raw -> bool, fails: nat -> bool)
    requires Migrated(l, rows) && PlainKeys(l, rows)
    ensures var w := Promote(Fresh(master, known), rows, LedgerTransform(l, accepts), fails).w;
            w.collected == NewOrigins(master, w.master)
  {
    hide Plain, JsKey, SqlKey, DistinctLegacyIds;
    var transform := LedgerTransform(l, accepts);
    forall r, s | r in rows && s in rows && transform(r).Some? && transform(r) == transform(s) ensures r.id == s.id {
      TransformKeepsLegacyId(l, rows, accepts, r);
      TransformKeepsLegacyId(l, rows, accepts, s);
      SameLegacyIdSameRow(rows, r, s);
    }
    InjectiveTransformCollectsExactly(master, known, rows, transform, fails);
  }

  /** When nothing threw, every row read was already known, was rejected by the transform, or is in the
      master under its own legacy id: a row that was neither known nor there ends there iff the transform
      accepts it, and the failed ones are exactly those it does not know and does not accept. */
  lemma MigratedRowsEndUnderTheirOwnId(l: Ledger, master: Master, known: set<string>, rows: seq<Raw>,
                                       accepts: Raw -> bool, fails: nat -> bool, r: Raw)
    requires Migrated(l, rows) && PlainKeys(l, rows) && r in rows
    requires Promote(Fresh(master, known), rows, LedgerTransform(l, accepts), fails).Going?
    ensures var w := Promote(Fresh(master, known), rows, LedgerTransform(l, accepts), fails).w;
            && (r.legacyId in known || !accepts(r) || r.legacyId in w.master)
            && (r.legacyId !in known && r.legacyId !in master ==> (r.legacyId in w.master <==> accepts(r)))
            && w.failed == |set x | x in rows && x.legacyId !in known && !accepts(x)|
  {
    hide Plain, JsKey, SqlKey, DistinctLegacyIds, Promote;
    var transform := LedgerTransform(l, accepts);
    CompleteRunMeans(master, known, rows, transform, fails);
    TransformKeepsLegacyId(l, rows, accepts, r);
    forall x | x in rows ensures transform(x) == if accepts(x) then Some(x.legacyId) else None {
      TransformKeepsLegacyId(l, rows, accepts, x);
    }
    assert (set x | x in rows && x.legacyId !in known && transform(x).None?) ==
           set x | x in rows && x.legacyId !in known && !accepts(x);
    forall x | x in rows && x.legacyId == r.legacyId ensures x == r {
      SameLegacyIdSameRow(rows, x, r);
    }
  }

  /** A master row that the run added came from the raw event with the same legacy id. */
  lemma NewRowsCameFromTheirRawEvent(l: Ledger, master: Master, known: set<string>, rows: seq<Raw>,
                                     accepts: Raw -> bool, fails: nat -> bool, k: string)
    requires Migrated(l, rows) && PlainKeys(l, rows)
    requires var w := Promote(Fresh(master, known), rows, LedgerTransform(l, accepts), fails).w;
             k in w.master && k !in master
    ensures var w := Promote(Fresh(master, known), rows, LedgerTransform(l, accepts), fails).w;
            exists r :: r in rows && r.legacyId == k && r.id == w.master[k]
  {
    hide Plain, JsKey, SqlKey, DistinctLegacyIds, Promote;
    MasterRowsAreTaken(master, known, rows, LedgerTransform(l, accepts), fails, k);
    var w := Promote(Fresh(master, known), rows, LedgerTransform(l, accepts), fails).w;
    var r :| r in rows && r.id == w.master[k] && LedgerTransform(l, accepts)(r) == Some(k);
    TransformKeepsLegacyId(l, rows, accepts, r);
  }

  /** Every row of the master beyond the first table came from a row that the transform gave that id. */
  predicate MasterTaken(start: Master, rows: seq<Raw>, transform: Transform, w: Work) {
    && AllTaken(rows, transform, w)
    && forall k :: k in w.master && k !in start ==> TakenFrom(Entry(k, w.master[k]), rows, transform)
  }

  lemma FlushTakes(start: Master, rows: seq<Raw>, transform: Transform, w: Work, fails: nat -> bool)
    requires MasterTaken(start, rows, transform, w)
    ensures MasterTaken(start, rows, transform, TryFlush(w, fails).w)
  {
    hide TakenFrom;
    if w.buffer != [] {
      var m := InsertBatch(w.master, w.buffer);
      forall k | k in m && k !in start ensures TakenFrom(Entry(k, m[k]), rows, transform) {
        BatchKeys(w.master, w.buffer, k);
        if k !in w.master {
          var i :| 0 <= i < |w.buffer| && w.buffer[i].legacyId == k && w.buffer[i].rawEventId == m[k];
          assert w.buffer[i] == Entry(k, m[k]) && w.buffer[i] in w.buffer;
        }
      }
    }
  }

  lemma ConsiderTakes(start: Master, rows: seq<Raw>, row: Raw, transform: Transform, w: Work)
    requires MasterTaken(start, rows, transform, w)
    ensures MasterTaken(start, rows + [row], transform, w)
    ensures MasterTaken(start, rows + [row], transform, Considered(w, row, transform))
  {
    assert (rows + [row])[..|rows|] == rows && (rows + [row])[|rows|] == row;
    TakenFromMore(rows + [row], transform, w);
    forall e | TakenFrom(e, rows, transform) ensures TakenFrom(e, rows + [row], transform) {
      var r :| r in rows && r.id == e.rawEventId && transform(r) == Some(e.legacyId);
      assert r in rows + [row];
    }
  }

  lemma {:induction false} LoopMasterTaken(start: Work, rows: seq<Raw>, transform: Transform, fails: nat -> bool)
    requires start.buffer == [] && start.flushes == []
    ensures MasterTaken(start.master, rows, transform, Loop(start, rows, transform, fails).w)
  {
    hide MasterTaken, Considered, TryFlush;
    if rows == [] {
      NothingTaken(start, transform);
    } else {
      var n := |rows| - 1;
      LoopMasterTaken(start, rows[..n], transform, fails);
      assert rows == rows[..n] + [rows[n]];
      var before := Loop(start, rows[..n], transform, fails);
      ConsiderTakes(start.master, rows[..n], rows[n], transform, before.w);
      FlushTakes(start.master, rows, transform, Considered(before.w, rows[n], transform), fails);
    }
  }

  lemma NothingTaken(start: Work, transform: Transform)
    requires start.buffer == [] && start.flushes == []
    ensures MasterTaken(start.master, [], transform, start)
  {
  }

  lemma MasterRowsAreTaken(master: Master, known: set<string>, rows: seq<Raw>, transform: Transform, fails: nat -> bool,
                           k: string)
    requires var w := Promote(Fresh(master, known), rows, transform, fails).w; k in w.master && k !in master
    ensures var w := Promote(Fresh(master, known), rows, transform, fails).w;
            TakenFrom(Entry(k, w.master[k]), rows, transform)
  {
    LoopMasterTaken(Fresh(master, known), rows, transform, fails);
    FlushTakes(master, rows, transform, Loop(Fresh(master, known), rows, transform, fails).w, fails);
  }

  /******* Outside the plain range *******/

  /** Two records of one account and day: one holds its voucher number as a text, the other as a number with
      seven decimals. One file has one type per column, so that such a pair comes from two imports between
      which the column changed from character to numeric. */
  function TextPayload(): Payload {
    map[CCTCUENTA := Text("1"), CCTFECHA := Text("20240105"), CCTNROCOMP := Text("1e-7")]
  }

  /** 0.0000001 */
  function NumberPayload(): Payload {
    map[CCTCUENTA := Text("1"), CCTFECHA := Text("20240105"), CCTNROCOMP := Number(false, "1", -6)]
  }

  function TextRow(): Raw { Raw(1, "1", SqlKey(MainLedger, TextPayload()), TextPayload()) }

  function NumberRow(): Raw { Raw(2, "1", SqlKey(MainLedger, NumberPayload()), NumberPayload()) }

  lemma {:induction false} SameTexts(cs: seq<Column>, a: Payload, b: Payload)
    requires forall c <- cs :: JsText(Field(a, c)) == JsText(Field(b, c))
    ensures JsTexts(cs, a) == JsTexts(cs, b)
  {
    if cs != [] {
      assert forall c <- cs[1..] :: c in cs;
      SameTexts(cs[1..], a, b);
    }
  }

  lemma PrintedSmall()
    ensures JsText(Number(false, "1", -6)) == "1e-7"
  {
    assert Saldo.Decimal(7) == "7";
  }

  lemma TwinFields(c: Column)
    ensures JsText(Field(TextPayload(), c)) == JsText(Field(NumberPayload(), c))
    ensures Scalar(Field(TextPayload(), c)) && !Exponent(Field(TextPayload(), c)) && Scalar(Field(NumberPayload(), c))
  {
    PrintedSmall();
    hide JsDigits, Plainly;
  }

  lemma ExponentKeys()
    ensures JsKey(MainLedger, TextPayload()) == JsKey(MainLedger, NumberPayload())
    ensures SqlKey(MainLedger, TextPayload()) != SqlKey(MainLedger, NumberPayload())
  {
    assert CCTNROCOMP in KeyColumns(MainLedger) && Exponent(Field(NumberPayload(), CCTNROCOMP));
    hide TextPayload, NumberPayload, JsText, Scalar, Exponent, Join, SqlKey;
    forall c ensures JsText(Field(TextPayload(), c)) == JsText(Field(NumberPayload(), c)) {
      TwinFields(c);
    }
    SameTexts(KeyColumns(MainLedger), TextPayload(), NumberPayload());
    hide KeyColumns;
    forall c ensures Scalar(Field(TextPayload(), c)) && !Exponent(Field(TextPayload(), c)) && Scalar(Field(NumberPayload(), c)) {
      TwinFields(c);
    }
    LegacyIdsAgreeIff(MainLedger, TextPayload());
    LegacyIdsAgreeIff(MainLedger, NumberPayload());
  }

  /** The range matters: two migrated rows with different legacy ids, of which the transform makes one. A run
      over them in which nothing throws inserts the first one and stamps the other one's raw event. */
  lemma ExponentTwinsStampTheWrongRow(accepts: Raw -> bool)
    requires accepts(TextRow()) && accepts(NumberRow())
    ensures Migrated(MainLedger, [TextRow(), NumberRow()])
    ensures var t, a := Tables(map[], {}), Attempt([TextRow(), NumberRow()], LedgerTransform(MainLedger, accepts), true, true, true, Never);
            && NewOrigins(map[], After(t, {}, a).master) == {TextRow().id}
            && After(t, {}, a).promoted == {NumberRow().id}
  {
    ExponentKeys();
    NeverStops([TextRow(), NumberRow()], LedgerTransform(MainLedger, accepts));
    hide JsKey, SqlKey, Promote, NewOrigins, TextPayload, NumberPayload;
    TwinsCollectTheWrongRow(TextRow(), NumberRow(), LedgerTransform(MainLedger, accepts));
    var none: Master := map[];
    assert none.Keys + {} == {};
  }

  lemma NeverStops(rows: seq<Raw>, transform: Transform)
    ensures Promote(Fresh(map[], {}), rows, transform, Never).Going?
  {
    LoopNeverStops(Fresh(map[], {}), rows, transform);
  }

  lemma {:induction false} LoopNeverStops(start: Work, rows: seq<Raw>, transform: Transform)
    ensures Loop(start, rows, transform, Never).Going?
  {
    if rows != [] {
      LoopNeverStops(start, rows[..|rows| - 1], transform);
    }
  }
}

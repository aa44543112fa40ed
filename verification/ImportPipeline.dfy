/** The legacy import: buffered batches with a row-by-row fallback (packages/import/src/pipeline.ts).

  A statement that fails has no effect. Which rows the database refuses is a property of the row
  (`bad`); a batch fails when it contains such a row, and may also fail for reasons of its own
  (`broken`). DBF parsing is not modelled: a record arrives with its legacy key, hash and payload, or
  without a key, or in a shape that cannot be processed.
 */
module ImportPipeline {
  import opened Common

  /** The names of the legacy tables. */
  datatype Table =
    | Paramet | Tiposoci | Socios | Ctacte | Ctacte1 | Asiento | Asientod | Cobros | Plancue | Catastros
    | Escuela | Deportes | Locacion | Caja | Gastos | Usuario

  datatype Key = Key(table: Table, key: string, hash: string)

  datatype Event = Event(key: Key, payload: string, ordinal: nat, batch: string)

  /** raw_events with its unique key (source_table, source_key, content_hash). */
  type Events = map<Key, Event>

  datatype Rec = MissingKey | Unprocessable | Good(key: string, hash: string, payload: string, ordinal: nat)

  datatype Tally = Tally(inserted: nat, skipped: nat, failed: nat)

  datatype Reason = NoLegacyKey | CannotProcess | CannotPersist

  datatype Problem = Problem(table: Table, ordinal: nat, reason: Reason)

  const BATCH_SIZE: nat := 1000

  /******* Row by row: the specification *******/

  datatype State = State(events: Events, tally: Tally)

  function Failed(s: State): State { s.(tally := s.tally.(failed := s.tally.failed + 1)) }

  /** One INSERT ... ON CONFLICT DO NOTHING. */
  function Take(s: State, e: Event, bad: Event -> bool): State {
    if bad(e) then Failed(s)
    else if e.key in s.events then s.(tally := s.tally.(skipped := s.tally.skipped + 1))
    else State(s.events[e.key := e], s.tally.(inserted := s.tally.inserted + 1))
  }

  function TakeAll(s: State, rows: seq<Event>, bad: Event -> bool): State {
    if rows == [] then s else Take(TakeAll(s, rows[..|rows| - 1], bad), rows[|rows| - 1], bad)
  }

  function EventOf(table: Table, r: Rec, batch: string): Event
    requires r.Good?
  {
    Event(Key(table, r.key, r.hash), r.payload, r.ordinal, batch)
  }

  function TakeRecord(s: State, table: Table, r: Rec, batch: string, bad: Event -> bool): State {
    if r.Good? then Take(s, EventOf(table, r, batch), bad) else Failed(s)
  }

  /** Importing a table with single inserts. */
  function RowByRow(s: State, table: Table, records: seq<Rec>, batch: string, bad: Event -> bool): State {
    if records == [] then s
    else TakeRecord(RowByRow(s, table, records[..|records| - 1], batch, bad), table, records[|records| - 1], batch, bad)
  }

  function Handled(t: Tally): nat { t.inserted + t.skipped + t.failed }

  /** Every row of `es` is still there, unchanged. */
  predicate Kept(es: Events, after: Events) {
    forall k :: k in es ==> k in after && after[k] == es[k]
  }

  /** Conservation: every record is inserted, skipped or failed, and rows are only ever added. */
  lemma {:induction false} RowByRowConserves(s: State, table: Table, records: seq<Rec>, batch: string, bad: Event -> bool)
    ensures var t := RowByRow(s, table, records, batch, bad);
            && Handled(t.tally) == Handled(s.tally) + |records|
            && s.tally.inserted <= t.tally.inserted && s.tally.failed <= t.tally.failed
            && |t.events| - |s.events| == t.tally.inserted - s.tally.inserted
            && Kept(s.events, t.events)
  {
    if records != [] {
      RowByRowConserves(s, table, records[..|records| - 1], batch, bad);
    }
  }

  /** The rows that a table imports are exactly its good records that the database accepts. */
  lemma {:induction false} RowByRowImports(s: State, table: Table, records: seq<Rec>, batch: string, bad: Event -> bool, k: Key)
    ensures k in RowByRow(s, table, records, batch, bad).events <==>
              k in s.events ||
              exists i ::
                0 <= i < |records| && Accepted(table, records[i], batch, bad) && EventOf(table, records[i], batch).key == k
  {
    if records != [] {
      var n := |records| - 1;
      RowByRowImports(s, table, records[..n], batch, bad, k);
      if Accepted(table, records[n], batch, bad) && EventOf(table, records[n], batch).key == k {
        assert k in RowByRow(s, table, records, batch, bad).events;
      }
      if i :| 0 <= i < n && Accepted(table, records[..n][i], batch, bad) && EventOf(table, records[..n][i], batch).key == k {
        assert Accepted(table, records[i], batch, bad);
      }
      if i :| 0 <= i < |records| && Accepted(table, records[i], batch, bad) && EventOf(table, records[i], batch).key == k {
        if i < n {
          assert records[..n][i] == records[i];
        }
      }
    }
  }

  predicate Accepted(table: Table, r: Rec, batch: string, bad: Event -> bool) {
    r.Good? && !bad(EventOf(table, r, batch))
  }

  /******* What the counts mean *******/

  /** Record `i` fails: it has no key, cannot be processed, or makes a row that the database refuses. */
  predicate FailsAt(table: Table, records: seq<Rec>, batch: string, bad: Event -> bool, i: nat)
    requires i < |records|
  {
    var r := records[i];
    !r.Good? || bad(Event(Key(table, r.key, r.hash), r.payload, r.ordinal, batch))
  }

  /** Record `i` was there already: an accepted one whose table, key and hash an existing row has, or an
      earlier accepted record. */
  predicate RepeatsAt(es: Events, table: Table, records: seq<Rec>, batch: string, bad: Event -> bool, i: nat)
    requires i < |records|
  {
    && !FailsAt(table, records, batch, bad, i)
    && (Key(table, records[i].key, records[i].hash) in es ||
        exists j :: 0 <= j < i && !FailsAt(table, records, batch, bad, j) &&
                    records[j].key == records[i].key && records[j].hash == records[i].hash)
  }

  function Failures(table: Table, records: seq<Rec>, batch: string, bad: Event -> bool): set<nat> {
    set i: nat | i < |records| && FailsAt(table, records, batch, bad, i)
  }

  function Repeats(es: Events, table: Table, records: seq<Rec>, batch: string, bad: Event -> bool): set<nat> {
    set i: nat | i < |records| && RepeatsAt(es, table, records, batch, bad, i)
  }

  /** The counts of a table: failed records are those that fail and only those, skipped ones those that
      were there already, and all others were inserted. */
  lemma {:induction false} CountsMean(s: State, table: Table, records: seq<Rec>, batch: string, bad: Event -> bool)
    ensures var t := RowByRow(s, table, records, batch, bad);
            var failed, skipped := |Failures(table, records, batch, bad)|, |Repeats(s.events, table, records, batch, bad)|;
            && t.tally.failed == s.tally.failed + failed
            && t.tally.skipped == s.tally.skipped + skipped
            && t.tally.inserted == s.tally.inserted + |records| - failed - skipped
  {
    if records != [] {
      var n := |records| - 1;
      CountsMean(s, table, records[..n], batch, bad);
      LastRecordTaken(s, table, records, batch, bad);
      hide RowByRow, FailsAt, RepeatsAt;
      OneRecordMore(s.events, table, records, batch, bad);
    }
  }

  /** What becomes of the last record. */
  lemma LastRecordTaken(s: State, table: Table, records: seq<Rec>, batch: string, bad: Event -> bool)
    requires records != []
    ensures var n := |records| - 1;
            var t, t' := RowByRow(s, table, records[..n], batch, bad).tally, RowByRow(s, table, records, batch, bad).tally;
            && t'.failed == t.failed + (if FailsAt(table, records, batch, bad, n) then 1 else 0)
            && t'.skipped == t.skipped + (if RepeatsAt(s.events, table, records, batch, bad, n) then 1 else 0)
            && t'.inserted == t.inserted +
               (if FailsAt(table, records, batch, bad, n) || RepeatsAt(s.events, table, records, batch, bad, n) then 0 else 1)
  {
    var n := |records| - 1;
    var r := records[n];
    if r.Good? {
      var k := Key(table, r.key, r.hash);
      RowByRowImports(s, table, records[..n], batch, bad, k);
      if j :| 0 <= j < n && Accepted(table, records[..n][j], batch, bad) && EventOf(table, records[..n][j], batch).key == k {
        assert !FailsAt(table, records, batch, bad, j);
      }
      if j :| 0 <= j < n && !FailsAt(table, records, batch, bad, j) && records[j].key == r.key && records[j].hash == r.hash {
        assert Accepted(table, records[..n][j], batch, bad) && EventOf(table, records[..n][j], batch).key == k;
      }
    }
  }

  lemma RepeatsInPrefix(es: Events, table: Table, records: seq<Rec>, batch: string, bad: Event -> bool, n: nat, i: nat)
    requires i < n <= |records|
    ensures RepeatsAt(es, table, records[..n], batch, bad, i) <==> RepeatsAt(es, table, records, batch, bad, i)
  {
    var prefix := records[..n];
    assert forall j :: 0 <= j <= i ==> prefix[j] == records[j];
    assert forall j: nat :: j <= i ==> FailsAt(table, prefix, batch, bad, j) == FailsAt(table, records, batch, bad, j);
  }

  lemma OneMore(before: set<nat>, after: set<nat>, n: nat, added: bool)
    requires n !in before && forall i :: i in after <==> i in before || (i == n && added)
    ensures |after| == |before| + if added then 1 else 0
  {
    assert after == if added then before + {n} else before;
  }

  lemma OneRecordMore(es: Events, table: Table, records: seq<Rec>, batch: string, bad: Event -> bool)
    requires records != []
    ensures var n := |records| - 1;
            && |Failures(table, records, batch, bad)| ==
               |Failures(table, records[..n], batch, bad)| + (if FailsAt(table, records, batch, bad, n) then 1 else 0)
            && |Repeats(es, table, records, batch, bad)| ==
               |Repeats(es, table, records[..n], batch, bad)| + (if RepeatsAt(es, table, records, batch, bad, n) then 1 else 0)
  {
    var n := |records| - 1;
    forall i: nat | i < n
      ensures RepeatsAt(es, table, records[..n], batch, bad, i) <==> RepeatsAt(es, table, records, batch, bad, i)
      ensures FailsAt(table, records[..n], batch, bad, i) <==> FailsAt(table, records, batch, bad, i)
    {
      RepeatsInPrefix(es, table, records, batch, bad, n, i);
    }
    hide RepeatsAt, FailsAt;
    OneMore(Failures(table, records[..n], batch, bad), Failures(table, records, batch, bad), n,
            FailsAt(table, records, batch, bad, n));
    OneMore(Repeats(es, table, records[..n], batch, bad), Repeats(es, table, records, batch, bad), n,
            RepeatsAt(es, table, records, batch, bad, n));
  }

  /** What an imported row holds: the key, hash, payload and ordinal of the first accepted record with that
      key and hash, under the table's name and the batch of the import. */
  lemma {:induction false} ImportedRowIsItsFirstRecord(
    s: State, table: Table, records: seq<Rec>, batch: string, bad: Event -> bool, k: Key)
    requires k in RowByRow(s, table, records, batch, bad).events && k !in s.events
    ensures exists i: nat ::
              && i < |records| && !FailsAt(table, records, batch, bad, i) && !RepeatsAt(s.events, table, records, batch, bad, i)
              && var r := records[i];
                 k == Key(table, r.key, r.hash) &&
                 RowByRow(s, table, records, batch, bad).events[k] == Event(k, r.payload, r.ordinal, batch)
  {
    var n := |records| - 1;
    var before := RowByRow(s, table, records[..n], batch, bad);
    if k in before.events {
      ImportedRowIsItsFirstRecord(s, table, records[..n], batch, bad, k);
      var i: nat :| i < n && !FailsAt(table, records[..n], batch, bad, i) &&
                    !RepeatsAt(s.events, table, records[..n], batch, bad, i) &&
                    k == Key(table, records[..n][i].key, records[..n][i].hash) &&
                    before.events[k] == Event(k, records[..n][i].payload, records[..n][i].ordinal, batch);
      RepeatsInPrefix(s.events, table, records, batch, bad, n, i);
      assert !FailsAt(table, records, batch, bad, i);
    } else {
      forall j | 0 <= j < n && !FailsAt(table, records, batch, bad, j)
        ensures Key(table, records[j].key, records[j].hash) != k
      {
        RowByRowImports(s, table, records[..n], batch, bad, k);
        assert Accepted(table, records[..n][j], batch, bad);
      }
      assert !FailsAt(table, records, batch, bad, n) && !RepeatsAt(s.events, table, records, batch, bad, n);
    }
  }

  /******* One batch *******/

  predicate HasKey(rows: seq<Event>, k: Key) {
    exists i :: 0 <= i < |rows| && rows[i].key == k
  }

  function KeysOf(rows: seq<Event>): set<Key> {
    set e | e in rows :: e.key
  }

  /** A multi-row INSERT ... ON CONFLICT DO NOTHING keeps the first of several new rows with one key. */
  function FirstOf(rows: seq<Event>, k: Key): (e: Event)
    requires HasKey(rows, k)
    ensures e in rows && e.key == k
  {
    if rows[0].key == k then rows[0] else FirstOf(rows[1..], k)
  }

  function BatchInsert(es: Events, rows: seq<Event>): Events {
    (map k | k in KeysOf(rows) && HasKey(rows, k) :: FirstOf(rows, k)) + es
  }

  lemma {:induction false} FirstOfOneMore(rows: seq<Event>, last: Event, k: Key)
    ensures HasKey(rows + [last], k) <==> HasKey(rows, k) || last.key == k
    ensures HasKey(rows + [last], k) ==> FirstOf(rows + [last], k) == if HasKey(rows, k) then FirstOf(rows, k) else last
  {
    var all := rows + [last];
    assert all[|rows|] == last;
    if i :| 0 <= i < |rows| && rows[i].key == k {
      assert all[i].key == k;
    }
    if rows != [] && rows[0].key != k {
      FirstOfOneMore(rows[1..], last, k);
      assert all[1..] == rows[1..] + [last];
      if i :| 0 <= i < |rows| && rows[i].key == k {
        assert rows[1..][i - 1].key == k;
      }
      if i :| 0 <= i < |rows[1..]| && rows[1..][i].key == k {
        assert rows[i + 1].key == k;
      }
    }
  }

  lemma KeysOfHas(rows: seq<Event>, k: Key)
    ensures k in KeysOf(rows) <==> HasKey(rows, k)
  {
    if i :| 0 <= i < |rows| && rows[i].key == k {
      assert rows[i] in rows;
    }
  }

  lemma BatchInsertAt(es: Events, rows: seq<Event>, k: Key)
    ensures k in BatchInsert(es, rows) <==> k in es || HasKey(rows, k)
    ensures k in es ==> BatchInsert(es, rows)[k] == es[k]
    ensures k !in es && HasKey(rows, k) ==> BatchInsert(es, rows)[k] == FirstOf(rows, k)
  {
    KeysOfHas(rows, k);
  }

  lemma BatchInsertOneMore(es: Events, rows: seq<Event>, last: Event)
    ensures BatchInsert(es, rows + [last]) ==
            if last.key in BatchInsert(es, rows) then BatchInsert(es, rows) else BatchInsert(es, rows)[last.key := last]
  {
    hide BatchInsert, FirstOf, HasKey;
    var a, b := BatchInsert(es, rows + [last]), BatchInsert(es, rows);
    forall k
      ensures k in a <==> k in b || k == last.key
      ensures k in b ==> a[k] == b[k]
      ensures k == last.key && k !in b ==> a[k] == last
    {
      BatchInsertAt(es, rows + [last], k);
      BatchInsertAt(es, rows, k);
      FirstOfOneMore(rows, last, k);
    }
  }

  lemma InsertOneSize(es: Events, e: Event)
    ensures |es[e.key := e]| == if e.key in es then |es| else |es| + 1
  {
    if e.key in es {
      assert es[e.key := e].Keys == es.Keys;
    } else {
      assert es[e.key := e].Keys == es.Keys + {e.key};
    }
  }

  /** A batch without bad rows leaves what single inserts leave, and inserts as many rows. */
  lemma {:induction false} BatchIsRowByRow(s: State, rows: seq<Event>, bad: Event -> bool)
    requires forall e <- rows :: !bad(e)
    ensures var t, inserted := TakeAll(s, rows, bad), |BatchInsert(s.events, rows)| - |s.events|;
            && t.events == BatchInsert(s.events, rows)
            && 0 <= inserted <= |rows|
            && t.tally.inserted == s.tally.inserted + inserted
            && t.tally.skipped == s.tally.skipped + (|rows| - inserted)
            && t.tally.failed == s.tally.failed
  {
    if rows == [] {
      assert BatchInsert(s.events, rows) == s.events;
    } else {
      hide BatchInsert;
      var n := |rows| - 1;
      assert rows == rows[..n] + [rows[n]];
      BatchIsRowByRow(s, rows[..n], bad);
      BatchInsertOneMore(s.events, rows[..n], rows[n]);
      InsertOneSize(BatchInsert(s.events, rows[..n]), rows[n]);
    }
  }

  /** A failure recorded before or after the pending rows are taken is the same failure. */
  lemma {:induction false} FailureCommutes(s: State, rows: seq<Event>, bad: Event -> bool)
    ensures TakeAll(Failed(s), rows, bad) == Failed(TakeAll(s, rows, bad))
  {
    if rows != [] {
      FailureCommutes(s, rows[..|rows| - 1], bad);
    }
  }

  lemma NothingToTake(s: State, bad: Event -> bool)
    ensures TakeAll(s, [], bad) == s
  {
  }

  lemma TakeAllOneMore(s: State, rows: seq<Event>, e: Event, bad: Event -> bool)
    ensures TakeAll(s, rows + [e], bad) == Take(TakeAll(s, rows, bad), e, bad)
  {
    assert (rows + [e])[..|rows|] == rows;
  }

  /******* The import of one table, as the program does it *******/

  /** raw_events, changed in place by the two insert statements. */
  class RawEvents {
    var events: Events
    const bad: Event -> bool

    constructor (bad: Event -> bool)
      ensures events == map[] && this.bad == bad
    {
      this.events, this.bad := map[], bad;
    }

    /** insertRawEvent: None is a thrown error. */
    method InsertRawEvent(row: Event) returns (inserted: Option<bool>)
      modifies this
      ensures inserted.None? <==> bad(row)
      ensures inserted.Some? ==> (inserted.value <==> row.key !in old(events))
      ensures events == if inserted == Some(true) then old(events)[row.key := row] else old(events)
    {
      if bad(row) {
        return None;
      }
      if row.key in events {
        return Some(false);
      }
      events := events[row.key := row];
      return Some(true);
    }

    /** insertRawEventBatch: the number of rows inserted, or None for a thrown error. */
    method InsertRawEventBatch(rows: seq<Event>, broken: bool) returns (inserted: Option<nat>)
      modifies this
      ensures inserted.None? <==> broken || exists e :: e in rows && bad(e)
      ensures inserted.None? ==> events == old(events)
      ensures inserted.Some? ==>
                events == BatchInsert(old(events), rows) && inserted.value == |events| - |old(events)|
    {
      if broken || exists e :: e in rows && bad(e) {
        return None;
      }
      BatchIsRowByRow(State(events, Tally(0, 0, 0)), rows, bad);
      var before := |events|;
      events := BatchInsert(events, rows);
      inserted := Some(|events| - before);
    }
  }

  /** The variables of runImport while it imports one table. */
  class TableImport {
    const db: RawEvents
    const table: Table
    const batch: string
    var buffer: seq<Event>
    var read: nat
    var tally: Tally
    var totals: Tally
    var errorMessage: Option<Problem>
    var firstError: Option<Problem>

    constructor (db: RawEvents, table: Table, batch: string, totals: Tally, firstError: Option<Problem>)
      ensures this.db == db && this.table == table && this.batch == batch
      ensures buffer == [] && read == 0 && tally == Tally(0, 0, 0) && errorMessage == None
      ensures this.totals == totals && this.firstError == firstError
    {
      this.db, this.table, this.batch := db, table, batch;
      this.buffer, this.read, this.tally, this.errorMessage := [], 0, Tally(0, 0, 0), None;
      this.totals, this.firstError := totals, firstError;
    }

    ghost function Now(): State
      reads this, db
    {
      State(db.events, tally)
    }

    /** The totals run ahead of the table's own counts by what was there before, and an error message is
        set once something failed. */
    ghost predicate Consistent(before: Tally, error: Option<Problem>)
      reads this
    {
      && totals == Tally(before.inserted + tally.inserted, before.skipped + tally.skipped, before.failed + tally.failed)
      && (errorMessage.Some? <==> tally.failed > 0)
      && (firstError.Some? <==> error.Some? || tally.failed > 0)
      && (error.Some? ==> firstError == error)
    }

    method RecordFailure(p: Problem, overwrite: bool, ghost before: Tally, ghost error: Option<Problem>)
      requires Consistent(before, error)
      modifies this`tally, this`totals, this`errorMessage, this`firstError
      ensures Consistent(before, error) && Now() == Failed(old(Now()))
    {
      tally := tally.(failed := tally.failed + 1);
      totals := totals.(failed := totals.failed + 1);
      if overwrite || errorMessage.None? {
        errorMessage := Some(p);
      }
      if firstError.None? {
        firstError := Some(p);
      }
    }

    /** One row of the fallback loop. */
    method InsertBuffered(row: Event, ghost before: Tally, ghost error: Option<Problem>)
      requires Consistent(before, error)
      modifies this`tally, this`totals, this`errorMessage, this`firstError, db
      ensures Consistent(before, error) && Now() == Take(old(Now()), row, db.bad)
    {
      var ok := db.InsertRawEvent(row);
      match ok {
        case Some(true) =>
          tally := tally.(inserted := tally.inserted + 1);
          totals := totals.(inserted := totals.inserted + 1);
        case Some(false) =>
          tally := tally.(skipped := tally.skipped + 1);
          totals := totals.(skipped := totals.skipped + 1);
        case None =>
          RecordFailure(Problem(table, row.ordinal, CannotPersist), false, before, error);
      }
    }

    /** flush: however the batch fares, the buffered rows are taken one after the other. */
    method Flush(broken: bool, ghost before: Tally, ghost error: Option<Problem>)
      requires Consistent(before, error)
      modifies this`buffer, this`tally, this`totals, this`errorMessage, this`firstError, db
      ensures buffer == [] && Consistent(before, error)
      ensures Now() == TakeAll(old(Now()), old(buffer), db.bad)
    {
      hide BatchInsert, TakeAll, Take;
      if |buffer| == 0 {
        NothingToTake(Now(), db.bad);
        return;
      }
      NothingToTake(Now(), db.bad);
      var inserted := db.InsertRawEventBatch(buffer, broken);
      if inserted.Some? {
        BatchIsRowByRow(old(Now()), buffer, db.bad);
        tally := tally.(inserted := tally.inserted + inserted.value, skipped := tally.skipped + (|buffer| - inserted.value));
        totals := totals.(inserted := totals.inserted + inserted.value, skipped := totals.skipped + (|buffer| - inserted.value));
      } else {
        for i := 0 to |buffer|
          invariant buffer == old(buffer) && Consistent(before, error)
          invariant Now() == TakeAll(old(Now()), buffer[..i], db.bad)
        {
          TakeAllOneMore(old(Now()), buffer[..i], buffer[i], db.bad);
          assert buffer[..i + 1] == buffer[..i] + [buffer[i]];
          InsertBuffered(buffer[i], before, error);
        }
        assert buffer[..|buffer|] == buffer;
      }
      buffer := [];
    }

    /** One record of the stream: handled at once, or buffered, in which case nothing is lost. */
    method Accept(r: Rec, broken: bool, ghost before: Tally, ghost error: Option<Problem>)
      requires Consistent(before, error)
      modifies this, db
      ensures Consistent(before, error) && read == old(read) + 1
      ensures TakeAll(Now(), buffer, db.bad) ==
              TakeRecord(TakeAll(old(Now()), old(buffer), db.bad), table, r, batch, db.bad)
    {
      read := read + 1;
      match r {
        case MissingKey =>
          FailureCommutes(Now(), buffer, db.bad);
          RecordFailure(Problem(table, read, NoLegacyKey), true, before, error);
        case Unprocessable =>
          FailureCommutes(Now(), buffer, db.bad);
          RecordFailure(Problem(table, read, CannotProcess), true, before, error);
        case Good(key, hash, payload, ordinal) =>
          var e := Event(Key(table, key, hash), payload, ordinal, batch);
          TakeAllOneMore(Now(), buffer, e, db.bad);
          buffer := buffer + [e];
          if |buffer| >= BATCH_SIZE {
            Flush(broken, before, error);
          }
      }
    }

    /** Buffering refines single inserts: whatever rows the database refuses and whichever batches fail,
        the table ends with the rows and the counts of a row-by-row import. */
    method ImportRecords(records: seq<Rec>, broken: nat -> bool, ghost before: Tally, ghost error: Option<Problem>)
      requires buffer == [] && read == 0 && Consistent(before, error)
      modifies this, db
      ensures Now() == RowByRow(old(Now()), table, records, batch, db.bad)
      ensures buffer == [] && read == |records| && Consistent(before, error)
    {
      for i := 0 to |records|
        invariant read == i && Consistent(before, error)
        invariant TakeAll(Now(), buffer, db.bad) == RowByRow(old(Now()), table, records[..i], batch, db.bad)
      {
        assert records[..i + 1][..i] == records[..i];
        Accept(records[i], broken(i), before, error);
      }
      assert records[..|records|] == records;
      Flush(broken(|records|), before, error);
    }
  }
}

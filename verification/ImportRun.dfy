/** A whole import run: the order of the tables, their dependencies, totals and status
  (packages/import/src/pipeline.ts). */
module ImportRun {
  import opened Common
  import opened ImportPipeline

  /** usuario is a legacy table too, but not one the pipeline imports. */
  const LEGACY_IMPORT_ORDER: seq<Table> :=
    [Paramet, Tiposoci, Socios, Ctacte, Ctacte1, Asiento, Asientod, Cobros, Plancue,
     Catastros, Escuela, Deportes, Locacion, Caja, Gastos]

  function Dependencies(table: Table): seq<Table> {
    match table
    case Ctacte1 => [Ctacte]
    case Socios => [Tiposoci]
    case Asientod => [Asiento]
    case _ => []
  }

  datatype Summary = Summary(table: Table, read: nat, tally: Tally)

  datatype Error =
    | UnknownTable(table: Table)
    | OrderViolation(table: Table)
    | MissingDependency(table: Table, dependency: Table)
    | Unreadable(table: Table)

  datatype Outcome =
    | Imported(tables: seq<Summary>, read: nat, totals: Tally, firstError: Option<Problem>)
    | Aborted(error: Error)

  predicate Succeeded(o: Outcome) { o.Imported? && o.firstError.None? }

  /******* The table list *******/

  function Position(table: Table, order: seq<Table>): int {
    if order == [] then -1
    else if order[0] == table then 0
    else if Position(table, order[1..]) == -1 then -1
    else Position(table, order[1..]) + 1
  }

  lemma {:induction false} PositionFinds(table: Table, order: seq<Table>)
    ensures Position(table, order) == -1 <==> table !in order
    ensures Position(table, order) != -1 ==>
              0 <= Position(table, order) < |order| && order[Position(table, order)] == table
  {
    if order != [] {
      PositionFinds(table, order[1..]);
    }
  }

  function At(table: Table): int { Position(table, LEGACY_IMPORT_ORDER) }

  /** Known tables, none listed before one of a later place in the order (the same one may come again). */
  predicate InOrder(tables: seq<Table>) {
    && (forall i :: 0 <= i < |tables| ==> At(tables[i]) != -1)
    && (forall i :: 0 < i < |tables| ==> At(tables[i - 1]) <= At(tables[i]))
  }

  method ResolveTableList(override: Option<seq<Table>>) returns (r: Option<seq<Table>>, e: Error)
    ensures r.Some? <==> override.None? || InOrder(override.value)
    ensures r.Some? ==> r.value == if override.None? || override.value == [] then LEGACY_IMPORT_ORDER else override.value
    ensures r.None? ==> (e.UnknownTable? && At(e.table) == -1) || e.OrderViolation?
  {
    hide Position;
    e := UnknownTable(Usuario);
    if override.None? || |override.value| == 0 {
      return Some(LEGACY_IMPORT_ORDER), e;
    }
    var tables := override.value;
    var lastIdx := -1;
    for i := 0 to |tables|
      invariant forall k :: 0 <= k < i ==> At(tables[k]) != -1
      invariant forall k :: 0 < k < i ==> At(tables[k - 1]) <= At(tables[k])
      invariant lastIdx == if i == 0 then -1 else At(tables[i - 1])
    {
      var idx := At(tables[i]);
      PositionFinds(tables[i], LEGACY_IMPORT_ORDER);
      if idx == -1 {
        return None, UnknownTable(tables[i]);
      }
      if idx < lastIdx {
        return None, OrderViolation(tables[i]);
      }
      lastIdx := idx;
    }
    return Some(tables), e;
  }

  /** Every dependency comes before the table that needs it. */
  lemma DependenciesComeFirst(table: Table, dep: Table)
    requires dep in Dependencies(table)
    ensures 0 <= At(dep) < At(table)
  {
    hide Position;
    var i := if table.Socios? then 1 else if table.Ctacte1? then 3 else 5;
    assert LEGACY_IMPORT_ORDER[i] == dep && LEGACY_IMPORT_ORDER[i + 1] == table;
    OrderIsDistinct(i);
    OrderIsDistinct(i + 1);
  }

  lemma {:induction false} PositionOf(order: seq<Table>, i: nat, table: Table)
    requires i < |order| && order[i] == table && table !in order[..i]
    ensures Position(table, order) == i
  {
    if i > 0 {
      assert order[0] in order[..i];
      assert order[..i][1..] == order[1..][..i - 1];
      PositionOf(order[1..], i - 1, table);
    }
  }

  /******* The run, row by row *******/

  predicate HasAnyEvent(es: Events, table: Table) {
    exists k :: k in es && k.table == table
  }

  /** The first dependency that neither this run nor an earlier one has imported. */
  function MissingOf(deps: seq<Table>, seen: seq<Table>, es: Events): Option<Table> {
    if deps == [] then None
    else if deps[0] in seen || HasAnyEvent(es, deps[0]) then MissingOf(deps[1..], seen, es)
    else Some(deps[0])
  }

  /** The rule, table by table: Ctacte1 needs Ctacte, Socios needs Tiposoci and Asientod needs Asiento, each
      imported earlier in this run or present in raw_events; no other table needs anything. */
  lemma NeedsItsDependency(table: Table, seen: seq<Table>, es: Events)
    ensures MissingOf(Dependencies(table), seen, es) ==
            if table.Ctacte1? && Ctacte !in seen && (forall k <- es :: k.table != Ctacte) then Some(Ctacte)
            else if table.Socios? && Tiposoci !in seen && (forall k <- es :: k.table != Tiposoci) then Some(Tiposoci)
            else if table.Asientod? && Asiento !in seen && (forall k <- es :: k.table != Asiento) then Some(Asiento)
            else None
  {
    assert forall seen': seq<Table> :: MissingOf([], seen', es) == None;
    if Dependencies(table) != [] {
      assert Dependencies(table)[1..] == [];
    }
  }

  datatype Progress =
    | Going(events: Events, summaries: seq<Summary>)
    | Stopped(events: Events, error: Error)

  type Source = Table -> Option<seq<Rec>>

  function Zero(): Tally { Tally(0, 0, 0) }

  /** One more table. */
  function NextTable(p: Progress, seen: seq<Table>, table: Table, source: Source, batch: string, bad: Event -> bool): Progress {
    if p.Stopped? then p
    else
      var missing := MissingOf(Dependencies(table), seen, p.events);
      if missing.Some? then Stopped(p.events, MissingDependency(table, missing.value))
      else if source(table).None? then Stopped(p.events, Unreadable(table))
      else
        var s := RowByRow(State(p.events, Zero()), table, source(table).value, batch, bad);
        Going(s.events, p.summaries + [Summary(table, |source(table).value|, s.tally)])
  }

  function Tables(es: Events, tables: seq<Table>, source: Source, batch: string, bad: Event -> bool): Progress {
    if tables == [] then Going(es, [])
    else
      var n := |tables| - 1;
      NextTable(Tables(es, tables[..n], source, batch, bad), tables[..n], tables[n], source, batch, bad)
  }

  lemma OneMoreTable(es: Events, tables: seq<Table>, i: nat, source: Source, batch: string, bad: Event -> bool)
    requires i < |tables|
    ensures Tables(es, tables[..i + 1], source, batch, bad) ==
            NextTable(Tables(es, tables[..i], source, batch, bad), tables[..i], tables[i], source, batch, bad)
  {
    assert tables[..i + 1][..i] == tables[..i];
  }

  function Plus(a: Tally, b: Tally): Tally {
    Tally(a.inserted + b.inserted, a.skipped + b.skipped, a.failed + b.failed)
  }

  function TotalOf(ss: seq<Summary>): Tally {
    if ss == [] then Zero() else Plus(TotalOf(ss[..|ss| - 1]), ss[|ss| - 1].tally)
  }

  function ReadOf(ss: seq<Summary>): nat {
    if ss == [] then 0 else ReadOf(ss[..|ss| - 1]) + ss[|ss| - 1].read
  }

  predicate SummariesOk(tables: seq<Table>, ss: seq<Summary>) {
    && |ss| == |tables|
    && (forall i :: 0 <= i < |tables| ==> ss[i].table == tables[i] && ss[i].read == Handled(ss[i].tally))
    && ReadOf(ss) == Handled(TotalOf(ss))
  }

  predicate Balanced(es: Events, tables: seq<Table>, p: Progress) {
    && Kept(es, p.events)
    && (p.Going? ==> SummariesOk(tables, p.summaries) && TotalOf(p.summaries).inserted == |p.events| - |es|)
  }

  lemma OneMoreSummary(ss: seq<Summary>, s: Summary)
    ensures TotalOf(ss + [s]) == Plus(TotalOf(ss), s.tally) && ReadOf(ss + [s]) == ReadOf(ss) + s.read
  {
    assert (ss + [s])[..|ss|] == ss;
  }

  lemma SummariesOneMore(tables: seq<Table>, ss: seq<Summary>, s: Summary)
    requires SummariesOk(tables, ss) && s.read == Handled(s.tally)
    ensures SummariesOk(tables + [s.table], ss + [s])
    ensures TotalOf(ss + [s]).inserted == TotalOf(ss).inserted + s.tally.inserted
  {
    hide TotalOf, ReadOf;
    OneMoreSummary(ss, s);
  }

  /** What one table adds to raw_events and to its own counters. */
  lemma TableConserves(es: Events, table: Table, records: seq<Rec>, batch: string, bad: Event -> bool)
    ensures var s := RowByRow(State(es, Zero()), table, records, batch, bad);
            && |records| == Handled(s.tally) && Kept(es, s.events) && |s.events| - |es| == s.tally.inserted
  {
    hide Kept;
    RowByRowConserves(State(es, Zero()), table, records, batch, bad);
  }

  /** What one more table adds to the run. */
  lemma OneTableAdds(p: Progress, seen: seq<Table>, table: Table, source: Source, batch: string, bad: Event -> bool)
    returns (summary: Summary)
    ensures var q := NextTable(p, seen, table, source, batch, bad);
            && (q.Stopped? ==> q.events == p.events)
            && (q.Going? ==>
                  && p.Going? && q.summaries == p.summaries + [summary]
                  && summary.table == table && summary.read == Handled(summary.tally)
                  && Kept(p.events, q.events) && |q.events| - |p.events| == summary.tally.inserted)
  {
    hide MissingOf, Dependencies, RowByRow, Kept, Handled, Zero;
    summary := Summary(table, 0, Zero());
    if source(table).Some? {
      var records := source(table).value;
      TableConserves(p.events, table, records, batch, bad);
      summary := Summary(table, |records|, RowByRow(State(p.events, Zero()), table, records, batch, bad).tally);
    }
  }

  lemma NextTableBalances(es: Events, tables: seq<Table>, p: Progress, table: Table, source: Source, batch: string,
                          bad: Event -> bool)
    requires Balanced(es, tables, p)
    ensures Balanced(es, tables + [table], NextTable(p, tables, table, source, batch, bad))
  {
    hide NextTable, SummariesOk, TotalOf, Kept;
    var summary := OneTableAdds(p, tables, table, source, batch, bad);
    var q := NextTable(p, tables, table, source, batch, bad);
    if q.Going? {
      SummariesOneMore(tables, p.summaries, summary);
      KeptOn(es, p.events, q.events);
    }
  }

  lemma KeptOn(a: Events, b: Events, c: Events)
    requires Kept(a, b) && Kept(b, c)
    ensures Kept(a, c)
  {
  }

  lemma EmptyTotals()
    ensures TotalOf([]) == Zero() && ReadOf([]) == 0
  {
  }

  lemma NothingBalances(es: Events)
    ensures Balanced(es, [], Going(es, []))
  {
    EmptyTotals();
    NoSummaries();
    hide TotalOf, ReadOf, SummariesOk;
  }

  lemma NoSummaries()
    ensures SummariesOk([], [])
  {
    EmptyTotals();
    hide TotalOf, ReadOf;
  }

  /** Conservation per table and in total, and rows only ever added. */
  lemma {:induction false} TablesConserve(es: Events, tables: seq<Table>, source: Source, batch: string, bad: Event -> bool)
    ensures Balanced(es, tables, Tables(es, tables, source, batch, bad))
  {
    if tables == [] {
      NothingBalances(es);
    } else {
      hide *;
      var n := |tables| - 1;
      TablesConserve(es, tables[..n], source, batch, bad);
      assert tables == tables[..n] + [tables[n]] && tables[..n + 1] == tables;
      OneMoreTable(es, tables, n, source, batch, bad);
      NextTableBalances(es, tables[..n], Tables(es, tables[..n], source, batch, bad), tables[n], source, batch, bad);
    }
  }

  /** The default list never meets a missing dependency: only an unreadable file can stop it. */
  lemma {:induction false} FullOrderNeverLacksADependency(es: Events, n: nat, source: Source, batch: string, bad: Event -> bool)
    requires n <= |LEGACY_IMPORT_ORDER|
    ensures var p := Tables(es, LEGACY_IMPORT_ORDER[..n], source, batch, bad); p.Stopped? ==> p.error.Unreadable?
  {
    hide Tables, RowByRow, Position;
    if n == 0 {
      NoTables(es, source, batch, bad);
      assert LEGACY_IMPORT_ORDER[..n] == [];
    } else {
      FullOrderNeverLacksADependency(es, n - 1, source, batch, bad);
      OneMoreTable(es, LEGACY_IMPORT_ORDER, n - 1, source, batch, bad);
      EarlierTablesSuffice(n - 1, Tables(es, LEGACY_IMPORT_ORDER[..n - 1], source, batch, bad).events);
    }
  }

  lemma EarlierTablesSuffice(i: nat, es: Events)
    requires i < |LEGACY_IMPORT_ORDER|
    ensures MissingOf(Dependencies(LEGACY_IMPORT_ORDER[i]), LEGACY_IMPORT_ORDER[..i], es).None?
  {
    hide Position;
    var table := LEGACY_IMPORT_ORDER[i];
    if Dependencies(table) != [] {
      var dep := Dependencies(table)[0];
      DependenciesComeFirst(table, dep);
      PositionFinds(dep, LEGACY_IMPORT_ORDER);
      OrderIsDistinct(i);
      assert LEGACY_IMPORT_ORDER[..i][At(dep)] == dep;
    }
  }

  lemma NoTables(es: Events, source: Source, batch: string, bad: Event -> bool)
    ensures Tables(es, [], source, batch, bad) == Going(es, [])
  {
  }

  lemma OrderIsDistinct(i: nat)
    requires i < |LEGACY_IMPORT_ORDER|
    ensures At(LEGACY_IMPORT_ORDER[i]) == i
  {
    PositionOf(LEGACY_IMPORT_ORDER, i, LEGACY_IMPORT_ORDER[i]);
  }

  /******* Running again *******/

  /** Every row of the table that the database accepts is already there. */
  predicate AllThere(es: Events, table: Table, records: seq<Rec>, batch: string, bad: Event -> bool) {
    forall i :: 0 <= i < |records| && Accepted(table, records[i], batch, bad) ==> EventOf(table, records[i], batch).key in es
  }

  lemma {:induction false} NothingNew(s: State, table: Table, records: seq<Rec>, batch: string, bad: Event -> bool)
    requires AllThere(s.events, table, records, batch, bad)
    ensures var t := RowByRow(s, table, records, batch, bad);
            t.events == s.events && t.tally.inserted == s.tally.inserted
  {
    if records != [] {
      var n := |records| - 1;
      assert AllThere(s.events, table, records[..n], batch, bad);
      NothingNew(s, table, records[..n], batch, bad);
      assert Accepted(table, records[n], batch, bad) ==> EventOf(table, records[n], batch).key in s.events;
    }
  }

  lemma ImportedIsThere(s: State, table: Table, records: seq<Rec>, batch: string, again: string,
                        bad: Event -> bool, bad': Event -> bool, es: Events)
    requires forall k <- RowByRow(s, table, records, batch, bad).events :: k in es
    requires forall r <- records :: Accepted(table, r, again, bad') ==> Accepted(table, r, batch, bad)
    ensures AllThere(es, table, records, again, bad')
  {
    forall i | 0 <= i < |records| && Accepted(table, records[i], again, bad')
      ensures EventOf(table, records[i], again).key in es
    {
      assert records[i] in records;
      RowByRowImports(s, table, records, batch, bad, EventOf(table, records[i], again).key);
      assert EventOf(table, records[i], batch).key == EventOf(table, records[i], again).key;
    }
  }

  /** The second run is not refused a row that the first one was. */
  predicate RefusesNoLess(tables: seq<Table>, source: Source, batch: string, again: string,
                          bad: Event -> bool, bad': Event -> bool) {
    forall t <- tables :: source(t).Some? ==>
      forall r <- source(t).value :: Accepted(t, r, again, bad') ==> Accepted(t, r, batch, bad)
  }

  /** Idempotence: after a complete run, a second run over the same files inserts nothing, leaves
      raw_events as they are and completes too, provided it is not given rows to insert that the first
      run was refused. */
  lemma {:induction false} SecondRunInsertsNothing(
    es: Events, tables: seq<Table>, source: Source, batch: string, again: string, bad: Event -> bool, bad': Event -> bool,
    after: Events)
    requires Tables(es, tables, source, batch, bad).Going?
    requires forall k <- Tables(es, tables, source, batch, bad).events :: k in after
    requires RefusesNoLess(tables, source, batch, again, bad, bad')
    ensures var p := Tables(after, tables, source, again, bad');
            p.Going? && p.events == after && TotalOf(p.summaries).inserted == 0
  {
    if tables != [] {
      var n := |tables| - 1;
      var before := Tables(es, tables[..n], source, batch, bad);
      assert forall t <- tables[..n] :: t in tables;
      assert tables[n] in tables && source(tables[n]).Some?;
      var records := source(tables[n]).value;
      RowByRowConserves(State(before.events, Zero()), tables[n], records, batch, bad);
      SecondRunInsertsNothing(es, tables[..n], source, batch, again, bad, bad', after);
      ImportedIsThere(State(before.events, Zero()), tables[n], records, batch, again, bad, bad', after);
      NothingNew(State(after, Zero()), tables[n], records, again, bad');
      MissingShrinks(Dependencies(tables[n]), tables[..n], before.events, after);
      var p, q := Tables(after, tables, source, again, bad'), Tables(after, tables[..n], source, again, bad');
      assert p.summaries[..|p.summaries| - 1] == q.summaries;
    }
  }

  lemma {:induction false} MissingShrinks(deps: seq<Table>, seen: seq<Table>, es: Events, after: Events)
    requires forall k <- es :: k in after
    requires MissingOf(deps, seen, es).None?
    ensures MissingOf(deps, seen, after).None?
  {
    if deps != [] {
      if k :| k in es && k.table == deps[0] {
        assert k in after;
      }
      MissingShrinks(deps[1..], seen, es, after);
    }
  }

  /******* The program's loops *******/

  method FirstMissing(db: RawEvents, table: Table, imported: seq<Table>) returns (missing: Option<Table>)
    ensures missing == MissingOf(Dependencies(table), imported, db.events)
  {
    var deps := Dependencies(table);
    var i := 0;
    while i < |deps|
      invariant 0 <= i <= |deps|
      invariant MissingOf(deps, imported, db.events) == MissingOf(deps[i..], imported, db.events)
    {
      if deps[i] !in imported && !HasAnyEvent(db.events, deps[i]) {
        return Some(deps[i]);
      }
      i := i + 1;
    }
    return None;
  }

  /** One table of the loop: its rows row by row, the run's totals moved on by its counters. */
  method ImportTable(db: RawEvents, table: Table, records: seq<Rec>, batch: string, broken: nat -> bool, before: Tally,
                     error: Option<Problem>)
    returns (summary: Summary, totals: Tally, firstError: Option<Problem>)
    requires error.None? <==> before.failed == 0
    modifies db
    ensures var s := RowByRow(State(old(db.events), Zero()), table, records, batch, db.bad);
            && db.events == s.events && summary == Summary(table, |records|, s.tally)
            && totals == Plus(before, s.tally)
    ensures firstError.None? <==> totals.failed == 0
  {
    hide RowByRow;
    var run := new TableImport(db, table, batch, before, error);
    run.ImportRecords(records, broken, before, error);
    return Summary(table, run.read, run.tally), run.totals, run.firstError;
  }

  /** runImport after the table list is resolved. */
  method ImportTables(db: RawEvents, tables: seq<Table>, source: Source, batch: string, broken: (nat, nat) -> bool)
    returns (r: Outcome)
    modifies db
    ensures var p := Tables(old(db.events), tables, source, batch, db.bad);
            && db.events == p.events
            && (p.Stopped? ==> r == Aborted(p.error))
            && (p.Going? ==>
                  && r.Imported? && r.tables == p.summaries
                  && r.totals == TotalOf(p.summaries) && r.read == ReadOf(p.summaries)
                  && (r.firstError.None? <==> r.totals.failed == 0))
  {
    var summaries: seq<Summary>, read, totals := [], 0, Zero();
    var firstError: Option<Problem> := None;
    for i := 0 to |tables|
      invariant Tables(old(db.events), tables[..i], source, batch, db.bad) == Going(db.events, summaries)
      invariant read == ReadOf(summaries) && totals == TotalOf(summaries)
      invariant firstError.None? <==> totals.failed == 0
    {
      var table := tables[i];
      OneMoreTable(old(db.events), tables, i, source, batch, db.bad);
      hide Tables, RowByRow, TotalOf, ReadOf, MissingOf;
      var missing := FirstMissing(db, table, tables[..i]);
      if missing.Some? {
        StopsForGood(old(db.events), tables, i + 1, source, batch, db.bad);
        return Aborted(MissingDependency(table, missing.value));
      }
      if source(table).None? {
        StopsForGood(old(db.events), tables, i + 1, source, batch, db.bad);
        return Aborted(Unreadable(table));
      }
      var place: nat := i;
      var summary;
      summary, totals, firstError :=
        ImportTable(db, table, source(table).value, batch, (k: nat) => broken(place, k), totals, firstError);
      OneMoreSummary(summaries, summary);
      summaries, read := summaries + [summary], read + summary.read;
    }
    assert tables[..|tables|] == tables;
    return Imported(summaries, read, totals, firstError);
  }

  lemma {:induction false} StopsForGood(es: Events, tables: seq<Table>, n: nat, source: Source, batch: string,
                                        bad: Event -> bool)
    requires n <= |tables| && Tables(es, tables[..n], source, batch, bad).Stopped?
    ensures Tables(es, tables, source, batch, bad) == Tables(es, tables[..n], source, batch, bad)
    decreases |tables|
  {
    if n < |tables| {
      assert tables[..|tables| - 1][..n] == tables[..n];
      StopsForGood(es, tables[..|tables| - 1], n, source, batch, bad);
    } else {
      assert tables[..n] == tables;
    }
  }

  /** runImport: what a caller is told. Counts are conserved, the status is `succeeded` iff nothing
      failed, and the inserted count is exactly how much raw_events grew. */
  method RunImport(db: RawEvents, override: Option<seq<Table>>, source: Source, batch: string, broken: (nat, nat) -> bool)
    returns (r: Outcome)
    modifies db
    ensures Kept(old(db.events), db.events)
    ensures r.Imported? ==>
              && r.read == Handled(r.totals) && r.totals.inserted == |db.events| - |old(db.events)|
              && (forall s <- r.tables :: s.read == Handled(s.tally))
              && (Succeeded(r) <==> r.totals.failed == 0)
    ensures r.Imported? ==>
              var list := if override.None? || override.value == []
                          then [Paramet, Tiposoci, Socios, Ctacte, Ctacte1, Asiento, Asientod, Cobros, Plancue,
                                Catastros, Escuela, Deportes, Locacion, Caja, Gastos]
                          else override.value;
              |r.tables| == |list| && forall i :: 0 <= i < |list| ==> r.tables[i].table == list[i]
    ensures override.None? && r.Aborted? ==> r.error.Unreadable?
    ensures override.Some? && !InOrder(override.value) ==> r.Aborted? && db.events == old(db.events)
  {
    var tables, e := ResolveTableList(override);
    if tables.None? {
      return Aborted(e);
    }
    r := ImportTables(db, tables.value, source, batch, broken);
    TablesConserve(old(db.events), tables.value, source, batch, db.bad);
    if override.None? {
      assert LEGACY_IMPORT_ORDER[..|LEGACY_IMPORT_ORDER|] == LEGACY_IMPORT_ORDER;
      FullOrderNeverLacksADependency(old(db.events), |LEGACY_IMPORT_ORDER|, source, batch, db.bad);
    }
  }
}

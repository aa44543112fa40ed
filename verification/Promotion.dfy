/** Promotion of ctacte and ctacte1 rows from raw_events to the master tables, and the order of the
  domains (packages/promotion/src/promote.ts, dedup.ts, PROMOTION_ORDER.ts).

  A master table is a map from legacy id (its unique key) to the raw event its row came from. The
  transform of a row is a function: it gives the legacy id of the master row, or throws. This module
  takes any such function; PromotionGuarantees is about the one the program has, whose id and the
  legacy_id column of the raw event are computed from the same columns.
 */
module Promotion {
  import opened Common
  import PromotionKeys

  /** `legacyId` is unique in raw_events. */
  datatype Raw = Raw(id: nat, sourceKey: string, legacyId: string, payload: PromotionKeys.Payload)

  type Master = map<string, nat>

  datatype Entry = Entry(legacyId: string, rawEventId: nat)

  type Transform = Raw -> Option<string>

  const BATCH_SIZE: nat := 1000

  /** `star` is the catch-all error: a batch insert or the final update threw. */
  datatype Result = Result(attempted: nat, inserted: nat, skipped: nat, failed: nat, star: bool)

  /******* One batch *******/

  /** INSERT ... ON CONFLICT DO NOTHING RETURNING: the first of several new rows with one id stays. */
  function InsertBatch(m: Master, es: seq<Entry>): Master {
    if es == [] then m
    else
      var before, last := InsertBatch(m, es[..|es| - 1]), es[|es| - 1];
      if last.legacyId in before then before else before[last.legacyId := last.rawEventId]
  }

  /** The correlation map: the last entry of a legacy id wins. */
  function Correlation(es: seq<Entry>): Master {
    if es == [] then map[] else Correlation(es[..|es| - 1])[es[|es| - 1].legacyId := es[|es| - 1].rawEventId]
  }

  /** The raw events that a successful batch collects: those the map names for the rows returned. They are
      stamped after the last batch, if nothing threw. */
  function Collected(m: Master, es: seq<Entry>): set<nat> {
    set k | k in Correlation(es) && k !in m :: Correlation(es)[k]
  }

  /** The raw events whose master row the batch inserted. */
  function Origins(m: Master, es: seq<Entry>): set<nat> {
    set k | k in InsertBatch(m, es) && k !in m :: InsertBatch(m, es)[k]
  }

  lemma {:induction false} BatchKeys(m: Master, es: seq<Entry>, k: string)
    ensures k in InsertBatch(m, es) <==> k in m || k in Correlation(es)
    ensures k in m ==> InsertBatch(m, es)[k] == m[k]
    ensures k in Correlation(es) ==> exists i :: 0 <= i < |es| && es[i].legacyId == k && es[i].rawEventId == Correlation(es)[k]
    ensures k in InsertBatch(m, es) && k !in m ==>
              exists i :: 0 <= i < |es| && es[i].legacyId == k && es[i].rawEventId == InsertBatch(m, es)[k]
  {
    if es != [] {
      var n := |es| - 1;
      BatchKeys(m, es[..n], k);
      if k in Correlation(es) {
        if k != es[n].legacyId {
          var i :| 0 <= i < n && es[..n][i].legacyId == k && es[..n][i].rawEventId == Correlation(es[..n])[k];
          assert es[i].legacyId == k;
        } else {
          assert es[n].rawEventId == Correlation(es)[k];
        }
      }
      if k in InsertBatch(m, es) && k !in m {
        if k in InsertBatch(m, es[..n]) {
          var i :| 0 <= i < n && es[..n][i].legacyId == k && es[..n][i].rawEventId == InsertBatch(m, es[..n])[k];
          assert es[i].legacyId == k;
        } else {
          assert es[n].rawEventId == InsertBatch(m, es)[k];
        }
      }
    }
  }

  /** Two entries of the batch carry one legacy id that is new to the master. */
  predicate Twins(m: Master, es: seq<Entry>) {
    exists i, j :: 0 <= i < j < |es| && es[i].legacyId == es[j].legacyId && es[i].legacyId !in m
  }

  predicate DistinctRaw(es: seq<Entry>) {
    forall i, j :: 0 <= i < j < |es| ==> es[i].rawEventId != es[j].rawEventId
  }

  /** Without twins both sides name the one entry of the id. */
  lemma {:induction false} OneEntryPerId(m: Master, es: seq<Entry>, i: nat)
    requires i < |es| && es[i].legacyId !in m
    requires forall j :: 0 <= j < |es| && es[j].legacyId == es[i].legacyId ==> j == i
    ensures es[i].legacyId in Correlation(es) && Correlation(es)[es[i].legacyId] == es[i].rawEventId
    ensures es[i].legacyId in InsertBatch(m, es) && InsertBatch(m, es)[es[i].legacyId] == es[i].rawEventId
  {
    var n, k := |es| - 1, es[i].legacyId;
    if i < n {
      OneEntryPerId(m, es[..n], i);
    } else {
      BatchKeys(m, es[..n], k);
      assert k !in InsertBatch(m, es[..n]);
    }
  }

  /** With twins the first entry is inserted and a later one is collected. */
  lemma {:induction false} FirstEntryIsInserted(m: Master, es: seq<Entry>, i: nat)
    requires i < |es| && es[i].legacyId !in m
    requires forall j :: 0 <= j < i ==> es[j].legacyId != es[i].legacyId
    ensures es[i].legacyId in InsertBatch(m, es) && InsertBatch(m, es)[es[i].legacyId] == es[i].rawEventId
  {
    var n, k := |es| - 1, es[i].legacyId;
    if i < n {
      FirstEntryIsInserted(m, es[..n], i);
    } else {
      forall j | 0 <= j < n ensures es[..n][j].legacyId != k {
        assert es[..n][j] == es[j];
      }
      BatchKeys(m, es[..n], k);
    }
  }

  function FirstWith(es: seq<Entry>, k: string): (i: nat)
    requires exists j :: 0 <= j < |es| && es[j].legacyId == k
    ensures i < |es| && es[i].legacyId == k && forall j :: 0 <= j < i ==> es[j].legacyId != k
  {
    if es[0].legacyId == k then 0
    else
      var j :| 0 <= j < |es| && es[j].legacyId == k;
      assert es[1..][j - 1].legacyId == k;
      var i := FirstWith(es[1..], k) + 1;
      assert forall x :: 0 < x < i ==> es[x] == es[1..][x - 1];
      i
  }

  /** When the correlation is right: a batch collects exactly the raw events whose master row it inserted, iff
      no two of its entries carry one legacy id that is new to the master. */
  lemma CollectedAreOriginsIff(m: Master, es: seq<Entry>)
    requires DistinctRaw(es)
    ensures Collected(m, es) == Origins(m, es) <==> !Twins(m, es)
  {
    if !Twins(m, es) {
      forall k ensures k in Correlation(es) && k !in m <==> k in InsertBatch(m, es) && k !in m {
        BatchKeys(m, es, k);
      }
      forall k | k in Correlation(es) && k !in m ensures k in InsertBatch(m, es) && Correlation(es)[k] == InsertBatch(m, es)[k] {
        BatchKeys(m, es, k);
        var i :| 0 <= i < |es| && es[i].legacyId == k;
        OneEntryPerId(m, es, i);
      }
      SameNew(m, es);
    } else {
      var a, b :| 0 <= a < b < |es| && es[a].legacyId == es[b].legacyId && es[a].legacyId !in m;
      TwinsMislead(m, es, a, b);
    }
  }

  lemma SameNew(m: Master, es: seq<Entry>)
    requires forall k :: k in Correlation(es) && k !in m <==> k in InsertBatch(m, es) && k !in m
    requires forall k :: k in Correlation(es) && k !in m ==>
               k in InsertBatch(m, es) && Correlation(es)[k] == InsertBatch(m, es)[k]
    ensures Collected(m, es) == Origins(m, es)
  {
    forall x ensures x in Collected(m, es) <==> x in Origins(m, es) {
      if x in Collected(m, es) {
        var k :| k in Correlation(es) && k !in m && Correlation(es)[k] == x;
        assert k in InsertBatch(m, es) && InsertBatch(m, es)[k] == x;
      }
      if x in Origins(m, es) {
        var k :| k in InsertBatch(m, es) && k !in m && InsertBatch(m, es)[k] == x;
        assert k in Correlation(es) && Correlation(es)[k] == x;
      }
    }
  }

  /** Of twins, the first row is inserted but its raw event is not collected. */
  lemma TwinsMislead(m: Master, es: seq<Entry>, a: nat, b: nat)
    requires DistinctRaw(es) && a < b < |es| && es[a].legacyId == es[b].legacyId && es[a].legacyId !in m
    ensures Collected(m, es) != Origins(m, es)
  {
    var k := es[a].legacyId;
    var first := FirstWith(es, k);
    FirstEntryIsInserted(m, es, first);
    var origin := es[first].rawEventId;
    assert InsertBatch(m, es)[k] == origin;
    assert origin in Origins(m, es);
    if origin in Collected(m, es) {
      var l :| l in Correlation(es) && l !in m && Correlation(es)[l] == origin;
      BatchKeys(m, es, l);
      var i :| 0 <= i < |es| && es[i].legacyId == l && es[i].rawEventId == origin;
      assert i == first && l == k;
      LaterEntryWins(es, first, b);
    }
  }

  /** The map does not name an entry that a later one with the same id follows. */
  lemma {:induction false} LaterEntryWins(es: seq<Entry>, i: nat, j: nat)
    requires DistinctRaw(es) && i < j < |es| && es[i].legacyId == es[j].legacyId
    ensures es[i].legacyId in Correlation(es) && Correlation(es)[es[i].legacyId] != es[i].rawEventId
  {
    var n := |es| - 1;
    if es[n].legacyId != es[i].legacyId {
      LaterEntryWins(es[..n], i, j);
    }
  }

  lemma InsertOneSize(m: Master, k: string, id: nat)
    requires k !in m
    ensures |m[k := id]| == |m| + 1
  {
    assert m[k := id].Keys == m.Keys + {k};
  }

  /** RETURNING yields at most one row per entry, and as many as the table grows. */
  lemma {:induction false} BatchGrows(m: Master, es: seq<Entry>)
    ensures |m| <= |InsertBatch(m, es)| <= |m| + |es|
  {
    if es != [] {
      BatchGrows(m, es[..|es| - 1]);
      var before, last := InsertBatch(m, es[..|es| - 1]), es[|es| - 1];
      if last.legacyId !in before {
        InsertOneSize(before, last.legacyId, last.rawEventId);
      }
    }
  }

  lemma BatchKeeps(m: Master, es: seq<Entry>)
    ensures forall k :: k in m ==> k in InsertBatch(m, es) && InsertBatch(m, es)[k] == m[k]
  {
    forall k | k in m ensures k in InsertBatch(m, es) && InsertBatch(m, es)[k] == m[k] {
      BatchKeys(m, es, k);
    }
  }

  /******* One domain, as a run of batches *******/

  /** A batch insert that went through, and the table it met. */
  datatype Flush = Flush(before: Master, entries: seq<Entry>)

  /** The variables of promoteDomain between two rows. `flushes` is history. */
  datatype Work = Work(
    master: Master, keys: set<string>, buffer: seq<Entry>, inserted: nat, skipped: nat, failed: nat,
    collected: set<nat>, flushes: seq<Flush>)

  /** flush, when its insert goes through. */
  function Flushed(w: Work): Work {
    if w.buffer == [] then w
    else
      var m := InsertBatch(w.master, w.buffer);
      BatchGrows(w.master, w.buffer);
      var n := |m| - |w.master|;
      w.(master := m, buffer := [], inserted := w.inserted + n, skipped := w.skipped + (|w.buffer| - n),
         collected := w.collected + Collected(w.master, w.buffer), flushes := w.flushes + [Flush(w.master, w.buffer)])
  }

  /** The loop body before its flush. */
  function Considered(w: Work, row: Raw, transform: Transform): Work {
    if row.legacyId in w.keys then w.(skipped := w.skipped + 1)
    else
      match transform(row)
      case None => w.(failed := w.failed + 1)
      case Some(id) => w.(buffer := w.buffer + [Entry(id, row.id)], keys := w.keys + {row.legacyId})
  }

  datatype Progress = Going(w: Work) | Star(w: Work)

  /** The n-th batch insert throws when `fails(n)`; the error leaves the loop. */
  function TryFlush(w: Work, fails: nat -> bool): Progress {
    if w.buffer == [] then Going(w)
    else if fails(|w.flushes|) then Star(w)
    else Going(Flushed(w))
  }

  function NextRow(p: Progress, row: Raw, transform: Transform, fails: nat -> bool): Progress {
    if p.Star? then p
    else
      var c := Considered(p.w, row, transform);
      if |c.buffer| >= BATCH_SIZE then TryFlush(c, fails) else Going(c)
  }

  function Loop(start: Work, rows: seq<Raw>, transform: Transform, fails: nat -> bool): Progress {
    if rows == [] then Going(start)
    else NextRow(Loop(start, rows[..|rows| - 1], transform, fails), rows[|rows| - 1], transform, fails)
  }

  function Promote(start: Work, rows: seq<Raw>, transform: Transform, fails: nat -> bool): Progress {
    var p := Loop(start, rows, transform, fails);
    if p.Star? then p else TryFlush(p.w, fails)
  }

  function Fresh(master: Master, known: set<string>): Work {
    Work(master, known, [], 0, 0, 0, {}, [])
  }

  /******* Counts *******/

  function Handled(w: Work): nat { w.inserted + w.skipped + w.failed + |w.buffer| }

  predicate Kept(m: Master, m': Master) { forall k :: k in m ==> k in m' && m'[k] == m[k] }

  predicate Counted(start: Master, n: nat, w: Work) {
    Handled(w) == n && w.inserted == |w.master| - |start| && Kept(start, w.master)
  }

  lemma FlushCounts(start: Master, n: nat, w: Work, fails: nat -> bool)
    requires Counted(start, n, w)
    ensures Counted(start, n, TryFlush(w, fails).w)
    ensures TryFlush(w, fails).Star? ==> TryFlush(w, fails).w.buffer != []
  {
    BatchGrows(w.master, w.buffer);
    BatchKeeps(w.master, w.buffer);
  }

  lemma {:induction false} LoopCounts(start: Work, rows: seq<Raw>, transform: Transform, fails: nat -> bool)
    requires Counted(start.master, 0, start)
    ensures var p := Loop(start, rows, transform, fails);
            && (p.Going? ==> Counted(start.master, |rows|, p.w))
            && (p.Star? ==> p.w.buffer != [] && exists n: nat :: n <= |rows| && Counted(start.master, n, p.w))
  {
    if rows != [] {
      var before := Loop(start, rows[..|rows| - 1], transform, fails);
      LoopCounts(start, rows[..|rows| - 1], transform, fails);
      if before.Going? {
        FlushCounts(start.master, |rows|, Considered(before.w, rows[|rows| - 1], transform), fails);
      }
    }
  }

  /** Every row is inserted, skipped or failed when nothing threw; when a batch threw, the rows of its
      buffer, at least one, are in no count. Either way the inserted count is how much the master grew,
      and no master row is ever replaced. */
  lemma PromoteCounts(master: Master, known: set<string>, rows: seq<Raw>, transform: Transform, fails: nat -> bool)
    ensures var p := Promote(Fresh(master, known), rows, transform, fails);
            && Kept(master, p.w.master) && p.w.inserted == |p.w.master| - |master|
            && (p.Going? ==> p.w.inserted + p.w.skipped + p.w.failed == |rows|)
            && (p.Star? ==> p.w.inserted + p.w.skipped + p.w.failed < |rows|)
  {
    LoopCounts(Fresh(master, known), rows, transform, fails);
    var p := Loop(Fresh(master, known), rows, transform, fails);
    if p.Going? {
      FlushCounts(master, |rows|, p.w, fails);
    }
  }

  /******* Collected *******/

  function RawIds(es: seq<Entry>): set<nat> { set e | e in es :: e.rawEventId }

  function AllRawIds(fs: seq<Flush>): set<nat> {
    if fs == [] then {} else AllRawIds(fs[..|fs| - 1]) + RawIds(fs[|fs| - 1].entries)
  }

  function AllCollected(fs: seq<Flush>): set<nat> {
    if fs == [] then {} else AllCollected(fs[..|fs| - 1]) + Collected(fs[|fs| - 1].before, fs[|fs| - 1].entries)
  }

  function AllOrigins(fs: seq<Flush>): set<nat> {
    if fs == [] then {} else AllOrigins(fs[..|fs| - 1]) + Origins(fs[|fs| - 1].before, fs[|fs| - 1].entries)
  }

  /** No raw event is in two entries. */
  predicate Apart(fs: seq<Flush>) {
    if fs == [] then true
    else
      var f := fs[|fs| - 1];
      Apart(fs[..|fs| - 1]) && DistinctRaw(f.entries) && AllRawIds(fs[..|fs| - 1]) !! RawIds(f.entries)
  }

  lemma WithinRaw(m: Master, es: seq<Entry>)
    ensures Collected(m, es) <= RawIds(es) && Origins(m, es) <= RawIds(es)
  {
    forall x | x in Collected(m, es) ensures x in RawIds(es) {
      var k :| k in Correlation(es) && k !in m && Correlation(es)[k] == x;
      BatchKeys(m, es, k);
    }
    forall x | x in Origins(m, es) ensures x in RawIds(es) {
      var k :| k in InsertBatch(m, es) && k !in m && InsertBatch(m, es)[k] == x;
      BatchKeys(m, es, k);
    }
  }

  lemma UnionsOfParts(a: set<nat>, b: set<nat>, a': set<nat>, b': set<nat>, d: set<nat>, e: set<nat>)
    requires a <= d && a' <= d && b <= e && b' <= e && d !! e
    ensures a + b == a' + b' <==> a == a' && b == b'
  {
    if a + b == a' + b' {
      forall x ensures x in a <==> x in a' {
        assert x in a + b <==> x in a' + b';
      }
      forall x ensures x in b <==> x in b' {
        assert x in a + b <==> x in a' + b';
      }
    }
  }

  lemma {:induction false} AllCollectedAreOriginsIff(fs: seq<Flush>)
    requires Apart(fs)
    ensures AllCollected(fs) <= AllRawIds(fs) && AllOrigins(fs) <= AllRawIds(fs)
    ensures AllCollected(fs) == AllOrigins(fs) <==> forall f <- fs :: !Twins(f.before, f.entries)
  {
    if fs != [] {
      var pre, f := fs[..|fs| - 1], fs[|fs| - 1];
      AllCollectedAreOriginsIff(pre);
      CollectedAreOriginsIff(f.before, f.entries);
      WithinRaw(f.before, f.entries);
      UnionsOfParts(AllCollected(pre), Collected(f.before, f.entries), AllOrigins(pre), Origins(f.before, f.entries),
                    AllRawIds(pre), RawIds(f.entries));
      assert fs == pre + [f];
      assert (forall g <- fs :: !Twins(g.before, g.entries)) <==>
             (forall g <- pre :: !Twins(g.before, g.entries)) && !Twins(f.before, f.entries);
    }
  }

  /** The raw events that master rows of `m'` and not of `m` came from. */
  function NewOrigins(m: Master, m': Master): set<nat> {
    set k | k in m' && k !in m :: m'[k]
  }

  /** What links the history to the tables. */
  predicate Linked(start: Master, rows: seq<Raw>, w: Work) {
    && w.collected == AllCollected(w.flushes) && NewOrigins(start, w.master) == AllOrigins(w.flushes)
    && Kept(start, w.master)
    && Apart(w.flushes) && DistinctRaw(w.buffer) && AllRawIds(w.flushes) !! RawIds(w.buffer)
    && AllRawIds(w.flushes) + RawIds(w.buffer) <= IdsOf(rows)
  }

  function IdsOf(rows: seq<Raw>): set<nat> { set r | r in rows :: r.id }

  lemma OneMoreFlush(fs: seq<Flush>, f: Flush)
    ensures AllCollected(fs + [f]) == AllCollected(fs) + Collected(f.before, f.entries)
    ensures AllOrigins(fs + [f]) == AllOrigins(fs) + Origins(f.before, f.entries)
    ensures AllRawIds(fs + [f]) == AllRawIds(fs) + RawIds(f.entries)
    ensures Apart(fs + [f]) <==> Apart(fs) && DistinctRaw(f.entries) && AllRawIds(fs) !! RawIds(f.entries)
  {
    assert (fs + [f])[..|fs|] == fs;
  }

  lemma OriginsAdd(start: Master, m: Master, es: seq<Entry>)
    requires Kept(start, m)
    ensures NewOrigins(start, InsertBatch(m, es)) == NewOrigins(start, m) + Origins(m, es)
  {
    var m' := InsertBatch(m, es);
    BatchKeeps(m, es);
    forall x | x in NewOrigins(start, m') ensures x in NewOrigins(start, m) + Origins(m, es) {
      var k :| k in m' && k !in start && m'[k] == x;
      if k in m {
        assert m[k] == x && x in NewOrigins(start, m);
      }
    }
    forall x | x in NewOrigins(start, m) + Origins(m, es) ensures x in NewOrigins(start, m') {
      if x in NewOrigins(start, m) {
        var k :| k in m && k !in start && m[k] == x;
        assert m'[k] == x;
      } else {
        var k :| k in m' && k !in m && m'[k] == x;
        assert k !in start;
      }
    }
  }

  lemma FlushedLinks(start: Master, rows: seq<Raw>, w: Work)
    requires Linked(start, rows, w) && w.buffer != []
    ensures Linked(start, rows, Flushed(w))
  {
    hide InsertBatch, Collected, Origins, AllCollected, AllOrigins, AllRawIds, Apart, NewOrigins;
    var f, m := Flush(w.master, w.buffer), InsertBatch(w.master, w.buffer);
    OneMoreFlush(w.flushes, f);
    OriginsAdd(start, w.master, w.buffer);
    BatchKeeps(w.master, w.buffer);
    KeptOn(start, w.master, m);
    hide Kept;
    assert RawIds([]) == {};
    hide RawIds;
    var w' := Flushed(w);
    assert w'.flushes == w.flushes + [f] && w'.master == m;
    assert w'.collected == AllCollected(w'.flushes);
    assert NewOrigins(start, m) == AllOrigins(w'.flushes);
    assert AllRawIds(w'.flushes) + {} <= IdsOf(rows);
  }

  lemma KeptOn(a: Master, b: Master, c: Master)
    requires Kept(a, b) && Kept(b, c)
    ensures Kept(a, c)
  {
  }

  lemma FlushLinks(start: Master, rows: seq<Raw>, w: Work, fails: nat -> bool)
    requires Linked(start, rows, w)
    ensures Linked(start, rows, TryFlush(w, fails).w)
  {
    hide Linked, Flushed;
    if w.buffer != [] {
      FlushedLinks(start, rows, w);
    }
  }

  lemma ConsiderLinks(start: Master, rows: seq<Raw>, w: Work, row: Raw, transform: Transform)
    requires Linked(start, rows, w) && row.id !in IdsOf(rows)
    ensures Linked(start, rows + [row], Considered(w, row, transform))
  {
    hide AllCollected, AllOrigins, AllRawIds, Apart, NewOrigins;
    var c := Considered(w, row, transform);
    assert IdsOf(rows + [row]) == IdsOf(rows) + {row.id};
    if c.buffer != w.buffer {
      var e := c.buffer[|w.buffer|];
      assert c.buffer == w.buffer + [e];
      assert RawIds(c.buffer) == RawIds(w.buffer) + {row.id};
      forall i | 0 <= i < |w.buffer| ensures w.buffer[i].rawEventId != row.id {
        assert w.buffer[i] in w.buffer && w.buffer[i].rawEventId in RawIds(w.buffer);
      }
    }
  }

  /** The ids of the rows read are distinct: they are a primary key. */
  predicate DistinctIds(rows: seq<Raw>) { forall i, j :: 0 <= i < j < |rows| ==> rows[i].id != rows[j].id }

  lemma NewRowIsNew(rows: seq<Raw>, n: nat)
    requires n < |rows| && DistinctIds(rows)
    ensures rows[n].id !in IdsOf(rows[..n])
  {
    forall r | r in rows[..n] ensures r.id != rows[n].id {
      var i :| 0 <= i < n && rows[..n][i] == r;
      assert rows[i].id != rows[n].id;
    }
  }

  lemma LinkedMore(start: Master, rows: seq<Raw>, row: Raw, w: Work)
    requires Linked(start, rows, w)
    ensures Linked(start, rows + [row], w)
  {
    hide AllCollected, AllOrigins, AllRawIds, Apart, NewOrigins, Kept, RawIds;
    assert IdsOf(rows + [row]) == IdsOf(rows) + {row.id};
  }

  lemma NextRowLinks(start: Master, rows: seq<Raw>, p: Progress, row: Raw, transform: Transform, fails: nat -> bool)
    requires Linked(start, rows, p.w) && row.id !in IdsOf(rows)
    ensures Linked(start, rows + [row], NextRow(p, row, transform, fails).w)
  {
    hide Linked, Considered, TryFlush, IdsOf;
    LinkedMore(start, rows, row, p.w);
    ConsiderLinks(start, rows, p.w, row, transform);
    FlushLinks(start, rows + [row], Considered(p.w, row, transform), fails);
  }

  lemma {:induction false} LoopLinks(start: Work, rows: seq<Raw>, transform: Transform, fails: nat -> bool)
    requires DistinctIds(rows) && Linked(start.master, [], start)
    ensures Linked(start.master, rows, Loop(start, rows, transform, fails).w)
  {
    hide Linked, NextRow, IdsOf;
    if rows == [] {
      assert Loop(start, rows, transform, fails) == Going(start);
    } else {
      var n := |rows| - 1;
      LoopLinks(start, rows[..n], transform, fails);
      NewRowIsNew(rows, n);
      assert rows == rows[..n] + [rows[n]];
      NextRowLinks(start.master, rows[..n], Loop(start, rows[..n], transform, fails), rows[n], transform, fails);
    }
  }

  /** Over a whole domain, whether something threw or not: the raw events collected so far are exactly those
      whose master row this run inserted, iff in no batch two entries carried one legacy id new to the
      master. */
  lemma CollectedAreInsertedIff(master: Master, known: set<string>, rows: seq<Raw>, transform: Transform, fails: nat -> bool)
    requires DistinctIds(rows)
    ensures var w := Promote(Fresh(master, known), rows, transform, fails).w;
            w.collected == NewOrigins(master, w.master) <==> forall f <- w.flushes :: !Twins(f.before, f.entries)
  {
    var start := Fresh(master, known);
    assert NewOrigins(master, master) == {};
    LoopLinks(start, rows, transform, fails);
    var p := Loop(start, rows, transform, fails);
    if p.Going? {
      FlushLinks(master, rows, p.w, fails);
    }
    AllCollectedAreOriginsIff(Promote(start, rows, transform, fails).w.flushes);
  }

  /** In particular it does whenever the transform gives different rows different legacy ids. */
  lemma InjectiveTransformCollectsExactly(master: Master, known: set<string>, rows: seq<Raw>, transform: Transform,
                                        fails: nat -> bool)
    requires DistinctIds(rows)
    requires forall r, s :: r in rows && s in rows && transform(r).Some? && transform(r) == transform(s) ==> r.id == s.id
    ensures var w := Promote(Fresh(master, known), rows, transform, fails).w; w.collected == NewOrigins(master, w.master)
  {
    var start := Fresh(master, known);
    var w := Promote(start, rows, transform, fails).w;
    CollectedAreInsertedIff(master, known, rows, transform, fails);
    LoopLinks(start, rows, transform, fails);
    assert NewOrigins(master, master) == {};
    LoopTakes(start, rows, transform, fails);
    var p := Loop(start, rows, transform, fails);
    if p.Going? {
      FlushLinks(master, rows, p.w, fails);
    }
    forall f | f in w.flushes ensures !Twins(f.before, f.entries) {
      FlushApart(w.flushes, f);
      forall i, j | 0 <= i < j < |f.entries| ensures f.entries[i].legacyId != f.entries[j].legacyId {
        assert f.entries[i] in f.entries && f.entries[j] in f.entries;
        assert TakenFrom(f.entries[i], rows, transform) && TakenFrom(f.entries[j], rows, transform);
      }
    }
  }

  predicate TakenFrom(e: Entry, rows: seq<Raw>, transform: Transform) {
    exists r :: r in rows && r.id == e.rawEventId && transform(r) == Some(e.legacyId)
  }

  predicate AllTaken(rows: seq<Raw>, transform: Transform, w: Work) {
    && (forall e <- w.buffer :: TakenFrom(e, rows, transform))
    && (forall f <- w.flushes :: forall e <- f.entries :: TakenFrom(e, rows, transform))
  }

  lemma {:induction false} LoopTakes(start: Work, rows: seq<Raw>, transform: Transform, fails: nat -> bool)
    requires start.buffer == [] && start.flushes == []
    ensures AllTaken(rows, transform, Loop(start, rows, transform, fails).w)
    ensures AllTaken(rows, transform, Promote(start, rows, transform, fails).w)
  {
    if rows != [] {
      var n := |rows| - 1;
      LoopTakes(start, rows[..n], transform, fails);
      var before := Loop(start, rows[..n], transform, fails);
      TakenFromMore(rows, transform, before.w);
    }
  }

  lemma TakenFromMore(rows: seq<Raw>, transform: Transform, w: Work)
    requires rows != [] && AllTaken(rows[..|rows| - 1], transform, w)
    ensures AllTaken(rows, transform, w)
    ensures AllTaken(rows, transform, Considered(w, rows[|rows| - 1], transform))
  {
    var n := |rows| - 1;
    forall e | TakenFrom(e, rows[..n], transform) ensures TakenFrom(e, rows, transform) {
      var r :| r in rows[..n] && r.id == e.rawEventId && transform(r) == Some(e.legacyId);
      assert r in rows;
    }
    assert rows[n] in rows;
  }

  lemma {:induction false} FlushApart(fs: seq<Flush>, f: Flush)
    requires Apart(fs) && f in fs
    ensures DistinctRaw(f.entries)
  {
    if f != fs[|fs| - 1] {
      FlushApart(fs[..|fs| - 1], f);
    }
  }

  /** No batch insert throws. */
  predicate Never(n: nat) { false }

  /** Two rows whose transforms give one legacy id leave the inserted row's raw event out and collect
      the other's. */
  lemma TwinsCollectTheWrongRow(a: Raw, b: Raw, transform: Transform)
    requires a.id != b.id && a.legacyId != b.legacyId && transform(a).Some? && transform(a) == transform(b)
    ensures var w := Promote(Fresh(map[], {}), [a, b], transform, Never).w;
            NewOrigins(map[], w.master) == {a.id} && w.collected == {b.id}
  {
    var k := transform(a).value;
    var es := [Entry(k, a.id), Entry(k, b.id)];
    var start := Fresh(map[], {});
    var w1 := Considered(start, a, transform);
    var w2 := Considered(w1, b, transform);
    assert [a, b][..1] == [a] && [a][..0] == [];
    assert Loop(start, [], transform, Never) == Going(start);
    assert Loop(start, [a], transform, Never) == Going(w1);
    assert Loop(start, [a, b], transform, Never) == Going(w2);
    assert w2.buffer == es;
    assert es[..1] == [Entry(k, a.id)] && es[..1][..0] == [];
    assert InsertBatch(map[], es[..1]) == map[k := a.id] && Correlation(es[..1]) == map[k := a.id];
    assert InsertBatch(map[], es) == map[k := a.id] && Correlation(es) == map[k := b.id];
    assert Collected(map[], es) == {b.id};
  }
}

/** The treasury queues of approval requests and their traversal by cursor
  (packages/approval/src/service.ts, apps/api/src/routes/approval.ts).

  A row's place is its `Key`: created_at in microseconds, then id. The key of a row never changes; rows
  are inserted, decided, executed and expire between any two page fetches. The condonation and the
  community-work queue are the same algorithm over their own rows, modelled once.
 */
module ApprovalQueue {
  import opened Common

  datatype Key = Key(createdAt: int, id: nat)

  datatype View = Actionable | All

  datatype Status = Pending | Approved | Rejected | Expired

  /** What the listing looks at; `coherent` is every check that the read model makes of the row, its
      snapshot and the joined member and requester. */
  datatype Row = Row(status: Status, used: bool, expiresAt: int, executed: bool, coherent: bool)

  type Table = map<Key, Row>

  predicate Before(a: Key, b: Key) { a.createdAt < b.createdAt || (a.createdAt == b.createdAt && a.id < b.id) }

  predicate Shows(r: Row, view: View, now: int) {
    view.All? || (r.status.Pending? && !r.used && r.expiresAt > now && !r.executed)
  }

  function Eligible(t: Table, view: View, now: int): set<Key> {
    set k | k in t && Shows(t[k], view, now)
  }

  function Below(ks: set<Key>, cursor: Option<Key>): set<Key> {
    if cursor.None? then ks else set k | k in ks && Before(k, cursor.value)
  }

  /******* ORDER BY created_at DESC, id DESC *******/

  function Greatest(ks: set<Key>): (g: Key)
    requires ks != {}
    ensures g in ks && forall k <- ks :: k != g ==> Before(k, g)
  {
    GreatestExists(ks);
    var g :| g in ks && forall k <- ks :: k != g ==> Before(k, g);
    g
  }

  lemma {:induction false} GreatestExists(ks: set<Key>)
    requires ks != {}
    ensures exists g :: g in ks && forall k <- ks :: k != g ==> Before(k, g)
  {
    var x :| x in ks;
    assert forall k <- ks :: k == x || k in ks - {x};
    if ks - {x} != {} {
      GreatestExists(ks - {x});
      var y :| y in ks - {x} && forall k <- ks - {x} :: k != y ==> Before(k, y);
      var g := if Before(x, y) then y else x;
      assert forall k <- ks :: k != g ==> Before(k, g);
    } else {
      assert forall k <- ks :: k != x ==> Before(k, x);
    }
  }

  function Descending(ks: set<Key>): seq<Key> {
    if ks == {} then [] else [Greatest(ks)] + Descending(ks - {Greatest(ks)})
  }

  predicate StrictlyDescending(s: seq<Key>) {
    forall i, j :: 0 <= i < j < |s| ==> Before(s[j], s[i])
  }

  /** The ordering is the strictly descending enumeration of the set. */
  lemma {:induction false} DescendingEnumerates(ks: set<Key>)
    ensures |Descending(ks)| == |ks| && StrictlyDescending(Descending(ks))
    ensures forall k :: k in Descending(ks) <==> k in ks
  {
    if ks != {} {
      var g, rest := Greatest(ks), ks - {Greatest(ks)};
      DescendingEnumerates(rest);
      forall i | 0 <= i < |rest| ensures Before(Descending(rest)[i], g) {
        assert Descending(rest)[i] in Descending(rest);
      }
      assert forall k :: k in ks <==> k == g || k in rest;
    }
  }

  function Take(s: seq<Key>, n: nat): seq<Key> {
    if |s| <= n then s else s[..n]
  }

  /******* One page *******/

  /** Everything the view shows below the cursor, in the queue's order. */
  function Listing(t: Table, view: View, now: int, cursor: Option<Key>): seq<Key> {
    Descending(Below(Eligible(t, view, now), cursor))
  }

  /** listCondonationQueue: at most `limit` keys in order, or None when any of them cannot be shown. */
  function ListQueue(t: Table, view: View, now: int, cursor: Option<Key>, limit: nat): Option<seq<Key>> {
    var rows := Take(Listing(t, view, now, cursor), limit);
    if exists k :: k in rows && k in t && !t[k].coherent then None else Some(rows)
  }

  datatype Page = Page(items: seq<Key>, next: Option<Key>)

  /** The route: one row more than the page, only to know whether there is a next one. */
  function QueuePage(t: Table, view: View, now: int, cursor: Option<Key>, limit: nat): Option<Page> {
    match ListQueue(t, view, now, cursor, limit + 1)
    case None => None
    case Some(rows) =>
      var page := Take(rows, limit);
      Some(Page(page, if |rows| > limit && page != [] then Some(page[|page| - 1]) else None))
  }

  /** The view would list row `k` of the table: said of its columns. */
  predicate Listable(t: Table, view: View, now: int, k: Key) {
    k in t && (view.Actionable? ==> t[k].status.Pending? && !t[k].used && now < t[k].expiresAt && !t[k].executed)
  }

  lemma ListableIff(t: Table, view: View, now: int, k: Key)
    ensures k in Eligible(t, view, now) <==> Listable(t, view, now, k)
  {
  }

  /** What one page is: the first `limit` eligible keys below the cursor, in order. It has a next cursor
      iff something eligible lies below the page, and then everything still to come lies below it. */
  lemma PageIsNextRows(t: Table, view: View, now: int, cursor: Option<Key>, limit: nat)
    requires limit >= 1 && QueuePage(t, view, now, cursor, limit).Some?
    ensures var p, left := QueuePage(t, view, now, cursor, limit).value, Below(Eligible(t, view, now), cursor);
            && p.items == Take(Descending(left), limit) && StrictlyDescending(p.items)
            && (forall k <- p.items :: k in left)
            && (p.next.Some? <==> |left| > limit)
            && (p.next.Some? ==> |p.items| == limit && p.next.value == p.items[limit - 1])
            && (forall k <- left :: k in p.items || (p.next.Some? && Before(k, p.next.value)))
  {
    hide Descending, Eligible, Below;
    var left := Below(Eligible(t, view, now), cursor);
    var d := Descending(left);
    DescendingEnumerates(left);
    var p := QueuePage(t, view, now, cursor, limit).value;
    assert p.items == Take(d, limit);
    forall k | k in left ensures k in p.items || (p.next.Some? && Before(k, p.next.value)) {
      assert k in d;
      var i :| 0 <= i < |d| && d[i] == k;
      if i < limit {
        assert p.items[i] == k;
      }
    }
    forall k | k in p.items ensures k in left {
      assert k in d;
    }
  }

  /** A page, said about the table: newest first by creation time and then by id; on the actionable view
      only pending, unused, unexpired requests that were not executed; only rows below the cursor. No such
      row is left out but those below the next cursor, which is the last row of a full page. */
  lemma PageShowsTheTable(t: Table, view: View, now: int, cursor: Option<Key>, limit: nat)
    requires limit >= 1 && QueuePage(t, view, now, cursor, limit).Some?
    ensures var p := QueuePage(t, view, now, cursor, limit).value;
            && (forall i, j :: 0 <= i < j < |p.items| ==>
                  p.items[i].createdAt > p.items[j].createdAt ||
                  (p.items[i].createdAt == p.items[j].createdAt && p.items[i].id > p.items[j].id))
            && (forall k :: k in p.items <==>
                  && k in t && (view.Actionable? ==> t[k].status.Pending? && !t[k].used && now < t[k].expiresAt && !t[k].executed)
                  && (cursor.Some? ==>
                        k.createdAt < cursor.value.createdAt ||
                        (k.createdAt == cursor.value.createdAt && k.id < cursor.value.id))
                  && (p.next.Some? ==>
                        k.createdAt > p.next.value.createdAt ||
                        (k.createdAt == p.next.value.createdAt && k.id >= p.next.value.id)))
            && |p.items| <= limit
            && (p.next.Some? ==> |p.items| == limit && p.next.value == p.items[limit - 1])
  {
    PageIsNextRows(t, view, now, cursor, limit);
    var p, left := QueuePage(t, view, now, cursor, limit).value, Below(Eligible(t, view, now), cursor);
    hide QueuePage, Descending;
    forall k | k in p.items ensures p.next.Some? ==> k == p.next.value || Before(p.next.value, k) {
      var i :| 0 <= i < |p.items| && p.items[i] == k;
      if p.next.Some? && i < limit - 1 {
        assert Before(p.items[limit - 1], p.items[i]);
      }
    }
    forall k
      ensures k in left <==>
                && k in t && (view.Actionable? ==> t[k].status.Pending? && !t[k].used && now < t[k].expiresAt && !t[k].executed)
                && (cursor.Some? ==>
                      k.createdAt < cursor.value.createdAt ||
                      (k.createdAt == cursor.value.createdAt && k.id < cursor.value.id))
    {
    }
  }

  /** Row `i` of the listing cannot be shown. */
  predicate IncoherentAt(t: Table, listing: seq<Key>, i: nat) {
    i < |listing| && listing[i] in t && !t[listing[i]].coherent
  }

  lemma RowsRefusedIff(t: Table, listing: seq<Key>, n: nat)
    ensures (exists k :: k in Take(listing, n) && k in t && !t[k].coherent) <==>
            exists i: nat :: i < n && IncoherentAt(t, listing, i)
  {
    var rows := Take(listing, n);
    forall k | k in rows && k in t && !t[k].coherent ensures exists i: nat :: i < n && IncoherentAt(t, listing, i) {
      var i: nat :| i < |rows| && rows[i] == k;
      assert IncoherentAt(t, listing, i);
    }
    forall i: nat | i < n && IncoherentAt(t, listing, i)
      ensures exists k :: k in rows && k in t && !t[k].coherent
    {
      assert rows[i] == listing[i] && listing[i] in rows;
    }
  }

  /** A page is refused exactly when one of the rows it fetches, the lookahead row included, is
      incoherent: a bad row further down does not hide the rows before it. */
  lemma PageUnavailableIff(t: Table, view: View, now: int, cursor: Option<Key>, limit: nat)
    ensures QueuePage(t, view, now, cursor, limit).None? <==>
            exists i: nat :: i < limit + 1 && IncoherentAt(t, Listing(t, view, now, cursor), i)
  {
    RowsRefusedIff(t, Listing(t, view, now, cursor), limit + 1);
  }

  lemma NewerWithOneMore(ks: set<Key>, g: Key, x: Key)
    requires g in ks && Before(x, g)
    ensures |set k | k in ks && Before(x, k)| == |set k | k in ks - {g} && Before(x, k)| + 1
  {
    var rest := set k | k in ks - {g} && Before(x, k);
    assert (set k | k in ks && Before(x, k)) == rest + {g};
  }

  lemma NothingNewer(ks: set<Key>, g: Key)
    requires forall k <- ks :: k != g ==> Before(k, g)
    ensures |set k | k in ks && Before(g, k)| == 0
  {
    assert (set k | k in ks && Before(g, k)) == {};
  }

  /** In the order of the queue a row stands behind exactly the newer rows. */
  lemma {:induction false} PlaceIsTheNumberOfNewerRows(ks: set<Key>, i: nat)
    requires i < |Descending(ks)|
    ensures |set k | k in ks && Before(Descending(ks)[i], k)| == i
  {
    var g := Greatest(ks);
    if i == 0 {
      NothingNewer(ks, g);
    } else {
      var x := Descending(ks - {g})[i - 1];
      PlaceIsTheNumberOfNewerRows(ks - {g}, i - 1);
      DescendingEnumerates(ks - {g});
      NewerWithOneMore(ks, g, x);
    }
  }

  /** Row `x` is in the queue from the cursor on, and newer than row `k`. */
  predicate QueuedBefore(t: Table, view: View, now: int, cursor: Option<Key>, x: Key, k: Key) {
    && Listable(t, view, now, x)
    && (cursor.Some? ==>
          x.createdAt < cursor.value.createdAt || (x.createdAt == cursor.value.createdAt && x.id < cursor.value.id))
    && (x.createdAt > k.createdAt || (x.createdAt == k.createdAt && x.id > k.id))
  }

  /** When the queue is unavailable, said about the table: some incoherent row that the view lists below the
      cursor has at most `limit` such rows before it, so that the page, or its lookahead, reaches it. */
  lemma PageRefusedIff(t: Table, view: View, now: int, cursor: Option<Key>, limit: nat)
    ensures QueuePage(t, view, now, cursor, limit).None? <==>
            exists k :: Listable(t, view, now, k) && !t[k].coherent &&
                        (cursor.Some? ==>
                           k.createdAt < cursor.value.createdAt ||
                           (k.createdAt == cursor.value.createdAt && k.id < cursor.value.id)) &&
                        |set x | x in t && QueuedBefore(t, view, now, cursor, x, k)| <= limit
  {
    PageUnavailableIff(t, view, now, cursor, limit);
    var left := Below(Eligible(t, view, now), cursor);
    var d := Listing(t, view, now, cursor);
    DescendingEnumerates(left);
    hide QueuePage, Descending;
    forall k | k in left
      ensures (set x | x in t && QueuedBefore(t, view, now, cursor, x, k)) == set x | x in left && Before(k, x)
    {
    }
    if i: nat :| i < limit + 1 && IncoherentAt(t, d, i) {
      PlaceIsTheNumberOfNewerRows(left, i);
      assert d[i] in d && d[i] in left;
    }
    forall k | k in left && !t[k].coherent && |set x | x in t && QueuedBefore(t, view, now, cursor, x, k)| <= limit
      ensures exists i: nat :: i < limit + 1 && IncoherentAt(t, d, i)
    {
      assert k in d;
      var i: nat :| i < |d| && d[i] == k;
      PlaceIsTheNumberOfNewerRows(left, i);
      assert IncoherentAt(t, d, i);
    }
  }

  /******* Traversal while the table changes *******/

  /** The table, the clock and the page size that one fetch meets. */
  datatype Fetch = Fetch(table: Table, now: int, limit: nat)

  datatype Walk = Walk(items: seq<Key>, cursor: Option<Key>, finished: bool)

  /** The client asks for the next page; an unavailable page gives it nothing and it may ask again. */
  function Advance(w: Walk, f: Fetch, view: View): Walk {
    if w.finished then w
    else
      match QueuePage(f.table, view, f.now, w.cursor, f.limit)
      case None => w
      case Some(p) => Walk(w.items + p.items, p.next, p.next.None?)
  }

  function Traverse(fs: seq<Fetch>, view: View): Walk {
    if fs == [] then Walk([], None, false) else Advance(Traverse(fs[..|fs| - 1], view), fs[|fs| - 1], view)
  }

  predicate PositiveLimits(fs: seq<Fetch>) { forall i :: 0 <= i < |fs| ==> fs[i].limit >= 1 }

  predicate WalkOk(w: Walk) {
    && StrictlyDescending(w.items)
    && (!w.finished && w.items != [] ==> w.cursor == Some(w.items[|w.items| - 1]))
    && (!w.finished && w.items == [] ==> w.cursor == None)
  }

  lemma DescendingJoin(a: seq<Key>, b: seq<Key>)
    requires StrictlyDescending(a) && StrictlyDescending(b)
    requires a != [] ==> forall k <- b :: Before(k, a[|a| - 1])
    ensures StrictlyDescending(a + b)
  {
    var s := a + b;
    forall i, j | 0 <= i < j < |s| ensures Before(s[j], s[i]) {
      if i < |a| <= j {
        assert b[j - |a|] in b && Before(s[j], a[|a| - 1]);
      }
    }
  }

  lemma AdvanceOk(w: Walk, f: Fetch, view: View)
    requires WalkOk(w) && f.limit >= 1
    ensures WalkOk(Advance(w, f, view))
  {
    hide WalkOk, QueuePage, Descending, Eligible, StrictlyDescending, Below, Take, Before;
    if !w.finished && QueuePage(f.table, view, f.now, w.cursor, f.limit).Some? {
      PageIsNextRows(f.table, view, f.now, w.cursor, f.limit);
      var p := QueuePage(f.table, view, f.now, w.cursor, f.limit).value;
      forall k | k in p.items ensures w.cursor.Some? ==> Before(k, w.cursor.value) {
        BelowTheCursor(Eligible(f.table, view, f.now), w.cursor, k);
      }
      PageJoins(w, p);
    }
  }

  lemma PageJoins(w: Walk, p: Page)
    requires WalkOk(w) && !w.finished && StrictlyDescending(p.items)
    requires forall k <- p.items :: w.cursor.Some? ==> Before(k, w.cursor.value)
    requires p.next.Some? ==> p.items != [] && p.next.value == p.items[|p.items| - 1]
    ensures WalkOk(Walk(w.items + p.items, p.next, p.next.None?))
  {
    hide Before, StrictlyDescending;
    DescendingJoin(w.items, p.items);
  }

  lemma BelowTheCursor(ks: set<Key>, cursor: Option<Key>, k: Key)
    requires k in Below(ks, cursor)
    ensures cursor.Some? ==> Before(k, cursor.value)
  {
  }

  /** Whatever happens to the table between fetches, the rows listed are strictly descending: no row is
      ever listed twice, and the cursor is always the last row listed. */
  lemma {:induction false} TraversalNeverRepeats(fs: seq<Fetch>, view: View)
    requires PositiveLimits(fs)
    ensures WalkOk(Traverse(fs, view))
    ensures var items := Traverse(fs, view).items;
            forall i, j :: 0 <= i < j < |items| ==>
              items[i].createdAt > items[j].createdAt ||
              (items[i].createdAt == items[j].createdAt && items[i].id > items[j].id)
  {
    if fs != [] {
      TraversalNeverRepeats(fs[..|fs| - 1], view);
      AdvanceOk(Traverse(fs[..|fs| - 1], view), fs[|fs| - 1], view);
    }
  }

  predicate EligibleThroughout(fs: seq<Fetch>, view: View, k: Key) {
    forall i :: 0 <= i < |fs| ==> k in Eligible(fs[i].table, view, fs[i].now)
  }

  /** A row eligible at every fetch is listed, or still lies below the cursor. */
  lemma {:induction false} NothingEligibleIsSkipped(fs: seq<Fetch>, view: View, k: Key)
    requires PositiveLimits(fs) && EligibleThroughout(fs, view, k)
    ensures var w := Traverse(fs, view);
            k in w.items || (!w.finished && k in Below({k}, w.cursor))
  {
    if fs != [] {
      var w, f := Traverse(fs[..|fs| - 1], view), fs[|fs| - 1];
      assert EligibleThroughout(fs[..|fs| - 1], view, k);
      NothingEligibleIsSkipped(fs[..|fs| - 1], view, k);
      if !w.finished && k !in w.items && QueuePage(f.table, view, f.now, w.cursor, f.limit).Some? {
        PageIsNextRows(f.table, view, f.now, w.cursor, f.limit);
        assert k in Below(Eligible(f.table, view, f.now), w.cursor);
      }
    }
  }

  function Occurrences(s: seq<Key>, k: Key): nat { multiset(s)[k] }

  /** A finished traversal has listed exactly once every row that the view would list at each of its fetches. */
  lemma StableRowsListedExactlyOnce(fs: seq<Fetch>, view: View, k: Key)
    requires PositiveLimits(fs) && Traverse(fs, view).finished
    requires forall i :: 0 <= i < |fs| ==> Listable(fs[i].table, view, fs[i].now, k)
    ensures multiset(Traverse(fs, view).items)[k] == 1
  {
    forall i | 0 <= i < |fs| ensures k in Eligible(fs[i].table, view, fs[i].now) {
      ListableIff(fs[i].table, view, fs[i].now, k);
    }
    NothingEligibleIsSkipped(fs, view, k);
    TraversalNeverRepeats(fs, view);
    OnceInDescending(Traverse(fs, view).items, k);
  }

  lemma {:induction false} OnceInDescending(s: seq<Key>, k: Key)
    requires StrictlyDescending(s)
    ensures Occurrences(s, k) == if k in s then 1 else 0
  {
    if s != [] {
      assert s == [s[0]] + s[1..];
      OnceInDescending(s[1..], k);
    }
  }

  /** And it has listed nothing that the view would not list at some fetch. */
  lemma {:induction false} OnlyEligibleListed(fs: seq<Fetch>, view: View, k: Key)
    requires PositiveLimits(fs) && k in Traverse(fs, view).items
    ensures exists i :: 0 <= i < |fs| && Listable(fs[i].table, view, fs[i].now, k)
  {
    if fs != [] {
      var w, f := Traverse(fs[..|fs| - 1], view), fs[|fs| - 1];
      if k in w.items {
        OnlyEligibleListed(fs[..|fs| - 1], view, k);
        var i :| 0 <= i < |fs| - 1 && Listable(fs[..|fs| - 1][i].table, view, fs[..|fs| - 1][i].now, k);
        assert Listable(fs[i].table, view, fs[i].now, k);
      } else {
        PageIsNextRows(f.table, view, f.now, w.cursor, f.limit);
        ListableIff(f.table, view, f.now, k);
        assert Listable(fs[|fs| - 1].table, view, fs[|fs| - 1].now, k);
      }
    }
  }

  /******* Traversal of a table that stays *******/

  /** Every fetch meets the same eligible rows, and all of them can be shown. */
  predicate Steady(fs: seq<Fetch>, view: View, ks: set<Key>) {
    && PositiveLimits(fs)
    && forall i :: 0 <= i < |fs| ==>
         Eligible(fs[i].table, view, fs[i].now) == ks && forall k <- ks :: k in fs[i].table && fs[i].table[k].coherent
  }

  lemma SteadyPageIsAvailable(f: Fetch, view: View, ks: set<Key>, cursor: Option<Key>)
    requires Steady([f], view, ks)
    ensures QueuePage(f.table, view, f.now, cursor, f.limit).Some?
  {
    assert [f][0] == f;
    DescendingEnumerates(Below(ks, cursor));
    var d := Descending(Below(ks, cursor));
    PageUnavailableIff(f.table, view, f.now, cursor, f.limit);
    forall i: nat | i < |d| ensures !IncoherentAt(f.table, d, i) {
      assert d[i] in d;
    }
  }

  /** An unfinished traversal of a steady table has listed at least one row per fetch, all of them in it. */
  lemma {:induction false} SteadyProgress(fs: seq<Fetch>, view: View, ks: set<Key>)
    requires Steady(fs, view, ks)
    ensures var w := Traverse(fs, view);
            (forall k <- w.items :: k in ks) && (!w.finished ==> |w.items| >= |fs|)
  {
    if fs != [] {
      var w, f := Traverse(fs[..|fs| - 1], view), fs[|fs| - 1];
      SteadyProgress(fs[..|fs| - 1], view, ks);
      SteadyPageIsAvailable(f, view, ks, w.cursor);
      PageIsNextRows(f.table, view, f.now, w.cursor, f.limit);
    }
  }

  lemma {:induction false} DescendingUnique(a: seq<Key>, b: seq<Key>)
    requires StrictlyDescending(a) && StrictlyDescending(b) && forall k :: k in a <==> k in b
    ensures a == b
  {
    assert b == [] || b[0] in b;
    if a != [] {
      assert a[0] in b && b != [] && b[0] in a;
      assert a[0] == b[0];
      forall k ensures k in a[1..] <==> k in b[1..] {
        if k in a[1..] {
          assert k in b && k != b[0];
        }
        if k in b[1..] {
          assert k in a && k != a[0];
        }
      }
      DescendingUnique(a[1..], b[1..]);
      assert a == [a[0]] + a[1..] && b == [b[0]] + b[1..];
    }
  }

  lemma DescendingSize(s: seq<Key>, ks: set<Key>)
    requires StrictlyDescending(s) && forall k <- s :: k in ks
    ensures |s| <= |ks|
    decreases |s|
  {
    if s != [] {
      assert forall k <- s[1..] :: k in s;
      DescendingSize(s[1..], ks - {s[0]});
    }
  }

  /** On a table that stays the traversal ends after at most one fetch more than there are rows, and its
      pages concatenate to the full list in descending (created_at, id) order. */
  lemma SteadyTraversalListsAll(fs: seq<Fetch>, view: View, ks: set<Key>)
    requires Steady(fs, view, ks)
    ensures |fs| > |ks| ==> Traverse(fs, view).finished
    ensures Traverse(fs, view).finished ==> Traverse(fs, view).items == Descending(ks)
  {
    var w := Traverse(fs, view);
    SteadyProgress(fs, view, ks);
    TraversalNeverRepeats(fs, view);
    DescendingSize(w.items, ks);
    if w.finished {
      forall k | k in ks ensures k in w.items {
        assert EligibleThroughout(fs, view, k);
        NothingEligibleIsSkipped(fs, view, k);
      }
      DescendingEnumerates(ks);
      DescendingUnique(w.items, Descending(ks));
    }
  }
}

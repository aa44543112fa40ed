/** The canonical form that the import hashes and the one that lineage recomputes
  (packages/import/src/hash.ts, packages/lineage/src/verify.ts).

  A record is a JSON-like value; an object is its list of own fields in enumeration order, with distinct
  keys. Both programs hash the JSON text of a form of the value; texts and hashes are taken to be
  injective, so that equal hashes mean equal forms. Keys are compared by their code units, and keys that
  look like array indices, which JavaScript enumerates first, are not modelled.
 */
module CanonicalJson {

  datatype Value =
    | Null
    | Undefined
    | Scalar(text: string)
    | Text(s: string)
    | Date(iso: string)
    | Array(items: seq<Value>)
    | Object(fields: seq<Field>)

  datatype Field = Field(key: string, value: Value)

  const LEGACY_KEY: string := "legacyKey"

  predicate Nullish(v: Value) { v.Null? || v.Undefined? }

  /** Fields that the canonical form keeps. */
  predicate Kept(f: Field) { f.key != LEGACY_KEY && !Nullish(f.value) }

  /******* Ordering of keys *******/

  predicate Before(a: string, b: string) {
    if b == "" then false
    else if a == "" then true
    else a[0] < b[0] || (a[0] == b[0] && Before(a[1..], b[1..]))
  }

  lemma {:induction false} BeforeIsTotal(a: string, b: string)
    ensures Before(a, b) || a == b || Before(b, a)
    ensures !(Before(a, b) && Before(b, a)) && !(Before(a, b) && a == b)
  {
    if a != "" && b != "" {
      BeforeIsTotal(a[1..], b[1..]);
      if a[0] == b[0] {
        assert a == [a[0]] + a[1..] && b == [b[0]] + b[1..];
      }
    }
  }

  lemma {:induction false} BeforeIsTransitive(a: string, b: string, c: string)
    requires Before(a, b) && Before(b, c)
    ensures Before(a, c)
  {
    if a != "" && a[0] == b[0] == c[0] {
      BeforeIsTransitive(a[1..], b[1..], c[1..]);
    }
  }

  function Insert(f: Field, fs: seq<Field>): seq<Field> {
    if fs == [] || !Before(fs[0].key, f.key) then [f] + fs else [fs[0]] + Insert(f, fs[1..])
  }

  function Sort(fs: seq<Field>): seq<Field> {
    if fs == [] then [] else Insert(fs[0], Sort(fs[1..]))
  }

  predicate StrictlySorted(fs: seq<Field>) {
    forall i, j :: 0 <= i < j < |fs| ==> Before(fs[i].key, fs[j].key)
  }

  predicate DistinctKeys(fs: seq<Field>) {
    forall i, j :: 0 <= i < j < |fs| ==> fs[i].key != fs[j].key
  }

  lemma {:induction false} InsertMembers(f: Field, fs: seq<Field>)
    ensures forall g :: g in Insert(f, fs) <==> g == f || g in fs
  {
    if fs != [] && Before(fs[0].key, f.key) {
      InsertMembers(f, fs[1..]);
      assert fs == [fs[0]] + fs[1..];
    }
  }

  lemma ConsSorted(f: Field, fs: seq<Field>)
    requires StrictlySorted(fs) && forall g <- fs :: Before(f.key, g.key)
    ensures StrictlySorted([f] + fs)
  {
  }

  lemma {:induction false} InsertSorts(f: Field, fs: seq<Field>)
    requires StrictlySorted(fs) && forall g <- fs :: g.key != f.key
    ensures StrictlySorted(Insert(f, fs))
  {
    if fs == [] {
    } else {
      BeforeIsTotal(fs[0].key, f.key);
      if Before(fs[0].key, f.key) {
        InsertSorts(f, fs[1..]);
        InsertMembers(f, fs[1..]);
        ConsSorted(fs[0], Insert(f, fs[1..]));
      } else {
        assert fs[0] in fs;
        forall g | g in fs ensures Before(f.key, g.key) {
          var i :| 0 <= i < |fs| && fs[i] == g;
          if i > 0 {
            BeforeIsTransitive(f.key, fs[0].key, g.key);
          }
        }
        ConsSorted(f, fs);
      }
    }
  }

  lemma {:induction false} SortSorts(fs: seq<Field>)
    requires DistinctKeys(fs)
    ensures StrictlySorted(Sort(fs)) && forall g :: g in Sort(fs) <==> g in fs
  {
    if fs != [] {
      SortSorts(fs[1..]);
      InsertMembers(fs[0], Sort(fs[1..]));
      forall g | g in Sort(fs[1..]) ensures g.key != fs[0].key {
        var i :| 0 <= i < |fs[1..]| && fs[1..][i] == g;
        assert fs[i + 1] == g;
      }
      InsertSorts(fs[0], Sort(fs[1..]));
      assert fs == [fs[0]] + fs[1..];
    }
  }

  /** The order of keys is by code units: at the first difference the smaller unit, or the end, comes first. */
  lemma {:induction false} BeforeIsByCodeUnits(a: string, b: string)
    ensures Before(a, b) <==>
            exists n: nat :: n <= |a| && n < |b| && a[..n] == b[..n] && (n == |a| || a[n] < b[n])
  {
    if a != "" && b != "" && a[0] == b[0] {
      BeforeIsByCodeUnits(a[1..], b[1..]);
      if n: nat :| n <= |a[1..]| && n < |b[1..]| && a[1..][..n] == b[1..][..n] && (n == |a[1..]| || a[1..][n] < b[1..][n]) {
        assert a[..n + 1] == [a[0]] + a[1..][..n] && b[..n + 1] == [b[0]] + b[1..][..n];
      }
      if n: nat :| n <= |a| && n < |b| && a[..n] == b[..n] && (n == |a| || a[n] < b[n]) {
        assert n > 0;
        assert a[1..][..n - 1] == a[..n][1..] && b[1..][..n - 1] == b[..n][1..];
      }
    } else if a != "" && b != "" {
      forall n: nat | 0 < n <= |a| && n < |b| ensures a[..n] != b[..n] {
        assert a[..n][0] == a[0] && b[..n][0] == b[0];
      }
      assert a[0] < b[0] ==> a[..0] == b[..0];
    } else if b != "" {
      assert a[..0] == b[..0];
    }
  }

  /** A strictly sorted list is determined by its members. */
  lemma {:induction false} SortedUnique(a: seq<Field>, b: seq<Field>)
    requires StrictlySorted(a) && StrictlySorted(b) && forall g :: g in a <==> g in b
    ensures a == b
  {
    assert b == [] || b[0] in b;
    if a != [] {
      assert a[0] in b && b != [] && b[0] in a;
      BeforeIsTotal(a[0].key, b[0].key);
      assert a[0] == b[0];
      forall g ensures g in a[1..] <==> g in b[1..] {
        BeforeIsTotal(a[0].key, a[0].key);
        if g in a[1..] {
          assert g in b && g != b[0];
        }
        if g in b[1..] {
          assert g in a && g != a[0];
        }
      }
      SortedUnique(a[1..], b[1..]);
      assert a == [a[0]] + a[1..] && b == [b[0]] + b[1..];
    }
  }

  /******* The import's form *******/

  function Canon(v: Value): Value
    decreases v, 0
  {
    match v
    case Null => Null
    case Undefined => Null
    case Date(iso) => Text(iso)
    case Array(items) => Array(CanonItems(items))
    case Object(fields) => Object(Sort(CanonFields(fields)))
    case _ => v
  }

  function CanonItems(items: seq<Value>): seq<Value>
    decreases items, 1
  {
    if items == [] then [] else [Canon(items[0])] + CanonItems(items[1..])
  }

  function CanonFields(fs: seq<Field>): seq<Field>
    decreases fs, 1
  {
    if fs == [] then []
    else (if Kept(fs[0]) then [Field(fs[0].key, Canon(fs[0].value))] else []) + CanonFields(fs[1..])
  }

  /** JavaScript objects have distinct keys, at every level. */
  predicate WellFormed(v: Value)
    decreases v
  {
    match v
    case Array(items) => forall i :: 0 <= i < |items| ==> WellFormed(items[i])
    case Object(fs) => DistinctKeys(fs) && forall i :: 0 <= i < |fs| ==> WellFormed(fs[i].value)
    case _ => true
  }

  lemma {:induction false} CanonItemsAt(items: seq<Value>, i: nat)
    ensures |CanonItems(items)| == |items|
    ensures i < |items| ==> CanonItems(items)[i] == Canon(items[i])
  {
    if items != [] {
      CanonItemsAt(items[1..], if i > 0 then i - 1 else 0);
    }
  }

  /** The kept fields with canonical values, no more and no less. */
  lemma {:induction false} CanonFieldsAre(fs: seq<Field>, g: Field)
    ensures g in CanonFields(fs) <==> exists i :: 0 <= i < |fs| && Kept(fs[i]) && g == Field(fs[i].key, Canon(fs[i].value))
  {
    if fs != [] {
      CanonFieldsAre(fs[1..], g);
      if g in CanonFields(fs[1..]) {
        var i :| 0 <= i < |fs[1..]| && Kept(fs[1..][i]) && g == Field(fs[1..][i].key, Canon(fs[1..][i].value));
        assert fs[i + 1] == fs[1..][i];
      }
      if i :| 0 <= i < |fs| && Kept(fs[i]) && g == Field(fs[i].key, Canon(fs[i].value)) {
        if i > 0 {
          assert fs[1..][i - 1] == fs[i];
        }
      }
    }
  }

  /** What the import hashes of an object: its fields in the order of their keys, without legacyKey and
      without those that are null or undefined, each with its canonical value; of an array every item, where
      an undefined one reads as null; of a date its ISO text. */
  lemma CanonMeans(v: Value)
    requires WellFormed(v)
    ensures match v
            case Object(fs) =>
              && Canon(v).Object? && var out := Canon(v).fields;
              && (forall i, j :: 0 <= i < j < |out| ==> Before(out[i].key, out[j].key))
              && (forall g :: g in out <==>
                    exists i :: 0 <= i < |fs| && fs[i].key != "legacyKey" && !fs[i].value.Null? && !fs[i].value.Undefined? &&
                                g == Field(fs[i].key, Canon(fs[i].value)))
            case Array(items) =>
              Canon(v).Array? && |Canon(v).items| == |items| &&
              forall i :: 0 <= i < |items| ==> Canon(v).items[i] == Canon(items[i])
            case Undefined => Canon(v) == Null
            case Date(iso) => Canon(v) == Text(iso)
            case _ => Canon(v) == v
  {
    match v
    case Object(fs) =>
      CanonFieldsDistinct(fs);
      SortSorts(CanonFields(fs));
      forall g ensures g in CanonFields(fs) <==>
                  exists i :: 0 <= i < |fs| && Kept(fs[i]) && g == Field(fs[i].key, Canon(fs[i].value))
      {
        CanonFieldsAre(fs, g);
      }
    case Array(items) =>
      forall i: nat | i < |items| ensures |CanonItems(items)| == |items| && CanonItems(items)[i] == Canon(items[i]) {
        CanonItemsAt(items, i);
      }
      CanonItemsAt(items, 0);
    case _ =>
  }

  lemma {:induction false} CanonFieldsDistinct(fs: seq<Field>)
    requires DistinctKeys(fs)
    ensures DistinctKeys(CanonFields(fs))
  {
    if fs != [] {
      CanonFieldsDistinct(fs[1..]);
      forall g | g in CanonFields(fs[1..]) ensures g.key != fs[0].key {
        CanonFieldsAre(fs[1..], g);
        var i :| 0 <= i < |fs[1..]| && Kept(fs[1..][i]) && g == Field(fs[1..][i].key, Canon(fs[1..][i].value));
        assert fs[i + 1].key != fs[0].key;
      }
    }
  }

  /** The fields of a canonical object: strictly sorted, one for each kept field. */
  lemma CanonObject(fs: seq<Field>)
    requires DistinctKeys(fs)
    ensures StrictlySorted(Sort(CanonFields(fs)))
    ensures forall g :: g in Sort(CanonFields(fs)) <==>
              exists i :: 0 <= i < |fs| && Kept(fs[i]) && g == Field(fs[i].key, Canon(fs[i].value))
  {
    CanonFieldsDistinct(fs);
    SortSorts(CanonFields(fs));
    forall g ensures g in CanonFields(fs) <==>
                exists i :: 0 <= i < |fs| && Kept(fs[i]) && g == Field(fs[i].key, Canon(fs[i].value))
    {
      CanonFieldsAre(fs, g);
    }
  }

  /******* Values that are already in canonical form *******/

  predicate IsCanonical(v: Value)
    decreases v
  {
    match v
    case Undefined => false
    case Date(_) => false
    case Array(items) => forall i :: 0 <= i < |items| ==> IsCanonical(items[i])
    case Object(fs) =>
      StrictlySorted(fs) && forall i :: 0 <= i < |fs| ==> Kept(fs[i]) && IsCanonical(fs[i].value)
    case _ => true
  }

  lemma SortedIsDistinct(fs: seq<Field>)
    requires StrictlySorted(fs)
    ensures DistinctKeys(fs)
  {
    forall i, j | 0 <= i < j < |fs| ensures fs[i].key != fs[j].key {
      BeforeIsTotal(fs[i].key, fs[j].key);
    }
  }

  lemma CanonNotNullish(v: Value)
    ensures Nullish(Canon(v)) <==> Nullish(v)
  {
  }

  lemma {:induction false} CanonIsCanonical(v: Value)
    requires WellFormed(v)
    ensures IsCanonical(Canon(v)) && WellFormed(Canon(v))
    decreases v
  {
    match v
    case Array(items) =>
      CanonItemsAt(items, 0);
      forall i | 0 <= i < |items| ensures IsCanonical(CanonItems(items)[i]) && WellFormed(CanonItems(items)[i]) {
        CanonItemsAt(items, i);
        CanonIsCanonical(items[i]);
      }
    case Object(fs) =>
      CanonObject(fs);
      var gs := Sort(CanonFields(fs));
      forall j | 0 <= j < |gs| ensures Kept(gs[j]) && IsCanonical(gs[j].value) && WellFormed(gs[j].value) {
        assert gs[j] in gs;
        var i :| 0 <= i < |fs| && Kept(fs[i]) && gs[j] == Field(fs[i].key, Canon(fs[i].value));
        CanonIsCanonical(fs[i].value);
        CanonNotNullish(fs[i].value);
      }
      SortedIsDistinct(gs);
    case _ =>
  }

  lemma {:induction false} CanonicalIsFixed(v: Value)
    requires IsCanonical(v)
    ensures Canon(v) == v
    decreases v
  {
    match v
    case Array(items) =>
      CanonItemsAt(items, 0);
      forall i | 0 <= i < |items| ensures CanonItems(items)[i] == items[i] {
        CanonItemsAt(items, i);
        CanonicalIsFixed(items[i]);
      }
      assert CanonItems(items) == items;
    case Object(fs) =>
      SortedIsDistinct(fs);
      CanonObject(fs);
      var gs := Sort(CanonFields(fs));
      forall i | 0 <= i < |fs| ensures Canon(fs[i].value) == fs[i].value {
        CanonicalIsFixed(fs[i].value);
      }
      forall g ensures g in gs <==> g in fs {
        if g in fs {
          var i :| 0 <= i < |fs| && fs[i] == g;
          assert Kept(fs[i]) && g == Field(fs[i].key, Canon(fs[i].value));
        }
      }
      SortedUnique(gs, fs);
    case _ =>
  }

  /** Canonicalizing twice changes nothing more, and the canonical values are exactly its results. */
  lemma Idempotent(v: Value)
    requires WellFormed(v)
    ensures Canon(Canon(v)) == Canon(v)
    ensures Canon(v) == v <==> IsCanonical(v)
  {
    CanonIsCanonical(v);
    CanonicalIsFixed(Canon(v));
    if IsCanonical(v) {
      CanonicalIsFixed(v);
    }
  }

  /******* What the form identifies *******/

  predicate HasKept(fs: seq<Field>, k: string) {
    exists i :: 0 <= i < |fs| && fs[i].key == k && Kept(fs[i])
  }

  function PlaceOf(fs: seq<Field>, k: string): (i: nat)
    requires HasKept(fs, k)
    ensures i < |fs| && fs[i].key == k && Kept(fs[i])
  {
    if fs[0].key == k && Kept(fs[0]) then 0
    else
      var i :| 0 <= i < |fs| && fs[i].key == k && Kept(fs[i]);
      assert fs[1..][i - 1] == fs[i];
      PlaceOf(fs[1..], k) + 1
  }

  lemma PlaceIsUnique(fs: seq<Field>, i: nat)
    requires DistinctKeys(fs) && i < |fs| && Kept(fs[i])
    ensures HasKept(fs, fs[i].key) && PlaceOf(fs, fs[i].key) == i
  {
    assert HasKept(fs, fs[i].key);
    KeyFixesPlace(fs, i, PlaceOf(fs, fs[i].key));
  }

  lemma KeyFixesPlace(fs: seq<Field>, i: nat, j: nat)
    requires DistinctKeys(fs) && i < |fs| && j < |fs| && fs[i].key == fs[j].key
    ensures i == j
  {
  }

  /** Equal up to key order, dropped null, undefined and legacyKey fields, and dates as their ISO text. */
  predicate Equivalent(a: Value, b: Value)
    decreases a
  {
    match a
    case Null => Nullish(b)
    case Undefined => Nullish(b)
    case Scalar(_) => b == a
    case Text(s) => b == Text(s) || b == Date(s)
    case Date(iso) => b == Text(iso) || b == Date(iso)
    case Array(items) =>
      b.Array? && |b.items| == |items| && forall i :: 0 <= i < |items| ==> Equivalent(items[i], b.items[i])
    case Object(fs) =>
      && b.Object?
      && (forall i :: 0 <= i < |fs| && Kept(fs[i]) ==> SameField(fs[i], b.fields))
      && (forall j :: 0 <= j < |b.fields| && Kept(b.fields[j]) ==> HasKept(fs, b.fields[j].key))
  }

  predicate SameField(f: Field, fs: seq<Field>)
    decreases f
  {
    HasKept(fs, f.key) && Equivalent(f.value, fs[PlaceOf(fs, f.key)].value)
  }

  /** The canonical form identifies two values iff they are equivalent. */
  lemma {:induction false} CanonEqualIffEquivalent(a: Value, b: Value)
    requires WellFormed(a) && WellFormed(b)
    ensures Canon(a) == Canon(b) <==> Equivalent(a, b)
    decreases a
  {
    match a
    case Array(items) =>
      if b.Array? {
        CanonItemsAt(items, 0);
        CanonItemsAt(b.items, 0);
        if |items| == |b.items| {
          forall i | 0 <= i < |items|
            ensures CanonItems(items)[i] == CanonItems(b.items)[i] <==> Equivalent(items[i], b.items[i])
          {
            CanonItemsAt(items, i);
            CanonItemsAt(b.items, i);
            CanonEqualIffEquivalent(items[i], b.items[i]);
          }
        }
      }
    case Object(fs) =>
      if b.Object? {
        forall i, j | 0 <= i < |fs| && 0 <= j < |b.fields|
          ensures Canon(fs[i].value) == Canon(b.fields[j].value) <==> Equivalent(fs[i].value, b.fields[j].value)
        {
          CanonEqualIffEquivalent(fs[i].value, b.fields[j].value);
        }
        ObjectsEqualIff(fs, b.fields);
      }
    case _ =>
  }

  lemma ObjectsEqualIff(fs: seq<Field>, gs: seq<Field>)
    requires DistinctKeys(fs) && DistinctKeys(gs)
    requires forall i, j :: 0 <= i < |fs| && 0 <= j < |gs| ==>
               (Canon(fs[i].value) == Canon(gs[j].value) <==> Equivalent(fs[i].value, gs[j].value))
    ensures Canon(Object(fs)) == Canon(Object(gs)) <==> Equivalent(Object(fs), Object(gs))
  {
    CanonObject(fs);
    CanonObject(gs);
    if Equivalent(Object(fs), Object(gs)) {
      EquivalentObjects(fs, gs);
    }
    if Canon(Object(fs)) == Canon(Object(gs)) {
      EqualObjects(fs, gs);
    }
  }

  lemma EquivalentObjects(fs: seq<Field>, gs: seq<Field>)
    requires DistinctKeys(fs) && DistinctKeys(gs) && Equivalent(Object(fs), Object(gs))
    requires forall i, j :: 0 <= i < |fs| && 0 <= j < |gs| ==>
               (Canon(fs[i].value) == Canon(gs[j].value) <==> Equivalent(fs[i].value, gs[j].value))
    ensures Sort(CanonFields(fs)) == Sort(CanonFields(gs))
  {
    CanonObject(fs);
    CanonObject(gs);
    var a, b := Sort(CanonFields(fs)), Sort(CanonFields(gs));
    forall g ensures g in a <==> g in b {
      if g in a {
        var i :| 0 <= i < |fs| && Kept(fs[i]) && g == Field(fs[i].key, Canon(fs[i].value));
        assert SameField(fs[i], gs);
        var j := PlaceOf(gs, fs[i].key);
        assert Kept(gs[j]) && g == Field(gs[j].key, Canon(gs[j].value));
      }
      if g in b {
        var j :| 0 <= j < |gs| && Kept(gs[j]) && g == Field(gs[j].key, Canon(gs[j].value));
        var i := PlaceOf(fs, gs[j].key);
        assert SameField(fs[i], gs);
        PlaceIsUnique(gs, j);
        assert Kept(fs[i]) && g == Field(fs[i].key, Canon(fs[i].value));
      }
    }
    SortedUnique(a, b);
  }

  lemma EqualObjects(fs: seq<Field>, gs: seq<Field>)
    requires DistinctKeys(fs) && DistinctKeys(gs) && Sort(CanonFields(fs)) == Sort(CanonFields(gs))
    requires forall i, j :: 0 <= i < |fs| && 0 <= j < |gs| ==>
               (Canon(fs[i].value) == Canon(gs[j].value) <==> Equivalent(fs[i].value, gs[j].value))
    ensures Equivalent(Object(fs), Object(gs))
  {
    CanonObject(fs);
    CanonObject(gs);
    var a := Sort(CanonFields(fs));
    forall i | 0 <= i < |fs| && Kept(fs[i]) ensures SameField(fs[i], gs) {
      var g := Field(fs[i].key, Canon(fs[i].value));
      assert g in a;
      var j :| 0 <= j < |gs| && Kept(gs[j]) && g == Field(gs[j].key, Canon(gs[j].value));
      PlaceIsUnique(gs, j);
    }
    forall j | 0 <= j < |gs| && Kept(gs[j]) ensures HasKept(fs, gs[j].key) {
      var g := Field(gs[j].key, Canon(gs[j].value));
      assert g in a;
      var i :| 0 <= i < |fs| && Kept(fs[i]) && g == Field(fs[i].key, Canon(fs[i].value));
    }
  }

  /******* Lineage's form *******/

  /** sortObjectKeys, called on the values that are plain objects; arrays stay as they are. */
  function Lineage(v: Value): Value
    decreases v, 0
  {
    match v
    case Object(fs) => Object(Sort(LineageFields(fs)))
    case Date(_) => Object([])
    case _ => v
  }

  function LineageFields(fs: seq<Field>): seq<Field>
    decreases fs, 1
  {
    if fs == [] then [] else [Field(fs[0].key, Lineage(fs[0].value))] + LineageFields(fs[1..])
  }

  /** A value read back from a jsonb column: no undefined, no date, at any depth. */
  predicate Stored(v: Value)
    decreases v
  {
    match v
    case Undefined => false
    case Date(_) => false
    case Array(items) => forall i :: 0 <= i < |items| ==> Stored(items[i])
    case Object(fs) => forall i :: 0 <= i < |fs| ==> Stored(fs[i].value)
    case _ => true
  }

  /** No null and no legacyKey field in any object reached through objects, and every array reached that
      way already in canonical form. */
  predicate Plain(v: Value)
    decreases v
  {
    match v
    case Object(fs) => forall i :: 0 <= i < |fs| ==> Kept(fs[i]) && Plain(fs[i].value)
    case Array(items) => forall i :: 0 <= i < |items| ==> IsCanonical(items[i])
    case _ => true
  }

  lemma {:induction false} LineageFieldsAre(fs: seq<Field>, g: Field)
    ensures g in LineageFields(fs) <==> exists i :: 0 <= i < |fs| && g == Field(fs[i].key, Lineage(fs[i].value))
  {
    if fs != [] {
      LineageFieldsAre(fs[1..], g);
      if g in LineageFields(fs[1..]) {
        var i :| 0 <= i < |fs[1..]| && g == Field(fs[1..][i].key, Lineage(fs[1..][i].value));
        assert fs[i + 1] == fs[1..][i];
      }
      if i :| 0 <= i < |fs| && g == Field(fs[i].key, Lineage(fs[i].value)) {
        if i > 0 {
          assert fs[1..][i - 1] == fs[i];
        }
      }
    }
  }

  lemma {:induction false} LineageFieldsDistinct(fs: seq<Field>)
    requires DistinctKeys(fs)
    ensures DistinctKeys(LineageFields(fs))
  {
    if fs != [] {
      LineageFieldsDistinct(fs[1..]);
      forall g | g in LineageFields(fs[1..]) ensures g.key != fs[0].key {
        LineageFieldsAre(fs[1..], g);
        var i :| 0 <= i < |fs[1..]| && g == Field(fs[1..][i].key, Lineage(fs[1..][i].value));
        assert fs[i + 1].key != fs[0].key;
      }
    }
  }

  lemma LineageObject(fs: seq<Field>)
    requires DistinctKeys(fs)
    ensures StrictlySorted(Sort(LineageFields(fs)))
    ensures forall g :: g in Sort(LineageFields(fs)) <==>
              exists i :: 0 <= i < |fs| && g == Field(fs[i].key, Lineage(fs[i].value))
  {
    LineageFieldsDistinct(fs);
    SortSorts(LineageFields(fs));
    forall g ensures g in LineageFields(fs) <==>
                exists i :: 0 <= i < |fs| && g == Field(fs[i].key, Lineage(fs[i].value))
    {
      LineageFieldsAre(fs, g);
    }
  }

  /** What lineage hashes of a stored value: of an object all its fields in the order of their keys, of
      anything else the value itself. */
  lemma LineageMeans(v: Value)
    requires WellFormed(v) && Stored(v)
    ensures v.Object? ==>
              && Lineage(v).Object? && var out := Lineage(v).fields;
              && (forall i, j :: 0 <= i < j < |out| ==> Before(out[i].key, out[j].key))
              && forall g :: g in out <==>
                   exists i :: 0 <= i < |v.fields| && g == Field(v.fields[i].key, Lineage(v.fields[i].value))
    ensures !v.Object? ==> Lineage(v) == v
  {
    if v.Object? {
      LineageObject(v.fields);
    }
  }

  /** On stored values the two forms agree exactly on the plain ones. */
  lemma {:induction false} FormsAgreeIffPlain(v: Value)
    requires WellFormed(v) && Stored(v)
    ensures Lineage(v) == Canon(v) <==> Plain(v)
    decreases v
  {
    match v
    case Object(fs) =>
      forall i | 0 <= i < |fs| ensures Lineage(fs[i].value) == Canon(fs[i].value) <==> Plain(fs[i].value) {
        FormsAgreeIffPlain(fs[i].value);
      }
      ObjectFormsAgreeIff(fs);
    case Array(_) => Idempotent(v);
    case _ =>
  }

  lemma ObjectFormsAgreeIff(fs: seq<Field>)
    requires DistinctKeys(fs)
    requires forall i :: 0 <= i < |fs| ==> (Lineage(fs[i].value) == Canon(fs[i].value) <==> Plain(fs[i].value))
    ensures Sort(LineageFields(fs)) == Sort(CanonFields(fs)) <==> Plain(Object(fs))
  {
    hide Sort, LineageFields, CanonFields, StrictlySorted, Kept;
    LineageObject(fs);
    CanonObject(fs);
    var a, b := Sort(LineageFields(fs)), Sort(CanonFields(fs));
    if a == b {
      forall i | 0 <= i < |fs| ensures Kept(fs[i]) && Plain(fs[i].value) {
        var g := Field(fs[i].key, Lineage(fs[i].value));
        assert g in a;
        var j :| 0 <= j < |fs| && Kept(fs[j]) && g == Field(fs[j].key, Canon(fs[j].value));
        KeyFixesPlace(fs, i, j);
      }
    }
    if Plain(Object(fs)) {
      PlainObjectForms(fs);
    }
  }

  lemma PlainObjectForms(fs: seq<Field>)
    requires DistinctKeys(fs)
    requires forall i :: 0 <= i < |fs| ==> Kept(fs[i]) && Lineage(fs[i].value) == Canon(fs[i].value)
    ensures Sort(LineageFields(fs)) == Sort(CanonFields(fs))
  {
    LineageObject(fs);
    CanonObject(fs);
    var a, b := Sort(LineageFields(fs)), Sort(CanonFields(fs));
    forall g ensures g in a <==> g in b {
      if g in a {
        var i :| 0 <= i < |fs| && g == Field(fs[i].key, Lineage(fs[i].value));
        assert Kept(fs[i]) && g == Field(fs[i].key, Canon(fs[i].value));
      }
      if g in b {
        var i :| 0 <= i < |fs| && Kept(fs[i]) && g == Field(fs[i].key, Canon(fs[i].value));
        assert g == Field(fs[i].key, Lineage(fs[i].value));
      }
    }
    SortedUnique(a, b);
  }

  /** When verifyHash reports a match for a row whose payload was stored as imported: storing drops
      undefined fields, writes dates as ISO text and may reorder keys, which the import's form does not
      see; lineage recomputes the import's hash iff the stored payload is plain. */
  lemma VerifyHashMatchesIff(payload: Value, stored: Value)
    requires WellFormed(payload) && WellFormed(stored) && Stored(stored) && Equivalent(payload, stored)
    ensures Lineage(stored) == Canon(payload) <==> Plain(stored)
  {
    CanonEqualIffEquivalent(payload, stored);
    FormsAgreeIffPlain(stored);
  }

  /** No object inside an array. */
  predicate Flat(v: Value)
    decreases v
  {
    match v
    case Object(_) => false
    case Array(items) => forall i :: 0 <= i < |items| ==> Flat(items[i])
    case _ => true
  }

  /** Without nulls, legacyKey or objects nested in arrays. */
  predicate Simple(v: Value)
    decreases v
  {
    match v
    case Object(fs) => forall i :: 0 <= i < |fs| ==> Kept(fs[i]) && Simple(fs[i].value)
    case Array(items) => forall i :: 0 <= i < |items| ==> Flat(items[i])
    case _ => true
  }

  lemma {:induction false} FlatIsCanonical(v: Value)
    requires Flat(v) && Stored(v)
    ensures IsCanonical(v)
    decreases v
  {
    if v.Array? {
      forall i | 0 <= i < |v.items| ensures IsCanonical(v.items[i]) {
        FlatIsCanonical(v.items[i]);
      }
    }
  }

  lemma {:induction false} SimpleIsPlain(v: Value)
    requires Simple(v) && Stored(v)
    ensures Plain(v)
    decreases v
  {
    match v
    case Object(fs) =>
      forall i | 0 <= i < |fs| ensures Plain(fs[i].value) {
        SimpleIsPlain(fs[i].value);
      }
    case Array(items) =>
      forall i | 0 <= i < |items| ensures IsCanonical(items[i]) {
        FlatIsCanonical(items[i]);
      }
    case _ =>
  }

  /** The payloads on which the two are documented to agree, and do. */
  lemma SimplePayloadsVerify(payload: Value, stored: Value)
    requires WellFormed(payload) && WellFormed(stored) && Stored(stored) && Equivalent(payload, stored) && Simple(stored)
    ensures Lineage(stored) == Canon(payload)
  {
    SimpleIsPlain(stored);
    VerifyHashMatchesIff(payload, stored);
  }

  /** A null in any field of an object, or a field called legacyKey, is enough for verifyHash to report a
      mismatch on an untouched row, whatever the other fields hold. */
  lemma NullColumnNeverVerifies(payload: Value, stored: Value, i: nat)
    requires WellFormed(payload) && WellFormed(stored) && Stored(stored) && Equivalent(payload, stored)
    requires stored.Object? && i < |stored.fields| && !Kept(stored.fields[i])
    ensures Lineage(stored) != Canon(payload)
  {
    VerifyHashMatchesIff(payload, stored);
  }

  /******* canonicalize with its loops *******/

  /** The keys that Object.keys, filter and sort leave, with their values. */
  function KeptSorted(fs: seq<Field>): seq<Field> {
    Sort(KeptOf(fs))
  }

  function KeptOf(fs: seq<Field>): seq<Field> {
    if fs == [] then [] else (if Kept(fs[0]) then [fs[0]] else []) + KeptOf(fs[1..])
  }

  lemma {:induction false} KeptOfAre(fs: seq<Field>)
    requires DistinctKeys(fs)
    ensures forall g :: g in KeptOf(fs) <==> g in fs && Kept(g)
    ensures DistinctKeys(KeptOf(fs))
  {
    if fs != [] {
      KeptOfAre(fs[1..]);
      assert fs == [fs[0]] + fs[1..];
      forall g | g in KeptOf(fs[1..]) ensures g.key != fs[0].key {
        var i :| 0 <= i < |fs[1..]| && fs[1..][i] == g;
        assert fs[i + 1].key != fs[0].key;
      }
    }
  }

  /** Canonicalizing the kept fields in key order gives the sorted canonical fields. */
  lemma SortThenCanon(fs: seq<Field>, out: seq<Field>)
    requires DistinctKeys(fs) && |out| == |KeptSorted(fs)|
    requires forall i :: 0 <= i < |out| ==> out[i] == Field(KeptSorted(fs)[i].key, Canon(KeptSorted(fs)[i].value))
    ensures out == Sort(CanonFields(fs))
  {
    KeptOfAre(fs);
    SortSorts(KeptOf(fs));
    CanonObject(fs);
    var gs := KeptSorted(fs);
    forall g ensures g in out <==> g in Sort(CanonFields(fs)) {
      if g in out {
        var i :| 0 <= i < |out| && out[i] == g;
        assert gs[i] in gs && gs[i] in fs && Kept(gs[i]);
        var j :| 0 <= j < |fs| && fs[j] == gs[i];
      }
      if g in Sort(CanonFields(fs)) {
        var j :| 0 <= j < |fs| && Kept(fs[j]) && g == Field(fs[j].key, Canon(fs[j].value));
        assert fs[j] in gs;
        var i :| 0 <= i < |gs| && gs[i] == fs[j];
        assert out[i] == g;
      }
    }
    SortedUnique(out, Sort(CanonFields(fs)));
  }

  method Canonicalize(v: Value) returns (r: Value)
    requires WellFormed(v)
    ensures r == Canon(v)
    decreases v
  {
    match v {
      case Null => return Null;
      case Undefined => return Null;
      case Date(iso) => return Text(iso);
      case Array(items) =>
        var mapped: seq<Value> := [];
        for i := 0 to |items|
          invariant |mapped| == i && forall k :: 0 <= k < i ==> mapped[k] == Canon(items[k])
        {
          var item := Canonicalize(items[i]);
          mapped := mapped + [item];
        }
        CanonItemsAt(items, 0);
        forall k | 0 <= k < |items| ensures mapped[k] == CanonItems(items)[k] {
          CanonItemsAt(items, k);
        }
        assert mapped == CanonItems(items);
        return Array(mapped);
      case Object(fields) =>
        var keys := KeptSorted(fields);
        KeptOfAre(fields);
        SortSorts(KeptOf(fields));
        var out: seq<Field> := [];
        for i := 0 to |keys|
          invariant |out| == i && forall k :: 0 <= k < i ==> out[k] == Field(keys[k].key, Canon(keys[k].value))
        {
          assert keys[i] in keys && keys[i] in fields;
          var value := Canonicalize(keys[i].value);
          out := out + [Field(keys[i].key, value)];
        }
        SortThenCanon(fields, out);
        return Object(out);
      case _ => return v;
    }
  }
}

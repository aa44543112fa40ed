/** The legacy id of a ctacte or ctacte1 row, computed twice from its payload: by migration 0018 in SQL for
  raw_events.legacy_id, and by the transform in JavaScript for the master row
  (packages/db/drizzle/0018_raw_events_legacy_id_backfill.sql, packages/promotion/src/transforms).

  Both hash a text with the same function, so an id is modelled by the text that is hashed. A number is
  its shortest decimal digits and the place of its point: 0.d1d2... times ten to the `point`. That is what
  JSON.stringify writes and Number::toString prints (ECMA-262, section 6.1.6.1.20); jsonb keeps the value
  and `->>` prints it in plain notation.
 */
module PromotionKeys {
  import Saldo

  datatype Json =
    | Null
    | Bool(b: bool)
    | Text(s: string)
    | Number(negative: bool, digits: string, point: int)
    | Nested(sql: string, js: string)

  datatype Column =
    | CCTCUENTA | CCTFECHA | CCTNROCOMP | CCTMES | CCTTALONAR
    | CCTPAGONRO | CCTPAGOSEC | CCTPAGOTAL | CCTPAGOFAM

  /** A column that is absent is like one that is null: both `->>` and `??` make it the empty text. */
  type Payload = map<Column, Json>

  datatype Ledger = MainLedger | PaymentLedger

  function KeyColumns(l: Ledger): seq<Column> {
    match l
    case MainLedger => [CCTCUENTA, CCTFECHA, CCTNROCOMP, CCTMES, CCTTALONAR]
    case PaymentLedger => [CCTPAGONRO, CCTPAGOSEC, CCTPAGOTAL, CCTPAGOFAM, CCTCUENTA]
  }

  /******* Numbers *******/

  /** Digits without a leading zero, or the number 0. */
  predicate ShortestDigits(digits: string, point: int) {
    digits != "" && Saldo.AllDigits(digits) && (digits[0] != '0' || (digits == "0" && point == 1))
  }

  function Zeros(n: nat): string { seq(n, i => '0') }

  /** Plain notation. */
  function Plainly(digits: string, point: int): string
    requires digits != ""
  {
    if |digits| <= point then digits + Zeros(point - |digits|)
    else if 0 < point then digits[..point] + "." + digits[point..]
    else "0." + Zeros(-point) + digits
  }

  /** Number::toString: plain between 1e-6 and 1e21, with an exponent otherwise. */
  function JsDigits(digits: string, point: int): string
    requires digits != ""
  {
    if -6 < point <= 21 then Plainly(digits, point)
    else
      (if |digits| == 1 then digits else digits[..1] + "." + digits[1..]) + "e" +
      (if point >= 1 then "+" + Saldo.Decimal(point - 1) else "-" + Saldo.Decimal(1 - point))
  }

  /** Neither text is a prefix of the other: they differ at a place both have. */
  predicate Diverge(a: string, b: string) { exists i :: 0 <= i < |a| && i < |b| && a[i] != b[i] }

  /** The two notations differ within the first two characters or not at all. */
  lemma DigitTextsAgreeIff(digits: string, point: int)
    requires ShortestDigits(digits, point)
    ensures JsDigits(digits, point) == Plainly(digits, point) <==> -6 < point <= 21
    ensures JsDigits(digits, point) == Plainly(digits, point) || Diverge(JsDigits(digits, point), Plainly(digits, point))
  {
    var js, sql := JsDigits(digits, point), Plainly(digits, point);
    if point > 21 {
      assert js[0] == digits[0] && (js[1] == 'e' || js[1] == '.');
      assert |sql| >= 2 && (sql[1] == '0' || (|digits| > 1 && sql[1] == digits[1]));
      assert js[1] != sql[1];
    } else if point <= -6 {
      assert js[0] == digits[0] && sql[0] == '0';
    }
  }

  /******* Fields *******/

  function Sign(negative: bool): string { if negative then "-" else "" }

  /** coalesce(payload->>'K', '') */
  function SqlText(v: Json): string {
    match v
    case Null => ""
    case Bool(b) => if b then "true" else "false"
    case Text(s) => s
    case Number(negative, digits, point) => if digits == "" then "" else Sign(negative) + Plainly(digits, point)
    case Nested(sql, _) => sql
  }

  /** String(payload.K ?? ''), which is also what join does with it */
  function JsText(v: Json): string {
    match v
    case Null => ""
    case Bool(b) => if b then "true" else "false"
    case Text(s) => s
    case Number(negative, digits, point) => if digits == "" then "" else Sign(negative) + JsDigits(digits, point)
    case Nested(_, js) => js
  }

  /** Not an array or object; legacy records have none. */
  predicate Scalar(v: Json) { !v.Nested? && (v.Number? ==> ShortestDigits(v.digits, v.point)) }

  /** A number too large or too small for JavaScript to print without an exponent. */
  predicate Exponent(v: Json) { v.Number? && !(-6 < v.point <= 21) }

  lemma FieldTextsAgreeIff(v: Json)
    requires Scalar(v)
    ensures JsText(v) == SqlText(v) <==> !Exponent(v)
    ensures JsText(v) == SqlText(v) || Diverge(JsText(v), SqlText(v))
  {
    if v.Number? {
      DigitTextsAgreeIff(v.digits, v.point);
      var js, sql := JsDigits(v.digits, v.point), Plainly(v.digits, v.point);
      if js != sql {
        var i :| 0 <= i < |js| && i < |sql| && js[i] != sql[i];
        var at := |Sign(v.negative)| + i;
        assert JsText(v)[at] == js[i] && SqlText(v)[at] == sql[i];
      }
    }
  }

  /******* Keys *******/

  function Join(texts: seq<string>): string {
    if texts == [] then "" else if |texts| == 1 then texts[0] else texts[0] + "|" + Join(texts[1..])
  }

  function Field(p: Payload, c: Column): Json { if c in p then p[c] else Null }

  function SqlTexts(cs: seq<Column>, p: Payload): seq<string> {
    if cs == [] then [] else [SqlText(Field(p, cs[0]))] + SqlTexts(cs[1..], p)
  }

  function JsTexts(cs: seq<Column>, p: Payload): seq<string> {
    if cs == [] then [] else [JsText(Field(p, cs[0]))] + JsTexts(cs[1..], p)
  }

  /** What migration 0018 hashes for raw_events.legacy_id. */
  function SqlKey(l: Ledger, p: Payload): string { Join(SqlTexts(KeyColumns(l), p)) }

  /** What the transform hashes for the master row. */
  function JsKey(l: Ledger, p: Payload): string { Join(JsTexts(KeyColumns(l), p)) }

  /** The hashed texts, column by column. */
  lemma KeysSpelledOut(p: Payload)
    ensures JsKey(MainLedger, p) ==
            JsText(Field(p, CCTCUENTA)) + "|" + (JsText(Field(p, CCTFECHA)) + "|" + (JsText(Field(p, CCTNROCOMP)) + "|" +
            (JsText(Field(p, CCTMES)) + "|" + JsText(Field(p, CCTTALONAR)))))
    ensures SqlKey(MainLedger, p) ==
            SqlText(Field(p, CCTCUENTA)) + "|" + (SqlText(Field(p, CCTFECHA)) + "|" + (SqlText(Field(p, CCTNROCOMP)) + "|" +
            (SqlText(Field(p, CCTMES)) + "|" + SqlText(Field(p, CCTTALONAR)))))
    ensures JsKey(PaymentLedger, p) ==
            JsText(Field(p, CCTPAGONRO)) + "|" + (JsText(Field(p, CCTPAGOSEC)) + "|" + (JsText(Field(p, CCTPAGOTAL)) + "|" +
            (JsText(Field(p, CCTPAGOFAM)) + "|" + JsText(Field(p, CCTCUENTA)))))
    ensures SqlKey(PaymentLedger, p) ==
            SqlText(Field(p, CCTPAGONRO)) + "|" + (SqlText(Field(p, CCTPAGOSEC)) + "|" + (SqlText(Field(p, CCTPAGOTAL)) + "|" +
            (SqlText(Field(p, CCTPAGOFAM)) + "|" + SqlText(Field(p, CCTCUENTA)))))
  {
    FiveTexts(CCTCUENTA, CCTFECHA, CCTNROCOMP, CCTMES, CCTTALONAR, p);
    FiveTexts(CCTPAGONRO, CCTPAGOSEC, CCTPAGOTAL, CCTPAGOFAM, CCTCUENTA, p);
  }

  lemma FiveTexts(a: Column, b: Column, c: Column, d: Column, e: Column, p: Payload)
    ensures Join(JsTexts([a, b, c, d, e], p)) ==
            JsText(Field(p, a)) + "|" + (JsText(Field(p, b)) + "|" + (JsText(Field(p, c)) + "|" +
            (JsText(Field(p, d)) + "|" + JsText(Field(p, e)))))
    ensures Join(SqlTexts([a, b, c, d, e], p)) ==
            SqlText(Field(p, a)) + "|" + (SqlText(Field(p, b)) + "|" + (SqlText(Field(p, c)) + "|" +
            (SqlText(Field(p, d)) + "|" + SqlText(Field(p, e)))))
  {
    hide JsText, SqlText, Field, Join, JsTexts, SqlTexts;
    OneColumn(e, p);
    ColumnInFront(d, [e], p);
    ColumnInFront(c, [d, e], p);
    ColumnInFront(b, [c, d, e], p);
    ColumnInFront(a, [b, c, d, e], p);
    assert [a] + [b, c, d, e] == [a, b, c, d, e] && [b] + [c, d, e] == [b, c, d, e];
    assert [c] + [d, e] == [c, d, e] && [d] + [e] == [d, e];
  }

  lemma OneColumn(c: Column, p: Payload)
    ensures Join(JsTexts([c], p)) == JsText(Field(p, c)) && Join(SqlTexts([c], p)) == SqlText(Field(p, c))
  {
  }

  lemma ColumnInFront(c: Column, cs: seq<Column>, p: Payload)
    requires cs != []
    ensures Join(JsTexts([c] + cs, p)) == JsText(Field(p, c)) + "|" + Join(JsTexts(cs, p))
    ensures Join(SqlTexts([c] + cs, p)) == SqlText(Field(p, c)) + "|" + Join(SqlTexts(cs, p))
  {
    assert ([c] + cs)[1..] == cs;
    assert ([JsText(Field(p, c))] + JsTexts(cs, p))[1..] == JsTexts(cs, p);
    assert ([SqlText(Field(p, c))] + SqlTexts(cs, p))[1..] == SqlTexts(cs, p);
  }

  lemma DivergentHeads(a: string, b: string, x: string, y: string)
    requires Diverge(a, b)
    ensures a + x != b + y
  {
    var i :| 0 <= i < |a| && i < |b| && a[i] != b[i];
    assert (a + x)[i] == a[i] && (b + y)[i] == b[i];
  }

  lemma SameHeads(a: string, x: string, y: string)
    ensures a + x == a + y <==> x == y
  {
    assert (a + x)[|a|..] == x && (a + y)[|a|..] == y;
  }

  lemma JoinedStep(a: string, b: string, xs: seq<string>, ys: seq<string>)
    requires |xs| == |ys| && (a == b || Diverge(a, b))
    ensures Join([a] + xs) == Join([b] + ys) <==> a == b && Join(xs) == Join(ys)
  {
    if xs == [] {
      if a != b {
        DivergentHeads(a, b, "", "");
        assert a + "" == a && b + "" == b;
      }
    } else {
      assert ([a] + xs)[1..] == xs && ([b] + ys)[1..] == ys;
      var x, y := "|" + Join(xs), "|" + Join(ys);
      assert Join([a] + xs) == a + x && Join([b] + ys) == b + y;
      SameHeads("|", Join(xs), Join(ys));
      if a == b {
        SameHeads(a, x, y);
      } else {
        DivergentHeads(a, b, x, y);
      }
    }
  }

  lemma {:induction false} JoinedTextsAgreeIff(cs: seq<Column>, p: Payload)
    requires forall c <- cs :: Scalar(Field(p, c))
    ensures Join(JsTexts(cs, p)) == Join(SqlTexts(cs, p)) <==> forall c <- cs :: !Exponent(Field(p, c))
    ensures |JsTexts(cs, p)| == |SqlTexts(cs, p)| == |cs|
  {
    hide Join, Exponent, Scalar, Field, JsText, SqlText, Diverge;
    if cs != [] {
      var v, rest := Field(p, cs[0]), cs[1..];
      assert forall c <- cs :: c == cs[0] || c in rest;
      JoinedTextsAgreeIff(rest, p);
      FieldTextsAgreeIff(v);
      JoinedStep(JsText(v), SqlText(v), JsTexts(rest, p), SqlTexts(rest, p));
    }
  }

  /** The legacy id of the raw event and the one of the master row are equal iff no key column holds a
      number that JavaScript prints with an exponent. */
  lemma LegacyIdsAgreeIff(l: Ledger, p: Payload)
    requires forall c <- KeyColumns(l) :: Scalar(Field(p, c))
    ensures JsKey(l, p) == SqlKey(l, p) <==> forall c <- KeyColumns(l) :: !Exponent(Field(p, c))
  {
    JoinedTextsAgreeIff(KeyColumns(l), p);
  }

  /** The key columns of the payload are scalars in the range where both notations agree. */
  predicate Plain(l: Ledger, p: Payload) {
    forall c <- KeyColumns(l) :: Scalar(Field(p, c)) && !Exponent(Field(p, c))
  }
}

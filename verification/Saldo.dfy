/** Exact balances from money strings (packages/projection/src/saldo.ts).

  bigint is int. A string that BigInt rejects throws, here None; the spellings that BigInt accepts
  beside plain digits (surrounding blanks, other radices, signs) are taken as rejected.
 */
module Saldo {
  import opened Common

  /******* Digits *******/

  predicate IsDigit(c: char) { '0' <= c <= '9' }

  predicate AllDigits(s: string) { forall i :: 0 <= i < |s| ==> IsDigit(s[i]) }

  function DigitOf(c: char): nat
    requires IsDigit(c)
  {
    (c as int) - ('0' as int)
  }

  function CharOf(d: nat): (c: char)
    requires d < 10
    ensures IsDigit(c) && DigitOf(c) == d
  {
    (d + '0' as int) as char
  }

  /** BigInt of plain digits; the empty string is 0. */
  function ToNat(s: string): nat
    requires AllDigits(s)
  {
    if s == "" then 0 else ToNat(s[..|s| - 1]) * 10 + DigitOf(s[|s| - 1])
  }

  /** bigint.toString() */
  function Decimal(n: nat): (s: string)
    ensures s != "" && AllDigits(s)
  {
    if n < 10 then [CharOf(n)] else Decimal(n / 10) + [CharOf(n % 10)]
  }

  lemma {:induction false} DecimalReadsBack(n: nat)
    ensures ToNat(Decimal(n)) == n
  {
    if n < 10 {
      assert Decimal(n)[..0] == "" && ToNat("") == 0;
    } else {
      DecimalReadsBack(n / 10);
      assert Decimal(n)[..|Decimal(n)| - 1] == Decimal(n / 10);
    }
  }

  /** No leading zero. */
  predicate Canonical(s: string) { s != "" && AllDigits(s) && (s[0] != '0' || |s| == 1) }

  lemma {:induction false} DecimalIsCanonical(n: nat)
    ensures Canonical(Decimal(n)) && (n > 0 ==> Decimal(n)[0] != '0')
  {
    if n >= 10 {
      DecimalIsCanonical(n / 10);
    } else if n > 0 {
      assert DigitOf(Decimal(n)[0]) == n;
    }
  }

  lemma {:induction false} PositiveWhenNoLeadingZero(s: string)
    requires s != "" && AllDigits(s) && s[0] != '0'
    ensures ToNat(s) > 0
  {
    if |s| == 1 {
      assert s[..0] == "";
    } else {
      PositiveWhenNoLeadingZero(s[..|s| - 1]);
    }
  }

  lemma {:induction false} ReadingPrintsBack(s: string)
    requires Canonical(s)
    ensures Decimal(ToNat(s)) == s
  {
    var n := |s| - 1;
    assert s == s[..n] + [s[n]];
    if n == 0 {
      assert s[..0] == "" && ToNat("") == 0;
      assert CharOf(DigitOf(s[0])) == s[0];
    } else {
      ReadingPrintsBack(s[..n]);
      PositiveWhenNoLeadingZero(s[..n]);
      assert ToNat(s) / 10 == ToNat(s[..n]) && ToNat(s) % 10 == DigitOf(s[n]);
    }
  }

  /******* parseCents and centsToString *******/

  /** The part before the first `c`, and what follows it (None without `c`). */
  function Split(s: string, c: char): (string, Option<string>) {
    if s == "" then ("", None)
    else if s[0] == c then ("", Some(s[1..]))
    else var r := Split(s[1..], c); ([s[0]] + r.0, r.1)
  }

  function ParseUnsigned(u: string): Option<nat> {
    var parts := Split(u, '.');
    var frac := if parts.1.Some? then Split(parts.1.value, '.').0 else "";
    var two := (frac + "00")[..2];
    if AllDigits(parts.0) && AllDigits(two) then Some(ToNat(parts.0) * 100 + ToNat(two)) else None
  }

  function ParseCents(s: string): Option<int> {
    var negative := s != "" && s[0] == '-';
    match ParseUnsigned(if negative then s[1..] else s)
    case None => None
    case Some(cents) => var c: int := cents; Some(if negative then -c else c)
  }

  function PadTwo(s: string): string { if |s| < 2 then (if |s| == 0 then "00" else "0" + s) else s }

  function CentsToString(cents: int): string {
    var abs := if cents < 0 then -cents else cents;
    (if cents < 0 then "-" else "") + Decimal(abs / 100) + "." + PadTwo(Decimal(abs % 100))
  }

  lemma {:induction false} SplitAt(a: string, b: string, c: char)
    requires c !in a
    ensures Split(a + [c] + b, c) == (a, Some(b))
  {
    if a == "" {
      assert a + [c] + b == [c] + b;
    } else {
      SplitAt(a[1..], b, c);
      assert (a + [c] + b)[1..] == a[1..] + [c] + b;
      assert a == [a[0]] + a[1..];
    }
  }

  lemma {:induction false} SplitNowhere(a: string, c: char)
    requires c !in a
    ensures Split(a, c) == (a, None)
  {
    if a != "" {
      SplitNowhere(a[1..], c);
      assert a == [a[0]] + a[1..];
    }
  }

  lemma DigitsHaveNoDot(s: string)
    requires AllDigits(s)
    ensures '.' !in s
  {
  }

  /** Two decimals of a number below 100. */
  lemma TwoDigits(n: nat)
    requires n < 100
    ensures var s := PadTwo(Decimal(n)); |s| == 2 && AllDigits(s) && ToNat(s) == n
  {
    var s := PadTwo(Decimal(n));
    if n < 10 {
      assert s == ['0', CharOf(n)];
      assert s[..1] == "0" && "0"[..0] == "";
      assert ToNat("") == 0 && ToNat("0") == 0;
    } else {
      DecimalReadsBack(n);
      assert Decimal(n / 10) == [CharOf(n / 10)];
    }
  }

  lemma ParsesUnsigned(whole: string, frac: string)
    requires AllDigits(whole) && AllDigits(frac) && |frac| == 2
    ensures ParseUnsigned(whole + "." + frac) == Some(ToNat(whole) * 100 + ToNat(frac))
  {
    hide ToNat, Split;
    DigitsHaveNoDot(whole);
    DigitsHaveNoDot(frac);
    SplitAt(whole, frac, '.');
    SplitNowhere(frac, '.');
    assert (frac + "00")[..2] == frac;
  }

  /** Reading `[-]digits.dd`. */
  lemma ParsesParts(negative: bool, whole: string, frac: string)
    requires whole != "" && AllDigits(whole) && AllDigits(frac) && |frac| == 2
    ensures var cents := ToNat(whole) * 100 + ToNat(frac);
            ParseCents((if negative then "-" else "") + whole + "." + frac) == Some(if negative then -cents else cents)
  {
    hide ToNat, ParseUnsigned;
    ParsesUnsigned(whole, frac);
    var s, unsigned := (if negative then "-" else "") + whole + "." + frac, whole + "." + frac;
    assert IsDigit(whole[0]) && unsigned[0] == whole[0];
    if negative {
      assert s == "-" + unsigned && s[1..] == unsigned;
    } else {
      assert s == unsigned;
    }
  }

  lemma ReadsWhole(whole: string)
    requires AllDigits(whole)
    ensures ParseUnsigned(whole) == Some(ToNat(whole) * 100)
  {
    hide Split;
    DigitsHaveNoDot(whole);
    SplitNowhere(whole, '.');
    assert ("" + "00")[..2] == "00" && "00"[..1] == "0" && "0"[..0] == "";
    assert ToNat("") == 0 && ToNat("0") == 0 && ToNat("00") == 0;
  }

  lemma ReadsTwoPlaces(whole: string, frac: string)
    requires AllDigits(whole) && '.' !in frac && AllDigits((frac + "00")[..2])
    ensures ParseUnsigned(whole + "." + frac) == Some(ToNat(whole) * 100 + ToNat((frac + "00")[..2]))
  {
    hide Split, ToNat;
    DigitsHaveNoDot(whole);
    SplitAt(whole, frac, '.');
    SplitNowhere(frac, '.');
  }

  lemma ReadsSign(negative: bool, u: string, cents: nat)
    requires ParseUnsigned(u) == Some(cents) && (u == "" || u[0] != '-')
    ensures var c: int := cents; ParseCents((if negative then "-" else "") + u) == Some(if negative then -c else c)
  {
    hide ParseUnsigned;
    if negative {
      assert ("-" + u)[1..] == u;
    } else {
      assert "" + u == u;
    }
  }

  /** What parsing reads: a minus sign, the digits before the dot, and the first two places after it. Missing
      places are zeros, further ones are cut, not rounded. */
  lemma ParsesTwoPlaces(negative: bool, whole: string, frac: string)
    requires AllDigits(whole) && '.' !in frac && AllDigits((frac + "00")[..2])
    ensures var cents := ToNat(whole) * 100 + ToNat((frac + "00")[..2]);
            ParseCents((if negative then "-" else "") + (whole + "." + frac)) == Some(if negative then -cents else cents)
    ensures ParseCents((if negative then "-" else "") + whole) ==
            Some(if negative then -(ToNat(whole) * 100) else ToNat(whole) * 100)
  {
    hide ParseUnsigned, ParseCents, ToNat;
    ReadsTwoPlaces(whole, frac);
    ReadsWhole(whole);
    assert whole != "" ==> IsDigit(whole[0]) && (whole + "." + frac)[0] == whole[0];
    ReadsSign(negative, whole + "." + frac, ToNat(whole) * 100 + ToNat((frac + "00")[..2]));
    ReadsSign(negative, whole, ToNat(whole) * 100);
  }

  /** Parsing undoes printing, for every integer amount of cents. */
  lemma ParsingUndoesPrinting(cents: int)
    ensures ParseCents(CentsToString(cents)) == Some(cents)
  {
    var abs := if cents < 0 then -cents else cents;
    DecimalReadsBack(abs / 100);
    TwoDigits(abs % 100);
    ParsesParts(cents < 0, Decimal(abs / 100), PadTwo(Decimal(abs % 100)));
  }

  /** `[-]whole.dd` without superfluous zeros and without a minus sign on zero. */
  ghost predicate Normalized(s: string) {
    exists negative: bool, whole: string, frac: string :: IsPrint(s, negative, whole, frac)
  }

  predicate IsPrint(s: string, negative: bool, whole: string, frac: string) {
    && Canonical(whole) && |frac| == 2 && AllDigits(frac)
    && s == (if negative then "-" else "") + whole + "." + frac
    && (negative ==> ToNat(whole) * 100 + ToNat(frac) > 0)
  }

  lemma TwoDigitsBack(s: string)
    requires |s| == 2 && AllDigits(s)
    ensures ToNat(s) < 100 && PadTwo(Decimal(ToNat(s))) == s
  {
    assert s[..1] == [s[0]] && [s[0]][..0] == "";
    assert ToNat([s[0]]) == ToNat("") * 10 + DigitOf(s[0]);
    assert ToNat(s) == DigitOf(s[0]) * 10 + DigitOf(s[1]);
    assert CharOf(DigitOf(s[0])) == s[0] && CharOf(DigitOf(s[1])) == s[1];
    var n := ToNat(s);
    if n < 10 {
      assert Decimal(n) == [s[1]] && s[0] == '0';
    } else {
      assert n / 10 == DigitOf(s[0]) && n % 10 == DigitOf(s[1]);
      assert Decimal(n / 10) == [s[0]];
    }
  }

  /** Printing undoes parsing exactly on the normalized strings, which are exactly what it prints. */
  lemma PrintingUndoesParsingIff(s: string)
    ensures Normalized(s) <==> ParseCents(s).Some? && CentsToString(ParseCents(s).value) == s
  {
    if Normalized(s) {
      var negative, whole, frac :| IsPrint(s, negative, whole, frac);
      ParsesParts(negative, whole, frac);
      ReadingPrintsBack(whole);
      TwoDigitsBack(frac);
      var abs := ToNat(whole) * 100 + ToNat(frac);
      assert abs / 100 == ToNat(whole) && abs % 100 == ToNat(frac);
    }
    if ParseCents(s).Some? && CentsToString(ParseCents(s).value) == s {
      PrintsAreNormalized(ParseCents(s).value);
    }
  }

  lemma PrintsAreNormalized(cents: int)
    ensures Normalized(CentsToString(cents))
  {
    var abs := if cents < 0 then -cents else cents;
    DecimalIsCanonical(abs / 100);
    DecimalReadsBack(abs / 100);
    TwoDigits(abs % 100);
    assert IsPrint(CentsToString(cents), cents < 0, Decimal(abs / 100), PadTwo(Decimal(abs % 100)));
  }

  /******* computeSaldo *******/

  datatype Row = Row(debe: string, haber: string, anulado: bool)

  datatype Sums = Sums(debe: int, haber: int)

  datatype SaldoResult = SaldoResult(debe: string, haber: string, saldo: string)

  /** The row can be counted: it is annulled, or both its amounts parse. */
  predicate Countable(r: Row) { r.anulado || (ParseCents(r.debe).Some? && ParseCents(r.haber).Some?) }

  predicate AllCountable(rows: seq<Row>) { forall i :: 0 <= i < |rows| ==> Countable(rows[i]) }

  function DebeOf(r: Row): int { if r.anulado || ParseCents(r.debe).None? then 0 else ParseCents(r.debe).value }

  function HaberOf(r: Row): int { if r.anulado || ParseCents(r.haber).None? then 0 else ParseCents(r.haber).value }

  function SumOf(rows: seq<Row>): Sums {
    if rows == [] then Sums(0, 0)
    else var s := SumOf(rows[..|rows| - 1]); Sums(s.debe + DebeOf(rows[|rows| - 1]), s.haber + HaberOf(rows[|rows| - 1]))
  }

  lemma {:induction false} SumRemoves(rows: seq<Row>, j: nat)
    requires j < |rows|
    ensures var rest := SumOf(rows[..j] + rows[j + 1..]);
            SumOf(rows) == Sums(rest.debe + DebeOf(rows[j]), rest.haber + HaberOf(rows[j]))
  {
    hide DebeOf, HaberOf;
    var n := |rows| - 1;
    if j == n {
      assert rows[..j] + rows[j + 1..] == rows[..n];
    } else {
      SumRemoves(rows[..n], j);
      var rest := rows[..j] + rows[j + 1..];
      assert rest[..|rest| - 1] == rows[..n][..j] + rows[..n][j + 1..];
      assert rest[|rest| - 1] == rows[n];
    }
  }

  lemma MultisetRemoves(b: seq<Row>, j: nat)
    requires j < |b|
    ensures multiset(b[..j] + b[j + 1..]) == multiset(b) - multiset{b[j]}
  {
    assert b == b[..j] + [b[j]] + b[j + 1..];
  }

  lemma {:induction false} SumIgnoresOrder(a: seq<Row>, b: seq<Row>)
    requires multiset(a) == multiset(b)
    ensures SumOf(a) == SumOf(b)
  {
    hide DebeOf, HaberOf;
    assert |multiset(a)| == |a| && |multiset(b)| == |b|;
    if a != [] {
      var n := |a| - 1;
      assert a == a[..n] + [a[n]];
      assert a[n] in multiset(b);
      var j :| 0 <= j < |b| && b[j] == a[n];
      SumRemoves(b, j);
      MultisetRemoves(b, j);
      SumIgnoresOrder(a[..n], b[..j] + b[j + 1..]);
    }
  }

  /** What a row adds: nothing when it is annulled, else its debe to the one sum and its haber to the other. */
  lemma EachRowAddsItsColumns(rows: seq<Row>, row: Row)
    ensures SumOf([]) == Sums(0, 0)
    ensures row.anulado ==> SumOf(rows + [row]) == SumOf(rows)
    ensures !row.anulado && ParseCents(row.debe).Some? && ParseCents(row.haber).Some? ==>
              && SumOf(rows + [row]).debe == SumOf(rows).debe + ParseCents(row.debe).value
              && SumOf(rows + [row]).haber == SumOf(rows).haber + ParseCents(row.haber).value
  {
    assert (rows + [row])[..|rows|] == rows;
  }

  function Printed(s: Sums): SaldoResult {
    SaldoResult(CentsToString(s.debe), CentsToString(s.haber), CentsToString(s.debe - s.haber))
  }

  /** The printed balance is exact and does not depend on the order in which the rows come. */
  lemma BalanceIsExact(a: seq<Row>, b: seq<Row>)
    requires multiset(a) == multiset(b)
    ensures AllCountable(a) <==> AllCountable(b)
    ensures Printed(SumOf(a)) == Printed(SumOf(b))
    ensures var r := Printed(SumOf(a));
            && ParseCents(r.debe) == Some(SumOf(a).debe) && ParseCents(r.haber) == Some(SumOf(a).haber)
            && ParseCents(r.saldo) == Some(SumOf(a).debe - SumOf(a).haber)
  {
    hide ParseCents, CentsToString, SumOf, AllCountable;
    SumIgnoresOrder(a, b);
    SameRows(a, b);
    SameRows(b, a);
    ParsingUndoesPrinting(SumOf(a).debe);
    ParsingUndoesPrinting(SumOf(a).haber);
    ParsingUndoesPrinting(SumOf(a).debe - SumOf(a).haber);
  }

  lemma SameRows(a: seq<Row>, b: seq<Row>)
    requires multiset(a) == multiset(b)
    ensures AllCountable(a) ==> AllCountable(b)
  {
    hide Countable;
    forall i | 0 <= i < |b| ensures exists j :: 0 <= j < |a| && a[j] == b[i] {
      assert b[i] in multiset(a);
    }
  }

  lemma SumOfNone()
    ensures SumOf([]) == Sums(0, 0)
  {
  }

  lemma SumOneMore(rows: seq<Row>, i: nat)
    requires i < |rows|
    ensures var s := SumOf(rows[..i]); SumOf(rows[..i + 1]) == Sums(s.debe + DebeOf(rows[i]), s.haber + HaberOf(rows[i]))
  {
    assert rows[..i + 1][..i] == rows[..i];
  }

  /** The summing loop; None is the exception of an amount that does not parse. */
  method ComputeSaldo(rows: seq<Row>) returns (r: Option<SaldoResult>)
    ensures r.Some? <==> forall row <- rows :: row.anulado || (ParseCents(row.debe).Some? && ParseCents(row.haber).Some?)
    ensures r.Some? ==>
              && ParseCents(r.value.debe) == Some(SumOf(rows).debe) && ParseCents(r.value.haber) == Some(SumOf(rows).haber)
    ensures r.Some? ==> r.value == Printed(SumOf(rows))
    ensures r.Some? ==>
              && ParseCents(r.value.debe).Some? && ParseCents(r.value.haber).Some?
              && ParseCents(r.value.saldo) == Some(ParseCents(r.value.debe).value - ParseCents(r.value.haber).value)
  {
    hide ParseCents, CentsToString, SumOf;
    BalanceIsExact(rows, rows);
    assert AllCountable(rows) <==> forall row <- rows :: Countable(row);
    var debeCents, haberCents := 0, 0;
    assert rows[..0] == [];
    SumOfNone();
    for i := 0 to |rows|
      invariant AllCountable(rows[..i])
      invariant Sums(debeCents, haberCents) == SumOf(rows[..i])
    {
      var row := rows[i];
      SumOneMore(rows, i);
      if row.anulado {
        continue;
      }
      var debe, haber := ParseCents(row.debe), ParseCents(row.haber);
      if debe.None? || haber.None? {
        assert !Countable(rows[i]);
        return None;
      }
      debeCents := debeCents + debe.value;
      haberCents := haberCents + haber.value;
    }
    assert rows[..|rows|] == rows;
    return Some(Printed(Sums(debeCents, haberCents)));
  }
}

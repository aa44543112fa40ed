/** CSV export and an RFC 4180 parser (apps/web/src/lib/csv-export.ts).

  A cell value is what String() makes of it, or absent for null and undefined. The parser follows the
  grammar of section 2 of RFC 4180, with TEXTDATA taken as any character but comma, quote, CR and LF.
 */
module Csv {
  import opened Common

  datatype Column = Column(key: string, title: string)

  type Row = map<string, Option<string>>

  const CRLF: string := "\r\n"

  /******* Printing *******/

  predicate Special(c: char) { c == ',' || c == '"' || c == '\r' || c == '\n' }

  predicate NeedsQuote(s: string) { exists i :: 0 <= i < |s| && Special(s[i]) }

  /** value.replace(/"/g, '""') */
  function Doubled(s: string): string {
    if s == "" then "" else (if s[0] == '"' then "\"\"" else [s[0]]) + Doubled(s[1..])
  }

  function EscapeCell(s: string): string {
    if !NeedsQuote(s) then s else "\"" + Doubled(s) + "\""
  }

  /** A cell is printed as it is unless it holds a comma, a quote or a line break; then, and only then, it is
      put in quotes. */
  lemma QuotedOnlyWhenNeeded(s: string)
    ensures EscapeCell(s) == s <==> forall c :: c in s ==> c != ',' && c != '"' && c != '\r' && c != '\n'
    ensures EscapeCell(s) != s ==>
              var e := EscapeCell(s); |e| >= |s| + 2 && e[0] == '"' && e[|e| - 1] == '"'
  {
    if NeedsQuote(s) {
      DoublingKeepsLength(s);
      var i :| 0 <= i < |s| && Special(s[i]);
      assert s[i] in s && |EscapeCell(s)| > |s|;
    }
  }

  lemma {:induction false} DoublingKeepsLength(s: string)
    ensures |Doubled(s)| >= |s|
  {
    if s != "" {
      DoublingKeepsLength(s[1..]);
    }
  }

  function CellOf(row: Row, c: Column): string {
    if c.key in row && row[c.key].Some? then row[c.key].value else ""
  }

  function Cells(row: Row, columns: seq<Column>): seq<string> {
    seq(|columns|, i requires 0 <= i < |columns| => CellOf(row, columns[i]))
  }

  function Labels(columns: seq<Column>): seq<string> {
    seq(|columns|, i requires 0 <= i < |columns| => columns[i].title)
  }

  /** Array.prototype.join */
  function Join(parts: seq<string>, separator: string): string {
    if parts == [] then ""
    else if |parts| == 1 then parts[0]
    else parts[0] + separator + Join(parts[1..], separator)
  }

  function Escaped(cells: seq<string>): seq<string> {
    if cells == [] then [] else [EscapeCell(cells[0])] + Escaped(cells[1..])
  }

  function Record(cells: seq<string>): string { Join(Escaped(cells), ",") }

  /** The header and one record per row, each ended by CRLF. */
  function Printed(table: seq<seq<string>>): string {
    if table == [] then "" else Record(table[0]) + CRLF + Printed(table[1..])
  }

  function Table(rows: seq<Row>, columns: seq<Column>): seq<seq<string>> {
    [Labels(columns)] + seq(|rows|, i requires 0 <= i < |rows| => Cells(rows[i], columns))
  }

  /******* Parsing *******/

  datatype Read<T> = Read(value: T, rest: string)

  /** The rest of an escaped field, after its opening quote. */
  function ParseQuoted(s: string): Option<Read<string>>
    decreases |s|
  {
    if s == "" then None
    else if s[0] != '"' then Prepend(s[0], ParseQuoted(s[1..]))
    else if |s| >= 2 && s[1] == '"' then Prepend('"', ParseQuoted(s[2..]))
    else Some(Read("", s[1..]))
  }

  function Prepend(c: char, r: Option<Read<string>>): Option<Read<string>> {
    if r.None? then None else Some(Read([c] + r.value.value, r.value.rest))
  }

  function ParsePlain(s: string): Read<string> {
    if s == "" || Special(s[0]) then Read("", s)
    else var r := ParsePlain(s[1..]); Read([s[0]] + r.value, r.rest)
  }

  function ParseField(s: string): Option<Read<string>> {
    if s != "" && s[0] == '"' then ParseQuoted(s[1..]) else Some(ParsePlain(s))
  }

  lemma {:induction false} QuotedConsumes(s: string)
    ensures ParseQuoted(s).Some? ==> |ParseQuoted(s).value.rest| < |s|
    decreases |s|
  {
    if s != "" {
      if s[0] != '"' {
        QuotedConsumes(s[1..]);
      } else if |s| >= 2 && s[1] == '"' {
        QuotedConsumes(s[2..]);
      }
    }
  }

  lemma {:induction false} PlainConsumes(s: string)
    ensures |ParsePlain(s).rest| <= |s|
  {
    if s != "" && !Special(s[0]) {
      PlainConsumes(s[1..]);
    }
  }

  lemma FieldConsumes(s: string)
    ensures ParseField(s).Some? ==> |ParseField(s).value.rest| <= |s|
  {
    PlainConsumes(s);
    if s != "" {
      QuotedConsumes(s[1..]);
    }
  }

  /** Fields up to a line break or the end of the text. */
  function ParseRecord(s: string): (r: Option<Read<seq<string>>>)
    ensures r.Some? ==> |r.value.rest| < |s| || (r.value.rest == "" && s == "")
    decreases |s|
  {
    FieldConsumes(s);
    match ParseField(s)
    case None => None
    case Some(f) =>
      if f.rest == "" then Some(Read([f.value], ""))
      else if f.rest[0] == ',' then
        (match ParseRecord(f.rest[1..])
         case None => None
         case Some(r) => Some(Read([f.value] + r.value, r.rest)))
      else if |f.rest| >= 2 && f.rest[..2] == CRLF then Some(Read([f.value], f.rest[2..]))
      else None
  }

  /** Records up to the end of the text; the last line break is optional. */
  function ParseFile(s: string): Option<seq<seq<string>>>
    decreases |s|
  {
    match ParseRecord(s)
    case None => None
    case Some(r) =>
      if r.rest == "" then Some([r.value])
      else
        match ParseFile(r.rest)
        case None => None
        case Some(records) => Some([r.value] + records)
  }

  /******* Round trip *******/

  lemma {:induction false} QuotedRoundTrip(v: string, rest: string)
    requires rest == "" || rest[0] != '"'
    ensures ParseQuoted(Doubled(v) + "\"" + rest) == Some(Read(v, rest))
  {
    if v == "" {
      assert Doubled(v) + "\"" + rest == "\"" + rest;
      assert ("\"" + rest)[1..] == rest;
    } else {
      QuotedRoundTrip(v[1..], rest);
      assert v == [v[0]] + v[1..];
      DoubledStep(v, "\"" + rest);
      var tail := Doubled(v[1..]) + "\"" + rest;
      assert Doubled(v) + "\"" + rest == Doubled(v) + ("\"" + rest) && tail == Doubled(v[1..]) + ("\"" + rest);
    }
  }

  /** One character of an escaped field. */
  lemma DoubledStep(v: string, after: string)
    requires v != ""
    ensures ParseQuoted(Doubled(v) + after) == Prepend(v[0], ParseQuoted(Doubled(v[1..]) + after))
  {
    var tail := Doubled(v[1..]) + after;
    if v[0] == '"' {
      assert Doubled(v) + after == "\"\"" + tail;
      assert ("\"\"" + tail)[2..] == tail;
    } else {
      assert Doubled(v) + after == [v[0]] + tail;
      assert ([v[0]] + tail)[1..] == tail;
    }
  }

  lemma {:induction false} PlainRoundTrip(v: string, rest: string)
    requires !NeedsQuote(v) && (rest == "" || Special(rest[0]))
    ensures ParsePlain(v + rest) == Read(v, rest)
  {
    if v == "" {
      assert v + rest == rest;
    } else {
      assert !Special(v[0]);
      forall i | 0 <= i < |v[1..]| ensures !Special(v[1..][i]) {
        assert !Special(v[i + 1]);
      }
      PlainRoundTrip(v[1..], rest);
      assert (v + rest)[1..] == v[1..] + rest;
      assert v == [v[0]] + v[1..];
    }
  }

  lemma FieldRoundTrip(v: string, rest: string)
    requires rest != "" && (rest[0] == ',' || rest[0] == '\r')
    ensures ParseField(EscapeCell(v) + rest) == Some(Read(v, rest))
  {
    if NeedsQuote(v) {
      QuotedRoundTrip(v, rest);
      assert EscapeCell(v) + rest == "\"" + (Doubled(v) + "\"" + rest);
      assert ("\"" + (Doubled(v) + "\"" + rest))[1..] == Doubled(v) + "\"" + rest;
    } else {
      PlainRoundTrip(v, rest);
      if v != "" {
        assert !Special(v[0]);
        assert (v + rest)[0] == v[0];
      } else {
        assert v + rest == rest;
      }
    }
  }

  lemma {:induction false} RecordRoundTrip(cells: seq<string>, rest: string)
    requires cells != []
    ensures ParseRecord(Record(cells) + CRLF + rest) == Some(Read(cells, rest))
    decreases |cells|
  {
    var text := Record(cells) + CRLF + rest;
    if |cells| == 1 {
      var after := CRLF + rest;
      assert text == EscapeCell(cells[0]) + after;
      FieldRoundTrip(cells[0], after);
      assert after[..2] == CRLF && after[2..] == rest && after[0] == '\r';
      assert cells == [cells[0]];
    } else {
      var after := "," + (Record(cells[1..]) + CRLF + rest);
      EscapedTail(cells);
      assert text == EscapeCell(cells[0]) + after;
      FieldRoundTrip(cells[0], after);
      assert after[1..] == Record(cells[1..]) + CRLF + rest;
      RecordRoundTrip(cells[1..], rest);
      assert cells == [cells[0]] + cells[1..];
    }
  }

  lemma EscapedTail(cells: seq<string>)
    requires |cells| > 1
    ensures Record(cells) == EscapeCell(cells[0]) + "," + Record(cells[1..])
  {
    assert Escaped(cells)[1..] == Escaped(cells[1..]);
    assert |Escaped(cells[1..])| > 0;
  }

  lemma {:induction false} FileRoundTrip(table: seq<seq<string>>)
    requires table != [] && forall i :: 0 <= i < |table| ==> table[i] != []
    ensures ParseFile(Printed(table)) == Some(table)
    decreases |table|
  {
    RecordRoundTrip(table[0], Printed(table[1..]));
    assert table == [table[0]] + table[1..];
    if |table| > 1 {
      FileRoundTrip(table[1..]);
      PrintedNotEmpty(table[1..]);
    } else {
      assert Printed(table[1..]) == "" && table == [table[0]];
    }
  }

  lemma PrintedNotEmpty(table: seq<seq<string>>)
    requires table != []
    ensures Printed(table) != ""
  {
  }

  /** Printing is undone by parsing, for any text and any number of rows, iff there is a column: without
      columns every line is empty, which a parser reads as one empty field. */
  lemma ParsingUndoesPrintingIff(rows: seq<Row>, columns: seq<Column>)
    ensures ParseFile(Printed(Table(rows, columns))) == Some(Table(rows, columns)) <==> columns != []
  {
    var table := Table(rows, columns);
    if columns != [] {
      FileRoundTrip(table);
    } else {
      assert table[0] == [];
      var rest := Printed(table[1..]);
      assert Record(table[0]) == "";
      assert Printed(table) == "" + CRLF + rest;
      FieldRoundTrip("", CRLF + rest);
      assert !NeedsQuote("");
      assert EscapeCell("") + (CRLF + rest) == Printed(table);
      assert (CRLF + rest)[..2] == CRLF;
      assert ParseRecord(Printed(table)).Some? && ParseRecord(Printed(table)).value.value == [""];
    }
  }

  /** What a reader of the file gets back, cell by cell: the titles, then for each row the text of each
      column's value, empty where there is none. */
  lemma FileHoldsTheValues(rows: seq<Row>, columns: seq<Column>)
    requires columns != []
    ensures var t := ParseFile(Printed(Table(rows, columns)));
            && t.Some? && |t.value| == |rows| + 1
            && (forall i :: 0 <= i < |t.value| ==> |t.value[i]| == |columns|)
            && (forall j :: 0 <= j < |columns| ==> t.value[0][j] == columns[j].title)
            && (forall i, j :: 1 <= i < |t.value| && 0 <= j < |columns| ==>
                  var row, k := rows[i - 1], columns[j].key;
                  t.value[i][j] == if k in row && row[k].Some? then row[k].value else "")
  {
    hide ParseFile, Printed;
    ParsingUndoesPrintingIff(rows, columns);
    TableHoldsTheValues(rows, columns);
  }

  lemma TableHoldsTheValues(rows: seq<Row>, columns: seq<Column>)
    ensures var t := Table(rows, columns);
            && |t| == |rows| + 1
            && (forall i :: 0 <= i < |t| ==> |t[i]| == |columns|)
            && (forall j :: 0 <= j < |columns| ==> t[0][j] == columns[j].title)
            && (forall i, j :: 1 <= i < |t| && 0 <= j < |columns| ==>
                  var row, k := rows[i - 1], columns[j].key;
                  t[i][j] == if k in row && row[k].Some? then row[k].value else "")
  {
    var t := Table(rows, columns);
    assert forall i :: 1 <= i < |t| ==> t[i] == Cells(rows[i - 1], columns);
  }

  /** So two different tables of the same columns never print alike. */
  lemma PrintingIsInjective(a: seq<Row>, b: seq<Row>, columns: seq<Column>)
    requires columns != [] && Printed(Table(a, columns)) == Printed(Table(b, columns))
    ensures |a| == |b|
    ensures forall i, c :: 0 <= i < |a| && c in columns ==> CellOf(a[i], c) == CellOf(b[i], c)
  {
    ParsingUndoesPrintingIff(a, columns);
    ParsingUndoesPrintingIff(b, columns);
    var ta, tb := Table(a, columns), Table(b, columns);
    assert |ta| == |a| + 1 && |tb| == |b| + 1;
    forall i, c | 0 <= i < |a| && c in columns ensures CellOf(a[i], c) == CellOf(b[i], c) {
      assert ta[i + 1] == Cells(a[i], columns) && tb[i + 1] == Cells(b[i], columns);
      var j :| 0 <= j < |columns| && columns[j] == c;
      assert Cells(a[i], columns)[j] == CellOf(a[i], c);
      assert Cells(b[i], columns)[j] == CellOf(b[i], c);
    }
  }

  /******* toCSV with its loop *******/

  function Records(table: seq<seq<string>>): seq<string> {
    if table == [] then [] else [Record(table[0])] + Records(table[1..])
  }

  lemma {:induction false} RecordsOneMore(table: seq<seq<string>>, cells: seq<string>)
    ensures Records(table + [cells]) == Records(table) + [Record(cells)]
  {
    if table == [] {
      assert Records([cells]) == [Record(cells)] + Records([]);
      assert table + [cells] == [cells];
    } else {
      RecordsOneMore(table[1..], cells);
      assert (table + [cells])[1..] == table[1..] + [cells];
    }
  }

  lemma {:induction false} JoinThenBreak(table: seq<seq<string>>)
    requires table != []
    ensures Join(Records(table), CRLF) + CRLF == Printed(table)
    decreases |table|
  {
    if |table| == 1 {
      assert Records(table) == [Record(table[0])];
      assert Printed(table[1..]) == "";
    } else {
      JoinThenBreak(table[1..]);
      assert Records(table)[1..] == Records(table[1..]);
      assert |Records(table[1..])| > 0;
    }
  }

  method ToCSV(rows: seq<Row>, columns: seq<Column>) returns (csv: string)
    ensures csv == Printed(Table(rows, columns))
    ensures columns != [] ==> ParseFile(csv) == Some(Table(rows, columns))
  {
    var header := Record(Labels(columns));
    var lines := [header];
    ghost var done := [Labels(columns)];
    assert Records(done) == [Record(done[0])] + Records(done[1..]);
    for i := 0 to |rows|
      invariant |done| == i + 1 && done == Table(rows[..i], columns)
      invariant lines == Records(done)
    {
      var fields := Cells(rows[i], columns);
      RecordsOneMore(done, fields);
      lines := lines + [Record(fields)];
      done := done + [fields];
      assert done == Table(rows[..i + 1], columns);
    }
    assert rows[..|rows|] == rows;
    JoinThenBreak(done);
    ParsingUndoesPrintingIff(rows, columns);
    csv := Join(lines, CRLF) + CRLF;
  }
}

/** The metrics export (backend/scripts/export-trader-metrics.ts): every
    `traderMetric` row, oldest first, under a header, as comma-separated
    values quoted as in section 2 of RFC 4180 (rules 6 and 7), where only
    `"`, `,` and a line feed force quoting. The rows read from the database
    are a parameter; the file written is the result. */
module MetricsCsv {
  import opened Common
  import opened Numbers
  import opened Strings

  // ---------------------------------------------------------------------------
  // Fields

  /** One cell of a `CsvRow`: a string, a number or null. Numbers are the
      integers the export holds; `String()` of a fractional number is not
      modelled. */
  datatype CsvValue = Str(s: string) | Int(i: int) | Null

  /** `String(value)` for a value that is not null. */
  function ValueText(v: CsvValue): string
    requires !v.Null?
  {
    match v
    case Str(s) => s
    case Int(i) => IntToString(i)
  }

  /** The text a cell stands for: null reads as the empty string. */
  function CellText(v: CsvValue): string {
    if v.Null? then "" else ValueText(v)
  }

  /** A field must be quoted when it holds a quote, a comma or a line feed. */
  predicate NeedsQuotes(s: string) {
    '"' in s || ',' in s || '\n' in s
  }

  /** `s.replace(/"/g, '""')`: every quote doubled, nothing else changed. */
  function DoubleQuotes(s: string): (r: string)
    ensures |r| >= |s|
    ensures forall c | c != '"' :: c in r <==> c in s
    decreases |s|
  {
    if s == [] then ""
    else (if s[0] == '"' then "\"\"" else [s[0]]) + DoubleQuotes(s[1..])
  }

  /** A field's text as written: quoted with inner quotes doubled when it
      needs quoting, otherwise as it is. */
  function EscapeText(s: string): string {
    if NeedsQuotes(s) then "\"" + DoubleQuotes(s) + "\"" else s
  }

  /** `escapeCsv`: null gives the empty field, anything else the escaped
      text of `String(value)`. */
  function EscapeCsv(v: CsvValue): (r: string)
    ensures v.Null? ==> r == ""
    ensures !v.Null? && !NeedsQuotes(ValueText(v)) ==> r == ValueText(v)
    ensures !v.Null? && NeedsQuotes(ValueText(v)) ==>
              |r| >= 2 && r[0] == '"' && r[|r| - 1] == '"' && r[1..|r| - 1] == DoubleQuotes(ValueText(v))
  {
    if v.Null? then "" else EscapeText(ValueText(v))
  }

  /** Escaping a cell is escaping the text it stands for. */
  lemma {:induction false} EscapeCell(v: CsvValue)
    ensures EscapeCsv(v) == EscapeText(CellText(v))
  {
    if v.Null? {
      assert !NeedsQuotes("");
    }
  }

  /** A number never needs quoting: its text is digits after an optional
      minus sign. */
  lemma {:induction false} NumberUnquoted(i: int)
    ensures EscapeCsv(Int(i)) == IntToString(i)
  {
    var s := NatToString(if i < 0 then -i else i);
    assert forall c | c in s :: IsDigit(c);
    assert !NeedsQuotes(IntToString(i)) by {
      if i < 0 {
        assert IntToString(i) == "-" + s;
        assert forall c | c in IntToString(i) :: c == '-' || c in s;
      }
    }
  }

  // ---------------------------------------------------------------------------
  // Reading one field back

  /** `""` read back as `"`, left to right. */
  function UndoubleQuotes(s: string): string
    decreases |s|
  {
    if s == [] then ""
    else if |s| >= 2 && s[0] == '"' && s[1] == '"' then "\"" + UndoubleQuotes(s[2..])
    else [s[0]] + UndoubleQuotes(s[1..])
  }

  /** One field read back: a quoted field loses its outer quotes and has
      its doubled quotes halved; any other field is taken as it is. */
  function Unescape(f: string): string {
    if |f| >= 2 && f[0] == '"' && f[|f| - 1] == '"' then UndoubleQuotes(f[1..|f| - 1]) else f
  }

  lemma {:induction false} UndoubleDouble(s: string)
    ensures UndoubleQuotes(DoubleQuotes(s)) == s
    decreases |s|
  {
    if s != [] {
      UndoubleDouble(s[1..]);
      var d := DoubleQuotes(s);
      if s[0] == '"' {
        assert d[2..] == DoubleQuotes(s[1..]);
      } else {
        assert d[1..] == DoubleQuotes(s[1..]);
      }
    }
  }

  /** Escaping then unescaping a field gives its text back. */
  lemma {:induction false} UnescapeEscape(s: string)
    ensures Unescape(EscapeText(s)) == s
  {
    if NeedsQuotes(s) {
      var e := EscapeText(s);
      assert e[1..|e| - 1] == DoubleQuotes(s);
      UndoubleDouble(s);
    } else if |s| >= 2 {
      assert s[0] in s;
    }
  }

  // ---------------------------------------------------------------------------
  // Reading a record back

  /** The inside of a quoted field up to its closing quote, with doubled
      quotes halved, and what follows the closing quote; None when the
      field is not closed. */
  function ReadQuoted(s: string): (r: Option<(string, string)>)
    ensures r.Some? ==> |r.value.1| < |s|
    decreases |s|
  {
    if s == [] then None
    else if s[0] == '"' then
      if |s| >= 2 && s[1] == '"' then
        match ReadQuoted(s[2..])
        case None => None
        case Some((inner, rest)) => Some(("\"" + inner, rest))
      else Some(("", s[1..]))
    else
      match ReadQuoted(s[1..])
      case None => None
      case Some((inner, rest)) => Some(([s[0]] + inner, rest))
  }

  /** The fields of one record, as section 2 of RFC 4180 reads them: a field
      starting with a quote runs to its closing quote, any other to the
      next comma. None for a record that is not well formed. */
  function ParseRecord(s: string): Option<seq<string>>
    decreases |s|
  {
    if s != [] && s[0] == '"' then
      match ReadQuoted(s[1..])
      case None => None
      case Some((field, rest)) =>
        if rest == [] then Some([field])
        else if rest[0] != ',' then None
        else
          match ParseRecord(rest[1..])
          case None => None
          case Some(fields) => Some([field] + fields)
    else if ',' in s then
      var k := IndexOf(s, ',');
      match ParseRecord(s[k + 1..])
      case None => None
      case Some(fields) => Some([s[..k]] + fields)
    else
      Some([s])
  }

  /** A quoted field's inside is read back up to the closing quote, when
      what follows is the end of the record or a comma. */
  lemma {:induction false} ReadDoubled(s: string, tail: string)
    requires tail == [] || tail[0] == ','
    ensures ReadQuoted(DoubleQuotes(s) + "\"" + tail) == Some((s, tail))
    decreases |s|
  {
    var t := DoubleQuotes(s) + "\"" + tail;
    if s == [] {
      assert t == "\"" + tail;
    } else {
      ReadDoubled(s[1..], tail);
      var u := DoubleQuotes(s[1..]) + "\"" + tail;
      if s[0] == '"' {
        assert t == "\"\"" + u;
        assert t[2..] == u;
        assert "\"" + s[1..] == s;
      } else {
        assert t == [s[0]] + u;
        assert t[1..] == u;
        assert [s[0]] + s[1..] == s;
      }
    }
  }

  /** An escaped field alone is read back as the field's text. */
  lemma {:induction false} ParseLastField(f: string)
    ensures ParseRecord(EscapeText(f)) == Some([f])
  {
    var s := EscapeText(f);
    if NeedsQuotes(f) {
      ReadDoubled(f, "");
      assert s[1..] == DoubleQuotes(f) + "\"" + "";
    } else {
      assert f != [] ==> f[0] in f;
    }
  }

  /** An escaped field followed by a comma is read back as the field's text
      followed by whatever the rest of the record reads as. */
  lemma {:induction false} ParseFieldThenComma(f: string, more: string)
    ensures ParseRecord(EscapeText(f) + [','] + more) ==
              match ParseRecord(more)
              case None => None
              case Some(fields) => Some([f] + fields)
  {
    if NeedsQuotes(f) {
      ParseQuotedThenComma(f, more);
    } else {
      ParsePlainThenComma(f, more);
    }
  }

  lemma {:induction false} ParseQuotedThenComma(f: string, more: string)
    requires NeedsQuotes(f)
    ensures ParseRecord("\"" + DoubleQuotes(f) + "\"" + [','] + more) ==
              match ParseRecord(more)
              case None => None
              case Some(fields) => Some([f] + fields)
  {
    var s := "\"" + DoubleQuotes(f) + "\"" + [','] + more;
    ReadDoubled(f, [','] + more);
    assert s[1..] == DoubleQuotes(f) + "\"" + ([','] + more);
    assert ([','] + more)[1..] == more;
  }

  lemma {:induction false} ParsePlainThenComma(f: string, more: string)
    requires !NeedsQuotes(f)
    ensures ParseRecord(f + [','] + more) ==
              match ParseRecord(more)
              case None => None
              case Some(fields) => Some([f] + fields)
  {
    assert f != [] ==> f[0] in f;
    FirstSeparator(f, ',', more);
  }

  /** Fields escaped and joined with commas are read back as their texts. */
  lemma {:induction false} ParseJoined(fields: seq<string>)
    requires |fields| >= 1
    ensures ParseRecord(Join(EscapeAll(fields), ',')) == Some(fields)
    decreases |fields|
  {
    var es := EscapeAll(fields);
    if |fields| == 1 {
      assert Join(es, ',') == EscapeText(fields[0]);
      ParseLastField(fields[0]);
      assert [fields[0]] == fields;
    } else {
      ParseJoined(fields[1..]);
      assert es[1..] == EscapeAll(fields[1..]);
      ParseFieldThenComma(fields[0], Join(es[1..], ','));
      assert [fields[0]] + fields[1..] == fields;
    }
  }

  /** Every text escaped. */
  function EscapeAll(fields: seq<string>): (r: seq<string>)
    ensures |r| == |fields|
    ensures forall i | 0 <= i < |fields| :: r[i] == EscapeText(fields[i])
  {
    seq(|fields|, i requires 0 <= i < |fields| => EscapeText(fields[i]))
  }

  // ---------------------------------------------------------------------------
  // Records and the file

  /** A row's cells escaped. */
  function EscapeRow(row: seq<CsvValue>): (r: seq<string>)
    ensures |r| == |row|
    ensures forall j | 0 <= j < |row| :: r[j] == EscapeCsv(row[j])
  {
    seq(|row|, j requires 0 <= j < |row| => EscapeCsv(row[j]))
  }

  /** One row as written: its cells escaped and joined with commas. */
  function RowLine(row: seq<CsvValue>): string {
    Join(EscapeRow(row), ',')
  }

  /** Every row's line. */
  function Lines(rows: seq<seq<CsvValue>>): (r: seq<string>)
    ensures |r| == |rows|
    ensures forall i | 0 <= i < |rows| :: r[i] == RowLine(rows[i])
  {
    seq(|rows|, i requires 0 <= i < |rows| => RowLine(rows[i]))
  }

  /** `toCsv`: the rows' lines joined with line feeds. */
  function ToCsv(rows: seq<seq<CsvValue>>): string {
    Join(Lines(rows), '\n')
  }

  /** The texts a row's cells stand for. */
  function RowTexts(row: seq<CsvValue>): (r: seq<string>)
    ensures |r| == |row|
  {
    seq(|row|, j requires 0 <= j < |row| => CellText(row[j]))
  }

  /** Reading a row's line back gives the texts of its cells: a null cell
      reads as the empty string, so null and "" are not told apart. */
  lemma {:induction false} RowRoundTrip(row: seq<CsvValue>)
    requires |row| >= 1
    ensures ParseRecord(RowLine(row)) == Some(RowTexts(row))
  {
    var texts := RowTexts(row);
    forall j | 0 <= j < |row| ensures EscapeCsv(row[j]) == EscapeText(texts[j]) {
      EscapeCell(row[j]);
    }
    assert EscapeRow(row) == EscapeAll(texts);
    ParseJoined(texts);
  }

  /** No line feed in a text leaves none in its escaped form. */
  lemma {:induction false} EscapeKeepsLines(s: string)
    requires '\n' !in s
    ensures '\n' !in EscapeText(s)
  {
  }

  /** With no line feed in any cell, no row's line holds one. */
  lemma {:induction false} LinesOneLine(rows: seq<seq<CsvValue>>)
    requires forall i, j | 0 <= i < |rows| && 0 <= j < |rows[i]| :: '\n' !in CellText(rows[i][j])
    ensures forall i | 0 <= i < |rows| :: '\n' !in Lines(rows)[i]
  {
    forall i | 0 <= i < |rows| ensures '\n' !in Lines(rows)[i] {
      var row := rows[i];
      var cells := EscapeRow(row);
      forall j | 0 <= j < |row| ensures '\n' !in cells[j] {
        EscapeCell(row[j]);
        EscapeKeepsLines(CellText(row[j]));
      }
      JoinChars(cells, ',', '\n');
    }
  }

  /** With no line feed in any cell, the export has one line per row, each
      the row's line. */
  lemma {:induction false} LinesPerRow(rows: seq<seq<CsvValue>>)
    requires |rows| >= 1
    requires forall i, j | 0 <= i < |rows| && 0 <= j < |rows[i]| :: '\n' !in CellText(rows[i][j])
    ensures Split(ToCsv(rows), '\n') == Lines(rows)
    ensures |Split(ToCsv(rows), '\n')| == |rows|
  {
    var lines := Lines(rows);
    LinesOneLine(rows);
    JoinSplit(lines, '\n');
  }

  // ---------------------------------------------------------------------------
  // The export

  /** A `traderMetric` row as read from the database, the creation time
      already in its ISO 8601 form (`toISOString`). */
  datatype StoredMetric = StoredMetric(
    id: int, traderAddress: string, baseTokenAddress: string, quoteTokenAddress: string,
    traderType: QueryType, blockNumber: int, txCount: int,
    baseBalance: CsvValue, quoteBalance: CsvValue, createdAtIso: string)

  /** The schema's name of a trader type. */
  function QueryTypeName(t: QueryType): string {
    match t
    case Polling => "POLLING"
    case Subscription => "SUBSCRIPTION"
  }

  /** The header row. */
  function Header(): (h: seq<CsvValue>)
    ensures |h| == 10
  {
    [Str("id"), Str("traderAddress"), Str("baseTokenAddress"), Str("quoteTokenAddress"),
     Str("traderType"), Str("blockNumber"), Str("txCount"), Str("baseBalance"),
     Str("quoteBalance"), Str("createdAt")]
  }

  /** The row pushed for one metric, in the header's column order. */
  function MetricRow(m: StoredMetric): (r: seq<CsvValue>)
    ensures |r| == |Header()|
  {
    [Int(m.id), Str(m.traderAddress), Str(m.baseTokenAddress), Str(m.quoteTokenAddress),
     Str(QueryTypeName(m.traderType)), Int(m.blockNumber), Int(m.txCount),
     m.baseBalance, m.quoteBalance, Str(m.createdAtIso)]
  }

  /** The rows `exportMetrics` builds: the header, then one row per metric in
      the order read. */
  function ExportRows(metrics: seq<StoredMetric>): (rows: seq<seq<CsvValue>>)
    ensures |rows| == |metrics| + 1 && rows[0] == Header()
    ensures forall i | 0 <= i < |metrics| :: rows[i + 1] == MetricRow(metrics[i])
  {
    [Header()] + seq(|metrics|, i requires 0 <= i < |metrics| => MetricRow(metrics[i]))
  }

  /** Building `rows`: start from the header and push each metric's row. */
  method BuildRows(metrics: seq<StoredMetric>) returns (rows: seq<seq<CsvValue>>)
    ensures rows == ExportRows(metrics)
    ensures forall i | 0 <= i < |rows| :: |rows[i]| == 10
  {
    rows := [Header()];
    for n := 0 to |metrics|
      invariant |rows| == n + 1 && rows[0] == Header()
      invariant forall i | 0 <= i < n :: rows[i + 1] == MetricRow(metrics[i])
      invariant forall i | 0 <= i < |rows| :: |rows[i]| == 10
    {
      rows := rows + [MetricRow(metrics[n])];
    }
  }

  /** `exportMetrics`: the text written to the output file, the export
      followed by a line feed. */
  method ExportMetrics(metrics: seq<StoredMetric>) returns (contents: string)
    ensures contents == ToCsv(ExportRows(metrics)) + "\n"
  {
    var rows := BuildRows(metrics);
    contents := ToCsv(rows) + "\n";
  }

  /** No text of the metric holds a line feed. */
  predicate OneLine(m: StoredMetric) {
    && '\n' !in m.traderAddress && '\n' !in m.baseTokenAddress && '\n' !in m.quoteTokenAddress
    && '\n' !in CellText(m.baseBalance) && '\n' !in CellText(m.quoteBalance)
    && '\n' !in m.createdAtIso
  }

  /** A number's text holds no line feed. */
  lemma {:induction false} NumberOneLine(i: int)
    ensures '\n' !in IntToString(i)
  {
    var s := NatToString(if i < 0 then -i else i);
    assert forall c | c in s :: IsDigit(c);
    if i < 0 {
      assert IntToString(i) == "-" + s;
    }
  }

  /** No header cell holds a line feed. */
  lemma {:induction false} HeaderOneLine()
    ensures forall j | 0 <= j < |Header()| :: '\n' !in CellText(Header()[j])
  {
  }

  /** No cell of a metric's row holds a line feed when the metric has none. */
  lemma {:induction false} MetricRowOneLine(m: StoredMetric)
    requires OneLine(m)
    ensures forall j | 0 <= j < |MetricRow(m)| :: '\n' !in CellText(MetricRow(m)[j])
  {
    NumberOneLine(m.id);
    NumberOneLine(m.blockNumber);
    NumberOneLine(m.txCount);
  }

  /** No cell of the export's rows holds a line feed when no metric does. */
  lemma {:induction false} RowsOneLine(metrics: seq<StoredMetric>)
    requires forall i | 0 <= i < |metrics| :: OneLine(metrics[i])
    ensures var rows := ExportRows(metrics);
            forall i, j | 0 <= i < |rows| && 0 <= j < |rows[i]| :: '\n' !in CellText(rows[i][j])
  {
    var rows := ExportRows(metrics);
    forall i, j | 0 <= i < |rows| && 0 <= j < |rows[i]| ensures '\n' !in CellText(rows[i][j]) {
      if i == 0 {
        HeaderOneLine();
      } else {
        assert rows[i] == MetricRow(metrics[i - 1]);
        MetricRowOneLine(metrics[i - 1]);
      }
    }
  }

  /** The export text ended by a line feed splits into the rows' lines and
      an empty last piece. */
  lemma {:induction false} FileLines(rows: seq<seq<CsvValue>>)
    requires |rows| >= 1
    requires forall i, j | 0 <= i < |rows| && 0 <= j < |rows[i]| :: '\n' !in CellText(rows[i][j])
    ensures Split(ToCsv(rows) + "\n", '\n') == Lines(rows) + [""]
  {
    var lines := Lines(rows);
    var parts := lines + [""];
    LinesOneLine(rows);
    assert forall i | 0 <= i < |parts| :: '\n' !in parts[i];
    JoinSnoc(lines, "", '\n');
    assert Join(parts, '\n') == ToCsv(rows) + "\n";
    JoinSplit(parts, '\n');
  }

  /** With no line feed inside any metric, the file is the header's line,
      then one line per metric in order, each ended by a line feed. */
  lemma {:induction false} ExportLines(metrics: seq<StoredMetric>)
    requires forall i | 0 <= i < |metrics| :: OneLine(metrics[i])
    ensures var lines := Split(ToCsv(ExportRows(metrics)) + "\n", '\n');
            && |lines| == |metrics| + 2
            && lines[0] == RowLine(Header())
            && (forall i | 0 <= i < |metrics| :: lines[i + 1] == RowLine(MetricRow(metrics[i])))
            && lines[|metrics| + 1] == ""
  {
    RowsOneLine(metrics);
    FileLines(ExportRows(metrics));
  }
}

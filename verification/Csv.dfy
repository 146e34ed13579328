/** The audit-log CSV export, and a reader for section 2 of RFC 4180 with LF between records. */
module Csv {
  import opened Wrappers

  /** A cell value: `null` or absent, or anything else by its text (objects by their JSON). */
  datatype Cell = Null | Text(text: string)

  type Row = map<string, Cell>

  const PARTIES := ["createdAt", "transactionId", "id", "senderId", "receiverId"]
  const DECISION := ["amount", "transactionType", "segment", "finalDecision", "decisionSource"]
  const MODELS := ["championModelVersion", "championScore", "shadowModelVersion", "shadowScore"]
  const RULES := ["threshold", "ruleName", "ruleStage", "reasonCodes"]
  const REVIEW := ["overrideDecision", "overrideReason", "reviewedBy", "reviewedAt", "latencyMs"]
  const HEADERS := PARTIES + DECISION + MODELS + RULES + REVIEW

  predicate Special(c: char) {
    c == '"' || c == ',' || c == '\n' || c == '\r'
  }

  predicate NeedsQuotes(s: string) {
    exists c <- s :: Special(c)
  }

  function Doubled(s: string): string {
    if s == "" then "" else (if s[0] == '"' then "\"\"" else [s[0]]) + Doubled(s[1..])
  }

  function CsvCell(v: Cell): string {
    match v
    case Null => ""
    case Text(s) => if NeedsQuotes(s) then "\"" + Doubled(s) + "\"" else s
  }

  function Join(parts: seq<string>, sep: char): string {
    if parts == [] then ""
    else if |parts| == 1 then parts[0]
    else parts[0] + [sep] + Join(parts[1..], sep)
  }

  function Field(row: Row, header: string): Cell {
    if header in row then row[header] else Null
  }

  /** The row's cells under the headers, in their order. */
  function RowCells(headers: seq<string>, row: Row): (cells: seq<Cell>)
    ensures |cells| == |headers|
  {
    if headers == [] then [] else [Field(row, headers[0])] + RowCells(headers[1..], row)
  }

  function Cells(values: seq<Cell>): (cells: seq<string>)
    ensures |cells| == |values|
  {
    if values == [] then [] else [CsvCell(values[0])] + Cells(values[1..])
  }

  function Lines(headers: seq<string>, rows: seq<Row>): seq<string> {
    if rows == [] then [] else [Join(Cells(RowCells(headers, rows[0])), ',')] + Lines(headers, rows[1..])
  }

  method ToCsv(rows: seq<Row>) returns (csv: string)
    ensures csv == Join([Join(HEADERS, ',')] + Lines(HEADERS, rows), '\n')
    ensures ReadCsv(csv).Some? && IsTableOf(ReadCsv(csv).value, HEADERS, rows)
  {
    csv := ToCsvUnder(HEADERS, rows);
    CsvRoundTrip(rows);
    TextsByPlace(HEADERS, rows);
    assert ([HEADERS] + Texts(HEADERS, rows))[1..] == Texts(HEADERS, rows);
  }

  method ToCsvUnder(headers: seq<string>, rows: seq<Row>) returns (csv: string)
    ensures csv == Join([Join(headers, ',')] + Lines(headers, rows), '\n')
  {
    var lines := [Join(headers, ',')];
    for n := 0 to |rows|
      invariant lines + Lines(headers, rows[n..]) == [Join(headers, ',')] + Lines(headers, rows)
    {
      var line := Join(Cells(RowCells(headers, rows[n])), ',');
      assert rows[n..][1..] == rows[n + 1..];
      assert lines + Lines(headers, rows[n..]) == (lines + [line]) + Lines(headers, rows[n + 1..]);
      lines := lines + [line];
    }
    assert lines == lines + Lines(headers, rows[|rows|..]);
    csv := Join(lines, '\n');
  }

  // ── the reader ─────────────────────────────────────────────────

  /** A field and what follows it. */
  datatype Read = Read(text: string, rest: string)

  /** The rest of a quoted field; a doubled quote stands for one. */
  function ReadQuoted(s: string): (r: Option<Read>)
    ensures r.Some? ==> |r.value.rest| < |s|
  {
    if s == "" then None
    else if s[0] != '"' then
      match ReadQuoted(s[1..])
      case None => None
      case Some(r) => Some(Read([s[0]] + r.text, r.rest))
    else if |s| > 1 && s[1] == '"' then
      match ReadQuoted(s[2..])
      case None => None
      case Some(r) => Some(Read("\"" + r.text, r.rest))
    else Some(Read("", s[1..]))
  }

  /** An unquoted field, up to the next comma or line end; it may hold no quote and no CR. */
  function ReadPlain(s: string): (r: Option<Read>)
    ensures r.Some? ==> |r.value.rest| <= |s|
  {
    if s == "" || s[0] == ',' || s[0] == '\n' then Some(Read("", s))
    else if s[0] == '"' || s[0] == '\r' then None
    else
      match ReadPlain(s[1..])
      case None => None
      case Some(r) => Some(Read([s[0]] + r.text, r.rest))
  }

  function ReadField(s: string): (r: Option<Read>)
    ensures r.Some? ==> |r.value.rest| <= |s|
  {
    if s != "" && s[0] == '"' then ReadQuoted(s[1..]) else ReadPlain(s)
  }

  /** A record, and the text after its line end if it has one. */
  datatype Record = Record(fields: seq<string>, more: Option<string>)

  function ReadRecord(s: string): (r: Option<Record>)
    ensures r.Some? && r.value.more.Some? ==> |r.value.more.value| < |s|
    decreases |s|
  {
    match ReadField(s)
    case None => None
    case Some(f) =>
      if f.rest == "" then Some(Record([f.text], None))
      else if f.rest[0] == '\n' then Some(Record([f.text], Some(f.rest[1..])))
      else if f.rest[0] != ',' then None
      else
        match ReadRecord(f.rest[1..])
        case None => None
        case Some(r) => Some(Record([f.text] + r.fields, r.more))
  }

  function ReadCsv(s: string): Option<seq<seq<string>>>
    decreases |s|
  {
    match ReadRecord(s)
    case None => None
    case Some(r) =>
      if r.more.None? then Some([r.fields])
      else
        match ReadCsv(r.more.value)
        case None => None
        case Some(records) => Some([r.fields] + records)
  }

  // ── the round trip ─────────────────────────────────────────────

  /** The text a cell stands for. */
  function Meaning(v: Cell): string {
    if v.Null? then "" else v.text
  }

  predicate EndsField(rest: string) {
    rest == "" || rest[0] == ',' || rest[0] == '\n'
  }

  lemma {:induction false} QuotedReadsBack(s: string, rest: string)
    requires EndsField(rest)
    ensures ReadQuoted(Doubled(s) + "\"" + rest) == Some(Read(s, rest))
  {
    var text := Doubled(s) + "\"" + rest;
    if s == "" {
      assert text == "\"" + rest;
      assert text[1..] == rest;
    } else {
      QuotedReadsBack(s[1..], rest);
      var tail := Doubled(s[1..]) + "\"" + rest;
      assert [s[0]] + s[1..] == s;
      if s[0] == '"' {
        assert text == "\"\"" + tail;
        assert text[2..] == tail;
      } else {
        assert text == [s[0]] + tail;
        assert text[1..] == tail;
      }
    }
  }

  lemma {:induction false} PlainReadsBack(s: string, rest: string)
    requires EndsField(rest) && !NeedsQuotes(s)
    ensures ReadPlain(s + rest) == Some(Read(s, rest))
  {
    if s == "" {
      assert s + rest == rest;
    } else {
      assert !Special(s[0]);
      PlainReadsBack(s[1..], rest);
      assert (s + rest)[1..] == s[1..] + rest;
      assert [s[0]] + s[1..] == s;
    }
  }

  lemma CellReadsBack(v: Cell, rest: string)
    requires EndsField(rest)
    ensures ReadField(CsvCell(v) + rest) == Some(Read(Meaning(v), rest))
  {
    if v.Text? && NeedsQuotes(v.text) {
      QuotedReadsBack(v.text, rest);
      assert CsvCell(v) + rest == "\"" + (Doubled(v.text) + "\"" + rest);
      assert (CsvCell(v) + rest)[1..] == Doubled(v.text) + "\"" + rest;
    } else {
      PlainReadsBack(Meaning(v), rest);
      if Meaning(v) != "" {
        assert !Special(Meaning(v)[0]);
      }
    }
  }

  function Meanings(values: seq<Cell>): (texts: seq<string>)
    ensures |texts| == |values| && forall i | 0 <= i < |values| :: texts[i] == Meaning(values[i])
  {
    if values == [] then [] else [Meaning(values[0])] + Meanings(values[1..])
  }

  lemma JoinStep(parts: seq<string>, sep: char, end: string)
    requires |parts| > 1
    ensures Join(parts, sep) + end == parts[0] + ([sep] + (Join(parts[1..], sep) + end))
  {
  }

  /** The last cell of a line, then nothing or a line end and more text. */
  lemma LastCellReadsBack(v: Cell, more: Option<string>)
    ensures ReadRecord(CsvCell(v) + if more.Some? then "\n" + more.value else "") == Some(Record([Meaning(v)], more))
  {
    var end := if more.Some? then "\n" + more.value else "";
    CellReadsBack(v, end);
    assert more.Some? ==> end[1..] == more.value;
  }

  /** A cell with others after it. */
  lemma NextCellReadsBack(v: Cell, others: string)
    ensures var r := ReadRecord(others);
            ReadRecord(CsvCell(v) + ("," + others)) ==
            if r.None? then None else Some(Record([Meaning(v)] + r.value.fields, r.value.more))
  {
    CellReadsBack(v, "," + others);
    assert ("," + others)[1..] == others;
  }

  /** One line of cells, followed by nothing or by a line end and more text. */
  lemma {:induction false} RecordReadsBack(values: seq<Cell>, more: Option<string>)
    requires values != []
    ensures ReadRecord(Join(Cells(values), ',') + if more.Some? then "\n" + more.value else "") ==
            Some(Record(Meanings(values), more))
  {
    var end := if more.Some? then "\n" + more.value else "";
    if |values| == 1 {
      LastCellReadsBack(values[0], more);
      assert Cells(values) == [CsvCell(values[0])];
      assert Meanings(values) == [Meaning(values[0])];
    } else {
      var others := Join(Cells(values[1..]), ',') + end;
      RecordReadsBack(values[1..], more);
      NextCellReadsBack(values[0], others);
      JoinStep(Cells(values), ',', end);
    }
  }

  /** The texts of all rows under the headers. */
  function Texts(headers: seq<string>, rows: seq<Row>): (table: seq<seq<string>>)
    ensures |table| == |rows| && forall i | 0 <= i < |rows| :: table[i] == Meanings(RowCells(headers, rows[i]))
  {
    if rows == [] then [] else [Meanings(RowCells(headers, rows[0]))] + Texts(headers, rows[1..])
  }

  lemma {:induction false} RowsReadBack(headers: seq<string>, first: seq<Cell>, rows: seq<Row>)
    requires headers != [] && first != []
    ensures ReadCsv(Join([Join(Cells(first), ',')] + Lines(headers, rows), '\n')) ==
            Some([Meanings(first)] + Texts(headers, rows))
    decreases |rows|
  {
    var line := Join(Cells(first), ',');
    if rows == [] {
      RecordReadsBack(first, None);
      assert [line] + Lines(headers, rows) == [line];
      assert line + "" == line;
      assert [Meanings(first)] + Texts(headers, rows) == [Meanings(first)];
    } else {
      var others := [Join(Cells(RowCells(headers, rows[0])), ',')] + Lines(headers, rows[1..]);
      RowsReadBack(headers, RowCells(headers, rows[0]), rows[1..]);
      RecordReadsBack(first, Some(Join(others, '\n')));
      assert Join([line] + Lines(headers, rows), '\n') == line + ("\n" + Join(others, '\n')) by {
        assert ([line] + others)[1..] == others;
      }
    }
  }

  predicate AllPlain(headers: seq<string>) {
    forall h <- headers :: !NeedsQuotes(h)
  }

  function AsCells(headers: seq<string>): (cells: seq<Cell>)
    ensures |cells| == |headers|
  {
    if headers == [] then [] else [Text(headers[0])] + AsCells(headers[1..])
  }

  lemma {:induction false} HeadersStandForThemselves(headers: seq<string>)
    requires AllPlain(headers)
    ensures Cells(AsCells(headers)) == headers && Meanings(AsCells(headers)) == headers
  {
    if headers != [] {
      HeadersStandForThemselves(headers[1..]);
    }
  }

  lemma PartiesArePlain()
    ensures AllPlain(PARTIES)
  {
    forall h | h in PARTIES ensures !NeedsQuotes(h) {
      if h == "createdAt" {
      } else if h == "transactionId" {
      } else if h == "id" {
      } else if h == "senderId" {
      }
    }
  }

  lemma DecisionIsPlain()
    ensures AllPlain(DECISION)
  {
    forall h | h in DECISION ensures !NeedsQuotes(h) {
      if h == "amount" {
      } else if h == "transactionType" {
      } else if h == "segment" {
      } else if h == "finalDecision" {
      }
    }
  }

  lemma ModelsArePlain()
    ensures AllPlain(MODELS)
  {
    forall h | h in MODELS ensures !NeedsQuotes(h) {
      if h == "championModelVersion" {
      } else if h == "championScore" {
      } else if h == "shadowModelVersion" {
      }
    }
  }

  lemma RulesArePlain()
    ensures AllPlain(RULES)
  {
    forall h | h in RULES ensures !NeedsQuotes(h) {
      if h == "threshold" {
      } else if h == "ruleName" {
      } else if h == "ruleStage" {
      }
    }
  }

  lemma ReviewIsPlain()
    ensures AllPlain(REVIEW)
  {
    forall h | h in REVIEW ensures !NeedsQuotes(h) {
      if h == "overrideDecision" {
      } else if h == "overrideReason" {
      } else if h == "reviewedBy" {
      } else if h == "reviewedAt" {
      }
    }
  }

  lemma TheHeadersArePlain()
    ensures |HEADERS| == 23 && AllPlain(HEADERS)
  {
    PartiesArePlain();
    DecisionIsPlain();
    ModelsArePlain();
    RulesArePlain();
    ReviewIsPlain();
  }

  /** Reading the export recovers the header and, row by row and column by column, the text of every
      cell, whatever quotes, commas and line breaks the cells hold. */
  lemma CsvRoundTrip(rows: seq<Row>)
    ensures |HEADERS| == 23
    ensures ReadCsv(Join([Join(HEADERS, ',')] + Lines(HEADERS, rows), '\n')) == Some([HEADERS] + Texts(HEADERS, rows))
  {
    TheHeadersArePlain();
    RoundTripUnder(HEADERS, rows);
  }

  lemma RoundTripUnder(headers: seq<string>, rows: seq<Row>)
    requires headers != [] && AllPlain(headers)
    ensures ReadCsv(Join([Join(headers, ',')] + Lines(headers, rows), '\n')) == Some([headers] + Texts(headers, rows))
  {
    HeadersStandForThemselves(headers);
    RowsReadBack(headers, AsCells(headers), rows);
  }

  /** The header, then row by row under each header the text of the row's own field of that name; a
      field that is missing or null is empty. */
  ghost predicate IsTableOf(table: seq<seq<string>>, headers: seq<string>, rows: seq<Row>) {
    |table| == |rows| + 1 && table[0] == headers && AreRecordsOf(table[1..], headers, rows)
  }

  ghost predicate AreRecordsOf(records: seq<seq<string>>, headers: seq<string>, rows: seq<Row>) {
    |records| == |rows| && forall n | 0 <= n < |rows| :: IsRecordOf(records[n], headers, rows[n])
  }

  ghost predicate IsRecordOf(fields: seq<string>, headers: seq<string>, row: Row) {
    && |fields| == |headers|
    && forall i | 0 <= i < |headers| ::
         fields[i] == if headers[i] in row && row[headers[i]].Text? then row[headers[i]].text else ""
  }

  lemma {:induction false} FieldsByPlace(headers: seq<string>, row: Row)
    ensures IsRecordOf(Meanings(RowCells(headers, row)), headers, row)
  {
    if headers != [] {
      FieldsByPlace(headers[1..], row);
      assert Meanings(RowCells(headers, row)) == [Meaning(Field(row, headers[0]))] + Meanings(RowCells(headers[1..], row));
    }
  }

  lemma TextsByPlace(headers: seq<string>, rows: seq<Row>)
    ensures AreRecordsOf(Texts(headers, rows), headers, rows)
  {
    forall n | 0 <= n < |rows| ensures IsRecordOf(Texts(headers, rows)[n], headers, rows[n]) {
      FieldsByPlace(headers, rows[n]);
    }
  }

  /** A text is written bare exactly when it holds no quote, no comma and no line end. */
  lemma BareIff(s: string)
    ensures CsvCell(Text(s)) == s <==> '"' !in s && ',' !in s && '\n' !in s && '\r' !in s
  {
    if NeedsQuotes(s) {
      DoubledIsNoShorter(s);
      assert |CsvCell(Text(s))| > |s|;
    }
    assert NeedsQuotes(s) <==> '"' in s || ',' in s || '\n' in s || '\r' in s;
  }

  lemma {:induction false} DoubledIsNoShorter(s: string)
    ensures |Doubled(s)| >= |s|
  {
    if s != "" {
      DoubledIsNoShorter(s[1..]);
    }
  }
}

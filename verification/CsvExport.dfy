// The CSV export of the audit trail, and a reader of the format that section 2 of RFC 4180
// defines, with a line feed as the record separator.
module CsvExport {
  import opened Basics

  // An exported row; occurredAt is the timestamp as it prints.
  datatype ExportRow = ExportRow(
    auditId: string, occurredAt: string, userId: Option<string>, action: string,
    entityType: Option<string>, entityId: Option<string>, requestId: Option<string>, auditHash: Option<string>)

  const HEADER: seq<string> := [
    "audit_id", "occurred_at", "user_id", "action", "entity_type", "entity_id", "request_id", "audit_hash"
  ]

  // `String(value ?? "")`
  function Text(value: Option<string>): string {
    if value.Some? then value.value else ""
  }

  function Columns(row: ExportRow): seq<string> {
    [row.auditId, row.occurredAt, Text(row.userId), row.action,
     Text(row.entityType), Text(row.entityId), Text(row.requestId), Text(row.auditHash)]
  }

  // `replace(/"/g, '""')`
  function DoubleQuotes(value: string): string {
    if value == "" then ""
    else (if value[0] == '"' then "\"\"" else [value[0]]) + DoubleQuotes(value[1..])
  }

  function Escape(value: string): string {
    "\"" + DoubleQuotes(value) + "\""
  }

  function Join(parts: seq<string>, separator: string): string {
    if |parts| == 0 then ""
    else if |parts| == 1 then parts[0]
    else parts[0] + separator + Join(parts[1..], separator)
  }

  function Escaped(values: seq<string>): (texts: seq<string>)
    ensures |texts| == |values|
  {
    seq(|values|, i requires 0 <= i < |values| => Escape(values[i]))
  }

  function Lines(rows: seq<ExportRow>): (lines: seq<string>)
    ensures |lines| == |rows|
  {
    seq(|rows|, i requires 0 <= i < |rows| => Join(Escaped(Columns(rows[i])), ","))
  }

  function ExportCsv(rows: seq<ExportRow>): string {
    Join([Join(HEADER, ",")] + Lines(rows), "\n")
  }

  /******* The reader *******/

  // What is inside double quotes, up to the closing one, and what follows it.
  function ReadQuoted(s: string): (r: Option<(string, string)>)
    ensures r.Some? ==> |r.value.1| < |s|
  {
    if s == "" then None
    else if s[0] != '"' then
      match ReadQuoted(s[1..])
      case None => None
      case Some((field, rest)) => Some(([s[0]] + field, rest))
    else if |s| > 1 && s[1] == '"' then
      match ReadQuoted(s[2..])
      case None => None
      case Some((field, rest)) => Some(("\"" + field, rest))
    else Some(("", s[1..]))
  }

  predicate PlainChar(c: char) {
    c != ',' && c != '"' && c != '\n' && c != '\r'
  }

  function ReadPlain(s: string): (r: (string, string))
    ensures |r.1| <= |s|
  {
    if s == "" || !PlainChar(s[0]) then ("", s)
    else
      var (field, rest) := ReadPlain(s[1..]);
      ([s[0]] + field, rest)
  }

  function ReadField(s: string): (r: Option<(string, string)>)
    ensures r.Some? ==> |r.value.1| <= |s|
  {
    if s != "" && s[0] == '"' then ReadQuoted(s[1..]) else Some(ReadPlain(s))
  }

  // All records. The last may end with a line feed or without one.
  function Read(s: string): (records: Option<seq<seq<string>>>)
    ensures records.Some? ==> records.value != [] && records.value[0] != []
    decreases |s|
  {
    match ReadField(s)
    case None => None
    case Some((field, rest)) =>
      if rest == "" || rest == "\n" then Some([[field]])
      else if rest[0] == ',' then
        match Read(rest[1..])
        case None => None
        case Some(records) => Some([[field] + records[0]] + records[1..])
      else if rest[0] == '\n' then
        match Read(rest[1..])
        case None => None
        case Some(records) => Some([[field]] + records)
      else None
  }

  /******* Reading back what was written *******/

  predicate Plain(field: string) {
    forall i :: 0 <= i < |field| ==> PlainChar(field[i])
  }

  // A field ends where the text does, or at a separator.
  predicate EndsField(rest: string) {
    rest == "" || rest[0] == ',' || rest[0] == '\n'
  }

  predicate Writes(text: string, field: string) {
    text == Escape(field) || (text == field && Plain(field) && field != "")
  }

  lemma {:induction false} QuotedReadsBack(field: string, rest: string)
    requires EndsField(rest)
    ensures ReadQuoted(DoubleQuotes(field) + "\"" + rest) == Some((field, rest))
  {
    var s := DoubleQuotes(field) + "\"" + rest;
    if field == "" {
      assert s == "\"" + rest;
    } else {
      QuotedReadsBack(field[1..], rest);
      var tail := DoubleQuotes(field[1..]) + "\"" + rest;
      assert [field[0]] + field[1..] == field;
      if field[0] == '"' {
        assert s == "\"\"" + tail && s[2..] == tail;
      } else {
        assert s == [field[0]] + tail && s[1..] == tail;
      }
    }
  }

  lemma {:induction false} PlainReadsBack(field: string, rest: string)
    requires Plain(field) && EndsField(rest)
    ensures ReadPlain(field + rest) == (field, rest)
  {
    if field == "" {
      assert field + rest == rest;
    } else {
      PlainReadsBack(field[1..], rest);
      assert [field[0]] + field[1..] == field;
      assert (field + rest)[1..] == field[1..] + rest;
    }
  }

  lemma FieldReadsBack(text: string, field: string, rest: string)
    requires Writes(text, field) && EndsField(rest)
    ensures ReadField(text + rest) == Some((field, rest)) && text != ""
  {
    if text == Escape(field) {
      QuotedReadsBack(field, rest);
      assert (text + rest)[1..] == DoubleQuotes(field) + "\"" + rest;
    } else {
      PlainReadsBack(field, rest);
    }
  }

  predicate WritesRecord(texts: seq<string>, fields: seq<string>) {
    |texts| == |fields| && |fields| > 0 && forall i :: 0 <= i < |fields| ==> Writes(texts[i], fields[i])
  }

  // A field, a comma and the rest of its record.
  lemma FieldThenComma(text: string, field: string, tail: string, first: seq<string>, others: seq<seq<string>>)
    requires Writes(text, field) && Read(tail) == Some([first] + others)
    ensures Read(text + ("," + tail)) == Some([[field] + first] + others)
  {
    FieldReadsBack(text, field, "," + tail);
    assert ("," + tail)[1..] == tail;
    assert ([first] + others)[1..] == others;
  }

  // The last field of a record and what follows it: nothing, or a line feed and further records.
  predicate Continues(rest: string, others: seq<seq<string>>) {
    if rest == "" then others == []
    else rest[0] == '\n' && rest != "\n" && Read(rest[1..]) == Some(others)
  }

  lemma LastField(text: string, field: string, rest: string, others: seq<seq<string>>)
    requires Writes(text, field) && Continues(rest, others)
    ensures Read(text + rest) == Some([[field]] + others)
  {
    FieldReadsBack(text, field, rest);
    assert [[field]] + [] == [[field]];
  }

  lemma JoinedThen(texts: seq<string>, rest: string)
    requires |texts| > 1
    ensures Join(texts, ",") + rest == texts[0] + ("," + (Join(texts[1..], ",") + rest))
  {
  }

  lemma {:induction false} RecordReadsBack(texts: seq<string>, fields: seq<string>, rest: string, others: seq<seq<string>>)
    requires WritesRecord(texts, fields) && Continues(rest, others)
    ensures Read(Join(texts, ",") + rest) == Some([fields] + others)
    decreases |texts|
  {
    if |texts| == 1 {
      LastField(texts[0], fields[0], rest, others);
      assert fields == [fields[0]];
    } else {
      RecordReadsBack(texts[1..], fields[1..], rest, others);
      FieldThenComma(texts[0], fields[0], Join(texts[1..], ",") + rest, fields[1..], others);
      JoinedThen(texts, rest);
      assert [fields[0]] + fields[1..] == fields;
    }
  }

  predicate WritesAll(written: seq<seq<string>>, records: seq<seq<string>>) {
    |written| == |records| > 0 && forall i :: 0 <= i < |records| ==> WritesRecord(written[i], records[i])
  }

  function JoinEach(written: seq<seq<string>>): (lines: seq<string>)
    ensures |lines| == |written|
  {
    seq(|written|, i requires 0 <= i < |written| => Join(written[i], ","))
  }

  lemma JoinIsNotEmpty(parts: seq<string>, separator: string)
    requires |parts| > 0 && parts[0] != ""
    ensures Join(parts, separator) != ""
  {
  }

  lemma RecordIsNotEmpty(texts: seq<string>, fields: seq<string>)
    requires WritesRecord(texts, fields)
    ensures Join(texts, ",") != ""
  {
    assert Writes(texts[0], fields[0]);
    JoinIsNotEmpty(texts, ",");
  }

  lemma JoinUnfolds(parts: seq<string>, separator: string)
    requires |parts| > 1
    ensures Join(parts, separator) == parts[0] + (separator + Join(parts[1..], separator))
  {
  }

  lemma {:induction false} RecordsReadBack(written: seq<seq<string>>, records: seq<seq<string>>)
    requires WritesAll(written, records)
    ensures Join(JoinEach(written), "\n") != "" && Read(Join(JoinEach(written), "\n")) == Some(records)
    decreases |written|
  {
    var first, rest := JoinEach(written)[0], "";
    RecordIsNotEmpty(written[0], records[0]);
    JoinIsNotEmpty(JoinEach(written), "\n");
    if |written| == 1 {
      assert JoinEach(written) == [first];
    } else {
      var tail := Join(JoinEach(written[1..]), "\n");
      RecordsReadBack(written[1..], records[1..]);
      rest := "\n" + tail;
      assert rest[1..] == tail;
      JoinUnfolds(JoinEach(written), "\n");
      assert JoinEach(written)[1..] == JoinEach(written[1..]);
    }
    assert Join(JoinEach(written), "\n") == first + rest;
    assert Continues(rest, records[1..]);
    RecordReadsBack(written[0], records[0], rest, records[1..]);
    assert [records[0]] + records[1..] == records;
  }

  function AllColumns(rows: seq<ExportRow>): (records: seq<seq<string>>)
    ensures |records| == |rows|
  {
    seq(|rows|, i requires 0 <= i < |rows| => Columns(rows[i]))
  }

  lemma HeaderIsPlain()
    ensures WritesRecord(HEADER, HEADER)
  {
    assert Plain("audit_id") && Plain("occurred_at") && Plain("user_id") && Plain("action");
    assert Plain("entity_type") && Plain("entity_id") && Plain("request_id") && Plain("audit_hash");
  }

  lemma {:induction false} WithHeader(header: seq<string>, rows: seq<ExportRow>)
    requires WritesRecord(header, header)
    ensures Read(Join([Join(header, ",")] + Lines(rows), "\n")) == Some([header] + AllColumns(rows))
  {
    var written := [header] + seq(|rows|, i requires 0 <= i < |rows| => Escaped(Columns(rows[i])));
    assert JoinEach(written) == [Join(header, ",")] + Lines(rows);
    RecordsReadBack(written, [header] + AllColumns(rows));
  }

  // For all rows, whatever quotes, commas and line breaks their values hold, a reader recovers
  // the header and exactly every value.
  lemma ExportReadsBack(rows: seq<ExportRow>)
    ensures Read(ExportCsv(rows)) == Some([HEADER] + AllColumns(rows))
  {
    HeaderIsPlain();
    WithHeader(HEADER, rows);
  }

  // In a file that was read, some column has the name, and in every such column record k has
  // the value.
  predicate Under(records: seq<seq<string>>, k: nat, name: string, value: string)
    requires 0 < k < |records|
  {
    |records[k]| == |records[0]| && name in records[0]
    && forall i :: 0 <= i < |records[0]| && records[0][i] == name ==> records[k][i] == value
  }

  lemma HeaderNamesDiffer(i: nat, j: nat)
    requires i < j < 8
    ensures HEADER[i] != HEADER[j]
  {
    assert HEADER[1][0] != HEADER[4][0];
    assert HEADER[6][0] != HEADER[7][0];
  }

  lemma StandsUnder(records: seq<seq<string>>, k: nat, i: nat)
    requires 0 < k < |records| && records[0] == HEADER && |records[k]| == 8 && i < 8
    ensures Under(records, k, HEADER[i], records[k][i])
  {
    forall j | 0 <= j < 8 && HEADER[j] == HEADER[i] ensures j == i {
      if j < i {
        HeaderNamesDiffer(j, i);
      } else if i < j {
        HeaderNamesDiffer(i, j);
      }
    }
  }

  // Every value of the row stands under its name in record k, and nothing where it has none.
  predicate Shows(records: seq<seq<string>>, k: nat, row: ExportRow)
    requires 0 < k < |records|
  {
    Under(records, k, "audit_id", row.auditId)
    && Under(records, k, "occurred_at", row.occurredAt)
    && Under(records, k, "user_id", if row.userId.Some? then row.userId.value else "")
    && Under(records, k, "action", row.action)
    && Under(records, k, "entity_type", if row.entityType.Some? then row.entityType.value else "")
    && Under(records, k, "entity_id", if row.entityId.Some? then row.entityId.value else "")
    && Under(records, k, "request_id", if row.requestId.Some? then row.requestId.value else "")
    && Under(records, k, "audit_hash", if row.auditHash.Some? then row.auditHash.value else "")
  }

  lemma ColumnsShowTheRow(records: seq<seq<string>>, k: nat, row: ExportRow)
    requires 0 < k < |records| && records[0] == HEADER && records[k] == Columns(row)
    ensures Shows(records, k, row)
  {
    StandsUnder(records, k, 0);
    StandsUnder(records, k, 1);
    StandsUnder(records, k, 2);
    StandsUnder(records, k, 3);
    StandsUnder(records, k, 4);
    StandsUnder(records, k, 5);
    StandsUnder(records, k, 6);
    StandsUnder(records, k, 7);
  }

  // What a reader finds under each name is, for every row in their order, that value of the row.
  lemma ValuesStandUnderTheirNames(rows: seq<ExportRow>, k: nat)
    requires k < |rows|
    ensures
      var read := Read(ExportCsv(rows));
      read.Some? && |read.value| == |rows| + 1 && Shows(read.value, k + 1, rows[k])
  {
    ExportReadsBack(rows);
    var records := [HEADER] + AllColumns(rows);
    assert records[k + 1] == AllColumns(rows)[k];
    ColumnsShowTheRow(records, k + 1, rows[k]);
  }

  // Two exports are the same text only when they hold the same values.
  lemma ExportIsFaithful(rows: seq<ExportRow>, rows': seq<ExportRow>)
    ensures ExportCsv(rows) == ExportCsv(rows') <==> AllColumns(rows) == AllColumns(rows')
  {
    ExportReadsBack(rows);
    ExportReadsBack(rows');
    if ExportCsv(rows) == ExportCsv(rows') {
      assert ([HEADER] + AllColumns(rows))[1..] == AllColumns(rows);
      assert ([HEADER] + AllColumns(rows'))[1..] == AllColumns(rows');
    }
    if AllColumns(rows) == AllColumns(rows') {
      forall i | 0 <= i < |rows| ensures Columns(rows[i]) == Columns(rows'[i]) {
        assert AllColumns(rows)[i] == AllColumns(rows')[i];
      }
      assert Lines(rows) == Lines(rows');
    }
  }
}

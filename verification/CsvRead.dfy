/** Sniffing and reading CSV text (crates/ultrasql-core/src/csv.rs). */
module CsvRead {
  import opened Wrappers
  import opened Text
  import opened CsvParser
  import opened CsvRoundTrip
  import opened CsvInference
  import opened CsvSniff

  datatype Column = Column(name: string, ty: CsvType)

  datatype Sniffed = Sniffed(
    path: string, options: Options, newline: string, hasHeader: bool, columns: seq<Column>)

  datatype ReadData = ReadData(header: Record, records: seq<Record>, hasHeader: bool)

  // ----- Headers -----

  /** No two names are the same but for ASCII case. */
  predicate DistinctFolded(names: Record) {
    forall i, j :: 0 <= i < j < |names| ==> Fold(names[i]) != Fold(names[j])
  }

  predicate Usable(rules: Rules, names: Record) {
    (forall i :: 0 <= i < |names| ==> rules.trim(names[i]) != "") && DistinctFolded(names)
  }

  method HeaderNamesAreUsable(rules: Rules, names: Record) returns (ok: bool)
    ensures ok <==> Usable(rules, names)
  {
    var seen: set<string> := {};
    for i := 0 to |names|
      invariant forall j :: 0 <= j < i ==> rules.trim(names[j]) != "" && Fold(names[j]) in seen
      invariant forall s :: s in seen ==> exists j :: 0 <= j < i && Fold(names[j]) == s
      invariant DistinctFolded(names[..i])
    {
      if rules.trim(names[i]) == "" {
        return false;
      }
      if Fold(names[i]) in seen {
        return false;
      }
      seen := seen + {Fold(names[i])};
    }
    assert names[..|names|] == names;
    return true;
  }

  /** The first record names the columns: its names are usable and it does not fit the data below it. */
  predicate HasHeader(rules: Rules, records: seq<Record>) {
    && records != []
    && records[0] != []
    && Usable(rules, records[0])
    && var first, rest := records[0], records[1..];
       if rest == [] then exists i :: 0 <= i < |first| && InferCell(rules, first[i]) == Some(PlainText)
       else exists i :: 0 <= i < |first| && !Compatible(rules, first[i], ColumnTypes(rules, rest, |first|)[i])
  }

  method DetectHeader(rules: Rules, records: seq<Record>) returns (r: bool)
    ensures r <==> HasHeader(rules, records)
  {
    if records == [] {
      return false;
    }
    var first := records[0];
    var usable := HeaderNamesAreUsable(rules, first);
    if first == [] || !usable {
      return false;
    }
    if records[1..] == [] {
      return exists i :: 0 <= i < |first| && InferCell(rules, first[i]) == Some(PlainText);
    }
    var types := InferColumnTypes(rules, records[1..], |first|);
    return exists i :: 0 <= i < |first| && !Compatible(rules, first[i], types[i]);
  }

  // ----- Sniffing -----

  predicate HasCrLf(input: string) {
    exists i :: 0 <= i < |input| - 1 && input[i] == '\r' && input[i + 1] == '\n'
  }

  /** The newline of the text, escaped for display. */
  function DetectNewline(input: string): string {
    if HasCrLf(input) then "\\r\\n"
    else if '\n' in input then "\\n"
    else if '\r' in input then "\\r"
    else "\\n"
  }

  function DataRows(hasHeader: bool, records: seq<Record>): seq<Record> {
    if hasHeader && records != [] then records[1..] else records
  }

  function GeneratedName(i: nat): string {
    "column" + Decimal(i)
  }

  function ColumnNames(hasHeader: bool, records: seq<Record>, width: nat): Record {
    if hasHeader && records != [] then records[0] else seq(width, i requires 0 <= i < width => GeneratedName(i))
  }

  function ZipColumns(names: Record, types: seq<CsvType>): seq<Column> {
    var n := if |names| < |types| then |names| else |types|;
    seq(n, i requires 0 <= i < n => Column(names[i], types[i]))
  }

  function NamesOf(columns: seq<Column>): Record {
    seq(|columns|, i requires 0 <= i < |columns| => columns[i].name)
  }

  predicate AllOfWidth(records: seq<Record>, width: nat) {
    forall i :: 0 <= i < |records| ==> |records[i]| == width
  }

  function Columns(rules: Rules, records: seq<Record>, width: nat): seq<Column> {
    var hasHeader := HasHeader(rules, records);
    ZipColumns(ColumnNames(hasHeader, records, width), ColumnTypes(rules, DataRows(hasHeader, records), width))
  }

  ghost function Sniff(rules: Rules, path: string, input: string): Result<Sniffed, CsvError> {
    match Dialect(input)
    case Err(e) => Err(e)
    case Ok(c) =>
      match Parse(c.options, input)
      case Err(e) => Err(e)
      case Ok(records) =>
        if records == [] then Err(NoRows)
        else if c.width == 0 then Err(NoColumns)
        else if !AllOfWidth(records, c.width) then Err(RowWidth)
        else
          Ok(Sniffed(path, c.options, DetectNewline(input), HasHeader(rules, records),
                     Columns(rules, records, c.width)))
  }

  /** Fails on the first record of another width; otherwise gives the records from `start` on. */
  method CheckedRows(records: seq<Record>, start: nat, width: nat) returns (r: Result<seq<Record>, CsvError>)
    requires start <= |records|
    ensures r == if AllOfWidth(records[start..], width) then Ok(records[start..]) else Err(RowWidth)
  {
    var rows: seq<Record> := [];
    for i := start to |records|
      invariant rows == records[start..i]
      invariant AllOfWidth(rows, width)
    {
      if |records[i]| != width {
        assert records[start..][i - start] == records[i];
        return Err(RowWidth);
      }
      rows := rows + [records[i]];
    }
    assert rows == records[start..];
    return Ok(rows);
  }

  method SniffCsvText(rules: Rules, path: string, input: string) returns (r: Result<Sniffed, CsvError>)
    ensures r == Sniff(rules, path, input)
  {
    var candidate :- ChooseDialect(input);
    var records :- ParseCsvRecords(input, candidate.options);
    if records == [] {
      return Err(NoRows);
    }
    if candidate.width == 0 {
      return Err(NoColumns);
    }
    var _ :- CheckedRows(records, 0, candidate.width);
    var hasHeader := DetectHeader(rules, records);
    var types := InferColumnTypes(rules, DataRows(hasHeader, records), candidate.width);
    var columns := ZipColumns(ColumnNames(hasHeader, records, candidate.width), types);
    return Ok(Sniffed(path, candidate.options, DetectNewline(input), hasHeader, columns));
  }

  // ----- What a successful sniff means -----

  /** `parsed` is what the sniffed dialect reads, and every record has one cell for each column. */
  lemma SniffedRecords(rules: Rules, path: string, input: string)
    requires Sniff(rules, path, input).Ok?
    ensures var s := Sniff(rules, path, input).value;
            && Parse(s.options, input).Ok?
            && Parse(s.options, input).value != []
            && AllOfWidth(Parse(s.options, input).value, |s.columns|)
            && (s.hasHeader ==> NamesOf(s.columns) == Parse(s.options, input).value[0])
            && (!s.hasHeader ==> forall i :: 0 <= i < |s.columns| ==> s.columns[i].name == "column" + Decimal(i))
  {
    var c := Dialect(input).value;
    var records := Parse(c.options, input).value;
    var s := Sniff(rules, path, input).value;
    assert |s.columns| == c.width;
    if s.hasHeader {
      assert NamesOf(s.columns) == records[0];
    }
  }

  /** Every data cell is accepted by the type of its column. */
  lemma SniffedTypesFit(rules: Rules, path: string, input: string, row: nat, col: nat)
    requires Sniff(rules, path, input).Ok? && rules.Sound()
    requires var s := Sniff(rules, path, input).value;
             && Parse(s.options, input).Ok?
             && var data := DataRows(s.hasHeader, Parse(s.options, input).value);
                row < |data| && col < |data[row]|
    ensures var s := Sniff(rules, path, input).value;
            && col < |s.columns|
            && Compatible(rules, DataRows(s.hasHeader, Parse(s.options, input).value)[row][col], s.columns[col].ty)
  {
    SniffedRecords(rules, path, input);
    var s := Sniff(rules, path, input).value;
    var data := DataRows(s.hasHeader, Parse(s.options, input).value);
    CellsFitColumnTypes(rules, data, |s.columns|, row, col);
  }

  /** Column names are distinct even when ASCII case is ignored, whether read or generated. */
  lemma SniffedNamesAreDistinct(rules: Rules, path: string, input: string)
    requires Sniff(rules, path, input).Ok?
    ensures DistinctFolded(NamesOf(Sniff(rules, path, input).value.columns))
  {
    SniffedRecords(rules, path, input);
    var s := Sniff(rules, path, input).value;
    var names := NamesOf(s.columns);
    if !s.hasHeader {
      forall i, j | 0 <= i < j < |names| ensures Fold(names[i]) != Fold(names[j]) {
        GeneratedNamesDiffer(i, j);
      }
    }
  }

  lemma GeneratedNamesDiffer(i: nat, j: nat)
    requires i != j
    ensures Fold(GeneratedName(i)) != Fold(GeneratedName(j))
  {
    ToNatOfDecimal(i);
    ToNatOfDecimal(j);
    assert Decimal(i) != Decimal(j);
    FoldedDigits(i);
    FoldedDigits(j);
  }

  lemma FoldedDigits(i: nat)
    ensures Fold(GeneratedName(i))[6..] == Decimal(i)
  {
  }

  /** No input is reported as having no columns. */
  lemma NoColumnsNeverReported(rules: Rules, path: string, input: string)
    ensures Sniff(rules, path, input) != Err(NoColumns)
  {
    if Best(input, DELIMITERS).Some? {
      BestIsFirstBest(input, DELIMITERS);
      StandingIsWide(input, DELIMITERS, Best(input, DELIMITERS).value);
    } else if Parse(DialectOf(','), input).Ok? {
      ParsedRecordsAreNonEmpty(DialectOf(','), input);
    }
  }

  lemma StandingIsWide(input: string, delimiters: seq<char>, c: Candidate)
    requires SomeIsFirstBest(input, delimiters, c)
    ensures c.width > 1
  {
  }

  // ----- Reading -----

  /** The records are the header row, if there is one, and the data. */
  lemma HeaderSplits(hasHeader: bool, records: seq<Record>, header: Record)
    requires records != [] && (hasHeader ==> header == records[0]) && AllOfWidth(records, |header|)
    ensures var start := if hasHeader then 1 else 0;
            && AllOfWidth(records[start..], |header|)
            && records == (if hasHeader then [header] else []) + records[start..]
  {
  }

  /** Reading succeeds exactly when sniffing does, and splits the parsed records into header and data. */
  method ReadCsvData(rules: Rules, path: string, input: string) returns (r: Result<ReadData, CsvError>)
    ensures r.Ok? <==> Sniff(rules, path, input).Ok?
    ensures r.Err? ==> Sniff(rules, path, input) == Err(r.error)
    ensures r.Ok? ==>
              var s := Sniff(rules, path, input).value;
              && r.value.hasHeader == s.hasHeader
              && r.value.header == NamesOf(s.columns)
              && AllOfWidth(r.value.records, |r.value.header|)
              && Parse(s.options, input) == Ok((if s.hasHeader then [r.value.header] else []) + r.value.records)
  {
    var s :- SniffCsvText(rules, path, input);
    SniffedRecords(rules, path, input);
    ghost var all := Parse(s.options, input).value;
    HeaderSplits(s.hasHeader, all, NamesOf(s.columns));
    var parsed := ParseCsvRecords(input, s.options);
    r := ReadRecords(s, parsed);
  }

  /** The tail of reading, after both parses. */
  method ReadRecords(s: Sniffed, parsed: Result<seq<Record>, CsvError>) returns (r: Result<ReadData, CsvError>)
    requires parsed.Ok? ==> parsed.value != []
    ensures parsed.Err? ==> r == Err(parsed.error)
    ensures parsed.Ok? ==>
              var data := parsed.value[if s.hasHeader then 1 else 0..];
              r == if AllOfWidth(data, |s.columns|) then Ok(ReadData(NamesOf(s.columns), data, s.hasHeader))
                   else Err(RowWidth)
  {
    var records :- parsed;
    var data :- CheckedRows(records, if s.hasHeader then 1 else 0, |s.columns|);
    r := Ok(ReadData(NamesOf(s.columns), data, s.hasHeader));
  }
}

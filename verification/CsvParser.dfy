/** The CSV parser (crates/ultrasql-core/src/csv.rs) against a printer of the format in section 2 of RFC 4180. */
module CsvParser {
  import opened Wrappers
  import opened Text

  datatype Options = Options(delimiter: char, quote: Option<char>, escape: Option<char>)

  type Record = seq<string>

  /** What the parser has seen so far. */
  datatype Progress = Progress(
    records: seq<Record>, row: Record, field: string, inQuotes: bool, fieldStarted: bool)

  const START := Progress([], [], "", false, false)

  function Push(p: Progress, c: char): Progress {
    p.(field := p.field + [c])
  }

  function FinishField(p: Progress): Progress {
    p.(row := p.row + [p.field], field := "", fieldStarted := false)
  }

  /** Ends a record; a line with nothing on it is skipped. */
  function FinishRecord(p: Progress): Progress {
    if p.fieldStarted || p.field != "" || p.row != [] then
      p.(records := p.records + [p.row + [p.field]], row := [], field := "", fieldStarted := false)
    else p.(fieldStarted := false)
  }

  /** One step inside quotes: the progress and how many characters it used. */
  function QuotedStep(o: Options, p: Progress, s: string): (r: (Progress, nat))
    requires s != ""
    ensures 1 <= r.1 <= |s|
  {
    var c := s[0];
    if o.escape == Some(c) && o.quote == Some(c) then
      if Next(s, c) then (Push(p, c), 2) else (p.(inQuotes := false), 1)
    else if o.escape == Some(c) then
      if |s| > 1 && (o.quote == Some(s[1]) || s[1] == c) then (Push(p, s[1]), 2) else (Push(p, c), 1)
    else if o.quote == Some(c) then (p.(inQuotes := false), 1)
    else (Push(p, c), 1)
  }

  /** One step outside quotes. */
  function PlainStep(o: Options, p: Progress, s: string): (r: (Progress, nat))
    requires s != ""
    ensures 1 <= r.1 <= |s|
  {
    var c := s[0];
    if o.quote == Some(c) && !p.fieldStarted then (p.(inQuotes := true, fieldStarted := true), 1)
    else if c == o.delimiter then (FinishField(p), 1)
    else if c == '\n' then (FinishRecord(p), 1)
    else if c == '\r' then (FinishRecord(p), if Next(s, '\n') then 2 else 1)
    else (Push(p, c).(fieldStarted := true), 1)
  }

  function Step(o: Options, p: Progress, s: string): (r: (Progress, nat))
    requires s != ""
    ensures 1 <= r.1 <= |s|
  {
    if p.inQuotes then QuotedStep(o, p, s) else PlainStep(o, p, s)
  }

  function Run(o: Options, p: Progress, s: string): Progress
    decreases |s|
  {
    if s == "" then p else Run(o, Step(o, p, s).0, s[Step(o, p, s).1..])
  }

  datatype CsvError = UnterminatedQuote | NoRows | NoColumns | RowWidth

  function Finish(p: Progress): Result<seq<Record>, CsvError> {
    if p.inQuotes then Err(UnterminatedQuote) else Ok(FinishRecord(p).records)
  }

  function Parse(o: Options, input: string): Result<seq<Record>, CsvError> {
    Finish(Run(o, START, input))
  }

  /** One turn of the loop inside quotes: the field, whether it is still open, and how far the index moves. */
  method QuotedTurn(input: string, i: nat, o: Options, field: string, ghost p: Progress)
    returns (field': string, inQuotes: bool, n: nat)
    requires i < |input| && p.field == field && p.inQuotes
    ensures (p.(field := field', inQuotes := inQuotes), n) == QuotedStep(o, p, input[i..])
  {
    var c := input[i];
    field', inQuotes, n := field + [c], true, 1;
    if o.escape == Some(c) && o.quote == Some(c) {
      if i + 1 < |input| && Some(input[i + 1]) == o.quote {
        n := 2;
      } else {
        field', inQuotes := field, false;
      }
    } else if o.escape == Some(c) {
      if i + 1 < |input| && (Some(input[i + 1]) == o.quote || Some(input[i + 1]) == o.escape) {
        field', n := field + [input[i + 1]], 2;
      }
    } else if o.quote == Some(c) {
      field', inQuotes := field, false;
    }
  }

  /** Ends a record, unless the line held nothing. */
  method EndRecord(records: seq<Record>, row: Record, field: string, fieldStarted: bool)
    returns (records': seq<Record>, row': Record, field': string)
    ensures Progress(records', row', field', false, false) ==
            FinishRecord(Progress(records, row, field, false, fieldStarted))
  {
    records', row', field' := records, row, field;
    if fieldStarted || field != "" || row != [] {
      records', row', field' := records + [row + [field]], [], "";
    }
  }

  /** One turn of the loop outside quotes. */
  method PlainTurn(input: string, i: nat, o: Options, p: Progress) returns (p': Progress, n: nat)
    requires i < |input| && !p.inQuotes
    ensures (p', n) == PlainStep(o, p, input[i..])
  {
    var Progress(records, row, field, inQuotes, fieldStarted) := p;
    var c := input[i];
    n := 1;
    if o.quote == Some(c) && !fieldStarted {
      inQuotes, fieldStarted := true, true;
    } else if c == o.delimiter {
      row, field, fieldStarted := row + [field], "", false;
    } else if c == '\n' || c == '\r' {
      if c == '\r' && i + 1 < |input| && input[i + 1] == '\n' {
        n := 2;
      }
      records, row, field := EndRecord(records, row, field, fieldStarted);
      fieldStarted := false;
    } else {
      field, fieldStarted := field + [c], true;
    }
    p' := Progress(records, row, field, inQuotes, fieldStarted);
  }

  /** The parser's loop over the input. */
  method ParseCsvRecords(input: string, o: Options) returns (r: Result<seq<Record>, CsvError>)
    ensures r == Parse(o, input)
  {
    var p := START;
    var i := 0;
    assert input[0..] == input;
    while i < |input|
      invariant 0 <= i <= |input|
      invariant Run(o, p, input[i..]) == Run(o, START, input)
    {
      ghost var next := Step(o, p, input[i..]);
      assert input[i..][next.1..] == input[i + next.1..];
      var n;
      if p.inQuotes {
        var field, inQuotes;
        field, inQuotes, n := QuotedTurn(input, i, o, p.field, p);
        p := p.(field := field, inQuotes := inQuotes);
      } else {
        p, n := PlainTurn(input, i, o, p);
      }
      i := i + n;
    }
    if p.inQuotes {
      return Err(UnterminatedQuote);
    }
    var records, _, _ := EndRecord(p.records, p.row, p.field, p.fieldStarted);
    return Ok(records);
  }
}

/** Parsing undoes printing, for every dialect, every choice of quoting and every mix of line ends. */
module CsvRoundTrip {
  import opened Wrappers
  import opened CsvParser

  datatype Eol = LF | CRLF | CR | EndOfInput

  datatype Cell = Cell(text: string, quoted: bool)

  datatype Line = Line(cells: seq<Cell>, end: Eol)

  /** Dialects in which the special characters can be told apart; the escape may be any character. */
  predicate Sound(o: Options) {
    && o.delimiter != '\r' && o.delimiter != '\n'
    && o.quote != Some('\r') && o.quote != Some('\n') && o.quote != Some(o.delimiter)
  }

  /** A character that stands for itself in an unquoted field. */
  predicate Plain(o: Options, c: char) {
    c != o.delimiter && c != '\r' && c != '\n'
  }

  /** A cell may be bare when it holds no separator and does not begin with a quote. */
  predicate BareOk(o: Options, text: string) {
    (forall i :: 0 <= i < |text| ==> Plain(o, text[i])) && (text != "" ==> o.quote != Some(text[0]))
  }

  predicate CellOk(o: Options, c: Cell) {
    if c.quoted then o.quote.Some? && (o.escape.Some? || o.quote.value !in c.text) else BareOk(o, c.text)
  }

  /** A lone empty field must be quoted, or its line would read as blank. */
  predicate LineOk(o: Options, l: Line) {
    && l.cells != [] && (forall i :: 0 <= i < |l.cells| ==> CellOk(o, l.cells[i]))
    && (|l.cells| == 1 ==> l.cells[0].quoted || l.cells[0].text != "")
  }

  /** Only the last line may lack its line end. */
  predicate LinesOk(o: Options, ls: seq<Line>) {
    && (forall i :: 0 <= i < |ls| ==> LineOk(o, ls[i]))
    && (forall i :: 0 <= i < |ls| - 1 ==> ls[i].end != EndOfInput)
  }

  /** A character inside quotes: quotes and escapes are preceded by the escape. */
  function EscapedChar(o: Options, c: char): string {
    if o.escape.Some? && (o.quote == Some(c) || o.escape == Some(c)) then [o.escape.value, c] else [c]
  }

  function EscapedOnto(o: Options, t: string, s: string): string {
    if t == "" then s else EscapedChar(o, t[0]) + EscapedOnto(o, t[1..], s)
  }

  function CellOnto(o: Options, c: Cell, s: string): string
    requires CellOk(o, c)
  {
    if c.quoted then [o.quote.value] + EscapedOnto(o, c.text, [o.quote.value] + s) else c.text + s
  }

  function CellsOnto(o: Options, cs: seq<Cell>, s: string): string
    requires cs != [] && forall i :: 0 <= i < |cs| ==> CellOk(o, cs[i])
  {
    if |cs| == 1 then CellOnto(o, cs[0], s) else CellOnto(o, cs[0], [o.delimiter] + CellsOnto(o, cs[1..], s))
  }

  function EolOnto(e: Eol, s: string): string {
    match e
    case LF => "\n" + s
    case CRLF => "\r\n" + s
    case CR => "\r" + s
    case EndOfInput => s
  }

  function Print(o: Options, ls: seq<Line>): string
    requires LinesOk(o, ls)
  {
    if ls == [] then "" else CellsOnto(o, ls[0].cells, EolOnto(ls[0].end, Print(o, ls[1..])))
  }

  function Texts(cs: seq<Cell>): Record {
    seq(|cs|, i requires 0 <= i < |cs| => cs[i].text)
  }

  function Records(ls: seq<Line>): seq<Record> {
    seq(|ls|, i requires 0 <= i < |ls| => Texts(ls[i].cells))
  }

  // ----- Running over a cell -----

  lemma RunStep(o: Options, p: Progress, s: string, p': Progress, rest: string)
    requires s != "" && Step(o, p, s).0 == p' && s[Step(o, p, s).1..] == rest
    ensures Run(o, p, s) == Run(o, p', rest)
  {
  }

  /** A bare stretch is taken as it is. */
  lemma {:induction false} BareRuns(o: Options, p: Progress, t: string, s: string)
    requires !p.inQuotes && (forall i :: 0 <= i < |t| ==> Plain(o, t[i]))
    requires t != "" ==> p.fieldStarted || o.quote != Some(t[0])
    ensures Run(o, p, t + s) == Run(o, p.(field := p.field + t, fieldStarted := p.fieldStarted || t != ""), s)
    decreases |t|
  {
    if t == "" {
      assert t + s == s && p.field + t == p.field;
    } else {
      var p' := Push(p, t[0]).(fieldStarted := true);
      assert (t + s)[0] == t[0] && (t + s)[1..] == t[1..] + s;
      RunStep(o, p, t + s, p', t[1..] + s);
      BareRuns(o, p', t[1..], s);
      assert p.field + t == p.field + [t[0]] + t[1..];
    }
  }

  /** An escaped character inside quotes adds just itself to the field. */
  lemma EscapedCharRuns(o: Options, p: Progress, c: char, s: string)
    requires p.inQuotes && o.quote.Some? && (o.escape.Some? || o.quote != Some(c))
    ensures Run(o, p, EscapedChar(o, c) + s) == Run(o, Push(p, c), s)
  {
    var input := EscapedChar(o, c) + s;
    assert input[|EscapedChar(o, c)|..] == s;
    assert input[0] == EscapedChar(o, c)[0] && (|EscapedChar(o, c)| == 2 ==> input[1] == c);
    RunStep(o, p, input, Push(p, c), s);
  }

  /** Quoted text up to its closing quote is taken unescaped, when no quote follows the closing one. */
  lemma {:induction false} QuotedRuns(o: Options, p: Progress, t: string, s: string)
    requires p.inQuotes && o.quote.Some? && (o.escape.Some? || o.quote.value !in t)
    requires s != "" ==> o.quote != Some(s[0])
    ensures Run(o, p, EscapedOnto(o, t, [o.quote.value] + s)) == Run(o, p.(field := p.field + t, inQuotes := false), s)
    decreases |t|
  {
    var q := o.quote.value;
    if t == "" {
      assert p.field + t == p.field;
      ClosingQuote(o, p, s);
    } else {
      EscapedCharRuns(o, p, t[0], EscapedOnto(o, t[1..], [q] + s));
      var p' := Push(p, t[0]);
      QuotedRuns(o, p', t[1..], s);
      PushedFirst(p, t);
    }
  }

  lemma PushedFirst(p: Progress, t: string)
    requires t != ""
    ensures Push(p, t[0]).field + t[1..] == p.field + t
  {
  }

  lemma ClosingQuote(o: Options, p: Progress, s: string)
    requires p.inQuotes && o.quote.Some? && (s != "" ==> o.quote != Some(s[0]))
    ensures Run(o, p, [o.quote.value] + s) == Run(o, p.(inQuotes := false), s)
  {
    var input := [o.quote.value] + s;
    assert input[1..] == s && (|s| > 0 ==> input[1] == s[0]);
    if o.escape == o.quote {
      RunStep(o, p, input, p.(inQuotes := false), s);
    } else {
      RunStep(o, p, input, p.(inQuotes := false), s);
    }
  }

  /** Between fields: nothing of the next one has been read. */
  predicate AtField(p: Progress) {
    p.field == "" && !p.inQuotes && !p.fieldStarted
  }

  /** What follows a field: its end, never another quote. */
  predicate AfterField(o: Options, s: string) {
    s == "" || s[0] == o.delimiter || s[0] == '\r' || s[0] == '\n'
  }

  function WithCell(p: Progress, c: Cell): Progress {
    p.(field := c.text, fieldStarted := c.quoted || c.text != "")
  }

  lemma CellRuns(o: Options, p: Progress, c: Cell, s: string)
    requires Sound(o) && AtField(p) && CellOk(o, c) && AfterField(o, s)
    ensures Run(o, p, CellOnto(o, c, s)) == Run(o, WithCell(p, c), s)
  {
    if c.quoted {
      var inside := p.(inQuotes := true, fieldStarted := true);
      var rest := EscapedOnto(o, c.text, [o.quote.value] + s);
      assert ([o.quote.value] + rest)[1..] == rest;
      RunStep(o, p, [o.quote.value] + rest, inside, rest);
      QuotedRuns(o, inside, c.text, s);
      assert "" + c.text == c.text;
    } else {
      BareRuns(o, p, c.text, s);
      assert "" + c.text == c.text;
    }
  }

  /** A row whose last field has just been read. */
  function WithCells(p: Progress, cs: seq<Cell>): Progress
    requires cs != []
  {
    WithCell(p.(row := p.row + Texts(cs[..|cs| - 1])), cs[|cs| - 1])
  }

  lemma DelimiterRuns(o: Options, p: Progress, c: Cell, s: string)
    requires Sound(o) && AtField(p)
    ensures Run(o, WithCell(p, c), [o.delimiter] + s) == Run(o, p.(row := p.row + [c.text]), s)
  {
    var p' := WithCell(p, c);
    assert ([o.delimiter] + s)[1..] == s;
    assert o.quote != Some(o.delimiter);
    RunStep(o, p', [o.delimiter] + s, FinishField(p'), s);
  }

  lemma {:induction false} CellsRun(o: Options, p: Progress, cs: seq<Cell>, s: string)
    requires Sound(o) && AtField(p) && cs != [] && (forall i :: 0 <= i < |cs| ==> CellOk(o, cs[i])) && AfterField(o, s)
    ensures Run(o, p, CellsOnto(o, cs, s)) == Run(o, WithCells(p, cs), s)
    decreases |cs|
  {
    if |cs| == 1 {
      CellRuns(o, p, cs[0], s);
      assert p.row + Texts(cs[..0]) == p.row;
    } else {
      var rest := CellsOnto(o, cs[1..], s);
      var p' := p.(row := p.row + [cs[0].text]);
      CellRuns(o, p, cs[0], [o.delimiter] + rest);
      DelimiterRuns(o, p, cs[0], rest);
      CellsRun(o, p', cs[1..], s);
      FirstCellMoves(p, cs);
    }
  }

  lemma FirstCellMoves(p: Progress, cs: seq<Cell>)
    requires |cs| > 1
    ensures WithCells(p.(row := p.row + [cs[0].text]), cs[1..]) == WithCells(p, cs)
  {
    assert p.row + Texts(cs[..|cs| - 1]) == p.row + [cs[0].text] + Texts(cs[1..][..|cs| - 2]);
  }

  lemma FinishCells(o: Options, p: Progress, l: Line)
    requires AtField(p) && p.row == [] && LineOk(o, l)
    ensures FinishRecord(WithCells(p, l.cells)) == p.(records := p.records + [Texts(l.cells)])
  {
    var cs := l.cells;
    assert [] + Texts(cs[..|cs| - 1]) + [cs[|cs| - 1].text] == Texts(cs);
    if |cs| > 1 {
      assert |Texts(cs[..|cs| - 1])| > 0;
    }
  }

  /** A line end finishes the record; a bare carriage return must not be followed by a line feed. */
  lemma EolRuns(o: Options, p: Progress, e: Eol, s: string)
    requires Sound(o) && !p.inQuotes && e != EndOfInput && (e == CR && s != "" ==> s[0] != '\n')
    ensures Run(o, p, EolOnto(e, s)) == Run(o, FinishRecord(p), s)
  {
    var input := EolOnto(e, s);
    var n := if e == CRLF then 2 else 1;
    assert input[n..] == s;
    assert e == CR && s != "" ==> input[1] == s[0];
    RunStep(o, p, input, FinishRecord(p), s);
  }

  lemma AfterCells(o: Options, e: Eol, s: string)
    requires e == EndOfInput ==> s == ""
    ensures AfterField(o, EolOnto(e, s))
  {
  }

  /** No printed line begins with a line feed. */
  lemma PrintStarts(o: Options, ls: seq<Line>)
    requires Sound(o) && LinesOk(o, ls) && Print(o, ls) != ""
    ensures Print(o, ls)[0] != '\n'
  {
    var c := ls[0].cells[0];
    assert LineOk(o, ls[0]) && CellOk(o, c);
    if !c.quoted && c.text != "" {
      assert Plain(o, c.text[0]);
    }
  }

  lemma RecordsSplit(before: seq<Record>, ls: seq<Line>)
    requires ls != []
    ensures before + Records(ls) == before + [Texts(ls[0].cells)] + Records(ls[1..])
  {
  }

  lemma NoLinesRun(o: Options, p: Progress)
    requires AtField(p) && p.row == []
    ensures Finish(Run(o, p, Print(o, []))) == Ok(p.records + Records([]))
  {
    assert Print(o, []) == "" && Records([]) == [];
    assert p.records + [] == p.records;
  }

  lemma {:induction false} LinesRun(o: Options, p: Progress, ls: seq<Line>)
    requires Sound(o) && AtField(p) && p.row == [] && LinesOk(o, ls)
    ensures Finish(Run(o, p, Print(o, ls))) == Ok(p.records + Records(ls))
    decreases |ls|
  {
    if ls == [] {
      NoLinesRun(o, p);
    } else {
      var l, rest := ls[0], Print(o, ls[1..]);
      assert LineOk(o, l);
      AfterCells(o, l.end, rest);
      CellsRun(o, p, l.cells, EolOnto(l.end, rest));
      FinishCells(o, p, l);
      var p' := p.(records := p.records + [Texts(l.cells)]);
      RecordsSplit(p.records, ls);
      if l.end == EndOfInput {
        assert ls[1..] == [] && rest == "";
        assert p'.records + Records(ls[1..]) == p'.records;
      } else {
        if rest != "" {
          PrintStarts(o, ls[1..]);
        }
        EolRuns(o, WithCells(p, l.cells), l.end, rest);
        LinesRun(o, p', ls[1..]);
      }
    }
  }

  /**
   Parsing undoes printing: for every sound dialect, with doubled quotes or a separate escape, any
   choice of quoting where it is allowed, and LF, CRLF, CR or the end of input after each record.
   */
  lemma ParseUndoesPrint(o: Options, ls: seq<Line>)
    requires Sound(o) && LinesOk(o, ls)
    ensures Parse(o, Print(o, ls)) == Ok(Records(ls))
  {
    LinesRun(o, START, ls);
    assert [] + Records(ls) == Records(ls);
  }

  /** Records do not depend on how their lines end or on which cells were quoted needlessly. */
  lemma LayoutDoesNotMatter(o: Options, ls: seq<Line>, ls': seq<Line>)
    requires Sound(o) && LinesOk(o, ls) && LinesOk(o, ls') && Records(ls) == Records(ls')
    ensures Parse(o, Print(o, ls)) == Parse(o, Print(o, ls'))
  {
    ParseUndoesPrint(o, ls);
    ParseUndoesPrint(o, ls');
  }

  // ----- Printing records with quotes where they are needed -----

  function CellFor(o: Options, text: string, alone: bool): Cell {
    Cell(text, !BareOk(o, text) || (alone && text == ""))
  }

  function LineFor(o: Options, r: Record, end: Eol): Line {
    Line(seq(|r|, i requires 0 <= i < |r| => CellFor(o, r[i], |r| == 1)), end)
  }

  function LinesFor(o: Options, rs: seq<Record>, end: Eol): seq<Line> {
    seq(|rs|, i requires 0 <= i < |rs| => LineFor(o, rs[i], end))
  }

  predicate NonEmpty(rs: seq<Record>) {
    forall i :: 0 <= i < |rs| ==> rs[i] != []
  }

  /** Every list of non-empty records can be printed, and parses back to itself. */
  lemma RecordsRoundTrip(o: Options, rs: seq<Record>, end: Eol)
    requires Sound(o) && o.quote.Some? && o.escape.Some? && end != EndOfInput && NonEmpty(rs)
    ensures LinesOk(o, LinesFor(o, rs, end)) && Parse(o, Print(o, LinesFor(o, rs, end))) == Ok(rs)
  {
    var ls := LinesFor(o, rs, end);
    forall i | 0 <= i < |rs| ensures LineOk(o, ls[i]) && Texts(ls[i].cells) == rs[i] {
      assert forall j :: 0 <= j < |rs[i]| ==> CellOk(o, CellFor(o, rs[i][j], |rs[i]| == 1));
    }
    assert Records(ls) == rs;
    ParseUndoesPrint(o, ls);
  }

  lemma {:induction false} RunKeepsNonEmpty(o: Options, p: Progress, s: string)
    requires NonEmpty(p.records)
    ensures NonEmpty(Run(o, p, s).records)
    decreases |s|
  {
    if s != "" {
      RunKeepsNonEmpty(o, Step(o, p, s).0, s[Step(o, p, s).1..]);
    }
  }

  /** No parsed record is empty. */
  lemma ParsedRecordsAreNonEmpty(o: Options, input: string)
    requires Parse(o, input).Ok?
    ensures NonEmpty(Parse(o, input).value)
  {
    RunKeepsNonEmpty(o, START, input);
  }

  /** Whatever text was parsed, printing its records and parsing again gives the same records. */
  lemma ReprintingIsStable(o: Options, input: string, end: Eol)
    requires Sound(o) && o.quote.Some? && o.escape.Some? && end != EndOfInput && Parse(o, input).Ok?
    ensures var rs := Parse(o, input).value;
            LinesOk(o, LinesFor(o, rs, end)) && Parse(o, Print(o, LinesFor(o, rs, end))) == Ok(rs)
  {
    ParsedRecordsAreNonEmpty(o, input);
    RecordsRoundTrip(o, Parse(o, input).value, end);
  }
}

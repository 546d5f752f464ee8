/** Which delimiter is chosen, in terms of the records each one gives (crates/ultrasql-core/src/csv.rs). */
module DialectChoice {
  import opened Wrappers
  import opened Text
  import opened CsvParser
  import opened CsvSniff

  function CountOfWidth(records: seq<Record>, w: nat): nat {
    if records == [] then 0
    else CountOfWidth(records[..|records| - 1], w) + if |records[|records| - 1]| == w then 1 else 0
  }

  lemma {:induction false} WidthsCount(records: seq<Record>, w: nat)
    requires w > 0
    ensures multiset(Widths(records))[w] == CountOfWidth(records, w) <= |records|
  {
    if records != [] {
      WidthsCount(records[..|records| - 1], w);
    }
  }

  /** `w` is the width of the most records, and the largest of those widths. */
  ghost predicate TypicalWidth(records: seq<Record>, w: nat) {
    && CountOfWidth(records, w) > 0
    && forall v: nat :: v > 0 ==>
         || CountOfWidth(records, v) < CountOfWidth(records, w)
         || (CountOfWidth(records, v) == CountOfWidth(records, w) && v <= w)
  }

  lemma TypicalWidthIsMode(records: seq<Record>, w: nat)
    requires w > 0
    ensures TypicalWidth(records, w) <==> IsMode(Widths(records), w)
  {
    var ws: seq<nat> := Widths(records);
    forall v: nat | v > 0 ensures multiset(ws)[v] == CountOfWidth(records, v) {
      WidthsCount(records, v);
    }
    WidthsArePositive(records);
    if IsMode(ws, w) {
      forall v: nat | v > 0
        ensures CountOfWidth(records, v) < CountOfWidth(records, w)
             || (CountOfWidth(records, v) == CountOfWidth(records, w) && v <= w)
      {
        assert v in ws ==> AtMost(ws, v, w);
        assert v !in ws ==> multiset(ws)[v] == 0;
        assert multiset(ws)[w] > 0;
      }
    }
    if TypicalWidth(records, w) {
      assert multiset(ws)[w] > 0;
    }
  }

  lemma {:induction false} WidthsArePositive(records: seq<Record>)
    ensures forall v :: v in Widths(records) ==> v > 0
  {
    if records != [] {
      WidthsArePositive(records[..|records| - 1]);
    }
  }

  /** A delimiter gives a table: `n` records, most of them, `c`, with `w` cells each and `w` at least two. */
  ghost predicate Table(delimiter: char, input: string, w: nat, c: nat, n: nat) {
    match Parse(Options(delimiter, Some('\"'), Some('\"')), input)
    case Err(_) => false
    case Ok(records) => w > 1 && TypicalWidth(records, w) && c == CountOfWidth(records, w) && n == |records|
  }

  function Weight(w: nat, c: nat, n: nat): nat {
    10_000 * w + 100 * c + n
  }

  lemma ScoreIs(w: nat, c: nat, n: nat)
    ensures ScoreOf(w, c, n) == if Weight(w, c, n) > USIZE_MAX then USIZE_MAX else Weight(w, c, n)
  {
  }

  lemma TableStands(delimiter: char, input: string, w: nat, c: nat, n: nat)
    requires Table(delimiter, input, w, c, n)
    ensures Standing(DialectOf(delimiter), input) == Some(Candidate(DialectOf(delimiter), w, ScoreOf(w, c, n)))
  {
    var records := Parse(DialectOf(delimiter), input).value;
    TypicalWidthIsMode(records, w);
    ModeIs(Widths(records), w);
    WidthsCount(records, w);
  }

  ghost predicate GivesTable(delimiter: char, input: string) {
    exists w, c, n :: Table(delimiter, input, w, c, n)
  }

  lemma StandsIffTable(delimiter: char, input: string)
    ensures Standing(DialectOf(delimiter), input).Some? <==> GivesTable(delimiter, input)
  {
    var standing := Standing(DialectOf(delimiter), input);
    if standing.Some? {
      var records, w := Parse(DialectOf(delimiter), input).value, standing.value.width;
      TypicalWidthIsMode(records, w);
      assert Table(delimiter, input, w, CountOfWidth(records, w), |records|);
    }
    forall w: nat, c: nat, n: nat | Table(delimiter, input, w, c, n) ensures standing.Some? {
      TableStands(delimiter, input, w, c, n);
    }
  }

  predicate IsDelimiter(d: char) {
    d == ',' || d == ';' || d == '\t' || d == '|'
  }

  /** The order in which delimiters are tried. */
  function Rank(d: char): nat {
    if d == ',' then 0 else if d == ';' then 1 else if d == '\t' then 2 else 3
  }

  lemma DelimitersAre(d: char)
    ensures IsDelimiter(d) <==> exists k :: 0 <= k < |DELIMITERS| && DELIMITERS[k] == d
    ensures forall k :: 0 <= k < |DELIMITERS| && DELIMITERS[k] == d ==> k == Rank(d)
  {
    assert DELIMITERS[0] == ',' && DELIMITERS[1] == ';' && DELIMITERS[2] == '\t' && DELIMITERS[3] == '|';
  }

  /** The chosen candidate, when there is one. */
  lemma ChosenStands(input: string, chosen: Candidate) returns (i: nat)
    requires Best(input, DELIMITERS) == Some(chosen)
    ensures i < |DELIMITERS| && IsFirstBest(input, DELIMITERS, i, chosen)
    ensures Dialect(input) == Ok(chosen) && chosen.options == DialectOf(DELIMITERS[i])
  {
    BestIsFirstBest(input, DELIMITERS);
    i :| i < |DELIMITERS| && IsFirstBest(input, DELIMITERS, i, chosen);
  }

  /** The chosen delimiter gives a table as soon as one of the four does. */
  lemma SomeTableIsChosen(input: string, other: char)
    requires IsDelimiter(other) && GivesTable(other, input)
    ensures Best(input, DELIMITERS).Some? && Dialect(input).Ok?
    ensures var chosen := Dialect(input).value.options;
            && chosen == DialectOf(chosen.delimiter) && IsDelimiter(chosen.delimiter)
            && GivesTable(chosen.delimiter, input)
  {
    StandsIffTable(other, input);
    DelimitersAre(other);
    BestIsFirstBest(input, DELIMITERS);
    var i := ChosenStands(input, Best(input, DELIMITERS).value);
    DelimitersAre(DELIMITERS[i]);
    StandsIffTable(DELIMITERS[i], input);
  }

  /** No delimiter gives a heavier table than the chosen one, and an equal one only if it comes later. */
  lemma ChosenIsHeaviest(input: string, other: char, w: nat, c: nat, n: nat, w': nat, c': nat, n': nat)
    requires IsDelimiter(other) && Table(other, input, w', c', n') && Dialect(input).Ok?
    requires Table(Dialect(input).value.options.delimiter, input, w, c, n)
    requires Weight(w, c, n) <= USIZE_MAX && Weight(w', c', n') <= USIZE_MAX
    ensures Weight(w, c, n) >= Weight(w', c', n')
    ensures Weight(w, c, n) == Weight(w', c', n') ==> Rank(Dialect(input).value.options.delimiter) <= Rank(other)
  {
    TableStands(other, input, w', c', n');
    SomeTableIsChosen(input, other);
    var chosen := Dialect(input).value;
    TableStands(chosen.options.delimiter, input, w, c, n);
    DelimitersAre(other);
    var k :| 0 <= k < |DELIMITERS| && DELIMITERS[k] == other;
    var i := ChosenStands(input, chosen);
    DelimitersAre(DELIMITERS[i]);
    assert !Beats(input, DELIMITERS[k], k < i, chosen);
    ScoreIs(w, c, n);
    ScoreIs(w', c', n');
  }

  /** Up to 98 records the wider table wins, and of equally wide ones the one with more typical records. */
  lemma ShortTextsPreferWidth(w: nat, c: nat, n: nat, w': nat, c': nat, n': nat)
    requires c <= n <= 98 && c' <= n' <= 98 && Weight(w, c, n) >= Weight(w', c', n')
    ensures w > w' || (w == w' && (c > c' || (c == c' && n >= n')))
  {
  }

  /** Without a table the comma is taken, with the width of the first record, or its parse error. */
  lemma CommaIsTheFallback(input: string)
    requires !GivesTable(',', input) && !GivesTable(';', input) && !GivesTable('\t', input) && !GivesTable('|', input)
    ensures var comma := Options(',', Some('\"'), Some('\"'));
            match Parse(comma, input)
            case Err(e) => Dialect(input) == Err(e)
            case Ok(records) =>
              && Dialect(input).Ok? && Dialect(input).value.options == comma
              && Dialect(input).value.width == if records == [] then 0 else |records[0]|
  {
    forall j | 0 <= j < |DELIMITERS| ensures Standing(DialectOf(DELIMITERS[j]), input).None? {
      DelimitersAre(DELIMITERS[j]);
      StandsIffTable(DELIMITERS[j], input);
    }
    BestIsFirstBest(input, DELIMITERS);
  }
}

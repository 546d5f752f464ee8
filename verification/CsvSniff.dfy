/** Choosing a dialect, sniffing and reading CSV text (crates/ultrasql-core/src/csv.rs). */
module CsvSniff {
  import opened Wrappers
  import opened Text
  import opened CsvParser

  // ----- The most frequent width -----

  /** `w` is the most frequent of the widths, and the largest of those. */
  ghost predicate IsMode(ws: seq<nat>, w: nat) {
    w in ws && forall v :: v in ws ==> AtMost(ws, v, w)
  }

  /** `v` is no better a choice than `w`. */
  predicate AtMost(ws: seq<nat>, v: nat, w: nat) {
    multiset(ws)[v] < multiset(ws)[w] || (multiset(ws)[v] == multiset(ws)[w] && v <= w)
  }

  ghost function Mode(ws: seq<nat>): Option<nat> {
    if exists w :: IsMode(ws, w) then
      var w :| IsMode(ws, w);
      Some(w)
    else None
  }

  lemma ModeIs(ws: seq<nat>, w: nat)
    requires IsMode(ws, w)
    ensures Mode(ws) == Some(w)
  {
    var v := Mode(ws).value;
    assert AtMost(ws, v, w) && AtMost(ws, w, v);
  }

  /** Finds the most frequent width in one pass; there is one unless there are no widths. */
  method ModeWidth(ws: seq<nat>) returns (best: Option<nat>)
    ensures best == Mode(ws)
    ensures best.None? <==> ws == []
    ensures best.Some? ==> IsMode(ws, best.value)
  {
    best := None;
    var bestCount := 0;
    for i := 0 to |ws|
      invariant best.None? ==> i == 0 && bestCount == 0
      invariant best.Some? ==> best.value in ws && bestCount == multiset(ws)[best.value]
      invariant best.Some? ==> forall j :: 0 <= j < i ==> AtMost(ws, ws[j], best.value)
    {
      var count := multiset(ws)[ws[i]];
      if count > bestCount || (count == bestCount && (best.None? || ws[i] > best.value)) {
        best, bestCount := Some(ws[i]), count;
      }
    }
    if best.Some? {
      ModeIs(ws, best.value);
    }
  }

  // ----- Choosing a dialect -----

  /** Saturating `usize` arithmetic. */
  function Saturate(n: nat): nat {
    if n > USIZE_MAX then USIZE_MAX else n
  }

  datatype Candidate = Candidate(options: Options, width: nat, score: nat)

  function DialectOf(delimiter: char): Options {
    Options(delimiter, Some('\"'), Some('\"'))
  }

  const DELIMITERS: seq<char> := [',', ';', '\t', '|']

  function Widths(records: seq<Record>): seq<nat> {
    if records == [] then []
    else
      var last := records[|records| - 1];
      Widths(records[..|records| - 1]) + if last == [] then [] else [|last|]
  }

  function ScoreOf(width: nat, consistent: nat, rows: nat): nat {
    Saturate(Saturate(Saturate(width * 10_000) + Saturate(consistent * 100)) + rows)
  }

  /** A dialect's standing: none unless most rows have several columns. */
  ghost function Standing(o: Options, input: string): Option<Candidate> {
    match Parse(o, input)
    case Err(_) => None
    case Ok(records) =>
      match Mode(Widths(records))
      case None => None
      case Some(width) =>
        if width <= 1 then None
        else Some(Candidate(o, width, ScoreOf(width, multiset(Widths(records))[width], |records|)))
  }

  /** The first best candidate among the delimiters. */
  ghost function Best(input: string, delimiters: seq<char>): Option<Candidate> {
    if delimiters == [] then None
    else
      var before := Best(input, delimiters[..|delimiters| - 1]);
      var next := Standing(DialectOf(delimiters[|delimiters| - 1]), input);
      if next.None? || (before.Some? && next.value.score <= before.value.score) then before else next
  }

  ghost function Dialect(input: string): Result<Candidate, CsvError> {
    match Best(input, DELIMITERS)
    case Some(c) => Ok(c)
    case None =>
      match Parse(DialectOf(','), input)
      case Err(e) => Err(e)
      case Ok(records) => Ok(Candidate(DialectOf(','), if records == [] then 0 else |records[0]|, 0))
  }

  /** Collects the widths of the records that have cells. */
  method CollectWidths(records: seq<Record>) returns (ws: seq<nat>)
    ensures ws == Widths(records)
  {
    ws := [];
    for i := 0 to |records|
      invariant ws == Widths(records[..i])
    {
      assert records[..i + 1][..i] == records[..i];
      if records[i] != [] {
        ws := ws + [|records[i]|];
      }
    }
    assert records[..|records|] == records;
  }

  method ScoreDialect(o: Options, input: string, records: seq<Record>) returns (r: Option<Candidate>)
    requires Parse(o, input) == Ok(records)
    ensures r == Standing(o, input)
  {
    var ws := CollectWidths(records);
    var mode := ModeWidth(ws);
    if mode.None? || mode.value <= 1 {
      return None;
    }
    var score := ScoreOf(mode.value, multiset(ws)[mode.value], |records|);
    return Some(Candidate(o, mode.value, score));
  }

  /** The loop over the delimiters. */
  method BestDialect(input: string, delimiters: seq<char>) returns (best: Option<Candidate>)
    ensures best == Best(input, delimiters)
  {
    best := None;
    for i := 0 to |delimiters|
      invariant best == Best(input, delimiters[..i])
    {
      assert delimiters[..i + 1][..i] == delimiters[..i];
      var o := DialectOf(delimiters[i]);
      var parsed := ParseCsvRecords(input, o);
      if parsed.Ok? {
        var candidate := ScoreDialect(o, input, parsed.value);
        if candidate.Some? && (best.None? || candidate.value.score > best.value.score) {
          best := candidate;
        }
      }
    }
    assert delimiters[..|delimiters|] == delimiters;
  }

  method ChooseDialect(input: string) returns (r: Result<Candidate, CsvError>)
    ensures r == Dialect(input)
  {
    var best := BestDialect(input, DELIMITERS);
    if best.Some? {
      return Ok(best.value);
    }
    var records :- ParseCsvRecords(input, DialectOf(','));
    return Ok(Candidate(DialectOf(','), if records == [] then 0 else |records[0]|, 0));
  }

  /** `c` stands for delimiter `i`, and no other has a higher score, nor an earlier one the same. */
  ghost predicate IsFirstBest(input: string, delimiters: seq<char>, i: nat, c: Candidate)
    requires i < |delimiters|
  {
    && Standing(DialectOf(delimiters[i]), input) == Some(c)
    && forall j :: 0 <= j < |delimiters| ==> !Beats(input, delimiters[j], j < i, c)
  }

  ghost predicate Beats(input: string, delimiter: char, earlier: bool, c: Candidate) {
    var other := Standing(DialectOf(delimiter), input);
    other.Some? && (other.value.score > c.score || (earlier && other.value.score == c.score))
  }

  ghost predicate NoneStands(input: string, delimiters: seq<char>) {
    forall j :: 0 <= j < |delimiters| ==> Standing(DialectOf(delimiters[j]), input).None?
  }

  ghost predicate SomeIsFirstBest(input: string, delimiters: seq<char>, c: Candidate) {
    exists i: nat :: i < |delimiters| && IsFirstBest(input, delimiters, i, c)
  }

  /** The chosen dialect has the highest score, the first one on a tie; none is chosen only if none stands. */
  lemma {:induction false} BestIsFirstBest(input: string, delimiters: seq<char>)
    ensures Best(input, delimiters).None? <==> NoneStands(input, delimiters)
    ensures Best(input, delimiters).Some? ==> SomeIsFirstBest(input, delimiters, Best(input, delimiters).value)
  {
    if delimiters != [] {
      var before, d := delimiters[..|delimiters| - 1], delimiters[|delimiters| - 1];
      BestIsFirstBest(input, before);
      assert delimiters == before + [d];
      NoneStandsSnoc(input, before, d);
      if Best(input, delimiters).Some? {
        if Best(input, delimiters) == Best(input, before) {
          EarlierIsBest(input, before, d, Best(input, before).value);
        } else {
          LastIsBest(input, before, d, Best(input, delimiters).value);
        }
      }
    }
  }

  lemma NoneStandsSnoc(input: string, before: seq<char>, d: char)
    ensures NoneStands(input, before + [d]) <==>
            NoneStands(input, before) && Standing(DialectOf(d), input).None?
  {
    var all := before + [d];
    assert forall j :: 0 <= j < |before| ==> all[j] == before[j];
    assert all[|before|] == d;
  }

  lemma EarlierIsBest(input: string, before: seq<char>, d: char, c: Candidate)
    requires SomeIsFirstBest(input, before, c) && !Beats(input, d, false, c)
    ensures SomeIsFirstBest(input, before + [d], c)
  {
    var all := before + [d];
    var i: nat :| i < |before| && IsFirstBest(input, before, i, c);
    forall j | 0 <= j < |all| ensures !Beats(input, all[j], j < i, c) {
      assert j < |before| ==> !Beats(input, before[j], j < i, c);
    }
    assert IsFirstBest(input, all, i, c);
  }

  /** No delimiter before has a score as high as one above the best of them. */
  lemma EarlierAreBeaten(input: string, before: seq<char>, best: Candidate, c: Candidate, j: nat)
    requires SomeIsFirstBest(input, before, best) && best.score < c.score && j < |before|
    ensures !Beats(input, before[j], true, c)
  {
    var i: nat :| i < |before| && IsFirstBest(input, before, i, best);
    assert !Beats(input, before[j], j < i, best);
  }

  lemma LastIsBest(input: string, before: seq<char>, d: char, c: Candidate)
    requires Standing(DialectOf(d), input) == Some(c)
    requires var best := Best(input, before);
             if best.None? then NoneStands(input, before)
             else SomeIsFirstBest(input, before, best.value) && best.value.score < c.score
    ensures SomeIsFirstBest(input, before + [d], c)
  {
    var all, best := before + [d], Best(input, before);
    forall j: nat | j < |before| ensures !Beats(input, all[j], true, c) {
      assert all[j] == before[j];
      if best.Some? {
        EarlierAreBeaten(input, before, best.value, c, j);
      }
    }
    assert all[|before|] == d;
    assert IsFirstBest(input, all, |before|, c);
  }
}

/** The corners of the CSV parser (crates/ultrasql-core/src/csv.rs): texts no printer would write. */
module CsvEdges {
  import opened Wrappers
  import opened CsvParser
  import opened CsvRoundTrip

  lemma {:induction false} EscapedRuns(o: Options, p: Progress, t: string)
    requires p.inQuotes && o.quote.Some? && (o.escape.Some? || o.quote.value !in t)
    ensures Run(o, p, EscapedOnto(o, t, "")).inQuotes
    decreases |t|
  {
    if t != "" {
      EscapedCharRuns(o, p, t[0], EscapedOnto(o, t[1..], ""));
      EscapedRuns(o, Push(p, t[0]), t[1..]);
    }
  }

  lemma QuoteOpens(o: Options, p: Progress, s: string)
    requires AtField(p) && o.quote.Some?
    ensures Run(o, p, [o.quote.value] + s) == Run(o, p.(inQuotes := true, fieldStarted := true), s)
  {
    var input := [o.quote.value] + s;
    assert input[1..] == s;
    RunStep(o, p, input, p.(inQuotes := true, fieldStarted := true), s);
  }

  /** A quote that is never closed is an error, whatever follows it. */
  lemma UnclosedQuoteFails(o: Options, t: string)
    requires o.quote.Some? && (o.escape.Some? || o.quote.value !in t)
    ensures Parse(o, [o.quote.value] + EscapedOnto(o, t, "")) == Err(UnterminatedQuote)
  {
    QuoteOpens(o, START, EscapedOnto(o, t, ""));
    EscapedRuns(o, START.(inQuotes := true, fieldStarted := true), t);
  }

  lemma LineFeedSkips(o: Options, p: Progress, s: string)
    requires Sound(o) && AtField(p) && p.row == []
    ensures Run(o, p, "\n" + s) == Run(o, p, s)
  {
    var input := "\n" + s;
    assert input[1..] == s;
    RunStep(o, p, input, p, s);
  }

  lemma CarriageReturnSkips(o: Options, p: Progress, s: string)
    requires Sound(o) && AtField(p) && p.row == []
    ensures Run(o, p, "\r" + s) == Run(o, p, s)
  {
    var input := "\r" + s;
    if s != "" && s[0] == '\n' {
      assert input[2..] == s[1..] && s == "\n" + s[1..];
      RunStep(o, p, input, p, s[1..]);
      LineFeedSkips(o, p, s[1..]);
    } else {
      assert input[1..] == s;
      RunStep(o, p, input, p, s);
    }
  }

  /** Lines with nothing on them leave no record. */
  lemma EmptyLinesAreSkipped(o: Options, e: Eol, s: string)
    requires Sound(o)
    ensures Parse(o, EolOnto(e, s)) == Parse(o, s)
  {
    match e
    case LF => LineFeedSkips(o, START, s);
    case CR => CarriageReturnSkips(o, START, s);
    case CRLF =>
      assert "\r\n" + s == "\r" + ("\n" + s);
      CarriageReturnSkips(o, START, "\n" + s);
      LineFeedSkips(o, START, s);
    case EndOfInput =>
  }

  lemma OneField(p: Progress)
    requires p.records == [] && p.row == [] && !p.inQuotes && p.fieldStarted
    ensures Finish(p) == Ok([[p.field]])
  {
    assert [] + [p.field] == [p.field];
    assert [] + [[p.field]] == [[p.field]];
  }

  /** Text after a closing quote joins the field. */
  lemma TextAfterQuoteJoins(o: Options, t: string, more: string)
    requires Sound(o) && o.quote.Some? && (o.escape.Some? || o.quote.value !in t)
    requires more != "" && more[0] != o.quote.value && forall i :: 0 <= i < |more| ==> Plain(o, more[i])
    ensures Parse(o, [o.quote.value] + EscapedOnto(o, t, [o.quote.value] + more)) == Ok([[t + more]])
  {
    var inside := START.(inQuotes := true, fieldStarted := true);
    var after := START.(field := t, fieldStarted := true);
    QuoteOpens(o, START, EscapedOnto(o, t, [o.quote.value] + more));
    QuotedRuns(o, inside, t, more);
    assert "" + t == t && more + "" == more;
    BareRuns(o, after, more, "");
    OneField(after.(field := t + more));
  }

  /** An escape character before anything but a quote or another escape stands for itself. */
  lemma LoneEscapeIsText(o: Options, p: Progress, c: char, s: string)
    requires p.inQuotes && o.escape.Some? && o.escape != o.quote && o.quote != Some(c) && o.escape != Some(c)
    ensures Run(o, p, [o.escape.value, c] + s) == Run(o, Push(p, o.escape.value), [c] + s)
  {
    var input := [o.escape.value, c] + s;
    assert input[1..] == [c] + s && input[1] == c;
    RunStep(o, p, input, Push(p, o.escape.value), [c] + s);
  }
}

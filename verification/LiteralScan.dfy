/** How the literals that `bindSql` writes scan (packages/npm/index.js). */
module LiteralScan {
  import opened Text
  import opened SqlScanner
  import opened BindSql

  /** The text scans before `r` as it does alone, and leaves the scanner in plain SQL. */
  predicate ScansBefore(t: string, r: string) {
    Tokens(Normal, t + r) == Tokens(Normal, t) + Tokens(Normal, r)
  }

  // ----- Literals without quotes -----

  predicate IsPlain(c: char) {
    c != '$' && c != '\'' && c != '\"' && c != '?' && c != '/' && c != '*'
  }

  /** Nothing the scanner looks at, except dashes that are neither doubled nor last. */
  predicate IsPlainText(t: string) {
    && (forall i :: 0 <= i < |t| ==> IsPlain(t[i]))
    && (forall i :: 0 <= i < |t| && t[i] == '-' ==> i + 1 < |t| && t[i + 1] != '-')
  }

  lemma PlainTextSteps(t: string, r: string)
    requires IsPlainText(t) && t != ""
    ensures !IsHole(Normal, t + r) && Step(Normal, t + r) == (Normal, 1)
  {
    assert (t + r)[0] == t[0];
    if |t| > 1 {
      assert (t + r)[1] == t[1];
    }
  }

  lemma {:induction false} PlainTextScans(t: string, r: string)
    requires IsPlainText(t)
    ensures ScansBefore(t, r) && Holes(Tokens(Normal, t)) == 0
  {
    if t == "" {
      assert t + r == r;
    } else {
      assert (t + r)[1..] == t[1..] + r;
      assert (t + r)[..1] == t[..1] && t + "" == t;
      PlainTextSteps(t, r);
      PlainTextSteps(t, "");
      PlainTextScans(t[1..], r);
      TokensCons(Copied(Normal, t[..1]), Tokens(Normal, t[1..]));
    }
  }

  // ----- Quoted literals -----

  predicate StartsWithQuote(r: string) {
    r != "" && r[0] == '\''
  }

  /** A quoted literal after its opening quote. */
  function Closed(x: string): string {
    Doubled(x) + "'"
  }

  /** How many characters the first one takes when doubled. */
  function HeadLength(x: string): nat {
    if x != "" && x[0] == '\'' then 2 else 1
  }

  lemma ClosedSplits(x: string, r: string)
    requires x != ""
    ensures var head := if x[0] == '\'' then "''" else [x[0]]; Closed(x) + r == head + (Closed(x[1..]) + r)
  {
  }

  lemma ClosedSteps(x: string, r: string)
    requires x != ""
    ensures var n := HeadLength(x);
            && Step(Single, Closed(x) + r) == (Single, n)
            && (Closed(x) + r)[n..] == Closed(x[1..]) + r
            && (Closed(x) + r)[..n] == if n == 2 then "''" else [x[0]]
  {
    ClosedSplits(x, r);
    var head := if x[0] == '\'' then "''" else [x[0]];
    assert (head + (Closed(x[1..]) + r))[|head|..] == Closed(x[1..]) + r;
  }

  /** The first character's token and the rest. */
  lemma ClosedTokens(x: string, r: string)
    requires x != ""
    ensures Tokens(Single, Closed(x) + r) ==
            [Copied(Single, if HeadLength(x) == 2 then "''" else [x[0]])] + Tokens(Single, Closed(x[1..]) + r)
  {
    ClosedSteps(x, r);
    assert Closed(x) + r != "";
  }

  lemma ClosedAlone(x: string)
    ensures Closed(x) + "" == Closed(x)
  {
  }

  lemma ClosingQuote(r: string)
    ensures Tokens(Single, "'") == [Copied(Single, "'")]
    ensures !StartsWithQuote(r) ==> Tokens(Single, "'" + r) == [Copied(Single, "'")] + Tokens(Normal, r)
    ensures StartsWithQuote(r) ==> Tokens(Single, "'" + r) != [] && Tokens(Single, "'" + r)[0] != Copied(Single, "'")
  {
    var s := "'" + r;
    assert s[..1] == "'" && s[1..] == r;
    assert "'"[..1] == "'" && "'"[1..] == "";
    if StartsWithQuote(r) {
      assert |s[..2]| == 2;
    }
  }

  lemma {:induction false} ClosedScans(x: string, r: string)
    requires !StartsWithQuote(r)
    ensures Tokens(Single, Closed(x) + r) == Tokens(Single, Closed(x)) + Tokens(Normal, r)
    ensures Holes(Tokens(Single, Closed(x))) == 0
  {
    ClosedAlone(x);
    if x == "" {
      assert Closed(x) == "'";
      ClosingQuote(r);
    } else {
      ClosedScans(x[1..], r);
      ClosedTokens(x, r);
      ClosedTokens(x, "");
      ClosedAlone(x[1..]);
      var head := Copied(Single, if HeadLength(x) == 2 then "''" else [x[0]]);
      TokensCons(head, Tokens(Single, Closed(x[1..])));
      Joined([head], Tokens(Single, Closed(x[1..])), Tokens(Normal, r));
    }
  }

  /** Before a quote the closing quote is taken for half of a doubled one, so the tokens differ. */
  lemma {:induction false} ClosedMerges(x: string, r: string, rest: seq<Token>)
    requires StartsWithQuote(r)
    ensures Tokens(Single, Closed(x) + r) != Tokens(Single, Closed(x)) + rest
  {
    ClosedAlone(x);
    if x == "" {
      assert Closed(x) == "'";
      ClosingQuote(r);
    } else {
      ClosedMerges(x[1..], r, rest);
      ClosedTokens(x, r);
      ClosedTokens(x, "");
      ClosedAlone(x[1..]);
      var head := Copied(Single, if HeadLength(x) == 2 then "''" else [x[0]]);
      Joined([head], Tokens(Single, Closed(x[1..])), rest);
      ConsIsInjective(head, Tokens(Single, Closed(x[1..]) + r), Tokens(Single, Closed(x[1..])) + rest);
    }
  }

  lemma ConsIsInjective<T>(head: T, a: seq<T>, b: seq<T>)
    ensures [head] + a == [head] + b <==> a == b
  {
    if [head] + a == [head] + b {
      assert ([head] + a)[1..] == a && ([head] + b)[1..] == b;
    }
  }

  lemma QuoteOpens(x: string)
    ensures Tokens(Normal, "'" + x) == [Copied(Normal, "'")] + Tokens(Single, x)
  {
    var q := "'" + x;
    assert q[..1] == "'" && q[1..] == x;
  }

  lemma OpenedScans(c: string, r: string)
    requires Tokens(Single, c + r) == Tokens(Single, c) + Tokens(Normal, r) && Holes(Tokens(Single, c)) == 0
    ensures ScansBefore("'" + c, r) && Holes(Tokens(Normal, "'" + c)) == 0
  {
    Joined("'", c, r);
    QuoteOpens(c);
    QuoteOpens(c + r);
    Joined([Copied(Normal, "'")], Tokens(Single, c), Tokens(Normal, r));
    TokensCons(Copied(Normal, "'"), Tokens(Single, c));
  }

  lemma OpenedMerges(c: string, r: string, rest: seq<Token>)
    requires Tokens(Single, c + r) != Tokens(Single, c) + rest
    ensures Tokens(Normal, "'" + c + r) != Tokens(Normal, "'" + c) + rest
  {
    Joined("'", c, r);
    QuoteOpens(c);
    QuoteOpens(c + r);
    Joined([Copied(Normal, "'")], Tokens(Single, c), rest);
    ConsIsInjective(Copied(Normal, "'"), Tokens(Single, c + r), Tokens(Single, c) + rest);
  }

  lemma QuotedScans(x: string, r: string)
    requires !StartsWithQuote(r)
    ensures ScansBefore(Quoted(x), r) && Holes(Tokens(Normal, Quoted(x))) == 0
  {
    ClosedScans(x, r);
    OpenedScans(Closed(x), r);
    assert Quoted(x) == "'" + Closed(x);
  }

  lemma QuotedMerges(x: string, r: string, rest: seq<Token>)
    requires StartsWithQuote(r)
    ensures Tokens(Normal, Quoted(x) + r) != Tokens(Normal, Quoted(x)) + rest
  {
    ClosedMerges(x, r, rest);
    OpenedMerges(Closed(x), r, rest);
    assert Quoted(x) == "'" + Closed(x);
  }

  // ----- All literals -----

  /** A literal: text in quotes, or text without anything the scanner looks at. */
  ghost predicate IsLiteral(t: string) {
    (t != "" && IsPlainText(t)) || exists x :: t == Quoted(x)
  }

  /**
   A literal scans back to plain SQL without a placeholder, unless it is quoted and a quote follows:
   then no tokens of the rest complete its own.
   */
  lemma LiteralScansIff(t: string, r: string, rest: seq<Token>)
    requires IsLiteral(t)
    ensures Holes(Tokens(Normal, t)) == 0
    ensures StartsWithQuote(t) && StartsWithQuote(r) ==> Tokens(Normal, t + r) != Tokens(Normal, t) + rest
    ensures !(StartsWithQuote(t) && StartsWithQuote(r)) ==> ScansBefore(t, r)
  {
    if t != "" && IsPlainText(t) {
      PlainTextScans(t, r);
    } else {
      var x :| t == Quoted(x);
      QuotedScans(x, "");
      if StartsWithQuote(r) {
        QuotedMerges(x, r, rest);
      } else {
        QuotedScans(x, r);
      }
    }
  }

  /** The text of a number: digits, a point, an exponent and signs; two dashes never meet, and a digit comes last. */
  predicate IsNumeral(t: string) {
    && t != "" && IsDigit(t[|t| - 1])
    && (forall i :: 0 <= i < |t| ==> IsDigit(t[i]) || t[i] == '.' || t[i] == 'e' || t[i] == '+' || t[i] == '-')
    && (forall i :: 0 < i < |t| ==> t[i - 1] != '-' || t[i] != '-')
  }

  /** Numbers print as numerals. */
  predicate PrintsNumerals(vs: seq<JsValue>) {
    forall i :: 0 <= i < |vs| ==> (vs[i].Number? || vs[i].BigInt?) ==> IsNumeral(vs[i].text)
  }

  lemma LiteralsAreLiterals(vs: seq<JsValue>)
    requires Bindable(vs) && PrintsNumerals(vs)
    ensures forall i :: 0 <= i < |vs| ==> IsLiteral(Literals(vs)[i])
  {
    forall i | 0 <= i < |vs| ensures IsLiteral(Literals(vs)[i]) {
      LiteralIsLiteral(vs[i]);
    }
  }

  lemma LiteralIsLiteral(v: JsValue)
    requires Literal(v).Ok? && ((v.Number? || v.BigInt?) ==> IsNumeral(v.text))
    ensures IsLiteral(Literal(v).value)
  {
    if v.Date? || v.Other? {
      assert Literal(v).value == Quoted(if v.Date? then v.iso.value else v.printed.value);
    } else {
      assert IsPlainText(Literal(v).value);
    }
  }
}

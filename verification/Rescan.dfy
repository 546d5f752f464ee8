/** Scanning a bound statement again (packages/npm/index.js). */
module Rescan {
  import opened Wrappers
  import opened Text
  import opened SqlScanner
  import opened BindSql
  import opened LiteralScan

  /** The tokens of a statement with the tokens of each filled-in text in place of its placeholder. */
  function FillTokens(ts: seq<Token>, fills: seq<string>): seq<Token>
    requires |fills| == Holes(ts)
  {
    if ts == [] then []
    else if ts[0].Hole? then Tokens(Normal, fills[0]) + FillTokens(ts[1..], fills[1..])
    else [ts[0]] + FillTokens(ts[1..], fills)
  }

  ghost predicate AreLiterals(fills: seq<string>) {
    forall i :: 0 <= i < |fills| ==> IsLiteral(fills[i])
  }

  // ----- When literals and their neighbours keep apart -----

  /** A placeholder comes next and its literal starts with `c`. */
  predicate LiteralNext(mode: Mode, s: string, fills: seq<string>, c: char) {
    IsHole(mode, s) && fills != [] && fills[0] != "" && fills[0][0] == c
  }

  /** A quote comes next, from the statement or from a literal. */
  predicate QuoteNext(s: string, fills: seq<string>) {
    StartsWithQuote(s) || LiteralNext(Normal, s, fills, '\'')
  }

  predicate IsName(t: string) {
    forall i :: 0 <= i < |t| ==> IsNameChar(t[i])
  }

  /** Name characters and literals made of them lead to a dollar. */
  predicate LeadsToDollar(s: string, fills: seq<string>)
    decreases |s|
  {
    && s != ""
    && (|| s[0] == '$'
        || (s[0] == '?' && fills != [] && IsName(fills[0]) && LeadsToDollar(s[1..], fills[1..]))
        || (IsNameChar(s[0]) && LeadsToDollar(s[1..], fills)))
  }

  /** A name can start here. */
  predicate NameNext(s: string, fills: seq<string>) {
    && s != ""
    && (|| IsNameStart(s[0])
        || (s[0] == '?' && fills != [] && fills[0] != "" && IsNameStart(fills[0][0])))
  }

  /** The next token, which is no placeholder, runs into a literal: two quotes, two dashes or a dollar-quote tag. */
  predicate Offends(mode: Mode, s: string, fills: seq<string>)
    requires s != ""
  {
    var (mode', n) := Step(mode, s);
    match mode
    case Single => LiteralNext(mode', s[n..], fills, '\'')
    case Normal =>
      || (s[0] == '-' && LiteralNext(mode', s[n..], fills, '-'))
      || (s[0] == '$' && mode' == Normal && NameNext(s[1..], fills) && LeadsToDollar(s[1..], fills))
    case _ => false
  }

  /** No token runs into a literal, and no quoted literal into a quote. */
  predicate Clean(mode: Mode, s: string, fills: seq<string>)
    decreases |s|
  {
    if s == "" then true
    else if IsHole(mode, s) then
      && fills != []
      && !(StartsWithQuote(fills[0]) && QuoteNext(s[1..], fills[1..]))
      && Clean(Normal, s[1..], fills[1..])
    else
      var (mode', n) := Step(mode, s);
      !Offends(mode, s, fills) && Clean(mode', s[n..], fills)
  }

  // ----- The first character of what is filled in -----

  function Filled(mode: Mode, s: string, fills: seq<string>): string
    requires |fills| == Holes(Tokens(mode, s))
  {
    Fill(Tokens(mode, s), fills)
  }

  lemma FilledHole(s: string, fills: seq<string>)
    requires IsHole(Normal, s) && |fills| == Holes(Tokens(Normal, s))
    ensures fills != [] && |fills[1..]| == Holes(Tokens(Normal, s[1..]))
    ensures Filled(Normal, s, fills) == fills[0] + Filled(Normal, s[1..], fills[1..])
    ensures FillTokens(Tokens(Normal, s), fills) ==
            Tokens(Normal, fills[0]) + FillTokens(Tokens(Normal, s[1..]), fills[1..])
  {
    var ts := Tokens(Normal, s[1..]);
    TokensCons(Hole, ts);
    FillHole(ts, fills);
  }

  lemma FilledToken(mode: Mode, s: string, fills: seq<string>)
    requires s != "" && !IsHole(mode, s) && |fills| == Holes(Tokens(mode, s))
    ensures var (mode', n) := Step(mode, s);
            && |fills| == Holes(Tokens(mode', s[n..]))
            && Filled(mode, s, fills) == s[..n] + Filled(mode', s[n..], fills)
            && FillTokens(Tokens(mode, s), fills) ==
               [Copied(mode, s[..n])] + FillTokens(Tokens(mode', s[n..]), fills)
  {
    var (mode', n) := Step(mode, s);
    var ts := Tokens(mode', s[n..]);
    TokensCons(Copied(mode, s[..n]), ts);
    FillCopied(mode, s[..n], ts, fills);
  }

  /** The filled text starts as the statement does, or with the literal of a first placeholder. */
  lemma FilledHead(mode: Mode, s: string, fills: seq<string>)
    requires |fills| == Holes(Tokens(mode, s)) && AreLiterals(fills)
    ensures s == "" <==> Filled(mode, s, fills) == ""
    ensures s != "" && !IsHole(mode, s) ==> Filled(mode, s, fills)[0] == s[0]
    ensures IsHole(mode, s) ==> fills != [] && fills[0] != "" && Filled(mode, s, fills)[0] == fills[0][0]
  {
    if IsHole(mode, s) {
      FilledHole(s, fills);
      LiteralIsNonEmpty(fills[0]);
    } else if s != "" {
      FilledToken(mode, s, fills);
    }
  }

  lemma LiteralIsNonEmpty(t: string)
    requires IsLiteral(t)
    ensures t != "" && t[0] != '$' && t[0] != '\"' && t[0] != '?' && t[0] != '/' && t[0] != '*'
  {
  }

  /** The second character of a filled text whose first token has one character. */
  lemma FilledNext(mode: Mode, s: string, fills: seq<string>, c: char)
    requires s != "" && !IsHole(mode, s) && |fills| == Holes(Tokens(mode, s)) && AreLiterals(fills)
    requires Step(mode, s).1 == 1
    ensures var mode' := Step(mode, s).0;
            Next(Filled(mode, s, fills), c) <==>
            (Next(s, c) && !IsHole(mode', s[1..])) || LiteralNext(mode', s[1..], fills, c)
  {
    FilledToken(mode, s, fills);
    FilledHead(Step(mode, s).0, s[1..], fills);
    assert |s| > 1 ==> s[1] == s[1..][0];
  }

  // ----- When the first token is kept -----

  /** The filled text starts with the token the statement starts with. */
  ghost predicate Kept(mode: Mode, s: string, fills: seq<string>)
    requires s != "" && |fills| == Holes(Tokens(mode, s))
  {
    var out := Filled(mode, s, fills);
    out != "" && Step(mode, out) == Step(mode, s)
  }

  lemma QuotedIsKeptIff(mode: Mode, s: string, fills: seq<string>)
    requires s != "" && (mode == Single || mode == Identifier)
    requires |fills| == Holes(Tokens(mode, s)) && AreLiterals(fills)
    ensures Kept(mode, s, fills) <==> !Offends(mode, s, fills)
  {
    var out := Filled(mode, s, fills);
    FilledHead(mode, s, fills);
    FilledToken(mode, s, fills);
    if Step(mode, s).1 == 1 {
      FilledNext(mode, s, fills, if mode == Single then '\'' else '\"');
      if fills != [] {
        LiteralIsNonEmpty(fills[0]);
      }
    } else {
      assert out[1] == s[..2][1];
    }
  }

  lemma CommentIsKept(mode: Mode, s: string, fills: seq<string>)
    requires s != "" && (mode == LineComment || mode == BlockComment)
    requires |fills| == Holes(Tokens(mode, s)) && AreLiterals(fills)
    ensures Kept(mode, s, fills)
  {
    var out := Filled(mode, s, fills);
    FilledHead(mode, s, fills);
    FilledToken(mode, s, fills);
    if mode == BlockComment {
      if Step(mode, s).1 == 1 {
        FilledNext(mode, s, fills, '/');
      } else {
        assert out[1] == s[..2][1];
      }
    }
  }

  /** Inside a dollar-quoted body the text is kept up to and including its closing tag. */
  lemma {:induction false} DollarTextIsKept(tag: Tag, s: string, fills: seq<string>)
    requires |fills| == Holes(Tokens(Dollar(tag), s))
    ensures var out := Filled(Dollar(tag), s, fills);
            out == s || (|tag| <= |out| && |tag| <= |s| && out[..|tag|] == s[..|tag|])
    decreases |s|
  {
    if s != "" {
      FilledToken(Dollar(tag), s, fills);
      if !StartsWith(s, tag) {
        DollarTextIsKept(tag, s[1..], fills);
        ConsKeepsPrefix(s[..1], s[1..], Filled(Dollar(tag), s[1..], fills), |tag|);
        assert s == s[..1] + s[1..];
      }
    }
  }

  lemma ConsKeepsPrefix(head: string, a: string, b: string, n: nat)
    requires |head| == 1 && (b == a || (n <= |a| && n <= |b| && b[..n] == a[..n]))
    ensures head + b == head + a ||
            (n <= |head + a| && n <= |head + b| && (head + b)[..n] == (head + a)[..n])
  {
    if b != a && n > 0 {
      assert (head + b)[..n] == head + b[..n][..n - 1];
      assert (head + a)[..n] == head + a[..n][..n - 1];
    }
  }

  lemma DollarIsKept(tag: Tag, s: string, fills: seq<string>)
    requires s != "" && |fills| == Holes(Tokens(Dollar(tag), s)) && AreLiterals(fills)
    ensures Kept(Dollar(tag), s, fills)
  {
    DollarTextIsKept(tag, s, fills);
    FilledHead(Dollar(tag), s, fills);
  }

  // ----- Dollar-quote tags -----

  /** A name, possibly empty, and a dollar. */
  predicate EndsInDollar(s: string) {
    NameLength(s) < |s| && s[NameLength(s)] == '$'
  }

  lemma TagIff(s: string)
    requires s != "" && s[0] == '$'
    ensures DollarTag(s).Some? <==>
            EndsInDollar(s[1..]) && (s[1] == '$' || IsNameStart(s[1]))
  {
    var n := NameLength(s[1..]);
    NameLengthStops(s[1..]);
    if n + 1 < |s| {
      assert s[1..][n] == s[n + 1];
      assert s[1] == s[1..][0];
    }
  }

  lemma NameThenRest(t: string, r: string)
    requires IsName(t)
    ensures EndsInDollar(t + r) <==> EndsInDollar(r)
  {
    var n := NameLength(r);
    NameLengthStops(r);
    assert forall i :: 0 <= i < |t| ==> (t + r)[i] == t[i];
    assert forall i :: 0 <= i < |r| ==> (t + r)[|t| + i] == r[i];
    assert forall i :: |t| <= i < |t| + n ==> (t + r)[i] == r[i - |t|];
    NameLengthIs(t + r, |t| + n);
  }

  lemma LiteralBlocksTag(t: string, r: string)
    requires IsLiteral(t) && !IsName(t)
    ensures !EndsInDollar(t + r)
  {
    var n := NameLength(t + r);
    NameLengthStops(t + r);
    assert forall i :: 0 <= i < |t| ==> (t + r)[i] == t[i];
    var j :| 0 <= j < |t| && !IsNameChar(t[j]);
    assert n <= j;
  }

  /** The filled text leads to a dollar exactly when the statement and the literals do. */
  lemma {:induction false} LeadsToDollarIff(s: string, fills: seq<string>)
    requires |fills| == Holes(Tokens(Normal, s)) && AreLiterals(fills)
    ensures EndsInDollar(Filled(Normal, s, fills)) <==> LeadsToDollar(s, fills)
    decreases |s|
  {
    FilledHead(Normal, s, fills);
    if IsHole(Normal, s) {
      FilledHole(s, fills);
      LeadsToDollarIff(s[1..], fills[1..]);
      if IsName(fills[0]) {
        NameThenRest(fills[0], Filled(Normal, s[1..], fills[1..]));
      } else {
        LiteralBlocksTag(fills[0], Filled(Normal, s[1..], fills[1..]));
      }
    } else if s != "" && IsNameChar(s[0]) {
      FilledToken(Normal, s, fills);
      LeadsToDollarIff(s[1..], fills);
      NameThenRest(s[..1], Filled(Normal, s[1..], fills));
    } else if s != "" {
      NameStops(Filled(Normal, s, fills));
    }
  }

  lemma NameStops(s: string)
    requires s != "" && !IsNameChar(s[0])
    ensures EndsInDollar(s) <==> s[0] == '$'
  {
  }

  lemma TagIsKept(s: string, out: string)
    requires DollarTag(s).Some? && StartsWith(out, DollarTag(s).value)
    ensures DollarTag(out) == DollarTag(s)
  {
    var tag := DollarTag(s).value;
    var n := |tag| - 2;
    NameLengthStops(s[1..]);
    assert forall i :: 0 <= i < |tag| ==> out[i] == tag[i] == s[i];
    assert NameLength(s[1..]) == n;
    assert s[1..][n] == s[n + 1] && out[1..][n] == out[n + 1];
    assert forall i :: 0 <= i < n ==> out[1..][i] == out[i + 1] == s[i + 1] == s[1..][i];
    NameLengthIs(out[1..], n);
    assert out[..n + 2] == tag;
  }

  lemma DollarSignIsKeptIff(s: string, fills: seq<string>)
    requires s != "" && s[0] == '$' && |fills| == Holes(Tokens(Normal, s)) && AreLiterals(fills)
    ensures Kept(Normal, s, fills) <==> !Offends(Normal, s, fills)
  {
    var out := Filled(Normal, s, fills);
    FilledHead(Normal, s, fills);
    FilledToken(Normal, s, fills);
    if DollarTag(s).Some? {
      TagIsKept(s, out);
    } else {
      var rest := Filled(Normal, s[1..], fills);
      assert out[1..] == rest;
      LeadsToDollarIff(s[1..], fills);
      FilledHead(Normal, s[1..], fills);
      TagIff(s);
      TagIff(out);
      assert |s| > 1 ==> s[1] == s[1..][0];
      assert |out| > 1 ==> out[1] == rest[0];
      if fills != [] {
        LiteralIsNonEmpty(fills[0]);
      }
    }
  }

  lemma PlainIsKeptIff(s: string, fills: seq<string>)
    requires s != "" && s[0] != '$' && s[0] != '?' && |fills| == Holes(Tokens(Normal, s)) && AreLiterals(fills)
    ensures Kept(Normal, s, fills) <==> !Offends(Normal, s, fills)
  {
    FilledHead(Normal, s, fills);
    if s[0] == '-' || s[0] == '/' {
      FilledNext(Normal, s, fills, if s[0] == '-' then '-' else '*');
      if fills != [] {
        LiteralIsNonEmpty(fills[0]);
      }
    }
  }

  lemma KeptIff(mode: Mode, s: string, fills: seq<string>)
    requires s != "" && !IsHole(mode, s) && |fills| == Holes(Tokens(mode, s)) && AreLiterals(fills)
    ensures Kept(mode, s, fills) <==> !Offends(mode, s, fills)
  {
    match mode {
      case Normal =>
        if s[0] == '$' {
          DollarSignIsKeptIff(s, fills);
        } else {
          PlainIsKeptIff(s, fills);
        }
      case Dollar(tag) => DollarIsKept(tag, s, fills);
      case LineComment => CommentIsKept(mode, s, fills);
      case BlockComment => CommentIsKept(mode, s, fills);
      case _ => QuotedIsKeptIff(mode, s, fills);
    }
  }

  // ----- Tokens first differ where the first offence is -----

  lemma FirstTokenMode(mode: Mode, s: string)
    requires s != ""
    ensures Tokens(mode, s) != [] && (Tokens(mode, s)[0].Hole? || Tokens(mode, s)[0].mode == mode)
  {
  }

  lemma FirstFilledMode(mode: Mode, s: string, fills: seq<string>)
    requires |fills| == Holes(Tokens(mode, s)) && AreLiterals(fills)
    ensures var ts := FillTokens(Tokens(mode, s), fills); s != "" ==> ts != [] && ts[0].Copied? && ts[0].mode == mode
  {
    if IsHole(mode, s) {
      FilledHole(s, fills);
      LiteralIsNonEmpty(fills[0]);
      FirstTokenMode(Normal, fills[0]);
    } else if s != "" {
      FilledToken(mode, s, fills);
    }
  }

  lemma DifferentToken(mode: Mode, s: string, fills: seq<string>)
    requires s != "" && !IsHole(mode, s) && |fills| == Holes(Tokens(mode, s)) && AreLiterals(fills)
    requires !Kept(mode, s, fills)
    ensures Tokens(mode, Filled(mode, s, fills)) != FillTokens(Tokens(mode, s), fills)
  {
    var out := Filled(mode, s, fills);
    FilledHead(mode, s, fills);
    FilledToken(mode, s, fills);
    var (mode', n) := Step(mode, s);
    var rest := FillTokens(Tokens(mode', s[n..]), fills);
    assert !IsHole(mode, out);
    DifferentStep(mode, out, s[..n], mode', rest);
    FilledHead(mode', s[n..], fills);
    assert s[n..] == "" ==> out == s;
    FirstFilledMode(mode', s[n..], fills);
    assert out[n..] == Filled(mode', s[n..], fills);
  }

  /** A text that starts with another token, or goes on in another mode, has other tokens. */
  lemma DifferentStep(mode: Mode, out: string, t: string, mode': Mode, rest: seq<Token>)
    requires out != "" && !IsHole(mode, out) && Step(mode, out) != (mode', |t|) && |t| <= |out|
    ensures Tokens(mode, out) != [Copied(mode, t)] + rest
         || out[|t|..] == "" || rest == [] || rest[0].Hole? || rest[0].mode != mode'
  {
    var (mode2, n2) := Step(mode, out);
    TokensCons(Copied(mode, out[..n2]), Tokens(mode2, out[n2..]));
    TokensCons(Copied(mode, t), rest);
    if n2 == |t| && out[n2..] != "" {
      FirstTokenMode(mode2, out[n2..]);
    }
  }

  lemma SameToken(mode: Mode, s: string, fills: seq<string>)
    requires s != "" && !IsHole(mode, s) && |fills| == Holes(Tokens(mode, s)) && AreLiterals(fills)
    requires Kept(mode, s, fills)
    ensures var (mode', n) := Step(mode, s);
            && |fills| == Holes(Tokens(mode', s[n..]))
            && (Tokens(mode, Filled(mode, s, fills)) == FillTokens(Tokens(mode, s), fills) <==>
                Tokens(mode', Filled(mode', s[n..], fills)) == FillTokens(Tokens(mode', s[n..]), fills))
  {
    var out := Filled(mode, s, fills);
    FilledHead(mode, s, fills);
    FilledToken(mode, s, fills);
    var (mode', n) := Step(mode, s);
    var rest := Filled(mode', s[n..], fills);
    assert out[..n] == s[..n] && out[n..] == rest;
    ConsIsInjective(Copied(mode, s[..n]), Tokens(mode', rest), FillTokens(Tokens(mode', s[n..]), fills));
  }

  lemma SameLiteral(s: string, fills: seq<string>)
    requires IsHole(Normal, s) && |fills| == Holes(Tokens(Normal, s)) && AreLiterals(fills)
    ensures fills != [] && |fills[1..]| == Holes(Tokens(Normal, s[1..]))
    ensures Tokens(Normal, Filled(Normal, s, fills)) == FillTokens(Tokens(Normal, s), fills) <==>
            && !(StartsWithQuote(fills[0]) && QuoteNext(s[1..], fills[1..]))
            && Tokens(Normal, Filled(Normal, s[1..], fills[1..])) == FillTokens(Tokens(Normal, s[1..]), fills[1..])
  {
    FilledHole(s, fills);
    var rest := Filled(Normal, s[1..], fills[1..]);
    var ts := FillTokens(Tokens(Normal, s[1..]), fills[1..]);
    LiteralScansIff(fills[0], rest, ts);
    FilledHead(Normal, s[1..], fills[1..]);
    PrefixIsInjective(Tokens(Normal, fills[0]), Tokens(Normal, rest), ts);
  }

  lemma PrefixIsInjective<T>(a: seq<T>, b: seq<T>, c: seq<T>)
    ensures a + b == a + c <==> b == c
  {
    if a + b == a + c {
      assert (a + b)[|a|..] == b && (a + c)[|a|..] == c;
    }
  }

  /**
   Scanning a filled statement gives the statement's own tokens, and between them those of the literals,
   exactly when no token runs into a literal.
   */
  lemma {:induction false} FilledScansIff(mode: Mode, s: string, fills: seq<string>)
    requires |fills| == Holes(Tokens(mode, s)) && AreLiterals(fills)
    ensures Tokens(mode, Filled(mode, s, fills)) == FillTokens(Tokens(mode, s), fills) <==> Clean(mode, s, fills)
    decreases |s|
  {
    if s == "" {
    } else if IsHole(mode, s) {
      SameLiteral(s, fills);
      FilledScansIff(Normal, s[1..], fills[1..]);
    } else {
      KeptIff(mode, s, fills);
      if Kept(mode, s, fills) {
        SameToken(mode, s, fills);
        FilledScansIff(Step(mode, s).0, s[Step(mode, s).1..], fills);
      } else {
        DifferentToken(mode, s, fills);
      }
    }
  }

  /** The bound statement scans as its parts do: every copied character keeps its state, every literal stands alone. */
  ghost predicate Rescans(sql: string, vs: seq<JsValue>)
    requires Bound(Normal, sql, vs).Ok?
  {
    BindSucceedsIff(sql, vs);
    Tokens(Normal, Bound(Normal, sql, vs).value) == FillTokens(Tokens(Normal, sql), Literals(vs))
  }

  /**
   A bound statement scans as its parts do exactly when the statement and the literals keep apart;
   and then it holds no placeholder.
   */
  lemma RescansIff(sql: string, vs: seq<JsValue>)
    requires Bound(Normal, sql, vs).Ok? && PrintsNumerals(vs)
    ensures Bindable(vs) && (Rescans(sql, vs) <==> Clean(Normal, sql, Literals(vs)))
    ensures Rescans(sql, vs) ==> Holes(Tokens(Normal, Bound(Normal, sql, vs).value)) == 0
  {
    BindSucceedsIff(sql, vs);
    LiteralsAreLiterals(vs);
    FilledScansIff(Normal, sql, Literals(vs));
    FilledHasNoHoles(Tokens(Normal, sql), Literals(vs));
  }

  lemma {:induction false} FilledHasNoHoles(ts: seq<Token>, fills: seq<string>)
    requires |fills| == Holes(ts) && AreLiterals(fills)
    ensures Holes(FillTokens(ts, fills)) == 0
  {
    if ts != [] {
      if ts[0].Hole? {
        FilledHasNoHoles(ts[1..], fills[1..]);
        LiteralScansIff(fills[0], "", []);
        HolesAdd(Tokens(Normal, fills[0]), FillTokens(ts[1..], fills[1..]));
      } else {
        FilledHasNoHoles(ts[1..], fills);
        TokensCons(ts[0], FillTokens(ts[1..], fills));
      }
    }
  }

  lemma {:induction false} HolesAdd(a: seq<Token>, b: seq<Token>)
    ensures Holes(a + b) == Holes(a) + Holes(b)
  {
    if a == [] {
      assert a + b == b;
    } else {
      assert (a + b)[1..] == a[1..] + b;
      HolesAdd(a[1..], b);
    }
  }

  // ----- Placeholders between separators -----

  /** A blank, a comma or a parenthesis. */
  predicate IsSeparator(c: char) {
    c == ' ' || c == '\t' || c == '\n' || c == '\r' || c == ',' || c == '(' || c == ')'
  }

  predicate EndsField(s: string) {
    s == "" || IsSeparator(s[0])
  }

  /** Every placeholder sits between separators or the ends of the text; `before` says what came just before. */
  predicate Separated(mode: Mode, s: string, before: bool)
    decreases |s|
  {
    if s == "" then true
    else if IsHole(mode, s) then before && EndsField(s[1..]) && Separated(Normal, s[1..], false)
    else
      var (mode', n) := Step(mode, s);
      Separated(mode', s[n..], IsSeparator(s[n - 1]))
  }

  /** Without a separator no placeholder comes before the dollar. */
  lemma {:induction false} SeparatedLeadsToDollar(s: string, fills: seq<string>)
    requires Separated(Normal, s, false) && LeadsToDollar(s, fills)
    ensures EndsInDollar(s) && s[0] != '?'
    decreases |s|
  {
    if s[0] != '$' {
      assert s[0] != '?' && Step(Normal, s) == (Normal, 1);
      SeparatedLeadsToDollar(s[1..], fills);
      assert s == s[..1] + s[1..];
      NameThenRest(s[..1], s[1..]);
    }
  }

  lemma SeparatedKeepsApart(mode: Mode, s: string, fills: seq<string>)
    requires s != "" && !IsHole(mode, s)
    requires var (mode', n) := Step(mode, s); Separated(mode', s[n..], IsSeparator(s[n - 1]))
    ensures !Offends(mode, s, fills)
  {
    if mode == Normal && s[0] == '$' && Step(mode, s).0 == Normal && LeadsToDollar(s[1..], fills) {
      SeparatedLeadsToDollar(s[1..], fills);
      TagIff(s);
      assert s[1] == s[1..][0];
    }
  }

  lemma SeparatedLiteral(s: string, fills: seq<string>)
    requires EndsField(s)
    ensures !QuoteNext(s, fills)
  {
  }

  lemma {:induction false} SeparatedIsClean(mode: Mode, s: string, before: bool, fills: seq<string>)
    requires Separated(mode, s, before) && |fills| == Holes(Tokens(mode, s))
    ensures Clean(mode, s, fills)
    decreases |s|
  {
    if s == "" {
    } else if IsHole(mode, s) {
      TokensCons(Hole, Tokens(Normal, s[1..]));
      SeparatedLiteral(s[1..], fills[1..]);
      SeparatedIsClean(Normal, s[1..], false, fills[1..]);
    } else {
      var (mode', n) := Step(mode, s);
      TokensCons(Copied(mode, s[..n]), Tokens(mode', s[n..]));
      SeparatedKeepsApart(mode, s, fills);
      SeparatedIsClean(mode', s[n..], IsSeparator(s[n - 1]), fills);
    }
  }

  /** When every placeholder sits between separators, the bound statement scans as its parts do. */
  lemma SeparatedRescans(sql: string, vs: seq<JsValue>)
    requires Separated(Normal, sql, true) && PrintsNumerals(vs) && Bound(Normal, sql, vs).Ok?
    ensures Rescans(sql, vs) && Holes(Tokens(Normal, Bound(Normal, sql, vs).value)) == 0
  {
    BindSucceedsIff(sql, vs);
    SeparatedIsClean(Normal, sql, true, Literals(vs));
    RescansIff(sql, vs);
  }

  /** Literals that run into their neighbours: a comment, a merged string, a dollar-quote tag. And one that does not. */
  lemma OffendingNeighbours()
    ensures !Clean(Normal, "-?", ["-5"])
    ensures !Clean(Single, "'?", ["'a'"])
    ensures !Clean(Normal, "??", ["'a'", "'b'"])
    ensures !Clean(Normal, "$a?$", ["5"])
    ensures Clean(Normal, "=?", ["5"])
  {
    assert "-?"[1..] == "?" && Step(Normal, "-?") == (Normal, 1);
    assert "'?"[1..] == "?" && Step(Single, "'?") == (Normal, 1);
    assert "??"[1..] == "?" && ["'a'", "'b'"][1..] == ["'b'"];
    var s := "$a?$";
    assert s[1..] == "a?$" && "a?$"[1..] == "?$" && "?$"[1..] == "$" && ["5"][1..] == [];
    assert NameLength("a?$") == 1;
    assert DollarTag(s) == None;
    assert LeadsToDollar("$", []);
    assert LeadsToDollar("?$", ["5"]);
    assert "=?"[1..] == "?" && "?"[1..] == "" && Step(Normal, "=?") == (Normal, 1);
    assert Clean(Normal, "?", ["5"]);
  }

  /** Without the separators it can fail: `-?` bound to -5 starts a comment. */
  lemma NeighboursMatter()
    ensures var sql, vs := "-?", [BigInt("-5")];
            && PrintsNumerals(vs)
            && Bound(Normal, sql, vs) == Ok("--5")
            && Tokens(Normal, "--5")[1].mode == LineComment
  {
    var sql, vs := "-?", [BigInt("-5")];
    assert Step(Normal, sql) == (Normal, 1);
    assert sql[1..] == "?" && "?"[1..] == "" && sql[..1] == "-";
    assert vs[1..] == [] && Bound(Normal, "", []) == Ok("");
    assert Bound(Normal, "?", vs) == Prepend("-5", Ok(""));
    assert "-5" + "" == "-5" && "-" + "-5" == "--5";
    var out := "--5";
    assert Step(Normal, out) == (LineComment, 1);
    assert out[1..] == "-5" && "-5"[..1] == "-";
    assert Tokens(LineComment, "-5")[0] == Copied(LineComment, "-");
  }
}

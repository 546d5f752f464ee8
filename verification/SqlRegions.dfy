/**
 Binding read region by region (packages/npm/index.js): strings, quoted identifiers, comments and
 dollar-quoted bodies are found whole and copied, and only what is between them is searched for
 placeholders. The scanner of `bindSql`, one character and one state at a time, does the same.
 */
module SqlRegions {
  import opened Wrappers
  import opened Text
  import opened SqlScanner
  import opened BindSql

  // ----- Where regions end -----

  /** The position of the first `t`, or `|s|` when there is none. */
  function FirstAt(s: string, t: string): (i: nat)
    ensures i < |s| ==> i + |t| <= |s|
    ensures i <= |s|
  {
    if s == "" || StartsWith(s, t) then 0 else 1 + FirstAt(s[1..], t)
  }

  lemma {:induction false} FirstAtIs(s: string, t: string)
    ensures var i := FirstAt(s, t);
            (i < |s| ==> StartsWith(s[i..], t)) && forall j :: 0 <= j < i ==> !StartsWith(s[j..], t)
  {
    if s != "" {
      assert s[0..] == s;
      if !StartsWith(s, t) {
        FirstAtIs(s[1..], t);
        assert forall j :: 1 <= j <= |s| ==> s[j..] == s[1..][j - 1..];
      }
    }
  }

  /** The length of the text up to and including the first `t`; all of it when there is none. */
  function Through(s: string, t: string): (n: nat)
    ensures n <= |s|
  {
    if FirstAt(s, t) < |s| then FirstAt(s, t) + |t| else |s|
  }

  /** The length of the text up to and including the closing quote; a doubled quote does not close. */
  function ThroughQuote(s: string, quote: char): (n: nat)
    ensures n <= |s|
  {
    if s == "" then 0
    else if s[0] != quote then 1 + ThroughQuote(s[1..], quote)
    else if Next(s, quote) then 2 + ThroughQuote(s[2..], quote)
    else 1
  }

  /** How much of the text after an opener belongs to the region it opens. */
  function RegionLength(mode: Mode, s: string): (n: nat)
    requires mode != Normal
    ensures n <= |s|
  {
    match mode
    case Single => ThroughQuote(s, '\'')
    case Identifier => ThroughQuote(s, '\"')
    case LineComment => Through(s, "\n")
    case BlockComment => Through(s, "*/")
    case Dollar(tag) => Through(s, tag)
  }

  // ----- Regions and the scanner -----

  /** One step either closes the region or leaves the rest of it. */
  predicate StepsInside(mode: Mode, s: string, next: (Mode, nat))
    requires mode != Normal && next.1 <= |s|
  {
    if next.0 == Normal then RegionLength(mode, s) == next.1
    else next.0 == mode && RegionLength(mode, s) == next.1 + RegionLength(mode, s[next.1..])
  }

  lemma ThroughStep(s: string, t: string)
    requires s != "" && t != ""
    ensures Through(s, t) == if StartsWith(s, t) then |t| else 1 + Through(s[1..], t)
  {
    if StartsWith(s, t) {
      assert s[0..] == s;
    }
  }

  lemma CommentStep(s: string)
    requires s != ""
    ensures StepsInside(LineComment, s, Step(LineComment, s)) && StepsInside(BlockComment, s, Step(BlockComment, s))
  {
    ThroughStep(s, "\n");
    ThroughStep(s, "*/");
    assert StartsWith(s, "\n") <==> s[0] == '\n';
    assert StartsWith(s, "*/") <==> s[0] == '*' && Next(s, '/');
  }

  lemma DollarStep(tag: Tag, s: string)
    requires s != ""
    ensures StepsInside(Dollar(tag), s, Step(Dollar(tag), s))
  {
    ThroughStep(s, tag);
  }

  lemma RegionStep(mode: Mode, s: string)
    requires mode != Normal && s != ""
    ensures StepsInside(mode, s, Step(mode, s))
  {
    match mode
    case Single =>
    case Identifier =>
    case LineComment => CommentStep(s);
    case BlockComment => CommentStep(s);
    case Dollar(tag) => DollarStep(tag, s);
  }

  /** A region holds no placeholders: the scanner copies it and goes on after it. */
  lemma {:induction false} RegionHasNoHoles(mode: Mode, s: string)
    requires mode != Normal
    ensures Holes(Tokens(mode, s)) == Holes(Tokens(Normal, s[RegionLength(mode, s)..]))
    decreases |s|
  {
    if s != "" {
      var (mode', n) := Step(mode, s);
      RegionStep(mode, s);
      TokensStep(mode, s);
      TokensCons(Copied(mode, s[..n]), Tokens(mode', s[n..]));
      if mode' != Normal {
        RegionHasNoHoles(mode, s[n..]);
        assert s[n..][RegionLength(mode, s[n..])..] == s[RegionLength(mode, s)..];
      }
    }
  }

  lemma BoundInside(mode: Mode, s: string, vs: seq<JsValue>) returns (mode': Mode, n: nat)
    requires mode != Normal && s != ""
    ensures 1 <= n <= |s| && Bound(mode, s, vs) == Prepend(s[..n], Bound(mode', s[n..], vs))
    ensures mode' == Normal ==> RegionLength(mode, s) == n
    ensures mode' != Normal ==> mode' == mode && RegionLength(mode, s) == n + RegionLength(mode, s[n..])
  {
    mode', n := Step(mode, s).0, Step(mode, s).1;
    RegionStep(mode, s);
  }

  /** The first `n` characters are copied, and plain SQL follows. */
  ghost predicate CopiedThrough(mode: Mode, s: string, vs: seq<JsValue>, n: nat)
    requires n <= |s|
  {
    Bound(mode, s, vs) == Prepend(s[..n], Bound(Normal, s[n..], vs))
  }

  lemma CopiedOn(mode: Mode, mode': Mode, s: string, vs: seq<JsValue>, n: nat, k: nat)
    requires n <= |s| && k <= |s| - n
    requires Bound(mode, s, vs) == Prepend(s[..n], Bound(mode', s[n..], vs)) && CopiedThrough(mode', s[n..], vs, k)
    ensures CopiedThrough(mode, s, vs, n + k)
  {
    Prepended(s[..n], s[n..][..k], Bound(Normal, s[n..][k..], vs));
    assert s[..n] + s[n..][..k] == s[..n + k] && s[n..][k..] == s[n + k..];
  }

  lemma {:induction false} RegionIsCopied(mode: Mode, s: string, vs: seq<JsValue>)
    requires mode != Normal
    ensures CopiedThrough(mode, s, vs, RegionLength(mode, s))
    decreases |s|
  {
    if s == "" {
      PrependNothing(Bound(Normal, s, vs));
    } else {
      var mode', n := BoundInside(mode, s, vs);
      if mode' != Normal {
        RegionIsCopied(mode, s[n..], vs);
        CopiedOn(mode, mode', s, vs, n, RegionLength(mode, s[n..]));
      }
    }
  }

  // ----- Regions and what is between them -----

  /** The region that starts here, if one does: its mode, and the length of its opener. */
  function Opener(s: string): (r: Option<(Mode, nat)>)
    ensures r.Some? ==> r.value.0 != Normal && 1 <= r.value.1 <= |s|
  {
    if DollarTag(s).Some? then Some((Dollar(DollarTag(s).value), |DollarTag(s).value|))
    else if StartsWith(s, "'") then Some((Single, 1))
    else if StartsWith(s, "\"") then Some((Identifier, 1))
    else if StartsWith(s, "--") then Some((LineComment, 2))
    else if StartsWith(s, "/*") then Some((BlockComment, 1))
    else None
  }

  /** The length of the region that starts here, or zero. A comment's `*` may be the one that closes it. */
  function RegionAt(s: string): (n: nat)
    ensures n <= |s|
    ensures n > 0 <==> Opener(s).Some?
  {
    match Opener(s)
    case None => 0
    case Some((mode, n)) => n + RegionLength(mode, s[n..])
  }

  /** The placeholders between regions. */
  function Placeholders(s: string): nat
    decreases |s|
  {
    if s == "" then 0
    else if RegionAt(s) > 0 then Placeholders(s[RegionAt(s)..])
    else (if s[0] == '?' then 1 else 0) + Placeholders(s[1..])
  }

  /** Binding region by region: regions are copied, values go to the placeholders between them. */
  function BoundByRegion(s: string, vs: seq<JsValue>): Result<string, BindError>
    decreases |s|
  {
    if s == "" then if vs == [] then Ok("") else Err(TooMany)
    else if RegionAt(s) > 0 then Prepend(s[..RegionAt(s)], BoundByRegion(s[RegionAt(s)..], vs))
    else if s[0] != '?' then Prepend(s[..1], BoundByRegion(s[1..], vs))
    else if vs == [] then Err(NotEnough)
    else
      match Literal(vs[0])
      case Err(e) => Err(e)
      case Ok(t) => Prepend(t, BoundByRegion(s[1..], vs[1..]))
  }

  lemma DashesOpen(s: string)
    requires DollarTag(s).None? && StartsWith(s, "--")
    ensures Step(Normal, s) == (LineComment, 1)
    ensures RegionLength(LineComment, s[1..]) == 1 + RegionLength(LineComment, s[2..])
  {
    assert s[0] == '-' && s[1] == '-';
    ThroughStep(s[1..], "\n");
    assert s[1..][1..] == s[2..];
  }

  /** Where a region starts, the scanner enters its mode and the region's end is its end. */
  lemma OpenerSteps(s: string)
    requires s != ""
    ensures Opener(s).None? ==> Step(Normal, s) == (Normal, 1)
    ensures Opener(s).Some? ==>
              var (mode, n) := Step(Normal, s);
              && mode != Normal && !IsHole(Normal, s) && n + RegionLength(mode, s[n..]) == RegionAt(s)
  {
    assert StartsWith(s, "'") <==> s[0] == '\'';
    assert StartsWith(s, "\"") <==> s[0] == '\"';
    assert StartsWith(s, "--") <==> s[0] == '-' && Next(s, '-');
    assert StartsWith(s, "/*") <==> s[0] == '/' && Next(s, '*');
    if DollarTag(s).None? && StartsWith(s, "--") {
      DashesOpen(s);
    }
  }

  /** The scanner finds exactly the placeholders between regions. */
  lemma {:induction false} ScannerFindsPlaceholders(s: string)
    ensures Holes(Tokens(Normal, s)) == Placeholders(s)
    decreases |s|
  {
    if s != "" {
      OpenerSteps(s);
      var (mode, n) := Step(Normal, s);
      if Opener(s).Some? {
        TokensStep(Normal, s);
        TokensCons(Copied(Normal, s[..n]), Tokens(mode, s[n..]));
        RegionHasNoHoles(mode, s[n..]);
        assert s[n..][RegionLength(mode, s[n..])..] == s[RegionAt(s)..];
        ScannerFindsPlaceholders(s[RegionAt(s)..]);
      } else {
        ScannerFindsPlaceholders(s[1..]);
        TokensCons(if IsHole(Normal, s) then Hole else Copied(Normal, s[..1]), Tokens(Normal, s[1..]));
      }
    }
  }

  lemma BoundOpening(s: string, vs: seq<JsValue>) returns (mode: Mode, n: nat)
    requires s != "" && Opener(s).Some?
    ensures mode != Normal && n <= |s| && Bound(Normal, s, vs) == Prepend(s[..n], Bound(mode, s[n..], vs))
    ensures n + RegionLength(mode, s[n..]) == RegionAt(s)
  {
    mode, n := Step(Normal, s).0, Step(Normal, s).1;
    OpenerSteps(s);
  }

  lemma RegionBinds(s: string, vs: seq<JsValue>)
    requires s != "" && Opener(s).Some?
    ensures CopiedThrough(Normal, s, vs, RegionAt(s))
  {
    var mode, n := BoundOpening(s, vs);
    RegionIsCopied(mode, s[n..], vs);
    CopiedOn(Normal, mode, s, vs, n, RegionLength(mode, s[n..]));
  }

  /** Binding one character at a time is binding region by region. */
  lemma {:induction false} BindsByRegion(s: string, vs: seq<JsValue>)
    ensures Bound(Normal, s, vs) == BoundByRegion(s, vs)
    decreases |s|
  {
    if s != "" {
      OpenerSteps(s);
      if Opener(s).Some? {
        RegionBinds(s, vs);
        BindsByRegion(s[RegionAt(s)..], vs);
      } else if s[0] != '?' {
        BindsByRegion(s[1..], vs);
      } else if vs != [] {
        BindsByRegion(s[1..], vs[1..]);
      }
    }
  }

  // ----- Each kind of region -----

  /** Doubles every `quote`. */
  function Escaped(x: string, quote: char): string {
    if x == "" then "" else (if x[0] == quote then [quote, quote] else [x[0]]) + Escaped(x[1..], quote)
  }

  lemma EscapedCons(x: string, quote: char, r: string)
    requires x != ""
    ensures var head := if x[0] == quote then [quote, quote] else [x[0]];
            Escaped(x, quote) + [quote] + r == head + (Escaped(x[1..], quote) + [quote] + r)
  {
  }

  lemma {:induction false} QuoteCloses(x: string, quote: char, r: string)
    requires r == "" || r[0] != quote
    ensures ThroughQuote(Escaped(x, quote) + [quote] + r, quote) == |Escaped(x, quote)| + 1
  {
    if x == "" {
      assert Escaped(x, quote) + [quote] + r == [quote] + r;
    } else {
      QuoteCloses(x[1..], quote, r);
      EscapedCons(x, quote, r);
      var head := if x[0] == quote then [quote, quote] else [x[0]];
      var tail := Escaped(x[1..], quote) + [quote] + r;
      assert (head + tail)[|head|..] == tail;
    }
  }

  lemma RegionEnds(s: string, r: string, n: nat)
    requires s != "" && Opener(s).Some? && RegionAt(s) == n && n <= |s| && s[n..] == r
    ensures Holes(Tokens(Normal, s)) == Holes(Tokens(Normal, r))
  {
    ScannerFindsPlaceholders(s);
    ScannerFindsPlaceholders(r);
  }

  predicate Quotes(quote: char, mode: Mode) {
    (quote == '\'' && mode == Single) || (quote == '\"' && mode == Identifier)
  }

  lemma QuoteOpensRegion(quote: char, mode: Mode, body: string)
    requires Quotes(quote, mode)
    ensures Opener([quote] + body) == Some((mode, 1)) && RegionAt([quote] + body) == 1 + ThroughQuote(body, quote)
  {
    var s := [quote] + body;
    assert s[..1] == [quote] && s[1..] == body;
  }

  /** A quoted text, whatever it holds, is copied; what follows must not start with another quote. */
  lemma QuotedIsCopied(quote: char, mode: Mode, x: string, r: string)
    requires Quotes(quote, mode) && (r == "" || r[0] != quote)
    ensures Holes(Tokens(Normal, [quote] + (Escaped(x, quote) + [quote] + r))) == Holes(Tokens(Normal, r))
  {
    var body, n := Escaped(x, quote) + [quote] + r, |Escaped(x, quote)| + 1;
    QuoteCloses(x, quote, r);
    QuoteOpensRegion(quote, mode, body);
    assert ([quote] + body)[1 + n..] == body[n..] == r;
    RegionEnds([quote] + body, r, 1 + n);
  }

  lemma IdentifierIsCopied(x: string, r: string)
    requires r == "" || r[0] != '\"'
    ensures Holes(Tokens(Normal, "\"" + Escaped(x, '\"') + "\"" + r)) == Holes(Tokens(Normal, r))
  {
    QuotedIsCopied('\"', Identifier, x, r);
    assert "\"" + Escaped(x, '\"') + "\"" + r == ['\"'] + (Escaped(x, '\"') + ['\"'] + r);
  }

  lemma StringIsCopied(x: string, r: string)
    requires r == "" || r[0] != '\''
    ensures Holes(Tokens(Normal, "'" + Escaped(x, '\'') + "'" + r)) == Holes(Tokens(Normal, r))
  {
    QuotedIsCopied('\'', Single, x, r);
    assert "'" + Escaped(x, '\'') + "'" + r == ['\''] + (Escaped(x, '\'') + ['\''] + r);
  }

  /** The first `t` after `a` is the one put there. */
  predicate FirstAfter(a: string, t: string) {
    FirstAt(a + t, t) == |a|
  }

  lemma ThroughFirst(a: string, t: string, r: string)
    requires t != "" && FirstAfter(a, t)
    ensures Through(a + t + r, t) == |a + t|
  {
    var s := a + t + r;
    assert s[|a|..][..|t|] == t;
    FirstAtIs(s, t);
    FirstAtIs(a + t, t);
    forall j | 0 <= j < |a| ensures !StartsWith(s[j..], t) {
      assert s[j..j + |t|] == (a + t)[j..j + |t|];
      assert s[j..][..|t|] == s[j..j + |t|] && (a + t)[j..][..|t|] == (a + t)[j..j + |t|];
    }
  }

  lemma DashesOpenRegion(body: string)
    ensures Opener("--" + body) == Some((LineComment, 2)) && RegionAt("--" + body) == 2 + Through(body, "\n")
  {
    var s := "--" + body;
    assert s[..2] == "--" && s[2..] == body && s[0] == '-';
  }

  lemma SlashOpensRegion(body: string)
    requires body != "" && body[0] == '*'
    ensures Opener("/" + body) == Some((BlockComment, 1)) && RegionAt("/" + body) == 1 + Through(body, "*/")
  {
    var s := "/" + body;
    assert s[..2] == "/*" && s[1..] == body && s[0] == '/';
  }

  lemma AfterBody(opener: string, a: string, t: string, r: string)
    ensures opener + (a + t + r) == opener + a + t + r
    ensures (opener + (a + t + r))[|opener| + |a + t|..] == r
  {
  }

  /** A line comment is copied up to its newline. */
  lemma LineCommentIsCopied(x: string, r: string)
    requires '\n' !in x
    ensures Holes(Tokens(Normal, "--" + x + "\n" + r)) == Holes(Tokens(Normal, r))
  {
    NoNewlineBefore(x);
    ThroughFirst(x, "\n", r);
    DashesOpenRegion(x + "\n" + r);
    AfterBody("--", x, "\n", r);
    RegionEnds("--" + (x + "\n" + r), r, 2 + |x + "\n"|);
  }

  lemma NoNewlineBefore(x: string)
    requires '\n' !in x
    ensures FirstAfter(x, "\n")
  {
    var s := x + "\n";
    FirstAtIs(s, "\n");
    assert StartsWith(s[|x|..], "\n");
    forall j | 0 <= j < |x| ensures !StartsWith(s[j..], "\n") {
      assert s[j..][..1][0] == x[j];
    }
  }

  /** A block comment is copied up to the first `*` and `/`, even when that `*` is the one that opened it. */
  lemma BlockCommentIsCopied(a: string, r: string)
    requires (a == "" || a[0] == '*') && FirstAfter(a, "*/")
    ensures Holes(Tokens(Normal, "/" + a + "*/" + r)) == Holes(Tokens(Normal, r))
  {
    ThroughFirst(a, "*/", r);
    SlashOpensRegion(a + "*/" + r);
    AfterBody("/", a, "*/", r);
    RegionEnds("/" + (a + "*/" + r), r, 1 + |a + "*/"|);
  }

  /** `$$`, or a name between dollars. */
  predicate IsTag(t: string) {
    && |t| >= 2 && t[0] == '$' && t[|t| - 1] == '$' && (|t| > 2 ==> IsNameStart(t[1]))
    && forall i :: 1 <= i < |t| - 1 ==> IsNameChar(t[i])
  }

  /** The tag found at the front is the one the text starts with. */
  lemma DollarTagIff(s: string, t: Tag)
    ensures DollarTag(s) == Some(t) <==> IsTag(t) && StartsWith(s, t)
  {
    if IsTag(t) && StartsWith(s, t) {
      assert forall i :: 0 <= i < |t| ==> s[i] == s[..|t|][i];
      NameLengthIs(s[1..], |t| - 2);
    }
    if s != "" {
      NameLengthStops(s[1..]);
    }
    if DollarTag(s) == Some(t) {
      assert forall i :: 1 <= i < |t| - 1 ==> t[i] == s[1..][i - 1];
    }
  }

  /** A dollar-quoted body is copied up to its closing tag. */
  lemma DollarBodyIsCopied(tag: Tag, x: string, r: string)
    requires IsTag(tag) && FirstAfter(x, tag)
    ensures Holes(Tokens(Normal, tag + x + tag + r)) == Holes(Tokens(Normal, r))
  {
    var s := tag + (x + tag + r);
    assert s[..|tag|] == tag && s[|tag|..] == x + tag + r;
    DollarTagIff(s, tag);
    ThroughFirst(x, tag, r);
    AfterBody(tag, x, tag, r);
    RegionEnds(s, r, |tag| + |x + tag|);
  }

  /** A region that is never closed hides the rest of the statement. */
  lemma OpenRegionHasNoHoles(s: string)
    requires s != "" && RegionAt(s) == |s|
    ensures Holes(Tokens(Normal, s)) == 0
  {
    ScannerFindsPlaceholders(s);
  }
}

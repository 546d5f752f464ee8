/** The scanner inside `bindSql` (packages/npm/index.js): which parts of a statement are plain SQL. */
module SqlScanner {
  import opened Wrappers
  import opened Text

  /** A dollar-quote tag with its dollars. */
  type Tag = s: string | |s| >= 2 witness "$$"

  /** Where the scanner is: in plain SQL, or in a string, an identifier, a comment or a dollar-quoted body. */
  datatype Mode = Normal | Single | Identifier | LineComment | BlockComment | Dollar(tag: Tag)

  /** A stretch of text and the mode it was read in, or a placeholder. */
  datatype Token = Copied(mode: Mode, text: string) | Hole

  predicate IsNameStart(c: char) {
    'A' <= c <= 'Z' || 'a' <= c <= 'z' || c == '_'
  }

  predicate IsNameChar(c: char) {
    IsNameStart(c) || IsDigit(c)
  }

  /** How many name characters the text starts with. */
  function NameLength(s: string): (n: nat)
    ensures n <= |s|
  {
    if s == "" || !IsNameChar(s[0]) then 0 else 1 + NameLength(s[1..])
  }

  /** It is the first position without a name character. */
  lemma {:induction false} NameLengthIs(s: string, n: nat)
    requires n <= |s| && (n < |s| ==> !IsNameChar(s[n])) && forall i :: 0 <= i < n ==> IsNameChar(s[i])
    ensures NameLength(s) == n
  {
    if n > 0 {
      NameLengthIs(s[1..], n - 1);
    }
  }

  lemma {:induction false} NameLengthStops(s: string)
    ensures var n := NameLength(s);
            (n < |s| ==> !IsNameChar(s[n])) && forall i :: 0 <= i < n ==> IsNameChar(s[i])
  {
    if s != "" && IsNameChar(s[0]) {
      NameLengthStops(s[1..]);
    }
  }

  /** The dollar-quote tag the text starts with. */
  function DollarTag(s: string): (r: Option<Tag>)
    ensures r.Some? ==> |r.value| <= |s| && s[..|r.value|] == r.value
  {
    if s == "" || s[0] != '$' then None
    else
      var n := NameLength(s[1..]);
      if n + 1 < |s| && s[n + 1] == '$' && (n == 0 || IsNameStart(s[1])) then Some(s[..n + 2]) else None
  }

  predicate IsHole(mode: Mode, s: string) {
    mode == Normal && s != "" && s[0] == '?'
  }

  predicate StartsWith(s: string, prefix: string) {
    |prefix| <= |s| && s[..|prefix|] == prefix
  }

  function NormalStep(s: string): (r: (Mode, nat))
    requires s != ""
    ensures 1 <= r.1 <= |s|
  {
    var tag := DollarTag(s);
    if tag.Some? then (Dollar(tag.value), |tag.value|)
    else if s[0] == '\'' then (Single, 1)
    else if s[0] == '\"' then (Identifier, 1)
    else if s[0] == '-' && Next(s, '-') then (LineComment, 1)
    else if s[0] == '/' && Next(s, '*') then (BlockComment, 1)
    else (Normal, 1)
  }

  /** Inside text that ends at a quote and where a doubled quote stands for one. */
  function QuotedStep(mode: Mode, quote: char, s: string): (r: (Mode, nat))
    requires s != ""
    ensures 1 <= r.1 <= |s|
  {
    if s[0] == quote && Next(s, quote) then (mode, 2)
    else if s[0] == quote then (Normal, 1)
    else (mode, 1)
  }

  /** The mode after the next token and how long that token is. */
  function Step(mode: Mode, s: string): (r: (Mode, nat))
    requires s != ""
    ensures 1 <= r.1 <= |s|
  {
    match mode
    case Normal => NormalStep(s)
    case Single => QuotedStep(Single, '\'', s)
    case Identifier => QuotedStep(Identifier, '\"', s)
    case LineComment => (if s[0] == '\n' then Normal else LineComment, 1)
    case BlockComment => if s[0] == '*' && Next(s, '/') then (Normal, 2) else (BlockComment, 1)
    case Dollar(tag) => if StartsWith(s, tag) then (Normal, |tag|) else (mode, 1)
  }

  function Tokens(mode: Mode, s: string): seq<Token>
    decreases |s|
  {
    if s == "" then []
    else if IsHole(mode, s) then [Hole] + Tokens(Normal, s[1..])
    else
      var (mode', n) := Step(mode, s);
      [Copied(mode, s[..n])] + Tokens(mode', s[n..])
  }

  function Holes(ts: seq<Token>): nat {
    if ts == [] then 0 else (if ts[0].Hole? then 1 else 0) + Holes(ts[1..])
  }

  /** The text of the tokens, with the given texts in place of the placeholders. */
  function Fill(ts: seq<Token>, fills: seq<string>): string
    requires |fills| == Holes(ts)
  {
    if ts == [] then ""
    else if ts[0].Hole? then fills[0] + Fill(ts[1..], fills[1..])
    else ts[0].text + Fill(ts[1..], fills)
  }

  lemma TokensCons(t: Token, ts: seq<Token>)
    ensures Holes([t] + ts) == (if t.Hole? then 1 else 0) + Holes(ts)
    ensures ([t] + ts)[1..] == ts
  {
  }

  lemma FillHole(ts: seq<Token>, fills: seq<string>)
    requires |fills| == 1 + Holes(ts)
    ensures Holes([Hole] + ts) == |fills| && Fill([Hole] + ts, fills) == fills[0] + Fill(ts, fills[1..])
  {
    TokensCons(Hole, ts);
  }

  lemma FillCopied(mode: Mode, text: string, ts: seq<Token>, fills: seq<string>)
    requires |fills| == Holes(ts)
    ensures Holes([Copied(mode, text)] + ts) == |fills|
    ensures Fill([Copied(mode, text)] + ts, fills) == text + Fill(ts, fills)
  {
    TokensCons(Copied(mode, text), ts);
  }

  lemma HoleCovers(s: string, fills: seq<string>)
    requires IsHole(Normal, s) && |fills| == 1 + Holes(Tokens(Normal, s[1..])) && fills[0] == "?"
    requires Fill(Tokens(Normal, s[1..]), fills[1..]) == s[1..]
    ensures |fills| == Holes(Tokens(Normal, s)) && Fill(Tokens(Normal, s), fills) == s
  {
    FillHole(Tokens(Normal, s[1..]), fills);
    assert s == fills[0] + s[1..];
  }

  lemma TokensStep(mode: Mode, s: string)
    requires s != "" && !IsHole(mode, s)
    ensures var (mode', n) := Step(mode, s); Tokens(mode, s) == [Copied(mode, s[..n])] + Tokens(mode', s[n..])
  {
  }

  lemma SplitAt(s: string, n: nat)
    requires n <= |s|
    ensures s[..n] + s[n..] == s
  {
  }

  /** The tokens cover the statement: with `?` for the placeholders they read as it does. */
  lemma {:induction false} TokensCover(mode: Mode, s: string, fills: seq<string>)
    requires |fills| == Holes(Tokens(mode, s)) && forall i :: 0 <= i < |fills| ==> fills[i] == "?"
    ensures Fill(Tokens(mode, s), fills) == s
    decreases |s|
  {
    if s != "" {
      if IsHole(mode, s) {
        TokensCons(Hole, Tokens(Normal, s[1..]));
        TokensCover(Normal, s[1..], fills[1..]);
        HoleCovers(s, fills);
      } else {
        var (mode', n) := Step(mode, s);
        TokensStep(mode, s);
        TokensCons(Copied(mode, s[..n]), Tokens(mode', s[n..]));
        TokensCover(mode', s[n..], fills);
        FillCopied(mode, s[..n], Tokens(mode', s[n..]), fills);
        SplitAt(s, n);
      }
    }
  }
}

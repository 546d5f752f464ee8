/** Filling the placeholders of a statement (packages/npm/index.js). */
module BindSql {
  import opened Wrappers
  import opened SqlScanner

  /** A bound value, as far as binding tells them apart; `None` where turning it into text throws. */
  datatype JsValue =
    | Null
    | Undefined
    | Number(finite: bool, text: string)
    | BigInt(text: string)
    | Boolean(value: bool)
    | Date(iso: Option<string>)
    | Other(printed: Option<string>)

  datatype BindError = NotEnough | TooMany | Unbindable

  /** Doubles the single quotes. */
  function Doubled(s: string): string {
    if s == "" then "" else (if s[0] == '\'' then "''" else [s[0]]) + Doubled(s[1..])
  }

  function Quoted(s: string): string {
    "'" + Doubled(s) + "'"
  }

  function Literal(v: JsValue): Result<string, BindError> {
    match v
    case Null => Ok("NULL")
    case Undefined => Ok("NULL")
    case Number(finite, text) => if finite then Ok(text) else Err(Unbindable)
    case BigInt(text) => Ok(text)
    case Boolean(value) => Ok(if value then "TRUE" else "FALSE")
    case Date(Some(text)) => Ok(Quoted(text))
    case Other(Some(text)) => Ok(Quoted(text))
    case Date(None) => Err(Unbindable)
    case Other(None) => Err(Unbindable)
  }

  predicate Bindable(vs: seq<JsValue>) {
    forall i :: 0 <= i < |vs| ==> Literal(vs[i]).Ok?
  }

  function Literals(vs: seq<JsValue>): (r: seq<string>)
    requires Bindable(vs)
    ensures |r| == |vs|
  {
    seq(|vs|, i requires 0 <= i < |vs| => Literal(vs[i]).value)
  }

  function Prepend(s: string, r: Result<string, BindError>): Result<string, BindError> {
    match r
    case Ok(t) => Ok(s + t)
    case Err(e) => Err(e)
  }

  /** Binding what is left of a statement. */
  function Bound(mode: Mode, s: string, vs: seq<JsValue>): Result<string, BindError>
    decreases |s|
  {
    if s == "" then if vs == [] then Ok("") else Err(TooMany)
    else if IsHole(mode, s) then
      if vs == [] then Err(NotEnough)
      else
        match Literal(vs[0])
        case Err(e) => Err(e)
        case Ok(t) => Prepend(t, Bound(Normal, s[1..], vs[1..]))
    else
      var (mode', n) := Step(mode, s);
      Prepend(s[..n], Bound(mode', s[n..], vs))
  }

  lemma Prepended(s: string, t: string, r: Result<string, BindError>)
    ensures Prepend(s, Prepend(t, r)) == Prepend(s + t, r)
  {
    if r.Ok? {
      assert s + (t + r.value) == s + t + r.value;
    }
  }

  lemma PrependNothing(r: Result<string, BindError>)
    ensures Prepend("", r) == r
  {
    if r.Ok? {
      assert "" + r.value == r.value;
    }
  }

  /** One turn of the loop when no placeholder is met: the new state and how far the index moves. */
  method Advance(sql: string, index: nat, mode: Mode) returns (mode': Mode, n: nat)
    requires index < |sql| && !IsHole(mode, sql[index..])
    ensures (mode', n) == Step(mode, sql[index..])
  {
    var ch := sql[index];
    var next := if index + 1 < |sql| then Some(sql[index + 1]) else None;
    mode', n := mode, 1;
    match mode {
      case Normal =>
        var tag := DollarTag(sql[index..]);
        if tag.Some? {
          mode', n := Dollar(tag.value), |tag.value|;
        } else if ch == '\'' {
          mode' := Single;
        } else if ch == '\"' {
          mode' := Identifier;
        } else if ch == '-' && next == Some('-') {
          mode' := LineComment;
        } else if ch == '/' && next == Some('*') {
          mode' := BlockComment;
        }
      case Single =>
        if ch == '\'' && next == Some('\'') {
          n := 2;
        } else if ch == '\'' {
          mode' := Normal;
        }
      case Identifier =>
        if ch == '\"' && next == Some('\"') {
          n := 2;
        } else if ch == '\"' {
          mode' := Normal;
        }
      case LineComment =>
        if ch == '\n' {
          mode' := Normal;
        }
      case BlockComment =>
        if ch == '*' && next == Some('/') {
          mode', n := Normal, 2;
        }
      case Dollar(tag) =>
        if StartsWith(sql[index..], tag) {
          mode', n := Normal, |tag|;
        }
    }
  }

  lemma LiteralAppended(out: string, s: string, vs: seq<JsValue>)
    requires IsHole(Normal, s) && vs != [] && Literal(vs[0]).Ok?
    ensures Prepend(out, Bound(Normal, s, vs)) ==
            Prepend(out + Literal(vs[0]).value, Bound(Normal, s[1..], vs[1..]))
  {
    Prepended(out, Literal(vs[0]).value, Bound(Normal, s[1..], vs[1..]));
  }

  lemma TokenAppended(out: string, mode: Mode, s: string, vs: seq<JsValue>)
    requires s != "" && !IsHole(mode, s)
    ensures var (mode', n) := Step(mode, s);
            Prepend(out, Bound(mode, s, vs)) == Prepend(out + s[..n], Bound(mode', s[n..], vs))
  {
    var (mode', n) := Step(mode, s);
    Prepended(out, s[..n], Bound(mode', s[n..], vs));
  }

  lemma BindingFails(out: string, s: string, vs: seq<JsValue>)
    requires IsHole(Normal, s)
    ensures vs == [] ==> Prepend(out, Bound(Normal, s, vs)) == Err(NotEnough)
    ensures vs != [] && Literal(vs[0]).Err? ==> Prepend(out, Bound(Normal, s, vs)) == Err(Literal(vs[0]).error)
  {
  }

  lemma BindingEnds(out: string, mode: Mode, vs: seq<JsValue>)
    ensures Prepend(out, Bound(mode, "", vs)) == if vs == [] then Ok(out) else Err(TooMany)
  {
    assert out + "" == out;
  }

  /** The loop of `bindSql`. */
  method BindStatement(sql: string, values: seq<JsValue>) returns (r: Result<string, BindError>)
    ensures r == Bound(Normal, sql, values)
  {
    var valueIndex, index := 0, 0;
    var out := "";
    var mode := Normal;
    ghost var left, unused := sql, values;
    ghost var goal, rest := Bound(Normal, sql, values), Bound(Normal, sql, values);
    PrependNothing(goal);
    while index < |sql|
      invariant 0 <= index <= |sql| && 0 <= valueIndex <= |values|
      invariant left == sql[index..] && unused == values[valueIndex..]
      invariant goal == Prepend(out, rest) && rest == Bound(mode, left, unused)
    {
      if IsHole(mode, sql[index..]) {
        BindingFails(out, left, unused);
        if valueIndex >= |values| {
          return Err(NotEnough);
        }
        var literal :- Literal(values[valueIndex]);
        LiteralAppended(out, left, unused);
        out := out + literal;
        left, unused := left[1..], unused[1..];
        valueIndex := valueIndex + 1;
        index := index + 1;
      } else {
        var mode', n := Advance(sql, index, mode);
        TokenAppended(out, mode, left, unused);
        out := out + sql[index..][..n];
        left := left[n..];
        index := index + n;
        mode := mode';
      }
      rest := Bound(mode, left, unused);
    }
    BindingEnds(out, mode, unused);
    if valueIndex != |values| {
      return Err(TooMany);
    }
    return Ok(out);
  }

  // ----- What binding does, read off the tokens -----

  function Min(m: nat, n: nat): nat {
    if m < n then m else n
  }

  /** Binding as a whole: the values are used in order, and it succeeds when they are as many as the placeholders. */
  function BoundWhole(ts: seq<Token>, vs: seq<JsValue>): Result<string, BindError> {
    if !Bindable(vs[..Min(|vs|, Holes(ts))]) then Err(Unbindable)
    else if |vs| < Holes(ts) then Err(NotEnough)
    else if |vs| > Holes(ts) then Err(TooMany)
    else
      assert vs[..|vs|] == vs;
      Ok(Fill(ts, Literals(vs)))
  }

  lemma {:induction false} BoundIsWhole(mode: Mode, s: string, vs: seq<JsValue>)
    ensures Bound(mode, s, vs) == BoundWhole(Tokens(mode, s), vs)
    decreases |s|
  {
    if s == "" {
    } else if IsHole(mode, s) {
      var ts := Tokens(Normal, s[1..]);
      TokensCons(Hole, ts);
      if vs != [] {
        BoundIsWhole(Normal, s[1..], vs[1..]);
        HoleStep(ts, vs);
      }
    } else {
      var (mode', n) := Step(mode, s);
      var ts := Tokens(mode', s[n..]);
      TokensCons(Copied(mode, s[..n]), ts);
      BoundIsWhole(mode', s[n..], vs);
    }
  }

  lemma HoleStep(ts: seq<Token>, vs: seq<JsValue>)
    requires vs != []
    ensures BoundWhole([Hole] + ts, vs) ==
            match Literal(vs[0])
            case Err(e) => Err(e)
            case Ok(t) => Prepend(t, BoundWhole(ts, vs[1..]))
  {
    TokensCons(Hole, ts);
    var all, rest := vs[..Min(|vs|, 1 + Holes(ts))], vs[1..][..Min(|vs| - 1, Holes(ts))];
    assert all == [vs[0]] + rest;
    assert Bindable(all) <==> Literal(vs[0]).Ok? && Bindable(rest) by {
      assert forall i :: 0 <= i < |rest| ==> all[i + 1] == rest[i];
    }
    if Bindable(all) && |vs| == 1 + Holes(ts) {
      assert all == vs && rest == vs[1..];
      assert Literals(vs)[1..] == Literals(vs[1..]);
    }
  }

  /** Binding succeeds exactly when there are as many values as placeholders in plain SQL and all can be bound. */
  lemma BindSucceedsIff(sql: string, vs: seq<JsValue>)
    ensures Bound(Normal, sql, vs).Ok? <==> |vs| == Holes(Tokens(Normal, sql)) && Bindable(vs)
    ensures Bound(Normal, sql, vs).Ok? ==> Bound(Normal, sql, vs).value == Fill(Tokens(Normal, sql), Literals(vs))
  {
    BoundIsWhole(Normal, sql, vs);
    if |vs| == Holes(Tokens(Normal, sql)) {
      assert vs[..|vs|] == vs;
    }
  }
}

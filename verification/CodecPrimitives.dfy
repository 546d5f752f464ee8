/** The scalar formats of catalog rows: `Writer` and `Reader` in crates/ultrasql-catalog/src/encoding.rs. */
module CodecPrimitives {
  import opened Wrappers
  import opened Text
  import opened DataTypes
  import opened LittleEndian

  datatype DecodeError = UnexpectedEnd | InvalidTag(tag: byte) | InvalidUtf8 | TrailingBytes(len: nat)

  datatype EncodeError = UnsupportedType | LengthOverflow

  type Bytes = seq<byte>

  /** A decoded value and the bytes after it. */
  type Parsed<T> = Result<(T, Bytes), DecodeError>

  function ParseUint(b: Bytes, w: nat): (r: Parsed<nat>)
    ensures r.Ok? ==> r.value.0 < Pow256(w) && |r.value.1| == |b| - w
  {
    if |b| < w then Err(UnexpectedEnd) else Ok((FromLE(b[..w]), b[w..]))
  }

  function ParseInt(b: Bytes, w: nat): Parsed<int> {
    var (n, rest) :- ParseUint(b, w);
    Ok((Signed(n, w), rest))
  }

  function ParseFlag(b: Bytes): Parsed<bool> {
    if b == [] then Err(UnexpectedEnd)
    else if b[0] as int == 0 then Ok((false, b[1..]))
    else if b[0] as int == 1 then Ok((true, b[1..]))
    else Err(InvalidTag(b[0]))
  }

  /**
   Encoders are written as `XOnto(x, s)`: the encoding of `x` followed by the bytes `s`.
   */
  function FlagOnto(v: bool, s: Bytes): Bytes {
    [(if v then 1 else 0) as char] + s
  }

  function UintOnto(n: nat, w: nat, s: Bytes): Bytes {
    ToLE(n, w) + s
  }

  function IntOnto(n: int, w: nat, s: Bytes): Bytes
    requires FitsInt(n, w)
  {
    ToLE(Unsigned(n, w), w) + s
  }

  predicate FitsInt(n: int, w: nat) {
    0 - Pow256(w) <= 2 * n < Pow256(w)
  }

  predicate ShortText(t: Utf8) {
    |t| <= U32_MAX
  }

  function TextOnto(t: Utf8, s: Bytes): Bytes {
    UintOnto(|t|, 4, t + s)
  }

  function ParseText(b: Bytes): Parsed<Utf8> {
    var (n, rest) :- ParseUint(b, 4);
    if |rest| < n then Err(UnexpectedEnd)
    else if !ValidUtf8(rest[..n]) then Err(InvalidUtf8)
    else Ok((rest[..n], rest[n..]))
  }

  /** An optional number: a presence byte, then the number. */
  function OptOnto(v: Option<nat>, s: Bytes): Bytes {
    match v
    case None => FlagOnto(false, s)
    case Some(n) => FlagOnto(true, UintOnto(n, 4, s))
  }

  function ParseOpt(b: Bytes): Parsed<Option<nat>> {
    var (present, rest) :- ParseFlag(b);
    if !present then Ok((None, rest))
    else
      var (n, rest) :- ParseUint(rest, 4);
      Ok((Some(n), rest))
  }

  // ----- Each format undoes itself, and accepts nothing else -----

  lemma UintRoundTrip(n: nat, w: nat, s: Bytes)
    requires n < Pow256(w)
    ensures ParseUint(UintOnto(n, w, s), w) == Ok((n, s))
  {
    FromLEUndoes(n, w);
    assert (ToLE(n, w) + s)[..w] == ToLE(n, w) && (ToLE(n, w) + s)[w..] == s;
  }

  lemma UintCanonical(b: Bytes, w: nat)
    requires ParseUint(b, w).Ok?
    ensures b == UintOnto(ParseUint(b, w).value.0, w, ParseUint(b, w).value.1)
  {
    ToLEUndoes(b[..w]);
  }

  lemma IntRoundTrip(n: int, w: nat, s: Bytes)
    requires FitsInt(n, w)
    ensures ParseInt(IntOnto(n, w, s), w) == Ok((n, s))
  {
    SignedUndoes(n, w);
    UintRoundTrip(Unsigned(n, w), w, s);
  }

  lemma IntCanonical(b: Bytes, w: nat)
    requires ParseInt(b, w).Ok?
    ensures FitsInt(ParseInt(b, w).value.0, w) && b == IntOnto(ParseInt(b, w).value.0, w, ParseInt(b, w).value.1)
  {
    UintCanonical(b, w);
    UnsignedUndoes(ParseUint(b, w).value.0, w);
  }

  lemma FlagRoundTrip(v: bool, s: Bytes)
    ensures ParseFlag(FlagOnto(v, s)) == Ok((v, s))
  {
    assert FlagOnto(v, s)[1..] == s;
  }

  lemma FlagCanonical(b: Bytes)
    requires ParseFlag(b).Ok?
    ensures b == FlagOnto(ParseFlag(b).value.0, ParseFlag(b).value.1)
  {
    assert b == [b[0]] + b[1..];
  }

  lemma TextRoundTrip(t: Utf8, s: Bytes)
    requires ShortText(t)
    ensures ParseText(TextOnto(t, s)) == Ok((t, s))
  {
    PowerValues();
    UintRoundTrip(|t|, 4, t + s);
    assert (t + s)[..|t|] == t && (t + s)[|t|..] == s;
  }

  lemma TextCanonical(b: Bytes)
    requires ParseText(b).Ok?
    ensures ShortText(ParseText(b).value.0) && b == TextOnto(ParseText(b).value.0, ParseText(b).value.1)
  {
    PowerValues();
    UintCanonical(b, 4);
    var (n, rest) := ParseUint(b, 4).value;
    assert rest == rest[..n] + rest[n..];
  }

  lemma OptRoundTrip(v: Option<nat>, s: Bytes)
    requires v.Some? ==> v.value < Pow256(4)
    ensures ParseOpt(OptOnto(v, s)) == Ok((v, s))
  {
    match v
    case None => FlagRoundTrip(false, s);
    case Some(n) =>
      FlagRoundTrip(true, UintOnto(n, 4, s));
      UintRoundTrip(n, 4, s);
  }

  lemma OptCanonical(b: Bytes)
    requires ParseOpt(b).Ok?
    ensures ParseOpt(b).value.0.Some? ==> ParseOpt(b).value.0.value < Pow256(4)
    ensures b == OptOnto(ParseOpt(b).value.0, ParseOpt(b).value.1)
  {
    FlagCanonical(b);
    var (present, rest) := ParseFlag(b).value;
    if present {
      UintCanonical(rest, 4);
    }
  }

  // ----- An encoding onto some bytes is the encoding followed by those bytes -----

  lemma UintAppends(n: nat, w: nat, s: Bytes, r: Bytes)
    ensures UintOnto(n, w, s + r) == UintOnto(n, w, s) + r
  {
  }

  lemma TextAppends(t: Utf8, s: Bytes, r: Bytes)
    ensures TextOnto(t, s + r) == TextOnto(t, s) + r
  {
    assert t + (s + r) == (t + s) + r;
    UintAppends(|t|, 4, t + s, r);
  }

  lemma OptAppends(v: Option<nat>, s: Bytes, r: Bytes)
    ensures OptOnto(v, s + r) == OptOnto(v, s) + r
  {
    match v
    case None =>
    case Some(n) => UintAppends(n, 4, s, r);
  }
}

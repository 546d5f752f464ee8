/**
 The layouts catalog rows are built from (crates/ultrasql-catalog/src/encoding.rs), and the laws
 every layout obeys: decoding undoes encoding, nothing else decodes to the same value, and no
 strict prefix of an encoding is one itself.
 */
module FieldCodec {
  import opened Wrappers
  import opened Text
  import opened DataTypes
  import opened LittleEndian
  import opened CodecPrimitives
  import opened TypeCodec

  datatype Kind =
    | KUint(w: nat)              // unsigned, little-endian
    | KInt(w: nat)               // two's complement, little-endian
    | KFlag                      // 0 or 1
    | KText                      // 32-bit length, then UTF-8
    | KChar                      // a text of one character
    | KSmall                     // a 16-bit number stored in 32 bits
    | KCode(codes: seq<int>)     // one of some tag bytes
    | KType                      // a data type
    | KMaybe(item: Kind)         // a flag, then the item if it is set
    | KPair(first: Kind, second: Kind)
    | KMany(item: Kind)          // a 32-bit count, then that many items

  datatype Val =
    | VNum(n: int)
    | VFlag(b: bool)
    | VText(t: Utf8)
    | VType(ty: DataType)
    | VNone
    | VSome(v: Val)
    | VPair(first: Val, second: Val)
    | VList(items: seq<Val>)

  /** The fewest bytes an item can take; counts are checked against it before items are read. */
  function MinWidth(k: Kind): nat {
    match k
    case KUint(w) => w
    case KInt(w) => w
    case KFlag => 1
    case KText => 4
    case KChar => 4
    case KSmall => 4
    case KCode(_) => 1
    case KType => 1
    case KMaybe(_) => 1
    case KPair(a, b) => MinWidth(a) + MinWidth(b)
    case KMany(_) => 4
  }

  /** The values a layout can store. */
  predicate Fits(k: Kind, v: Val) {
    match k
    case KUint(w) => v.VNum? && 0 <= v.n < Pow256(w)
    case KInt(w) => v.VNum? && FitsInt(v.n, w)
    case KFlag => v.VFlag?
    case KText => v.VText? && ShortText(v.t)
    case KChar => v.VText? && IsScalar(v.t)
    case KSmall => v.VNum? && 0 <= v.n < 0x1_0000
    case KCode(codes) => v.VNum? && v.n in codes && 0 <= v.n < 256
    case KType => v.VType? && Persistable(v.ty)
    case KMaybe(item) => v.VNone? || (v.VSome? && Fits(item, v.v))
    case KPair(a, b) => v.VPair? && Fits(a, v.first) && Fits(b, v.second)
    case KMany(item) => v.VList? && |v.items| <= U32_MAX && forall i :: 0 <= i < |v.items| ==> Fits(item, v.items[i])
  }

  predicate AllFit(k: Kind, vs: seq<Val>) {
    forall i :: 0 <= i < |vs| ==> Fits(k, vs[i])
  }

  function ValOnto(k: Kind, v: Val, s: Bytes): Bytes
    requires Fits(k, v)
    decreases k, 0
  {
    match k
    case KUint(w) => UintOnto(v.n, w, s)
    case KInt(w) => IntOnto(v.n, w, s)
    case KFlag => FlagOnto(v.b, s)
    case KText => TextOnto(v.t, s)
    case KChar => TextOnto(v.t, s)
    case KSmall => UintOnto(v.n, 4, s)
    case KCode(_) => CodeOnto(v.n, s)
    case KType => TypeOnto(v.ty, s)
    case KMaybe(item) => if v.VNone? then FlagOnto(false, s) else FlagOnto(true, ValOnto(item, v.v, s))
    case KPair(a, b) => ValOnto(a, v.first, ValOnto(b, v.second, s))
    case KMany(item) => UintOnto(|v.items|, 4, ItemsOnto(item, v.items, s))
  }

  function ItemsOnto(k: Kind, vs: seq<Val>, s: Bytes): Bytes
    requires AllFit(k, vs)
    decreases k, |vs| + 1
  {
    if vs == [] then s else ValOnto(k, vs[0], ItemsOnto(k, vs[1..], s))
  }

  function ParseChar(b: Bytes): Parsed<Val> {
    var (t, rest) :- ParseText(b);
    if IsScalar(t) then Ok((VText(t), rest)) else Err(InvalidUtf8)
  }

  function ParseSmall(b: Bytes): Parsed<Val> {
    var (n, rest) :- ParseUint(b, 4);
    if n < 0x1_0000 then Ok((VNum(n), rest)) else Err(InvalidTag(0 as char))
  }

  function ParseCode(codes: seq<int>, b: Bytes): Parsed<Val> {
    if b == [] then Err(UnexpectedEnd)
    else if b[0] as int in codes then Ok((VNum(b[0] as int), b[1..]))
    else Err(InvalidTag(b[0]))
  }

  function ParseVal(k: Kind, b: Bytes): Parsed<Val>
    decreases k, 0
  {
    match k
    case KUint(w) => var (n, rest) :- ParseUint(b, w); Ok((VNum(n), rest))
    case KInt(w) => var (n, rest) :- ParseInt(b, w); Ok((VNum(n), rest))
    case KFlag => var (v, rest) :- ParseFlag(b); Ok((VFlag(v), rest))
    case KText => var (t, rest) :- ParseText(b); Ok((VText(t), rest))
    case KChar => ParseChar(b)
    case KSmall => ParseSmall(b)
    case KCode(codes) => ParseCode(codes, b)
    case KType => var (ty, rest) :- ParseType(b); Ok((VType(ty), rest))
    case KMaybe(item) =>
      var (present, rest) :- ParseFlag(b);
      if !present then Ok((VNone, rest)) else var (v, rest) :- ParseVal(item, rest); Ok((VSome(v), rest))
    case KPair(first, second) =>
      var (v, rest) :- ParseVal(first, b);
      var (w, rest) :- ParseVal(second, rest);
      Ok((VPair(v, w), rest))
    case KMany(item) =>
      var (n, rest) :- ParseCount(b, MinWidth(item));
      var (vs, rest) :- ParseItems(item, n, rest);
      Ok((VList(vs), rest))
  }

  function ParseItems(k: Kind, n: nat, b: Bytes): (r: Parsed<seq<Val>>)
    ensures r.Ok? ==> |r.value.0| == n
    decreases k, n + 1
  {
    if n == 0 then Ok(([], b))
    else
      var (v, rest) :- ParseVal(k, b);
      var (vs, rest) :- ParseItems(k, n - 1, rest);
      Ok(([v] + vs, rest))
  }

  // ----- Decoding undoes encoding -----

  lemma TypeTakesAByte(ty: DataType, s: Bytes)
    requires Persistable(ty)
    ensures |s| < |TypeOnto(ty, s)|
  {
    TypeRoundTrip(ty, s);
  }

  lemma {:induction false} WidthAtLeast(k: Kind, v: Val, s: Bytes)
    requires Fits(k, v)
    ensures MinWidth(k) + |s| <= |ValOnto(k, v, s)|
    decreases k, 0
  {
    match k
    case KType => TypeTakesAByte(v.ty, s);
    case KMaybe(item) =>
      if v.VSome? {
        WidthAtLeast(item, v.v, s);
      }
    case KPair(a, b) =>
      WidthAtLeast(b, v.second, s);
      WidthAtLeast(a, v.first, ValOnto(b, v.second, s));
    case KMany(item) => ItemsWidthAtLeast(item, v.items, s);
    case _ =>
  }

  lemma {:induction false} ItemsWidthAtLeast(k: Kind, vs: seq<Val>, s: Bytes)
    requires AllFit(k, vs)
    ensures |vs| * MinWidth(k) + |s| <= |ItemsOnto(k, vs, s)| && |s| <= |ItemsOnto(k, vs, s)|
    decreases k, |vs| + 1
  {
    if vs != [] {
      ItemsWidthAtLeast(k, vs[1..], s);
      WidthAtLeast(k, vs[0], ItemsOnto(k, vs[1..], s));
      OneMoreItem(|vs|, MinWidth(k));
    }
  }

  lemma OneMoreItem(n: nat, width: nat)
    requires n > 0
    ensures n * width == (n - 1) * width + width
  {
  }

  lemma CodeRoundTrip(codes: seq<int>, n: int, s: Bytes)
    requires n in codes && 0 <= n < 256
    ensures ParseCode(codes, CodeOnto(n, s)) == Ok((VNum(n), s))
  {
    CodeSplits(n, s);
  }

  lemma CharRoundTrip(t: Utf8, s: Bytes)
    requires IsScalar(t)
    ensures ParseChar(TextOnto(t, s)) == Ok((VText(t), s))
  {
    TextRoundTrip(t, s);
  }

  lemma SmallRoundTrip(n: nat, s: Bytes)
    requires n < 0x1_0000
    ensures ParseSmall(UintOnto(n, 4, s)) == Ok((VNum(n), s))
  {
    PowerValues();
    UintRoundTrip(n, 4, s);
  }

  /** Decoding an encoded value followed by any bytes returns the value and exactly those bytes. */
  lemma {:induction false} ValRoundTrip(k: Kind, v: Val, s: Bytes)
    requires Fits(k, v)
    ensures ParseVal(k, ValOnto(k, v, s)) == Ok((v, s))
    decreases k, 0
  {
    match k
    case KUint(w) => UintRoundTrip(v.n, w, s);
    case KInt(w) => IntRoundTrip(v.n, w, s);
    case KFlag => FlagRoundTrip(v.b, s);
    case KText => TextRoundTrip(v.t, s);
    case KChar => CharRoundTrip(v.t, s);
    case KSmall => SmallRoundTrip(v.n, s);
    case KCode(codes) => CodeRoundTrip(codes, v.n, s);
    case KType => TypeRoundTrip(v.ty, s);
    case KMaybe(item) =>
      if v.VNone? {
        FlagRoundTrip(false, s);
      } else {
        FlagRoundTrip(true, ValOnto(item, v.v, s));
        ValRoundTrip(item, v.v, s);
      }
    case KPair(a, b) =>
      ValRoundTrip(a, v.first, ValOnto(b, v.second, s));
      ValRoundTrip(b, v.second, s);
    case KMany(item) =>
      ItemsWidthAtLeast(item, v.items, s);
      CountRoundTrip(|v.items|, MinWidth(item), ItemsOnto(item, v.items, s));
      ItemsRoundTrip(item, v.items, s);
  }

  lemma {:induction false} ItemsRoundTrip(k: Kind, vs: seq<Val>, s: Bytes)
    requires AllFit(k, vs)
    ensures ParseItems(k, |vs|, ItemsOnto(k, vs, s)) == Ok((vs, s))
    decreases k, |vs| + 1
  {
    if vs != [] {
      ValRoundTrip(k, vs[0], ItemsOnto(k, vs[1..], s));
      ItemsRoundTrip(k, vs[1..], s);
      assert [vs[0]] + vs[1..] == vs;
    }
  }

  // ----- Only encodings decode -----

  lemma CodeCanonical(codes: seq<int>, b: Bytes)
    requires ParseCode(codes, b).Ok?
    ensures b != [] && b == CodeOnto(b[0] as int, b[1..])
  {
  }

  /** The value fits the layout and its encoding is what was consumed. */
  ghost predicate Consumed(k: Kind, b: Bytes, v: Val, s: Bytes) {
    Fits(k, v) && b == ValOnto(k, v, s)
  }

  ghost predicate AllConsumed(k: Kind, b: Bytes, vs: seq<Val>, s: Bytes) {
    AllFit(k, vs) && b == ItemsOnto(k, vs, s)
  }

  /** A successful decode consumed exactly the encoding of the value it returns. */
  lemma {:induction false} ValCanonical(k: Kind, b: Bytes)
    requires ParseVal(k, b).Ok?
    ensures Consumed(k, b, ParseVal(k, b).value.0, ParseVal(k, b).value.1)
    decreases k, 0
  {
    match k
    case KUint(w) => UintCanonical(b, w);
    case KInt(w) => IntCanonical(b, w);
    case KFlag => FlagCanonical(b);
    case KText => TextCanonical(b);
    case KChar => TextCanonical(b);
    case KSmall => UintCanonical(b, 4);
    case KCode(codes) => CodeCanonical(codes, b);
    case KType => TypeCanonical(b);
    case KMaybe(item) =>
      FlagCanonical(b);
      if ParseFlag(b).value.0 {
        ValCanonical(item, ParseFlag(b).value.1);
      }
      MaybeConsumed(item, b);
    case KPair(first, second) =>
      ValCanonical(first, b);
      ValCanonical(second, ParseVal(first, b).value.1);
      PairConsumed(first, second, b);
    case KMany(item) =>
      CountCanonical(b, MinWidth(item));
      var (n, rest) := ParseCount(b, MinWidth(item)).value;
      ItemsCanonical(item, n, rest);
  }

  lemma MaybeConsumed(item: Kind, b: Bytes)
    requires ParseVal(KMaybe(item), b).Ok? && ParseFlag(b).Ok?
    requires var (present, rest) := ParseFlag(b).value;
             && b == FlagOnto(present, rest)
             && (present ==> ParseVal(item, rest).Ok?
                             && Consumed(item, rest, ParseVal(item, rest).value.0, ParseVal(item, rest).value.1))
    ensures var (v, s) := ParseVal(KMaybe(item), b).value; Consumed(KMaybe(item), b, v, s)
  {
  }

  lemma PairConsumed(first: Kind, second: Kind, b: Bytes)
    requires ParseVal(KPair(first, second), b).Ok? && ParseVal(first, b).Ok?
    requires var (v, rest) := ParseVal(first, b).value;
             && Consumed(first, b, v, rest)
             && ParseVal(second, rest).Ok?
             && Consumed(second, rest, ParseVal(second, rest).value.0, ParseVal(second, rest).value.1)
    ensures var (v, s) := ParseVal(KPair(first, second), b).value; Consumed(KPair(first, second), b, v, s)
  {
  }

  lemma {:induction false} ItemsCanonical(k: Kind, n: nat, b: Bytes)
    requires ParseItems(k, n, b).Ok?
    ensures AllConsumed(k, b, ParseItems(k, n, b).value.0, ParseItems(k, n, b).value.1)
    decreases k, n + 1
  {
    if n > 0 {
      ValCanonical(k, b);
      var (v, rest) := ParseVal(k, b).value;
      ItemsCanonical(k, n - 1, rest);
      ItemsOntoCons(k, v, ParseItems(k, n - 1, rest).value.0, ParseItems(k, n - 1, rest).value.1);
    }
  }

  lemma ItemsOntoCons(k: Kind, v: Val, vs: seq<Val>, s: Bytes)
    requires Fits(k, v) && AllFit(k, vs)
    ensures AllFit(k, [v] + vs) && ItemsOnto(k, [v] + vs, s) == ValOnto(k, v, ItemsOnto(k, vs, s))
  {
    assert ([v] + vs)[1..] == vs;
  }

  // ----- An encoding onto some bytes is the encoding followed by those bytes -----

  lemma {:induction false} ValAppends(k: Kind, v: Val, s: Bytes, r: Bytes)
    requires Fits(k, v)
    ensures ValOnto(k, v, s + r) == ValOnto(k, v, s) + r
    decreases k, 0
  {
    match k
    case KText => TextAppends(v.t, s, r);
    case KChar => TextAppends(v.t, s, r);
    case KType => TypeAppends(v.ty, s, r);
    case KMaybe(item) =>
      if v.VSome? {
        ValAppends(item, v.v, s, r);
      }
    case KPair(a, b) =>
      ValAppends(b, v.second, s, r);
      ValAppends(a, v.first, ValOnto(b, v.second, s), r);
      PairAppends(a, b, v, s, r);
    case KMany(item) =>
      ItemsAppend(item, v.items, s, r);
      ManyAppends(item, v.items, s, r);
    case _ =>
  }

  lemma PairAppends(a: Kind, b: Kind, v: Val, s: Bytes, r: Bytes)
    requires Fits(KPair(a, b), v) && ValOnto(b, v.second, s + r) == ValOnto(b, v.second, s) + r
    requires var rest := ValOnto(b, v.second, s); ValOnto(a, v.first, rest + r) == ValOnto(a, v.first, rest) + r
    ensures ValOnto(KPair(a, b), v, s + r) == ValOnto(KPair(a, b), v, s) + r
  {
  }

  lemma ManyAppends(item: Kind, vs: seq<Val>, s: Bytes, r: Bytes)
    requires AllFit(item, vs) && |vs| <= U32_MAX && ItemsOnto(item, vs, s + r) == ItemsOnto(item, vs, s) + r
    ensures ValOnto(KMany(item), VList(vs), s + r) == ValOnto(KMany(item), VList(vs), s) + r
  {
    UintAppends(|vs|, 4, ItemsOnto(item, vs, s), r);
  }

  lemma {:induction false} ItemsAppend(k: Kind, vs: seq<Val>, s: Bytes, r: Bytes)
    requires AllFit(k, vs)
    ensures ItemsOnto(k, vs, s + r) == ItemsOnto(k, vs, s) + r
    decreases k, |vs| + 1
  {
    if vs != [] {
      ItemsAppend(k, vs[1..], s, r);
      ValAppends(k, vs[0], ItemsOnto(k, vs[1..], s), r);
    }
  }

  // ----- Whole rows: one value per field -----

  predicate RowFits(ks: seq<Kind>, vs: seq<Val>) {
    |ks| == |vs| && forall i :: 0 <= i < |ks| ==> Fits(ks[i], vs[i])
  }

  function RowOnto(ks: seq<Kind>, vs: seq<Val>, s: Bytes): Bytes
    requires RowFits(ks, vs)
  {
    if ks == [] then s else ValOnto(ks[0], vs[0], RowOnto(ks[1..], vs[1..], s))
  }

  function ParseRow(ks: seq<Kind>, b: Bytes): (r: Parsed<seq<Val>>)
    ensures r.Ok? ==> |r.value.0| == |ks|
  {
    if ks == [] then Ok(([], b))
    else
      var (v, rest) :- ParseVal(ks[0], b);
      var (vs, rest) :- ParseRow(ks[1..], rest);
      Ok(([v] + vs, rest))
  }

  lemma {:induction false} RowRoundTrip(ks: seq<Kind>, vs: seq<Val>, s: Bytes)
    requires RowFits(ks, vs)
    ensures ParseRow(ks, RowOnto(ks, vs, s)) == Ok((vs, s))
  {
    if ks != [] {
      ValRoundTrip(ks[0], vs[0], RowOnto(ks[1..], vs[1..], s));
      RowRoundTrip(ks[1..], vs[1..], s);
      assert [vs[0]] + vs[1..] == vs;
    }
  }

  ghost predicate RowConsumed(ks: seq<Kind>, b: Bytes, vs: seq<Val>, s: Bytes) {
    RowFits(ks, vs) && b == RowOnto(ks, vs, s)
  }

  lemma {:induction false} RowCanonical(ks: seq<Kind>, b: Bytes)
    requires ParseRow(ks, b).Ok?
    ensures RowConsumed(ks, b, ParseRow(ks, b).value.0, ParseRow(ks, b).value.1)
  {
    if ks != [] {
      ValCanonical(ks[0], b);
      var (v, rest) := ParseVal(ks[0], b).value;
      RowCanonical(ks[1..], rest);
      RowOntoCons(ks, v, ParseRow(ks[1..], rest).value.0, ParseRow(ks[1..], rest).value.1);
    }
  }

  lemma RowOntoCons(ks: seq<Kind>, v: Val, vs: seq<Val>, s: Bytes)
    requires ks != [] && Fits(ks[0], v) && RowFits(ks[1..], vs)
    ensures RowFits(ks, [v] + vs) && RowOnto(ks, [v] + vs, s) == ValOnto(ks[0], v, RowOnto(ks[1..], vs, s))
  {
    assert ([v] + vs)[1..] == vs;
    assert forall i :: 1 <= i < |ks| ==> ks[i] == ks[1..][i - 1] && ([v] + vs)[i] == vs[i - 1];
  }

  lemma {:induction false} RowAppends(ks: seq<Kind>, vs: seq<Val>, s: Bytes, r: Bytes)
    requires RowFits(ks, vs)
    ensures RowOnto(ks, vs, s + r) == RowOnto(ks, vs, s) + r
  {
    if ks != [] {
      RowAppends(ks[1..], vs[1..], s, r);
      ValAppends(ks[0], vs[0], RowOnto(ks[1..], vs[1..], s), r);
    }
  }

  /** The bytes of a row. */
  function EncodeRow(ks: seq<Kind>, vs: seq<Val>): Bytes
    requires RowFits(ks, vs)
  {
    RowOnto(ks, vs, [])
  }

  /** `Reader::finish`: nothing may follow the row. */
  function Finish<T>(r: Parsed<T>): Result<T, DecodeError> {
    var (v, rest) :- r;
    if rest == [] then Ok(v) else Err(TrailingBytes(|rest|))
  }

  function DecodeRow(ks: seq<Kind>, b: Bytes): Result<seq<Val>, DecodeError> {
    Finish(ParseRow(ks, b))
  }

  lemma ParseOfAppended(ks: seq<Kind>, vs: seq<Val>, extra: Bytes)
    requires RowFits(ks, vs)
    ensures ParseRow(ks, EncodeRow(ks, vs) + extra) == Ok((vs, extra))
  {
    assert [] + extra == extra;
    RowAppends(ks, vs, [], extra);
    RowRoundTrip(ks, vs, extra);
  }

  /** Decoding is exactly the inverse of encoding: it succeeds on encodings and on nothing else. */
  lemma DecodesIff(ks: seq<Kind>, b: Bytes, vs: seq<Val>)
    ensures DecodeRow(ks, b) == Ok(vs) <==> RowFits(ks, vs) && b == EncodeRow(ks, vs)
  {
    if DecodeRow(ks, b) == Ok(vs) {
      RowCanonical(ks, b);
    }
    if RowFits(ks, vs) && b == EncodeRow(ks, vs) {
      RowRoundTrip(ks, vs, []);
    }
  }

  /** Bytes after a row are rejected as such. */
  lemma AppendedBytesRejected(ks: seq<Kind>, vs: seq<Val>, extra: Bytes)
    requires RowFits(ks, vs) && extra != []
    ensures DecodeRow(ks, EncodeRow(ks, vs) + extra) == Err(TrailingBytes(|extra|))
  {
    ParseOfAppended(ks, vs, extra);
  }

  /** No strict prefix of a row holds a whole row of its layout. */
  lemma StrictPrefixRejected(ks: seq<Kind>, vs: seq<Val>, prefix: Bytes)
    requires RowFits(ks, vs) && prefix < EncodeRow(ks, vs)
    ensures ParseRow(ks, prefix).Err?
  {
    if ParseRow(ks, prefix).Ok? {
      var (ws, s) := ParseRow(ks, prefix).value;
      var extra := EncodeRow(ks, vs)[|prefix|..];
      assert EncodeRow(ks, vs) == prefix + extra;
      RowCanonical(ks, prefix);
      RowAppends(ks, ws, s, extra);
      RowRoundTrip(ks, ws, s + extra);
      RowRoundTrip(ks, vs, []);
    }
  }
}

/**
 `pg_index` rows (crates/ultrasql-catalog/src/encoding.rs). The decoder also accepts an older row
 that ends after the keys, which makes one strict prefix of every row decodable.
 */
module IndexRowCodec {
  import opened Wrappers
  import opened Text
  import opened DataTypes
  import opened LittleEndian
  import opened CodecPrimitives
  import opened FieldCodec
  import opened RowCodec

  datatype IndexRow = IndexRow(
    indexrelid: u32, indrelid: u32, indnatts: u16, indisunique: bool, indisprimary: bool, indisvalid: bool,
    indkey: seq<i16>, indmethod: Utf8, indopclasses: seq<Option<Utf8>>, indoptions: Options)

  const KOpclasses := KMany(KMaybe(KText))
  const HEAD: seq<Kind> := [K32, K32, KSmall, KFlag, KFlag, KFlag, KKeys]
  const TAIL: seq<Kind> := [KText, KOpclasses, KOptions]

  function OpclassVal(c: Option<Utf8>): Val {
    match c case None => VNone case Some(t) => VSome(VText(t))
  }

  function OpclassesVal(cs: seq<Option<Utf8>>): Val {
    VList(seq(|cs|, i requires 0 <= i < |cs| => OpclassVal(cs[i])))
  }

  function OpclassAt(v: Val): Option<Utf8>
    requires Fits(KMaybe(KText), v)
  {
    if v.VNone? then None else (assert Fits(KText, v.v); Some(v.v.t))
  }

  function OpclassesAt(v: Val): seq<Option<Utf8>>
    requires Fits(KOpclasses, v)
  {
    seq(|v.items|, i requires 0 <= i < |v.items| => (assert Fits(KMaybe(KText), v.items[i]); OpclassAt(v.items[i])))
  }

  function HeadVals(r: IndexRow): seq<Val> {
    [VNum(r.indexrelid), VNum(r.indrelid), VNum(r.indnatts), VFlag(r.indisunique), VFlag(r.indisprimary),
     VFlag(r.indisvalid), KeysVal(r.indkey)]
  }

  function TailVals(r: IndexRow): seq<Val> {
    [VText(r.indmethod), OpclassesVal(r.indopclasses), OptionsVal(r.indoptions)]
  }

  predicate ShortOpclasses(cs: seq<Option<Utf8>>) {
    |cs| <= U32_MAX && forall i :: 0 <= i < |cs| && cs[i].Some? ==> ShortText(cs[i].value)
  }

  predicate Encodable(r: IndexRow) {
    |r.indkey| <= U32_MAX && ShortText(r.indmethod) && ShortOpclasses(r.indopclasses) && ShortOptions(r.indoptions)
  }

  /** The access method of a row without a tail. */
  function Btree(): Utf8 {
    AsciiIsUtf8("btree");
    "btree"
  }

  /** The row read from a head alone: a b-tree without opclasses or options. */
  function Legacy(h: seq<Val>): IndexRow
    requires RowFits(HEAD, h)
  {
    PowerValues();
    assert Fits(HEAD[6], h[6]);
    IndexRow(h[0].n, h[1].n, h[2].n, h[3].b, h[4].b, h[5].b, KeysAt(h[6]),
             Btree(), seq(|h[6].items|, _ => None), [])
  }

  function IndexAt(h: seq<Val>, t: seq<Val>): IndexRow
    requires RowFits(HEAD, h) && RowFits(TAIL, t)
  {
    Legacy(h).(indmethod := t[0].t, indopclasses := OpclassesAt(t[1]), indoptions := OptionsAt(t[2]))
  }

  // ----- Rows and their values correspond -----

  lemma OpclassesFitIff(cs: seq<Option<Utf8>>)
    ensures Fits(KOpclasses, OpclassesVal(cs)) <==> ShortOpclasses(cs)
  {
    var vs := OpclassesVal(cs).items;
    forall i | 0 <= i < |cs| ensures Fits(KMaybe(KText), vs[i]) <==> (cs[i].Some? ==> ShortText(cs[i].value)) {
      if cs[i].Some? {
        assert Fits(KText, vs[i].v) <==> ShortText(cs[i].value);
      }
    }
  }

  lemma OpclassesAtUndoes(cs: seq<Option<Utf8>>)
    requires ShortOpclasses(cs)
    ensures Fits(KOpclasses, OpclassesVal(cs)) && OpclassesAt(OpclassesVal(cs)) == cs
  {
    OpclassesFitIff(cs);
  }

  lemma OpclassesOfVal(v: Val)
    requires Fits(KOpclasses, v)
    ensures OpclassesVal(OpclassesAt(v)) == v
  {
    var vs := OpclassesVal(OpclassesAt(v)).items;
    forall i | 0 <= i < |vs| ensures vs[i] == v.items[i] {
      assert Fits(KMaybe(KText), v.items[i]);
      if v.items[i].VSome? {
        assert Fits(KText, v.items[i].v);
      }
    }
    assert vs == v.items;
  }

  lemma HeadFits(r: IndexRow)
    requires |r.indkey| <= U32_MAX
    ensures RowFits(HEAD, HeadVals(r))
  {
    PowerValues();
    KeysFitIff(r.indkey);
  }

  lemma TailFits(r: IndexRow)
    requires Encodable(r)
    ensures RowFits(TAIL, TailVals(r))
  {
    OpclassesFitIff(r.indopclasses);
    OptionsFitIff(r.indoptions);
  }

  lemma IndexAtUndoes(r: IndexRow)
    requires Encodable(r)
    ensures RowFits(HEAD, HeadVals(r)) && RowFits(TAIL, TailVals(r)) && IndexAt(HeadVals(r), TailVals(r)) == r
  {
    HeadFits(r);
    TailFits(r);
    KeysAtUndoes(r.indkey);
    OpclassesAtUndoes(r.indopclasses);
    OptionsAtUndoes(r.indoptions);
  }

  lemma HeadOfIndexAt(h: seq<Val>)
    requires RowFits(HEAD, h)
    ensures HeadVals(Legacy(h)) == h && |Legacy(h).indkey| <= U32_MAX
  {
    HeadScalars(h);
    HeadKeys(h);
    HeadIs(Legacy(h), h);
  }

  lemma HeadIs(r: IndexRow, h: seq<Val>)
    requires |h| == 7 && h[0] == VNum(r.indexrelid) && h[1] == VNum(r.indrelid) && h[2] == VNum(r.indnatts)
    requires h[3] == VFlag(r.indisunique) && h[4] == VFlag(r.indisprimary) && h[5] == VFlag(r.indisvalid)
    requires h[6] == KeysVal(r.indkey)
    ensures HeadVals(r) == h
  {
  }

  lemma HeadScalars(h: seq<Val>)
    requires RowFits(HEAD, h)
    ensures |h| == 7 && h[0].VNum? && h[1].VNum? && h[2].VNum? && h[3].VFlag? && h[4].VFlag? && h[5].VFlag?
  {
    assert Fits(HEAD[0], h[0]) && Fits(HEAD[1], h[1]) && Fits(HEAD[2], h[2]);
    assert Fits(HEAD[3], h[3]) && Fits(HEAD[4], h[4]) && Fits(HEAD[5], h[5]);
  }

  lemma HeadKeys(h: seq<Val>)
    requires RowFits(HEAD, h) && |h| == 7
    ensures KeysVal(Legacy(h).indkey) == h[6] && |Legacy(h).indkey| <= U32_MAX
  {
    assert Fits(HEAD[6], h[6]);
    KeysOfVal(h[6]);
  }

  lemma TailOfIndexAt(h: seq<Val>, t: seq<Val>)
    requires RowFits(HEAD, h) && RowFits(TAIL, t)
    ensures TailVals(IndexAt(h, t)) == t && Encodable(IndexAt(h, t))
  {
    HeadOfIndexAt(h);
    TailParts(t);
    TailIs(IndexAt(h, t), t);
  }

  lemma TailIs(r: IndexRow, t: seq<Val>)
    requires |t| == 3 && t[0] == VText(r.indmethod) && t[1] == OpclassesVal(r.indopclasses)
    requires t[2] == OptionsVal(r.indoptions)
    ensures TailVals(r) == t
  {
  }

  lemma TailParts(t: seq<Val>)
    requires RowFits(TAIL, t)
    ensures |t| == 3 && Fits(KText, t[0]) && Fits(KOpclasses, t[1]) && Fits(KOptions, t[2])
    ensures OpclassesVal(OpclassesAt(t[1])) == t[1] && ShortOpclasses(OpclassesAt(t[1]))
    ensures OptionsVal(OptionsAt(t[2])) == t[2] && ShortOptions(OptionsAt(t[2]))
  {
    assert Fits(TAIL[0], t[0]) && Fits(TAIL[1], t[1]) && Fits(TAIL[2], t[2]);
    OpclassesOfVal(t[1]);
    OptionsOfVal(t[2]);
    OpclassesFitIff(OpclassesAt(t[1]));
    OptionsFitIff(OptionsAt(t[2]));
  }

  // ----- Encoding and decoding -----

  /** The bytes up to the end of the keys. */
  function HeadBytes(r: IndexRow): Bytes
    requires |r.indkey| <= U32_MAX
  {
    HeadFits(r);
    EncodeRow(HEAD, HeadVals(r))
  }

  function TailBytes(r: IndexRow): Bytes
    requires Encodable(r)
  {
    TailFits(r);
    EncodeRow(TAIL, TailVals(r))
  }

  function EncodeIndex(r: IndexRow): Result<Bytes, EncodeError> {
    if Encodable(r) then Ok(HeadBytes(r) + TailBytes(r)) else Err(LengthOverflow)
  }

  function ParseIndex(b: Bytes): Parsed<IndexRow> {
    var (h, rest) :- ParseRow(HEAD, b);
    RowCanonical(HEAD, b);
    if rest == [] then Ok((Legacy(h), []))
    else
      var (t, rest2) :- ParseRow(TAIL, rest);
      RowCanonical(TAIL, rest);
      Ok((IndexAt(h, t), rest2))
  }

  function DecodeIndex(b: Bytes): Result<IndexRow, DecodeError> {
    Finish(ParseIndex(b))
  }

  /** What is left of a row when its bytes stop after the keys. */
  function WithoutTail(r: IndexRow): IndexRow {
    r.(indmethod := Btree(), indopclasses := seq(|r.indkey|, _ => None), indoptions := [])
  }

  lemma LegacyOfHead(r: IndexRow)
    requires |r.indkey| <= U32_MAX
    ensures RowFits(HEAD, HeadVals(r)) && Legacy(HeadVals(r)) == WithoutTail(r)
  {
    HeadFits(r);
    KeysAtUndoes(r.indkey);
  }

  lemma TailIsNotEmpty(r: IndexRow)
    requires Encodable(r)
    ensures TailBytes(r) != []
  {
    TailFits(r);
    RowRoundTrip(TAIL, TailVals(r), []);
  }

  /** After a head, the rest of the bytes decide: none is the old form, otherwise a tail must follow. */
  lemma ParseAfterHead(r: IndexRow, rest: Bytes)
    requires |r.indkey| <= U32_MAX && RowFits(HEAD, HeadVals(r))
    ensures rest == [] ==> ParseIndex(HeadBytes(r) + rest) == Ok((WithoutTail(r), []))
    ensures rest != [] ==> (ParseIndex(HeadBytes(r) + rest).Ok? <==> ParseRow(TAIL, rest).Ok?)
    ensures rest != [] && ParseRow(TAIL, rest).Ok? ==>
              ParseIndex(HeadBytes(r) + rest) == ParseTail(HeadVals(r), rest)
  {
    LegacyOfHead(r);
    ParseOfAppended(HEAD, HeadVals(r), rest);
  }

  function ParseTail(h: seq<Val>, rest: Bytes): Parsed<IndexRow>
    requires RowFits(HEAD, h)
  {
    var (t, rest2) :- ParseRow(TAIL, rest);
    RowCanonical(TAIL, rest);
    Ok((IndexAt(h, t), rest2))
  }

  /** Decoding undoes encoding, whatever bytes follow; with bytes following, the row is rejected. */
  lemma IndexRoundTrip(r: IndexRow, extra: Bytes)
    requires Encodable(r)
    ensures ParseIndex(EncodeIndex(r).value + extra) == Ok((r, extra))
    ensures DecodeIndex(EncodeIndex(r).value + extra) == if extra == [] then Ok(r) else Err(TrailingBytes(|extra|))
  {
    TailIsNotEmpty(r);
    assert EncodeIndex(r).value + extra == HeadBytes(r) + (TailBytes(r) + extra);
    TailUndoes(r, extra);
    ParseAfterHead(r, TailBytes(r) + extra);
  }

  lemma TailUndoes(r: IndexRow, extra: Bytes)
    requires Encodable(r)
    ensures RowFits(HEAD, HeadVals(r))
    ensures ParseTail(HeadVals(r), TailBytes(r) + extra) == Ok((r, extra))
    ensures ParseRow(TAIL, TailBytes(r) + extra).Ok?
  {
    IndexAtUndoes(r);
    ParseOfAppended(TAIL, TailVals(r), extra);
  }

  /**
   Of the strict prefixes of an encoded row exactly one decodes, the one that ends after the keys;
   it yields the row as a b-tree without opclasses or options.
   */
  lemma IndexPrefixDecodesIff(r: IndexRow, prefix: Bytes)
    requires Encodable(r) && prefix < EncodeIndex(r).value
    ensures DecodeIndex(prefix).Ok? <==> prefix == HeadBytes(r)
    ensures prefix == HeadBytes(r) ==> DecodeIndex(prefix) == Ok(WithoutTail(r))
  {
    var h := |HeadBytes(r)|;
    HeadFits(r);
    TailFits(r);
    if |prefix| < h {
      assert prefix == HeadBytes(r)[..|prefix|];
      StrictPrefixRejected(HEAD, HeadVals(r), prefix);
    } else {
      var rest := prefix[h..];
      assert prefix == HeadBytes(r) + rest;
      assert rest == TailBytes(r)[..|rest|];
      StrictPrefixRejected(TAIL, TailVals(r), rest);
      ParseAfterHead(r, rest);
    }
  }

  /** The old short form, the bytes up to the end of the keys, reads as a b-tree without opclasses or options. */
  lemma ShortFormReads(r: IndexRow)
    requires |r.indkey| <= U32_MAX
    ensures var d := DecodeIndex(HeadBytes(r));
            && d.Ok? && d.value.indmethod == "btree" && d.value.indoptions == []
            && |d.value.indopclasses| == |r.indkey|
            && (forall i :: 0 <= i < |r.indkey| ==> d.value.indopclasses[i] == None)
            && d.value.(indmethod := r.indmethod, indopclasses := r.indopclasses, indoptions := r.indoptions) == r
  {
    HeadFits(r);
    ParseAfterHead(r, []);
    assert HeadBytes(r) + [] == HeadBytes(r);
  }

  /** Whatever decodes is an encoded row or the head of one. */
  lemma IndexDecodesIff(b: Bytes, r: IndexRow)
    ensures DecodeIndex(b) == Ok(r) <==>
            || EncodeIndex(r) == Ok(b)
            || (|r.indkey| <= U32_MAX && r == WithoutTail(r) && b == HeadBytes(r))
  {
    if DecodeIndex(b) == Ok(r) {
      RowCanonical(HEAD, b);
      var (h, rest) := ParseRow(HEAD, b).value;
      HeadOfIndexAt(h);
      if rest == [] {
        LegacyOfHead(r);
      } else {
        TailConsumed(b, h, rest);
      }
    }
    if EncodeIndex(r) == Ok(b) {
      IndexRoundTrip(r, []);
      assert b + [] == b;
    }
    if |r.indkey| <= U32_MAX && r == WithoutTail(r) && b == HeadBytes(r) {
      HeadFits(r);
      ParseAfterHead(r, []);
      assert b + [] == b;
    }
  }

  lemma TailConsumed(b: Bytes, h: seq<Val>, rest: Bytes)
    requires RowFits(HEAD, h) && b == RowOnto(HEAD, h, rest) && DecodeRow(TAIL, rest).Ok?
    ensures var t := DecodeRow(TAIL, rest).value;
            RowFits(TAIL, t) && EncodeIndex(IndexAt(h, t)) == Ok(b)
  {
    var t := DecodeRow(TAIL, rest).value;
    DecodesIff(TAIL, rest, t);
    HeadOfIndexAt(h);
    TailOfIndexAt(h, t);
    RowAppends(HEAD, h, [], rest);
    assert [] + rest == rest;
  }
}

/**
 The rows of the persistent catalog and their binary form
 (crates/ultrasql-catalog/src/encoding.rs, crates/ultrasql-catalog/src/persistent/rows.rs).
 Floats are carried as their bit patterns.
 */
module RowCodec {
  import opened Wrappers
  import opened Text
  import opened DataTypes
  import opened LittleEndian
  import opened CodecPrimitives
  import opened TypeCodec
  import opened FieldCodec

  type f32bits = n: int | 0 <= n < 0x1_0000_0000
  type f64bits = n: int | 0 <= n < 0x1_0000_0000_0000_0000
  type Char = s: Utf8 | IsScalar(s) witness ['a']

  datatype RelKind =
    | Table | Index | Sequence | View | MaterializedView | CompositeType | Toast | ForeignTable | DroppedRel

  datatype ConType = Check | ForeignKey | PrimaryKey | Unique | Trigger | Exclusion | DroppedCon

  const REL_CODES: seq<int> :=
    ['r' as int, 'i' as int, 'S' as int, 'v' as int, 'm' as int, 'c' as int, 't' as int, 'f' as int, 'd' as int]
  const CON_CODES: seq<int> := ['c' as int, 'f' as int, 'p' as int, 'u' as int, 't' as int, 'x' as int, 'D' as int]

  function RelCode(k: RelKind): (code: int)
    ensures code in REL_CODES && 0 <= code < 256
  {
    match k
    case Table => REL_CODES[0]
    case Index => REL_CODES[1]
    case Sequence => REL_CODES[2]
    case View => REL_CODES[3]
    case MaterializedView => REL_CODES[4]
    case CompositeType => REL_CODES[5]
    case Toast => REL_CODES[6]
    case ForeignTable => REL_CODES[7]
    case DroppedRel => REL_CODES[8]
  }

  function RelAt(code: int): (k: RelKind)
    requires code in REL_CODES
    ensures RelCode(k) == code
  {
    if code == REL_CODES[0] then Table
    else if code == REL_CODES[1] then Index
    else if code == REL_CODES[2] then Sequence
    else if code == REL_CODES[3] then View
    else if code == REL_CODES[4] then MaterializedView
    else if code == REL_CODES[5] then CompositeType
    else if code == REL_CODES[6] then Toast
    else if code == REL_CODES[7] then ForeignTable
    else DroppedRel
  }

  function ConCode(k: ConType): (code: int)
    ensures code in CON_CODES && 0 <= code < 256
  {
    match k
    case Check => CON_CODES[0]
    case ForeignKey => CON_CODES[1]
    case PrimaryKey => CON_CODES[2]
    case Unique => CON_CODES[3]
    case Trigger => CON_CODES[4]
    case Exclusion => CON_CODES[5]
    case DroppedCon => CON_CODES[6]
  }

  function ConAt(code: int): (k: ConType)
    requires code in CON_CODES
    ensures ConCode(k) == code
  {
    if code == CON_CODES[0] then Check
    else if code == CON_CODES[1] then ForeignKey
    else if code == CON_CODES[2] then PrimaryKey
    else if code == CON_CODES[3] then Unique
    else if code == CON_CODES[4] then Trigger
    else if code == CON_CODES[5] then Exclusion
    else DroppedCon
  }

  lemma RelAtUndoes(k: RelKind)
    ensures RelAt(RelCode(k)) == k
  {
  }

  lemma ConAtUndoes(k: ConType)
    ensures ConAt(ConCode(k)) == k
  {
  }

  type Options = seq<(Utf8, Utf8)>

  datatype AttributeRow = AttributeRow(
    attrelid: u32, attname: Utf8, atttypid: u32, attnum: i16, attnotnull: bool, atthasdef: bool, attisdropped: bool)

  /** Every row kind but `pg_index`, whose decoder also knows an older form. */
  datatype Row =
    | ClassRow(
        oid: u32, relname: Utf8, relnamespace: u32, relkind: RelKind, relpages: u32, reltuples: f64bits,
        relfilenode: u32, relhasindex: bool, reloptions: Options)
    | ColumnRow(attribute: AttributeRow, dataType: DataType, nullable: bool)
    | TypeRow(
        oid: u32, typname: Utf8, typnamespace: u32, typtype: Char, typcategory: Char, typlen: i16, typelem: u32)
    | EnumRow(oid: u32, enumtypid: u32, enumsortorder: u32, enumlabel: Utf8)
    | ConstraintRow(
        oid: u32, conname: Utf8, conrelid: u32, contype: ConType, condeferrable: bool, condeferred: bool,
        conkey: seq<i16>, confrelid: u32, confkey: seq<i16>)
    | SequenceRow(
        seqrelid: u32, seqtypid: u32, seqstart: i64, seqincrement: i64, seqmax: i64, seqmin: i64, seqcache: i64,
        seqcycle: bool)
    | DescriptionRow(objoid: u32, classoid: u32, objsubid: i32, description: Utf8, deleted: bool)
    | StatisticRow(starelid: u32, staattnum: i16, stanullfrac: f32bits, stadistinct: f32bits)
    | StatisticExtRow(oid: u32, stxname: Utf8, stxrelid: u32, stxkeys: seq<i16>, stxkind: Utf8)

  datatype RowKind =
    | PgClass | PgAttribute | PgType | PgEnum | PgConstraint | PgSequence | PgDescription | PgStatistic | PgStatisticExt

  function KindOf(r: Row): RowKind {
    match r
    case ClassRow(_, _, _, _, _, _, _, _, _) => PgClass
    case ColumnRow(_, _, _) => PgAttribute
    case TypeRow(_, _, _, _, _, _, _) => PgType
    case EnumRow(_, _, _, _) => PgEnum
    case ConstraintRow(_, _, _, _, _, _, _, _, _) => PgConstraint
    case SequenceRow(_, _, _, _, _, _, _, _) => PgSequence
    case DescriptionRow(_, _, _, _, _) => PgDescription
    case StatisticRow(_, _, _, _) => PgStatistic
    case StatisticExtRow(_, _, _, _, _) => PgStatisticExt
  }

  const K32 := KUint(4)
  const KKeys := KMany(KInt(2))
  const KOptions := KMany(KPair(KText, KText))

  /** The fields of a row in the order they are written. */
  function Layout(k: RowKind): seq<Kind> {
    match k
    case PgClass => [K32, KText, K32, KCode(REL_CODES), K32, KUint(8), K32, KFlag, KOptions]
    case PgAttribute => [K32, KText, K32, KInt(2), KFlag, KFlag, KFlag, KType, KFlag]
    case PgType => [K32, KText, K32, KChar, KChar, KInt(2), K32]
    case PgEnum => [K32, K32, K32, KText]
    case PgConstraint => [K32, KText, K32, KCode(CON_CODES), KFlag, KFlag, KKeys, K32, KKeys]
    case PgSequence => [K32, K32, KInt(8), KInt(8), KInt(8), KInt(8), KInt(8), KFlag]
    case PgDescription => [K32, K32, KInt(4), KText, KFlag]
    case PgStatistic => [K32, KInt(2), KUint(4), KUint(4)]
    case PgStatisticExt => [K32, KText, K32, KKeys, KText]
  }

  function KeysVal(keys: seq<i16>): Val {
    VList(seq(|keys|, i requires 0 <= i < |keys| => VNum(keys[i])))
  }

  function OptionsVal(options: Options): Val {
    VList(seq(|options|, i requires 0 <= i < |options| => VPair(VText(options[i].0), VText(options[i].1))))
  }

  function RowVals(r: Row): seq<Val> {
    match r
    case ClassRow(oid, name, ns, kind, pages, tuples, node, hasIndex, options) =>
      [VNum(oid), VText(name), VNum(ns), VNum(RelCode(kind)), VNum(pages), VNum(tuples), VNum(node),
       VFlag(hasIndex), OptionsVal(options)]
    case ColumnRow(a, ty, nullable) =>
      [VNum(a.attrelid), VText(a.attname), VNum(a.atttypid), VNum(a.attnum), VFlag(a.attnotnull),
       VFlag(a.atthasdef), VFlag(a.attisdropped), VType(ty), VFlag(nullable)]
    case TypeRow(oid, name, ns, ty, category, len, elem) =>
      [VNum(oid), VText(name), VNum(ns), VText(ty), VText(category), VNum(len), VNum(elem)]
    case EnumRow(oid, typid, order, name) => [VNum(oid), VNum(typid), VNum(order), VText(name)]
    case ConstraintRow(oid, name, relid, kind, deferrable, deferred, key, frelid, fkey) =>
      [VNum(oid), VText(name), VNum(relid), VNum(ConCode(kind)), VFlag(deferrable), VFlag(deferred),
       KeysVal(key), VNum(frelid), KeysVal(fkey)]
    case SequenceRow(relid, typid, start, increment, max, min, cache, cycle) =>
      [VNum(relid), VNum(typid), VNum(start), VNum(increment), VNum(max), VNum(min), VNum(cache), VFlag(cycle)]
    case DescriptionRow(objoid, classoid, subid, description, deleted) =>
      [VNum(objoid), VNum(classoid), VNum(subid), VText(description), VFlag(deleted)]
    case StatisticRow(relid, attnum, nullfrac, distinctCount) =>
      [VNum(relid), VNum(attnum), VNum(nullfrac), VNum(distinctCount)]
    case StatisticExtRow(oid, name, relid, keys, kind) =>
      [VNum(oid), VText(name), VNum(relid), KeysVal(keys), VText(kind)]
  }

  predicate ShortOptions(options: Options) {
    |options| <= U32_MAX && forall i :: 0 <= i < |options| ==> ShortText(options[i].0) && ShortText(options[i].1)
  }

  /** Every length in the row fits its 32-bit prefix, and a column's type can be stored. */
  predicate Encodable(r: Row) {
    match r
    case ClassRow(_, name, _, _, _, _, _, _, options) => ShortText(name) && ShortOptions(options)
    case ColumnRow(a, ty, _) => ShortText(a.attname) && Persistable(ty)
    case TypeRow(_, name, _, _, _, _, _) => ShortText(name)
    case EnumRow(_, _, _, name) => ShortText(name)
    case ConstraintRow(_, name, _, _, _, _, key, _, fkey) => ShortText(name) && |key| <= U32_MAX && |fkey| <= U32_MAX
    case SequenceRow(_, _, _, _, _, _, _, _) => true
    case DescriptionRow(_, _, _, description, _) => ShortText(description)
    case StatisticRow(_, _, _, _) => true
    case StatisticExtRow(_, name, _, keys, kind) => ShortText(name) && |keys| <= U32_MAX && ShortText(kind)
  }

  // ----- Rows and their values correspond -----

  function KeyAt(v: Val): i16
    requires Fits(KInt(2), v)
  {
    PowerValues();
    v.n
  }

  function KeysAt(v: Val): seq<i16>
    requires Fits(KKeys, v)
  {
    seq(|v.items|, i requires 0 <= i < |v.items| => (assert Fits(KInt(2), v.items[i]); KeyAt(v.items[i])))
  }

  function OptionAt(v: Val): (Utf8, Utf8)
    requires Fits(KPair(KText, KText), v)
  {
    assert Fits(KText, v.first) && Fits(KText, v.second);
    (v.first.t, v.second.t)
  }

  function OptionsAt(v: Val): Options
    requires Fits(KOptions, v)
  {
    seq(|v.items|, i requires 0 <= i < |v.items| =>
      (assert Fits(KPair(KText, KText), v.items[i]); OptionAt(v.items[i])))
  }

  /** The row with given field values. */
  function RowAt(k: RowKind, v: seq<Val>): Row
    requires RowFits(Layout(k), v)
  {
    PowerValues();
    match k
    case PgClass =>
      ClassRow(v[0].n, v[1].t, v[2].n, RelAt(v[3].n), v[4].n, v[5].n, v[6].n, v[7].b, OptionsAt(v[8]))
    case PgAttribute =>
      ColumnRow(AttributeRow(v[0].n, v[1].t, v[2].n, KeyAt(v[3]), v[4].b, v[5].b, v[6].b), v[7].ty, v[8].b)
    case PgType => TypeRow(v[0].n, v[1].t, v[2].n, v[3].t, v[4].t, KeyAt(v[5]), v[6].n)
    case PgEnum => EnumRow(v[0].n, v[1].n, v[2].n, v[3].t)
    case PgConstraint =>
      ConstraintRow(v[0].n, v[1].t, v[2].n, ConAt(v[3].n), v[4].b, v[5].b, KeysAt(v[6]), v[7].n, KeysAt(v[8]))
    case PgSequence => SequenceRow(v[0].n, v[1].n, v[2].n, v[3].n, v[4].n, v[5].n, v[6].n, v[7].b)
    case PgDescription => DescriptionRow(v[0].n, v[1].n, v[2].n, v[3].t, v[4].b)
    case PgStatistic => StatisticRow(v[0].n, KeyAt(v[1]), v[2].n, v[3].n)
    case PgStatisticExt => StatisticExtRow(v[0].n, v[1].t, v[2].n, KeysAt(v[3]), v[4].t)
  }

  lemma KeysFitIff(keys: seq<i16>)
    ensures Fits(KKeys, KeysVal(keys)) <==> |keys| <= U32_MAX
  {
    PowerValues();
    assert forall i :: 0 <= i < |keys| ==> Fits(KInt(2), VNum(keys[i]));
  }

  lemma OptionsFitIff(options: Options)
    ensures Fits(KOptions, OptionsVal(options)) <==> ShortOptions(options)
  {
    var vs := OptionsVal(options).items;
    forall i | 0 <= i < |options|
      ensures Fits(KPair(KText, KText), vs[i]) <==> ShortText(options[i].0) && ShortText(options[i].1)
    {
      assert Fits(KText, vs[i].first) <==> ShortText(options[i].0);
      assert Fits(KText, vs[i].second) <==> ShortText(options[i].1);
    }
  }

  lemma ClassFitsIff(r: Row)
    requires r.ClassRow?
    ensures RowFits(Layout(PgClass), RowVals(r)) <==> Encodable(r)
  {
    PowerValues();
    OptionsFitIff(r.reloptions);
    var ks, vs := Layout(PgClass), RowVals(r);
    assert RowFits(ks, vs) ==> Fits(ks[1], vs[1]) && Fits(ks[8], vs[8]);
  }

  lemma ColumnFitsIff(r: Row)
    requires r.ColumnRow?
    ensures RowFits(Layout(PgAttribute), RowVals(r)) <==> Encodable(r)
  {
    PowerValues();
    var ks, vs := Layout(PgAttribute), RowVals(r);
    assert RowFits(ks, vs) ==> Fits(ks[1], vs[1]) && Fits(ks[7], vs[7]);
  }

  lemma ConstraintFitsIff(r: Row)
    requires r.ConstraintRow?
    ensures RowFits(Layout(PgConstraint), RowVals(r)) <==> Encodable(r)
  {
    PowerValues();
    KeysFitIff(r.conkey);
    KeysFitIff(r.confkey);
    var ks, vs := Layout(PgConstraint), RowVals(r);
    assert RowFits(ks, vs) ==> Fits(ks[1], vs[1]) && Fits(ks[6], vs[6]) && Fits(ks[8], vs[8]);
  }

  lemma TypeFitsIff(r: Row)
    requires r.TypeRow? || r.EnumRow?
    ensures RowFits(Layout(KindOf(r)), RowVals(r)) <==> Encodable(r)
  {
    PowerValues();
    var ks, vs := Layout(KindOf(r)), RowVals(r);
    assert RowFits(ks, vs) ==> Fits(ks[1], vs[1]) && Fits(ks[3], vs[3]);
  }

  lemma StatisticFitsIff(r: Row)
    requires r.StatisticRow? || r.StatisticExtRow?
    ensures RowFits(Layout(KindOf(r)), RowVals(r)) <==> Encodable(r)
  {
    PowerValues();
    if r.StatisticExtRow? {
      KeysFitIff(r.stxkeys);
    }
    var ks, vs := Layout(KindOf(r)), RowVals(r);
    assert RowFits(ks, vs) ==> Fits(ks[1], vs[1]) && Fits(ks[3], vs[3]) && Fits(ks[|ks| - 1], vs[|ks| - 1]);
  }

  lemma SequenceFitsIff(r: Row)
    requires r.SequenceRow? || r.DescriptionRow?
    ensures RowFits(Layout(KindOf(r)), RowVals(r)) <==> Encodable(r)
  {
    PowerValues();
    var ks, vs := Layout(KindOf(r)), RowVals(r);
    assert RowFits(ks, vs) ==> Fits(ks[3], vs[3]);
  }

  /** The values of a row fit its layout exactly when the row can be encoded. */
  lemma ValsFitIff(r: Row)
    ensures RowFits(Layout(KindOf(r)), RowVals(r)) <==> Encodable(r)
  {
    if r.ClassRow? { ClassFitsIff(r); }
    else if r.ColumnRow? { ColumnFitsIff(r); }
    else if r.ConstraintRow? { ConstraintFitsIff(r); }
    else if r.TypeRow? || r.EnumRow? { TypeFitsIff(r); }
    else if r.StatisticRow? || r.StatisticExtRow? { StatisticFitsIff(r); }
    else { SequenceFitsIff(r); }
  }

  lemma KeysAtUndoes(keys: seq<i16>)
    requires |keys| <= U32_MAX
    ensures Fits(KKeys, KeysVal(keys)) && KeysAt(KeysVal(keys)) == keys
  {
    KeysFitIff(keys);
  }

  lemma KeysOfVal(v: Val)
    requires Fits(KKeys, v)
    ensures KeysVal(KeysAt(v)) == v
  {
    var vs := KeysVal(KeysAt(v)).items;
    forall i | 0 <= i < |vs| ensures vs[i] == v.items[i] {
      assert Fits(KInt(2), v.items[i]);
    }
    assert vs == v.items;
  }

  lemma OptionsAtUndoes(options: Options)
    requires ShortOptions(options)
    ensures Fits(KOptions, OptionsVal(options)) && OptionsAt(OptionsVal(options)) == options
  {
    OptionsFitIff(options);
  }

  lemma OptionsOfVal(v: Val)
    requires Fits(KOptions, v)
    ensures OptionsVal(OptionsAt(v)) == v
  {
    var vs := OptionsVal(OptionsAt(v)).items;
    forall i | 0 <= i < |vs| ensures vs[i] == v.items[i] {
      assert Fits(KPair(KText, KText), v.items[i]);
      assert Fits(KText, v.items[i].first) && Fits(KText, v.items[i].second);
    }
    assert vs == v.items;
  }

  lemma {:induction false} RowAtUndoes(r: Row)
    requires Encodable(r)
    ensures RowFits(Layout(KindOf(r)), RowVals(r)) && RowAt(KindOf(r), RowVals(r)) == r
  {
    ValsFitIff(r);
    match r
    case ClassRow(_, _, _, _, _, _, _, _, _) => ClassAtUndoes(r);
    case ConstraintRow(_, _, _, _, _, _, _, _, _) => ConstraintAtUndoes(r);
    case StatisticExtRow(_, _, _, _, _) => KeysAtUndoes(r.stxkeys);
    case _ =>
  }

  lemma ClassAtUndoes(r: Row)
    requires r.ClassRow? && Encodable(r) && RowFits(Layout(PgClass), RowVals(r))
    ensures RowAt(PgClass, RowVals(r)) == r
  {
    RelAtUndoes(r.relkind);
    OptionsAtUndoes(r.reloptions);
  }

  lemma ConstraintAtUndoes(r: Row)
    requires r.ConstraintRow? && Encodable(r) && RowFits(Layout(PgConstraint), RowVals(r))
    ensures RowAt(PgConstraint, RowVals(r)) == r
  {
    ConAtUndoes(r.contype);
    KeysAtUndoes(r.conkey);
    KeysAtUndoes(r.confkey);
  }

  lemma ClassOfVals(v: seq<Val>)
    requires RowFits(Layout(PgClass), v)
    ensures RowAt(PgClass, v).ClassRow? && RowVals(RowAt(PgClass, v)) == v
  {
    assert Fits(Layout(PgClass)[8], v[8]);
    OptionsOfVal(v[8]);
  }

  lemma ConstraintOfVals(v: seq<Val>)
    requires RowFits(Layout(PgConstraint), v)
    ensures RowAt(PgConstraint, v).ConstraintRow? && RowVals(RowAt(PgConstraint, v)) == v
  {
    assert Fits(Layout(PgConstraint)[6], v[6]) && Fits(Layout(PgConstraint)[8], v[8]);
    KeysOfVal(v[6]);
    KeysOfVal(v[8]);
  }

  lemma StatisticExtOfVals(v: seq<Val>)
    requires RowFits(Layout(PgStatisticExt), v)
    ensures RowAt(PgStatisticExt, v).StatisticExtRow? && RowVals(RowAt(PgStatisticExt, v)) == v
  {
    assert Fits(Layout(PgStatisticExt)[3], v[3]);
    KeysOfVal(v[3]);
  }

  lemma NamedOfVals(k: RowKind, v: seq<Val>)
    requires RowFits(Layout(k), v) && (k == PgAttribute || k == PgType || k == PgEnum)
    ensures KindOf(RowAt(k, v)) == k && RowVals(RowAt(k, v)) == v
  {
  }

  lemma NumbersOfVals(k: RowKind, v: seq<Val>)
    requires RowFits(Layout(k), v) && (k == PgSequence || k == PgDescription || k == PgStatistic)
    ensures KindOf(RowAt(k, v)) == k && RowVals(RowAt(k, v)) == v
  {
  }

  lemma ValsOfRowAt(k: RowKind, v: seq<Val>)
    requires RowFits(Layout(k), v)
    ensures KindOf(RowAt(k, v)) == k && RowVals(RowAt(k, v)) == v && Encodable(RowAt(k, v))
  {
    ValsFitIff(RowAt(k, v));
    match k
    case PgClass => ClassOfVals(v);
    case PgConstraint => ConstraintOfVals(v);
    case PgStatisticExt => StatisticExtOfVals(v);
    case PgAttribute => NamedOfVals(k, v);
    case PgType => NamedOfVals(k, v);
    case PgEnum => NamedOfVals(k, v);
    case _ => NumbersOfVals(k, v);
  }

  // ----- Encoding and decoding rows -----

  function Encode(r: Row): Result<Bytes, EncodeError> {
    if Encodable(r) then
      ValsFitIff(r);
      Ok(EncodeRow(Layout(KindOf(r)), RowVals(r)))
    else if r.ColumnRow? && ShortText(r.attribute.attname) then
      FaultFreeIff(r.dataType);
      Err(TypeFault(r.dataType).value)
    else Err(LengthOverflow)
  }

  function Decode(k: RowKind, b: Bytes): Result<Row, DecodeError> {
    var vs :- DecodeRow(Layout(k), b);
    DecodesIff(Layout(k), b, vs);
    Ok(RowAt(k, vs))
  }

  /** For every row kind, decoding accepts exactly the encodings and returns the row that was encoded. */
  lemma RowDecodesIff(k: RowKind, b: Bytes, r: Row)
    ensures Decode(k, b) == Ok(r) <==> KindOf(r) == k && Encode(r) == Ok(b)
  {
    if Decode(k, b) == Ok(r) {
      var vs := DecodeRow(Layout(k), b).value;
      DecodesIff(Layout(k), b, vs);
      ValsOfRowAt(k, vs);
    }
    if KindOf(r) == k && Encode(r) == Ok(b) {
      RowAtUndoes(r);
      DecodesIff(Layout(k), b, RowVals(r));
    }
  }

  /** Bytes appended to an encoded row are rejected. */
  lemma RowAppendedRejected(r: Row, extra: Bytes)
    requires Encode(r).Ok? && extra != []
    ensures Decode(KindOf(r), Encode(r).value + extra) == Err(TrailingBytes(|extra|))
  {
    ValsFitIff(r);
    AppendedBytesRejected(Layout(KindOf(r)), RowVals(r), extra);
  }

  /** Every strict prefix of an encoded row is rejected. */
  lemma RowPrefixRejected(r: Row, prefix: Bytes)
    requires Encode(r).Ok? && prefix < Encode(r).value
    ensures Decode(KindOf(r), prefix).Err?
  {
    ValsFitIff(r);
    StrictPrefixRejected(Layout(KindOf(r)), RowVals(r), prefix);
  }
}

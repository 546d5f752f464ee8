/**
 The bytes of every catalog row, field by field in the order they are written
 (crates/ultrasql-catalog/src/encoding.rs), without the layout tables the codec works from.
 */
module RowBytes {
  import opened Wrappers
  import opened Text
  import opened DataTypes
  import opened LittleEndian
  import opened CodecPrimitives
  import opened TypeCodec
  import opened FieldCodec
  import opened RowCodec
  import opened IndexRowCodec

  /** One call of a `Writer` method, and the loops over lists that rows are written with. */
  datatype Part =
    | U8(code: byte)
    | U32(n: u32)
    | I16(k: i16)
    | I32(i: i32)
    | I64(l: i64)
    | F32(single: f32bits)
    | F64(double: f64bits)
    | Flag(b: bool)
    | Str(t: Utf8)
    | Chr(c: Char)
    | Type(ty: DataType)
    | I16s(keys: seq<i16>)
    | Pairs(pairs: Options)
    | Maybes(maybes: seq<Option<Utf8>>)

  /** Lengths fit their prefixes, and a type can be stored. */
  predicate Writable(p: Part) {
    match p
    case Str(t) => ShortText(t)
    case Type(ty) => Persistable(ty)
    case I16s(keys) => |keys| <= U32_MAX
    case Pairs(pairs) => ShortOptions(pairs)
    case Maybes(maybes) => ShortOpclasses(maybes)
    case _ => true
  }

  function KeysOnto(keys: seq<i16>, s: Bytes): Bytes {
    PowerValues();
    if keys == [] then s else IntOnto(keys[0], 2, KeysOnto(keys[1..], s))
  }

  function PairsOnto(pairs: Options, s: Bytes): Bytes {
    if pairs == [] then s else TextOnto(pairs[0].0, TextOnto(pairs[0].1, PairsOnto(pairs[1..], s)))
  }

  function MaybeOnto(c: Option<Utf8>, s: Bytes): Bytes {
    match c case None => FlagOnto(false, s) case Some(t) => FlagOnto(true, TextOnto(t, s))
  }

  function MaybesOnto(cs: seq<Option<Utf8>>, s: Bytes): Bytes {
    if cs == [] then s else MaybeOnto(cs[0], MaybesOnto(cs[1..], s))
  }

  function Onto(p: Part, s: Bytes): Bytes
    requires Writable(p)
  {
    PowerValues();
    match p
    case U8(code) => [code] + s
    case U32(n) => UintOnto(n, 4, s)
    case I16(k) => IntOnto(k, 2, s)
    case I32(i) => IntOnto(i, 4, s)
    case I64(l) => IntOnto(l, 8, s)
    case F32(single) => UintOnto(single, 4, s)
    case F64(double) => UintOnto(double, 8, s)
    case Flag(b) => FlagOnto(b, s)
    case Str(t) => TextOnto(t, s)
    case Chr(c) => TextOnto(c, s)
    case Type(ty) => TypeOnto(ty, s)
    case I16s(keys) => UintOnto(|keys|, 4, KeysOnto(keys, s))
    case Pairs(pairs) => UintOnto(|pairs|, 4, PairsOnto(pairs, s))
    case Maybes(maybes) => UintOnto(|maybes|, 4, MaybesOnto(maybes, s))
  }

  predicate AllWritable(ps: seq<Part>) {
    forall i :: 0 <= i < |ps| ==> Writable(ps[i])
  }

  /** The parts one after the other. */
  function Written(ps: seq<Part>): Bytes
    requires AllWritable(ps)
  {
    if ps == [] then [] else Onto(ps[0], Written(ps[1..]))
  }

  /** The letter `pg_class` stores for a relation kind, and `pg_constraint` for a constraint type. */
  function RelLetter(k: RelKind): (c: byte)
    ensures c as int == RelCode(k)
  {
    match k
    case Table => 'r'
    case Index => 'i'
    case Sequence => 'S'
    case View => 'v'
    case MaterializedView => 'm'
    case CompositeType => 'c'
    case Toast => 't'
    case ForeignTable => 'f'
    case DroppedRel => 'd'
  }

  function ConLetter(k: ConType): (c: byte)
    ensures c as int == ConCode(k)
  {
    match k
    case Check => 'c'
    case ForeignKey => 'f'
    case PrimaryKey => 'p'
    case Unique => 'u'
    case Trigger => 't'
    case Exclusion => 'x'
    case DroppedCon => 'D'
  }

  // ----- Lists -----

  lemma {:induction false} KeyItems(keys: seq<i16>, s: Bytes)
    ensures AllFit(KInt(2), KeysVal(keys).items) && ItemsOnto(KInt(2), KeysVal(keys).items, s) == KeysOnto(keys, s)
  {
    PowerValues();
    if keys != [] {
      KeyItems(keys[1..], s);
      assert KeysVal(keys).items[1..] == KeysVal(keys[1..]).items;
    }
  }

  lemma PairBytes(o: (Utf8, Utf8), s: Bytes)
    requires ShortText(o.0) && ShortText(o.1)
    ensures var v := VPair(VText(o.0), VText(o.1));
            Fits(KPair(KText, KText), v) && ValOnto(KPair(KText, KText), v, s) == TextOnto(o.0, TextOnto(o.1, s))
  {
    assert Fits(KText, VText(o.0)) && Fits(KText, VText(o.1));
  }

  lemma {:induction false} PairItems(pairs: Options, s: Bytes)
    requires forall i :: 0 <= i < |pairs| ==> ShortText(pairs[i].0) && ShortText(pairs[i].1)
    ensures AllFit(KPair(KText, KText), OptionsVal(pairs).items)
    ensures ItemsOnto(KPair(KText, KText), OptionsVal(pairs).items, s) == PairsOnto(pairs, s)
  {
    if pairs != [] {
      PairItems(pairs[1..], s);
      PairBytes(pairs[0], PairsOnto(pairs[1..], s));
      assert OptionsVal(pairs).items[1..] == OptionsVal(pairs[1..]).items;
      assert OptionsVal(pairs).items == [OptionsVal(pairs).items[0]] + OptionsVal(pairs[1..]).items;
    }
  }

  lemma MaybeBytes(c: Option<Utf8>, s: Bytes)
    requires c.Some? ==> ShortText(c.value)
    ensures Fits(KMaybe(KText), OpclassVal(c)) && ValOnto(KMaybe(KText), OpclassVal(c), s) == MaybeOnto(c, s)
  {
    if c.Some? {
      assert Fits(KText, VText(c.value));
    }
  }

  lemma {:induction false} MaybeItems(cs: seq<Option<Utf8>>, s: Bytes)
    requires forall i :: 0 <= i < |cs| && cs[i].Some? ==> ShortText(cs[i].value)
    ensures AllFit(KMaybe(KText), OpclassesVal(cs).items)
    ensures ItemsOnto(KMaybe(KText), OpclassesVal(cs).items, s) == MaybesOnto(cs, s)
  {
    if cs != [] {
      MaybeItems(cs[1..], s);
      MaybeBytes(cs[0], MaybesOnto(cs[1..], s));
      assert OpclassesVal(cs).items[1..] == OpclassesVal(cs[1..]).items;
      assert OpclassesVal(cs).items == [OpclassVal(cs[0])] + OpclassesVal(cs[1..]).items;
    }
  }

  // ----- Layouts and parts -----

  /** A layout's field with this value is written as this part. */
  predicate Matches(k: Kind, v: Val, p: Part) {
    match p
    case U8(code) => k.KCode? && code as int in k.codes && v == VNum(code as int)
    case U32(n) => (k == KUint(4) || (k == KSmall && n < 0x1_0000)) && v == VNum(n)
    case I16(i) => k == KInt(2) && v == VNum(i)
    case I32(i) => k == KInt(4) && v == VNum(i)
    case I64(l) => k == KInt(8) && v == VNum(l)
    case F32(single) => k == KUint(4) && v == VNum(single)
    case F64(double) => k == KUint(8) && v == VNum(double)
    case Flag(b) => k == KFlag && v == VFlag(b)
    case Str(t) => k == KText && v == VText(t)
    case Chr(c) => k == KChar && v == VText(c)
    case Type(ty) => k == KType && v == VType(ty)
    case I16s(keys) => k == KKeys && v == KeysVal(keys)
    case Pairs(pairs) => k == KOptions && v == OptionsVal(pairs)
    case Maybes(maybes) => k == KOpclasses && v == OpclassesVal(maybes)
  }

  lemma PartBytes(k: Kind, v: Val, p: Part, s: Bytes)
    requires Matches(k, v, p) && Writable(p)
    ensures Fits(k, v) && ValOnto(k, v, s) == Onto(p, s)
  {
    PowerValues();
    match p
    case I16s(keys) => KeyItems(keys, s);
    case Pairs(pairs) => PairItems(pairs, s);
    case Maybes(maybes) => MaybeItems(maybes, s);
    case _ =>
  }

  predicate AllMatch(ks: seq<Kind>, vs: seq<Val>, ps: seq<Part>) {
    |ks| == |vs| == |ps| && forall i :: 0 <= i < |ps| ==> Matches(ks[i], vs[i], ps[i])
  }

  lemma TailsMatch(ks: seq<Kind>, vs: seq<Val>, ps: seq<Part>)
    requires AllMatch(ks, vs, ps) && AllWritable(ps) && ps != []
    ensures AllMatch(ks[1..], vs[1..], ps[1..]) && AllWritable(ps[1..])
    ensures Matches(ks[0], vs[0], ps[0]) && Writable(ps[0])
  {
  }

  lemma {:induction false} LayoutBytes(ks: seq<Kind>, vs: seq<Val>, ps: seq<Part>)
    requires AllMatch(ks, vs, ps) && AllWritable(ps)
    ensures RowFits(ks, vs) && RowOnto(ks, vs, []) == Written(ps)
  {
    if ps != [] {
      TailsMatch(ks, vs, ps);
      LayoutBytes(ks[1..], vs[1..], ps[1..]);
      PartBytes(ks[0], vs[0], ps[0], Written(ps[1..]));
      RowOntoCons(ks, vs[0], vs[1..], []);
      assert [vs[0]] + vs[1..] == vs;
    }
  }

  // ----- Rows -----

  /** The calls `encode` makes for each row kind. */
  function Parts(r: Row): seq<Part> {
    match r
    case ClassRow(oid, name, ns, kind, pages, tuples, node, hasIndex, options) =>
      [U32(oid), Str(name), U32(ns), U8(RelLetter(kind)), U32(pages), F64(tuples), U32(node), Flag(hasIndex),
       Pairs(options)]
    case ColumnRow(a, ty, nullable) =>
      [U32(a.attrelid), Str(a.attname), U32(a.atttypid), I16(a.attnum), Flag(a.attnotnull), Flag(a.atthasdef),
       Flag(a.attisdropped), Type(ty), Flag(nullable)]
    case TypeRow(_, _, _, _, _, _, _) =>
      [U32(r.oid), Str(r.typname), U32(r.typnamespace), Chr(r.typtype), Chr(r.typcategory), I16(r.typlen),
       U32(r.typelem)]
    case EnumRow(_, _, _, _) => [U32(r.oid), U32(r.enumtypid), U32(r.enumsortorder), Str(r.enumlabel)]
    case ConstraintRow(oid, name, relid, kind, deferrable, deferred, key, frelid, fkey) =>
      [U32(oid), Str(name), U32(relid), U8(ConLetter(kind)), Flag(deferrable), Flag(deferred), I16s(key),
       U32(frelid), I16s(fkey)]
    case SequenceRow(_, _, _, _, _, _, _, _) =>
      [U32(r.seqrelid), U32(r.seqtypid), I64(r.seqstart), I64(r.seqincrement), I64(r.seqmax), I64(r.seqmin),
       I64(r.seqcache), Flag(r.seqcycle)]
    case DescriptionRow(_, _, _, _, _) =>
      [U32(r.objoid), U32(r.classoid), I32(r.objsubid), Str(r.description), Flag(r.deleted)]
    case StatisticRow(_, _, _, _) => [U32(r.starelid), I16(r.staattnum), F32(r.stanullfrac), F32(r.stadistinct)]
    case StatisticExtRow(_, _, _, _, _) =>
      [U32(r.oid), Str(r.stxname), U32(r.stxrelid), I16s(r.stxkeys), Str(r.stxkind)]
  }

  predicate FieldMatches(ks: seq<Kind>, vs: seq<Val>, ps: seq<Part>, i: nat)
    requires i < |ks| == |vs| == |ps|
  {
    Matches(ks[i], vs[i], ps[i]) && Writable(ps[i])
  }

  lemma NineMatch(ks: seq<Kind>, vs: seq<Val>, ps: seq<Part>)
    requires |ks| == |vs| == |ps| == 9
    requires FieldMatches(ks, vs, ps, 0) && FieldMatches(ks, vs, ps, 1) && FieldMatches(ks, vs, ps, 2)
    requires FieldMatches(ks, vs, ps, 3) && FieldMatches(ks, vs, ps, 4) && FieldMatches(ks, vs, ps, 5)
    requires FieldMatches(ks, vs, ps, 6) && FieldMatches(ks, vs, ps, 7) && FieldMatches(ks, vs, ps, 8)
    ensures AllMatch(ks, vs, ps) && AllWritable(ps)
  {
  }

  lemma SevenMatch(ks: seq<Kind>, vs: seq<Val>, ps: seq<Part>)
    requires |ks| == |vs| == |ps| == 7
    requires FieldMatches(ks, vs, ps, 0) && FieldMatches(ks, vs, ps, 1) && FieldMatches(ks, vs, ps, 2)
    requires FieldMatches(ks, vs, ps, 3) && FieldMatches(ks, vs, ps, 4) && FieldMatches(ks, vs, ps, 5)
    requires FieldMatches(ks, vs, ps, 6)
    ensures AllMatch(ks, vs, ps) && AllWritable(ps)
  {
  }

  ghost predicate PartsMatch(r: Row) {
    AllMatch(Layout(KindOf(r)), RowVals(r), Parts(r)) && AllWritable(Parts(r))
  }

  lemma ClassMatches(r: Row)
    requires r.ClassRow? && RowCodec.Encodable(r)
    ensures PartsMatch(r)
  {
    NineMatch(Layout(PgClass), RowVals(r), Parts(r));
  }

  lemma ColumnFront(r: Row)
    requires r.ColumnRow? && RowCodec.Encodable(r)
    ensures var ks, vs, ps := Layout(PgAttribute), RowVals(r), Parts(r);
            && |ks| == |vs| == |ps| == 9 && FieldMatches(ks, vs, ps, 0) && FieldMatches(ks, vs, ps, 1)
            && FieldMatches(ks, vs, ps, 2)
  {
  }

  lemma ColumnBack(r: Row)
    requires r.ColumnRow? && RowCodec.Encodable(r)
    ensures var ks, vs, ps := Layout(PgAttribute), RowVals(r), Parts(r);
            && |ks| == |vs| == |ps| == 9 && FieldMatches(ks, vs, ps, 3) && FieldMatches(ks, vs, ps, 4)
            && FieldMatches(ks, vs, ps, 5) && FieldMatches(ks, vs, ps, 6)
            && FieldMatches(ks, vs, ps, 7) && FieldMatches(ks, vs, ps, 8)
  {
  }

  lemma ColumnMatches(r: Row)
    requires r.ColumnRow? && RowCodec.Encodable(r)
    ensures PartsMatch(r)
  {
    ColumnFront(r);
    ColumnBack(r);
    NineMatch(Layout(PgAttribute), RowVals(r), Parts(r));
  }

  lemma TypeMatches(r: Row)
    requires r.TypeRow? && RowCodec.Encodable(r)
    ensures PartsMatch(r)
  {
    SevenMatch(Layout(PgType), RowVals(r), Parts(r));
  }

  lemma EnumMatches(r: Row)
    requires r.EnumRow? && RowCodec.Encodable(r)
    ensures PartsMatch(r)
  {
  }

  lemma ConstraintFront(r: Row)
    requires r.ConstraintRow? && RowCodec.Encodable(r)
    ensures var ks, vs, ps := Layout(PgConstraint), RowVals(r), Parts(r);
            && |ks| == |vs| == |ps| == 9 && FieldMatches(ks, vs, ps, 0) && FieldMatches(ks, vs, ps, 1)
            && FieldMatches(ks, vs, ps, 2)
  {
  }

  lemma ConstraintBack(r: Row)
    requires r.ConstraintRow? && RowCodec.Encodable(r)
    ensures var ks, vs, ps := Layout(PgConstraint), RowVals(r), Parts(r);
            && |ks| == |vs| == |ps| == 9 && FieldMatches(ks, vs, ps, 3) && FieldMatches(ks, vs, ps, 4)
            && FieldMatches(ks, vs, ps, 5) && FieldMatches(ks, vs, ps, 6)
            && FieldMatches(ks, vs, ps, 7) && FieldMatches(ks, vs, ps, 8)
  {
  }

  lemma ConstraintMatches(r: Row)
    requires r.ConstraintRow? && RowCodec.Encodable(r)
    ensures PartsMatch(r)
  {
    ConstraintFront(r);
    ConstraintBack(r);
    NineMatch(Layout(PgConstraint), RowVals(r), Parts(r));
  }

  lemma SequenceMatches(r: Row)
    requires r.SequenceRow? && RowCodec.Encodable(r)
    ensures PartsMatch(r)
  {
  }

  lemma DescriptionMatches(r: Row)
    requires r.DescriptionRow? && RowCodec.Encodable(r)
    ensures PartsMatch(r)
  {
  }

  lemma StatisticMatches(r: Row)
    requires r.StatisticRow? && RowCodec.Encodable(r)
    ensures PartsMatch(r)
  {
  }

  lemma StatisticExtMatches(r: Row)
    requires r.StatisticExtRow? && RowCodec.Encodable(r)
    ensures PartsMatch(r)
  {
  }

  /** An encoded row is its fields in the order of `Parts`, each in its primitive form. */
  lemma RowIsItsParts(r: Row)
    requires RowCodec.Encodable(r)
    ensures AllWritable(Parts(r)) && Encode(r) == Ok(Written(Parts(r)))
  {
    match r {
    case ClassRow(_, _, _, _, _, _, _, _, _) => ClassMatches(r);
    case ColumnRow(_, _, _) => ColumnMatches(r);
    case TypeRow(_, _, _, _, _, _, _) => TypeMatches(r);
    case EnumRow(_, _, _, _) => EnumMatches(r);
    case ConstraintRow(_, _, _, _, _, _, _, _, _) => ConstraintMatches(r);
    case SequenceRow(_, _, _, _, _, _, _, _) => SequenceMatches(r);
    case DescriptionRow(_, _, _, _, _) => DescriptionMatches(r);
    case StatisticRow(_, _, _, _) => StatisticMatches(r);
    case StatisticExtRow(_, _, _, _, _) => StatisticExtMatches(r);
    }
    LayoutBytes(Layout(KindOf(r)), RowVals(r), Parts(r));
  }

  function HeadParts(r: IndexRow): seq<Part> {
    [U32(r.indexrelid), U32(r.indrelid), U32(r.indnatts), Flag(r.indisunique), Flag(r.indisprimary),
     Flag(r.indisvalid), I16s(r.indkey)]
  }

  function TailParts(r: IndexRow): seq<Part> {
    [Str(r.indmethod), Maybes(r.indopclasses), Pairs(r.indoptions)]
  }

  lemma HeadMatches(r: IndexRow)
    requires |r.indkey| <= U32_MAX
    ensures AllMatch(HEAD, HeadVals(r), HeadParts(r)) && AllWritable(HeadParts(r))
  {
    SevenMatch(HEAD, HeadVals(r), HeadParts(r));
  }

  lemma TailMatches(r: IndexRow)
    requires IndexRowCodec.Encodable(r)
    ensures AllMatch(TAIL, TailVals(r), TailParts(r)) && AllWritable(TailParts(r))
  {
  }

  /** The same of an index row. */
  lemma IndexRowIsItsParts(r: IndexRow)
    requires IndexRowCodec.Encodable(r)
    ensures AllWritable(HeadParts(r)) && AllWritable(TailParts(r))
    ensures EncodeIndex(r) == Ok(Written(HeadParts(r)) + Written(TailParts(r)))
  {
    HeadMatches(r);
    TailMatches(r);
    LayoutBytes(HEAD, HeadVals(r), HeadParts(r));
    LayoutBytes(TAIL, TailVals(r), TailParts(r));
  }
}

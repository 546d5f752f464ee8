/** The recursive binary form of data types (crates/ultrasql-catalog/src/encoding.rs). */
module TypeCodec {
  import opened Wrappers
  import opened Text
  import opened DataTypes
  import opened LittleEndian
  import opened CodecPrimitives

  // ----- Tags -----

  /** What a tag byte announces. */
  datatype Tag =
    | ScalarTag(scalar: ScalarKind) | SizedTag(sized: SizedKind) | DecimalTag
    | EnumTag | CompositeTag | DomainTag | RangeTag | GeometryTag | ArrayTag

  function ScalarCode(k: ScalarKind): (code: int) {
    match k
    case Bool => 0x01
    case Int16 => 0x02
    case Int32 => 0x03
    case Int64 => 0x04
    case Float32 => 0x05
    case Float64 => 0x06
    case Bytea => 0x09
    case Timestamp => 0x0a
    case TimestampTz => 0x0b
    case Date => 0x0c
    case Time => 0x0d
    case Interval => 0x0e
    case Uuid => 0x0f
    case Jsonb => 0x10
    case NullType => 0x11
    case Money => 0x19
    case TimeTz => 0x1b
    case Inet => 0x1e
    case Cidr => 0x1f
    case MacAddr => 0x20
    case MacAddr8 => 0x21
    case Json => 0x22
    case OidType => 0x26
    case RegClass => 0x27
    case RegType => 0x28
    case PgLsn => 0x29
    case Xml => 0x2a
    case TsVector => 0x2b
    case TsQuery => 0x2c
  }

  function SizedCode(k: SizedKind): (code: int) {
    match k
    case Text => 0x08
    case Vector => 0x15
    case HalfVec => 0x16
    case SparseVec => 0x17
    case BitVec => 0x18
    case Char => 0x1a
    case Bit => 0x1c
    case VarBit => 0x1d
  }

  function TagCode(tag: Tag): (code: int)
    ensures 0 <= code < 256 && TagAt(code) == Some(tag)
  {
    match tag
    case ScalarTag(k) => ScalarCode(k)
    case SizedTag(k) => SizedCode(k)
    case DecimalTag => 0x07
    case RangeTag => 0x12
    case GeometryTag => 0x13
    case ArrayTag => 0x14
    case EnumTag => 0x23
    case CompositeTag => 0x24
    case DomainTag => 0x25
  }

  function TagAt(code: int): (tag: Option<Tag>) {
    match code
    case 0x01 => Some(ScalarTag(Bool))
    case 0x02 => Some(ScalarTag(Int16))
    case 0x03 => Some(ScalarTag(Int32))
    case 0x04 => Some(ScalarTag(Int64))
    case 0x05 => Some(ScalarTag(Float32))
    case 0x06 => Some(ScalarTag(Float64))
    case 0x07 => Some(DecimalTag)
    case 0x08 => Some(SizedTag(SizedKind.Text))
    case 0x09 => Some(ScalarTag(Bytea))
    case 0x0a => Some(ScalarTag(Timestamp))
    case 0x0b => Some(ScalarTag(TimestampTz))
    case 0x0c => Some(ScalarTag(Date))
    case 0x0d => Some(ScalarTag(Time))
    case 0x0e => Some(ScalarTag(Interval))
    case 0x0f => Some(ScalarTag(Uuid))
    case 0x10 => Some(ScalarTag(Jsonb))
    case 0x11 => Some(ScalarTag(NullType))
    case 0x12 => Some(RangeTag)
    case 0x13 => Some(GeometryTag)
    case 0x14 => Some(ArrayTag)
    case 0x15 => Some(SizedTag(Vector))
    case 0x16 => Some(SizedTag(HalfVec))
    case 0x17 => Some(SizedTag(SparseVec))
    case 0x18 => Some(SizedTag(BitVec))
    case 0x19 => Some(ScalarTag(Money))
    case 0x1a => Some(SizedTag(Char))
    case 0x1b => Some(ScalarTag(TimeTz))
    case 0x1c => Some(SizedTag(Bit))
    case 0x1d => Some(SizedTag(VarBit))
    case 0x1e => Some(ScalarTag(Inet))
    case 0x1f => Some(ScalarTag(Cidr))
    case 0x20 => Some(ScalarTag(MacAddr))
    case 0x21 => Some(ScalarTag(MacAddr8))
    case 0x22 => Some(ScalarTag(Json))
    case 0x23 => Some(EnumTag)
    case 0x24 => Some(CompositeTag)
    case 0x25 => Some(DomainTag)
    case 0x26 => Some(ScalarTag(OidType))
    case 0x27 => Some(ScalarTag(RegClass))
    case 0x28 => Some(ScalarTag(RegType))
    case 0x29 => Some(ScalarTag(PgLsn))
    case 0x2a => Some(ScalarTag(Xml))
    case 0x2b => Some(ScalarTag(TsVector))
    case 0x2c => Some(ScalarTag(TsQuery))
    case _ => None
  }

  lemma TagAtIsExact(code: int)
    requires TagAt(code).Some?
    ensures TagCode(TagAt(code).value) == code
  {
  }

  function RangeCode(r: RangeType): (code: int)
    ensures 1 <= code <= 6 && RangeAt(code) == Some(r)
  {
    match r
    case Int4Range => 1
    case Int8Range => 2
    case NumRange => 3
    case DateRange => 4
    case TsRange => 5
    case TsTzRange => 6
  }

  function RangeAt(code: int): Option<RangeType> {
    match code
    case 1 => Some(Int4Range)
    case 2 => Some(Int8Range)
    case 3 => Some(NumRange)
    case 4 => Some(DateRange)
    case 5 => Some(TsRange)
    case 6 => Some(TsTzRange)
    case _ => None
  }

  function GeometryCode(g: GeometryType): (code: int)
    ensures 1 <= code <= 7 && GeometryAt(code) == Some(g)
  {
    match g
    case Point => 1
    case Box => 2
    case Circle => 3
    case Line => 4
    case Lseg => 5
    case Path => 6
    case Polygon => 7
  }

  function GeometryAt(code: int): Option<GeometryType> {
    match code
    case 1 => Some(Point)
    case 2 => Some(Box)
    case 3 => Some(Circle)
    case 4 => Some(Line)
    case 5 => Some(Lseg)
    case 6 => Some(Path)
    case 7 => Some(Polygon)
    case _ => None
  }

  // ----- Encoding -----

  predicate ShortTexts(ts: seq<Utf8>) {
    |ts| <= U32_MAX && forall i :: 0 <= i < |ts| ==> ShortText(ts[i])
  }

  /** The types the catalog can store: no anonymous record inside, and every length fits 32 bits. */
  predicate Persistable(ty: DataType) {
    match ty
    case Enum(_, name, labels) => ShortText(name) && ShortTexts(labels)
    case Composite(_, name, fields) =>
      && ShortText(name) && |fields| <= U32_MAX
      && forall i :: 0 <= i < |fields| ==> ShortText(fields[i].name) && Persistable(fields[i].dataType)
    case Domain(_, name, baseType, _) => ShortText(name) && Persistable(baseType)
    case Array(inner) => Persistable(inner)
    case Record(_) => false
    case _ => true
  }

  /** What stops a type from being written, met in the order the fields are written. */
  function TypeFault(ty: DataType): Option<EncodeError>
    decreases ty, 0
  {
    match ty
    case Enum(_, name, labels) =>
      if ShortText(name) && ShortTexts(labels) then None else Some(LengthOverflow)
    case Composite(_, name, fields) =>
      if !ShortText(name) || |fields| > U32_MAX then Some(LengthOverflow) else FieldsFault(fields)
    case Domain(_, name, baseType, _) => if !ShortText(name) then Some(LengthOverflow) else TypeFault(baseType)
    case Array(inner) => TypeFault(inner)
    case Record(_) => Some(UnsupportedType)
    case _ => None
  }

  function FieldsFault(fields: seq<TypeField>): Option<EncodeError>
    decreases fields, 1
  {
    if fields == [] then None
    else if !ShortText(fields[0].name) then Some(LengthOverflow)
    else if TypeFault(fields[0].dataType).Some? then TypeFault(fields[0].dataType)
    else FieldsFault(fields[1..])
  }

  /** A type can be written exactly when it holds no record and every length fits. */
  lemma {:induction false} FaultFreeIff(ty: DataType)
    ensures TypeFault(ty) == None <==> Persistable(ty)
    decreases ty, 0
  {
    match ty
    case Composite(_, _, fields) => FieldsFaultFreeIff(fields);
    case Domain(_, _, baseType, _) => FaultFreeIff(baseType);
    case Array(inner) => FaultFreeIff(inner);
    case _ =>
  }

  lemma {:induction false} FieldsFaultFreeIff(fields: seq<TypeField>)
    ensures FieldsFault(fields) == None <==> PersistableFields(fields)
    decreases fields, 1
  {
    if fields != [] {
      FaultFreeIff(fields[0].dataType);
      FieldsFaultFreeIff(fields[1..]);
      assert fields == [fields[0]] + fields[1..];
    }
  }

  function CodeOnto(code: int, s: Bytes): Bytes
    requires 0 <= code < 256
  {
    [code as char] + s
  }

  function AsNat(v: Option<u32>): Option<nat> {
    match v case None => None case Some(n) => Some(n)
  }

  function AsUnsigned(v: Option<i32>): (r: Option<nat>)
    ensures r.Some? ==> r.value < Pow256(4)
  {
    PowerValues();
    match v case None => None case Some(n) => Some(Unsigned(n, 4))
  }

  function TextsOnto(ts: seq<Utf8>, s: Bytes): Bytes {
    if ts == [] then s else TextOnto(ts[0], TextsOnto(ts[1..], s))
  }

  /** The OID and the name that enum, composite and domain types start with. */
  function HeaderOnto(oid: u32, name: Utf8, s: Bytes): Bytes {
    UintOnto(oid, 4, TextOnto(name, s))
  }

  function TagOf(ty: DataType): Tag
    requires !ty.Record?
  {
    match ty
    case Scalar(k) => ScalarTag(k)
    case Sized(k, _) => SizedTag(k)
    case Decimal(_, _) => DecimalTag
    case Enum(_, _, _) => EnumTag
    case Composite(_, _, _) => CompositeTag
    case Domain(_, _, _, _) => DomainTag
    case Range(_) => RangeTag
    case Geometry(_) => GeometryTag
    case Array(_) => ArrayTag
  }

  function TypeOnto(ty: DataType, s: Bytes): Bytes
    requires Persistable(ty)
    decreases ty, 1
  {
    CodeOnto(TagCode(TagOf(ty)), BodyOnto(ty, s))
  }

  function BodyOnto(ty: DataType, s: Bytes): Bytes
    requires Persistable(ty)
    decreases ty, 0
  {
    match ty
    case Scalar(k) => s
    case Sized(k, size) => OptOnto(AsNat(size), s)
    case Decimal(precision, scale) => OptOnto(AsNat(precision), OptOnto(AsUnsigned(scale), s))
    case Enum(oid, name, labels) => HeaderOnto(oid, name, UintOnto(|labels|, 4, TextsOnto(labels, s)))
    case Composite(oid, name, fields) => HeaderOnto(oid, name, UintOnto(|fields|, 4, FieldsOnto(fields, s)))
    case Domain(oid, name, baseType, notNull) => HeaderOnto(oid, name, FlagOnto(notNull, TypeOnto(baseType, s)))
    case Range(r) => CodeOnto(RangeCode(r), s)
    case Geometry(g) => CodeOnto(GeometryCode(g), s)
    case Array(inner) => TypeOnto(inner, s)
  }

  predicate PersistableFields(fields: seq<TypeField>) {
    forall i :: 0 <= i < |fields| ==> ShortText(fields[i].name) && Persistable(fields[i].dataType)
  }

  function FieldsOnto(fields: seq<TypeField>, s: Bytes): Bytes
    requires PersistableFields(fields)
    decreases fields, 2
  {
    if fields == [] then s
    else TextOnto(fields[0].name, TypeOnto(fields[0].dataType, FieldsOnto(fields[1..], s)))
  }

  // ----- Decoding -----

  function ParseOptU32(b: Bytes): Parsed<Option<u32>> {
    PowerValues();
    var (v, rest) :- ParseOpt(b);
    OptCanonical(b);
    Ok((match v case None => None case Some(n) => Some(n), rest))
  }

  function ParseOptI32(b: Bytes): Parsed<Option<i32>> {
    PowerValues();
    var (v, rest) :- ParseOpt(b);
    OptCanonical(b);
    Ok((match v case None => None case Some(n) => Some(Signed(n, 4)), rest))
  }

  function ParseTexts(n: nat, b: Bytes): (r: Parsed<seq<Utf8>>)
    ensures r.Ok? ==> |r.value.0| == n && |r.value.1| <= |b|
  {
    if n == 0 then Ok(([], b))
    else
      var (t, rest) :- ParseText(b);
      var (ts, rest) :- ParseTexts(n - 1, rest);
      Ok(([t] + ts, rest))
  }

  /** A count of items, rejected at once when too few bytes are left for that many. */
  function ParseCount(b: Bytes, minWidth: nat): (r: Parsed<nat>)
    ensures r.Ok? ==> |r.value.1| <= |b|
  {
    var (n, rest) :- ParseUint(b, 4);
    if |rest| < n * minWidth then Err(UnexpectedEnd) else Ok((n, rest))
  }

  function ParseHeader(b: Bytes): (r: Parsed<(u32, Utf8)>)
    ensures r.Ok? ==> |r.value.1| <= |b|
  {
    PowerValues();
    var (oid, rest) :- ParseUint(b, 4);
    var (name, rest) :- ParseText(rest);
    Ok(((oid, name), rest))
  }

  function ParseDecimal(b: Bytes): Parsed<DataType> {
    var (precision, rest) :- ParseOptU32(b);
    var (scale, rest) :- ParseOptI32(rest);
    Ok((DataType.Decimal(precision, scale), rest))
  }

  function ParseEnum(b: Bytes): Parsed<DataType> {
    var ((oid, name), rest) :- ParseHeader(b);
    var (count, rest) :- ParseCount(rest, 4);
    var (labels, rest) :- ParseTexts(count, rest);
    Ok((Enum(oid, name, labels), rest))
  }

  function ParseRange(b: Bytes): Parsed<DataType> {
    if b == [] then Err(UnexpectedEnd)
    else if RangeAt(b[0] as int) == None then Err(InvalidTag(b[0]))
    else Ok((Range(RangeAt(b[0] as int).value), b[1..]))
  }

  function ParseGeometry(b: Bytes): Parsed<DataType> {
    if b == [] then Err(UnexpectedEnd)
    else if GeometryAt(b[0] as int) == None then Err(InvalidTag(b[0]))
    else Ok((Geometry(GeometryAt(b[0] as int).value), b[1..]))
  }

  function ParseType(b: Bytes): (r: Parsed<DataType>)
    ensures r.Ok? ==> |r.value.1| < |b|
    decreases |b|, 0
  {
    if b == [] then Err(UnexpectedEnd)
    else
      match TagAt(b[0] as int)
      case None => Err(InvalidTag(b[0]))
      case Some(tag) => ParseBody(tag, b[1..])
  }

  /** What follows a tag. */
  function ParseBody(tag: Tag, b: Bytes): (r: Parsed<DataType>)
    ensures r.Ok? ==> |r.value.1| <= |b|
    decreases |b|, 3
  {
    match tag
    case ScalarTag(k) => Ok((Scalar(k), b))
    case SizedTag(k) =>
      var (size, rest) :- ParseOptU32(b);
      Ok((Sized(k, size), rest))
    case DecimalTag => ParseDecimal(b)
    case EnumTag => ParseEnum(b)
    case CompositeTag => ParseComposite(b)
    case DomainTag => ParseDomain(b)
    case RangeTag => ParseRange(b)
    case GeometryTag => ParseGeometry(b)
    case ArrayTag =>
      var (inner, rest) :- ParseType(b);
      Ok((Array(inner), rest))
  }

  function ParseComposite(b: Bytes): (r: Parsed<DataType>)
    ensures r.Ok? ==> |r.value.1| <= |b|
    decreases |b|, 2
  {
    var ((oid, name), rest) :- ParseHeader(b);
    var (count, rest) :- ParseCount(rest, 5);
    var (fields, rest) :- ParseFields(count, rest);
    Ok((Composite(oid, name, fields), rest))
  }

  function ParseDomain(b: Bytes): (r: Parsed<DataType>)
    ensures r.Ok? ==> |r.value.1| <= |b|
    decreases |b|, 2
  {
    var ((oid, name), rest) :- ParseHeader(b);
    var (notNull, rest) :- ParseFlag(rest);
    var (baseType, rest) :- ParseType(rest);
    Ok((Domain(oid, name, baseType, notNull), rest))
  }

  function ParseFields(n: nat, b: Bytes): (r: Parsed<seq<TypeField>>)
    ensures r.Ok? ==> |r.value.0| == n && |r.value.1| <= |b|
    decreases |b|, 1
  {
    if n == 0 then Ok(([], b))
    else
      var (name, rest) :- ParseText(b);
      var (ty, rest) :- ParseType(rest);
      var (fields, rest) :- ParseFields(n - 1, rest);
      Ok(([TypeField(name, ty)] + fields, rest))
  }

  // ----- Decoding undoes encoding -----

  lemma OptU32RoundTrip(v: Option<u32>, s: Bytes)
    ensures ParseOptU32(OptOnto(AsNat(v), s)) == Ok((v, s))
  {
    PowerValues();
    OptRoundTrip(AsNat(v), s);
  }

  lemma OptI32RoundTrip(v: Option<i32>, s: Bytes)
    ensures ParseOptI32(OptOnto(AsUnsigned(v), s)) == Ok((v, s))
  {
    PowerValues();
    OptRoundTrip(AsUnsigned(v), s);
  }

  lemma HeaderRoundTrip(oid: u32, name: Utf8, s: Bytes)
    requires ShortText(name)
    ensures ParseHeader(HeaderOnto(oid, name, s)) == Ok(((oid, name), s))
  {
    PowerValues();
    UintRoundTrip(oid, 4, TextOnto(name, s));
    TextRoundTrip(name, s);
  }

  lemma CountRoundTrip(n: nat, minWidth: nat, s: Bytes)
    requires n <= U32_MAX && n * minWidth <= |s|
    ensures ParseCount(UintOnto(n, 4, s), minWidth) == Ok((n, s))
  {
    PowerValues();
    UintRoundTrip(n, 4, s);
  }

  lemma {:induction false} TextsRoundTrip(ts: seq<Utf8>, s: Bytes)
    requires forall i :: 0 <= i < |ts| ==> ShortText(ts[i])
    ensures ParseTexts(|ts|, TextsOnto(ts, s)) == Ok((ts, s))
    ensures 4 * |ts| + |s| <= |TextsOnto(ts, s)|
  {
    if ts != [] {
      TextRoundTrip(ts[0], TextsOnto(ts[1..], s));
      TextsRoundTrip(ts[1..], s);
      assert [ts[0]] + ts[1..] == ts;
    }
  }

  lemma CodeSplits(code: int, s: Bytes)
    requires 0 <= code < 256
    ensures var b := CodeOnto(code, s); b != [] && b[0] as int == code && b[1..] == s
  {
  }

  lemma EnumRoundTrip(oid: u32, name: Utf8, labels: seq<Utf8>, s: Bytes)
    requires ShortText(name) && ShortTexts(labels)
    ensures ParseBody(EnumTag, HeaderOnto(oid, name, UintOnto(|labels|, 4, TextsOnto(labels, s)))) ==
            Ok((Enum(oid, name, labels), s))
  {
    HeaderRoundTrip(oid, name, UintOnto(|labels|, 4, TextsOnto(labels, s)));
    TextsRoundTrip(labels, s);
    CountRoundTrip(|labels|, 4, TextsOnto(labels, s));
  }

  lemma DecimalRoundTrip(precision: Option<u32>, scale: Option<i32>, s: Bytes)
    ensures ParseBody(DecimalTag, OptOnto(AsNat(precision), OptOnto(AsUnsigned(scale), s)))
         == Ok((DataType.Decimal(precision, scale), s))
  {
    OptU32RoundTrip(precision, OptOnto(AsUnsigned(scale), s));
    OptI32RoundTrip(scale, s);
  }

  /** Decoding an encoded type followed by any bytes returns the type and exactly those bytes. */
  lemma {:induction false} TypeRoundTrip(ty: DataType, s: Bytes)
    requires Persistable(ty)
    ensures ParseType(TypeOnto(ty, s)) == Ok((ty, s))
    decreases ty, 1
  {
    CodeSplits(TagCode(TagOf(ty)), BodyOnto(ty, s));
    BodyRoundTrip(ty, s);
  }

  lemma {:induction false} BodyRoundTrip(ty: DataType, s: Bytes)
    requires Persistable(ty)
    ensures ParseBody(TagOf(ty), BodyOnto(ty, s)) == Ok((ty, s))
    decreases ty, 0
  {
    match ty
    case Scalar(_) =>
    case Sized(k, size) => SizedRoundTrip(k, size, s);
    case Decimal(precision, scale) => DecimalRoundTrip(precision, scale, s);
    case Enum(oid, name, labels) => EnumRoundTrip(oid, name, labels, s);
    case Composite(oid, name, fields) =>
      FieldsRoundTrip(fields, s);
      CompositeRoundTrip(oid, name, fields, s);
      CompositeDispatch(BodyOnto(ty, s));
    case Domain(oid, name, baseType, notNull) =>
      TypeRoundTrip(baseType, s);
      DomainRoundTrip(oid, name, baseType, notNull, s);
    case Range(r) => RangeRoundTrip(r, s);
    case Geometry(g) => GeometryRoundTrip(g, s);
    case Array(inner) =>
      TypeRoundTrip(inner, s);
      ArrayRoundTrip(inner, s);
  }

  lemma SizedRoundTrip(k: SizedKind, size: Option<u32>, s: Bytes)
    ensures ParseBody(SizedTag(k), OptOnto(AsNat(size), s)) == Ok((Sized(k, size), s))
  {
    OptU32RoundTrip(size, s);
  }

  lemma ArrayRoundTrip(inner: DataType, s: Bytes)
    requires Persistable(inner) && ParseType(TypeOnto(inner, s)) == Ok((inner, s))
    ensures ParseBody(ArrayTag, TypeOnto(inner, s)) == Ok((Array(inner), s))
  {
  }

  lemma RangeRoundTrip(r: RangeType, s: Bytes)
    ensures ParseBody(RangeTag, CodeOnto(RangeCode(r), s)) == Ok((Range(r), s))
  {
    CodeSplits(RangeCode(r), s);
  }

  lemma GeometryRoundTrip(g: GeometryType, s: Bytes)
    ensures ParseBody(GeometryTag, CodeOnto(GeometryCode(g), s)) == Ok((Geometry(g), s))
  {
    CodeSplits(GeometryCode(g), s);
  }

  lemma DomainRoundTrip(oid: u32, name: Utf8, baseType: DataType, notNull: bool, s: Bytes)
    requires ShortText(name) && Persistable(baseType) && ParseType(TypeOnto(baseType, s)) == Ok((baseType, s))
    ensures ParseBody(DomainTag, HeaderOnto(oid, name, FlagOnto(notNull, TypeOnto(baseType, s))))
         == Ok((Domain(oid, name, baseType, notNull), s))
  {
    DomainDispatch(HeaderOnto(oid, name, FlagOnto(notNull, TypeOnto(baseType, s))));
    DomainParses(oid, name, notNull, TypeOnto(baseType, s));
  }

  lemma DomainDispatch(b: Bytes)
    ensures ParseBody(DomainTag, b) == ParseDomain(b)
  {
  }

  lemma DomainParses(oid: u32, name: Utf8, notNull: bool, b: Bytes)
    requires ShortText(name)
    ensures ParseDomain(HeaderOnto(oid, name, FlagOnto(notNull, b))) ==
            match ParseType(b)
            case Err(e) => Err(e)
            case Ok((baseType, s)) => Ok((Domain(oid, name, baseType, notNull), s))
  {
    HeaderRoundTrip(oid, name, FlagOnto(notNull, b));
    FlagRoundTrip(notNull, b);
  }

  lemma CompositeDispatch(b: Bytes)
    ensures ParseBody(CompositeTag, b) == ParseComposite(b)
  {
  }

  lemma CompositeRoundTrip(oid: u32, name: Utf8, fields: seq<TypeField>, s: Bytes)
    requires ShortText(name) && |fields| <= U32_MAX && PersistableFields(fields)
    requires ParseFields(|fields|, FieldsOnto(fields, s)) == Ok((fields, s)) && 5 * |fields| <= |FieldsOnto(fields, s)|
    ensures ParseComposite(HeaderOnto(oid, name, UintOnto(|fields|, 4, FieldsOnto(fields, s))))
         == Ok((Composite(oid, name, fields), s))
  {
    HeaderRoundTrip(oid, name, UintOnto(|fields|, 4, FieldsOnto(fields, s)));
    CountRoundTrip(|fields|, 5, FieldsOnto(fields, s));
  }

  lemma {:induction false} FieldsRoundTrip(fields: seq<TypeField>, s: Bytes)
    requires PersistableFields(fields)
    ensures ParseFields(|fields|, FieldsOnto(fields, s)) == Ok((fields, s))
    ensures 5 * |fields| + |s| <= |FieldsOnto(fields, s)|
    decreases fields, 2
  {
    if fields != [] {
      var f, rest := fields[0], fields[1..];
      var tail := FieldsOnto(rest, s);
      TextRoundTrip(f.name, TypeOnto(f.dataType, tail));
      TypeRoundTrip(f.dataType, tail);
      FieldsRoundTrip(rest, s);
      FieldParses(f, rest, s);
      FieldIsWide(f, tail);
      ConsIsWhole(fields);
    }
  }

  lemma ConsIsWhole(fields: seq<TypeField>)
    requires fields != []
    ensures [fields[0]] + fields[1..] == fields
  {
  }

  lemma FieldIsWide(f: TypeField, tail: Bytes)
    requires ShortText(f.name) && Persistable(f.dataType)
    requires |tail| < |TypeOnto(f.dataType, tail)|
    ensures 5 + |tail| <= |TextOnto(f.name, TypeOnto(f.dataType, tail))|
  {
  }

  lemma FieldParses(f: TypeField, fields: seq<TypeField>, s: Bytes)
    requires ShortText(f.name) && Persistable(f.dataType) && PersistableFields(fields)
    requires var tail := FieldsOnto(fields, s);
             && ParseText(TextOnto(f.name, TypeOnto(f.dataType, tail))) == Ok((f.name, TypeOnto(f.dataType, tail)))
             && ParseType(TypeOnto(f.dataType, tail)) == Ok((f.dataType, tail))
             && ParseFields(|fields|, tail) == Ok((fields, s))
    ensures ParseFields(1 + |fields|, TextOnto(f.name, TypeOnto(f.dataType, FieldsOnto(fields, s)))) ==
            Ok(([f] + fields, s))
  {
  }

  // ----- Every decoded type re-encodes to the bytes it was read from -----

  lemma OptU32Canonical(b: Bytes)
    requires ParseOptU32(b).Ok?
    ensures b == OptOnto(AsNat(ParseOptU32(b).value.0), ParseOptU32(b).value.1)
  {
    OptCanonical(b);
  }

  lemma OptI32Canonical(b: Bytes)
    requires ParseOptI32(b).Ok?
    ensures b == OptOnto(AsUnsigned(ParseOptI32(b).value.0), ParseOptI32(b).value.1)
  {
    PowerValues();
    OptCanonical(b);
  }

  lemma HeaderCanonical(b: Bytes)
    requires ParseHeader(b).Ok?
    ensures var ((oid, name), s) := ParseHeader(b).value; ShortText(name) && b == HeaderOnto(oid, name, s)
  {
    UintCanonical(b, 4);
    TextCanonical(ParseUint(b, 4).value.1);
  }

  lemma CountCanonical(b: Bytes, minWidth: nat)
    requires ParseCount(b, minWidth).Ok?
    ensures var (n, s) := ParseCount(b, minWidth).value; n <= U32_MAX && b == UintOnto(n, 4, s)
  {
    PowerValues();
    UintCanonical(b, 4);
  }

  lemma {:induction false} TextsCanonical(n: nat, b: Bytes)
    requires ParseTexts(n, b).Ok?
    ensures var (ts, s) := ParseTexts(n, b).value;
            (forall i :: 0 <= i < |ts| ==> ShortText(ts[i])) && b == TextsOnto(ts, s)
  {
    if n > 0 {
      TextCanonical(b);
      var (t, rest) := ParseText(b).value;
      TextsCanonical(n - 1, rest);
      TextsOntoCons(t, ParseTexts(n - 1, rest).value.0, ParseTexts(n - 1, rest).value.1);
    }
  }

  lemma TextsOntoCons(t: Utf8, ts: seq<Utf8>, s: Bytes)
    ensures TextsOnto([t] + ts, s) == TextOnto(t, TextsOnto(ts, s))
  {
    assert ([t] + ts)[1..] == ts;
  }

  /** A successful decode consumed exactly the encoding of the type it returns. */
  lemma {:induction false} TypeCanonical(b: Bytes)
    requires ParseType(b).Ok?
    ensures var (ty, s) := ParseType(b).value; Persistable(ty) && b == TypeOnto(ty, s)
    decreases |b|, 0
  {
    BodyCanonical(TagAt(b[0] as int).value, b[1..]);
    TagAtIsExact(b[0] as int);
    assert b == CodeOnto(b[0] as int, b[1..]);
  }

  lemma {:induction false} BodyCanonical(tag: Tag, b: Bytes)
    requires ParseBody(tag, b).Ok?
    ensures var (ty, s) := ParseBody(tag, b).value; Persistable(ty) && tag == TagOf(ty) && b == BodyOnto(ty, s)
    decreases |b|, 3
  {
    match tag
    case ScalarTag(_) =>
    case SizedTag(_) => OptU32Canonical(b);
    case DecimalTag =>
      OptU32Canonical(b);
      OptI32Canonical(ParseOptU32(b).value.1);
    case EnumTag => EnumCanonical(b);
    case CompositeTag => CompositeCanonical(b);
    case DomainTag => DomainCanonical(b);
    case ArrayTag => TypeCanonical(b);
    case RangeTag => RangeCanonical(b);
    case GeometryTag => GeometryCanonical(b);
  }

  lemma RangeCanonical(b: Bytes)
    requires ParseRange(b).Ok?
    ensures var (ty, s) := ParseRange(b).value; ty.Range? && b == CodeOnto(RangeCode(ty.range), s)
  {
    assert b == CodeOnto(b[0] as int, b[1..]);
  }

  lemma GeometryCanonical(b: Bytes)
    requires ParseGeometry(b).Ok?
    ensures var (ty, s) := ParseGeometry(b).value; ty.Geometry? && b == CodeOnto(GeometryCode(ty.geometry), s)
  {
    assert b == CodeOnto(b[0] as int, b[1..]);
  }

  lemma EnumCanonical(b: Bytes)
    requires ParseEnum(b).Ok?
    ensures var (ty, s) := ParseEnum(b).value; ty.Enum? && Persistable(ty) && b == BodyOnto(ty, s)
  {
    HeaderCanonical(b);
    var rest := ParseHeader(b).value.1;
    CountCanonical(rest, 4);
    TextsCanonical(ParseCount(rest, 4).value.0, ParseCount(rest, 4).value.1);
  }

  lemma {:induction false} CompositeCanonical(b: Bytes)
    requires ParseComposite(b).Ok?
    ensures var (ty, s) := ParseComposite(b).value; ty.Composite? && Persistable(ty) && b == BodyOnto(ty, s)
    decreases |b|, 2
  {
    HeaderCanonical(b);
    var rest := ParseHeader(b).value.1;
    CountCanonical(rest, 5);
    var (n, rest2) := ParseCount(rest, 5).value;
    FieldsCanonical(n, rest2, ParseFields(n, rest2).value.0, ParseFields(n, rest2).value.1);
  }

  lemma {:induction false} DomainCanonical(b: Bytes)
    requires ParseDomain(b).Ok?
    ensures var (ty, s) := ParseDomain(b).value; ty.Domain? && Persistable(ty) && b == BodyOnto(ty, s)
    decreases |b|, 2
  {
    HeaderCanonical(b);
    var rest := ParseHeader(b).value.1;
    FlagCanonical(rest);
    TypeCanonical(ParseFlag(rest).value.1);
  }

  lemma {:induction false} FieldsCanonical(n: nat, b: Bytes, fields: seq<TypeField>, s: Bytes)
    requires ParseFields(n, b) == Ok((fields, s))
    ensures FieldsConsumed(b, fields, s)
    decreases |b|, 1
  {
    if n > 0 {
      var f, rest, more := FirstFieldCanonical(n, b, fields, s);
      FieldsCanonical(n - 1, rest, more, s);
      FieldConsumed(b, f, rest, more, s);
    } else {
      NoFieldsConsumed(b);
    }
  }

  lemma NoFieldsConsumed(b: Bytes)
    ensures FieldsConsumed(b, [], b)
  {
  }

  lemma FieldsUnfold(n: nat, b: Bytes, fields: seq<TypeField>, s: Bytes)
    returns (name: Utf8, rest: Bytes, ty: DataType, rest2: Bytes, more: seq<TypeField>)
    requires n > 0 && ParseFields(n, b) == Ok((fields, s))
    ensures ParseText(b) == Ok((name, rest)) && |rest| < |b|
    ensures ParseType(rest) == Ok((ty, rest2)) && |rest2| < |b|
    ensures ParseFields(n - 1, rest2) == Ok((more, s)) && fields == [TypeField(name, ty)] + more
  {
    name, rest := ParseText(b).value.0, ParseText(b).value.1;
    ty, rest2 := ParseType(rest).value.0, ParseType(rest).value.1;
    more := ParseFields(n - 1, rest2).value.0;
  }

  ghost predicate FieldsConsumed(b: Bytes, fields: seq<TypeField>, s: Bytes) {
    PersistableFields(fields) && b == FieldsOnto(fields, s)
  }

  ghost predicate StartsWithField(b: Bytes, f: TypeField, s: Bytes) {
    ShortText(f.name) && Persistable(f.dataType) && b == TextOnto(f.name, TypeOnto(f.dataType, s))
  }

  lemma {:induction false} FirstFieldCanonical(n: nat, b: Bytes, fields: seq<TypeField>, s: Bytes)
    returns (f: TypeField, rest: Bytes, more: seq<TypeField>)
    requires n > 0 && ParseFields(n, b) == Ok((fields, s))
    ensures StartsWithField(b, f, rest) && |rest| < |b|
    ensures ParseFields(n - 1, rest) == Ok((more, s)) && fields == [f] + more
    decreases |b|, 0, 1
  {
    var name, mid, ty, rest', more' := FieldsUnfold(n, b, fields, s);
    FieldCanonical(b, name, mid, ty, rest');
    f, rest, more := TypeField(name, ty), rest', more';
  }

  lemma {:induction false} FieldCanonical(b: Bytes, name: Utf8, rest: Bytes, ty: DataType, rest2: Bytes)
    requires ParseText(b) == Ok((name, rest)) && |rest| < |b| && ParseType(rest) == Ok((ty, rest2))
    ensures StartsWithField(b, TypeField(name, ty), rest2)
    decreases |b|, 0, 0
  {
    TextCanonical(b);
    TypeCanonical(rest);
  }

  lemma FieldConsumed(b: Bytes, f: TypeField, rest: Bytes, fields: seq<TypeField>, s: Bytes)
    requires StartsWithField(b, f, rest) && FieldsConsumed(rest, fields, s)
    ensures FieldsConsumed(b, [f] + fields, s)
  {
    FieldsOntoCons(f, fields, s);
  }

  lemma FieldsOntoCons(f: TypeField, fields: seq<TypeField>, s: Bytes)
    requires ShortText(f.name) && Persistable(f.dataType) && PersistableFields(fields)
    ensures PersistableFields([f] + fields)
    ensures FieldsOnto([f] + fields, s) == TextOnto(f.name, TypeOnto(f.dataType, FieldsOnto(fields, s)))
  {
    assert ([f] + fields)[1..] == fields;
  }

  // ----- An encoding onto some bytes is the encoding followed by those bytes -----

  lemma {:induction false} TextsAppend(ts: seq<Utf8>, s: Bytes, r: Bytes)
    ensures TextsOnto(ts, s + r) == TextsOnto(ts, s) + r
  {
    if ts != [] {
      TextsAppend(ts[1..], s, r);
      TextAppends(ts[0], TextsOnto(ts[1..], s), r);
    }
  }

  lemma HeaderAppends(oid: u32, name: Utf8, s: Bytes, r: Bytes)
    ensures HeaderOnto(oid, name, s + r) == HeaderOnto(oid, name, s) + r
  {
    TextAppends(name, s, r);
    UintAppends(oid, 4, TextOnto(name, s), r);
  }

  lemma {:induction false} TypeAppends(ty: DataType, s: Bytes, r: Bytes)
    requires Persistable(ty)
    ensures TypeOnto(ty, s + r) == TypeOnto(ty, s) + r
    decreases ty, 1
  {
    BodyAppends(ty, s, r);
  }

  lemma {:induction false} BodyAppends(ty: DataType, s: Bytes, r: Bytes)
    requires Persistable(ty)
    ensures BodyOnto(ty, s + r) == BodyOnto(ty, s) + r
    decreases ty, 0
  {
    match ty
    case Scalar(_) =>
    case Sized(_, size) => OptAppends(AsNat(size), s, r);
    case Decimal(precision, scale) =>
      OptAppends(AsUnsigned(scale), s, r);
      OptAppends(AsNat(precision), OptOnto(AsUnsigned(scale), s), r);
    case Enum(oid, name, labels) =>
      TextsAppend(labels, s, r);
      UintAppends(|labels|, 4, TextsOnto(labels, s), r);
      HeaderAppends(oid, name, UintOnto(|labels|, 4, TextsOnto(labels, s)), r);
    case Composite(oid, name, fields) =>
      FieldsAppend(fields, s, r);
      UintAppends(|fields|, 4, FieldsOnto(fields, s), r);
      HeaderAppends(oid, name, UintOnto(|fields|, 4, FieldsOnto(fields, s)), r);
    case Domain(oid, name, baseType, notNull) =>
      TypeAppends(baseType, s, r);
      HeaderAppends(oid, name, FlagOnto(notNull, TypeOnto(baseType, s)), r);
    case Range(_) =>
    case Geometry(_) =>
    case Array(inner) => TypeAppends(inner, s, r);
  }

  lemma {:induction false} FieldsAppend(fields: seq<TypeField>, s: Bytes, r: Bytes)
    requires PersistableFields(fields)
    ensures FieldsOnto(fields, s + r) == FieldsOnto(fields, s) + r
    decreases fields, 2
  {
    if fields != [] {
      var tail := FieldsOnto(fields[1..], s);
      FieldsAppend(fields[1..], s, r);
      TypeAppends(fields[0].dataType, tail, r);
      TextAppends(fields[0].name, TypeOnto(fields[0].dataType, tail), r);
    }
  }
}

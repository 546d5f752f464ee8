/** The bytes that data types and scalars are stored as (crates/ultrasql-catalog/src/encoding.rs). */
module TypeBytes {
  import opened Wrappers
  import opened Text
  import opened DataTypes
  import opened LittleEndian
  import opened CodecPrimitives
  import opened TypeCodec

  // ----- Scalars -----

  /** Byte `i` of a little-endian number weighs `256^i`. */
  lemma {:induction false} LittleEndianByte(n: nat, w: nat, i: nat)
    requires i < w
    ensures ToLE(n, w)[i] as int == (n / Pow256(i)) % 256
  {
    if i > 0 {
      LittleEndianByte(n / 256, w - 1, i - 1);
      DivideTwice(n, Pow256(i - 1));
    }
  }

  lemma DivideTwice(n: nat, p: nat)
    requires p > 0
    ensures n / 256 / p == n / (256 * p)
  {
    var q, r := n / 256, n % 256;
    var q', r' := q / p, q % p;
    assert n == 256 * (p * q' + r') + r;
    assert n == (256 * p) * q' + (256 * r' + r) by { assert 256 * (p * q') == (256 * p) * q'; }
    assert 0 <= 256 * r' + r < 256 * p;
    QuotientIs(n, 256 * p, q', 256 * r' + r);
  }

  lemma QuotientIs(n: nat, d: nat, q: nat, r: nat)
    requires d > 0 && n == d * q + r && r < d
    ensures n / d == q
  {
    var k := n / d - q;
    assert d * k == d * (n / d) - d * q == r - n % d;
    Small(d, k);
  }

  lemma Small(d: nat, k: int)
    requires 0 - d < d * k < d
    ensures k == 0
  {
    assert k >= 1 ==> d * k >= d;
    assert k <= -1 ==> d * k <= 0 - d;
  }

  /** A negative number is stored as its two's complement. */
  lemma SignedBytes(n: int, w: nat, s: Bytes)
    requires FitsInt(n, w)
    ensures IntOnto(n, w, s) == ToLE(if n < 0 then Pow256(w) + n else n, w) + s
  {
  }

  /** Flags are one byte, texts a byte length and their bytes, optional numbers a flag and the number. */
  lemma ScalarBytes(b: bool, t: Utf8, n: u32, s: Bytes)
    ensures FlagOnto(true, s) == [1 as char] + s && FlagOnto(false, s) == [0 as char] + s
    ensures TextOnto(t, s) == ToLE(|t|, 4) + (t + s)
    ensures OptOnto(None, s) == [0 as char] + s && OptOnto(Some(n), s) == [1 as char] + (ToLE(n, 4) + s)
  {
  }

  // ----- Types -----

  /** The tag byte `tag`, then `body`. */
  predicate Stored(ty: DataType, tag: int, body: Bytes, s: Bytes)
    requires 0 <= tag < 256
  {
    Persistable(ty) && TypeOnto(ty, s) == [tag as char] + body
  }

  const SCALAR_TAGS: set<(ScalarKind, int)> := {
    (Bool, 0x01), (Int16, 0x02), (Int32, 0x03), (Int64, 0x04), (Float32, 0x05), (Float64, 0x06), (Bytea, 0x09),
    (Timestamp, 0x0a), (TimestampTz, 0x0b), (Date, 0x0c), (Time, 0x0d), (Interval, 0x0e), (Uuid, 0x0f), (Jsonb, 0x10),
    (NullType, 0x11), (Money, 0x19), (TimeTz, 0x1b), (Inet, 0x1e), (Cidr, 0x1f), (MacAddr, 0x20), (MacAddr8, 0x21),
    (Json, 0x22), (OidType, 0x26), (RegClass, 0x27), (RegType, 0x28), (PgLsn, 0x29), (Xml, 0x2a), (TsVector, 0x2b),
    (TsQuery, 0x2c) }

  lemma ScalarCodes(k: ScalarKind, tag: int)
    ensures (k, tag) in SCALAR_TAGS <==> ScalarCode(k) == tag
  {
  }

  /** Every type without a parameter is one tag byte. */
  lemma ScalarTypeBytes(k: ScalarKind, tag: int, s: Bytes)
    requires 0 <= tag < 256
    ensures Stored(Scalar(k), tag, s, s) <==> (k, tag) in SCALAR_TAGS
  {
    ScalarCodes(k, tag);
    assert TypeOnto(Scalar(k), s)[0] as int == ScalarCode(k);
  }

  lemma SizedTypeBytes(size: Option<u32>, scale: Option<i32>, s: Bytes)
    ensures var body := OptOnto(AsNat(size), s);
            && Stored(Sized(SizedKind.Text, size), 0x08, body, s) && Stored(Sized(Char, size), 0x1a, body, s)
            && Stored(Sized(Bit, size), 0x1c, body, s) && Stored(Sized(VarBit, size), 0x1d, body, s)
            && Stored(Sized(Vector, size), 0x15, body, s) && Stored(Sized(HalfVec, size), 0x16, body, s)
            && Stored(Sized(SparseVec, size), 0x17, body, s) && Stored(Sized(BitVec, size), 0x18, body, s)
    ensures Stored(Decimal(size, scale), 0x07, OptOnto(AsNat(size), OptOnto(AsUnsigned(scale), s)), s)
  {
  }

  const RANGES: seq<RangeType> := [Int4Range, Int8Range, NumRange, DateRange, TsRange, TsTzRange]
  const GEOMETRIES: seq<GeometryType> := [Point, Box, Circle, Line, Lseg, Path, Polygon]

  /** Range and geometric types are a tag and their number, counted from one. */
  lemma RangeTypeBytes(i: nat, s: Bytes)
    requires i < |RANGES|
    ensures Stored(Range(RANGES[i]), 0x12, [(i + 1) as char] + s, s)
  {
  }

  lemma GeometryTypeBytes(i: nat, s: Bytes)
    requires i < |GEOMETRIES|
    ensures Stored(Geometry(GEOMETRIES[i]), 0x13, [(i + 1) as char] + s, s)
  {
  }

  /** Named types hold their OID, their name and their parts. */
  lemma EnumTypeBytes(oid: u32, name: Utf8, labels: seq<Utf8>, s: Bytes)
    requires Persistable(Enum(oid, name, labels))
    ensures Stored(Enum(oid, name, labels), 0x23,
      UintOnto(oid, 4, TextOnto(name, UintOnto(|labels|, 4, TextsOnto(labels, s)))), s)
  {
  }

  lemma CompositeTypeBytes(oid: u32, name: Utf8, fields: seq<TypeField>, s: Bytes)
    requires Persistable(Composite(oid, name, fields))
    ensures Stored(Composite(oid, name, fields), 0x24,
      UintOnto(oid, 4, TextOnto(name, UintOnto(|fields|, 4, FieldsOnto(fields, s)))), s)
  {
  }

  lemma DomainTypeBytes(oid: u32, name: Utf8, baseType: DataType, notNull: bool, s: Bytes)
    requires ShortText(name) && Persistable(baseType)
    ensures Stored(Domain(oid, name, baseType, notNull), 0x25,
      UintOnto(oid, 4, TextOnto(name, FlagOnto(notNull, TypeOnto(baseType, s)))), s)
  {
  }

  lemma ArrayTypeBytes(inner: DataType, s: Bytes)
    requires Persistable(inner)
    ensures Stored(Array(inner), 0x14, TypeOnto(inner, s), s)
  {
  }
}

/**
 SQL data types, columns and schemas (crates/ultrasql-core/src/types.rs and schema.rs), and the
 UTF-8 text they carry.
 */
module DataTypes {
  import opened Wrappers
  import opened Text

  predicate Within(b: byte, lo: int, hi: int) {
    lo <= b as int <= hi
  }

  /** The length of the well-formed UTF-8 sequence at the front of `s`, or 0 if there is none. */
  function ScalarLength(s: seq<byte>): (n: nat)
    ensures n <= |s| && n <= 4
  {
    if |s| >= 1 && Within(s[0], 0x00, 0x7F) then 1
    else if |s| >= 2 && Within(s[0], 0xC2, 0xDF) && Within(s[1], 0x80, 0xBF) then 2
    else if |s| >= 3 && Within(s[0], 0xE0, 0xEF) && Within(s[2], 0x80, 0xBF)
      && Within(s[1], if s[0] as int == 0xE0 then 0xA0 else 0x80, if s[0] as int == 0xED then 0x9F else 0xBF) then 3
    else if |s| >= 4 && Within(s[0], 0xF0, 0xF4) && Within(s[2], 0x80, 0xBF) && Within(s[3], 0x80, 0xBF)
      && Within(s[1], if s[0] as int == 0xF0 then 0x90 else 0x80, if s[0] as int == 0xF4 then 0x8F else 0xBF) then 4
    else 0
  }

  predicate ValidUtf8(s: seq<byte>) {
    s == [] || (ScalarLength(s) > 0 && ValidUtf8(s[ScalarLength(s)..]))
  }

  lemma {:induction false} AsciiIsUtf8(s: seq<byte>)
    requires forall i :: 0 <= i < |s| ==> s[i] as int < 0x80
    ensures ValidUtf8(s)
  {
    if s != [] {
      assert ScalarLength(s) == 1;
      AsciiIsUtf8(s[1..]);
    }
  }

  type Utf8 = s: seq<byte> | ValidUtf8(s) witness []

  /** One Unicode scalar value, as its UTF-8 bytes: what `decode_single_char` accepts. */
  predicate IsScalar(s: seq<byte>) {
    s != [] && ScalarLength(s) == |s|
  }

  /** The types without a parameter. */
  datatype ScalarKind =
    | Bool | Int16 | Int32 | Int64 | Float32 | Float64 | Money | OidType | RegClass | RegType | PgLsn
    | Inet | Cidr | MacAddr | MacAddr8 | Bytea | Timestamp | TimestampTz | Date | Time | TimeTz
    | Interval | Uuid | Json | Jsonb | Xml | TsVector | TsQuery | NullType

  /** The types with one optional size. */
  datatype SizedKind = Text | Char | Bit | VarBit | Vector | HalfVec | SparseVec | BitVec

  datatype RangeType = Int4Range | Int8Range | NumRange | DateRange | TsRange | TsTzRange

  datatype GeometryType = Point | Box | Circle | Line | Lseg | Path | Polygon

  /** A named component of a composite or record type. */
  datatype TypeField = TypeField(name: Utf8, dataType: DataType)

  datatype DataType =
    | Scalar(scalar: ScalarKind)
    | Sized(sized: SizedKind, size: Option<u32>)
    | Decimal(precision: Option<u32>, scale: Option<i32>)
    | Enum(oid: u32, name: Utf8, labels: seq<Utf8>)
    | Composite(oid: u32, name: Utf8, fields: seq<TypeField>)
    | Domain(oid: u32, name: Utf8, baseType: DataType, notNull: bool)
    | Range(range: RangeType)
    | Geometry(geometry: GeometryType)
    | Array(inner: DataType)
    | Record(fields: seq<TypeField>)

  datatype Field = Field(name: string, dataType: DataType, nullable: bool)

  /** No two columns share a name once `lower`, the Unicode lower-casing, is applied. */
  predicate DistinctNames(fields: seq<Field>, lower: string -> string) {
    forall i, j :: 0 <= i < j < |fields| ==> lower(fields[i].name) != lower(fields[j].name)
  }

  datatype Schema = Schema(fields: seq<Field>)

  /** `Schema::new`: fails on a duplicate column name. */
  function NewSchema(fields: seq<Field>, lower: string -> string): Option<Schema> {
    if DistinctNames(fields, lower) then Some(Schema(fields)) else None
  }
}

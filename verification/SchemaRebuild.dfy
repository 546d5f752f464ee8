/**
 Rebuilding a table schema from its stored `pg_attribute` rows
 (`schema_from_attributes` in crates/ultrasql-catalog/src/encoding.rs).
 */
module SchemaRebuild {
  import opened Wrappers
  import opened DataTypes
  import opened CodecPrimitives
  import opened RowCodec

  type Column = r: Row | r.ColumnRow?
    witness ColumnRow(AttributeRow(0, [], 0, 0, false, false, false), Scalar(Bool), false)

  function Attnum(c: Column): int {
    c.attribute.attnum
  }

  predicate Live(c: Column) {
    !c.attribute.attisdropped
  }

  /** Puts a column after those with its attnum or a smaller one, keeping the order stable. */
  function Insert(c: Column, cs: seq<Column>): seq<Column> {
    if cs == [] || Attnum(cs[|cs| - 1]) <= Attnum(c) then cs + [c]
    else Insert(c, cs[..|cs| - 1]) + [cs[|cs| - 1]]
  }

  /** The stable sort by attnum. */
  function SortByAttnum(cs: seq<Column>): seq<Column> {
    if cs == [] then [] else Insert(cs[|cs| - 1], SortByAttnum(cs[..|cs| - 1]))
  }

  function LiveOnly(cs: seq<Column>): seq<Column> {
    if cs == [] then [] else (if Live(cs[0]) then [cs[0]] else []) + LiveOnly(cs[1..])
  }

  function FieldOf(c: Column): Field {
    Field(c.attribute.attname, c.dataType, c.nullable)
  }

  function FieldsOf(cs: seq<Column>): seq<Field> {
    seq(|cs|, i requires 0 <= i < |cs| => FieldOf(cs[i]))
  }

  /** Sorts by attnum, drops the dropped columns and builds the schema; fails on duplicate names. */
  function SchemaFromAttributes(cs: seq<Column>, lower: string -> string): Option<Schema> {
    NewSchema(FieldsOf(LiveOnly(SortByAttnum(cs))), lower)
  }

  predicate Sorted(cs: seq<Column>) {
    forall i, j :: 0 <= i < j < |cs| ==> Attnum(cs[i]) <= Attnum(cs[j])
  }

  predicate Increasing(cs: seq<Column>) {
    forall i, j :: 0 <= i < j < |cs| ==> Attnum(cs[i]) < Attnum(cs[j])
  }

  lemma {:induction false} InsertElements(c: Column, cs: seq<Column>)
    ensures multiset(Insert(c, cs)) == multiset(cs) + multiset{c}
  {
    if cs != [] && Attnum(cs[|cs| - 1]) > Attnum(c) {
      InsertElements(c, cs[..|cs| - 1]);
      assert cs == cs[..|cs| - 1] + [cs[|cs| - 1]];
    }
  }

  lemma {:induction false} InsertSorts(c: Column, cs: seq<Column>)
    requires Sorted(cs)
    ensures Sorted(Insert(c, cs))
  {
    if cs != [] && Attnum(cs[|cs| - 1]) > Attnum(c) {
      var front, last := cs[..|cs| - 1], cs[|cs| - 1];
      var inserted := Insert(c, front);
      InsertSorts(c, front);
      InsertElements(c, front);
      forall i | 0 <= i < |inserted| ensures Attnum(inserted[i]) <= Attnum(last) {
        assert inserted[i] in multiset(inserted);
        assert inserted[i] == c || inserted[i] in front;
      }
    }
  }

  /** The columns with one attnum, in order. */
  function WithAttnum(cs: seq<Column>, n: int): seq<Column> {
    if cs == [] then []
    else WithAttnum(cs[..|cs| - 1], n) + if Attnum(cs[|cs| - 1]) == n then [cs[|cs| - 1]] else []
  }

  lemma {:induction false} InsertIsStable(c: Column, cs: seq<Column>, n: int)
    ensures WithAttnum(Insert(c, cs), n) == WithAttnum(cs, n) + if Attnum(c) == n then [c] else []
  {
    var inserted := Insert(c, cs);
    if cs == [] || Attnum(cs[|cs| - 1]) <= Attnum(c) {
      assert inserted[..|inserted| - 1] == cs;
    } else {
      assert inserted[..|inserted| - 1] == Insert(c, cs[..|cs| - 1]);
      InsertIsStable(c, cs[..|cs| - 1], n);
    }
  }

  /** Columns with equal attnums keep their order. */
  lemma {:induction false} SortIsStable(cs: seq<Column>, n: int)
    ensures WithAttnum(SortByAttnum(cs), n) == WithAttnum(cs, n)
  {
    if cs != [] {
      SortIsStable(cs[..|cs| - 1], n);
      InsertIsStable(cs[|cs| - 1], SortByAttnum(cs[..|cs| - 1]), n);
    }
  }

  lemma {:induction false} SortedIsSorted(cs: seq<Column>)
    ensures Sorted(SortByAttnum(cs))
  {
    if cs != [] {
      SortedIsSorted(cs[..|cs| - 1]);
      InsertSorts(cs[|cs| - 1], SortByAttnum(cs[..|cs| - 1]));
    }
  }

  lemma {:induction false} SortElements(cs: seq<Column>)
    ensures multiset(SortByAttnum(cs)) == multiset(cs)
  {
    if cs != [] {
      SortElements(cs[..|cs| - 1]);
      InsertElements(cs[|cs| - 1], SortByAttnum(cs[..|cs| - 1]));
      SnocElements(cs[..|cs| - 1], cs[|cs| - 1]);
      assert cs == cs[..|cs| - 1] + [cs[|cs| - 1]];
    }
  }

  lemma SnocElements(cs: seq<Column>, c: Column)
    ensures multiset(cs + [c]) == multiset(cs) + multiset{c}
  {
  }

  /** A stable sort: sorted, the same columns, and those with equal attnums in their old order. */
  lemma SortSorts(cs: seq<Column>)
    ensures Sorted(SortByAttnum(cs)) && multiset(SortByAttnum(cs)) == multiset(cs)
    ensures forall n :: WithAttnum(SortByAttnum(cs), n) == WithAttnum(cs, n)
  {
    SortedIsSorted(cs);
    SortElements(cs);
    forall n ensures WithAttnum(SortByAttnum(cs), n) == WithAttnum(cs, n) {
      SortIsStable(cs, n);
    }
  }

  lemma {:induction false} LiveOnlyKeeps(cs: seq<Column>, c: Column)
    ensures multiset(LiveOnly(cs))[c] == if Live(c) then multiset(cs)[c] else 0
  {
    if cs != [] {
      LiveOnlyKeeps(cs[1..], c);
      assert cs == [cs[0]] + cs[1..];
      assert LiveOnly(cs) == (if Live(cs[0]) then [cs[0]] else []) + LiveOnly(cs[1..]);
    }
  }

  lemma {:induction false} LiveOnlyIn(cs: seq<Column>, c: Column)
    requires c in LiveOnly(cs)
    ensures c in cs
  {
    if c != cs[0] {
      LiveOnlyIn(cs[1..], c);
    }
  }

  lemma {:induction false} LiveOnlySorted(cs: seq<Column>)
    requires Sorted(cs)
    ensures Sorted(LiveOnly(cs))
  {
    if cs != [] {
      LiveOnlySorted(cs[1..]);
      forall i | 0 <= i < |LiveOnly(cs[1..])| ensures Attnum(cs[0]) <= Attnum(LiveOnly(cs[1..])[i]) {
        LiveOnlyIn(cs[1..], LiveOnly(cs[1..])[i]);
      }
    }
  }

  lemma TailElements(cs: seq<Column>)
    requires cs != []
    ensures multiset(cs[1..]) == multiset(cs) - multiset{cs[0]}
  {
    assert cs == [cs[0]] + cs[1..];
  }

  lemma HeadsAgree(a: seq<Column>, b: seq<Column>)
    requires a != [] && b != [] && Sorted(a) && Increasing(b) && multiset(a) == multiset(b)
    ensures a[0] == b[0]
  {
    assert a[0] in multiset(b) && b[0] in multiset(a);
    var i :| 0 <= i < |b| && b[i] == a[0];
    var j :| 0 <= j < |a| && a[j] == b[0];
  }

  /** A strictly increasing list is the only sorted arrangement of its elements. */
  lemma {:induction false} SortedIsUnique(a: seq<Column>, b: seq<Column>)
    requires Sorted(a) && Increasing(b) && multiset(a) == multiset(b)
    ensures a == b
  {
    assert |a| == |multiset(a)| == |b|;
    if b != [] {
      HeadsAgree(a, b);
      TailElements(a);
      TailElements(b);
      SortedIsUnique(a[1..], b[1..]);
    }
  }

  /** However the rows were stored, and whatever dropped columns lie among them, the live columns come back in order. */
  lemma LiveColumnsComeBack(stored: seq<Column>, live: seq<Column>, dropped: seq<Column>)
    requires multiset(stored) == multiset(live) + multiset(dropped)
    requires Increasing(live) && (forall i :: 0 <= i < |live| ==> Live(live[i]))
    requires forall i :: 0 <= i < |dropped| ==> !Live(dropped[i])
    ensures LiveOnly(SortByAttnum(stored)) == live
  {
    var sorted := SortByAttnum(stored);
    SortSorts(stored);
    LiveOnlySorted(sorted);
    forall c: Column ensures multiset(LiveOnly(sorted))[c] == multiset(live)[c] {
      LiveOnlyKeeps(sorted, c);
      assert c in multiset(live) ==> c in live;
      assert c in multiset(dropped) ==> c in dropped;
    }
    SortedIsUnique(LiveOnly(sorted), live);
  }

  /** Decodes rows one by one; fails on the first that cannot be decoded. */
  function DecodeEach<T>(decode: Bytes -> Result<T, DecodeError>, rows: seq<Bytes>): Result<seq<T>, DecodeError> {
    if rows == [] then Ok([])
    else
      var x :- decode(rows[0]);
      var rest :- DecodeEach(decode, rows[1..]);
      Ok([x] + rest)
  }

  lemma {:induction false} DecodeEachUndoes<T>(
    decode: Bytes -> Result<T, DecodeError>, xs: seq<T>, rows: seq<Bytes>)
    requires |rows| == |xs| && forall i :: 0 <= i < |xs| ==> decode(rows[i]) == Ok(xs[i])
    ensures DecodeEach(decode, rows) == Ok(xs)
  {
    if xs != [] {
      DecodeEachUndoes(decode, xs[1..], rows[1..]);
      assert [xs[0]] + xs[1..] == xs;
    }
  }

  function DecodeColumn(row: Bytes): Result<Column, DecodeError> {
    var r :- Decode(PgAttribute, row);
    RowDecodesIff(PgAttribute, row, r);
    Ok(r)
  }

  function DecodeAll(rows: seq<Bytes>): Result<seq<Column>, DecodeError> {
    DecodeEach(DecodeColumn, rows)
  }

  /** The row holds the encoding of the column. */
  predicate Stores(row: Bytes, c: Column) {
    Encode(c) == Ok(row)
  }

  predicate AllStored(rows: seq<Bytes>, cs: seq<Column>) {
    |rows| == |cs| && forall i :: 0 <= i < |cs| ==> Stores(rows[i], cs[i])
  }

  lemma DecodeUndoes(c: Column, row: Bytes)
    requires Stores(row, c)
    ensures DecodeColumn(row) == Ok(c)
  {
    RowDecodesIff(PgAttribute, row, c);
  }

  lemma DecodeAllUndoes(cs: seq<Column>, rows: seq<Bytes>)
    requires AllStored(rows, cs)
    ensures DecodeAll(rows) == Ok(cs)
  {
    forall i | 0 <= i < |cs| ensures DecodeColumn(rows[i]) == Ok(cs[i]) {
      DecodeUndoes(cs[i], rows[i]);
    }
    DecodeEachUndoes(DecodeColumn, cs, rows);
  }

  /** The columns carry the names, types and nullability of the fields, in order. */
  predicate Describe(columns: seq<Column>, fields: seq<Field>) {
    |columns| == |fields| && forall i :: 0 <= i < |fields| ==>
      && columns[i].attribute.attname == fields[i].name
      && columns[i].dataType == fields[i].dataType && columns[i].nullable == fields[i].nullable
  }

  /**
   Encode the columns of a schema in attnum order, add any dropped columns, store the rows in any
   order: decoding them and rebuilding gives the schema back.
   */
  lemma StoredSchemaComesBack(
    schema: Schema, columns: seq<Column>, dropped: seq<Column>, stored: seq<Column>, rows: seq<Bytes>,
    lower: string -> string)
    requires Describe(columns, schema.fields) && DistinctNames(schema.fields, lower)
    requires Increasing(columns) && (forall i :: 0 <= i < |columns| ==> Live(columns[i]))
    requires forall i :: 0 <= i < |dropped| ==> !Live(dropped[i])
    requires multiset(stored) == multiset(columns) + multiset(dropped)
    requires AllStored(rows, stored)
    ensures DecodeAll(rows) == Ok(stored)
    ensures SchemaFromAttributes(DecodeAll(rows).value, lower) == Some(schema)
  {
    DecodeAllUndoes(stored, rows);
    LiveColumnsComeBack(stored, columns, dropped);
    assert FieldsOf(columns) == schema.fields;
  }
}

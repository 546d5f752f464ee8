/** Column type inference (crates/ultrasql-core/src/csv.rs). */
module CsvInference {
  import opened Wrappers
  import opened Text
  import opened CsvParser

  datatype CsvType = Boolean | BigInt | Double | Date | Timestamp | PlainText

  /** What the standard library decides: trimming white space, and parsing `i64` and finite `f64`. */
  datatype Rules = Rules(trim: string -> string, isInt: string -> bool, isFinite: string -> bool) {
    /** Text that parses as a 64-bit integer parses as a finite float too. */
    ghost predicate Sound() {
      forall s :: isInt(s) ==> isFinite(s)
    }
  }

  predicate IsBool(s: string) {
    Fold(s) == "true" || Fold(s) == "t" || Fold(s) == "false" || Fold(s) == "f"
  }

  predicate DigitsAt(s: string, from: nat, to: nat)
    requires to <= |s|
  {
    forall i :: from <= i < to ==> IsDigit(s[i])
  }

  /** `YYYY-MM-DD`. */
  predicate IsIsoDate(s: string) {
    |s| == 10 && s[4] == '-' && s[7] == '-' && DigitsAt(s, 0, 4) && DigitsAt(s, 5, 7) && DigitsAt(s, 8, 10)
  }

  /** A date, a space or a `T`, and a text that starts with `HH:MM:SS`. */
  predicate IsIsoTimestamp(s: string) {
    var parts := if SplitOnce(s, ' ').Some? then SplitOnce(s, ' ') else SplitOnce(s, 'T');
    match parts
    case None => false
    case Some((date, time)) =>
      && IsIsoDate(date)
      && |time| >= 8 && time[2] == ':' && time[5] == ':'
      && DigitsAt(time, 0, 2) && DigitsAt(time, 3, 5) && DigitsAt(time, 6, 8)
  }

  function InferCell(rules: Rules, cell: string): Option<CsvType> {
    var s := rules.trim(cell);
    if s == "" then None
    else if IsBool(s) then Some(Boolean)
    else if rules.isInt(s) then Some(BigInt)
    else if rules.isFinite(s) then Some(Double)
    else if IsIsoTimestamp(s) then Some(Timestamp)
    else if IsIsoDate(s) then Some(Date)
    else Some(PlainText)
  }

  predicate Compatible(rules: Rules, cell: string, ty: CsvType) {
    var s := rules.trim(cell);
    s == "" ||
    match ty
    case Boolean => IsBool(s)
    case BigInt => rules.isInt(s)
    case Double => rules.isFinite(s)
    case Date => IsIsoDate(s)
    case Timestamp => IsIsoTimestamp(s) || IsIsoDate(s)
    case PlainText => true
  }

  function Merge(current: Option<CsvType>, next: CsvType): CsvType {
    match current
    case None => next
    case Some(t) =>
      if t == PlainText || next == PlainText then PlainText
      else if t == next then t
      else if (t == BigInt && next == Double) || (t == Double && next == BigInt) then Double
      else if (t == Date && next == Timestamp) || (t == Timestamp && next == Date) then Timestamp
      else PlainText
  }

  // ----- Merging is a join -----

  /** Every value of type `a` can be read as one of type `b`. */
  predicate Below(a: CsvType, b: CsvType) {
    a == b || b == PlainText || (a == BigInt && b == Double) || (a == Date && b == Timestamp)
  }

  lemma BelowIsAPartialOrder(a: CsvType, b: CsvType, c: CsvType)
    ensures Below(a, a)
    ensures Below(a, b) && Below(b, a) ==> a == b
    ensures Below(a, b) && Below(b, c) ==> Below(a, c)
  {
  }

  /** The merge of two types is their least upper bound. */
  lemma MergeIsLeastUpperBound(a: CsvType, b: CsvType)
    ensures Below(a, Merge(Some(a), b)) && Below(b, Merge(Some(a), b))
    ensures forall c :: Below(a, c) && Below(b, c) ==> Below(Merge(Some(a), b), c)
  {
  }

  function MergeCell(rules: Rules, before: Option<CsvType>, row: Record, col: nat): Option<CsvType> {
    if col < |row| && InferCell(rules, row[col]).Some? then Some(Merge(before, InferCell(rules, row[col]).value))
    else before
  }

  /** Merging the cells of a column from the top. */
  function MergeColumn(rules: Rules, rows: seq<Record>, col: nat): Option<CsvType> {
    if rows == [] then None
    else
      MergeCell(rules, MergeColumn(rules, rows[..|rows| - 1], col), rows[|rows| - 1], col)
  }

  /** The type reported for a column; a column without typed cells is text. */
  function ColumnType(rules: Rules, rows: seq<Record>, col: nat): CsvType {
    match MergeColumn(rules, rows, col)
    case None => PlainText
    case Some(t) => t
  }

  function ColumnTypes(rules: Rules, rows: seq<Record>, width: nat): seq<CsvType> {
    seq(width, col requires 0 <= col < width => ColumnType(rules, rows, col))
  }

  /** Some row has a cell of type `t` in the column. */
  ghost predicate Occurs(rules: Rules, rows: seq<Record>, col: nat, t: CsvType) {
    exists i :: 0 <= i < |rows| && col < |rows[i]| && InferCell(rules, rows[i][col]) == Some(t)
  }

  /** `t` is the least type above all that occur in the column. */
  ghost predicate IsJoin(rules: Rules, rows: seq<Record>, col: nat, t: CsvType) {
    && (forall u :: Occurs(rules, rows, col, u) ==> Below(u, t))
    && (forall c :: (forall u :: Occurs(rules, rows, col, u) ==> Below(u, c)) ==> Below(t, c))
  }

  lemma OccursSnoc(rules: Rules, rows: seq<Record>, row: Record, col: nat, t: CsvType)
    ensures Occurs(rules, rows + [row], col, t) <==>
            Occurs(rules, rows, col, t) || (col < |row| && InferCell(rules, row[col]) == Some(t))
  {
    var all := rows + [row];
    if Occurs(rules, rows, col, t) {
      var i :| 0 <= i < |rows| && col < |rows[i]| && InferCell(rules, rows[i][col]) == Some(t);
      assert all[i] == rows[i];
    }
    if col < |row| && InferCell(rules, row[col]) == Some(t) {
      assert all[|rows|] == row;
    }
  }

  /** The merged type is the join of the types in the column, and there is one as soon as a typed cell occurs. */
  lemma {:induction false} MergeColumnIsJoin(rules: Rules, rows: seq<Record>, col: nat)
    ensures MergeColumn(rules, rows, col).None? <==> forall u :: !Occurs(rules, rows, col, u)
    ensures MergeColumn(rules, rows, col).Some? ==> IsJoin(rules, rows, col, MergeColumn(rules, rows, col).value)
  {
    if rows != [] {
      var before, row := rows[..|rows| - 1], rows[|rows| - 1];
      assert rows == before + [row];
      MergeColumnIsJoin(rules, before, col);
      forall u ensures Occurs(rules, rows, col, u) <==>
                       Occurs(rules, before, col, u) || (col < |row| && InferCell(rules, row[col]) == Some(u))
      {
        OccursSnoc(rules, before, row, col, u);
      }
      if col < |row| && InferCell(rules, row[col]).Some? && MergeColumn(rules, before, col).Some? {
        MergeIsLeastUpperBound(MergeColumn(rules, before, col).value, InferCell(rules, row[col]).value);
      }
    }
  }

  /** Column types depend on which rows there are, not on their order or number. */
  lemma RowOrderDoesNotMatter(rules: Rules, rows: seq<Record>, rows': seq<Record>, width: nat)
    requires forall r :: r in rows <==> r in rows'
    ensures ColumnTypes(rules, rows, width) == ColumnTypes(rules, rows', width)
  {
    forall col | 0 <= col < width ensures ColumnType(rules, rows, col) == ColumnType(rules, rows', col) {
      SameRowsSameType(rules, rows, rows', col);
    }
  }

  lemma SameRowsSameType(rules: Rules, rows: seq<Record>, rows': seq<Record>, col: nat)
    requires forall r :: r in rows <==> r in rows'
    ensures ColumnType(rules, rows, col) == ColumnType(rules, rows', col)
  {
    MergeColumnIsJoin(rules, rows, col);
    MergeColumnIsJoin(rules, rows', col);
    forall t ensures Occurs(rules, rows, col, t) <==> Occurs(rules, rows', col, t) {
      OccursIn(rules, rows, rows', col, t);
      OccursIn(rules, rows', rows, col, t);
    }
    if MergeColumn(rules, rows, col).Some? && MergeColumn(rules, rows', col).Some? {
      BelowIsAPartialOrder(ColumnType(rules, rows, col), ColumnType(rules, rows', col), PlainText);
    }
  }

  lemma OccursIn(rules: Rules, rows: seq<Record>, rows': seq<Record>, col: nat, t: CsvType)
    requires forall r :: r in rows ==> r in rows'
    ensures Occurs(rules, rows, col, t) ==> Occurs(rules, rows', col, t)
  {
    if Occurs(rules, rows, col, t) {
      var i :| 0 <= i < |rows| && col < |rows[i]| && InferCell(rules, rows[i][col]) == Some(t);
      assert rows[i] in rows';
      var j :| 0 <= j < |rows'| && rows'[j] == rows[i];
      assert col < |rows'[j]|;
    }
  }

  /** Every cell is accepted by the type reported for its column. */
  lemma CellsFitColumnTypes(rules: Rules, rows: seq<Record>, width: nat, i: nat, col: nat)
    requires rules.Sound() && i < |rows| && col < |rows[i]| && col < width
    ensures Compatible(rules, rows[i][col], ColumnTypes(rules, rows, width)[col])
  {
    MergeColumnIsJoin(rules, rows, col);
    var cell := rows[i][col];
    if rules.trim(cell) != "" {
      var t := InferCell(rules, cell).value;
      assert Occurs(rules, rows, col, t);
      assert Below(t, ColumnType(rules, rows, col));
    }
  }

  /** The inner loop: merges one row into the types found so far. */
  method MergeRow(rules: Rules, row: Record, types: array<Option<CsvType>>)
    modifies types
    ensures forall d: nat :: d < types.Length ==> types[d] == MergeCell(rules, old(types[d]), row, d)
  {
    var cells := if |row| < types.Length then |row| else types.Length;
    for c: nat := 0 to cells
      invariant forall d: nat :: d < c ==> types[d] == MergeCell(rules, old(types[d]), row, d)
      invariant forall d: nat :: c <= d < types.Length ==> types[d] == old(types[d])
    {
      if InferCell(rules, row[c]).Some? {
        types[c] := Some(Merge(types[c], InferCell(rules, row[c]).value));
      }
    }
  }

  /** The inference loop over the rows. */
  method InferColumnTypes(rules: Rules, rows: seq<Record>, width: nat) returns (r: seq<CsvType>)
    ensures r == ColumnTypes(rules, rows, width)
  {
    var types := new Option<CsvType>[width](_ => None);
    for i := 0 to |rows|
      invariant forall c: nat :: c < width ==> types[c] == MergeColumn(rules, rows[..i], c)
    {
      assert rows[..i + 1] == rows[..i] + [rows[i]];
      MergeRow(rules, rows[i], types);
    }
    assert rows[..|rows|] == rows;
    r := seq(width, c requires 0 <= c < width reads types => if types[c].Some? then types[c].value else PlainText);
  }
}

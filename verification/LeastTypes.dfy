/**
 Inferred column types are the least that accept the column, and the header rule in terms of them
 (crates/ultrasql-core/src/csv.rs).
 */
module LeastTypes {
  import opened Wrappers
  import opened Text
  import opened CsvParser
  import opened CsvInference
  import opened CsvRead

  // ----- Cell formats by position -----

  /** Four, two and two digits around two dashes. */
  lemma IsoDateIff(s: string)
    ensures IsIsoDate(s) <==>
      && |s| == 10 && s == s[..4] + "-" + s[5..7] + "-" + s[8..]
      && AllDigits(s[..4]) && AllDigits(s[5..7]) && AllDigits(s[8..])
  {
  }

  /** `HH:MM:SS` at a position. */
  predicate ClockAt(s: string, i: nat) {
    && i + 8 <= |s| && s[i + 2] == ':' && s[i + 5] == ':'
    && DigitsAt(s, i, i + 2) && DigitsAt(s, i + 3, i + 5) && DigitsAt(s, i + 6, i + 8)
  }

  /** A date, a clock and one separator; after a `T` no space may follow, since a space would be split at first. */
  predicate TimestampAt(s: string, sep: char) {
    |s| >= 19 && IsIsoDate(s[..10]) && s[10] == sep && ClockAt(s, 11)
  }

  lemma DateHasOnlyDigits(s: string, c: char)
    requires IsIsoDate(s) && !IsDigit(c) && c != '-'
    ensures c !in s
  {
  }

  lemma SplitsAfterDate(s: string, c: char)
    requires c == ' ' || c == 'T'
    ensures |s| > 10 && IsIsoDate(s[..10]) && s[10] == c ==> SplitOnce(s, c) == Some((s[..10], s[11..]))
    ensures SplitOnce(s, c).Some? && IsIsoDate(SplitOnce(s, c).value.0) ==>
              |s| > 10 && s[10] == c && SplitOnce(s, c).value == (s[..10], s[11..])
  {
    if |s| > 10 && IsIsoDate(s[..10]) && s[10] == c {
      DateHasOnlyDigits(s[..10], c);
      assert s == s[..10] + [c] + s[11..];
      SplitOnceSplits(s[..10], c, s[11..]);
    }
  }

  lemma ClockAfterDate(s: string)
    requires |s| > 10
    ensures ClockAt(s, 11) <==> ClockAt(s[11..], 0)
  {
    if ClockAt(s[11..], 0) {
      assert forall i :: 11 <= i < |s| ==> s[i] == s[11..][i - 11];
    }
  }

  lemma IsoTimestampIff(s: string)
    ensures IsIsoTimestamp(s) <==> TimestampAt(s, ' ') || (TimestampAt(s, 'T') && ' ' !in s)
  {
    SplitsAfterDate(s, ' ');
    SplitsAfterDate(s, 'T');
    if |s| > 10 {
      ClockAfterDate(s);
    }
    assert SplitOnce(s, ' ').Some? <==> ' ' in s by {
      assert s[..|s|] == s;
    }
  }

  // ----- Which types accept a cell -----

  /** The four kinds of text exclude each other, and integers are floats. */
  ghost predicate Separate(rules: Rules) {
    && rules.Sound()
    && (forall s :: IsBool(s) ==> !rules.isFinite(s))
    && (forall s :: IsIsoDate(s) ==> !rules.isFinite(s))
    && (forall s :: IsIsoTimestamp(s) ==> !rules.isFinite(s))
  }

  lemma TextKindsExclude(s: string)
    ensures !(IsBool(s) && IsIsoDate(s)) && !(IsBool(s) && IsIsoTimestamp(s)) && !(IsIsoDate(s) && IsIsoTimestamp(s))
  {
    IsoTimestampIff(s);
  }

  /** A cell is accepted by exactly the types above its own. */
  lemma AcceptedIff(rules: Rules, cell: string, ty: CsvType)
    requires Separate(rules) && rules.trim(cell) != ""
    ensures Compatible(rules, cell, ty) <==> Below(InferCell(rules, cell).value, ty)
  {
    TextKindsExclude(rules.trim(cell));
  }

  // ----- Which types accept a column -----

  ghost predicate Accepts(rules: Rules, rows: seq<Record>, col: nat, ty: CsvType) {
    forall i :: 0 <= i < |rows| && col < |rows[i]| ==> Compatible(rules, rows[i][col], ty)
  }

  predicate Filled(rules: Rules, rows: seq<Record>, col: nat) {
    exists i :: 0 <= i < |rows| && col < |rows[i]| && rules.trim(rows[i][col]) != ""
  }

  lemma FilledIff(rules: Rules, rows: seq<Record>, col: nat)
    ensures Filled(rules, rows, col) <==> MergeColumn(rules, rows, col).Some?
  {
    MergeColumnIsJoin(rules, rows, col);
    if Filled(rules, rows, col) {
      var i :| 0 <= i < |rows| && col < |rows[i]| && rules.trim(rows[i][col]) != "";
      assert Occurs(rules, rows, col, InferCell(rules, rows[i][col]).value);
    }
  }

  /** A column is accepted by exactly the types above the one reported for it: the reported type is the least. */
  lemma LeastAcceptingType(rules: Rules, rows: seq<Record>, col: nat, ty: CsvType)
    requires Separate(rules) && Filled(rules, rows, col)
    ensures Accepts(rules, rows, col, ty) <==> Below(ColumnType(rules, rows, col), ty)
  {
    FilledIff(rules, rows, col);
    MergeColumnIsJoin(rules, rows, col);
    if Accepts(rules, rows, col, ty) {
      AboveAllCells(rules, rows, col, ty);
    }
    if Below(ColumnType(rules, rows, col), ty) {
      AcceptedAbove(rules, rows, col, ty);
    }
  }

  lemma AboveAllCells(rules: Rules, rows: seq<Record>, col: nat, ty: CsvType)
    requires Separate(rules) && Accepts(rules, rows, col, ty)
    ensures forall u :: Occurs(rules, rows, col, u) ==> Below(u, ty)
  {
    forall u | Occurs(rules, rows, col, u) ensures Below(u, ty) {
      var i :| 0 <= i < |rows| && col < |rows[i]| && InferCell(rules, rows[i][col]) == Some(u);
      AcceptedIff(rules, rows[i][col], ty);
    }
  }

  lemma AcceptedAbove(rules: Rules, rows: seq<Record>, col: nat, ty: CsvType)
    requires Separate(rules) && MergeColumn(rules, rows, col).Some? && Below(ColumnType(rules, rows, col), ty)
    ensures Accepts(rules, rows, col, ty)
  {
    MergeColumnIsJoin(rules, rows, col);
    forall i | 0 <= i < |rows| && col < |rows[i]| ensures Compatible(rules, rows[i][col], ty) {
      if rules.trim(rows[i][col]) != "" {
        AcceptedIff(rules, rows[i][col], ty);
        var u := InferCell(rules, rows[i][col]).value;
        assert Occurs(rules, rows, col, u);
        BelowIsAPartialOrder(u, ColumnType(rules, rows, col), ty);
      }
    }
  }

  /** A column without a filled cell is text. */
  lemma BlankColumnIsText(rules: Rules, rows: seq<Record>, col: nat)
    requires !Filled(rules, rows, col)
    ensures ColumnType(rules, rows, col) == PlainText
  {
    FilledIff(rules, rows, col);
  }

  // ----- Headers -----

  /** Some type fits the filled cells of the column below the name, and not the name. */
  ghost predicate StandsOut(rules: Rules, name: string, data: seq<Record>, col: nat) {
    Filled(rules, data, col) && exists ty :: Accepts(rules, data, col, ty) && !Compatible(rules, name, ty)
  }

  /** A name that no type but text accepts. */
  ghost predicate OnlyText(rules: Rules, name: string) {
    forall ty :: Compatible(rules, name, ty) ==> ty == PlainText
  }

  lemma StandsOutIff(rules: Rules, name: string, data: seq<Record>, col: nat)
    requires Separate(rules)
    ensures StandsOut(rules, name, data, col) <==> !Compatible(rules, name, ColumnType(rules, data, col))
  {
    if !Filled(rules, data, col) {
      BlankColumnIsText(rules, data, col);
    } else {
      var t := ColumnType(rules, data, col);
      LeastAcceptingType(rules, data, col, t);
      forall ty | Accepts(rules, data, col, ty) && !Compatible(rules, name, ty) ensures !Compatible(rules, name, t) {
        LeastAcceptingType(rules, data, col, ty);
        AcceptedIff(rules, name, ty);
        AcceptedIff(rules, name, t);
        BelowIsAPartialOrder(InferCell(rules, name).value, t, ty);
      }
    }
  }

  lemma OnlyTextIff(rules: Rules, name: string)
    requires Separate(rules)
    ensures OnlyText(rules, name) <==> InferCell(rules, name) == Some(PlainText)
  {
    if rules.trim(name) == "" {
      assert Compatible(rules, name, Boolean);
    } else {
      var t := InferCell(rules, name).value;
      AcceptedIff(rules, name, t);
      forall ty | Compatible(rules, name, ty) ensures Below(t, ty) {
        AcceptedIff(rules, name, ty);
      }
    }
  }

  /** The first record is taken as a header exactly when its names are usable and one stands out from its column. */
  lemma HasHeaderIff(rules: Rules, records: seq<Record>)
    requires Separate(rules)
    ensures HasHeader(rules, records) <==>
      && records != [] && records[0] != [] && Usable(rules, records[0])
      && exists i :: 0 <= i < |records[0]| &&
           if |records| == 1 then OnlyText(rules, records[0][i])
           else StandsOut(rules, records[0][i], records[1..], i)
  {
    if records != [] {
      var first, rest := records[0], records[1..];
      forall i: nat | i < |first|
        ensures OnlyText(rules, first[i]) <==> InferCell(rules, first[i]) == Some(PlainText)
        ensures StandsOut(rules, first[i], rest, i)
           <==> !Compatible(rules, first[i], ColumnTypes(rules, rest, |first|)[i])
      {
        OnlyTextIff(rules, first[i]);
        StandsOutIff(rules, first[i], rest, i);
      }
    }
  }

  /** Each column of a sniffed text gets the least type that accepts its data. */
  lemma SniffedTypesAreLeast(rules: Rules, path: string, input: string, col: nat, ty: CsvType)
    requires Separate(rules) && Sniff(rules, path, input).Ok? && col < |Sniff(rules, path, input).value.columns|
    ensures var s := Sniff(rules, path, input).value;
            && Parse(s.options, input).Ok?
            && var data := DataRows(s.hasHeader, Parse(s.options, input).value);
               if Filled(rules, data, col) then Accepts(rules, data, col, ty) <==> Below(s.columns[col].ty, ty)
               else s.columns[col].ty == PlainText
  {
    SniffedRecords(rules, path, input);
    var s := Sniff(rules, path, input).value;
    var data := DataRows(s.hasHeader, Parse(s.options, input).value);
    assert s.columns[col].ty == ColumnType(rules, data, col);
    if Filled(rules, data, col) {
      LeastAcceptingType(rules, data, col, ty);
    } else {
      BlankColumnIsText(rules, data, col);
    }
  }
}

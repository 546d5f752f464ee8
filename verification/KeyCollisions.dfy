/** Which relations share a lookup key (crates/ultrasql-catalog/src/entry.rs). */
module KeyCollisions {
  import opened Wrappers
  import opened Text
  import opened LookupKeys

  /** Pairs meant to share a slot: equal after folding, or undotted in namespaces kept under bare names. */
  predicate SameSlot(s1: string, t1: string, s2: string, t2: string) {
    && Fold(t1) == Fold(t2)
    && (|| Fold(s1) == Fold(s2)
        || (BareSchema(Fold(s1)) && BareSchema(Fold(s2)) && !Dotted(t1)))
  }

  function Dots(s: string): nat {
    if s == "" then 0 else (if s[0] == '.' then 1 else 0) + Dots(s[1..])
  }

  /**
   The one plain pair that meets a pair with exactly one dot: the length-encoded key cut at that dot.
   With the dot in the schema the table keeps its length prefix, with the dot in the table the schema does.
   */
  function Twin(schemaName: string, tableName: string): Option<(string, string)> {
    var schema, table := Fold(schemaName), Fold(tableName);
    if Dots(schema) + Dots(table) != 1 then None
    else
      match SplitOnce(schema, '.')
      case Some((a, b)) => Some((Decimal(|schema|) + ":" + a, b + Decimal(|table|) + ":" + table))
      case None =>
        match SplitOnce(table, '.')
        case Some((a, b)) => Some((Decimal(|schema|) + ":" + schema + Decimal(|table|) + ":" + a, b))
        case None => None
  }

  predicate AreTwins(s1: string, t1: string, s2: string, t2: string) {
    Twin(s1, t1) == Some((Fold(s2), Fold(t2)))
  }

  // ----- Counting dots -----

  lemma {:induction false} DotsAdd(a: string, b: string)
    ensures Dots(a + b) == Dots(a) + Dots(b)
  {
    if a == "" {
      assert a + b == b;
    } else {
      assert (a + b)[1..] == a[1..] + b;
      DotsAdd(a[1..], b);
    }
  }

  lemma {:induction false} DottedIff(s: string)
    ensures Dotted(s) <==> Dots(s) > 0
  {
    if s != "" {
      DottedIff(s[1..]);
      assert s == [s[0]] + s[1..];
    }
  }

  lemma DigitsHaveNoDots(n: nat)
    ensures Dots(Decimal(n)) == 0 && Dots(":") == 0 && Dots(".") == 1
  {
    assert '.' !in Decimal(n);
    DottedIff(Decimal(n));
  }

  lemma EncodedKeyDots(s: string, t: string)
    ensures Dots(EncodedKey(s, t)) == Dots(s) + Dots(t)
  {
    DigitsHaveNoDots(|s|);
    DigitsHaveNoDots(|t|);
    DotsAdd(Decimal(|s|) + ":" + s + Decimal(|t|) + ":", t);
    DotsAdd(Decimal(|s|) + ":" + s + Decimal(|t|), ":");
    DotsAdd(Decimal(|s|) + ":" + s, Decimal(|t|));
    DotsAdd(Decimal(|s|) + ":", s);
    DotsAdd(Decimal(|s|), ":");
  }

  lemma CutDots(a: string, b: string)
    ensures Dots(a + "." + b) == Dots(a) + 1 + Dots(b)
  {
    DotsAdd(a + ".", b);
    DotsAdd(a, ".");
  }

  lemma {:induction false} FoldKeepsDots(s: string)
    ensures Dots(Fold(s)) == Dots(s)
  {
    if s != "" {
      assert Fold(s)[1..] == Fold(s[1..]);
      FoldKeepsDots(s[1..]);
    }
  }

  // ----- Twins -----

  lemma SplitOnceJoins(s: string)
    requires SplitOnce(s, '.').Some?
    ensures var (a, b) := SplitOnce(s, '.').value; s == a + "." + b && !Dotted(a)
  {
  }

  lemma SplitOnceIff(s: string)
    ensures SplitOnce(s, '.').Some? <==> Dotted(s)
  {
  }

  /** The twin's plain key is the length-encoded key. */
  lemma TwinSplitsKey(s: string, t: string)
    requires Twin(s, t).Some?
    ensures var (a, b) := Twin(s, t).value;
            && a + "." + b == EncodedKey(Fold(s), Fold(t))
            && !Dotted(a) && !Dotted(b) && ':' in a
  {
    var schema, table := Fold(s), Fold(t);
    var (a, b) := Twin(s, t).value;
    if SplitOnce(schema, '.').Some? {
      SplitOnceJoins(schema);
      SchemaCut(schema, table, SplitOnce(schema, '.').value.0, SplitOnce(schema, '.').value.1);
    } else {
      SplitOnceJoins(table);
      TableCut(schema, table, SplitOnce(table, '.').value.0, SplitOnce(table, '.').value.1);
    }
    EncodedKeyDots(schema, table);
    CutDots(a, b);
    DottedIff(a);
    DottedIff(b);
  }

  lemma SchemaCut(schema: string, table: string, a: string, b: string)
    requires schema == a + "." + b
    ensures var l, r := Decimal(|schema|) + ":" + a, b + Decimal(|table|) + ":" + table;
            l + "." + r == EncodedKey(schema, table) && ':' in l
  {
    var l := Decimal(|schema|) + ":" + a;
    assert l[|Decimal(|schema|)|] == ':';
  }

  lemma TableCut(schema: string, table: string, a: string, b: string)
    requires table == a + "." + b
    ensures var l := Decimal(|schema|) + ":" + schema + Decimal(|table|) + ":" + a;
            l + "." + b == EncodedKey(schema, table) && ':' in l
  {
    var l := Decimal(|schema|) + ":" + schema + Decimal(|table|) + ":" + a;
    assert l[|Decimal(|schema|)|] == ':';
  }

  lemma TwinExistsIff(s: string, t: string)
    ensures Twin(s, t).Some? <==> Dots(s) + Dots(t) == 1
  {
    FoldKeepsDots(s);
    FoldKeepsDots(t);
    SplitOnceIff(Fold(s));
    SplitOnceIff(Fold(t));
    DottedIff(Fold(s));
    DottedIff(Fold(t));
  }

  lemma ColonedIsNotBare(schema: string)
    requires ':' in schema
    ensures !BareSchema(schema)
  {
  }

  lemma TwinsShareKey(s1: string, t1: string, s2: string, t2: string)
    requires AreTwins(s1, t1, s2, t2)
    ensures Encoded(s1, t1) && !Encoded(s2, t2) && TableLookupKey(s1, t1) == TableLookupKey(s2, t2)
  {
    TwinSplitsKey(s1, t1);
    TwinExistsIff(s1, t1);
    DottedIff(s1);
    DottedIff(t1);
    FoldedForm(s1, t1);
    FoldedForm(s2, t2);
    ColonedIsNotBare(Fold(s2));
  }

  /** A length-encoded key that is also plain has one dot, and the plain pair is the twin. */
  lemma MixedKeysAreTwins(s1: string, t1: string, s2: string, t2: string)
    requires Encoded(s1, t1) && !Encoded(s2, t2) && TableLookupKey(s1, t1) == TableLookupKey(s2, t2)
    ensures AreTwins(s1, t1, s2, t2)
  {
    FoldedForm(s1, t1);
    FoldedForm(s2, t2);
    EncodedKeyIsDotted(Fold(s1), Fold(t1));
    EncodedKeyDots(Fold(s1), Fold(t1));
    CutDots(Fold(s2), Fold(t2));
    DottedIff(Fold(s2));
    DottedIff(Fold(t2));
    FoldKeepsDots(s1);
    FoldKeepsDots(t1);
    TwinExistsIff(s1, t1);
    TwinSplitsKey(s1, t1);
    PlainKeyIsInjective(Twin(s1, t1).value.0, Twin(s1, t1).value.1, Fold(s2), Fold(t2));
  }

  // ----- All collisions -----

  lemma PlainKeysAgreeIff(s1: string, t1: string, s2: string, t2: string)
    requires !Dotted(s1) && !Dotted(t1) && !Dotted(s2) && !Dotted(t2)
    ensures PlainKey(s1, t1) == PlainKey(s2, t2) <==>
            t1 == t2 && (s1 == s2 || (BareSchema(s1) && BareSchema(s2)))
  {
    QualifiedIsDotted(s1, t1);
    QualifiedIsDotted(s2, t2);
    if !BareSchema(s1) && !BareSchema(s2) && PlainKey(s1, t1) == PlainKey(s2, t2) {
      PlainKeyIsInjective(s1, t1, s2, t2);
    }
  }

  /** Within one key form, equal keys mean the same slot. */
  lemma SameFormAgreesIff(s1: Name, t1: Name, s2: Name, t2: Name)
    requires Encoded(s1, t1) == Encoded(s2, t2)
    ensures TableLookupKey(s1, t1) == TableLookupKey(s2, t2) <==> SameSlot(s1, t1, s2, t2)
  {
    if Encoded(s1, t1) {
      EncodedFormAgreesIff(s1, t1, s2, t2);
    } else {
      FoldedForm(s1, t1);
      FoldedForm(s2, t2);
      PlainKeysAgreeIff(Fold(s1), Fold(t1), Fold(s2), Fold(t2));
    }
  }

  lemma EncodedFormAgreesIff(s1: Name, t1: Name, s2: Name, t2: Name)
    requires Encoded(s1, t1) && Encoded(s2, t2)
    ensures TableLookupKey(s1, t1) == TableLookupKey(s2, t2) <==> SameSlot(s1, t1, s2, t2)
  {
    FoldedForm(s1, t1);
    FoldedForm(s2, t2);
    if TableLookupKey(s1, t1) == TableLookupKey(s2, t2) {
      EncodedKeyIsInjective(Fold(s1), Fold(t1), Fold(s2), Fold(t2));
    }
    if BareSchema(Fold(s1)) && BareSchema(Fold(s2)) {
      BareSchemasAreUndotted(s1);
    }
  }

  lemma BareSchemasAreUndotted(schema: string)
    requires BareSchema(Fold(schema))
    ensures !Dotted(schema)
  {
    FoldKeeps(schema, '.');
  }

  lemma MixedSlotsDiffer(s1: string, t1: string, s2: string, t2: string)
    requires Encoded(s1, t1) != Encoded(s2, t2)
    ensures !SameSlot(s1, t1, s2, t2)
  {
    FoldedForm(s1, t1);
    FoldedForm(s2, t2);
    if BareSchema(Fold(s1)) && BareSchema(Fold(s2)) {
      BareSchemasAreUndotted(s1);
      BareSchemasAreUndotted(s2);
    }
  }

  /** For all names: two pairs share a key exactly when they share a slot or one is the other's twin. */
  lemma TableKeysAgreeIff(s1: Name, t1: Name, s2: Name, t2: Name)
    ensures TableLookupKey(s1, t1) == TableLookupKey(s2, t2)
       <==> SameSlot(s1, t1, s2, t2) || AreTwins(s1, t1, s2, t2) || AreTwins(s2, t2, s1, t1)
  {
    if AreTwins(s1, t1, s2, t2) {
      TwinsShareKey(s1, t1, s2, t2);
    } else if AreTwins(s2, t2, s1, t1) {
      TwinsShareKey(s2, t2, s1, t1);
    } else if Encoded(s1, t1) == Encoded(s2, t2) {
      SameFormAgreesIff(s1, t1, s2, t2);
    } else {
      MixedSlotsDiffer(s1, t1, s2, t2);
      if TableLookupKey(s1, t1) == TableLookupKey(s2, t2) {
        if Encoded(s1, t1) {
          MixedKeysAreTwins(s1, t1, s2, t2);
        } else {
          MixedKeysAreTwins(s2, t2, s1, t1);
        }
      }
    }
  }

  /** No pair outside the slot has the key. */
  ghost predicate OwnsKey(s: Name, t: Name) {
    forall s2: Name, t2: Name :: TableLookupKey(s2, t2) == TableLookupKey(s, t) ==> SameSlot(s, t, s2, t2)
  }

  /** A dotted pair has its key to itself exactly when it has at least two dots. */
  lemma DottedPairOwnsKeyIff(s: Name, t: Name)
    requires Encoded(s, t) && |TableLookupKey(s, t)| <= MAX_TEXT
    ensures OwnsKey(s, t) <==> Dots(s) + Dots(t) >= 2
  {
    TwinExistsIff(s, t);
    DottedIff(s);
    DottedIff(t);
    if Dots(s) + Dots(t) == 1 {
      var (a, b) := Twin(s, t).value;
      FoldedForm(s, t);
      TwinSplitsKey(s, t);
      FoldedKey(s, t);
      FoldedParts(TableLookupKey(s, t), a, ".", b);
      TwinsShareKey(s, t, a, b);
      MixedSlotsDiffer(s, t, a, b);
    } else {
      forall s2: Name, t2: Name | TableLookupKey(s2, t2) == TableLookupKey(s, t) ensures SameSlot(s, t, s2, t2) {
        TableKeysAgreeIff(s, t, s2, t2);
        if AreTwins(s2, t2, s, t) {
          TwinsShareKey(s2, t2, s, t);
        }
      }
    }
  }

  /** Keys are folded. */
  lemma FoldedKey(s: string, t: string)
    ensures Fold(TableLookupKey(s, t)) == TableLookupKey(s, t)
  {
    var schema, table := Fold(s), Fold(t);
    FoldIsIdempotent(s);
    FoldIsIdempotent(t);
    assert forall i :: 0 <= i < |schema| ==> FoldChar(schema[i]) == schema[i];
    assert forall i :: 0 <= i < |table| ==> FoldChar(table[i]) == table[i];
  }

  /** A plain pair has its key to itself exactly when it is bare or its key does not read as a length-encoded one. */
  lemma PlainPairOwnsKeyIff(s: Name, t: Name)
    requires !Encoded(s, t) && |TableLookupKey(s, t)| <= MAX_TEXT
    ensures OwnsKey(s, t) <==> BareSchema(Fold(s)) || !IsEncodedKey(Fold(s) + "." + Fold(t))
  {
    FoldedForm(s, t);
    if !BareSchema(Fold(s)) && IsEncodedKey(TableLookupKey(s, t)) {
      ReadsAsOther(s, t);
    } else {
      forall s2: Name, t2: Name | TableLookupKey(s2, t2) == TableLookupKey(s, t) ensures SameSlot(s, t, s2, t2) {
        TableKeysAgreeIff(s, t, s2, t2);
        if AreTwins(s, t, s2, t2) {
          TwinsShareKey(s, t, s2, t2);
        }
        if AreTwins(s2, t2, s, t) {
          TwinReadsAsEncoded(s2, t2, s, t);
        }
      }
    }
  }

  lemma ReadsAsOther(s: Name, t: Name)
    requires !Encoded(s, t) && !BareSchema(Fold(s)) && IsEncodedKey(TableLookupKey(s, t))
    requires |TableLookupKey(s, t)| <= MAX_TEXT
    ensures !OwnsKey(s, t)
  {
    var key := TableLookupKey(s, t);
    var (s2, t2) := DecodeTableLookupKey(key).value;
    FoldedForm(s, t);
    QualifiedIsDotted(Fold(s), Fold(t));
    FoldedKey(s, t);
    EncodedPartsAreFolded(key, s2, t2);
    EncodedKeyIsDotted(s2, t2);
    MixedSlotsDiffer(s, t, s2, t2);
  }

  lemma TwinReadsAsEncoded(s1: Name, t1: Name, s2: Name, t2: Name)
    requires AreTwins(s1, t1, s2, t2)
    ensures !BareSchema(Fold(s2)) && IsEncodedKey(Fold(s2) + "." + Fold(t2))
  {
    TwinSplitsKey(s1, t1);
    ColonedIsNotBare(Fold(s2));
    DecodeUndoesEncodedKey(Fold(s1), Fold(t1));
  }

  /** With colon-free schema names, tables share a key exactly when they share a slot. */
  lemma ColonFreeTableKeysAgreeIff(s1: Name, t1: Name, s2: Name, t2: Name)
    requires ':' !in s1 && ':' !in s2
    ensures TableLookupKey(s1, t1) == TableLookupKey(s2, t2) <==> SameSlot(s1, t1, s2, t2)
  {
    TableKeysAgreeIff(s1, t1, s2, t2);
    FoldKeeps(s1, ':');
    FoldKeeps(s2, ':');
    if AreTwins(s1, t1, s2, t2) {
      TwinSplitsKey(s1, t1);
    }
    if AreTwins(s2, t2, s1, t1) {
      TwinSplitsKey(s2, t2);
    }
  }

  /** A dotted schema and a schema `3:a` meet in one key. */
  lemma ColonNamesCollide()
    ensures TableLookupKey("a.b", "c") == TableLookupKey("3:a", "b1:c")
    ensures !SameSlot("a.b", "c", "3:a", "b1:c")
  {
    assert Fold("a.b") == "a.b" && Fold("c") == "c";
    assert Fold("3:a") == "3:a" && Fold("b1:c") == "b1:c";
    assert Decimal(3) == "3" && Decimal(1) == "1";
    assert "a.b"[1] == '.';
  }
}

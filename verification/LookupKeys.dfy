/**
 Catalog lookup keys (crates/ultrasql-catalog/src/entry.rs): which (schema, relation) pairs share
 a key, and how a length-encoded key is taken apart again.
 */
module LookupKeys {
  import opened Wrappers
  import opened Text

  predicate Dotted(s: string) {
    '.' in s
  }

  /** The namespaces whose relations are stored under their bare name. */
  predicate BareSchema(schema: string) {
    schema == "public" || schema == "pg_catalog" || schema == "information_schema"
  }

  /** `<len>:<schema><len>:<relation>`, lengths in decimal. */
  function EncodedKey(schema: string, relation: string): string {
    Decimal(|schema|) + ":" + schema + Decimal(|relation|) + ":" + relation
  }

  /** The bare name in the schemas on the search path, otherwise `<schema>.<relation>`. */
  function PlainKey(schema: string, table: string): string {
    if BareSchema(schema) then table else schema + "." + table
  }

  function TableLookupKey(schemaName: string, tableName: string): string {
    var schema, table := Fold(schemaName), Fold(tableName);
    if Dotted(schema) || Dotted(table) then EncodedKey(schema, table) else PlainKey(schema, table)
  }

  function TypeLookupKey(schemaName: string, typeName: string): string {
    EncodedKey(Fold(schemaName), Fold(typeName))
  }

  function IndexLookupKey(schemaName: string, indexName: string): string {
    TableLookupKey(schemaName, indexName)
  }

  /** A position that does not cut a UTF-8 sequence: the next byte is no continuation byte. */
  predicate IsCharBoundary(text: string, i: nat)
    requires i <= |text|
  {
    i == 0 || i == |text| || !(0x80 <= text[i] as int < 0xC0)
  }

  function SplitAtByte(text: string, i: nat): Option<(string, string)> {
    if i <= |text| && IsCharBoundary(text, i) then Some((text[..i], text[i..])) else None
  }

  /** The length before a colon and what follows the colon. */
  function TakeLength(text: string): Option<(nat, string)> {
    match SplitOnce(text, ':')
    case None => None
    case Some((digits, rest)) =>
      if digits == "" || !AllDigits(digits) then None
      else
        match ParseUsize(digits)
        case None => None
        case Some(n) => Some((n, rest))
  }

  function DecodeTableLookupKey(key: string): Option<(string, string)> {
    match TakeLength(key)
    case None => None
    case Some((schemaLen, rest)) =>
      match SplitAtByte(rest, schemaLen)
      case None => None
      case Some((schema, afterSchema)) =>
        match TakeLength(afterSchema)
        case None => None
        case Some((relationLen, relation)) =>
          if |relation| == relationLen then Some((schema, relation)) else None
  }

  lemma TakeLengthUndoes(n: nat, rest: string)
    requires n <= USIZE_MAX
    ensures TakeLength(Decimal(n) + ":" + rest) == Some((n, rest))
  {
    ToNatOfDecimal(n);
    assert ':' !in Decimal(n);
    SplitOnceSplits(Decimal(n), ':', rest);
  }

  /** Decoding recovers both parts of every length-encoded key. */
  lemma DecodeUndoesEncodedKey(schema: Name, relation: Name)
    ensures DecodeTableLookupKey(EncodedKey(schema, relation)) == Some((schema, relation))
  {
    var tail := Decimal(|relation|) + ":" + relation;
    assert EncodedKey(schema, relation) == Decimal(|schema|) + ":" + (schema + tail);
    TakeLengthUndoes(|schema|, schema + tail);
    assert |tail| > 0 && IsDigit(tail[0]);
    SplitAtByteSplits(schema, tail);
    TakeLengthUndoes(|relation|, relation);
  }

  lemma SplitAtByteSplits(a: string, b: string)
    requires b != "" && b[0] as int < 0x80
    ensures SplitAtByte(a + b, |a|) == Some((a, b))
  {
    assert (a + b)[|a|] == b[0];
    assert (a + b)[..|a|] == a && (a + b)[|a|..] == b;
  }

  /** `table_lookup_key` of a dotted pair decodes to the folded pair. */
  lemma DecodeUndoesTableLookupKey(schema: Name, table: Name)
    requires Dotted(schema) || Dotted(table)
    ensures DecodeTableLookupKey(TableLookupKey(schema, table)) == Some((Fold(schema), Fold(table)))
  {
    FoldKeeps(schema, '.');
    FoldKeeps(table, '.');
    DecodeUndoesEncodedKey(Fold(schema), Fold(table));
  }

  lemma EncodedKeyIsInjective(s1: Name, r1: Name, s2: Name, r2: Name)
    requires EncodedKey(s1, r1) == EncodedKey(s2, r2)
    ensures s1 == s2 && r1 == r2
  {
    DecodeUndoesEncodedKey(s1, r1);
    DecodeUndoesEncodedKey(s2, r2);
  }

  /** Two types share a key exactly when their folded schemas and names agree. */
  lemma TypeKeysAgreeIff(s1: Name, t1: Name, s2: Name, t2: Name)
    ensures TypeLookupKey(s1, t1) == TypeLookupKey(s2, t2)
       <==> Fold(s1) == Fold(s2) && Fold(t1) == Fold(t2)
  {
    if TypeLookupKey(s1, t1) == TypeLookupKey(s2, t2) {
      EncodedKeyIsInjective(Fold(s1), Fold(t1), Fold(s2), Fold(t2));
    }
  }

  /** Decodes, and encodes back to itself: no leading zeros in the lengths. */
  predicate IsEncodedKey(key: string) {
    match DecodeTableLookupKey(key)
    case None => false
    case Some((s, t)) => key == EncodedKey(s, t)
  }

  lemma PlainKeyIsInjective(s1: string, t1: string, s2: string, t2: string)
    requires !Dotted(s1) && !Dotted(s2)
    requires s1 + "." + t1 == s2 + "." + t2
    ensures s1 == s2 && t1 == t2
  {
    SplitOnceSplits(s1, '.', t1);
    SplitOnceSplits(s2, '.', t2);
  }

  lemma QualifiedIsDotted(s: string, t: string)
    ensures Dotted(s + "." + t)
  {
    assert (s + "." + t)[|s|] == '.';
  }

  lemma DottedInside(a: string, b: string)
    ensures Dotted(a + b) <==> Dotted(a) || Dotted(b)
  {
    if Dotted(a) {
      var i :| 0 <= i < |a| && a[i] == '.';
      assert (a + b)[i] == '.';
    }
    if Dotted(b) {
      var i :| 0 <= i < |b| && b[i] == '.';
      assert (a + b)[|a| + i] == '.';
    }
  }

  lemma EncodedKeyIsDotted(s: string, t: string)
    ensures Dotted(EncodedKey(s, t)) <==> Dotted(s) || Dotted(t)
  {
    DottedInside(Decimal(|s|) + ":" + s + Decimal(|t|) + ":", t);
    DottedInside(Decimal(|s|) + ":" + s + Decimal(|t|), ":");
    DottedInside(Decimal(|s|) + ":" + s, Decimal(|t|));
    DottedInside(Decimal(|s|) + ":", s);
    DottedInside(Decimal(|s|), ":");
  }

  /** Whether a pair gets a length-encoded key. */
  predicate Encoded(s: string, t: string) {
    Dotted(s) || Dotted(t)
  }

  /** The key `drop_table` and `lookup_table` fall back to when the name itself is not bound. */
  function PublicKey(name: string): string {
    TableLookupKey("public", name)
  }

  /** An unqualified name has a second key exactly when it contains a dot. */
  lemma PublicKeyIsBareIff(name: Name)
    ensures PublicKey(name) == Fold(name) <==> !Dotted(name)
  {
    assert Fold("public") == "public";
    FoldKeeps(name, '.');
  }

  /** A dotted key some relation is stored under: `schema.table`, or a length-encoded key. */
  predicate IsDottedTableKey(key: string) {
    || IsEncodedKey(key)
    || match SplitOnce(key, '.')
       case None => false
       case Some((schema, table)) => !Dotted(table) && !BareSchema(schema)
  }

  /** `IsDottedTableKey` recognises exactly the folded, dotted keys of relations. */
  lemma DottedTableKeyIff(key: Name)
    requires Dotted(key) && Fold(key) == key
    ensures IsDottedTableKey(key) <==> exists s: Name, t: Name :: TableLookupKey(s, t) == key
  {
    if IsEncodedKey(key) {
      var (s, t) := DecodeTableLookupKey(key).value;
      EncodedPartsAreFolded(key, s, t);
    } else if IsDottedTableKey(key) {
      var (s, t) := SplitOnce(key, '.').value;
      PlainPartsKey(key, s, t);
    }
    forall s: Name, t: Name | TableLookupKey(s, t) == key ensures IsDottedTableKey(key) {
      KeyHasItsForm(s, t);
    }
  }

  lemma FoldedForm(s: string, t: string)
    ensures Dotted(Fold(s)) == Dotted(s) && Dotted(Fold(t)) == Dotted(t)
  {
    FoldKeeps(s, '.');
    FoldKeeps(t, '.');
  }

  lemma PlainPartsKey(key: string, s: string, t: string)
    requires SplitOnce(key, '.') == Some((s, t)) && Fold(key) == key && !Dotted(t) && !BareSchema(s)
    ensures TableLookupKey(s, t) == key
  {
    assert key == s + "." + t;
    FoldedParts(key, s, ".", t);
  }

  lemma FoldedParts(key: string, a: string, b: string, c: string)
    requires Fold(key) == key == a + b + c
    ensures Fold(a) == a && Fold(c) == c
  {
    assert forall i :: 0 <= i < |a| ==> key[i] == a[i];
    assert forall i :: 0 <= i < |c| ==> key[|a| + |b| + i] == c[i];
  }

  lemma EncodedPartsAreFolded(key: string, s: string, t: string)
    requires Dotted(key) && Fold(key) == key == EncodedKey(s, t)
    ensures Fold(s) == s && Fold(t) == t && TableLookupKey(s, t) == key
  {
    EncodedKeyIsDotted(s, t);
    var head, tail := Decimal(|s|) + ":", Decimal(|t|) + ":";
    assert key == head + (s + tail + t) + "";
    FoldedParts(key, head + s, tail, t);
    FoldedParts(key, "", head, s + tail + t) by { assert key == "" + head + (s + tail + t); }
    FoldedParts(s + tail + t, s, tail, t);
  }

  lemma KeyHasItsForm(s: Name, t: Name)
    requires Dotted(TableLookupKey(s, t))
    ensures IsDottedTableKey(TableLookupKey(s, t))
  {
    FoldKeeps(s, '.'); FoldKeeps(t, '.');
    if Encoded(s, t) {
      DecodeUndoesTableLookupKey(s, t);
    } else {
      SplitOnceSplits(Fold(s), '.', Fold(t));
    }
  }
}

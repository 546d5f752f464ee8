/**
 What each catalog operation writes and what it leaves alone, as later lookups see it
 (crates/ultrasql-catalog/src/memory.rs).
 */
module CatalogEffects {
  import opened Wrappers
  import opened Text
  import opened LookupKeys
  import opened DataTypes
  import opened CatalogEntries
  import opened CatalogModel

  // ----- What an operation leaves alone -----

  /** The tables an operation names. */
  ghost predicate Targets(m: Model, op: Op, o: Oid) {
    match op
    case CreateTable(t) => o == t.oid
    case CreateIndex(e) => o == e.tableOid
    case DropIndex(name) => exists p :: HasIndex(m, ResolveIndex(m, name), o, p)
    case UpdateTableSize(oid, _) => o == oid
    case _ => HasTable(m, ResolveTable(m, op.name), o)
  }

  /** A table the operation does not name stays, or stays away, with its entry and its indexes. */
  lemma OthersUntouched(m: Model, op: Op, lower: string -> string, o: Oid)
    requires WellFormed(m) && !Targets(m, op, o)
    ensures var m' := Apply(m, op, lower).0; (o in m' <==> o in m) && (o in m ==> m'[o] == m[o])
  {
    if op.UpdateTableSize? && op.oid in m {
      assert RelationOk(m, op.oid);
    } else if op.DropIndex? {
      var k := ResolveIndex(m, op.name);
      assert IndexBound(m, k) ==> HasIndex(m, k, IndexAt(m, k).0, IndexAt(m, k).1);
    } else if !op.CreateTable? && !op.CreateIndex? && !op.UpdateTableSize? {
      var k := ResolveTable(m, op.name);
      assert TableBound(m, k) ==> RelationOk(m, TableAt(m, k)) && HasTable(m, k, TableAt(m, k));
    }
  }

  /** Each attribute of a table is written by the one or two operations made for it, and by no other. */
  ghost predicate AttributesKept(op: Op, t: TableEntry, t': TableEntry) {
    && t'.oid == t.oid && t'.createdAtLsn == t.createdAtLsn && t'.rootBlock == t.rootBlock
    && (!op.Rename? ==> t'.name == t.name)
    && (!op.SetSchema? ==> t'.schemaName == t.schemaName)
    && (!op.SetOptions? ==> t'.options == t.options)
    && (!op.UpdateTableSize? ==> t'.nBlocks == t.nBlocks)
    && (!op.AddColumn? && !op.ReplaceSchema? ==> t'.schema == t.schema)
  }

  lemma ApplyKeepsAttributes(m: Model, op: Op, lower: string -> string, o: Oid)
    requires WellFormed(m) && o in m && o in Apply(m, op, lower).0
    ensures AttributesKept(op, m[o].table, Apply(m, op, lower).0[o].table)
  {
    if Targets(m, op, o) {
      assert RelationOk(m, o);
    } else {
      OthersUntouched(m, op, lower, o);
    }
  }

  /** No operation but a schema replacement changes which column a position names. */
  lemma ColumnsKeepPositions(m: Model, op: Op, lower: string -> string, o: Oid, i: nat)
    requires WellFormed(m) && o in m && o in Apply(m, op, lower).0 && !op.ReplaceSchema? && i < Width(m[o])
    ensures var r := Apply(m, op, lower).0[o]; i < Width(r) && r.table.schema.fields[i] == m[o].table.schema.fields[i]
  {
    ApplyKeepsAttributes(m, op, lower, o);
    if op.AddColumn? {
      if Targets(m, op, o) {
        assert RelationOk(m, o);
      } else {
        OthersUntouched(m, op, lower, o);
      }
    }
  }

  /** No column a position named is renamed, retyped or moved by a run that replaces no schema and keeps the table. */
  lemma {:induction false} RunKeepsPositions(m: Model, ops: seq<Op>, lower: string -> string, o: Oid, i: nat)
    requires WellFormed(m) && Stays(m, ops, lower, o) && i < Width(m[o])
    requires forall j :: 0 <= j < |ops| ==> !ops[j].ReplaceSchema?
    ensures var m' := RunOps(m, ops, lower);
            o in m' && i < Width(m'[o]) && m'[o].table.schema.fields[i] == m[o].table.schema.fields[i]
    decreases |ops|
  {
    if ops != [] {
      ApplyKeepsWellFormed(m, ops[0], lower);
      ColumnsKeepPositions(m, ops[0], lower, o, i);
      RunKeepsPositions(Apply(m, ops[0], lower).0, ops[1..], lower, o, i);
    }
  }

  /** The table at an OID is never dropped during the run. */
  ghost predicate Stays(m: Model, ops: seq<Op>, lower: string -> string, o: Oid)
    requires WellFormed(m)
    decreases |ops|
  {
    o in m && (ops != [] ==>
      (ApplyKeepsWellFormed(m, ops[0], lower); Stays(Apply(m, ops[0], lower).0, ops[1..], lower, o)))
  }

  // ----- What lookups find afterwards -----

  lemma FoundIs(m: Model, name: Name, o: Oid)
    requires WellFormed(m) && HasTable(m, ResolveTable(m, name), o)
    ensures Found(m, name) == Some(m[o].table)
  {
  }

  /** A table is found by every name that folds to its key. */
  lemma FoundUnderKey(m: Model, name: Name, o: Oid)
    requires WellFormed(m) && HasTable(m, Fold(name), o)
    ensures Found(m, name) == Some(m[o].table)
  {
    FoundIs(m, name, o);
  }

  /** Replacing an entry by one with the same key changes what that one key finds, and nothing else. */
  lemma FoundAfterUpdate(m: Model, t: TableEntry, name: Name)
    requires WellFormed(m) && t.oid in m && TableKey(t) == TableKey(m[t.oid].table)
    ensures WellFormed(WithTable(m, t))
    ensures Found(WithTable(m, t), name) ==
            match Found(m, name) case None => None case Some(u) => Some(if u.oid == t.oid then t else u)
  {
    var m' := WithTable(m, t);
    assert HasTable(m, TableKey(t), t.oid);
    SetTableKeeps(m, t);
    assert forall k, o :: HasTable(m', k, o) <==> HasTable(m, k, o);
    assert forall k :: TableBound(m', k) <==> TableBound(m, k);
    if Found(m, name).Some? {
      var o := TableAt(m, ResolveTable(m, name));
      assert RelationOk(m, o);
      FoundIs(m', name, o);
    }
  }

  predicate IsAlter(op: Op) {
    op.AddColumn? || op.ReplaceSchema? || op.SetOptions? || op.Rename? || op.SetSchema?
  }

  /** An alter operation acts on the table its name finds, and fails when there is none. */
  lemma AltersFound(m: Model, op: Op, lower: string -> string)
    requires WellFormed(m) && IsAlter(op)
    ensures match Found(m, op.name)
            case None => Apply(m, op, lower) == (m, Err(NotFound))
            case Some(t) =>
              && t.oid in m && m[t.oid].table == t && HasTable(m, TableKey(t), t.oid)
              && Apply(m, op, lower) == Alter(m, t.oid, op, lower)
  {
    var k := ResolveTable(m, op.name);
    assert TableBound(m, k) ==> RelationOk(m, TableAt(m, k));
  }

  /** `add_column` puts the column last, and fails exactly on a missing table or a name used twice. */
  lemma AddColumnAppends(m: Model, name: Name, column: Field, lower: string -> string)
    requires WellFormed(m)
    ensures var (m', r) := Apply(m, AddColumn(name, column), lower);
            match Found(m, name)
            case None => r == Err(NotFound)
            case Some(t) =>
              if !DistinctNames(t.schema.fields + [column], lower) then r == Err(SchemaConflict)
              else
                && r.Ok? && r.value == Found(m', name) == Some(t.(schema := Schema(t.schema.fields + [column])))
  {
    AltersFound(m, AddColumn(name, column), lower);
    if Found(m, name).Some? {
      var t := Found(m, name).value;
      FoundAfterUpdate(m, t.(schema := Schema(t.schema.fields + [column])), name);
    }
  }

  /** `replace_schema` and `set_options` write the one attribute, and fail exactly on a missing table. */
  lemma ReplaceSchemaWrites(m: Model, name: Name, schema: Schema, lower: string -> string)
    requires WellFormed(m)
    ensures var (m', r) := Apply(m, ReplaceSchema(name, schema), lower);
            match Found(m, name)
            case None => r == Err(NotFound)
            case Some(t) => r.Ok? && r.value == Found(m', name) == Some(t.(schema := schema))
  {
    AltersFound(m, ReplaceSchema(name, schema), lower);
    if Found(m, name).Some? {
      FoundAfterUpdate(m, Found(m, name).value.(schema := schema), name);
    }
  }

  lemma SetOptionsWrites(m: Model, name: Name, options: seq<(string, string)>, lower: string -> string)
    requires WellFormed(m)
    ensures var (m', r) := Apply(m, SetOptions(name, options), lower);
            match Found(m, name)
            case None => r == Err(NotFound)
            case Some(t) => r.Ok? && r.value == Found(m', name) == Some(t.(options := options))
  {
    AltersFound(m, SetOptions(name, options), lower);
    if Found(m, name).Some? {
      FoundAfterUpdate(m, Found(m, name).value.(options := options), name);
    }
  }

  /** `update_table_size` writes the block count of the table with that OID. */
  lemma UpdateTableSizeWrites(m: Model, o: Oid, n: u32, lower: string -> string, name: Name)
    requires WellFormed(m)
    ensures var (m', r) := Apply(m, UpdateTableSize(o, n), lower);
            && (r == if o in m then Ok(None) else Err(NotFound))
            && Found(m', name) ==
               match Found(m, name) case None => None case Some(t) => Some(if t.oid == o then t.(nBlocks := n) else t)
  {
    if o in m {
      assert RelationOk(m, o);
      FoundAfterUpdate(m, m[o].table.(nBlocks := n), name);
    }
    if Found(m, name).Some? {
      assert RelationOk(m, TableAt(m, ResolveTable(m, name)));
    }
  }

  /** A moved table is found under its new key and leaves its old one unbound. */
  lemma FoundAfterMove(m: Model, t: TableEntry, there: Name)
    requires WellFormed(m) && t.oid in m && Fold(there) == TableKey(t)
    requires forall o :: HasTable(m, TableKey(t), o) ==> o == t.oid
    ensures Found(WithTable(m, t), there) == Some(t)
    ensures TableKey(t) != TableKey(m[t.oid].table) ==> !TableBound(WithTable(m, t), TableKey(m[t.oid].table))
  {
    var m' := WithTable(m, t);
    SetTableKeeps(m, t);
    FoundUnderKey(m', there, t.oid);
    assert HasTable(m, TableKey(m[t.oid].table), t.oid);
    forall o | HasTable(m', TableKey(m[t.oid].table), o) ensures TableKey(t) == TableKey(m[t.oid].table) {
      assert o != t.oid ==> HasTable(m, TableKey(m[t.oid].table), o);
    }
  }

  /** `rename` fails exactly on a missing table or a bound new key; otherwise the table moves there with all it had. */
  lemma RenameMoves(m: Model, name: Name, newName: Name, lower: string -> string, there: Name)
    requires WellFormed(m)
    requires Found(m, name).Some? ==> Fold(there) == TableLookupKey(Found(m, name).value.schemaName, newName)
    ensures var (m', r) := Apply(m, Rename(name, newName), lower);
            match Found(m, name)
            case None => r == Err(NotFound)
            case Some(t) =>
              if TableBound(m, Fold(there)) then r == Err(AlreadyExists)
              else
                && r.Ok? && r.value == Found(m', there) == Some(t.(name := newName))
                && !TableBound(m', TableKey(t))
  {
    AltersFound(m, Rename(name, newName), lower);
    if Found(m, name).Some? && !TableBound(m, Fold(there)) {
      FoundAfterMove(m, Found(m, name).value.(name := newName), there);
    }
  }

  /** `set_schema` does the same with the folded namespace, and may leave the key as it is. */
  lemma SetSchemaMoves(m: Model, name: Name, newSchema: Name, lower: string -> string, there: Name)
    requires WellFormed(m)
    requires Found(m, name).Some? ==> Fold(there) == TableLookupKey(newSchema, Found(m, name).value.name)
    ensures var (m', r) := Apply(m, SetSchema(name, newSchema), lower);
            match Found(m, name)
            case None => r == Err(NotFound)
            case Some(t) =>
              if Fold(there) != TableKey(t) && TableBound(m, Fold(there)) then r == Err(AlreadyExists)
              else
                && r.Ok? && r.value == Found(m', there) == Some(t.(schemaName := Fold(newSchema)))
                && (Fold(there) != TableKey(t) ==> !TableBound(m', TableKey(t)))
  {
    AltersFound(m, SetSchema(name, newSchema), lower);
    FoldIsIdempotent(newSchema);
    if Found(m, name).Some? {
      var t := Found(m, name).value;
      if Fold(there) == TableKey(t) || !TableBound(m, Fold(there)) {
        FoundAfterMove(m, t.(schemaName := Fold(newSchema)), there);
      }
    }
  }

  // ----- Tables and indexes that come and go -----

  /** `create_table` succeeds exactly on a valid, unused OID and an unbound key; the table is then found, unindexed. */
  lemma CreateTableBinds(m: Model, t: TableEntry, lower: string -> string, there: Name)
    requires WellFormed(m) && Fold(there) == TableKey(t)
    ensures var (m', r) := Apply(m, CreateTable(t), lower);
            if t.oid == 0 then r == Err(SchemaConflict)
            else if TableBound(m, TableKey(t)) || t.oid in m then r == Err(AlreadyExists)
            else r == Ok(None) && Found(m', there) == Some(t) && t.oid in m' && m'[t.oid].indexes == []
  {
    if t.oid != 0 && !TableBound(m, TableKey(t)) && t.oid !in m {
      AddTableKeeps(m, t);
      FoundUnderKey(m[t.oid := Relation(t, [])], there, t.oid);
    }
  }

  lemma SearchPathKey(schemaName: Name, name: Name)
    requires !Dotted(name)
    requires Fold(schemaName) == "public" || Fold(schemaName) == "pg_catalog"
          || Fold(schemaName) == "information_schema"
    ensures TableLookupKey(schemaName, name) == Fold(name)
  {
    FoldKeeps(name, '.');
  }

  /** A table with an undotted name in a namespace of the search path is found by its name alone. */
  lemma SearchPathFinds(m: Model, t: TableEntry, lower: string -> string)
    requires WellFormed(m) && !Dotted(t.name)
    requires Fold(t.schemaName) == "public" || Fold(t.schemaName) == "pg_catalog"
          || Fold(t.schemaName) == "information_schema"
    ensures Apply(m, CreateTable(t), lower).1.Ok? ==> Found(Apply(m, CreateTable(t), lower).0, t.name) == Some(t)
  {
    SearchPathKey(t.schemaName, t.name);
    CreateTableBinds(m, t, lower, t.name);
  }

  /** `drop_table` succeeds exactly on a table the name finds; the table, its indexes and its key are then free. */
  lemma DropTableUnbinds(m: Model, name: Name, lower: string -> string)
    requires WellFormed(m)
    ensures var (m', r) := Apply(m, DropTable(name), lower);
            match Found(m, name)
            case None => r == Err(NotFound)
            case Some(t) => r == Ok(None) && m'.Keys == m.Keys - {t.oid} && !TableBound(m', TableKey(t))
  {
    var m' := Apply(m, DropTable(name), lower).0;
    if Found(m, name).Some? {
      var o := TableAt(m, ResolveTable(m, name));
      assert RelationOk(m, o) && HasTable(m, TableKey(m[o].table), o);
      assert forall o' :: HasTable(m', TableKey(m[o].table), o') ==> HasTable(m, TableKey(m[o].table), o');
    }
  }

  /** An index belongs on its table: a valid OID, the table's own namespace and columns the table has. */
  ghost predicate Indexable(m: Model, e: IndexEntry) {
    && e.oid != 0 && e.tableOid in m && Fold(e.schemaName) == Fold(m[e.tableOid].table.schemaName)
    && forall i :: 0 <= i < |e.columns| ==> e.columns[i] < Width(m[e.tableOid])
  }

  /** `create_index` lists an index last on its table exactly when it belongs there and its key is unbound. */
  lemma CreateIndexLists(m: Model, e: IndexEntry, lower: string -> string)
    requires WellFormed(m)
    ensures var (m', r) := Apply(m, CreateIndex(e), lower);
            if !Indexable(m, e) then r == Err(SchemaConflict)
            else if IndexBound(m, IndexKey(e)) then r == Err(AlreadyExists)
            else r == Ok(None) && m'[e.tableOid].indexes == m[e.tableOid].indexes + [e]
  {
  }

  lemma UnlistedIsUnbound(m: Model, k: string, o: Oid, p: nat)
    requires WellFormed(m) && HasIndex(m, k, o, p)
    ensures !IndexBound(m[o := WithoutIndex(m[o], p)], k)
  {
    var m' := m[o := WithoutIndex(m[o], p)];
    forall o1, p1: nat | HasIndex(m', k, o1, p1) ensures false {
      assert HasIndex(m, k, o1, if o1 == o && p1 >= p then p1 + 1 else p1);
    }
  }

  /** `drop_index` takes exactly the index bound to the name's key off its table's list. */
  lemma DropIndexUnlists(m: Model, name: Name, lower: string -> string, o: Oid, p: nat)
    requires WellFormed(m) && HasIndex(m, ResolveIndex(m, name), o, p)
    ensures var (m', r) := Apply(m, DropIndex(name), lower);
            && r == Ok(None) && !IndexBound(m', ResolveIndex(m, name))
            && o in m' && m'[o].indexes == m[o].indexes[..p] + m[o].indexes[p + 1..]
  {
    assert IndexAt(m, ResolveIndex(m, name)) == (o, p);
    UnlistedIsUnbound(m, ResolveIndex(m, name), o, p);
  }

  lemma DropMissingIndexFails(m: Model, name: Name, lower: string -> string)
    requires WellFormed(m) && !IndexBound(m, ResolveIndex(m, name))
    ensures Apply(m, DropIndex(name), lower) == (m, Err(NotFound))
  {
  }
}

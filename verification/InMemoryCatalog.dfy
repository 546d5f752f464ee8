/** The in-memory catalog (crates/ultrasql-catalog/src/memory.rs), one thread at a time. */
module InMemory {
  import opened Wrappers
  import opened Text
  import opened LookupKeys
  import opened DataTypes
  import opened CatalogEntries
  import opened CatalogModel
  import opened CatalogEffects
  import opened CatalogMaps

  class InMemoryCatalog {
    var tablesByName: TableNames
    var tablesByOid: TableOids
    var indexesByName: IndexNames
    var indexesByTable: IndexLists
    var nextOid: u32
    /** Unicode lower-casing of column names, as `Schema::new` applies it. */
    const lower: string -> string

    ghost function State(): Maps
      reads this
    {
      Maps(tablesByName, tablesByOid, indexesByName, indexesByTable)
    }

    /** The four maps are views of one catalog. */
    ghost predicate Valid()
      reads this
    {
      Agree(State())
    }

    ghost function Contents(): (m: Model)
      requires Valid()
      reads this
      ensures WellFormed(m)
    {
      AgreeIsWellFormed(State());
      ModelOf(State())
    }

    constructor (lower: string -> string)
      ensures Valid() && Contents() == map[] && nextOid == FIRST_USER_OID && this.lower == lower
    {
      tablesByName, tablesByOid, indexesByName, indexesByTable := map[], map[], map[], map[];
      nextOid := FIRST_USER_OID;
      this.lower := lower;
    }

    /** Hands out the counter and advances it, wrapping at 2^32. */
    method NextOid() returns (oid: Oid)
      modifies this`nextOid
      ensures oid == old(nextOid)
      ensures forall n: nat :: old(nextOid) == AllocatedOid(n) ==>
                                 oid == AllocatedOid(n) && nextOid == AllocatedOid(n + 1)
    {
      oid := nextOid;
      nextOid := (nextOid + 1) % 0x1_0000_0000;
    }

    // ----- Lookups -----

    method TableKeyForUnqualified(name: Name) returns (key: string)
      requires Valid()
      ensures key == ResolveTable(Contents(), name)
    {
      TableKeysMatch(State(), Fold(name));
      var folded := Fold(name);
      if folded in tablesByName {
        return folded;
      }
      var publicKey := TableLookupKey("public", name);
      key := if publicKey == folded then folded else publicKey;
    }

    method IndexKeyForUnqualified(name: Name) returns (key: string)
      requires Valid()
      ensures key == ResolveIndex(Contents(), name)
    {
      IndexKeysMatch(State(), Fold(name));
      var folded := Fold(name);
      if folded in indexesByName {
        return folded;
      }
      var publicKey := IndexLookupKey("public", name);
      key := if publicKey == folded then folded else publicKey;
    }

    /** Finds the one table bound to the name's key, if there is one. */
    method LookupTable(name: Name) returns (r: Option<TableEntry>)
      requires Valid()
      ensures r.Some? <==> TableBound(Contents(), ResolveTable(Contents(), name))
      ensures r.Some? ==> HasTable(Contents(), ResolveTable(Contents(), name), r.value.oid)
      ensures r.Some? ==> Contents()[r.value.oid].table == r.value
      ensures r == Found(Contents(), name)
    {
      var folded := Fold(name);
      TableKeysMatch(State(), folded);
      TableKeysMatch(State(), PublicKey(name));
      if folded in tablesByName {
        return Some(tablesByName[folded]);
      }
      var publicKey := TableLookupKey("public", name);
      if publicKey == folded || publicKey !in tablesByName {
        return None;
      }
      r := Some(tablesByName[publicKey]);
    }

    method LookupTableByOid(oid: Oid) returns (r: Option<TableEntry>)
      requires Valid()
      ensures r == if oid in Contents() then Some(Contents()[oid].table) else None
    {
      r := if oid in tablesByOid then Some(tablesByOid[oid]) else None;
    }

    method ListIndexesForTable(oid: Oid) returns (r: seq<IndexEntry>)
      requires Valid()
      ensures r == if oid in Contents() then Contents()[oid].indexes else []
    {
      r := if oid in indexesByTable then indexesByTable[oid] else [];
    }

    // ----- Mutators -----

    method CreateTable(entry: TableEntry) returns (r: Reply)
      requires Valid()
      modifies this
      ensures Valid() && (Contents(), r) == Apply(old(Contents()), Op.CreateTable(entry), lower)
      ensures r.Err? ==> unchanged(this)
    {
      TableKeysMatch(State(), TableKey(entry));
      if entry.oid == INVALID {
        return Err(SchemaConflict);
      }
      var key := TableKey(entry);
      if key in tablesByName || entry.oid in tablesByOid {
        return Err(AlreadyExists);
      }
      AddTableAgrees(State(), entry);
      tablesByOid := tablesByOid[entry.oid := entry];
      tablesByName := tablesByName[key := entry];
      return Ok(None);
    }

    /** Removes the indexes of a table from both index maps. */
    method DropIndexesForTable(oid: Oid)
      modifies this`indexesByName, this`indexesByTable
      ensures indexesByTable == old(indexesByTable) - {oid}
      ensures indexesByName == old(indexesByName) - Keys(IndexesOf(old(indexesByTable), oid))
    {
      if oid in indexesByTable {
        var indexes := indexesByTable[oid];
        indexesByTable := indexesByTable - {oid};
        for i := 0 to |indexes|
          invariant indexesByTable == old(indexesByTable) - {oid}
          invariant indexesByName == old(indexesByName) - Keys(indexes[..i])
        {
          assert indexes[..i + 1] == indexes[..i] + [indexes[i]];
          indexesByName := indexesByName - {IndexKey(indexes[i])};
        }
        assert indexes[..|indexes|] == indexes;
      }
    }

    method DropTable(name: Name) returns (r: Reply)
      requires Valid()
      modifies this
      ensures Valid() && (Contents(), r) == Apply(old(Contents()), Op.DropTable(name), lower)
      ensures r.Err? ==> unchanged(this)
    {
      var key := TableKeyForUnqualified(name);
      TableKeysMatch(State(), key);
      if key !in tablesByName {
        return Err(NotFound);
      }
      RemoveTableAgrees(State(), key);
      var removed := tablesByName[key];
      tablesByName := tablesByName - {key};
      tablesByOid := tablesByOid - {removed.oid};
      DropIndexesForTable(removed.oid);
      return Ok(None);
    }

    /** Whether some column of a new index lies outside the table. */
    method ColumnOutOfRange(columns: seq<u16>, width: nat) returns (b: bool)
      ensures b <==> exists i :: 0 <= i < |columns| && columns[i] >= width
    {
      for i := 0 to |columns|
        invariant forall j :: 0 <= j < i ==> columns[j] < width
      {
        if columns[i] >= width {
          return true;
        }
      }
      return false;
    }

    /** The checks before an index is created, in their order. */
    method FaultOf(entry: IndexEntry) returns (fault: Option<CatalogError>)
      requires Valid()
      ensures fault == IndexFault(Contents(), entry)
    {
      IndexKeysMatch(State(), IndexKey(entry));
      if entry.oid == INVALID || entry.tableOid !in tablesByOid {
        return Some(SchemaConflict);
      }
      var parent := tablesByOid[entry.tableOid];
      if Fold(entry.schemaName) != Fold(parent.schemaName) {
        return Some(SchemaConflict);
      }
      var outside := ColumnOutOfRange(entry.columns, |parent.schema.fields|);
      if outside {
        return Some(SchemaConflict);
      }
      if IndexKey(entry) in indexesByName {
        return Some(AlreadyExists);
      }
      return None;
    }

    method CreateIndex(entry: IndexEntry) returns (r: Reply)
      requires Valid()
      modifies this
      ensures Valid() && (Contents(), r) == Apply(old(Contents()), Op.CreateIndex(entry), lower)
      ensures r.Err? ==> unchanged(this)
    {
      var fault := FaultOf(entry);
      if fault.Some? {
        return Err(fault.value);
      }
      CreateIndexAgrees(State(), entry, lower);
      indexesByTable := indexesByTable[entry.tableOid := IndexesOf(indexesByTable, entry.tableOid) + [entry]];
      indexesByName := indexesByName[IndexKey(entry) := entry];
      assert State() == IndexAdded(old(State()), entry);
      return Ok(None);
    }

    /**
     Removes by name from one map and by OID from the other: the maps stay in agreement exactly when
     no other index of the table has the removed OID, and then the catalog loses just that index.
     */
    method DropIndex(name: Name) returns (r: Reply)
      requires Valid()
      modifies this
      ensures r == Apply(old(Contents()), Op.DropIndex(name), lower).1
      ensures r.Err? ==> unchanged(this)
      ensures r.Ok? ==> (Valid() <==> DropsSoleOid(old(Contents()), name))
      ensures r.Ok? && Valid() ==> Contents() == Apply(old(Contents()), Op.DropIndex(name), lower).0
    {
      var key := IndexKeyForUnqualified(name);
      if key !in indexesByName {
        DropIndexMissing(State(), name, lower);
        return Err(NotFound);
      }
      DropIndexPresent(State(), name);
      DropIndexMatches(State(), name, lower);
      var removed := indexesByName[key];
      indexesByName := indexesByName - {key};
      if removed.tableOid in indexesByTable {
        indexesByTable := indexesByTable[removed.tableOid := Retain(indexesByTable[removed.tableOid], removed.oid)];
      }
      assert State() == IndexDropped(old(State()), key);
      return Ok(None);
    }

    method UpdateTableSize(oid: Oid, nBlocks: u32) returns (r: Reply)
      requires Valid()
      modifies this
      ensures Valid() && (Contents(), r) == Apply(old(Contents()), Op.UpdateTableSize(oid, nBlocks), lower)
      ensures r.Err? ==> unchanged(this)
    {
      if oid !in tablesByOid {
        return Err(NotFound);
      }
      var entry := tablesByOid[oid].(nBlocks := nBlocks);
      UpdateSizeApplies(Contents(), oid, nBlocks, lower);
      UpdateTableAgrees(State(), entry);
      tablesByOid := tablesByOid[oid := entry];
      var key := TableKey(entry);
      if key in tablesByName {
        tablesByName := tablesByName[key := tablesByName[key].(nBlocks := nBlocks)];
      }
      return Ok(None);
    }

    /** Overwrites an entry in both table maps, where it is present. */
    method Overwrite(key: string, updated: TableEntry)
      modifies this`tablesByName, this`tablesByOid
      ensures tablesByName == if key in old(tablesByName) then old(tablesByName)[key := updated] else old(tablesByName)
      ensures tablesByOid ==
              if updated.oid in old(tablesByOid) then old(tablesByOid)[updated.oid := updated] else old(tablesByOid)
    {
      if key in tablesByName {
        tablesByName := tablesByName[key := updated];
      }
      if updated.oid in tablesByOid {
        tablesByOid := tablesByOid[updated.oid := updated];
      }
    }

    method AlterTableAddColumn(name: Name, column: Field) returns (r: Reply)
      requires Valid()
      modifies this
      ensures Valid() && (Contents(), r) == Apply(old(Contents()), AddColumn(name, column), lower)
      ensures r.Err? ==> unchanged(this)
      ensures r.Ok? ==>
                var before := old(Found(Contents(), name));
                && before.Some? && r.value == Found(Contents(), name)
                && r.value == Some(before.value.(schema := Schema(before.value.schema.fields + [column])))
    {
      AddColumnAppends(Contents(), name, column, lower);
      var key := TableKeyForUnqualified(name);
      AlterActsOnNamed(State(), AddColumn(name, column), lower);
      if key !in tablesByName {
        return Err(NotFound);
      }
      var existing := tablesByName[key];
      match NewSchema(existing.schema.fields + [column], lower)
      case None =>
        return Err(SchemaConflict);
      case Some(schema) =>
        var updated := existing.(schema := schema);
        UpdateTableAgrees(State(), updated);
        Overwrite(key, updated);
        return Ok(Some(updated));
    }

    method AlterTableReplaceSchema(name: Name, schema: Schema) returns (r: Reply)
      requires Valid()
      modifies this
      ensures Valid() && (Contents(), r) == Apply(old(Contents()), ReplaceSchema(name, schema), lower)
      ensures r.Err? ==> unchanged(this)
      ensures r.Ok? ==>
                var before := old(Found(Contents(), name));
                before.Some? && r.value == Found(Contents(), name) == Some(before.value.(schema := schema))
    {
      ReplaceSchemaWrites(Contents(), name, schema, lower);
      var key := TableKeyForUnqualified(name);
      AlterActsOnNamed(State(), ReplaceSchema(name, schema), lower);
      if key !in tablesByName {
        return Err(NotFound);
      }
      var updated := tablesByName[key].(schema := schema);
      UpdateTableAgrees(State(), updated);
      Overwrite(key, updated);
      return Ok(Some(updated));
    }

    method AlterTableOptions(name: Name, options: seq<(string, string)>) returns (r: Reply)
      requires Valid()
      modifies this
      ensures Valid() && (Contents(), r) == Apply(old(Contents()), SetOptions(name, options), lower)
      ensures r.Err? ==> unchanged(this)
      ensures r.Ok? ==>
                var before := old(Found(Contents(), name));
                before.Some? && r.value == Found(Contents(), name) == Some(before.value.(options := options))
    {
      SetOptionsWrites(Contents(), name, options, lower);
      var key := TableKeyForUnqualified(name);
      AlterActsOnNamed(State(), SetOptions(name, options), lower);
      if key !in tablesByName {
        return Err(NotFound);
      }
      var updated := tablesByName[key].(options := options);
      UpdateTableAgrees(State(), updated);
      Overwrite(key, updated);
      return Ok(Some(updated));
    }

    /** Takes the table off its old key and stores its updated entry under its new one. */
    method Rekey(oldKey: string, newKey: string, updated: TableEntry)
      requires Valid() && oldKey in tablesByName && tablesByName[oldKey].oid == updated.oid
      requires newKey == TableKey(updated) && (newKey == oldKey || newKey !in tablesByName)
      modifies this`tablesByName, this`tablesByOid
      ensures Valid() && updated.oid in old(Contents()) && Contents() == WithTable(old(Contents()), updated)
    {
      MoveTableAgrees(State(), oldKey, updated);
      tablesByName := tablesByName - {oldKey};
      tablesByName := tablesByName[newKey := updated];
      if updated.oid in tablesByOid {
        tablesByOid := tablesByOid[updated.oid := updated];
      }
    }

    method AlterTableRename(name: Name, newName: Name) returns (r: Reply)
      requires Valid()
      modifies this
      ensures Valid() && (Contents(), r) == Apply(old(Contents()), Rename(name, newName), lower)
      ensures r.Err? ==> unchanged(this)
    {
      var oldKey := TableKeyForUnqualified(name);
      AlterActsOnNamed(State(), Rename(name, newName), lower);
      if oldKey !in tablesByName {
        return Err(NotFound);
      }
      var existing := tablesByName[oldKey];
      var newKey := TableLookupKey(existing.schemaName, newName);
      TableKeysMatch(State(), newKey);
      if newKey in tablesByName {
        return Err(AlreadyExists);
      }
      var updated := existing.(name := newName);
      Rekey(oldKey, newKey, updated);
      return Ok(Some(updated));
    }

    method AlterTableSetSchema(name: Name, newSchema: Name) returns (r: Reply)
      requires Valid()
      modifies this
      ensures Valid() && (Contents(), r) == Apply(old(Contents()), SetSchema(name, newSchema), lower)
      ensures r.Err? ==> unchanged(this)
    {
      var schema: Name := Fold(newSchema);
      var oldKey := TableKeyForUnqualified(name);
      AlterActsOnNamed(State(), SetSchema(name, newSchema), lower);
      if oldKey !in tablesByName {
        return Err(NotFound);
      }
      var existing := tablesByName[oldKey];
      var newKey := TableLookupKey(schema, existing.name);
      TableKeysMatch(State(), newKey);
      if newKey != oldKey && newKey in tablesByName {
        return Err(AlreadyExists);
      }
      var updated := existing.(schemaName := schema);
      Rekey(oldKey, newKey, updated);
      return Ok(Some(updated));
    }

    // ----- Runs -----

    method Execute(op: Op) returns (r: Reply)
      requires Valid() && OidsDistinct(Contents())
      modifies this
      ensures Valid() && (Contents(), r) == Apply(old(Contents()), op, lower)
      ensures r.Err? ==> unchanged(this)
    {
      match op
      case CreateTable(table) => r := CreateTable(table);
      case DropTable(name) => r := DropTable(name);
      case CreateIndex(index) => r := CreateIndex(index);
      case DropIndex(name) => r := DropIndex(name);
      case UpdateTableSize(oid, n) => r := UpdateTableSize(oid, n);
      case AddColumn(name, column) => r := AlterTableAddColumn(name, column);
      case ReplaceSchema(name, schema) => r := AlterTableReplaceSchema(name, schema);
      case SetOptions(name, options) => r := AlterTableOptions(name, options);
      case Rename(name, newName) => r := AlterTableRename(name, newName);
      case SetSchema(name, newSchema) => r := AlterTableSetSchema(name, newSchema);
    }

    /** A run whose new indexes bring fresh OIDs keeps the four maps views of the catalog the run describes. */
    method Run(ops: seq<Op>)
      requires Valid() && OidsDistinct(Contents()) && FreshRun(Contents(), ops, lower)
      modifies this
      ensures Valid() && OidsDistinct(Contents()) && Contents() == RunOps(old(Contents()), ops, lower)
      decreases |ops|
    {
      if ops != [] {
        ApplyKeepsWellFormed(Contents(), ops[0], lower);
        ApplyKeepsOidsIff(Contents(), ops[0], lower);
        var _ := Execute(ops[0]);
        Run(ops[1..]);
      }
    }
  }
}

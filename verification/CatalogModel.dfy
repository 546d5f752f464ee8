/**
 The catalog as one map from table OIDs to a table and its indexes: what each operation of
 `MutableCatalog` means, and what every run of operations keeps.
 */
module CatalogModel {
  import opened Wrappers
  import opened Text
  import opened LookupKeys
  import opened DataTypes
  import opened CatalogEntries

  /** A table with its indexes in creation order. */
  datatype Relation = Relation(table: TableEntry, indexes: seq<IndexEntry>)

  type Model = map<Oid, Relation>

  datatype CatalogError = AlreadyExists | NotFound | SchemaConflict

  datatype Op =
    | CreateTable(table: TableEntry)
    | DropTable(name: Name)
    | CreateIndex(index: IndexEntry)
    | DropIndex(name: Name)
    | UpdateTableSize(oid: Oid, nBlocks: u32)
    | AddColumn(name: Name, column: Field)
    | ReplaceSchema(name: Name, schema: Schema)
    | SetOptions(name: Name, options: seq<(string, string)>)
    | Rename(name: Name, newName: Name)
    | SetSchema(name: Name, newSchema: Name)

  /** What an operation returns: the alter operations hand back the updated entry. */
  type Reply = Result<Option<TableEntry>, CatalogError>

  predicate HasTable(m: Model, k: string, o: Oid) {
    o in m && TableKey(m[o].table) == k
  }

  predicate HasIndex(m: Model, k: string, o: Oid, p: nat) {
    o in m && p < |m[o].indexes| && IndexKey(m[o].indexes[p]) == k
  }

  ghost predicate TableBound(m: Model, k: string) {
    exists o :: HasTable(m, k, o)
  }

  ghost predicate IndexBound(m: Model, k: string) {
    exists o, p :: HasIndex(m, k, o, p)
  }

  ghost function TableAt(m: Model, k: string): (o: Oid)
    requires TableBound(m, k)
    ensures HasTable(m, k, o)
  {
    var o :| HasTable(m, k, o);
    o
  }

  ghost function IndexAt(m: Model, k: string): (at: (Oid, nat))
    requires IndexBound(m, k)
    ensures HasIndex(m, k, at.0, at.1)
  {
    var o, p :| HasIndex(m, k, o, p);
    (o, p)
  }

  /** The key an unqualified table name stands for: the name itself when it is bound. */
  ghost function ResolveTable(m: Model, name: Name): string {
    if TableBound(m, Fold(name)) then Fold(name) else PublicKey(name)
  }

  /** The table an unqualified name finds. */
  ghost function Found(m: Model, name: Name): Option<TableEntry> {
    var k := ResolveTable(m, name);
    if TableBound(m, k) then Some(m[TableAt(m, k)].table) else None
  }

  ghost function ResolveIndex(m: Model, name: Name): string {
    if IndexBound(m, Fold(name)) then Fold(name) else PublicKey(name)
  }

  /** Why an index cannot be created, if it cannot. */
  ghost function IndexFault(m: Model, e: IndexEntry): Option<CatalogError> {
    if e.oid == INVALID || e.tableOid !in m then Some(SchemaConflict)
    else if Fold(e.schemaName) != Fold(m[e.tableOid].table.schemaName) then Some(SchemaConflict)
    else if exists i :: 0 <= i < |e.columns| && e.columns[i] >= |m[e.tableOid].table.schema.fields| then
      Some(SchemaConflict)
    else if IndexBound(m, IndexKey(e)) then Some(AlreadyExists)
    else None
  }

  function WithoutIndex(r: Relation, p: nat): Relation
    requires p < |r.indexes|
  {
    r.(indexes := r.indexes[..p] + r.indexes[p + 1..])
  }

  /** Replaces the table entry stored under its own OID. */
  function WithTable(m: Model, t: TableEntry): Model
    requires t.oid in m
  {
    m[t.oid := m[t.oid].(table := t)]
  }

  /** Moves a table to the key of its updated entry, unless another table is bound there. */
  function Move(m: Model, updated: TableEntry, taken: bool): (Model, Reply)
    requires updated.oid in m
  {
    if taken then (m, Err(AlreadyExists)) else (WithTable(m, updated), Ok(Some(updated)))
  }

  /** Operations that look a table up by name and then act on its entry. */
  ghost function Alter(m: Model, o: Oid, op: Op, lower: string -> string): (Model, Reply)
    requires o in m && m[o].table.oid == o
  {
    var t := m[o].table;
    match op
    case AddColumn(_, column) =>
      (match NewSchema(t.schema.fields + [column], lower)
       case None => (m, Err(SchemaConflict))
       case Some(schema) => var t' := t.(schema := schema); (WithTable(m, t'), Ok(Some(t'))))
    case ReplaceSchema(_, schema) => var t' := t.(schema := schema); (WithTable(m, t'), Ok(Some(t')))
    case SetOptions(_, options) => var t' := t.(options := options); (WithTable(m, t'), Ok(Some(t')))
    case Rename(_, newName) =>
      var t' := t.(name := newName);
      Move(m, t', TableBound(m, TableKey(t')))
    case SetSchema(_, newSchema) =>
      var t' := t.(schemaName := Fold(newSchema));
      Move(m, t', TableKey(t') != TableKey(t) && TableBound(m, TableKey(t')))
    case _ => (m, Ok(None))
  }

  /** The effect and the reply of one operation. */
  ghost function Apply(m: Model, op: Op, lower: string -> string): (Model, Reply)
    requires WellFormed(m)
  {
    match op
    case CreateTable(t) =>
      if t.oid == INVALID then (m, Err(SchemaConflict))
      else if TableBound(m, TableKey(t)) || t.oid in m then (m, Err(AlreadyExists))
      else (m[t.oid := Relation(t, [])], Ok(None))
    case DropTable(name) =>
      var k := ResolveTable(m, name);
      if TableBound(m, k) then (m - {TableAt(m, k)}, Ok(None)) else (m, Err(NotFound))
    case CreateIndex(e) =>
      (match IndexFault(m, e)
       case Some(fault) => (m, Err(fault))
       case None => (WithIndex(m, e), Ok(None)))
    case DropIndex(name) =>
      var k := ResolveIndex(m, name);
      if IndexBound(m, k) then
        var (o, p) := IndexAt(m, k);
        (m[o := WithoutIndex(m[o], p)], Ok(None))
      else (m, Err(NotFound))
    case UpdateTableSize(o, n) =>
      if o in m then (WithTable(m, m[o].table.(nBlocks := n)), Ok(None)) else (m, Err(NotFound))
    case _ =>
      var k := ResolveTable(m, op.name);
      if TableBound(m, k) then Alter(m, TableAt(m, k), op, lower) else (m, Err(NotFound))
  }

  // ----- What every run keeps -----

  predicate RelationOk(m: Model, o: Oid)
    requires o in m
  {
    m[o].table.oid == o && forall p :: 0 <= p < |m[o].indexes| ==> m[o].indexes[p].tableOid == o
  }

  /** Tables sit at their OIDs, own their indexes, and no two tables and no two indexes share a key. */
  ghost predicate WellFormed(m: Model) {
    && (forall o :: o in m ==> RelationOk(m, o))
    && (forall k, o1, o2 :: HasTable(m, k, o1) && HasTable(m, k, o2) ==> o1 == o2)
    && (forall k, o1, p1, o2, p2 :: HasIndex(m, k, o1, p1) && HasIndex(m, k, o2, p2) ==> o1 == o2 && p1 == p2)
  }

  predicate OidsOk(r: Relation) {
    forall p, q :: 0 <= p < q < |r.indexes| ==> r.indexes[p].oid != r.indexes[q].oid
  }

  /** The indexes of one table have different OIDs. */
  ghost predicate OidsDistinct(m: Model) {
    forall o :: o in m ==> OidsOk(m[o])
  }

  predicate ColumnsBelow(r: Relation, width: nat) {
    forall p, i :: 0 <= p < |r.indexes| && 0 <= i < |r.indexes[p].columns| ==> r.indexes[p].columns[i] < width
  }

  /** Every index column names a column of its table. */
  ghost predicate AttnumsInRange(m: Model) {
    forall o :: o in m ==> ColumnsBelow(m[o], |m[o].table.schema.fields|)
  }

  /** An index that can be created brings an OID that no index of its table has. */
  ghost predicate FreshIndexOid(m: Model, op: Op) {
    op.CreateIndex? && IndexFault(m, op.index) == None ==>
      forall p :: 0 <= p < |m[op.index.tableOid].indexes| ==> m[op.index.tableOid].indexes[p].oid != op.index.oid
  }

  /** A replaced schema still has every indexed column; one at least as wide as the old always does. */
  ghost predicate CoversIndexes(m: Model, op: Op) {
    op.ReplaceSchema? ==>
      forall o :: HasTable(m, ResolveTable(m, op.name), o) ==> ColumnsBelow(m[o], |op.schema.fields|)
  }

  lemma AddTableKeeps(m: Model, t: TableEntry)
    requires WellFormed(m) && t.oid !in m && !TableBound(m, TableKey(t))
    ensures WellFormed(m[t.oid := Relation(t, [])])
  {
    var m' := m[t.oid := Relation(t, [])];
    forall k, o | HasTable(m', k, o) ensures o == t.oid || HasTable(m, k, o) {}
    forall k, o, p | HasIndex(m', k, o, p) ensures HasIndex(m, k, o, p) {}
    forall o | o in m' ensures RelationOk(m', o) {
      assert o != t.oid ==> RelationOk(m, o);
    }
  }

  lemma RemoveTableKeeps(m: Model, o: Oid)
    requires WellFormed(m)
    ensures WellFormed(m - {o})
  {
    var m' := m - {o};
    forall k, o | HasTable(m', k, o) ensures HasTable(m, k, o) {}
    forall k, o, p | HasIndex(m', k, o, p) ensures HasIndex(m, k, o, p) {}
    forall o | o in m' ensures RelationOk(m', o) {
      assert RelationOk(m, o);
    }
  }

  lemma SetTableKeeps(m: Model, t: TableEntry)
    requires WellFormed(m) && t.oid in m
    requires forall o :: HasTable(m, TableKey(t), o) ==> o == t.oid
    ensures WellFormed(WithTable(m, t))
  {
    var m' := WithTable(m, t);
    forall k, o | HasTable(m', k, o) ensures if o == t.oid then k == TableKey(t) else HasTable(m, k, o) {}
    forall k, o, p | HasIndex(m', k, o, p) ensures HasIndex(m, k, o, p) {}
    forall o | o in m' ensures RelationOk(m', o) {
      assert RelationOk(m, o);
    }
  }

  function WithIndex(m: Model, e: IndexEntry): Model
    requires e.tableOid in m
  {
    m[e.tableOid := m[e.tableOid].(indexes := m[e.tableOid].indexes + [e])]
  }

  lemma AddIndexKeeps(m: Model, e: IndexEntry)
    requires WellFormed(m) && e.tableOid in m && !IndexBound(m, IndexKey(e))
    ensures WellFormed(WithIndex(m, e))
  {
    var m' := WithIndex(m, e);
    forall k, o | HasTable(m', k, o) ensures HasTable(m, k, o) {}
    forall k, o, p | HasIndex(m', k, o, p)
      ensures (o == e.tableOid && p == |m[o].indexes| && k == IndexKey(e)) || HasIndex(m, k, o, p)
    {}
    forall o | o in m' ensures RelationOk(m', o) {
      assert RelationOk(m, o);
    }
  }

  lemma RemoveIndexKeeps(m: Model, o: Oid, p: nat)
    requires WellFormed(m) && o in m && p < |m[o].indexes|
    ensures WellFormed(m[o := WithoutIndex(m[o], p)])
  {
    var m' := m[o := WithoutIndex(m[o], p)];
    forall k, o1 | HasTable(m', k, o1) ensures HasTable(m, k, o1) {}
    forall k, o1, p1: nat | HasIndex(m', k, o1, p1)
      ensures HasIndex(m, k, o1, if o1 == o && p1 >= p then p1 + 1 else p1)
    {}
    forall o1 | o1 in m' ensures RelationOk(m', o1) {
      assert RelationOk(m, o1);
    }
  }

  lemma AlterKeeps(m: Model, o: Oid, op: Op, lower: string -> string)
    requires WellFormed(m) && o in m && m[o].table.oid == o
    ensures WellFormed(Alter(m, o, op, lower).0)
  {
    var m' := Alter(m, o, op, lower).0;
    if m' != m {
      var t := m'[o].table;
      assert HasTable(m, TableKey(m[o].table), o);
      assert m' == WithTable(m, t);
      SetTableKeeps(m, t);
    }
  }

  /** Every operation keeps the catalog well formed, and a failed one changes nothing. */
  lemma ApplyKeepsWellFormed(m: Model, op: Op, lower: string -> string)
    requires WellFormed(m)
    ensures WellFormed(Apply(m, op, lower).0)
    ensures Apply(m, op, lower).1.Err? ==> Apply(m, op, lower).0 == m
  {
    match op
    case CreateTable(t) =>
      if t.oid !in m && !TableBound(m, TableKey(t)) {
        AddTableKeeps(m, t);
      }
    case DropTable(name) =>
      var k := ResolveTable(m, name);
      if TableBound(m, k) {
        RemoveTableKeeps(m, TableAt(m, k));
      }
    case CreateIndex(e) =>
      if IndexFault(m, e) == None {
        AddIndexKeeps(m, e);
      }
    case DropIndex(name) =>
      var k := ResolveIndex(m, name);
      if IndexBound(m, k) {
        RemoveIndexKeeps(m, IndexAt(m, k).0, IndexAt(m, k).1);
      }
    case UpdateTableSize(o, n) =>
      if o in m {
        assert RelationOk(m, o) && HasTable(m, TableKey(m[o].table), o);
        SetTableKeeps(m, m[o].table.(nBlocks := n));
      }
    case _ =>
      var k := ResolveTable(m, op.name);
      if TableBound(m, k) {
        assert RelationOk(m, TableAt(m, k));
        AlterKeeps(m, TableAt(m, k), op, lower);
      }
  }

  /** A new model that gives each table the indexes it had, and new tables none. */
  ghost predicate SameIndexes(m: Model, m': Model) {
    forall o :: o in m' ==> m'[o].indexes == (if o in m then m[o].indexes else [])
  }

  lemma AlterKeepsIndexes(m: Model, o: Oid, op: Op, lower: string -> string)
    requires o in m && m[o].table.oid == o
    ensures SameIndexes(m, Alter(m, o, op, lower).0)
  {
  }

  lemma OnlyIndexOpsTouchIndexes(m: Model, op: Op, lower: string -> string)
    requires WellFormed(m) && !op.CreateIndex? && !op.DropIndex?
    ensures SameIndexes(m, Apply(m, op, lower).0)
  {
    if op.UpdateTableSize? {
      assert op.oid in m ==> RelationOk(m, op.oid);
    } else if !op.CreateTable? && !op.DropTable? && TableBound(m, ResolveTable(m, op.name)) {
      var o := TableAt(m, ResolveTable(m, op.name));
      assert RelationOk(m, o);
      AlterKeepsIndexes(m, o, op, lower);
    }
  }

  /** From distinct index OIDs, an operation leaves them distinct unless it creates an index with a used OID. */
  lemma ApplyKeepsOidsIff(m: Model, op: Op, lower: string -> string)
    requires WellFormed(m) && OidsDistinct(m)
    ensures OidsDistinct(Apply(m, op, lower).0) <==> FreshIndexOid(m, op)
  {
    var m' := Apply(m, op, lower).0;
    match op
    case CreateIndex(e) =>
      if IndexFault(m, e) == None {
        AppendKeepsOidsIff(m[e.tableOid], e);
        assert OidsOk(m[e.tableOid]);
        assert forall o :: o in m && o != e.tableOid ==> m'[o] == m[o];
        assert m'[e.tableOid] == m[e.tableOid].(indexes := m[e.tableOid].indexes + [e]);
      }
    case DropIndex(name) =>
    case _ =>
      OnlyIndexOpsTouchIndexes(m, op, lower);
      forall o | o in m' ensures OidsOk(m'[o]) {
        assert o in m ==> OidsOk(m[o]);
      }
  }

  lemma AppendKeepsOidsIff(r: Relation, e: IndexEntry)
    requires OidsOk(r)
    ensures OidsOk(r.(indexes := r.indexes + [e]))
       <==> forall p :: 0 <= p < |r.indexes| ==> r.indexes[p].oid != e.oid
  {
    var r' := r.(indexes := r.indexes + [e]);
    if OidsOk(r') {
      forall p | 0 <= p < |r.indexes| ensures r.indexes[p].oid != e.oid {
        assert r'.indexes[p].oid != r'.indexes[|r.indexes|].oid;
      }
    }
  }

  function Width(r: Relation): nat {
    |r.table.schema.fields|
  }

  lemma OtherOpsKeepWidth(m: Model, op: Op, lower: string -> string)
    requires WellFormed(m) && !op.ReplaceSchema?
    ensures var m' := Apply(m, op, lower).0; forall o :: o in m' && o in m ==> Width(m[o]) <= Width(m'[o])
  {
    if op.UpdateTableSize? && op.oid in m {
      assert RelationOk(m, op.oid);
    }
  }

  lemma IndexOpsKeepAttnums(m: Model, op: Op, lower: string -> string)
    requires WellFormed(m) && AttnumsInRange(m) && (op.CreateIndex? || op.DropIndex?)
    ensures AttnumsInRange(Apply(m, op, lower).0)
  {
  }

  lemma ReplaceKeepsAttnumsIff(m: Model, op: Op, lower: string -> string)
    requires WellFormed(m) && AttnumsInRange(m) && op.ReplaceSchema?
    ensures AttnumsInRange(Apply(m, op, lower).0) <==> CoversIndexes(m, op)
  {
    var k := ResolveTable(m, op.name);
    if TableBound(m, k) {
      var o := TableAt(m, k);
      assert RelationOk(m, o);
      var m' := WithTable(m, m[o].table.(schema := op.schema));
      assert forall o1 :: o1 in m && o1 != o ==> m'[o1] == m[o1];
      assert ColumnsBelow(m'[o], Width(m'[o])) <==> ColumnsBelow(m[o], |op.schema.fields|);
    }
  }

  /** From attnums in range, an operation leaves them in range unless it replaces a schema by one too narrow. */
  lemma ApplyKeepsAttnumsIff(m: Model, op: Op, lower: string -> string)
    requires WellFormed(m) && AttnumsInRange(m)
    ensures AttnumsInRange(Apply(m, op, lower).0) <==> CoversIndexes(m, op)
  {
    if op.CreateIndex? || op.DropIndex? {
      IndexOpsKeepAttnums(m, op, lower);
    } else if op.ReplaceSchema? {
      ReplaceKeepsAttnumsIff(m, op, lower);
    } else {
      var m' := Apply(m, op, lower).0;
      OnlyIndexOpsTouchIndexes(m, op, lower);
      OtherOpsKeepWidth(m, op, lower);
      forall o | o in m' ensures ColumnsBelow(m'[o], Width(m'[o])) {
        assert o in m ==> ColumnsBelow(m[o], Width(m[o]));
      }
    }
  }

  // ----- Runs -----

  /** The catalog after a run of operations, failed ones included. */
  ghost function RunOps(m: Model, ops: seq<Op>, lower: string -> string): (m': Model)
    requires WellFormed(m)
    ensures WellFormed(m')
    decreases |ops|
  {
    if ops == [] then m
    else
      ApplyKeepsWellFormed(m, ops[0], lower);
      RunOps(Apply(m, ops[0], lower).0, ops[1..], lower)
  }

  /** Every created index brings an OID that no index of its table has. */
  ghost predicate FreshRun(m: Model, ops: seq<Op>, lower: string -> string)
    requires WellFormed(m)
    decreases |ops|
  {
    ops != [] ==>
      && FreshIndexOid(m, ops[0])
      && (ApplyKeepsWellFormed(m, ops[0], lower); FreshRun(Apply(m, ops[0], lower).0, ops[1..], lower))
  }

  /** No schema is replaced by one that loses an indexed column. */
  ghost predicate CoveringRun(m: Model, ops: seq<Op>, lower: string -> string)
    requires WellFormed(m)
    decreases |ops|
  {
    ops != [] ==>
      && CoversIndexes(m, ops[0])
      && (ApplyKeepsWellFormed(m, ops[0], lower); CoveringRun(Apply(m, ops[0], lower).0, ops[1..], lower))
  }

  /** A run keeps index OIDs distinct per table when it creates no index with a used OID. */
  lemma {:induction false} RunKeepsOids(m: Model, ops: seq<Op>, lower: string -> string)
    requires WellFormed(m) && OidsDistinct(m) && FreshRun(m, ops, lower)
    ensures OidsDistinct(RunOps(m, ops, lower))
    decreases |ops|
  {
    if ops != [] {
      ApplyKeepsWellFormed(m, ops[0], lower);
      ApplyKeepsOidsIff(m, ops[0], lower);
      RunKeepsOids(Apply(m, ops[0], lower).0, ops[1..], lower);
    }
  }

  /** A run keeps every index column inside its table when it shrinks no schema below one. */
  lemma {:induction false} RunKeepsAttnums(m: Model, ops: seq<Op>, lower: string -> string)
    requires WellFormed(m) && AttnumsInRange(m) && CoveringRun(m, ops, lower)
    ensures AttnumsInRange(RunOps(m, ops, lower))
    decreases |ops|
  {
    if ops != [] {
      ApplyKeepsWellFormed(m, ops[0], lower);
      ApplyKeepsAttnumsIff(m, ops[0], lower);
      RunKeepsAttnums(Apply(m, ops[0], lower).0, ops[1..], lower);
    }
  }
}

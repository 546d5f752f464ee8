/** The four maps of the in-memory catalog as views of one model. */
module CatalogMaps {
  import opened Wrappers
  import opened Text
  import opened CatalogEntries
  import opened CatalogModel

  type TableNames = map<string, TableEntry>
  type TableOids = map<Oid, TableEntry>
  type IndexNames = map<string, IndexEntry>
  type IndexLists = map<Oid, seq<IndexEntry>>

  datatype Maps = Maps(
    tablesByName: TableNames,
    tablesByOid: TableOids,
    indexesByName: IndexNames,
    indexesByTable: IndexLists)

  predicate TableNamed(names: TableNames, e: TableEntry) {
    TableKey(e) in names && names[TableKey(e)] == e
  }

  predicate TableStored(oids: TableOids, e: TableEntry) {
    e.oid in oids && oids[e.oid] == e
  }

  predicate IndexNamed(names: IndexNames, e: IndexEntry) {
    IndexKey(e) in names && names[IndexKey(e)] == e
  }

  predicate IndexListed(lists: IndexLists, e: IndexEntry) {
    e.tableOid in lists && e in lists[e.tableOid]
  }

  /** The by-name and by-OID maps hold the same tables, each under its own key and OID. */
  ghost predicate TablesAgree(names: TableNames, oids: TableOids) {
    && (forall k :: k in names ==> TableKey(names[k]) == k && TableStored(oids, names[k]))
    && (forall o :: o in oids ==> oids[o].oid == o && TableNamed(names, oids[o]))
  }

  predicate NoRepeats(list: seq<IndexEntry>) {
    forall p, q :: 0 <= p < q < |list| ==> list[p] != list[q]
  }

  /** A list holds indexes of its table, each once and each stored under its own key. */
  predicate ListOk(names: IndexNames, o: Oid, list: seq<IndexEntry>) {
    && NoRepeats(list)
    && forall p :: 0 <= p < |list| ==> list[p].tableOid == o && IndexNamed(names, list[p])
  }

  ghost predicate IndexesAgree(names: IndexNames, lists: IndexLists) {
    && (forall k :: k in names ==> IndexKey(names[k]) == k && IndexListed(lists, names[k]))
    && (forall o :: o in lists ==> ListOk(names, o, lists[o]))
  }

  /** The two table maps agree, the two index maps agree, and lists exist only for live tables. */
  ghost predicate Agree(s: Maps) {
    && TablesAgree(s.tablesByName, s.tablesByOid)
    && IndexesAgree(s.indexesByName, s.indexesByTable)
    && s.indexesByTable.Keys <= s.tablesByOid.Keys
  }

  /** The indexes of a table in creation order; a table without an entry has none. */
  function IndexesOf(lists: IndexLists, o: Oid): seq<IndexEntry> {
    if o in lists then lists[o] else []
  }

  /** The one set of tables and indexes the maps describe. */
  ghost function ModelOf(s: Maps): Model {
    map o | o in s.tablesByOid :: Relation(s.tablesByOid[o], IndexesOf(s.indexesByTable, o))
  }

  lemma TableKeysMatch(s: Maps, k: string)
    requires Agree(s)
    ensures TableBound(ModelOf(s), k) <==> k in s.tablesByName
    ensures k in s.tablesByName ==> HasTable(ModelOf(s), k, s.tablesByName[k].oid)
  {
    if k in s.tablesByName {
      assert HasTable(ModelOf(s), k, s.tablesByName[k].oid);
    }
  }

  /** An alter operation acts on the entry found under the resolved key. */
  lemma AlterActsOnNamed(s: Maps, op: Op, lower: string -> string)
    requires Agree(s) && WellFormed(ModelOf(s))
    requires op.AddColumn? || op.ReplaceSchema? || op.SetOptions? || op.Rename? || op.SetSchema?
    ensures var m, k := ModelOf(s), ResolveTable(ModelOf(s), op.name);
            if k in s.tablesByName then
              var t := s.tablesByName[k];
              t.oid in m && m[t.oid].table == t && TableKey(t) == k && Apply(m, op, lower) == Alter(m, t.oid, op, lower)
            else Apply(m, op, lower) == (m, Err(NotFound))
  {
    var m, k := ModelOf(s), ResolveTable(ModelOf(s), op.name);
    TableKeysMatch(s, k);
    if k in s.tablesByName {
      assert TableAt(m, k) == s.tablesByName[k].oid;
    }
  }

  lemma ListedIsNamed(s: Maps, k: string, o: Oid, p: nat)
    requires Agree(s) && HasIndex(ModelOf(s), k, o, p)
    ensures k in s.indexesByName && o in s.indexesByTable && p < |s.indexesByTable[o]|
    ensures s.indexesByName[k] == s.indexesByTable[o][p] && s.indexesByName[k].tableOid == o
  {
    assert ListOk(s.indexesByName, o, s.indexesByTable[o]);
  }

  lemma IndexKeysMatch(s: Maps, k: string)
    requires Agree(s)
    ensures IndexBound(ModelOf(s), k) <==> k in s.indexesByName
  {
    if k in s.indexesByName {
      var e := s.indexesByName[k];
      assert IndexListed(s.indexesByTable, e);
      var p :| 0 <= p < |s.indexesByTable[e.tableOid]| && s.indexesByTable[e.tableOid][p] == e;
      assert HasIndex(ModelOf(s), k, e.tableOid, p);
    }
    if IndexBound(ModelOf(s), k) {
      ListedIsNamed(s, k, IndexAt(ModelOf(s), k).0, IndexAt(ModelOf(s), k).1);
    }
  }

  /** Maps that agree describe a well-formed catalog. */
  lemma AgreeIsWellFormed(s: Maps)
    requires Agree(s)
    ensures WellFormed(ModelOf(s))
  {
    var m := ModelOf(s);
    forall o | o in m ensures RelationOk(m, o) {
      assert o in s.indexesByTable ==> ListOk(s.indexesByName, o, s.indexesByTable[o]);
    }
    forall k, o1, p1: nat, o2, p2: nat | HasIndex(m, k, o1, p1) && HasIndex(m, k, o2, p2) ensures o1 == o2 && p1 == p2 {
      ListedIsNamed(s, k, o1, p1);
      ListedIsNamed(s, k, o2, p2);
      assert ListOk(s.indexesByName, o1, s.indexesByTable[o1]);
    }
  }

  // ----- The map updates of each operation -----

  lemma AddTableAgrees(s: Maps, e: TableEntry)
    requires Agree(s) && TableKey(e) !in s.tablesByName && e.oid !in s.tablesByOid
    ensures var s' := s.(tablesByName := s.tablesByName[TableKey(e) := e], tablesByOid := s.tablesByOid[e.oid := e]);
            Agree(s') && ModelOf(s') == ModelOf(s)[e.oid := Relation(e, [])]
  {
    AddedTablesAgree(s.tablesByName, s.tablesByOid, e);
    StoredModel(s, s.tablesByName[TableKey(e) := e], e);
  }

  lemma AddedTablesAgree(names: TableNames, oids: TableOids, e: TableEntry)
    requires TablesAgree(names, oids) && TableKey(e) !in names && e.oid !in oids
    ensures TablesAgree(names[TableKey(e) := e], oids[e.oid := e])
  {
  }

  /** What storing a table entry by its OID does to the model, whatever names there are. */
  lemma StoredModel(s: Maps, names: TableNames, e: TableEntry)
    ensures ModelOf(s.(tablesByName := names, tablesByOid := s.tablesByOid[e.oid := e])) ==
            ModelOf(s)[e.oid := Relation(e, IndexesOf(s.indexesByTable, e.oid))]
  {
  }

  /** Moving a table to a free key, or updating it under its own, in both table maps. */
  function Moved(s: Maps, k: string, e: TableEntry): Maps {
    s.(tablesByName := (s.tablesByName - {k})[TableKey(e) := e], tablesByOid := s.tablesByOid[e.oid := e])
  }

  lemma MovedTablesAgree(names: TableNames, oids: TableOids, k: string, e: TableEntry)
    requires TablesAgree(names, oids) && k in names && names[k].oid == e.oid
    requires TableKey(e) == k || TableKey(e) !in names
    ensures TablesAgree((names - {k})[TableKey(e) := e], oids[e.oid := e])
  {
    var names', oids' := (names - {k})[TableKey(e) := e], oids[e.oid := e];
    forall o | o in oids' ensures oids'[o].oid == o && TableNamed(names', oids'[o]) {
      assert o in oids ==> TableNamed(names, oids[o]);
    }
    forall k' | k' in names' ensures TableKey(names'[k']) == k' && TableStored(oids', names'[k']) {
      assert TableStored(oids, names[k]);
      assert k' in names ==> TableStored(oids, names[k']) && TableKey(names[k']) == k';
    }
  }

  lemma MoveTableAgrees(s: Maps, k: string, e: TableEntry)
    requires Agree(s) && k in s.tablesByName && s.tablesByName[k].oid == e.oid
    requires TableKey(e) == k || TableKey(e) !in s.tablesByName
    ensures e.oid in ModelOf(s) && Agree(Moved(s, k, e)) && ModelOf(Moved(s, k, e)) == WithTable(ModelOf(s), e)
  {
    MovedTablesAgree(s.tablesByName, s.tablesByOid, k, e);
    assert TableStored(s.tablesByOid, s.tablesByName[k]);
    StoredModel(s, Moved(s, k, e).tablesByName, e);
  }

  /** Updating a table whose key stays the same. */
  lemma UpdateTableAgrees(s: Maps, e: TableEntry)
    requires Agree(s) && e.oid in s.tablesByOid && TableKey(s.tablesByOid[e.oid]) == TableKey(e)
    ensures var s' := s.(tablesByName := s.tablesByName[TableKey(e) := e], tablesByOid := s.tablesByOid[e.oid := e]);
            Agree(s') && ModelOf(s') == WithTable(ModelOf(s), e)
    ensures TableKey(e) in s.tablesByName && s.tablesByName[TableKey(e)] == s.tablesByOid[e.oid]
  {
    assert TableNamed(s.tablesByName, s.tablesByOid[e.oid]);
    MoveTableAgrees(s, TableKey(e), e);
    MovedInPlace(s.tablesByName, TableKey(e), e);
  }

  lemma UpdateSizeApplies(m: Model, oid: Oid, n: u32, lower: string -> string)
    requires WellFormed(m) && oid in m
    ensures m[oid].table.oid == oid
    ensures Apply(m, UpdateTableSize(oid, n), lower) == (WithTable(m, m[oid].table.(nBlocks := n)), Ok(None))
  {
    assert RelationOk(m, oid);
  }

  lemma MovedInPlace(names: TableNames, k: string, e: TableEntry)
    ensures (names - {k})[k := e] == names[k := e]
  {
  }

  /** The keys of listed indexes. */
  function Keys(list: seq<IndexEntry>): set<string> {
    set e | e in list :: IndexKey(e)
  }

  lemma RemoveListAgrees(names: IndexNames, lists: IndexLists, o: Oid)
    requires IndexesAgree(names, lists)
    ensures IndexesAgree(names - Keys(IndexesOf(lists, o)), lists - {o})
  {
    var names', lists' := names - Keys(IndexesOf(lists, o)), lists - {o};
    forall k | k in names' ensures IndexListed(lists', names'[k]) {
      assert IndexListed(lists, names[k]);
    }
    forall o' | o' in lists' ensures ListOk(names', o', lists'[o']) {
      assert ListOk(names, o', lists[o']);
      assert o in lists ==> ListOk(names, o, lists[o]);
    }
  }

  function TableRemoved(s: Maps, k: string): Maps
    requires k in s.tablesByName
  {
    var o := s.tablesByName[k].oid;
    Maps(s.tablesByName - {k}, s.tablesByOid - {o},
         s.indexesByName - Keys(IndexesOf(s.indexesByTable, o)), s.indexesByTable - {o})
  }

  lemma RemoveTableAgrees(s: Maps, k: string)
    requires Agree(s) && k in s.tablesByName
    ensures Agree(TableRemoved(s, k))
    ensures ModelOf(TableRemoved(s, k)) == ModelOf(s) - {s.tablesByName[k].oid}
  {
    RemoveListAgrees(s.indexesByName, s.indexesByTable, s.tablesByName[k].oid);
    RemoveNamedAgrees(s.tablesByName, s.tablesByOid, k);
    RemovedModel(s, TableRemoved(s, k), s.tablesByName[k].oid);
  }

  lemma RemovedModel(s: Maps, s': Maps, o: Oid)
    requires s'.tablesByOid == s.tablesByOid - {o} && s'.indexesByTable == s.indexesByTable - {o}
    ensures ModelOf(s') == ModelOf(s) - {o}
  {
  }

  lemma RemoveNamedAgrees(names: TableNames, oids: TableOids, k: string)
    requires TablesAgree(names, oids) && k in names
    ensures TablesAgree(names - {k}, oids - {names[k].oid})
  {
  }

  function IndexAdded(s: Maps, e: IndexEntry): Maps {
    s.(indexesByName := s.indexesByName[IndexKey(e) := e],
       indexesByTable := s.indexesByTable[e.tableOid := IndexesOf(s.indexesByTable, e.tableOid) + [e]])
  }

  lemma AppendListAgrees(names: IndexNames, lists: IndexLists, e: IndexEntry)
    requires IndexesAgree(names, lists) && IndexKey(e) !in names
    ensures IndexesAgree(names[IndexKey(e) := e], lists[e.tableOid := IndexesOf(lists, e.tableOid) + [e]])
  {
    var names', lists' := names[IndexKey(e) := e], lists[e.tableOid := IndexesOf(lists, e.tableOid) + [e]];
    forall k | k in names' ensures IndexListed(lists', names'[k]) {
      assert k in names ==> IndexListed(lists, names[k]);
      assert e in lists'[e.tableOid];
    }
    forall o | o in lists' ensures ListOk(names', o, lists'[o]) {
      assert o in lists ==> ListOk(names, o, lists[o]);
      AppendedListOk(names, e, IndexesOf(lists, e.tableOid));
    }
  }

  lemma AppendedListOk(names: IndexNames, e: IndexEntry, list: seq<IndexEntry>)
    requires IndexKey(e) !in names && (list != [] ==> ListOk(names, e.tableOid, list))
    ensures ListOk(names[IndexKey(e) := e], e.tableOid, list + [e])
  {
  }

  lemma AddIndexAgrees(s: Maps, e: IndexEntry)
    requires Agree(s) && e.tableOid in s.tablesByOid && IndexKey(e) !in s.indexesByName
    ensures Agree(IndexAdded(s, e)) && ModelOf(IndexAdded(s, e)) == WithIndex(ModelOf(s), e)
  {
    AppendListAgrees(s.indexesByName, s.indexesByTable, e);
    AddIndexExtendsModel(s, e);
  }

  /** A sound index for a free key is added to both index maps. */
  lemma CreateIndexAgrees(s: Maps, e: IndexEntry, lower: string -> string)
    requires Agree(s) && WellFormed(ModelOf(s)) && IndexFault(ModelOf(s), e) == None
    ensures Agree(IndexAdded(s, e))
    ensures (ModelOf(IndexAdded(s, e)), Ok(None)) == Apply(ModelOf(s), CreateIndex(e), lower)
  {
    IndexKeysMatch(s, IndexKey(e));
    AddIndexAgrees(s, e);
    CreateIndexApplies(ModelOf(s), e, lower);
  }

  lemma CreateIndexApplies(m: Model, e: IndexEntry, lower: string -> string)
    requires WellFormed(m) && IndexFault(m, e) == None
    ensures Apply(m, CreateIndex(e), lower) == (WithIndex(m, e), Ok(None))
  {
  }

  lemma AddIndexExtendsModel(s: Maps, e: IndexEntry)
    requires e.tableOid in s.tablesByOid
    ensures ModelOf(IndexAdded(s, e)) == WithIndex(ModelOf(s), e)
  {
  }

  /** `Vec::retain` of the indexes with another OID. */
  function Retain(list: seq<IndexEntry>, oid: Oid): seq<IndexEntry> {
    if list == [] then []
    else (if list[0].oid == oid then [] else [list[0]]) + Retain(list[1..], oid)
  }

  lemma {:induction false} RetainedMembers(list: seq<IndexEntry>, oid: Oid, e: IndexEntry)
    ensures e in Retain(list, oid) <==> e in list && e.oid != oid
  {
    if list != [] {
      RetainedMembers(list[1..], oid, e);
      assert list == [list[0]] + list[1..];
    }
  }

  lemma {:induction false} RetainAll(list: seq<IndexEntry>, oid: Oid)
    requires forall p :: 0 <= p < |list| ==> list[p].oid != oid
    ensures Retain(list, oid) == list
  {
    if list != [] {
      RetainAll(list[1..], oid);
    }
  }

  /** No index of the list but the one at `p` has its OID. */
  predicate SoleOid(list: seq<IndexEntry>, p: nat)
    requires p < |list|
  {
    forall q :: 0 <= q < |list| && q != p ==> list[q].oid != list[p].oid
  }

  /** The index a name drops shares its OID with no other index of its table. */
  ghost predicate DropsSoleOid(m: Model, name: Name)
    requires IndexBound(m, ResolveIndex(m, name))
  {
    var (o, p) := IndexAt(m, ResolveIndex(m, name));
    SoleOid(m[o].indexes, p)
  }

  lemma {:induction false} RetainRemovesOne(list: seq<IndexEntry>, p: nat)
    requires p < |list| && SoleOid(list, p)
    ensures Retain(list, list[p].oid) == list[..p] + list[p + 1..]
  {
    if p == 0 {
      RetainAll(list[1..], list[0].oid);
    } else {
      RetainRemovesOne(list[1..], p - 1);
      assert list[..p] == [list[0]] + list[1..][..p - 1];
      assert list[p + 1..] == list[1..][p..];
    }
  }

  function IndexDropped(s: Maps, k: string): Maps
    requires k in s.indexesByName && s.indexesByName[k].tableOid in s.indexesByTable
  {
    var e := s.indexesByName[k];
    s.(indexesByName := s.indexesByName - {k},
       indexesByTable := s.indexesByTable[e.tableOid := Retain(s.indexesByTable[e.tableOid], e.oid)])
  }

  lemma DropListedKeepsNames(names: IndexNames, lists: IndexLists, o: Oid, p: nat, k: string)
    requires IndexesAgree(names, lists) && o in lists && p < |lists[o]|
    requires k in names && k != IndexKey(lists[o][p])
    ensures IndexListed(lists[o := lists[o][..p] + lists[o][p + 1..]], names[k])
  {
    assert IndexListed(lists, names[k]);
    assert lists[o] == lists[o][..p] + [lists[o][p]] + lists[o][p + 1..];
  }

  lemma DropListedKeepsList(names: IndexNames, o: Oid, list: seq<IndexEntry>, p: nat)
    requires ListOk(names, o, list) && p < |list|
    ensures ListOk(names - {IndexKey(list[p])}, o, list[..p] + list[p + 1..])
  {
  }

  lemma DropListedAgrees(names: IndexNames, lists: IndexLists, o: Oid, p: nat)
    requires IndexesAgree(names, lists) && o in lists && p < |lists[o]|
    ensures IndexesAgree(names - {IndexKey(lists[o][p])}, lists[o := lists[o][..p] + lists[o][p + 1..]])
  {
    var e := lists[o][p];
    var names', lists' := names - {IndexKey(e)}, lists[o := lists[o][..p] + lists[o][p + 1..]];
    assert ListOk(names, o, lists[o]);
    forall k | k in names' ensures IndexListed(lists', names'[k]) {
      DropListedKeepsNames(names, lists, o, p, k);
    }
    forall o' | o' in lists' ensures ListOk(names', o', lists'[o']) {
      if o' == o {
        DropListedKeepsList(names, o, lists[o], p);
      } else {
        assert ListOk(names, o', lists[o']);
      }
    }
  }

  /** Removing by OID leaves the index maps in agreement exactly when no other index of the table has that OID. */
  lemma DropIndexAgreesIff(s: Maps, k: string, o: Oid, p: nat)
    requires Agree(s) && k in s.indexesByName && HasIndex(ModelOf(s), k, o, p)
    ensures o in s.indexesByTable && p < |s.indexesByTable[o]| && s.indexesByName[k].tableOid == o
    ensures Agree(IndexDropped(s, k)) <==> SoleOid(s.indexesByTable[o], p)
    ensures SoleOid(s.indexesByTable[o], p) ==>
              ModelOf(IndexDropped(s, k)) == ModelOf(s)[o := WithoutIndex(ModelOf(s)[o], p)]
  {
    ListedIsNamed(s, k, o, p);
    var list, s' := s.indexesByTable[o], IndexDropped(s, k);
    if SoleOid(list, p) {
      DropSoleOidAgrees(s, k, o, p);
    } else {
      var q :| 0 <= q < |list| && q != p && list[q].oid == list[p].oid;
      OrphanedIndex(s, k, o, p, q);
    }
  }

  /** What `drop_index` does to the maps against what it should do to the catalog. */
  lemma DropIndexMatches(s: Maps, name: Name, lower: string -> string)
    requires Agree(s) && WellFormed(ModelOf(s)) && IndexBound(ModelOf(s), ResolveIndex(ModelOf(s), name))
    ensures var m, k := ModelOf(s), ResolveIndex(ModelOf(s), name);
            && k in s.indexesByName && s.indexesByName[k].tableOid in s.indexesByTable
            && (Agree(IndexDropped(s, k)) <==> DropsSoleOid(m, name))
            && (DropsSoleOid(m, name) ==> ModelOf(IndexDropped(s, k)) == Apply(m, DropIndex(name), lower).0)
            && Apply(m, DropIndex(name), lower).1 == Ok(None)
  {
    var m, k := ModelOf(s), ResolveIndex(ModelOf(s), name);
    IndexKeysMatch(s, k);
    var (o, p) := IndexAt(m, k);
    DropIndexAgreesIff(s, k, o, p);
    DropIndexApplies(m, name, lower);
    assert m[o].indexes == s.indexesByTable[o];
  }

  /** Dropping an index that is in no map. */
  lemma DropIndexMissing(s: Maps, name: Name, lower: string -> string)
    requires Agree(s) && WellFormed(ModelOf(s)) && ResolveIndex(ModelOf(s), name) !in s.indexesByName
    ensures Apply(ModelOf(s), DropIndex(name), lower) == (ModelOf(s), Err(NotFound))
  {
    IndexKeysMatch(s, ResolveIndex(ModelOf(s), name));
  }

  /** An index that is in a map can be dropped. */
  lemma DropIndexPresent(s: Maps, name: Name)
    requires Agree(s) && ResolveIndex(ModelOf(s), name) in s.indexesByName
    ensures IndexBound(ModelOf(s), ResolveIndex(ModelOf(s), name))
  {
    IndexKeysMatch(s, ResolveIndex(ModelOf(s), name));
  }

  lemma DropIndexApplies(m: Model, name: Name, lower: string -> string)
    requires WellFormed(m) && IndexBound(m, ResolveIndex(m, name))
    ensures var (o, p) := IndexAt(m, ResolveIndex(m, name));
            Apply(m, DropIndex(name), lower) == (m[o := WithoutIndex(m[o], p)], Ok(None))
  {
  }

  lemma DropSoleOidAgrees(s: Maps, k: string, o: Oid, p: nat)
    requires Agree(s) && k in s.indexesByName && o in s.indexesByTable && p < |s.indexesByTable[o]|
    requires s.indexesByTable[o][p] == s.indexesByName[k] && s.indexesByName[k].tableOid == o
    requires IndexKey(s.indexesByName[k]) == k
    requires SoleOid(s.indexesByTable[o], p)
    ensures Agree(IndexDropped(s, k))
    ensures ModelOf(IndexDropped(s, k)) == ModelOf(s)[o := WithoutIndex(ModelOf(s)[o], p)]
  {
    RetainRemovesOne(s.indexesByTable[o], p);
    DropListedAgrees(s.indexesByName, s.indexesByTable, o, p);
    ListedModel(s, s.indexesByName - {k}, o, s.indexesByTable[o][..p] + s.indexesByTable[o][p + 1..]);
  }

  /** What replacing a table's list does to the model. */
  lemma ListedModel(s: Maps, names: IndexNames, o: Oid, list: seq<IndexEntry>)
    requires o in s.tablesByOid
    ensures ModelOf(s.(indexesByName := names, indexesByTable := s.indexesByTable[o := list])) ==
            ModelOf(s)[o := ModelOf(s)[o].(indexes := list)]
  {
  }

  /** An index whose OID was removed together with another's stays under its name but in no list. */
  lemma OrphanedIndex(s: Maps, k: string, o: Oid, p: nat, q: nat)
    requires Agree(s) && k in s.indexesByName && o in s.indexesByTable && s.indexesByName[k].tableOid == o
    requires p < |s.indexesByTable[o]| && q < |s.indexesByTable[o]| && p != q
    requires s.indexesByTable[o][p] == s.indexesByName[k] && s.indexesByTable[o][q].oid == s.indexesByName[k].oid
    ensures !Agree(IndexDropped(s, k))
  {
    var e, s' := s.indexesByTable[o][q], IndexDropped(s, k);
    assert ListOk(s.indexesByName, o, s.indexesByTable[o]);
    assert IndexKey(e) != k;
    RetainedMembers(s.indexesByTable[o], e.oid, e);
    assert !IndexListed(s'.indexesByTable, s'.indexesByName[IndexKey(e)]);
  }
}

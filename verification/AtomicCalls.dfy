/**
 The sequential executions that explain concurrent runs are runs of the catalog itself: calls made
 one after the other give each key the table, and each caller the answer, that the catalog gives.
 */
module AtomicCalls {
  import opened Wrappers
  import opened Text
  import opened CatalogEntries
  import opened CatalogModel
  import opened Linearizability
  import Calls = ConcurrentCatalog

  type Call = Calls.Call

  predicate Binds(m: Model, e: TableEntry, k: string) {
    HasTable(m, k, e.oid) && m[e.oid].table == e
  }

  /** The bindings are the catalog's tables by key. */
  ghost predicate ByName(m: Model, b: Bindings) {
    forall k :: (k in b <==> TableBound(m, k)) && (k in b ==> Binds(m, b[k], k))
  }

  /** The catalog after a call: the class method of the same name. */
  ghost function After(m: Model, call: Call, lower: string -> string): (m': Model)
    requires WellFormed(m)
    ensures WellFormed(m')
  {
    match call
    case Create(e) => ApplyKeepsWellFormed(m, CreateTable(e), lower); Apply(m, CreateTable(e), lower).0
    case Drop(name) => ApplyKeepsWellFormed(m, DropTable(name), lower); Apply(m, DropTable(name), lower).0
    case Lookup(_) => m
  }

  /** The outcome a caller sees is the catalog's own reply. */
  ghost predicate Answers(m: Model, call: Call, out: Calls.Outcome, lower: string -> string)
    requires WellFormed(m)
  {
    match call
    case Create(e) =>
      (match Apply(m, CreateTable(e), lower).1
       case Ok(_) => out == Calls.Created
       case Err(AlreadyExists) => out == Calls.NameTaken
       case Err(_) => out == Calls.InvalidOid)
    case Drop(name) => out == if Apply(m, DropTable(name), lower).1.Ok? then Calls.Dropped else Calls.NotFound
    case Lookup(name) =>
      (match Found(m, name)
       case Some(e) => out == Calls.Found(e)
       case None => out == Calls.Absent)
  }

  lemma ResolvesAlike(m: Model, b: Bindings, name: Name)
    requires WellFormed(m) && ByName(m, b)
    ensures Resolve(b, name) == ResolveTable(m, name)
    ensures Found(m, name) == if Resolve(b, name) in b then Some(b[Resolve(b, name)]) else None
  {
    var k := Resolve(b, name);
    assert k in b ==> Binds(m, b[k], k);
  }

  lemma CreateIsApply(m: Model, b: Bindings, e: TableEntry, lower: string -> string)
    requires WellFormed(m) && ByName(m, b) && e.oid !in m
    ensures ByName(After(m, Calls.Create(e), lower), Atomic(b, Calls.Create(e)).0)
    ensures Answers(m, Calls.Create(e), Atomic(b, Calls.Create(e)).1, lower)
  {
    var m', b' := After(m, Calls.Create(e), lower), Atomic(b, Calls.Create(e)).0;
    if e.oid != INVALID && TableKey(e) !in b {
      assert m' == m[e.oid := Relation(e, [])];
      forall k ensures (k in b' <==> TableBound(m', k)) && (k in b' ==> Binds(m', b'[k], k)) {
        if k == TableKey(e) {
          assert Binds(m', e, k);
        } else {
          assert forall o :: HasTable(m', k, o) <==> HasTable(m, k, o);
          assert k in b ==> Binds(m, b[k], k);
        }
      }
    }
  }

  lemma DroppedKeys(m: Model, o: Oid, key: string, k: string)
    requires WellFormed(m) && HasTable(m, key, o)
    ensures forall o' :: HasTable(m - {o}, k, o') <==> (HasTable(m, k, o') && k != key)
  {
    forall o' | HasTable(m - {o}, k, o') ensures HasTable(m, k, o') {}
  }

  lemma DropIsApply(m: Model, b: Bindings, name: Name, lower: string -> string)
    requires WellFormed(m) && ByName(m, b)
    ensures ByName(After(m, Calls.Drop(name), lower), Atomic(b, Calls.Drop(name)).0)
    ensures Answers(m, Calls.Drop(name), Atomic(b, Calls.Drop(name)).1, lower)
  {
    ResolvesAlike(m, b, name);
    var m', b' := After(m, Calls.Drop(name), lower), Atomic(b, Calls.Drop(name)).0;
    var key := Resolve(b, name);
    if key in b {
      assert Binds(m, b[key], key);
      assert m' == m - {b[key].oid};
      forall k ensures (k in b' <==> TableBound(m', k)) && (k in b' ==> Binds(m', b'[k], k)) {
        DroppedKeys(m, b[key].oid, key, k);
        assert k in b ==> Binds(m, b[k], k);
      }
    }
  }

  /** A call made atomically on the bindings is the catalog's operation: same reply, same tables by key. */
  lemma AtomicIsApply(m: Model, b: Bindings, call: Call, lower: string -> string)
    requires WellFormed(m) && ByName(m, b) && (call.Create? ==> call.entry.oid !in m)
    ensures ByName(After(m, call, lower), Atomic(b, call).0)
    ensures Answers(m, call, Atomic(b, call).1, lower)
  {
    match call
    case Create(e) => CreateIsApply(m, b, e, lower);
    case Drop(name) => DropIsApply(m, b, name, lower);
    case Lookup(name) => ResolvesAlike(m, b, name);
  }

  /** The catalog after the calls of `order`, made one after the other. */
  ghost function CatalogAfter(calls: seq<Call>, order: seq<nat>, lower: string -> string): (m: Model)
    requires ThreadsOf(calls, order)
    ensures WellFormed(m)
  {
    if order == [] then map[]
    else After(CatalogAfter(calls, order[..|order| - 1], lower), calls[order[|order| - 1]], lower)
  }

  /** The calls of `order` that create a table with OID `o`. */
  predicate CreatesAt(calls: seq<Call>, order: seq<nat>, p: nat, o: Oid)
    requires ThreadsOf(calls, order)
  {
    p < |order| && calls[order[p]].Create? && calls[order[p]].entry.oid == o && o != INVALID
  }

  /** Every table of a sequential run was created by one of its calls. */
  lemma {:induction false} TablesWereCreated(calls: seq<Call>, order: seq<nat>, lower: string -> string, o: Oid)
    returns (p: nat)
    requires ThreadsOf(calls, order) && o in CatalogAfter(calls, order, lower)
    ensures CreatesAt(calls, order, p, o)
  {
    var last := |order| - 1;
    if o in CatalogAfter(calls, order[..last], lower) {
      p := TablesWereCreated(calls, order[..last], lower, o);
    } else {
      p := last;
    }
  }

  /** Every sequential execution of calls with their own OIDs is a run of the catalog, seen by name. */
  lemma {:induction false} SequentialRunsAreCatalogRuns(calls: seq<Call>, order: seq<nat>, lower: string -> string)
    requires ThreadsOf(calls, order) && Distinct(order) && OwnOids(calls)
    ensures ByName(CatalogAfter(calls, order, lower), BindingsAfter(calls, order))
  {
    if order != [] {
      var last := |order| - 1;
      SequentialRunsAreCatalogRuns(calls, order[..last], lower);
      NextOidIsFree(calls, order, lower);
      AtomicIsApply(CatalogAfter(calls, order[..last], lower), BindingsAfter(calls, order[..last]),
                    calls[order[last]], lower);
    }
  }

  lemma NextOidIsFree(calls: seq<Call>, order: seq<nat>, lower: string -> string)
    requires ThreadsOf(calls, order) && Distinct(order) && OwnOids(calls) && order != []
    ensures var call := calls[order[|order| - 1]];
            call.Create? ==> call.entry.oid !in CatalogAfter(calls, order[..|order| - 1], lower)
  {
    var last := |order| - 1;
    var call := calls[order[last]];
    if call.Create? && call.entry.oid in CatalogAfter(calls, order[..last], lower) {
      var p := TablesWereCreated(calls, order[..last], lower, call.entry.oid);
    }
  }

  /** The outcome of each call of a sequential execution is the catalog's reply at that point. */
  lemma SequentialOutcomesAreReplies(calls: seq<Call>, order: seq<nat>, p: nat, lower: string -> string)
    requires ThreadsOf(calls, order) && Distinct(order) && OwnOids(calls) && p < |order|
    ensures Answers(CatalogAfter(calls, order[..p], lower), calls[order[p]], OutcomeAt(calls, order, p), lower)
  {
    SequentialRunsAreCatalogRuns(calls, order[..p], lower);
    NextOidIsFree(calls, order[..p + 1], lower);
    assert order[..p + 1][..p] == order[..p];
    AtomicIsApply(CatalogAfter(calls, order[..p], lower), BindingsAfter(calls, order[..p]), calls[order[p]], lower);
  }
}

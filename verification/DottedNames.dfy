/**
 Why linearizability stops at dotted names: a drop of a dotted name reads one key and removes
 another, and for every such name there is a run that no sequential order explains.
 */
module DottedNames {
  import opened Text
  import opened LookupKeys
  import opened DataTypes
  import opened CatalogEntries
  import opened ConcurrentCatalog
  import opened Linearizability

  /** A dotted `name` that is also the plain key of the relation `table` in `schema`. */
  datatype Scene = Scene(name: Name, schema: Name, table: Name) {
    ghost predicate Valid() {
      PublicKey(name) != Fold(name) && TableLookupKey(schema, table) == Fold(name)
    }

    static function Entry(oid: Oid, schemaName: Name, table: Name): TableEntry {
      TableEntry(oid, table, schemaName, Schema([]), 0, 0, 0, [])
    }

    static const OldOid: Oid := 16_384
    static const NewOid: Oid := 16_385
    static const ProbeOid: Oid := 16_386

    function Old(): TableEntry { Entry(OldOid, "public", name) }
    function New(): TableEntry { Entry(NewOid, schema, table) }
    function Probe(): TableEntry { Entry(ProbeOid, "public", name) }

    /**
     Create the public relation, drop the name, create the qualified relation, try the public
     relation again, look the name up.
     */
    function Calls(): seq<Call> {
      [Create(Old()), Drop(name), Create(New()), Create(Probe()), Lookup(name)]
    }

    /** The drop resolves its key before the qualified relation appears and acts on it afterwards. */
    static const UpTo0: seq<nat> := [0, 0, 0, 0, 0, 0]
    static const UpTo2: seq<nat> := UpTo0 + ([1] + [2, 2, 2, 2, 2, 2])
    static const UpTo3: seq<nat> := UpTo2 + [3]
    static const UpTo1: seq<nat> := UpTo3 + ([1] + [1])
    static const Whole: seq<nat> := UpTo1 + [4]

    function After0(): State {
      State(map[PublicKey(name) := Old()], map[OldOid := Old()], map[], [Done(Created), Start, Start, Start, Start])
    }

    /** The drop has looked the name up and has not removed anything yet. */
    function Resolved(): State {
      Goto(After0(), 1, Remove(PublicKey(name)))
    }

    function After2(): State {
      State(map[PublicKey(name) := Old(), Fold(name) := New()], map[OldOid := Old(), NewOid := New()], map[],
            [Done(Created), Remove(PublicKey(name)), Done(Created), Start, Start])
    }

    function After3(): State {
      Goto(After2(), 3, Done(NameTaken))
    }

    /** Between the drop's two removals. */
    function Unbound(): State {
      State(map[Fold(name) := New()], After3().byOid, map[], After3().pcs[1 := RemoveOid(Old())])
    }

    function After1(): State {
      State(map[Fold(name) := New()], map[NewOid := New()], map[],
            [Done(Created), Done(Dropped), Done(Created), Done(NameTaken), Start])
    }
  }

  function WithTable(s: State, i: nat, e: TableEntry): State
    requires i < |s.pcs|
  {
    Goto(s, i, Done(Created)).(byName := s.byName[TableKey(e) := e], byOid := s.byOid[e.oid := e])
  }

  /** Six steps carry an undisturbed create from its start to its return. */
  lemma CreateRuns(calls: seq<Call>, s: State, i: nat)
    requires |s.pcs| == |calls| && i < |calls| && s.pcs[i] == Start
    requires calls[i].Create? && calls[i].entry.oid != INVALID && calls[i].entry.oid !in s.byOid
    requires TableKey(calls[i].entry) !in s.slots && TableKey(calls[i].entry) !in s.byName
    ensures Exec(calls, s, [i, i, i, i, i, i]) == WithTable(s, i, calls[i].entry)
  {
    var e := calls[i].entry;
    var k := TableKey(e);
    assert [i, i, i, i, i, i] == [i, i, i, i] + ([i] + ([i] + []));
    CreateReachesInsert(calls, s, i, [i] + ([i] + []));
    var s4 := Goto(s, i, InsertOid).(slots := s.slots[k := i]);
    ExecOne(calls, s4, i, [i] + []);
    ExecOne(calls, Step(calls, s4, i), i, []);
    assert s.slots[k := i] - {k} == s.slots;
  }

  lemma RunTo0(c: Scene)
    requires c.Valid()
    ensures Run(c.Calls(), Scene.UpTo0) == c.After0()
  {
    CreateRuns(c.Calls(), Init(5), 0);
  }

  lemma RunTo2(c: Scene)
    requires c.Valid()
    ensures Run(c.Calls(), Scene.UpTo2) == c.After2()
  {
    var calls := c.Calls();
    RunTo0(c);
    ExecAppend(calls, Init(5), Scene.UpTo0, [1] + [2, 2, 2, 2, 2, 2]);
    ExecOne(calls, c.After0(), 1, [2, 2, 2, 2, 2, 2]);
    DropResolves(c);
    NewIsFree(c);
    CreateRuns(calls, c.Resolved(), 2);
  }

  lemma NewIsFree(c: Scene)
    requires c.Valid()
    ensures TableKey(c.New()) == Fold(c.name)
    ensures TableKey(c.New()) !in c.Resolved().byName && c.New().oid !in c.Resolved().byOid
    ensures WithTable(c.Resolved(), 2, c.New()) == c.After2()
  {
  }

  lemma DropResolves(c: Scene)
    requires c.Valid()
    ensures Step(c.Calls(), c.After0(), 1) == c.Resolved()
  {
  }

  lemma RunTo3(c: Scene)
    requires c.Valid()
    ensures Run(c.Calls(), Scene.UpTo3) == c.After3()
  {
    RunTo2(c);
    ExecSnoc(c.Calls(), Init(5), Scene.UpTo2, 3);
  }

  lemma RunTo1(c: Scene)
    requires c.Valid()
    ensures Run(c.Calls(), Scene.UpTo1) == c.After1()
  {
    var calls := c.Calls();
    RunTo3(c);
    ExecAppend(calls, Init(5), Scene.UpTo3, [1] + [1]);
    DropUnbinds(c);
    DropReturns(c);
    ExecOne(calls, c.After3(), 1, [1]);
    assert [1] == [1] + [];
    ExecOne(calls, c.Unbound(), 1, []);
  }

  lemma DropUnbinds(c: Scene)
    requires c.Valid()
    ensures Step(c.Calls(), c.After3(), 1) == c.Unbound()
  {
    assert c.After3().byName - {PublicKey(c.name)} == c.Unbound().byName;
  }

  lemma DropReturns(c: Scene)
    requires c.Valid()
    ensures Step(c.Calls(), c.Unbound(), 1) == c.After1()
  {
    assert c.Unbound().byOid - {Scene.OldOid} == c.After1().byOid;
  }

  lemma RunToEnd(c: Scene)
    requires c.Valid()
    ensures Run(c.Calls(), Scene.Whole) == Goto(c.After1(), 4, Done(Found(c.New())))
  {
    RunTo1(c);
    ExecSnoc(c.Calls(), Init(5), Scene.UpTo1, 4);
  }

  /** Of two listed calls, the one that returned before the other began is listed first. */
  lemma ListedFirst(c: Scene, order: seq<nat>, early: seq<nat>, p: nat, q: nat)
    requires IsLinearization(c.Calls(), Scene.Whole, order)
    requires early <= Scene.Whole && p < |order| && q < |order|
    requires Run(c.Calls(), early).pcs[order[p]].Done? && Run(c.Calls(), early).pcs[order[q]].Start?
    ensures p < q
  {
    assert Scene.Whole[..|early|] == early;
    assert Precedes(c.Calls(), Scene.Whole, order[p], order[q]);
  }

  predicate At(order: seq<nat>, i: nat, p: nat) {
    p < |order| && order[p] == i
  }

  function Position(order: seq<nat>, i: nat): (p: nat)
    requires i in order
    ensures At(order, i, p)
  {
    if order[0] == i then 0 else 1 + Position(order[1..], i)
  }

  predicate Among(q: nat, p0: nat, p1: nat, p2: nat, p3: nat, p4: nat) {
    q == p0 || q == p1 || q == p2 || q == p3 || q == p4
  }

  lemma ThreeOrders(order: seq<nat>, p0: nat, p1: nat, p2: nat, p3: nat, p4: nat)
    requires Distinct(order) && forall q :: 0 <= q < |order| ==> order[q] < 5
    requires At(order, 0, p0) && At(order, 1, p1) && At(order, 2, p2) && At(order, 3, p3) && At(order, 4, p4)
    requires p0 < p1 < p4 && p0 < p2 < p3 < p4
    ensures order == [0, 1, 2, 3, 4] || order == [0, 2, 1, 3, 4] || order == [0, 2, 3, 1, 4]
  {
    forall q | 0 <= q < |order| ensures Among(q, p0, p1, p2, p3, p4) {
      assert order[q] < 5;
    }
    assert |order| > 5 ==>
        && Among(0, p0, p1, p2, p3, p4) && Among(1, p0, p1, p2, p3, p4) && Among(2, p0, p1, p2, p3, p4)
        && Among(3, p0, p1, p2, p3, p4) && Among(4, p0, p1, p2, p3, p4) && Among(5, p0, p1, p2, p3, p4);
  }

  /** Which calls the run forces to come before which. */
  lemma RealTimeConstraints(c: Scene, order: seq<nat>, p0: nat, p1: nat, p2: nat, p3: nat, p4: nat)
    requires c.Valid() && IsLinearization(c.Calls(), Scene.Whole, order)
    requires At(order, 0, p0) && At(order, 1, p1) && At(order, 2, p2) && At(order, 3, p3) && At(order, 4, p4)
    ensures p0 < p1 < p4 && p0 < p2 < p3 < p4
  {
    RunTo0(c);
    ListedFirst(c, order, Scene.UpTo0, p0, p1);
    ListedFirst(c, order, Scene.UpTo0, p0, p2);
    RunTo2(c);
    ListedFirst(c, order, Scene.UpTo2, p2, p3);
    RunTo3(c);
    ListedFirst(c, order, Scene.UpTo3, p3, p4);
    RunTo1(c);
    ListedFirst(c, order, Scene.UpTo1, p1, p4);
  }

  lemma AllAreListed(c: Scene, order: seq<nat>)
    requires c.Valid() && IsLinearization(c.Calls(), Scene.Whole, order)
    ensures 0 in order && 1 in order && 2 in order && 3 in order && 4 in order
    ensures Distinct(order) && forall q :: 0 <= q < |order| ==> order[q] < 5
  {
    AllAreDone(c);
    var s := Run(c.Calls(), Scene.Whole);
    assert s.pcs[0].Done? && s.pcs[1].Done? && s.pcs[2].Done? && s.pcs[3].Done? && s.pcs[4].Done?;
  }

  lemma AllAreDone(c: Scene)
    requires c.Valid()
    ensures Quiescent(Run(c.Calls(), Scene.Whole))
  {
    RunToEnd(c);
  }

  lemma RealTimeOrders(c: Scene, order: seq<nat>)
    requires c.Valid() && IsLinearization(c.Calls(), Scene.Whole, order)
    ensures order == [0, 1, 2, 3, 4] || order == [0, 2, 1, 3, 4] || order == [0, 2, 3, 1, 4]
  {
    AllAreListed(c, order);
    var p0, p1, p2 := Position(order, 0), Position(order, 1), Position(order, 2);
    var p3, p4 := Position(order, 3), Position(order, 4);
    RealTimeConstraints(c, order, p0, p1, p2, p3, p4);
    ThreeOrders(order, p0, p1, p2, p3, p4);
  }

  /** Sequentially, a drop before the qualified relation exists frees the public name. */
  lemma EarlyDropFreesName(c: Scene)
    requires c.Valid()
    ensures OutcomeAt(c.Calls(), [0, 1, 2, 3, 4], 3) == Created
  {
    var calls := c.Calls();
    BindingsAfterSnoc(calls, [], 0);
    BindingsAfterSnoc(calls, [0], 1);
    BindingsAfterSnoc(calls, [0, 1], 2);
    assert [] + [0] == [0] && [0] + [1] == [0, 1] && [0, 1] + [2] == [0, 1, 2];
    assert BindingsAfter(calls, [0]) == map[PublicKey(c.name) := c.Old()];
    assert BindingsAfter(calls, [0, 1]) == map[];
    assert BindingsAfter(calls, [0, 1, 2]) == map[Fold(c.name) := c.New()];
    assert [0, 1, 2, 3, 4][..3] == [0, 1, 2];
  }

  lemma BothBound(c: Scene)
    requires c.Valid()
    ensures BindingsAfter(c.Calls(), [0, 2]) == map[PublicKey(c.name) := c.Old(), Fold(c.name) := c.New()]
  {
    BindingsAfterSnoc(c.Calls(), [], 0);
    BindingsAfterSnoc(c.Calls(), [0], 2);
    assert [] + [0] == [0] && [0] + [2] == [0, 2];
  }

  /** Sequentially, a later drop removes the qualified relation, and the lookup finds the public one. */
  lemma LateDropTakesNew(c: Scene, order: seq<nat>)
    requires c.Valid() && (order == [0, 2, 1, 3, 4] || order == [0, 2, 3, 1, 4])
    ensures OutcomeAt(c.Calls(), order, 4) == Found(c.Old())
  {
    BothBound(c);
    BindingsAfterSnoc(c.Calls(), [0, 2], order[2]);
    BindingsAfterSnoc(c.Calls(), [0, 2, order[2]], order[3]);
    assert [0, 2] + [order[2]] == [0, 2, order[2]] && [0, 2, order[2]] + [order[3]] == order[..4];
    ProbeAndDrop(c);
  }

  lemma ProbeAndDrop(c: Scene)
    requires c.Valid()
    ensures var both := map[PublicKey(c.name) := c.Old(), Fold(c.name) := c.New()];
            var one := map[PublicKey(c.name) := c.Old()];
            && Atomic(both, c.Calls()[1]).0 == one && Atomic(both, c.Calls()[3]).0 == both
            && Atomic(one, c.Calls()[3]).0 == one && Atomic(one, c.Calls()[4]).1 == Found(c.Old())
  {
    var both := map[PublicKey(c.name) := c.Old(), Fold(c.name) := c.New()];
    assert both - {Fold(c.name)} == map[PublicKey(c.name) := c.Old()];
  }

  /** No sequential order explains the run. */
  lemma SceneIsNotLinearizable(c: Scene)
    requires c.Valid()
    ensures !Linearizable(c.Calls(), Scene.Whole)
  {
    forall order | IsLinearization(c.Calls(), Scene.Whole, order) ensures false {
      RealTimeOrders(c, order);
      RunToEnd(c);
      EarlyDropFreesName(c);
      if order != [0, 1, 2, 3, 4] {
        LateDropTakesNew(c, order);
      }
    }
  }

  /** Calls whose drops and lookups are all on `name` or on simple names. */
  ghost predicate OnName(calls: seq<Call>, name: Name) {
    forall i :: 0 <= i < |calls| && !calls[i].Create? ==> calls[i].name == name || Simple(calls[i].name)
  }

  ghost predicate AtomicName(name: Name) {
    forall calls, schedule :: OwnOids(calls) && OnName(calls, name) ==> Linearizable(calls, schedule)
  }

  lemma ComplexNameIsNotAtomic(name: Name)
    requires !Simple(name)
    ensures !AtomicName(name)
  {
    SimpleMeansOneKey(name);
    var s: Name, t: Name :| TableLookupKey(s, t) == Fold(name);
    SceneRefutes(Scene(name, s, t));
  }

  lemma SceneRefutes(c: Scene)
    requires c.Valid()
    ensures !AtomicName(c.name)
  {
    SceneIsNotLinearizable(c);
    SceneIsAllowed(c);
  }

  /** Which call of `next_oid` each create of the scene took its OID from. */
  const TICKETS: seq<nat> := [0, 3, 1, 2, 4]

  /** The scene's creates carry OIDs from `next_oid`. */
  lemma SceneIsAllowed(c: Scene)
    ensures FromAllocator(c.Calls(), TICKETS) && OwnOids(c.Calls()) && OnName(c.Calls(), c.name)
  {
    var calls := c.Calls();
    forall i | 0 <= i < |calls| && !calls[i].Create? ensures calls[i].name == c.name {
      assert i == 1 || i == 4;
    }
    forall i | 0 <= i < |calls| && calls[i].Create? ensures calls[i].entry.oid == AllocatedOid(TICKETS[i]) {
      assert i == 0 || i == 2 || i == 3;
    }
    AllocatorGivesOwnOids(calls, TICKETS);
  }

  /**
   Drops and lookups of a name behave as one atomic action in every run exactly when the name is
   simple: it has no dot, or its folded form is the key of no relation.
   */
  lemma NameIsAtomicIff(name: Name)
    ensures AtomicName(name) <==> Simple(name)
  {
    if Simple(name) {
      forall calls, schedule | OwnOids(calls) && OnName(calls, name) ensures Linearizable(calls, schedule) {
        assert SimpleNames(calls);
        SimpleRunsAreLinearizable(calls, schedule);
      }
    } else {
      ComplexNameIsNotAtomic(name);
    }
  }
}

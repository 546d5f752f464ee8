/**
 Concurrent `create_table`, `drop_table` and `lookup_table` against one atomic map from keys to
 entries: which runs can be explained by putting the calls in some sequential order.
 */
module Linearizability {
  import opened Text
  import opened LookupKeys
  import opened CatalogEntries
  import opened ConcurrentCatalog

  type Bindings = map<string, TableEntry>

  /** The key a drop or lookup of an unqualified name acts on. */
  function Resolve(m: Bindings, name: Name): string {
    if Fold(name) in m then Fold(name) else PublicKey(name)
  }

  /** One call made as a single atomic action: the new bindings and the outcome. */
  function Atomic(m: Bindings, call: Call): (Bindings, Outcome) {
    match call
    case Create(e) =>
      if e.oid == INVALID then (m, InvalidOid)
      else if TableKey(e) in m then (m, NameTaken)
      else (m[TableKey(e) := e], Created)
    case Drop(name) =>
      if Resolve(m, name) in m then (m - {Resolve(m, name)}, Dropped) else (m, NotFound)
    case Lookup(name) =>
      if Resolve(m, name) in m then (m, Found(m[Resolve(m, name)])) else (m, Absent)
  }

  predicate ThreadsOf(calls: seq<Call>, order: seq<nat>) {
    forall p :: 0 <= p < |order| ==> order[p] < |calls|
  }

  /** The bindings after the calls of `order`, made one after the other. */
  function BindingsAfter(calls: seq<Call>, order: seq<nat>): Bindings
    requires ThreadsOf(calls, order)
  {
    if order == [] then map[]
    else Atomic(BindingsAfter(calls, order[..|order| - 1]), calls[order[|order| - 1]]).0
  }

  /** The outcome of the call at position `p` of that sequential execution. */
  function OutcomeAt(calls: seq<Call>, order: seq<nat>, p: nat): Outcome
    requires ThreadsOf(calls, order) && p < |order|
  {
    Atomic(BindingsAfter(calls, order[..p]), calls[order[p]]).1
  }

  /** Call `i` had returned before call `j` took its first step. */
  ghost predicate Precedes(calls: seq<Call>, schedule: seq<nat>, i: nat, j: nat)
    requires i < |calls| && j < |calls|
  {
    exists n :: 0 <= n <= |schedule|
      && Run(calls, schedule[..n]).pcs[i].Done? && Run(calls, schedule[..n]).pcs[j].Start?
  }

  predicate Distinct(order: seq<nat>) {
    forall p, q :: 0 <= p < q < |order| ==> order[p] != order[q]
  }

  /** A sequential order of the calls that explains a run and respects which calls came first. */
  ghost predicate IsLinearization(calls: seq<Call>, schedule: seq<nat>, order: seq<nat>) {
    && ThreadsOf(calls, order) && Distinct(order)
    && (forall i :: 0 <= i < |calls| && Run(calls, schedule).pcs[i].Done? ==> i in order)
    && (forall p :: 0 <= p < |order| && Run(calls, schedule).pcs[order[p]].Done? ==>
          Run(calls, schedule).pcs[order[p]].outcome == OutcomeAt(calls, order, p))
    && (forall p, q :: 0 <= p < q < |order| ==> !Precedes(calls, schedule, order[q], order[p]))
  }

  ghost predicate Linearizable(calls: seq<Call>, schedule: seq<nat>) {
    exists order :: IsLinearization(calls, schedule, order)
  }

  /** Each create carries its own OID, as `next_oid` hands them out. */
  predicate OwnOids(calls: seq<Call>) {
    forall i, j :: 0 <= i < j < |calls| && calls[i].Create? && calls[j].Create?
                   && calls[i].entry.oid != INVALID
      ==> calls[i].entry.oid != calls[j].entry.oid
  }

  /** Creates that each took their OID from their own call of `next_oid`. */
  predicate FromAllocator(calls: seq<Call>, tickets: seq<nat>)
    requires |tickets| == |calls|
  {
    && Distinct(tickets)
    && forall i :: 0 <= i < |calls| && calls[i].Create? ==>
         tickets[i] < 0x1_0000_0000 - FIRST_USER_OID && calls[i].entry.oid == AllocatedOid(tickets[i])
  }

  lemma AllocatorGivesOwnOids(calls: seq<Call>, tickets: seq<nat>)
    requires |tickets| == |calls| && FromAllocator(calls, tickets)
    ensures OwnOids(calls)
  {
    AllocatedOidsAreFreshIff(0x1_0000_0000 - FIRST_USER_OID);
  }

  /** A name that acts on one key only: it has no dot, or no relation can be stored under the name itself. */
  predicate Simple(name: Name) {
    !Dotted(name) || !IsDottedTableKey(Fold(name))
  }

  lemma SimpleMeansOneKey(name: Name)
    ensures Simple(name) <==>
            PublicKey(name) == Fold(name) || forall s: Name, t: Name :: TableLookupKey(s, t) != Fold(name)
  {
    PublicKeyIsBareIff(name);
    FoldKeeps(name, '.');
    FoldIsIdempotent(name);
    if Dotted(name) {
      DottedTableKeyIff(Fold(name));
    }
  }

  ghost predicate SimpleNames(calls: seq<Call>) {
    forall i :: 0 <= i < |calls| && !calls[i].Create? ==> Simple(calls[i].name)
  }

  // ----- Every run of calls on simple names is linearizable -----

  /** The call has had its effect: its by-name access is behind it. */
  predicate Decided(pc: Pc) {
    pc.Done? || pc.RemoveOid?
  }

  function OutcomeOf(pc: Pc): Outcome
    requires Decided(pc)
  {
    match pc
    case Done(outcome) => outcome
    case RemoveOid(_) => Dropped
  }

  /** Thread `i`'s next step is the by-name access that decides its call. */
  predicate Decides(calls: seq<Call>, s: State, i: nat)
    requires |s.pcs| == |calls|
  {
    i < |calls| && !Decided(s.pcs[i]) && Decided(Step(calls, s, i).pcs[i])
  }

  /** The calls in the order in which they were decided. */
  function DecisionOrder(calls: seq<Call>, schedule: seq<nat>): (order: seq<nat>)
    ensures ThreadsOf(calls, order)
  {
    if schedule == [] then []
    else
      var before, i := schedule[..|schedule| - 1], schedule[|schedule| - 1];
      var order := DecisionOrder(calls, before);
      if Decides(calls, Run(calls, before), i) then order + [i] else order
  }

  /** A drop on a simple name has resolved it to the public key. */
  predicate ResolvedOk(calls: seq<Call>, s: State, i: nat)
    requires |s.pcs| == |calls| && i < |calls|
  {
    calls[i].Drop? && s.pcs[i].Remove? ==> s.pcs[i].key == PublicKey(calls[i].name)
  }

  lemma OwnOidsGiveOneKey(calls: seq<Call>)
    requires OwnOids(calls)
    ensures OneKeyPerOid(calls)
  {
  }

  /** A create that has not inserted its OID finds it free. */
  lemma OidIsFree(calls: seq<Call>, s: State, i: nat)
    requires |s.pcs| == |calls| && i < |calls| && OwnOids(calls) && Inv(calls, s)
    requires calls[i].Create? && s.pcs[i] != Publish && s.pcs[i] != Done(Created)
    ensures calls[i].entry.oid !in s.byOid
  {
  }

  lemma SimpleResolves(s: State, name: Name)
    requires Simple(name)
    requires forall k :: k in s.byName ==> NameOk(s, k)
    ensures Resolve(s.byName, name) == PublicKey(name)
    ensures PublicKey(name) != Fold(name) ==> Fold(name) !in s.byName
  {
    SimpleMeansOneKey(name);
  }

  /** Each step either leaves the bindings alone or is the whole atomic action of its call. */
  ghost predicate Refines(calls: seq<Call>, s: State, i: nat)
    requires |s.pcs| == |calls| && i < |calls|
  {
    var s' := Step(calls, s, i);
    && ResolvedOk(calls, s', i)
    && (Decided(s.pcs[i]) ==> Decided(s'.pcs[i]) && OutcomeOf(s'.pcs[i]) == OutcomeOf(s.pcs[i]))
    && (if Decides(calls, s, i)
        then (s'.byName, OutcomeOf(s'.pcs[i])) == Atomic(s.byName, calls[i])
        else s'.byName == s.byName)
  }

  lemma CreateRefines(calls: seq<Call>, s: State, i: nat)
    requires |s.pcs| == |calls| && i < |calls| && calls[i].Create? && ThreadOk(calls, s, i)
    requires Holding(s.pcs[i]) ==> SlotOk(calls, s, TableKey(calls[i].entry))
    requires s.pcs[i] != Publish && s.pcs[i] != Done(Created) ==> calls[i].entry.oid !in s.byOid
    ensures Refines(calls, s, i)
  {
  }

  lemma DropRefines(calls: seq<Call>, s: State, i: nat)
    requires |s.pcs| == |calls| && i < |calls| && calls[i].Drop? && ThreadOk(calls, s, i)
    requires ResolvedOk(calls, s, i) && Resolve(s.byName, calls[i].name) == PublicKey(calls[i].name)
    ensures Refines(calls, s, i)
  {
  }

  lemma LookupRefines(calls: seq<Call>, s: State, i: nat)
    requires |s.pcs| == |calls| && i < |calls| && calls[i].Lookup? && ThreadOk(calls, s, i)
    requires Resolve(s.byName, calls[i].name) == PublicKey(calls[i].name)
    ensures Refines(calls, s, i)
  {
  }

  lemma StepRefines(calls: seq<Call>, s: State, i: nat)
    requires |s.pcs| == |calls| && i < |calls| && OwnOids(calls) && SimpleNames(calls)
    requires Inv(calls, s) && ResolvedOk(calls, s, i)
    ensures Refines(calls, s, i)
  {
    assert ThreadOk(calls, s, i);
    match calls[i]
    case Create(_) =>
      if s.pcs[i] != Publish && s.pcs[i] != Done(Created) {
        OidIsFree(calls, s, i);
      }
      CreateRefines(calls, s, i);
    case Drop(name) =>
      SimpleResolves(s, name);
      DropRefines(calls, s, i);
    case Lookup(name) =>
      SimpleResolves(s, name);
      LookupRefines(calls, s, i);
  }

  lemma ExecSnoc(calls: seq<Call>, s: State, schedule: seq<nat>, i: nat)
    requires |s.pcs| == |calls|
    ensures Exec(calls, s, schedule + [i]) == Step(calls, Exec(calls, s, schedule), i)
    decreases |schedule|
  {
    if schedule == [] {
      assert [i][1..] == [];
    } else {
      assert (schedule + [i])[1..] == schedule[1..] + [i];
      ExecSnoc(calls, Step(calls, s, schedule[0]), schedule[1..], i);
    }
  }

  lemma BindingsAfterSnoc(calls: seq<Call>, order: seq<nat>, i: nat)
    requires ThreadsOf(calls, order) && i < |calls|
    ensures ThreadsOf(calls, order + [i])
    ensures BindingsAfter(calls, order + [i]) == Atomic(BindingsAfter(calls, order), calls[i]).0
    ensures OutcomeAt(calls, order + [i], |order|) == Atomic(BindingsAfter(calls, order), calls[i]).1
    ensures forall p :: 0 <= p < |order| ==> OutcomeAt(calls, order + [i], p) == OutcomeAt(calls, order, p)
  {
    assert (order + [i])[..|order|] == order;
    assert forall p :: 0 <= p < |order| ==> (order + [i])[..p] == order[..p];
  }

  /** Thread `i` is in the order exactly when it is decided. */
  predicate Listed(s: State, order: seq<nat>, i: nat)
    requires i < |s.pcs|
  {
    i in order <==> Decided(s.pcs[i])
  }

  /** The call at position `p` is decided, with its atomic outcome. */
  predicate OutcomeOk(calls: seq<Call>, s: State, order: seq<nat>, p: nat)
    requires |s.pcs| == |calls| && ThreadsOf(calls, order) && p < |order|
  {
    Decided(s.pcs[order[p]]) && OutcomeAt(calls, order, p) == OutcomeOf(s.pcs[order[p]])
  }

  /** The order holds exactly the decided calls, each once and with its outcome, and leads to the bindings. */
  ghost predicate Explains(calls: seq<Call>, s: State, order: seq<nat>)
    requires |s.pcs| == |calls| && ThreadsOf(calls, order)
  {
    && Distinct(order)
    && BindingsAfter(calls, order) == s.byName
    && (forall i :: 0 <= i < |calls| ==> Listed(s, order, i))
    && (forall p :: 0 <= p < |order| ==> OutcomeOk(calls, s, order, p))
    && (forall i :: 0 <= i < |calls| ==> ResolvedOk(calls, s, i))
  }

  /** A change of one thread's pc that keeps what is decided. */
  predicate Moves(s: State, i: nat, s': State)
    requires i < |s.pcs|
  {
    && |s'.pcs| == |s.pcs|
    && (forall j :: 0 <= j < |s.pcs| && j != i ==> s'.pcs[j] == s.pcs[j])
    && (Decided(s.pcs[i]) ==> Decided(s'.pcs[i]) && OutcomeOf(s'.pcs[i]) == OutcomeOf(s.pcs[i]))
  }

  lemma UndecidingStepExplained(calls: seq<Call>, s: State, i: nat, s': State, order: seq<nat>)
    requires |s.pcs| == |calls| && i < |calls| && ThreadsOf(calls, order) && Explains(calls, s, order)
    requires Moves(s, i, s') && s'.byName == s.byName && ResolvedOk(calls, s', i)
    requires Decided(s'.pcs[i]) ==> Decided(s.pcs[i])
    ensures Explains(calls, s', order)
  {
    assert Listed(s, order, i);
    forall j | 0 <= j < |calls| ensures Listed(s', order, j) && ResolvedOk(calls, s', j) {
      assert Listed(s, order, j) && ResolvedOk(calls, s, j);
    }
    forall p | 0 <= p < |order| ensures OutcomeOk(calls, s', order, p) {
      assert OutcomeOk(calls, s, order, p);
    }
  }

  lemma DecidingStepExplained(calls: seq<Call>, s: State, i: nat, s': State, order: seq<nat>)
    requires |s.pcs| == |calls| && i < |calls| && ThreadsOf(calls, order) && Explains(calls, s, order)
    requires Moves(s, i, s') && !Decided(s.pcs[i]) && Decided(s'.pcs[i])
    requires (s'.byName, OutcomeOf(s'.pcs[i])) == Atomic(s.byName, calls[i])
    ensures ThreadsOf(calls, order + [i]) && Explains(calls, s', order + [i])
  {
    BindingsAfterSnoc(calls, order, i);
    assert Listed(s, order, i);
    forall j | 0 <= j < |calls| ensures Listed(s', order + [i], j) && ResolvedOk(calls, s', j) {
      assert Listed(s, order, j) && ResolvedOk(calls, s, j);
      assert j in order + [i] <==> j in order || j == i;
    }
    forall p | 0 <= p < |order + [i]| ensures OutcomeOk(calls, s', order + [i], p) {
      assert p < |order| ==> OutcomeOk(calls, s, order, p);
    }
  }

  lemma StepKeepsExplained(calls: seq<Call>, s: State, i: nat, order: seq<nat>)
    requires |s.pcs| == |calls| && i < |calls| && ThreadsOf(calls, order)
    requires Explains(calls, s, order) && Refines(calls, s, i)
    ensures Explains(calls, Step(calls, s, i), if Decides(calls, s, i) then order + [i] else order)
  {
    if Decides(calls, s, i) {
      DecidingStepExplained(calls, s, i, Step(calls, s, i), order);
    } else {
      UndecidingStepExplained(calls, s, i, Step(calls, s, i), order);
    }
  }

  /**
   Along every run of calls on simple names the catalog refines the atomic map: its bindings are
   the atomic map after the decided calls, and each decided call has its atomic outcome.
   */
  lemma {:induction false} RunsRefineAtomicMap(calls: seq<Call>, schedule: seq<nat>)
    requires OwnOids(calls) && SimpleNames(calls)
    ensures Inv(calls, Run(calls, schedule))
    ensures Explains(calls, Run(calls, schedule), DecisionOrder(calls, schedule))
    decreases |schedule|
  {
    OwnOidsGiveOneKey(calls);
    RunKeepsInv(calls, schedule);
    if schedule != [] {
      var before, i := schedule[..|schedule| - 1], schedule[|schedule| - 1];
      assert schedule == before + [i];
      RunsRefineAtomicMap(calls, before);
      ExecSnoc(calls, Init(|calls|), before, i);
      if i < |calls| {
        StepRefines(calls, Run(calls, before), i);
        StepKeepsExplained(calls, Run(calls, before), i, DecisionOrder(calls, before));
      }
    }
  }

  lemma {:induction false} DecisionOrderGrows(calls: seq<Call>, schedule: seq<nat>, n: nat)
    requires n <= |schedule|
    ensures DecisionOrder(calls, schedule[..n]) <= DecisionOrder(calls, schedule)
    decreases |schedule|
  {
    if n == |schedule| {
      assert schedule[..n] == schedule;
    } else {
      var before := schedule[..|schedule| - 1];
      assert before[..n] == schedule[..n];
      DecisionOrderGrows(calls, before, n);
    }
  }

  lemma DecidedEarlier(calls: seq<Call>, schedule: seq<nat>, n: nat, p: nat, q: nat)
    requires OwnOids(calls) && SimpleNames(calls) && n <= |schedule|
    requires p < q < |DecisionOrder(calls, schedule)|
    requires Run(calls, schedule[..n]).pcs[DecisionOrder(calls, schedule)[q]].Done?
    ensures !Run(calls, schedule[..n]).pcs[DecisionOrder(calls, schedule)[p]].Start?
  {
    var order, early := DecisionOrder(calls, schedule), DecisionOrder(calls, schedule[..n]);
    RunsRefineAtomicMap(calls, schedule);
    RunsRefineAtomicMap(calls, schedule[..n]);
    DecisionOrderGrows(calls, schedule, n);
    var s := Run(calls, schedule[..n]);
    assert Listed(s, early, order[q]) && Listed(s, early, order[p]);
    PrefixIsClosed(order, early, p, q);
  }

  lemma PrefixIsClosed(order: seq<nat>, early: seq<nat>, p: nat, q: nat)
    requires early <= order && Distinct(order) && p < q < |order| && order[q] in early
    ensures order[p] in early
  {
    var r :| 0 <= r < |early| && early[r] == order[q];
    assert order[r] == order[q];
    assert early[p] == order[p];
  }

  /** A call that returned before another began comes first in the decision order. */
  lemma DecisionOrderIsRealTime(calls: seq<Call>, schedule: seq<nat>, p: nat, q: nat)
    requires OwnOids(calls) && SimpleNames(calls)
    requires p < q < |DecisionOrder(calls, schedule)|
    ensures !Precedes(calls, schedule, DecisionOrder(calls, schedule)[q], DecisionOrder(calls, schedule)[p])
  {
    var order := DecisionOrder(calls, schedule);
    forall n | 0 <= n <= |schedule| && Run(calls, schedule[..n]).pcs[order[q]].Done?
      ensures !Run(calls, schedule[..n]).pcs[order[p]].Start?
    {
      DecidedEarlier(calls, schedule, n, p, q);
    }
  }

  /** Every run of calls on simple names, each create with its own OID, is linearizable. */
  lemma SimpleRunsAreLinearizable(calls: seq<Call>, schedule: seq<nat>)
    requires OwnOids(calls) && SimpleNames(calls)
    ensures IsLinearization(calls, schedule, DecisionOrder(calls, schedule))
  {
    var order := DecisionOrder(calls, schedule);
    var s := Run(calls, schedule);
    RunsRefineAtomicMap(calls, schedule);
    forall i | 0 <= i < |calls| && s.pcs[i].Done? ensures i in order {
      assert Listed(s, order, i);
    }
    forall p | 0 <= p < |order| && s.pcs[order[p]].Done?
      ensures s.pcs[order[p]].outcome == OutcomeAt(calls, order, p)
    {
      assert OutcomeOk(calls, s, order, p);
    }
    forall p, q | 0 <= p < q < |order| ensures !Precedes(calls, schedule, order[q], order[p]) {
      DecisionOrderIsRealTime(calls, schedule, p, q);
    }
  }
}

/** Racing creates of one key have one winner until a drop (crates/ultrasql-catalog/src/memory.rs). */
module Winners {
  import opened Text
  import opened LookupKeys
  import opened CatalogEntries
  import opened ConcurrentCatalog
  import opened Linearizability

  // ----- In a sequential order -----

  /** The call at `p` is a create that binds `k`. */
  predicate WinsKey(calls: seq<Call>, order: seq<nat>, p: nat, k: string)
    requires ThreadsOf(calls, order) && p < |order|
  {
    var call := calls[order[p]];
    call.Create? && TableKey(call.entry) == k && OutcomeAt(calls, order, p) == Created
  }

  /** The call at `r` is a drop that unbinds `k`. */
  predicate DropsKey(calls: seq<Call>, order: seq<nat>, r: nat, k: string)
    requires ThreadsOf(calls, order) && r < |order|
  {
    var call := calls[order[r]];
    && call.Drop? && Resolve(BindingsAfter(calls, order[..r]), call.name) == k
    && OutcomeAt(calls, order, r) == Dropped
  }

  lemma OnlyItsDropUnbinds(m: Bindings, call: Call, k: string)
    requires k in m && !(call.Drop? && Resolve(m, call.name) == k)
    ensures k in Atomic(m, call).0
  {
  }

  lemma {:induction false} StaysBound(calls: seq<Call>, order: seq<nat>, p: nat, q: nat, k: string)
    requires ThreadsOf(calls, order) && p < q <= |order| && WinsKey(calls, order, p, k)
    requires forall r :: p < r < q ==> !DropsKey(calls, order, r, k)
    ensures k in BindingsAfter(calls, order[..q])
  {
    assert order[..q] == order[..q - 1] + [order[q - 1]];
    BindingsAfterSnoc(calls, order[..q - 1], order[q - 1]);
    if q > p + 1 {
      StaysBound(calls, order, p, q - 1, k);
      assert !DropsKey(calls, order, q - 1, k);
      OnlyItsDropUnbinds(BindingsAfter(calls, order[..q - 1]), calls[order[q - 1]], k);
    }
  }

  lemma WinnersHaveDropBetween(calls: seq<Call>, order: seq<nat>, p: nat, q: nat, k: string)
    requires ThreadsOf(calls, order) && p < q < |order|
    requires WinsKey(calls, order, p, k) && WinsKey(calls, order, q, k)
    ensures exists r :: p < r < q && DropsKey(calls, order, r, k)
  {
    if forall r :: p < r < q ==> !DropsKey(calls, order, r, k) {
      StaysBound(calls, order, p, q, k);
      assert false;
    }
  }

  lemma OnlyACreateBinds(m: Bindings, call: Call, k: string)
    requires k !in m && k in Atomic(m, call).0
    ensures call.Create? && TableKey(call.entry) == k && Atomic(m, call).1 == Created
  {
  }

  /** A bound key was bound by a create that won it. */
  lemma {:induction false} BoundHasWinner(calls: seq<Call>, order: seq<nat>, n: nat, k: string)
    requires ThreadsOf(calls, order) && n <= |order| && k in BindingsAfter(calls, order[..n])
    ensures exists p :: 0 <= p < n && WinsKey(calls, order, p, k)
  {
    if n > 0 {
      assert order[..n] == order[..n - 1] + [order[n - 1]];
      BindingsAfterSnoc(calls, order[..n - 1], order[n - 1]);
      if k in BindingsAfter(calls, order[..n - 1]) {
        BoundHasWinner(calls, order, n - 1, k);
      } else {
        OnlyACreateBinds(BindingsAfter(calls, order[..n - 1]), calls[order[n - 1]], k);
        assert WinsKey(calls, order, n - 1, k);
      }
    }
  }

  /** Keys are bound to entries of their own. */
  lemma {:induction false} BindingsAreKeyed(calls: seq<Call>, order: seq<nat>, k: string)
    requires ThreadsOf(calls, order) && k in BindingsAfter(calls, order)
    ensures TableKey(BindingsAfter(calls, order)[k]) == k
  {
    var before := order[..|order| - 1];
    if k in BindingsAfter(calls, before) {
      BindingsAreKeyed(calls, before, k);
    }
  }

  lemma SimpleDropsPublicKey(calls: seq<Call>, order: seq<nat>, name: Name)
    requires ThreadsOf(calls, order) && Simple(name)
    ensures Resolve(BindingsAfter(calls, order), name) == PublicKey(name)
  {
    SimpleMeansOneKey(name);
    if Fold(name) in BindingsAfter(calls, order) {
      BindingsAreKeyed(calls, order, Fold(name));
    }
  }

  // ----- In a run -----

  /** Thread `t` is a create of `k` that has returned with success. */
  predicate Won(calls: seq<Call>, s: State, t: nat, k: string)
    requires |s.pcs| == |calls|
  {
    t < |calls| && calls[t].Create? && TableKey(calls[t].entry) == k && s.pcs[t] == Done(Created)
  }

  predicate IsDropOf(call: Call, k: string) {
    call.Drop? && PublicKey(call.name) == k
  }

  /** Thread `t` is a drop that has removed `k`. */
  predicate HasDropped(calls: seq<Call>, s: State, t: nat, k: string)
    requires |s.pcs| == |calls|
  {
    t < |calls| && IsDropOf(calls[t], k) && Decided(s.pcs[t]) && OutcomeOf(s.pcs[t]) == Dropped
  }

  /** In the order of their by-name accesses, a thread that dropped `k` comes between `i` and `j`. */
  ghost predicate DroppedBetween(calls: seq<Call>, schedule: seq<nat>, i: nat, j: nat, k: string) {
    var order, s := DecisionOrder(calls, schedule), Run(calls, schedule);
    exists p, r, q :: 0 <= p < r < q < |order| && order[p] == i && order[q] == j && HasDropped(calls, s, order[r], k)
  }

  /** A winner stands in the decision order with its success. */
  lemma WinnerIsListed(calls: seq<Call>, schedule: seq<nat>, t: nat, k: string) returns (p: nat)
    requires OwnOids(calls) && SimpleNames(calls) && Won(calls, Run(calls, schedule), t, k)
    ensures var order := DecisionOrder(calls, schedule);
            p < |order| && order[p] == t && WinsKey(calls, order, p, k)
  {
    RunsRefineAtomicMap(calls, schedule);
    var order := DecisionOrder(calls, schedule);
    assert Listed(Run(calls, schedule), order, t);
    p :| 0 <= p < |order| && order[p] == t;
    assert OutcomeOk(calls, Run(calls, schedule), order, p);
  }

  lemma DropIsInRun(calls: seq<Call>, schedule: seq<nat>, r: nat, k: string)
    requires OwnOids(calls) && SimpleNames(calls) && r < |DecisionOrder(calls, schedule)|
    requires DropsKey(calls, DecisionOrder(calls, schedule), r, k)
    ensures HasDropped(calls, Run(calls, schedule), DecisionOrder(calls, schedule)[r], k)
  {
    var order := DecisionOrder(calls, schedule);
    RunsRefineAtomicMap(calls, schedule);
    assert OutcomeOk(calls, Run(calls, schedule), order, r);
    SimpleDropsPublicKey(calls, order[..r], calls[order[r]].name);
  }

  /** In every run, of two creates that won one key a drop of the key came between. */
  lemma OneWinnerUntilDrop(calls: seq<Call>, schedule: seq<nat>, i: nat, j: nat, k: string)
    requires OwnOids(calls) && SimpleNames(calls) && i != j
    requires Won(calls, Run(calls, schedule), i, k) && Won(calls, Run(calls, schedule), j, k)
    ensures DroppedBetween(calls, schedule, i, j, k) || DroppedBetween(calls, schedule, j, i, k)
  {
    var p := WinnerIsListed(calls, schedule, i, k);
    var q := WinnerIsListed(calls, schedule, j, k);
    if p < q {
      OrderedWinners(calls, schedule, p, q, k);
    } else {
      OrderedWinners(calls, schedule, q, p, k);
    }
  }

  lemma OrderedWinners(calls: seq<Call>, schedule: seq<nat>, p: nat, q: nat, k: string)
    requires OwnOids(calls) && SimpleNames(calls) && p < q < |DecisionOrder(calls, schedule)|
    requires var order := DecisionOrder(calls, schedule); WinsKey(calls, order, p, k) && WinsKey(calls, order, q, k)
    ensures var order := DecisionOrder(calls, schedule); DroppedBetween(calls, schedule, order[p], order[q], k)
  {
    var order := DecisionOrder(calls, schedule);
    WinnersHaveDropBetween(calls, order, p, q, k);
    var r :| p < r < q && DropsKey(calls, order, r, k);
    DropIsInRun(calls, schedule, r, k);
  }

  /** Once all calls have returned, a key that was created and never dropped has exactly one winner. */
  lemma ExactlyOneWinner(calls: seq<Call>, schedule: seq<nat>, c: nat, k: string)
    requires OwnOids(calls) && SimpleNames(calls) && Quiescent(Run(calls, schedule))
    requires c < |calls| && calls[c].Create? && TableKey(calls[c].entry) == k && calls[c].entry.oid != INVALID
    requires forall t :: 0 <= t < |calls| ==> !IsDropOf(calls[t], k)
    ensures exists w :: Won(calls, Run(calls, schedule), w, k)
    ensures forall w, w' :: Won(calls, Run(calls, schedule), w, k) && Won(calls, Run(calls, schedule), w', k) ==>
                              w == w'
  {
    SomeWinner(calls, schedule, c, k);
    forall w, w' | Won(calls, Run(calls, schedule), w, k) && Won(calls, Run(calls, schedule), w', k) ensures w == w' {
      if w != w' {
        OneWinnerUntilDrop(calls, schedule, w, w', k);
        assert false;
      }
    }
  }

  lemma SomeWinner(calls: seq<Call>, schedule: seq<nat>, c: nat, k: string)
    requires OwnOids(calls) && SimpleNames(calls) && Quiescent(Run(calls, schedule))
    requires c < |calls| && calls[c].Create? && TableKey(calls[c].entry) == k && calls[c].entry.oid != INVALID
    ensures exists w :: Won(calls, Run(calls, schedule), w, k)
  {
    var order, s := DecisionOrder(calls, schedule), Run(calls, schedule);
    RunsRefineAtomicMap(calls, schedule);
    assert s.pcs[c].Done? && Listed(s, order, c);
    var p :| 0 <= p < |order| && order[p] == c;
    assert OutcomeOk(calls, s, order, p);
    if WinsKey(calls, order, p, k) {
      assert Won(calls, s, c, k);
    } else {
      BoundHasWinner(calls, order, p, k);
      var q :| 0 <= q < p && WinsKey(calls, order, q, k);
      assert OutcomeOk(calls, s, order, q) && s.pcs[order[q]].Done?;
      assert Won(calls, s, order[q], k);
    }
  }
}

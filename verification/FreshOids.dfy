/** Index OIDs from `next_oid` are fresh in every run (crates/ultrasql-catalog/src/memory.rs). */
module FreshOids {
  import opened CatalogEntries
  import opened CatalogModel

  /** The index at position `p` of the table `o` has the OID `x`. */
  predicate IsOidAt(m: Model, o: Oid, p: nat, x: Oid) {
    o in m && p < |m[o].indexes| && m[o].indexes[p].oid == x
  }

  ghost predicate OidUsed(m: Model, x: Oid) {
    exists o, p :: IsOidAt(m, o, p, x)
  }

  /** The creates of the run bring pairwise different OIDs, none of them in use. */
  ghost predicate BringsNewOids(m: Model, ops: seq<Op>) {
    && (forall i :: 0 <= i < |ops| && ops[i].CreateIndex? ==> !OidUsed(m, ops[i].index.oid))
    && (forall i, j :: 0 <= i < j < |ops| && ops[i].CreateIndex? && ops[j].CreateIndex? ==>
          ops[i].index.oid != ops[j].index.oid)
  }

  lemma AddIndexUses(m: Model, e: IndexEntry, o: Oid, p: nat, x: Oid)
    requires e.tableOid in m && IsOidAt(WithIndex(m, e), o, p, x)
    ensures x == e.oid || OidUsed(m, x)
  {
    assert x == e.oid || IsOidAt(m, o, p, x);
  }

  lemma RemoveIndexUses(m: Model, o: Oid, q: nat, o': Oid, p: nat, x: Oid)
    requires o in m && q < |m[o].indexes| && IsOidAt(m[o := WithoutIndex(m[o], q)], o', p, x)
    ensures OidUsed(m, x)
  {
    assert IsOidAt(m, o', if o' == o && p >= q then p + 1 else p, x);
  }

  /** An operation brings at most the OID of the index it creates into use. */
  lemma ApplyUses(m: Model, op: Op, lower: string -> string, o: Oid, p: nat, x: Oid)
    requires WellFormed(m) && IsOidAt(Apply(m, op, lower).0, o, p, x)
    ensures OidUsed(m, x) || (op.CreateIndex? && x == op.index.oid)
  {
    match op
    case CreateIndex(e) =>
      if IndexFault(m, e).None? {
        AddIndexUses(m, e, o, p, x);
      } else {
        assert IsOidAt(m, o, p, x);
      }
    case DropIndex(name) =>
      var k := ResolveIndex(m, name);
      if IndexBound(m, k) {
        RemoveIndexUses(m, IndexAt(m, k).0, IndexAt(m, k).1, o, p, x);
      } else {
        assert IsOidAt(m, o, p, x);
      }
    case _ =>
      OnlyIndexOpsTouchIndexes(m, op, lower);
      assert IsOidAt(m, o, p, x);
  }

  lemma NewOidsStayNew(m: Model, ops: seq<Op>, lower: string -> string)
    requires WellFormed(m) && ops != [] && BringsNewOids(m, ops)
    ensures BringsNewOids(Apply(m, ops[0], lower).0, ops[1..])
  {
    var m' := Apply(m, ops[0], lower).0;
    forall i | 0 <= i < |ops[1..]| && ops[1..][i].CreateIndex? ensures !OidUsed(m', ops[1..][i].index.oid) {
      var x := ops[1..][i].index.oid;
      assert ops[1..][i] == ops[i + 1];
      if OidUsed(m', x) {
        var o, p :| IsOidAt(m', o, p, x);
        ApplyUses(m, ops[0], lower, o, p, x);
      }
    }
  }

  /** Different new OIDs keep a run fresh, whatever else it does. */
  lemma {:induction false} NewOidsAreFresh(m: Model, ops: seq<Op>, lower: string -> string)
    requires WellFormed(m) && BringsNewOids(m, ops)
    ensures FreshRun(m, ops, lower)
    decreases |ops|
  {
    if ops != [] {
      ApplyKeepsWellFormed(m, ops[0], lower);
      NewOidsStayNew(m, ops, lower);
      NewOidsAreFresh(Apply(m, ops[0], lower).0, ops[1..], lower);
      if ops[0].CreateIndex? && IndexFault(m, ops[0].index).None? {
        var e := ops[0].index;
        forall p | 0 <= p < |m[e.tableOid].indexes| ensures m[e.tableOid].indexes[p].oid != e.oid {
          assert !OidUsed(m, e.oid) && !IsOidAt(m, e.tableOid, p, e.oid);
        }
      }
    }
  }

  /** Each created index took its OID from its own call of `next_oid`, before the counter wraps. */
  predicate FromTickets(ops: seq<Op>, tickets: seq<nat>)
    requires |tickets| == |ops|
  {
    && (forall i, j :: 0 <= i < j < |tickets| ==> tickets[i] != tickets[j])
    && forall i :: 0 <= i < |ops| && ops[i].CreateIndex? ==>
         tickets[i] < 0x1_0000_0000 - FIRST_USER_OID && ops[i].index.oid == AllocatedOid(tickets[i])
  }

  /** From the empty catalog, OIDs handed out by `next_oid` keep every run fresh and its index OIDs distinct. */
  lemma AllocatedRunsAreFresh(ops: seq<Op>, tickets: seq<nat>, lower: string -> string)
    requires |tickets| == |ops| && FromTickets(ops, tickets)
    ensures WellFormed(map[]) && FreshRun(map[], ops, lower) && OidsDistinct(RunOps(map[], ops, lower))
  {
    AllocatedOidsAreFreshIff(0x1_0000_0000 - FIRST_USER_OID);
    forall i, j | 0 <= i < j < |ops| && ops[i].CreateIndex? && ops[j].CreateIndex?
      ensures ops[i].index.oid != ops[j].index.oid
    {
      assert tickets[i] < tickets[j] || tickets[j] < tickets[i];
    }
    NewOidsAreFresh(map[], ops, lower);
    RunKeepsOids(map[], ops, lower);
  }
}

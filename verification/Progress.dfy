/** Runs of the concurrent catalog make progress (crates/ultrasql-catalog/src/memory.rs). */
module Progress {
  import opened Text
  import opened CatalogEntries
  import opened ConcurrentCatalog

  /** How many steps a call at `pc` may still take. */
  function Remaining(pc: Pc): nat {
    match pc
    case Start => 6
    case CheckOid => 5
    case TakeSlot => 4
    case RecheckOid => 3
    case InsertOid => 2
    case Publish => 1
    case Remove(_) => 2
    case RemoveOid(_) => 1
    case SecondLookup => 1
    case Done(_) => 0
  }

  /** The thread's next step brings its call nearer to its end. */
  predicate Progresses(calls: seq<Call>, s: State, i: nat)
    requires |s.pcs| == |calls| && i < |calls|
  {
    Remaining(Step(calls, s, i).pcs[i]) < Remaining(s.pcs[i])
  }

  lemma WaitsOnlyForSlots(calls: seq<Call>, s: State, i: nat)
    requires |s.pcs| == |calls| && i < |calls| && Fits(calls[i], s.pcs[i]) && !s.pcs[i].Done?
    ensures Progresses(calls, s, i) || s.slots != map[]
  {
  }

  lemma HolderNeverWaits(calls: seq<Call>, s: State, i: nat)
    requires |s.pcs| == |calls| && i < |calls| && Fits(calls[i], s.pcs[i]) && Holding(s.pcs[i])
    ensures Progresses(calls, s, i)
  {
  }

  lemma SomeThreadProgresses(calls: seq<Call>, s: State)
    requires |s.pcs| == |calls| && SlotsInv(calls, s) && !Quiescent(s)
    ensures exists i :: 0 <= i < |calls| && Progresses(calls, s, i)
  {
    var t :| 0 <= t < |calls| && !s.pcs[t].Done?;
    assert HolderOk(calls, s, t);
    WaitsOnlyForSlots(calls, s, t);
    if !Progresses(calls, s, t) {
      var k :| k in s.slots;
      assert SlotOk(calls, s, k);
      assert HolderOk(calls, s, s.slots[k]);
      HolderNeverWaits(calls, s, s.slots[k]);
    }
  }

  /** No deadlock: while a call is unfinished, some thread can bring its call nearer to its end. */
  lemma SomeCallProgresses(calls: seq<Call>, schedule: seq<nat>)
    requires !Quiescent(Run(calls, schedule))
    ensures exists i :: 0 <= i < |calls| && Progresses(calls, Run(calls, schedule), i)
  {
    ExecKeepsSlots(calls, Init(|calls|), schedule);
    SomeThreadProgresses(calls, Run(calls, schedule));
  }

  // ----- Fair runs end -----

  /** How many steps all calls together may still take. */
  function Total(pcs: seq<Pc>): nat {
    if pcs == [] then 0 else Remaining(pcs[0]) + Total(pcs[1..])
  }

  lemma {:induction false} TotalUpdate(pcs: seq<Pc>, i: nat, pc: Pc)
    requires i < |pcs|
    ensures Total(pcs[i := pc]) + Remaining(pcs[i]) == Total(pcs) + Remaining(pc)
  {
    if i == 0 {
      assert pcs[i := pc][1..] == pcs[1..];
    } else {
      assert pcs[i := pc][1..] == pcs[1..][i - 1 := pc];
      TotalUpdate(pcs[1..], i - 1, pc);
    }
  }

  lemma {:induction false} TotalZero(pcs: seq<Pc>)
    requires Total(pcs) == 0
    ensures forall i :: 0 <= i < |pcs| ==> pcs[i].Done?
  {
    if pcs != [] {
      TotalZero(pcs[1..]);
      assert forall i :: 0 < i < |pcs| ==> pcs[i] == pcs[1..][i - 1];
    }
  }

  lemma {:induction false} TotalAtStart(n: nat)
    ensures Total(seq(n, _ => Start)) == 6 * n
  {
    if n > 0 {
      assert seq(n, _ => Start)[1..] == seq(n - 1, _ => Start);
      TotalAtStart(n - 1);
    }
  }

  lemma IdleCreateStays(s: State, i: nat, e: TableEntry)
    requires i < |s.pcs| && Remaining(CreateStep(s, i, e).pcs[i]) >= Remaining(s.pcs[i])
    ensures CreateStep(s, i, e) == s
  {
    if s.pcs[i] == Start || s.pcs[i] == TakeSlot {
      WaitingCreateStays(s, i, e);
    }
  }

  lemma WaitingCreateStays(s: State, i: nat, e: TableEntry)
    requires i < |s.pcs| && (s.pcs[i] == Start || s.pcs[i] == TakeSlot)
    requires Remaining(CreateStep(s, i, e).pcs[i]) >= Remaining(s.pcs[i])
    ensures CreateStep(s, i, e) == s
  {
  }

  lemma IdleDropStays(s: State, i: nat, name: Name)
    requires i < |s.pcs| && Remaining(DropStep(s, i, name).pcs[i]) >= Remaining(s.pcs[i])
    ensures DropStep(s, i, name) == s
  {
  }

  lemma IdleLookupStays(s: State, i: nat, name: Name)
    requires i < |s.pcs| && Remaining(LookupStep(s, i, name).pcs[i]) >= Remaining(s.pcs[i])
    ensures LookupStep(s, i, name) == s
  {
  }

  /** A thread that brings its call no nearer to its end changes nothing. */
  lemma IdleStepStays(calls: seq<Call>, s: State, i: nat)
    requires |s.pcs| == |calls| && (i < |calls| ==> !Progresses(calls, s, i))
    ensures Step(calls, s, i) == s
  {
    if i < |calls| {
      match calls[i]
      case Create(e) => IdleCreateStays(s, i, e);
      case Drop(name) => IdleDropStays(s, i, name);
      case Lookup(name) => IdleLookupStays(s, i, name);
    }
  }

  lemma StepTotal(calls: seq<Call>, s: State, i: nat)
    requires |s.pcs| == |calls|
    ensures Total(Step(calls, s, i).pcs) <= Total(s.pcs)
    ensures i < |calls| && Progresses(calls, s, i) ==> Total(Step(calls, s, i).pcs) < Total(s.pcs)
  {
    if i < |calls| && Progresses(calls, s, i) {
      var s' := Step(calls, s, i);
      assert s'.pcs == s.pcs[i := s'.pcs[i]];
      TotalUpdate(s.pcs, i, s'.pcs[i]);
    } else {
      IdleStepStays(calls, s, i);
    }
  }

  lemma {:induction false} ExecTotal(calls: seq<Call>, s: State, schedule: seq<nat>)
    requires |s.pcs| == |calls|
    ensures Total(Exec(calls, s, schedule).pcs) <= Total(s.pcs)
    decreases |schedule|
  {
    if schedule != [] {
      StepTotal(calls, s, schedule[0]);
      ExecTotal(calls, Step(calls, s, schedule[0]), schedule[1..]);
    }
  }

  /** A stretch that schedules a thread able to progress brings some call nearer to its end. */
  lemma {:induction false} StretchProgresses(calls: seq<Call>, s: State, schedule: seq<nat>, i: nat)
    requires |s.pcs| == |calls| && i < |calls| && i in schedule && Progresses(calls, s, i)
    ensures Total(Exec(calls, s, schedule).pcs) < Total(s.pcs)
    decreases |schedule|
  {
    var first := schedule[0];
    StepTotal(calls, s, first);
    if first < |calls| && Progresses(calls, s, first) {
      ExecTotal(calls, Step(calls, s, first), schedule[1..]);
    } else {
      IdleStepStays(calls, s, first);
      assert schedule == [first] + schedule[1..];
      StretchProgresses(calls, s, schedule[1..], i);
    }
  }

  /** A round schedules every thread, in any order and any number of times. */
  predicate IsRound(threads: nat, round: seq<nat>) {
    forall i :: 0 <= i < threads ==> i in round
  }

  predicate AreRounds(threads: nat, rounds: seq<seq<nat>>) {
    forall r :: 0 <= r < |rounds| ==> IsRound(threads, rounds[r])
  }

  function Concat(rounds: seq<seq<nat>>): seq<nat> {
    if rounds == [] then [] else rounds[0] + Concat(rounds[1..])
  }

  lemma RoundProgresses(calls: seq<Call>, s: State, round: seq<nat>)
    requires |s.pcs| == |calls| && SlotsInv(calls, s) && IsRound(|calls|, round)
    ensures Total(s.pcs) == 0 || Total(Exec(calls, s, round).pcs) < Total(s.pcs)
    ensures SlotsInv(calls, Exec(calls, s, round))
  {
    ExecKeepsSlots(calls, s, round);
    if !Quiescent(s) {
      SomeThreadProgresses(calls, s);
      var i :| 0 <= i < |calls| && Progresses(calls, s, i);
      StretchProgresses(calls, s, round, i);
    } else {
      QuiescentTotal(s.pcs);
    }
  }

  lemma {:induction false} QuiescentTotal(pcs: seq<Pc>)
    requires forall i :: 0 <= i < |pcs| ==> pcs[i].Done?
    ensures Total(pcs) == 0
  {
    if pcs != [] {
      QuiescentTotal(pcs[1..]);
    }
  }

  lemma {:induction false} RoundsProgress(calls: seq<Call>, s: State, rounds: seq<seq<nat>>)
    requires |s.pcs| == |calls| && SlotsInv(calls, s) && AreRounds(|calls|, rounds)
    ensures var left := Total(Exec(calls, s, Concat(rounds)).pcs); left == 0 || left + |rounds| <= Total(s.pcs)
    decreases |rounds|
  {
    if rounds != [] {
      var s' := Exec(calls, s, rounds[0]);
      RoundProgresses(calls, s, rounds[0]);
      ExecAppend(calls, s, rounds[0], Concat(rounds[1..]));
      RoundsProgress(calls, s', rounds[1..]);
      ExecTotal(calls, s, Concat(rounds));
      ExecTotal(calls, s, rounds[0]);
    }
  }

  /** Every run that gives all threads six turns for each call has every call returned, whatever the order. */
  lemma FairRunsFinish(calls: seq<Call>, rounds: seq<seq<nat>>)
    requires |rounds| >= 6 * |calls| && AreRounds(|calls|, rounds)
    ensures Quiescent(Run(calls, Concat(rounds)))
  {
    var s := Init(|calls|);
    ExecKeepsSlots(calls, s, []);
    TotalAtStart(|calls|);
    RoundsProgress(calls, s, rounds);
    var left := Run(calls, Concat(rounds)).pcs;
    TotalZero(left);
  }
}

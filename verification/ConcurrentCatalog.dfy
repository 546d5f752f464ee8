/**
 `create_table`, `drop_table` and `lookup_table` run by many threads at once
 (crates/ultrasql-catalog/src/memory.rs). One access to one of the two concurrent maps is one step.
 The vacant by-name slot taken by `install_table` stays locked until the entry is published, and
 every other by-name access to that key waits; accesses to the by-OID map never wait.
 */
module ConcurrentCatalog {
  import opened Text
  import opened LookupKeys
  import opened CatalogEntries

  /** One call; thread `i` of a run makes call `calls[i]`. */
  datatype Call = Create(entry: TableEntry) | Drop(name: Name) | Lookup(name: Name)

  datatype Outcome =
    | Created | NameTaken | OidTaken | InvalidOid
    | Dropped | NotFound
    | Found(entry: TableEntry) | Absent

  /** What a thread does next. */
  datatype Pc =
    | Start
    | CheckOid                        // create: the name was free, look at the OID
    | TakeSlot                        // create: lock the by-name slot if it is vacant
    | RecheckOid                      // create, slot held
    | InsertOid                       // create, slot held
    | Publish                         // create, slot held, OID entry in place
    | Remove(key: string)             // drop: the key is resolved
    | RemoveOid(entry: TableEntry)    // drop: the name is gone, its OID entry is next
    | SecondLookup                    // lookup: the name itself was not bound
    | Done(outcome: Outcome)

  datatype State = State(
    byName: map<string, TableEntry>,
    byOid: map<Oid, TableEntry>,
    slots: map<string, nat>,          // locked by-name slots and the thread holding each
    pcs: seq<Pc>)

  function Init(threads: nat): State {
    State(map[], map[], map[], seq(threads, _ => Start))
  }

  function Goto(s: State, i: nat, pc: Pc): State
    requires i < |s.pcs|
  {
    s.(pcs := s.pcs[i := pc])
  }

  function CreateStep(s: State, i: nat, e: TableEntry): State
    requires i < |s.pcs|
  {
    var key := TableKey(e);
    match s.pcs[i]
    case Start =>
      if e.oid == INVALID then Goto(s, i, Done(InvalidOid))
      else if key in s.slots then s
      else if key in s.byName then Goto(s, i, Done(NameTaken))
      else Goto(s, i, CheckOid)
    case CheckOid =>
      if e.oid in s.byOid then Goto(s, i, Done(OidTaken)) else Goto(s, i, TakeSlot)
    case TakeSlot =>
      if key in s.slots then s
      else if key in s.byName then Goto(s, i, Done(NameTaken))
      else Goto(s, i, RecheckOid).(slots := s.slots[key := i])
    case RecheckOid =>
      if e.oid in s.byOid then Goto(s, i, Done(OidTaken)).(slots := s.slots - {key})
      else Goto(s, i, InsertOid)
    case InsertOid =>
      Goto(s, i, Publish).(byOid := s.byOid[e.oid := e])
    case Publish =>
      Goto(s, i, Done(Created)).(byName := s.byName[key := e], slots := s.slots - {key})
    case _ => s
  }

  function DropStep(s: State, i: nat, name: Name): State
    requires i < |s.pcs|
  {
    match s.pcs[i]
    case Start =>
      var folded := Fold(name);
      if folded in s.slots then s
      else Goto(s, i, Remove(if folded in s.byName then folded else PublicKey(name)))
    case Remove(key) =>
      if key in s.slots then s
      else if key !in s.byName then Goto(s, i, Done(NotFound))
      else Goto(s, i, RemoveOid(s.byName[key])).(byName := s.byName - {key})
    case RemoveOid(e) =>
      Goto(s, i, Done(Dropped)).(byOid := s.byOid - {e.oid})
    case _ => s
  }

  function LookupStep(s: State, i: nat, name: Name): State
    requires i < |s.pcs|
  {
    var folded, publicKey := Fold(name), PublicKey(name);
    match s.pcs[i]
    case Start =>
      if folded in s.slots then s
      else if folded in s.byName then Goto(s, i, Done(Found(s.byName[folded])))
      else if publicKey == folded then Goto(s, i, Done(Absent))
      else Goto(s, i, SecondLookup)
    case SecondLookup =>
      if publicKey in s.slots then s
      else if publicKey in s.byName then Goto(s, i, Done(Found(s.byName[publicKey])))
      else Goto(s, i, Done(Absent))
    case _ => s
  }

  /** The next step of thread `i`; a thread that is waiting or done leaves the state as it is. */
  function Step(calls: seq<Call>, s: State, i: nat): (s': State)
    requires |s.pcs| == |calls|
    ensures |s'.pcs| == |calls|
    ensures forall j :: 0 <= j < |calls| && j != i ==> s'.pcs[j] == s.pcs[j]
  {
    if i >= |calls| then s
    else
      match calls[i]
      case Create(e) => CreateStep(s, i, e)
      case Drop(name) => DropStep(s, i, name)
      case Lookup(name) => LookupStep(s, i, name)
  }

  /** The state after the threads named by `schedule` have stepped in that order. */
  function Exec(calls: seq<Call>, s: State, schedule: seq<nat>): (s': State)
    requires |s.pcs| == |calls|
    ensures |s'.pcs| == |calls|
    decreases |schedule|
  {
    if schedule == [] then s else Exec(calls, Step(calls, s, schedule[0]), schedule[1..])
  }

  /** A run: any interleaving of the calls, from the empty catalog. */
  function Run(calls: seq<Call>, schedule: seq<nat>): (s: State)
    ensures |s.pcs| == |calls|
  {
    Exec(calls, Init(|calls|), schedule)
  }

  lemma ExecAppend(calls: seq<Call>, s: State, a: seq<nat>, b: seq<nat>)
    requires |s.pcs| == |calls|
    ensures Exec(calls, s, a + b) == Exec(calls, Exec(calls, s, a), b)
    decreases |a|
  {
    if a == [] {
      assert a + b == b;
    } else {
      assert (a + b)[1..] == a[1..] + b;
      ExecAppend(calls, Step(calls, s, a[0]), a[1..], b);
    }
  }

  // ----- Safety -----

  /** Every create that carries a given OID is for the same key. */
  predicate OneKeyPerOid(calls: seq<Call>) {
    forall i, j :: 0 <= i < |calls| && 0 <= j < |calls| && calls[i].Create? && calls[j].Create?
                   && calls[i].entry.oid == calls[j].entry.oid != INVALID
      ==> TableKey(calls[i].entry) == TableKey(calls[j].entry)
  }

  /** Thread `i` is a create or drop of `e` that has begun to change the maps and has not returned. */
  predicate InFlightAt(calls: seq<Call>, s: State, i: nat, e: TableEntry)
    requires |s.pcs| == |calls|
  {
    i < |calls| && ((calls[i] == Create(e) && s.pcs[i] == Publish) || s.pcs[i] == RemoveOid(e))
  }

  predicate Bound(s: State, e: TableEntry) {
    TableKey(e) in s.byName && s.byName[TableKey(e)] == e
  }

  /** A visible name has its own entry under its OID. */
  predicate NameOk(s: State, k: string)
    requires k in s.byName
  {
    var e := s.byName[k];
    TableKey(e) == k && e.oid in s.byOid && s.byOid[e.oid] == e
  }

  /** An OID entry without its name belongs to a call still in flight. */
  ghost predicate OidOk(calls: seq<Call>, s: State, o: Oid)
    requires |s.pcs| == |calls| && o in s.byOid
  {
    var e := s.byOid[o];
    e.oid == o && (Bound(s, e) || exists i :: InFlightAt(calls, s, i, e))
  }

  ghost predicate Consistent(calls: seq<Call>, s: State)
    requires |s.pcs| == |calls|
  {
    && (forall k :: k in s.byName ==> NameOk(s, k))
    && (forall o :: o in s.byOid ==> OidOk(calls, s, o))
  }

  predicate Holding(pc: Pc) {
    pc.RecheckOid? || pc.InsertOid? || pc.Publish?
  }

  /** The pcs each kind of call can be at. */
  predicate Fits(call: Call, pc: Pc) {
    match call
    case Create(e) =>
      || pc.Start? || pc.Done?
      || (e.oid != INVALID && (pc.CheckOid? || pc.TakeSlot? || Holding(pc)))
    case Drop(_) => pc.Start? || pc.Remove? || pc.RemoveOid? || pc.Done?
    case Lookup(_) => pc.Start? || pc.SecondLookup? || pc.Done?
  }

  /** Thread `i` is the create that put `e` under its OID. */
  predicate InstalledBy(calls: seq<Call>, s: State, i: nat, e: TableEntry)
    requires |s.pcs| == |calls|
  {
    && i < |calls| && calls[i] == Create(e) && e.oid != INVALID
    && (s.pcs[i] == Publish || s.pcs[i] == Done(Created))
  }

  ghost predicate Installed(calls: seq<Call>, s: State, e: TableEntry)
    requires |s.pcs| == |calls|
  {
    exists i :: InstalledBy(calls, s, i, e)
  }

  /** A locked slot is vacant and is held by a create of that key. */
  predicate SlotOk(calls: seq<Call>, s: State, k: string)
    requires |s.pcs| == |calls| && k in s.slots
  {
    var i := s.slots[k];
    && k !in s.byName && i < |calls| && Holding(s.pcs[i])
    && calls[i].Create? && TableKey(calls[i].entry) == k
  }

  /** A thread past the slot holds the slot of its key. */
  predicate HolderOk(calls: seq<Call>, s: State, i: nat)
    requires |s.pcs| == |calls| && i < |calls|
  {
    && Fits(calls[i], s.pcs[i])
    && (Holding(s.pcs[i]) ==>
          var k := TableKey(calls[i].entry); k in s.slots && s.slots[k] == i)
  }

  ghost predicate SlotsInv(calls: seq<Call>, s: State)
    requires |s.pcs| == |calls|
  {
    && (forall k :: k in s.slots ==> SlotOk(calls, s, k))
    && (forall i :: 0 <= i < |calls| ==> HolderOk(calls, s, i))
  }

  /** What the pc of a thread says about the maps. */
  predicate ThreadOk(calls: seq<Call>, s: State, i: nat)
    requires |s.pcs| == |calls| && i < |calls|
  {
    && HolderOk(calls, s, i)
    && (s.pcs[i] == InsertOid ==> calls[i].entry.oid !in s.byOid)
    && (s.pcs[i] == Publish ==>
          calls[i].entry.oid in s.byOid && s.byOid[calls[i].entry.oid] == calls[i].entry)
    && (s.pcs[i].RemoveOid? ==>
          var e := s.pcs[i].entry; e.oid in s.byOid && s.byOid[e.oid] == e && !Bound(s, e))
  }

  /** A drop shares the OID it is about to remove with no other call in flight. */
  predicate PairOk(calls: seq<Call>, s: State, i: nat, j: nat)
    requires |s.pcs| == |calls| && i < |calls| && j < |calls|
  {
    s.pcs[i].RemoveOid? && i != j ==>
      && (calls[j].Create? && s.pcs[j] == Publish ==> calls[j].entry.oid != s.pcs[i].entry.oid)
      && (s.pcs[j].RemoveOid? ==> s.pcs[j].entry.oid != s.pcs[i].entry.oid)
  }

  ghost predicate Inv(calls: seq<Call>, s: State)
    requires |s.pcs| == |calls|
  {
    && Consistent(calls, s)
    && (forall o :: o in s.byOid ==> Installed(calls, s, s.byOid[o]))
    && SlotsInv(calls, s)
    && (forall i :: 0 <= i < |calls| ==> ThreadOk(calls, s, i))
    && (forall i, j :: 0 <= i < |calls| && 0 <= j < |calls| ==> PairOk(calls, s, i, j))
  }

  lemma CreateKeepsName(calls: seq<Call>, s: State, i: nat, k: string)
    requires |s.pcs| == |calls| && i < |calls| && ThreadOk(calls, s, i)
    requires k in s.byName ==> NameOk(s, k)
    requires calls[i].Create?
    ensures var s' := CreateStep(s, i, calls[i].entry); k in s'.byName ==> NameOk(s', k)
  {
    if s.pcs[i] != Publish {
      UnpublishedKeepsName(calls, s, i, k);
    }
  }

  lemma UnpublishedKeepsName(calls: seq<Call>, s: State, i: nat, k: string)
    requires |s.pcs| == |calls| && i < |calls| && calls[i].Create? && ThreadOk(calls, s, i) && s.pcs[i] != Publish
    requires k in s.byName ==> NameOk(s, k)
    ensures var s' := CreateStep(s, i, calls[i].entry); k in s'.byName ==> NameOk(s', k)
  {
  }

  lemma DropKeepsName(calls: seq<Call>, s: State, i: nat, k: string)
    requires |s.pcs| == |calls| && i < |calls| && ThreadOk(calls, s, i)
    requires k in s.byName ==> NameOk(s, k)
    requires calls[i].Drop?
    ensures var s' := DropStep(s, i, calls[i].name); k in s'.byName ==> NameOk(s', k)
  {
  }

  lemma StepKeepsName(calls: seq<Call>, s: State, i: nat, k: string)
    requires |s.pcs| == |calls| && i < |calls| && ThreadOk(calls, s, i)
    requires k in s.byName ==> NameOk(s, k)
    ensures var s' := Step(calls, s, i); k in s'.byName ==> NameOk(s', k)
  {
    match calls[i]
    case Create(_) => CreateKeepsName(calls, s, i, k);
    case Drop(_) => DropKeepsName(calls, s, i, k);
    case Lookup(_) =>
  }

  lemma CreateKeepsSlot(calls: seq<Call>, s: State, i: nat, k: string)
    requires |s.pcs| == |calls| && i < |calls| && HolderOk(calls, s, i)
    requires k in s.slots ==> SlotOk(calls, s, k)
    requires calls[i].Create?
    ensures var s' := CreateStep(s, i, calls[i].entry); k in s'.slots ==> SlotOk(calls, s', k)
  {
    if k == TableKey(calls[i].entry) {
      CreateKeepsOwnSlot(calls, s, i);
    } else {
      CreateKeepsOtherSlot(calls, s, i, k);
    }
  }

  lemma CreateKeepsOwnSlot(calls: seq<Call>, s: State, i: nat)
    requires |s.pcs| == |calls| && i < |calls| && calls[i].Create? && HolderOk(calls, s, i)
    requires var k := TableKey(calls[i].entry); k in s.slots ==> SlotOk(calls, s, k)
    ensures var s', k := CreateStep(s, i, calls[i].entry), TableKey(calls[i].entry);
            k in s'.slots ==> SlotOk(calls, s', k)
  {
  }

  lemma CreateKeepsOtherSlot(calls: seq<Call>, s: State, i: nat, k: string)
    requires |s.pcs| == |calls| && i < |calls| && calls[i].Create? && k != TableKey(calls[i].entry)
    requires k in s.slots ==> SlotOk(calls, s, k)
    ensures var s' := CreateStep(s, i, calls[i].entry); k in s'.slots ==> SlotOk(calls, s', k)
  {
    var s' := CreateStep(s, i, calls[i].entry);
    CreateKeepsOtherKeys(s, i, calls[i].entry, k);
    assert k in s.slots ==> s.slots[k] != i;
  }

  lemma CreateKeepsOtherKeys(s: State, i: nat, e: TableEntry, k: string)
    requires i < |s.pcs| && k != TableKey(e)
    ensures var s' := CreateStep(s, i, e);
            && (k in s'.slots <==> k in s.slots) && (k in s.slots ==> s'.slots[k] == s.slots[k])
            && (k in s'.byName <==> k in s.byName)
  {
  }

  lemma DropKeepsSlot(calls: seq<Call>, s: State, i: nat, k: string)
    requires |s.pcs| == |calls| && i < |calls| && HolderOk(calls, s, i)
    requires k in s.slots ==> SlotOk(calls, s, k)
    requires calls[i].Drop?
    ensures var s' := DropStep(s, i, calls[i].name); k in s'.slots ==> SlotOk(calls, s', k)
  {
  }

  lemma StepKeepsSlot(calls: seq<Call>, s: State, i: nat, k: string)
    requires |s.pcs| == |calls| && i < |calls| && HolderOk(calls, s, i)
    requires k in s.slots ==> SlotOk(calls, s, k)
    ensures var s' := Step(calls, s, i); k in s'.slots ==> SlotOk(calls, s', k)
  {
    match calls[i]
    case Create(_) => CreateKeepsSlot(calls, s, i, k);
    case Drop(_) => DropKeepsSlot(calls, s, i, k);
    case Lookup(_) =>
  }

  lemma StepKeepsHolder(calls: seq<Call>, s: State, i: nat, j: nat)
    requires |s.pcs| == |calls| && i < |calls| && j < |calls|
    requires HolderOk(calls, s, i) && HolderOk(calls, s, j)
    ensures HolderOk(calls, Step(calls, s, i), j)
  {
    match calls[i]
    case Create(e) => CreateKeepsHolder(calls, s, i, j);
    case _ =>
  }

  lemma CreateKeepsHolder(calls: seq<Call>, s: State, i: nat, j: nat)
    requires |s.pcs| == |calls| && i < |calls| && j < |calls| && calls[i].Create?
    requires HolderOk(calls, s, i) && HolderOk(calls, s, j)
    ensures HolderOk(calls, CreateStep(s, i, calls[i].entry), j)
  {
    if i == j {
      CreateKeepsOwnHolder(calls, s, i);
    } else {
      CreateKeepsOtherHolder(calls, s, i, j);
    }
  }

  lemma CreateKeepsOwnHolder(calls: seq<Call>, s: State, i: nat)
    requires |s.pcs| == |calls| && i < |calls| && calls[i].Create? && HolderOk(calls, s, i)
    ensures HolderOk(calls, CreateStep(s, i, calls[i].entry), i)
  {
  }

  lemma CreateKeepsOtherHolder(calls: seq<Call>, s: State, i: nat, j: nat)
    requires |s.pcs| == |calls| && i < |calls| && j < |calls| && i != j && calls[i].Create?
    requires HolderOk(calls, s, i) && HolderOk(calls, s, j)
    ensures HolderOk(calls, CreateStep(s, i, calls[i].entry), j)
  {
  }

  lemma StepKeepsSlots(calls: seq<Call>, s: State, i: nat)
    requires |s.pcs| == |calls| && SlotsInv(calls, s)
    ensures SlotsInv(calls, Step(calls, s, i))
  {
    if i < |calls| {
      var s' := Step(calls, s, i);
      assert HolderOk(calls, s, i);
      forall k | k in s'.slots ensures SlotOk(calls, s', k) { StepKeepsSlot(calls, s, i, k); }
      forall j | 0 <= j < |calls| ensures HolderOk(calls, s', j) { StepKeepsHolder(calls, s, i, j); }
    }
  }

  /** Whatever the calls are, a locked slot always has a holder that is installing under its key. */
  lemma {:induction false} ExecKeepsSlots(calls: seq<Call>, s: State, schedule: seq<nat>)
    requires |s.pcs| == |calls| && SlotsInv(calls, s)
    ensures SlotsInv(calls, Exec(calls, s, schedule))
    decreases |schedule|
  {
    if schedule != [] {
      StepKeepsSlots(calls, s, schedule[0]);
      ExecKeepsSlots(calls, Step(calls, s, schedule[0]), schedule[1..]);
    }
  }

  lemma StepKeepsOid(calls: seq<Call>, s: State, i: nat, o: Oid)
    requires |s.pcs| == |calls| && i < |calls| && ThreadOk(calls, s, i)
    requires o in s.byOid ==> OidOk(calls, s, o)
    requires Holding(s.pcs[i]) ==> SlotOk(calls, s, TableKey(calls[i].entry))
    ensures var s' := Step(calls, s, i); o in s'.byOid ==> OidOk(calls, s', o)
  {
    if calls[i].Create? {
      CreateKeepsOid(calls, s, i, o);
    } else if calls[i].Drop? {
      DropKeepsOid(calls, s, i, o);
    } else {
      var s' := Step(calls, s, i);
      if o in s'.byOid && !Bound(s', s'.byOid[o]) {
        var w :| InFlightAt(calls, s, w, s.byOid[o]);
        assert InFlightAt(calls, s', w, s.byOid[o]);
      }
    }
  }

  lemma CreateKeepsOid(calls: seq<Call>, s: State, i: nat, o: Oid)
    requires |s.pcs| == |calls| && i < |calls| && calls[i].Create? && ThreadOk(calls, s, i)
    requires o in s.byOid ==> OidOk(calls, s, o)
    requires Holding(s.pcs[i]) ==> SlotOk(calls, s, TableKey(calls[i].entry))
    ensures var s' := CreateStep(s, i, calls[i].entry); o in s'.byOid ==> OidOk(calls, s', o)
  {
    var s' := CreateStep(s, i, calls[i].entry);
    if o in s'.byOid {
      var e := s'.byOid[o];
      if o !in s.byOid || s.byOid[o] != e {
        assert InFlightAt(calls, s', i, e);
      } else if !Bound(s', e) {
        var w :| InFlightAt(calls, s, w, e);
        assert InFlightAt(calls, s', w, e);
      }
    }
  }

  lemma DropKeepsOid(calls: seq<Call>, s: State, i: nat, o: Oid)
    requires |s.pcs| == |calls| && i < |calls| && calls[i].Drop? && ThreadOk(calls, s, i)
    requires o in s.byOid ==> OidOk(calls, s, o)
    ensures var s' := DropStep(s, i, calls[i].name); o in s'.byOid ==> OidOk(calls, s', o)
  {
    var s' := DropStep(s, i, calls[i].name);
    if o in s'.byOid {
      var e := s'.byOid[o];
      if Bound(s, e) && !Bound(s', e) {
        assert InFlightAt(calls, s', i, e);
      } else if !Bound(s', e) {
        var w :| InFlightAt(calls, s, w, e);
        assert InFlightAt(calls, s', w, e);
      }
    }
  }

  lemma StepKeepsInstalled(calls: seq<Call>, s: State, i: nat, o: Oid)
    requires |s.pcs| == |calls| && i < |calls| && ThreadOk(calls, s, i)
    requires o in s.byOid ==> Installed(calls, s, s.byOid[o])
    ensures var s' := Step(calls, s, i); o in s'.byOid ==> Installed(calls, s', s'.byOid[o])
  {
    var s' := Step(calls, s, i);
    if o in s'.byOid {
      if s.pcs[i] == InsertOid && o == calls[i].entry.oid {
        assert InstalledBy(calls, s', i, s'.byOid[o]);
      } else {
        var w :| InstalledBy(calls, s, w, s.byOid[o]);
        assert InstalledBy(calls, s', w, s'.byOid[o]);
      }
    }
  }

  lemma CreateKeepsOwnThread(calls: seq<Call>, s: State, i: nat)
    requires |s.pcs| == |calls| && i < |calls| && ThreadOk(calls, s, i)
    requires forall k :: k in s.byName ==> NameOk(s, k)
    requires calls[i].Create?
    ensures ThreadOk(calls, CreateStep(s, i, calls[i].entry), i)
  {
  }

  lemma DropKeepsOwnThread(calls: seq<Call>, s: State, i: nat)
    requires |s.pcs| == |calls| && i < |calls| && ThreadOk(calls, s, i)
    requires forall k :: k in s.byName ==> NameOk(s, k)
    requires calls[i].Drop?
    ensures ThreadOk(calls, DropStep(s, i, calls[i].name), i)
  {
  }

  lemma StepKeepsOwnThread(calls: seq<Call>, s: State, i: nat)
    requires |s.pcs| == |calls| && i < |calls| && ThreadOk(calls, s, i)
    requires forall k :: k in s.byName ==> NameOk(s, k)
    ensures ThreadOk(calls, Step(calls, s, i), i)
  {
    match calls[i]
    case Create(_) => CreateKeepsOwnThread(calls, s, i);
    case Drop(_) => DropKeepsOwnThread(calls, s, i);
    case Lookup(_) =>
  }

  lemma CreateKeepsOtherThread(calls: seq<Call>, s: State, i: nat, j: nat)
    requires |s.pcs| == |calls| && i < |calls| && j < |calls| && i != j && OneKeyPerOid(calls)
    requires ThreadOk(calls, s, i) && ThreadOk(calls, s, j) && PairOk(calls, s, i, j) && PairOk(calls, s, j, i)
    requires calls[i].Create?
    ensures ThreadOk(calls, CreateStep(s, i, calls[i].entry), j)
  {
  }

  lemma DropKeepsOtherThread(calls: seq<Call>, s: State, i: nat, j: nat)
    requires |s.pcs| == |calls| && i < |calls| && j < |calls| && i != j && OneKeyPerOid(calls)
    requires ThreadOk(calls, s, i) && ThreadOk(calls, s, j) && PairOk(calls, s, i, j) && PairOk(calls, s, j, i)
    requires calls[i].Drop?
    ensures ThreadOk(calls, DropStep(s, i, calls[i].name), j)
  {
  }

  lemma StepKeepsOtherThread(calls: seq<Call>, s: State, i: nat, j: nat)
    requires |s.pcs| == |calls| && i < |calls| && j < |calls| && i != j && OneKeyPerOid(calls)
    requires ThreadOk(calls, s, i) && ThreadOk(calls, s, j) && PairOk(calls, s, i, j) && PairOk(calls, s, j, i)
    ensures ThreadOk(calls, Step(calls, s, i), j)
  {
    match calls[i]
    case Create(_) => CreateKeepsOtherThread(calls, s, i, j);
    case Drop(_) => DropKeepsOtherThread(calls, s, i, j);
    case Lookup(_) =>
  }

  /** The entry a drop is about to unbind is in no other call's hands. */
  lemma UnboundHasOneOwner(calls: seq<Call>, s: State, k: string, w: nat, j: nat)
    requires |s.pcs| == |calls| && j < |calls| && OneKeyPerOid(calls) && ThreadOk(calls, s, j)
    requires k in s.byName && k !in s.slots && NameOk(s, k) && InstalledBy(calls, s, w, s.byName[k])
    ensures FreeOf(calls, s, j, s.byName[k].oid)
  {
  }

  lemma CreateKeepsPair(calls: seq<Call>, s: State, i: nat, j1: nat, j2: nat)
    requires |s.pcs| == |calls| && i < |calls| && j1 < |calls| && j2 < |calls|
    requires ThreadOk(calls, s, i) && ThreadOk(calls, s, j1) && ThreadOk(calls, s, j2)
    requires PairOk(calls, s, j1, j2)
    requires Unbinds(s, i) ==> FreeOf(calls, s, j1, s.byName[s.pcs[i].key].oid)
    requires Unbinds(s, i) ==> FreeOf(calls, s, j2, s.byName[s.pcs[i].key].oid)
    requires calls[i].Create?
    ensures PairOk(calls, CreateStep(s, i, calls[i].entry), j1, j2)
  {
  }

  lemma DropKeepsPair(calls: seq<Call>, s: State, i: nat, j1: nat, j2: nat)
    requires |s.pcs| == |calls| && i < |calls| && j1 < |calls| && j2 < |calls|
    requires ThreadOk(calls, s, i) && ThreadOk(calls, s, j1) && ThreadOk(calls, s, j2)
    requires PairOk(calls, s, j1, j2)
    requires Unbinds(s, i) ==> FreeOf(calls, s, j1, s.byName[s.pcs[i].key].oid)
    requires Unbinds(s, i) ==> FreeOf(calls, s, j2, s.byName[s.pcs[i].key].oid)
    requires calls[i].Drop?
    ensures PairOk(calls, DropStep(s, i, calls[i].name), j1, j2)
  {
  }

  lemma StepKeepsPair(calls: seq<Call>, s: State, i: nat, j1: nat, j2: nat)
    requires |s.pcs| == |calls| && i < |calls| && j1 < |calls| && j2 < |calls|
    requires ThreadOk(calls, s, i) && ThreadOk(calls, s, j1) && ThreadOk(calls, s, j2)
    requires PairOk(calls, s, j1, j2)
    requires Unbinds(s, i) ==> FreeOf(calls, s, j1, s.byName[s.pcs[i].key].oid)
    requires Unbinds(s, i) ==> FreeOf(calls, s, j2, s.byName[s.pcs[i].key].oid)
    ensures PairOk(calls, Step(calls, s, i), j1, j2)
  {
    match calls[i]
    case Create(_) => CreateKeepsPair(calls, s, i, j1, j2);
    case Drop(_) => DropKeepsPair(calls, s, i, j1, j2);
    case Lookup(_) =>
  }

  /** Thread `i` is a drop whose next step unbinds a name. */
  predicate Unbinds(s: State, i: nat)
    requires i < |s.pcs|
  {
    s.pcs[i].Remove? && s.pcs[i].key in s.byName && s.pcs[i].key !in s.slots
  }

  /** Thread `j` is neither publishing nor removing OID `o`. */
  predicate FreeOf(calls: seq<Call>, s: State, j: nat, o: Oid)
    requires |s.pcs| == |calls| && j < |calls|
  {
    && (calls[j].Create? && s.pcs[j] == Publish ==> calls[j].entry.oid != o)
    && (s.pcs[j].RemoveOid? ==> s.pcs[j].entry.oid != o)
  }

  lemma StepKeepsInv(calls: seq<Call>, s: State, i: nat)
    requires |s.pcs| == |calls| && OneKeyPerOid(calls) && Inv(calls, s)
    ensures Inv(calls, Step(calls, s, i))
  {
    if i < |calls| {
      var s' := Step(calls, s, i);
      assert ThreadOk(calls, s, i);
      forall k | k in s'.byName ensures NameOk(s', k) { StepKeepsName(calls, s, i, k); }
      StepKeepsSlots(calls, s, i);
      forall o | o in s'.byOid ensures OidOk(calls, s', o) { StepKeepsOid(calls, s, i, o); }
      forall o | o in s'.byOid ensures Installed(calls, s', s'.byOid[o]) { StepKeepsInstalled(calls, s, i, o); }
      forall j | 0 <= j < |calls| ensures ThreadOk(calls, s', j) {
        if j == i {
          StepKeepsOwnThread(calls, s, i);
        } else {
          StepKeepsOtherThread(calls, s, i, j);
        }
      }
      forall j1, j2 | 0 <= j1 < |calls| && 0 <= j2 < |calls| ensures PairOk(calls, s', j1, j2) {
        if Unbinds(s, i) {
          var k := s.pcs[i].key;
          assert NameOk(s, k);
          var w :| InstalledBy(calls, s, w, s.byName[k]);
          UnboundHasOneOwner(calls, s, k, w, j1);
          UnboundHasOneOwner(calls, s, k, w, j2);
        }
        StepKeepsPair(calls, s, i, j1, j2);
      }
    }
  }

  lemma {:induction false} ExecKeepsInv(calls: seq<Call>, s: State, schedule: seq<nat>)
    requires |s.pcs| == |calls| && OneKeyPerOid(calls) && Inv(calls, s)
    ensures Inv(calls, Exec(calls, s, schedule))
    decreases |schedule|
  {
    if schedule != [] {
      StepKeepsInv(calls, s, schedule[0]);
      ExecKeepsInv(calls, Step(calls, s, schedule[0]), schedule[1..]);
    }
  }

  lemma RunKeepsInv(calls: seq<Call>, schedule: seq<nat>)
    requires OneKeyPerOid(calls)
    ensures Inv(calls, Run(calls, schedule))
  {
    ExecKeepsInv(calls, Init(|calls|), schedule);
  }

  /** The interleaving that defeats two creates of different names under one OID. */
  function RacingSchedule(i: nat, j: nat): seq<nat> {
    [i, i, i, i, j, j, j, j, i, j, i]
  }

  /** Four steps take a create whose name, slot and OID are free to the point of inserting the OID. */
  lemma CreateReachesInsert(calls: seq<Call>, s: State, i: nat, rest: seq<nat>)
    requires |s.pcs| == |calls| && i < |calls| && s.pcs[i] == Start
    requires calls[i].Create? && calls[i].entry.oid != INVALID && calls[i].entry.oid !in s.byOid
    requires TableKey(calls[i].entry) !in s.slots && TableKey(calls[i].entry) !in s.byName
    ensures Exec(calls, s, [i, i, i, i] + rest)
         == Exec(calls, Goto(s, i, InsertOid).(slots := s.slots[TableKey(calls[i].entry) := i]), rest)
  {
    var e := calls[i].entry;
    var s1 := Goto(s, i, CheckOid);
    var s2 := Goto(s1, i, TakeSlot);
    var s3 := Goto(s2, i, RecheckOid).(slots := s.slots[TableKey(e) := i]);
    var s4 := Goto(s3, i, InsertOid);
    assert s4 == Goto(s, i, InsertOid).(slots := s.slots[TableKey(e) := i]);
    assert [i, i, i, i] + rest == [i] + ([i] + ([i] + ([i] + rest)));
    ExecOne(calls, s, i, [i] + ([i] + ([i] + rest)));
    ExecOne(calls, s1, i, [i] + ([i] + rest));
    ExecOne(calls, s2, i, [i] + rest);
    ExecOne(calls, s3, i, rest);
  }

  lemma ExecOne(calls: seq<Call>, s: State, i: nat, rest: seq<nat>)
    requires |s.pcs| == |calls|
    ensures Exec(calls, s, [i] + rest) == Exec(calls, Step(calls, s, i), rest)
  {
    assert ([i] + rest)[1..] == rest;
  }

  /** Two creates of different names under one OID can both succeed and leave a name without its entry. */
  lemma RacingCreatesBreakCatalog(calls: seq<Call>, i: nat, j: nat)
    requires i < |calls| && j < |calls| && calls[i].Create? && calls[j].Create?
    requires calls[i].entry.oid == calls[j].entry.oid != INVALID
    requires TableKey(calls[i].entry) != TableKey(calls[j].entry)
    ensures !Consistent(calls, Run(calls, RacingSchedule(i, j)))
  {
    var s, ei, ej := Init(|calls|), calls[i].entry, calls[j].entry;
    var ki, kj := TableKey(ei), TableKey(ej);
    assert RacingSchedule(i, j) == [i, i, i, i] + ([j, j, j, j] + ([i] + ([j] + ([i] + []))));
    CreateReachesInsert(calls, s, i, [j, j, j, j] + ([i] + ([j] + ([i] + []))));
    var s1 := Goto(s, i, InsertOid).(slots := map[ki := i]);
    CreateReachesInsert(calls, s1, j, [i] + ([j] + ([i] + [])));
    var s2 := Goto(s1, j, InsertOid).(slots := map[ki := i][kj := j]);
    OverwrittenOid(calls, s2, i, j);
  }

  lemma OverwrittenOid(calls: seq<Call>, s: State, i: nat, j: nat)
    requires |s.pcs| == |calls| && i < |calls| && j < |calls| && i != j
    requires calls[i].Create? && calls[j].Create? && s.pcs[i] == s.pcs[j] == InsertOid
    requires calls[i].entry.oid == calls[j].entry.oid && calls[i].entry != calls[j].entry
    ensures !Consistent(calls, Exec(calls, s, [i] + ([j] + ([i] + []))))
  {
    var s1 := Step(calls, s, i);
    var s2 := Step(calls, s1, j);
    var s3 := Step(calls, s2, i);
    ExecOne(calls, s, i, [j] + ([i] + []));
    ExecOne(calls, s1, j, [i] + []);
    ExecOne(calls, s2, i, []);
    assert s3.byName[TableKey(calls[i].entry)] == calls[i].entry;
    assert !NameOk(s3, TableKey(calls[i].entry));
  }

  /**
   Every interleaving of the calls keeps the two table maps consistent exactly when creates that
   share an OID share a key; in particular when each create takes its own OID from `next_oid`.
   */
  lemma AllRunsConsistentIff(calls: seq<Call>)
    ensures (forall schedule :: Consistent(calls, Run(calls, schedule))) <==> OneKeyPerOid(calls)
  {
    if OneKeyPerOid(calls) {
      forall schedule ensures Consistent(calls, Run(calls, schedule)) {
        RunKeepsInv(calls, schedule);
      }
    } else {
      var i, j :| 0 <= i < |calls| && 0 <= j < |calls| && calls[i].Create? && calls[j].Create?
                  && calls[i].entry.oid == calls[j].entry.oid != INVALID
                  && TableKey(calls[i].entry) != TableKey(calls[j].entry);
      RacingCreatesBreakCatalog(calls, i, j);
    }
  }

  predicate Quiescent(s: State) {
    forall i :: 0 <= i < |s.pcs| ==> s.pcs[i].Done?
  }

  lemma SlotHolderUnfinished(calls: seq<Call>, s: State, k: string)
    requires |s.pcs| == |calls| && k in s.slots && SlotOk(calls, s, k)
    ensures !Quiescent(s)
  {
    assert !s.pcs[s.slots[k]].Done?;
  }

  lemma NoSlotsAtRest(calls: seq<Call>, s: State)
    requires |s.pcs| == |calls| && SlotsInv(calls, s) && Quiescent(s)
    ensures s.slots == map[]
  {
    if s.slots != map[] {
      var k :| k in s.slots;
      SlotHolderUnfinished(calls, s, k);
      assert false;
    }
  }

  /** Once every call has returned, the two maps hold the same entries and no slot is locked. */
  lemma QuiescentMapsAgree(calls: seq<Call>, schedule: seq<nat>)
    requires OneKeyPerOid(calls) && Quiescent(Run(calls, schedule))
    ensures var s := Run(calls, schedule);
            && s.slots == map[]
            && forall e :: Bound(s, e) <==> e.oid in s.byOid && s.byOid[e.oid] == e
  {
    var s := Run(calls, schedule);
    RunKeepsInv(calls, schedule);
    NoSlotsAtRest(calls, s);
    forall e: TableEntry | e.oid in s.byOid && s.byOid[e.oid] == e ensures Bound(s, e) {
      assert OidOk(calls, s, e.oid);
    }
    forall e: TableEntry | Bound(s, e) ensures e.oid in s.byOid && s.byOid[e.oid] == e {
      assert NameOk(s, TableKey(e));
    }
  }
}

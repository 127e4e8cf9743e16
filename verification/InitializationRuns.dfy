/** Initialisation over whole histories: the status after it, over-assignment and superfluous requests. */
module InitializationRuns {
  import opened Wrappers
  import opened Tags
  import opened Ec2
  import opened DriverSpec
  import opened Effects
  import opened Histories
  import opened Marks
  import opened Launches
  import opened Deletion
  import opened SourceDestChecks
  import opened Prefixes
  import opened Initialization
  import ProviderId

  // --- One call -----------------------------------------------------------------------------------------------

  /** The instance an InitializeMachine call turns to, if it gets that far. */
  ghost function Target(w: World, m: Machine, cls: MachineClass, orders: Orders): Option<Instance> {
    if Decoded(cls).Ok? && ClientAvailable(w) && MatchMachine(w.Skip(1), m, Selected(orders.scan)).result.Ok?
    then Some(MatchMachine(w.Skip(1), m, Selected(orders.scan)).result.value[0])
    else None
  }

  /** The world after the calls for the client and the lookup. */
  function AfterLookup(w: World, m: Machine, orders: Orders): World {
    MatchMachine(w.Skip(1), m, Selected(orders.scan)).w
  }

  lemma AcceptingAfterLookup(w: World, m: Machine, orders: Orders)
    requires Accepting(w)
    ensures Accepting(AfterLookup(w, m, orders))
  {
    var s := Selected(orders.scan);
    SkipStaysAccepting(w);
    AcceptedLookup(w.Skip(1), MachineFilters(m.name, s));
    MatchUsesOneMore(w.Skip(1), m, s);
    SkipStaysAccepting(FetchAll(w.Skip(1), MachineFilters(m.name, s)).w);
  }

  lemma SkipStaysAccepting(w: World)
    requires Accepting(w)
    ensures Accepting(w.Skip(1))
  {
  }

  /** After the pages of the lookup by tags, the one by provider id uses at most one more call. */
  lemma MatchUsesOneMore(w: World, m: Machine, s: Selection)
    ensures var byTags := FetchAll(w, MachineFilters(m.name, s)).w;
            MatchMachine(w, m, s).w == byTags || MatchMachine(w, m, s).w == byTags.Skip(1)
  {
  }

  /** A call without a target fails and only reads; otherwise it initialises the instance as described. */
  lemma {:induction false} InitializeShape(w: World, m: Machine, cls: MachineClass, orders: Orders) returns (w1: World)
    ensures w1 == AfterLookup(w, m, orders) && OnlyRead(w, w1)
    ensures Target(w, m, cls, orders).None? ==>
              InitializeMachine(w, m, cls, orders).result.Err? && OnlyRead(w, InitializeMachine(w, m, cls, orders).w)
    ensures Target(w, m, cls, orders).Some? ==>
              && Decoded(cls).Ok? && Shows(w1, Target(w, m, cls, orders).value)
              && InitializeMachine(w, m, cls, orders)
                   == InitializeInstance(w1, cls.spec.value, Target(w, m, cls, orders).value)
  {
    MatchMachineReads(w.Skip(1), m, Selected(orders.scan));
    w1 := MatchMachine(w.Skip(1), m, Selected(orders.scan)).w;
  }

  /** The lookups before and after a change that leaves states and tags alone find the same instances. */
  lemma MatchSame(w: World, w': World, m: Machine, cls: MachineClass, o: Orders, o': Orders)
    requires Settled(w, w') && OrdersAgree(w.vms, cls, m.name, o, o')
    requires MatchMachine(w, m, Selected(o.scan)).result.Ok? && MatchMachine(w', m, Selected(o'.scan)).result.Ok?
    ensures |MatchMachine(w', m, Selected(o'.scan)).result.value| == |MatchMachine(w, m, Selected(o.scan)).result.value|
    ensures MatchMachine(w', m, Selected(o'.scan)).result.value[0].id
              == MatchMachine(w, m, Selected(o.scan)).result.value[0].id
  {
    var f, f' := MachineFilters(m.name, Selected(o.scan)), MachineFilters(m.name, Selected(o'.scan));
    forall id | id in w.issued ensures id in w.vms && Passes(w.vms[id], f) <==> id in w'.vms && Passes(w'.vms[id], f') {
      if id in w.vms {
        AgreeOnPassing(w.vms, cls, m.name, o, o', id);
        PassesBySettled(w.vms[id], w'.vms[id], f');
      }
    }
    SelectAgrees(w.vms, w'.vms, w.issued, f, f');
    assert |Found(w', f')| == |Found(w, f)|;
  }

  lemma PassesBySettled(vm: Vm, vm': Vm, filters: seq<Filter>)
    requires vm'.tags == vm.tags && vm'.state == vm.state
    ensures Passes(vm, filters) <==> Passes(vm', filters)
  {
    forall i | 0 <= i < |filters| ensures Satisfies(vm, filters[i]) <==> Satisfies(vm', filters[i]) {
    }
  }

  /** What stands between a successful initialisation and a status without error. */
  predicate FlagContradictsInterfaces(spec: ProviderSpec, t: Instance) {
    spec.srcAndDstChecksEnabled == Some(false) && t.sourceDestCheck == Some(false) && CheckLeftOn(t.nics)
  }

  /**
   * A successful InitializeMachine is followed by a GetMachineStatus that reports the same provider id
   * and node name, for one matching instance and a successful lookup. The status is without error
   * exactly when the instance's own flag did not contradict its interfaces before the initialisation,
   * and Uninitialized otherwise.
   */
  lemma {:induction false} StatusAfterInitialize(w: World, m: Machine, cls: MachineClass, orders: Orders, later: Orders)
    requires Valid(w) && cls.provider == PROVIDER_AWS && OrdersAgree(w.vms, cls, m.name, orders, later)
    requires InitializeMachine(w, m, cls, orders).result.Ok?
    requires var w' := InitializeMachine(w, m, cls, orders).w;
             && ClientAvailable(w') && MatchMachine(w'.Skip(1), m, Selected(later.scan)).result.Ok?
             && |MatchMachine(w'.Skip(1), m, Selected(later.scan)).result.value| == 1
    ensures var init, t := InitializeMachine(w, m, cls, orders), Target(w, m, cls, orders);
            var status := GetMachineStatus(init.w, m, cls, later);
            && t.Some?
            && status.response == Some(init.result.value)
            && status.error
                 == (if FlagContradictsInterfaces(cls.spec.value, t.value) then Some(Uninitialized) else None)
  {
    var w1 := InitializeShape(w, m, cls, orders);
    var spec, t := cls.spec.value, Target(w, m, cls, orders).value;
    var w' := InitializeMachine(w, m, cls, orders).w;
    ReadyIff(w1, spec, t);
    InitializeInstanceSettles(w1, spec, t);
    assert Settled(w.Skip(1), w'.Skip(1));
    MatchSame(w.Skip(1), w'.Skip(1), m, cls, orders, later);
    MatchMachineReads(w'.Skip(1), m, Selected(later.scan));
    var t' := MatchMachine(w'.Skip(1), m, Selected(later.scan)).result.value[0];
    assert t' == Now(w', t.id);
  }

  // --- Prefixes over histories ----------------------------------------------------------------------------------

  /** The interface belongs to the instance the call turns to. */
  ghost predicate TargetOwns(w: World, m: Machine, cls: MachineClass, orders: Orders, n: string) {
    var t := Target(w, m, cls, orders);
    t.Some? && t.value.id in w.vms && n in w.vms[t.value.id].nicIDs
  }

  /** If the call initialises the instance that owns the interface, it goes by these interface specs. */
  ghost predicate OwnerGoesBy(w: World, op: Op, specs: seq<NicSpec>, n: string) {
    op.Initialize? && TargetOwns(w, op.m, op.cls, op.orders, n) ==> op.cls.spec.value.networkInterfaces == specs
  }

  /** So does every initialisation of that instance in the history; other machines may go by any specs. */
  ghost predicate OwnerAlwaysGoesBy(w: World, ops: seq<Op>, specs: seq<NicSpec>, n: string)
    requires forall i :: 0 <= i < |ops| ==> Legal(ops[i])
  {
    ops == [] ||
    var front, op := ops[..|ops| - 1], ops[|ops| - 1];
    OwnerAlwaysGoesBy(w, front, specs, n) && OwnerGoesBy(Run(w, front), op, specs, n)
  }

  /** Prefix counts do not fall, whatever the call and its outcome. */
  ghost predicate PrefixesRise(w: World, w': World) {
    forall n :: n in w.nics ==> n in w'.nics && w.nics[n].prefixes <= w'.nics[n].prefixes
  }

  lemma {:induction false} StepPrefixesRise(w: World, op: Op)
    requires Legal(op)
    ensures PrefixesRise(w, Step(w, op))
  {
    match op
    case Create(m, cls, orders, retries) =>
      CreateEffect(w, m, cls, orders, retries);
      if !NothingLaunched(w, Step(w, op)) {
        FreshNics(w, w.births[0], LaunchNics(cls.spec.value.networkInterfaces));
      }
    case Initialize(m, cls, orders) => InitializeSettles(w, m, cls, orders);
    case Status(m, cls, orders) => StatusReads(w, m, cls, orders);
    case Delete(m, cls, orders) => DeleteEffect(w, m, cls, orders);
    case List(cls, orders) => ListReads(w, cls, orders);
    case _ =>
  }

  lemma {:induction false} RunPrefixesRise(w: World, ops: seq<Op>)
    requires forall i :: 0 <= i < |ops| ==> Legal(ops[i])
    ensures PrefixesRise(w, Run(w, ops))
  {
    if ops != [] {
      RunPrefixesRise(w, ops[..|ops| - 1]);
      StepPrefixesRise(Run(w, ops[..|ops| - 1]), ops[|ops| - 1]);
    }
  }

  /** If the interface exists, it is not beyond what the spec wants of it. */
  ghost predicate WithinAt(w: World, specs: seq<NicSpec>, n: string) {
    n in w.nics ==> WithinCount(specs, w.nics[n])
  }

  lemma NotAmongViews(w: World, t: Instance, n: string)
    requires Shows(w, t) && n !in w.vms[t.id].nicIDs
    ensures forall i :: 0 <= i < |t.nics| ==> t.nics[i].id != n
  {
    forall i | 0 <= i < |t.nics| ensures t.nics[i].id != n {
      assert w.vms[t.id].nicIDs[i] in w.vms[t.id].nicIDs;
    }
  }

  lemma InitializeInstanceKeepsWithin(w: World, spec: ProviderSpec, t: Instance, specs: seq<NicSpec>, n: string)
    requires Valid(w) && Shows(w, t) && n in w.nics && WithinCount(specs, w.nics[n])
    requires n in w.vms[t.id].nicIDs ==> spec.networkInterfaces == specs
    ensures WithinAt(InitializeInstance(w, spec, t).w, specs, n)
  {
    var disabled := if ChecksToDisable(spec, t) then DisableSrcAndDestCheck(w, t.id) else Attempt(w, true);
    ShownIsUpToDate(w, t);
    DisableSamePrefixes(w, t.id);
    StaysUpToDate(w, disabled.w, t.nics);
    if n in w.vms[t.id].nicIDs {
      AssignAllKeepsWithin(disabled.w, specs, t.nics, n);
    } else {
      NotAmongViews(w, t, n);
      AssignAllSpares(disabled.w, spec.networkInterfaces, t.nics, n);
    }
  }

  lemma LaunchKeepsWithin(w: World, w': World, name: string, spec: ProviderSpec, order: seq<string>,
                          specs: seq<NicSpec>, n: string)
    requires WithinAt(w, specs, n) && (forall k :: k in order ==> k in spec.tags)
               && LaunchedFor(w, w', name, spec, order)
    ensures WithinAt(w', specs, n)
  {
    var b, nics := w.births[0], LaunchNics(spec.networkInterfaces);
    FreshNics(w, b, nics);
    if n in NewNics(b.nics, nics) {
      assert n in BirthNicIDs(b);
      var i :| 0 <= i < |b.nics| && b.nics[i].id == n;
    }
  }

  lemma {:induction false} StepKeepsWithin(w: World, op: Op, specs: seq<NicSpec>, n: string)
    requires Legal(op) && OwnerGoesBy(w, op, specs, n) && Valid(w) && WithinAt(w, specs, n)
    ensures WithinAt(Step(w, op), specs, n)
  {
    match op
    case Create(m, cls, orders, retries) =>
      CreateEffect(w, m, cls, orders, retries);
      if !NothingLaunched(w, Step(w, op)) {
        LaunchKeepsWithin(w, Step(w, op), m.name, cls.spec.value, orders.instance, specs, n);
      }
    case Initialize(m, cls, orders) =>
      var w1 := InitializeShape(w, m, cls, orders);
      InitializeSettles(w, m, cls, orders);
      if Target(w, m, cls, orders).Some? && n in w.nics {
        InitializeInstanceKeepsWithin(w1, cls.spec.value, Target(w, m, cls, orders).value, specs, n);
      }
    case Status(m, cls, orders) => StatusReads(w, m, cls, orders);
    case Delete(m, cls, orders) => DeleteEffect(w, m, cls, orders);
    case List(cls, orders) => ListReads(w, cls, orders);
    case _ =>
  }

  /**
   * An interface that starts within its count never exceeds it, across any number of initialisations
   * that fail at any call, with or without effect, and whatever happens to other machines of other
   * classes. An interface launched in the history starts with none.
   */
  lemma {:induction false} NeverOverAssigned(w: World, ops: seq<Op>, specs: seq<NicSpec>, n: string)
    requires Valid(w) && WithinAt(w, specs, n) && (forall i :: 0 <= i < |ops| ==> Legal(ops[i]))
    requires OwnerAlwaysGoesBy(w, ops, specs, n)
    ensures WithinAt(Run(w, ops), specs, n)
  {
    if ops != [] {
      var front := ops[..|ops| - 1];
      NeverOverAssigned(w, front, specs, n);
      RunStaysConsistent(w, front);
      StepKeepsWithin(Run(w, front), ops[|ops| - 1], specs, n);
    }
  }

  // --- No request after success -----------------------------------------------------------------------------------

  /** The log grows, without a request for prefixes. */
  ghost predicate NoRequests(w: World, w': World) {
    && w.log <= w'.log
    && forall k :: |w.log| <= k < |w'.log| ==> !w'.log[k].AssignPrefixesCall?
  }

  lemma {:induction false} DisableCallsRequestNothing(ids: seq<string>)
    ensures forall k :: 0 <= k < |DisableCalls(ids)| ==> !DisableCalls(ids)[k].AssignPrefixesCall?
  {
    if ids != [] {
      DisableCallsRequestNothing(ids[1..]);
    }
  }

  lemma DisableRequestsNothing(w: World, instanceID: string)
    ensures NoRequests(w, DisableSrcAndDestCheck(w, instanceID).w)
  {
    var d := DescribeByID(w, instanceID);
    assert OnlyRead(w, d.w);
    if d.result.Success? && d.result.value != [] {
      EveryCheckIsAttempted(d.w, d.result.value[0].nics);
      DisableCallsRequestNothing(Attempts(d.result.value[0].nics));
    }
  }

  lemma {:induction false} TerminateAllRequestsNothing(w: World, ids: seq<string>)
    ensures NoRequests(w, TerminateAll(w, ids).w)
    decreases |ids|
  {
    if ids != [] {
      var r := TerminateInstance(w, ids[0]);
      TerminateRequestsNothing(w, ids[0]);
      if r.ok {
        TerminateAllRequestsNothing(r.w, ids[1..]);
      }
    }
  }

  lemma TerminateRequestsNothing(w: World, id: string)
    ensures NoRequests(w, TerminateInstance(w, id).w)
  {
  }

  lemma DeleteRequestsNothing(w: World, m: Machine, cls: MachineClass, orders: Orders)
    ensures NoRequests(w, DeleteMachine(w, m, cls, orders).w)
  {
    if m.providerID == "" {
      var found := FetchAll(w.Skip(1), FiltersOf(m, orders));
      FetchAllReads(w.Skip(1), FiltersOf(m, orders));
      if found.result.Ok? {
        TerminateAllRequestsNothing(found.w, IDs(found.result.value));
      }
    } else {
      var decoded := ProviderId.Decode(m.providerID);
      if decoded.Ok? {
        TerminateRequestsNothing(w.Skip(1), decoded.value.1);
      }
    }
  }

  lemma CreateRequestsNothing(w: World, m: Machine, cls: MachineClass, orders: Orders, retries: nat)
    requires OrdersOf(orders, cls)
    ensures NoRequests(w, CreateMachine(w, m, cls, orders, retries).w)
  {
    var _ := CreateSendsOneRequest(w, m, cls, orders, retries);
  }

  lemma InitializeInstanceSparesTheMet(w: World, spec: ProviderSpec, t: Instance, specs: seq<NicSpec>, n: string)
    requires Valid(w) && Shows(w, t) && Met(w, specs, n)
    requires n in w.vms[t.id].nicIDs ==> spec.networkInterfaces == specs
    ensures NoRequestFor(w, InitializeInstance(w, spec, t).w, n)
    ensures Met(InitializeInstance(w, spec, t).w, specs, n)
  {
    var disabled := if ChecksToDisable(spec, t) then DisableSrcAndDestCheck(w, t.id) else Attempt(w, true);
    DisableSamePrefixes(w, t.id);
    DisableRequestsNothing(w, t.id);
    assert Met(disabled.w, specs, n);
    AssignSparesTheMet(w, disabled.w, spec.networkInterfaces, t, specs, n);
    NoRequestTransitive(w, disabled.w, AssignAll(disabled.w, spec.networkInterfaces, t.nics).w, n);
  }

  lemma AssignSparesTheMet(w: World, w1: World, wanted: seq<NicSpec>, t: Instance, specs: seq<NicSpec>, n: string)
    requires Valid(w) && Shows(w, t) && SamePrefixes(w, w1) && Met(w1, specs, n)
    requires n in w.vms[t.id].nicIDs ==> wanted == specs
    ensures NoRequestFor(w1, AssignAll(w1, wanted, t.nics).w, n)
    ensures Met(AssignAll(w1, wanted, t.nics).w, specs, n)
  {
    ShownIsUpToDate(w, t);
    StaysUpToDate(w, w1, t.nics);
    if n in w.vms[t.id].nicIDs {
      NothingForTheMet(w1, specs, t.nics, n);
    } else {
      NotAmongViews(w, t, n);
      AssignAllSpares(w1, wanted, t.nics, n);
      NothingForOthers(w1, wanted, t.nics, n);
    }
  }

  lemma {:induction false} StepSparesTheMet(w: World, op: Op, specs: seq<NicSpec>, n: string)
    requires Legal(op) && OwnerGoesBy(w, op, specs, n) && Valid(w) && Met(w, specs, n)
    ensures NoRequestFor(w, Step(w, op), n) && Met(Step(w, op), specs, n)
  {
    match op
    case Create(m, cls, orders, retries) =>
      CreateEffect(w, m, cls, orders, retries);
      CreateRequestsNothing(w, m, cls, orders, retries);
      if !NothingLaunched(w, Step(w, op)) {
        FreshNics(w, w.births[0], LaunchNics(cls.spec.value.networkInterfaces));
      }
    case Initialize(m, cls, orders) =>
      var w1 := InitializeShape(w, m, cls, orders);
      if Target(w, m, cls, orders).Some? {
        InitializeInstanceSparesTheMet(w1, cls.spec.value, Target(w, m, cls, orders).value, specs, n);
      }
    case Status(m, cls, orders) => StatusReads(w, m, cls, orders);
    case Delete(m, cls, orders) => DeleteEffect(w, m, cls, orders); DeleteRequestsNothing(w, m, cls, orders);
    case List(cls, orders) => ListReads(w, cls, orders);
    case _ =>
  }

  /** For an interface that lacks nothing, no history requests anything, as long as its owner goes by the same specs. */
  lemma {:induction false} RunSparesTheMet(w: World, ops: seq<Op>, specs: seq<NicSpec>, n: string)
    requires Valid(w) && Met(w, specs, n) && (forall i :: 0 <= i < |ops| ==> Legal(ops[i]))
    requires OwnerAlwaysGoesBy(w, ops, specs, n)
    ensures NoRequestFor(w, Run(w, ops), n) && Met(Run(w, ops), specs, n)
  {
    if ops != [] {
      var front := ops[..|ops| - 1];
      RunSparesTheMet(w, front, specs, n);
      RunStaysConsistent(w, front);
      StepSparesTheMet(Run(w, front), ops[|ops| - 1], specs, n);
      NoRequestTransitive(w, Run(w, front), Run(w, ops), n);
    }
  }

  lemma SuccessMeets(w: World, m: Machine, cls: MachineClass, orders: Orders, n: string)
    requires Valid(w) && InitializeMachine(w, m, cls, orders).result.Ok?
    requires TargetOwns(w, m, cls, orders, n)
    ensures var w' := InitializeMachine(w, m, cls, orders).w;
            Valid(w') && Met(w', cls.spec.value.networkInterfaces, n)
  {
    var w1 := InitializeShape(w, m, cls, orders);
    InitializedPrefixes(w1, cls.spec.value, Target(w, m, cls, orders).value);
    InitializeSettles(w, m, cls, orders);
    KeptStaysValid(w, InitializeMachine(w, m, cls, orders).w);
  }

  /**
   * Once an initialisation succeeds, no later call of the history requests prefixes for the instance's
   * interfaces, as long as the instance's own initialisations go by the same interface specs.
   */
  lemma {:induction false} NoRequestAfterSuccess(w: World, m: Machine, cls: MachineClass, orders: Orders, ops: seq<Op>,
                                                 n: string)
    requires Valid(w) && InitializeMachine(w, m, cls, orders).result.Ok?
    requires TargetOwns(w, m, cls, orders, n) && (forall i :: 0 <= i < |ops| ==> Legal(ops[i]))
    requires OwnerAlwaysGoesBy(InitializeMachine(w, m, cls, orders).w, ops, cls.spec.value.networkInterfaces, n)
    ensures var w' := InitializeMachine(w, m, cls, orders).w; NoRequestFor(w', Run(w', ops), n)
  {
    var w' := InitializeMachine(w, m, cls, orders).w;
    SuccessMeets(w, m, cls, orders, n);
    RunSparesTheMet(w', ops, cls.spec.value.networkInterfaces, n);
  }
}

/** Multiplicity: how many instances back a machine name, over whole histories. */
module Multiplicity {
  import opened Wrappers
  import opened Tags
  import opened Paging
  import opened Ec2
  import opened DriverSpec
  import opened Effects
  import opened Histories
  import opened Marks
  import opened Deletion
  import opened Launches
  import ProviderId
  import Samples

  /** The ids of the instances launched under the name, in launch order. */
  ghost function LaunchLog(w: World, ops: seq<Op>, name: string): seq<string>
    requires forall i :: 0 <= i < |ops| ==> Legal(ops[i])
  {
    if ops == [] then []
    else
      var front, op := ops[..|ops| - 1], ops[|ops| - 1];
      var before, after := Run(w, front).issued, Run(w, ops).issued;
      if op.Create? && op.m.name == name && |after| > |before|
      then LaunchLog(w, front, name) + [after[|after| - 1]]
      else LaunchLog(w, front, name)
  }

  /** Only machines of this class are created under the name. */
  ghost predicate OneClassCreates(ops: seq<Op>, cls: MachineClass, name: string) {
    forall i :: 0 <= i < |ops| && ops[i].Create? && ops[i].m.name == name ==> ops[i].cls == cls
  }

  /** Those of the ids that EC2 knows in a listed state. */
  function StillListed(vms: map<string, Vm>, ids: seq<string>): seq<string> {
    Select(vms, ids, [StateName(LISTED_STATES)])
  }

  lemma PassesIffState(vm: Vm)
    ensures Passes(vm, [StateName(LISTED_STATES)]) <==> vm.state in LISTED_STATES
  {
    assert [StateName(LISTED_STATES)][0] == StateName(LISTED_STATES);
  }

  // --- Logs are part of what was issued -------------------------------------------------------------------------

  /** The log lists some of the issued ids, in the order they were issued. */
  ghost predicate IsSublog(log: seq<string>, issued: seq<string>) {
    if issued == [] then log == []
    else
      var n, k := |issued| - 1, |log| - 1;
      IsSublog(log, issued[..n]) || (log != [] && log[k] == issued[n] && IsSublog(log[..k], issued[..n]))
  }

  lemma {:induction false} SublogMembers(log: seq<string>, issued: seq<string>)
    requires IsSublog(log, issued)
    ensures forall id :: id in log ==> id in issued
  {
    if issued != [] {
      var n, k := |issued| - 1, |log| - 1;
      if IsSublog(log, issued[..n]) {
        SublogMembers(log, issued[..n]);
      } else {
        SublogMembers(log[..k], issued[..n]);
        assert log == log[..k] + [log[k]];
      }
    }
  }

  /** Selecting the logged among the issued ids is selecting from the log. */
  lemma {:induction false} SelectSublog(vms: map<string, Vm>, issued: seq<string>, log: seq<string>, f1: seq<Filter>,
                                        f2: seq<Filter>)
    requires NoDuplicates(issued) && IsSublog(log, issued)
    requires forall id :: id in issued && id in vms ==> (Passes(vms[id], f1) <==> id in log && Passes(vms[id], f2))
    ensures Select(vms, issued, f1) == Select(vms, log, f2)
  {
    if issued != [] {
      var n, k := |issued| - 1, |log| - 1;
      var front, last := issued[..n], issued[n];
      assert last !in front && issued == front + [last];
      if IsSublog(log, front) {
        SublogMembers(log, front);
        SelectSublog(vms, front, log, f1, f2);
      } else {
        SublogMembers(log[..k], front);
        assert log == log[..k] + [last];
        SelectSublog(vms, front, log[..k], f1, f2);
      }
    }
  }

  // --- The log backs the machine --------------------------------------------------------------------------------

  /** The named instances are those on the log, each launched for the machine. */
  ghost predicate LogNames(vms: map<string, Vm>, cls: MachineClass, name: string, log: seq<string>) {
    (forall id :: id in vms ==> (Named(vms[id], name) <==> id in log)) && NameIsOwn(vms, cls, name)
  }

  /** In a valid world, a log that is part of what was issued does so. */
  ghost predicate Backed(w: World, cls: MachineClass, name: string, log: seq<string>) {
    && Valid(w)
    && IsSublog(log, w.issued)
    && LogNames(w.vms, cls, name, log)
  }

  lemma KeptMarksStayBacked(w: World, w': World, cls: MachineClass, name: string, log: seq<string>)
    requires Backed(w, cls, name, log) && MarksKept(w, w') && Valid(w')
    ensures Backed(w', cls, name, log)
  {
    NameStaysOwn(w.vms, w'.vms, cls, name);
  }

  lemma LaunchStaysBacked(w: World, w': World, cls: MachineClass, l: Launcher, name: string, order: seq<string>,
                          log: seq<string>)
    requires Backed(w, cls, name, log) && Decoded(l.cls).Ok? && IsOrder(order, l.cls.spec.value.tags)
    requires LaunchedFor(w, w', l.name, l.cls.spec.value, order)
    requires l.name == name ==> l.cls == cls
    ensures Backed(w', cls, name, if l.name == name then log + [w.births[0].id] else log)
  {
    var id := w.births[0].id;
    LaunchStaysValid(w, w', l.name, l.cls.spec.value, order);
    assert BearsMarks(w'.vms[id], l);
    NamedIffLaunchedUnder(w'.vms[id], l, name);
    SublogMembers(log, w.issued);
    SublogAfterLaunch(log, w.issued, id);
    NamesAfterLaunch(w.vms, cls, name, log, id, w'.vms[id]);
  }

  lemma SublogAfterLaunch(log: seq<string>, issued: seq<string>, id: string)
    requires IsSublog(log, issued)
    ensures IsSublog(log, issued + [id]) && IsSublog(log + [id], issued + [id])
  {
    assert (issued + [id])[..|issued|] == issued && (log + [id])[..|log|] == log;
  }

  lemma NamesAfterLaunch(vms: map<string, Vm>, cls: MachineClass, name: string, log: seq<string>, id: string, vm: Vm)
    requires LogNames(vms, cls, name, log) && id !in log
    requires Named(vm, name) ==> BearsMarks(vm, Launcher(cls, name))
    ensures LogNames(vms[id := vm], cls, name, if Named(vm, name) then log + [id] else log)
  {
  }

  lemma {:induction false} CreateStaysBacked(w: World, op: Op, cls: MachineClass, name: string, log: seq<string>)
    requires Legal(op) && op.Create? && (op.m.name == name ==> op.cls == cls) && Backed(w, cls, name, log)
    ensures var w' := Step(w, op);
            || (w'.issued == w.issued && Backed(w', cls, name, log))
            || (w.births != [] && w'.issued == w.issued + [w.births[0].id]
                && Backed(w', cls, name, if op.m.name == name then log + [w.births[0].id] else log))
  {
    var w' := Step(w, op);
    CreateEffect(w, op.m, op.cls, op.orders, op.retries);
    if NothingLaunched(w, w') {
      KeptMarksStayBacked(w, w', cls, name, log);
    } else {
      LaunchStaysBacked(w, w', cls, Launcher(op.cls, op.m.name), name, op.orders.instance, log);
    }
  }

  lemma {:induction false} RunStaysBacked(w: World, ops: seq<Op>, cls: MachineClass, name: string)
    requires forall i :: 0 <= i < |ops| ==> Legal(ops[i])
    requires Valid(w) && OneClassCreates(ops, cls, name)
    requires forall id :: id in w.vms ==> !Named(w.vms[id], name)
    ensures Backed(Run(w, ops), cls, name, LaunchLog(w, ops, name))
  {
    if ops == [] {
      EmptySublog(w.issued);
    } else {
      var front, op := ops[..|ops| - 1], ops[|ops| - 1];
      RunStaysBacked(w, front, cls, name);
      var before, log := Run(w, front), LaunchLog(w, front, name);
      if op.Create? {
        CreateStaysBacked(before, op, cls, name, log);
      } else {
        StepKeepsMarks(before, op);
        StepStaysConsistent(before, map[], op);
        KeptMarksStayBacked(before, Step(before, op), cls, name, log);
      }
    }
  }

  lemma {:induction false} EmptySublog(issued: seq<string>)
    ensures IsSublog([], issued)
  {
    if issued != [] {
      EmptySublog(issued[..|issued| - 1]);
    }
  }

  lemma BackedIsMatching(w: World, cls: MachineClass, name: string, log: seq<string>, orders: Orders)
    requires Backed(w, cls, name, log) && OrdersOf(orders, cls)
    ensures Matching(w, MachineFilters(name, Selected(orders.scan))) == StillListed(w.vms, log)
  {
    var filters := MachineFilters(name, Selected(orders.scan));
    forall id | id in w.issued && id in w.vms
      ensures Passes(w.vms[id], filters) <==> id in log && Passes(w.vms[id], [StateName(LISTED_STATES)])
    {
      PassesIffListed(w.vms[id], cls, name, orders);
      PassesIffState(w.vms[id]);
    }
    SelectSublog(w.vms, w.issued, log, filters, [StateName(LISTED_STATES)]);
  }

  /**
   * In every history in which one class creates under the name, whatever else it contains, what matches
   * by tags is exactly the launches of the machine that are still in a listed state, in launch order,
   * whatever the launching calls answered and whatever the scan order.
   */
  lemma {:induction false} LookupFindsExactlyTheLaunched(w: World, ops: seq<Op>, cls: MachineClass, name: string,
                                                         orders: Orders)
    requires forall i :: 0 <= i < |ops| ==> Legal(ops[i])
    requires Valid(w) && OneClassCreates(ops, cls, name) && OrdersOf(orders, cls)
    requires forall id :: id in w.vms ==> !Named(w.vms[id], name)
    ensures Matching(Run(w, ops), MachineFilters(name, Selected(orders.scan)))
         == StillListed(Run(w, ops).vms, LaunchLog(w, ops, name))
  {
    RunStaysBacked(w, ops, cls, name);
    BackedIsMatching(Run(w, ops), cls, name, LaunchLog(w, ops, name), orders);
  }

  // --- Histories that leave a machine alone -----------------------------------------------------------------------

  /** Nobody deletes the instances that carry the name, and EC2 keeps them in listed states. */
  ghost predicate Peaceful(w: World, op: Op, name: string) {
    match op
    case Delete(m, _, _) =>
      && m.name != name
      && (m.providerID != "" ==>
            match ProviderId.Decode(m.providerID)
            case Err(_) => true
            case Ok((_, id)) => !(id in w.vms && Named(w.vms[id], name)))
    case Drift(id, state, _) => id in w.vms && Named(w.vms[id], name) ==> state in LISTED_STATES
    case Forget(id) => !(id in w.vms && Named(w.vms[id], name))
    case _ => true
  }

  ghost predicate Undisturbed(w: World, ops: seq<Op>, name: string)
    requires forall i :: 0 <= i < |ops| ==> Legal(ops[i])
  {
    ops == [] ||
    var front, op := ops[..|ops| - 1], ops[|ops| - 1];
    Undisturbed(w, front, name) && Peaceful(Run(w, front), op, name)
  }

  /** The listed instances with the name stay so. */
  ghost predicate LeftAlone(w: World, w': World, name: string) {
    forall id :: id in w.vms && Named(w.vms[id], name) && w.vms[id].state in LISTED_STATES ==>
      id in w'.vms && w'.vms[id].state in LISTED_STATES
  }

  lemma {:induction false} DeleteLeavesAlone(w: World, op: Op, name: string)
    requires Legal(op) && op.Delete? && Valid(w) && Peaceful(w, op, name)
    ensures LeftAlone(w, Step(w, op), name)
  {
    DeleteEffect(w, op.m, op.cls, op.orders);
    var targets := Targets(w, op.m, op.orders);
    forall id | id in w.vms && Named(w.vms[id], name) ensures id !in targets {
      if op.m.providerID == "" && id in targets {
        SelectMembers(w.vms, w.issued, MachineFilters(op.m.name, Selected(op.orders.scan)));
        PassingIsNamed(w.vms[id], op.m.name, Selected(op.orders.scan));
        OtherNameNotNamed(w.vms[id], op.m.name, name);
      }
    }
  }

  lemma {:induction false} StepLeavesAlone(w: World, op: Op, name: string)
    requires Legal(op) && Valid(w) && Peaceful(w, op, name)
    ensures LeftAlone(w, Step(w, op), name)
  {
    match op
    case Create(m, c, orders, retries) => CreateEffect(w, m, c, orders, retries);
    case Initialize(m, c, orders) => InitializeSettles(w, m, c, orders);
    case Status(m, c, orders) => StatusReads(w, m, c, orders);
    case Delete(_, _, _) => DeleteLeavesAlone(w, op, name);
    case List(c, orders) => ListReads(w, c, orders);
    case _ =>
  }

  /** In such a history every launch of the machine is still there in a listed state. */
  lemma {:induction false} UndisturbedLaunchesStay(w: World, ops: seq<Op>, cls: MachineClass, name: string)
    requires forall i :: 0 <= i < |ops| ==> Legal(ops[i])
    requires Valid(w) && OneClassCreates(ops, cls, name) && Undisturbed(w, ops, name)
    requires forall id :: id in w.vms ==> !Named(w.vms[id], name)
    ensures StillListed(Run(w, ops).vms, LaunchLog(w, ops, name)) == LaunchLog(w, ops, name)
  {
    LaunchesStay(w, ops, cls, name);
    AllListed(Run(w, ops).vms, LaunchLog(w, ops, name));
  }

  lemma {:induction false} AllListed(vms: map<string, Vm>, ids: seq<string>)
    requires forall id :: id in ids ==> id in vms && vms[id].state in LISTED_STATES
    ensures StillListed(vms, ids) == ids
  {
    if ids != [] {
      AllListed(vms, ids[..|ids| - 1]);
      PassesIffState(vms[ids[|ids| - 1]]);
    }
  }

  lemma {:induction false} LaunchesStay(w: World, ops: seq<Op>, cls: MachineClass, name: string)
    requires forall i :: 0 <= i < |ops| ==> Legal(ops[i])
    requires Valid(w) && OneClassCreates(ops, cls, name) && Undisturbed(w, ops, name)
    requires forall id :: id in w.vms ==> !Named(w.vms[id], name)
    ensures forall id :: id in LaunchLog(w, ops, name) ==>
              id in Run(w, ops).vms && Run(w, ops).vms[id].state in LISTED_STATES
  {
    if ops != [] {
      var front, op := ops[..|ops| - 1], ops[|ops| - 1];
      LaunchesStay(w, front, cls, name);
      RunStaysBacked(w, front, cls, name);
      StepLeavesAlone(Run(w, front), op, name);
      if op.Create? {
        CreateEffect(Run(w, front), op.m, op.cls, op.orders, op.retries);
      }
    }
  }

  // --- What the operations make of it -------------------------------------------------------------------------------

  /** The calls of GetMachineStatus up to the end of the tag lookup are accepted. */
  ghost predicate StatusLooksUp(w: World, m: Machine, cls: MachineClass, orders: Orders) {
    && cls.provider == PROVIDER_AWS && Decoded(cls).Ok? && ClientAvailable(w)
    && FetchAll(w.Skip(1), FiltersOf(m, orders)).result.Ok?
  }

  /**
   * A server that hands out pages of one instance and repeats its first token: every lookup ends after
   * one instance.
   */
  predicate StopsAfterOne(w: World) {
    w.pageSize == 1 && w.duplicateAt == 1
  }

  /** Apart from such a server, what a lookup reaches tells none, one and several matches apart. */
  lemma ReachedTellsApart(w: World, filters: seq<Filter>)
    ensures Reached(w, filters) == 0 <==> Matching(w, filters) == []
    ensures Reached(w, filters) > 1 <==> |Matching(w, filters)| > 1 && !StopsAfterOne(w)
  {
    if w.pageSize > 0 && w.duplicateAt > 0 {
      MultiplesApart(0, w.duplicateAt, w.pageSize);
      if w.duplicateAt > 1 {
        MultiplesApart(1, w.duplicateAt, w.pageSize);
      }
    }
  }

  /**
   * The status reports several instances exactly when several match (unless the server stops every
   * lookup after one), names the first when it reports one, and reports none exactly when nothing can
   * be found.
   */
  lemma StatusCounts(w: World, m: Machine, cls: MachineClass, orders: Orders)
    requires StatusLooksUp(w, m, cls, orders)
    ensures var r, ids := GetMachineStatus(w, m, cls, orders), Matching(w, FiltersOf(m, orders));
            && (r.error == Some(OutOfRange) <==> |ids| > 1 && !StopsAfterOne(w))
            && (ids != [] && r.error != Some(OutOfRange) ==>
                  r.response.Some? && r.response.value.providerID == ProviderId.Encode(cls.spec.value.region, ids[0]))
            && (ids == [] && m.providerID == "" ==> r.error == Some(NotFound))
  {
    ReachedTellsApart(w, FiltersOf(m, orders));
    assert Reached(w.Skip(1), FiltersOf(m, orders)) == Reached(w, FiltersOf(m, orders));
  }

  /**
   * A machine without instances and provider id: deleting it is done, its status is NotFound, and it
   * stays uninitialised.
   */
  lemma UnbackedMachine(w: World, m: Machine, cls: MachineClass, orders: Orders)
    requires StatusLooksUp(w, m, cls, orders)
    requires m.providerID == "" && Matching(w, FiltersOf(m, orders)) == []
    ensures DeleteMachine(w, m, cls, orders).result == Ok(()) && OnlyRead(w, DeleteMachine(w, m, cls, orders).w)
    ensures GetMachineStatus(w, m, cls, orders).error == Some(NotFound)
    ensures InitializeMachine(w, m, cls, orders).result == Err(Uninitialized)
  {
  }

  /**
   * With nothing found by tags, the lookup by provider id does not look at the state: a terminated
   * instance is still reported until EC2 forgets it, so the answer is NotFound exactly from then on.
   */
  lemma StatusByProviderIDIgnoresState(w: World, m: Machine, cls: MachineClass, orders: Orders, region: string,
                                       id: string)
    requires StatusLooksUp(w, m, cls, orders) && Matching(w, FiltersOf(m, orders)) == []
    requires m.providerID != "" && ProviderId.Decode(m.providerID) == Ok((region, id))
    requires FetchAll(w.Skip(1), FiltersOf(m, orders)).w.Outcome() == Accept
    ensures var r := GetMachineStatus(w, m, cls, orders);
            && (r.error == Some(NotFound) <==> id !in w.vms)
            && (id in w.vms ==>
                 r.response.Some? && r.response.value.providerID == ProviderId.Encode(cls.spec.value.region, id))
  {
  }

  /** Over histories: OutOfRange exactly when more than one launch of the machine is still in a listed state. */
  lemma {:induction false} StatusDetectsMultiplicity(w: World, ops: seq<Op>, cls: MachineClass, m: Machine,
                                                     orders: Orders)
    requires forall i :: 0 <= i < |ops| ==> Legal(ops[i])
    requires Valid(w) && OneClassCreates(ops, cls, m.name) && OrdersOf(orders, cls)
    requires forall id :: id in w.vms ==> !Named(w.vms[id], m.name)
    requires StatusLooksUp(Run(w, ops), m, cls, orders)
    ensures GetMachineStatus(Run(w, ops), m, cls, orders).error == Some(OutOfRange) <==>
              |StillListed(Run(w, ops).vms, LaunchLog(w, ops, m.name))| > 1 && !StopsAfterOne(Run(w, ops))
  {
    LookupFindsExactlyTheLaunched(w, ops, cls, m.name, orders);
    StatusCounts(Run(w, ops), m, cls, orders);
  }

  /** From w to w' exactly the instances `ids` are shut down. */
  ghost predicate ShutDownExactly(w: World, w': World, ids: seq<string>) {
    && w'.issued == w.issued && w'.vms.Keys == w.vms.Keys
    && (forall id :: id in ids ==> id in w.vms)
    && forall id :: id in w.vms ==> w'.vms[id] == if id in ids then ShutDown(w.vms[id]) else w.vms[id]
  }

  /** A successful deletion by tags, EC2 answering honestly, shuts down exactly what its lookup reached. */
  lemma DeleteShutsDownReached(w: World, m: Machine, cls: MachineClass, orders: Orders)
    requires Valid(w) && m.providerID == "" && Honest(w.script)
    requires DeleteMachine(w, m, cls, orders).result.Ok?
    ensures ShutDownExactly(w, DeleteMachine(w, m, cls, orders).w, ReachedIDs(w, FiltersOf(m, orders)))
  {
    var w', ids := DeleteMachine(w, m, cls, orders).w, ReachedIDs(w, FiltersOf(m, orders));
    if !LooksUp(w, m, cls, orders) {
      DeleteElsewise(w, m, cls, orders);
    }
    DeleteEffect(w, m, cls, orders);
    DeleteExact(w, m, cls, orders);
    HonestAnswers(w, m, orders);
    forall id | id in ids ensures id in w.vms && w'.vms[id] == ShutDown(w.vms[id]) {
      var j :| 0 <= j < |ids| && ids[j] == id;
      assert AfterCalls(Answers(w, m, orders), |ids|, j, w.vms[id], w'.vms[id]);
    }
  }

  /**
   * Over histories: a deletion by tags that succeeds, EC2 answering honestly, shuts down every launch of
   * the machine that is still listed, as far as its lookup reaches, and no other instance. If it reaches
   * them all, a second deletion, under any scan order, sends no call.
   */
  lemma {:induction false} DeleteRemovesEveryLaunch(w: World, ops: seq<Op>, cls: MachineClass, m: Machine,
                                                    orders: Orders, again: Orders)
    requires forall i :: 0 <= i < |ops| ==> Legal(ops[i])
    requires Valid(w) && OneClassCreates(ops, cls, m.name) && OrdersOf(orders, cls) && OrdersOf(again, cls)
    requires forall id :: id in w.vms ==> !Named(w.vms[id], m.name)
    requires m.providerID == "" && Honest(Run(w, ops).script)
    requires DeleteMachine(Run(w, ops), m, cls, orders).result.Ok?
    ensures var before, after := Run(w, ops), DeleteMachine(Run(w, ops), m, cls, orders).w;
            var left, n := StillListed(before.vms, LaunchLog(w, ops, m.name)), Reached(before, FiltersOf(m, orders));
            && n <= |left| && ShutDownExactly(before, after, left[..n])
            && (n == |left| ==> DeleteMachine(after, m, cls, again).w.log == after.log)
  {
    RunStaysBacked(w, ops, cls, m.name);
    var before := Run(w, ops);
    BackedIsMatching(before, cls, m.name, LaunchLog(w, ops, m.name), orders);
    DeleteShutsDownReached(before, m, cls, orders);
    SecondDeleteIsIdle(before, m, cls, orders, again);
  }

  /**
   * Over histories: a deletion by provider id that succeeds, EC2 answering honestly, shuts down the
   * instance named if EC2 knows it, and no other. What is left of the machine is every launch still
   * listed but that one, whatever the scan order.
   */
  lemma {:induction false} DeleteByIDRemovesOneLaunch(w: World, ops: seq<Op>, cls: MachineClass, m: Machine,
                                                      orders: Orders, other: Orders, region: string, id: string)
    requires forall i :: 0 <= i < |ops| ==> Legal(ops[i])
    requires Valid(w) && OneClassCreates(ops, cls, m.name) && OrdersOf(other, cls)
    requires forall id :: id in w.vms ==> !Named(w.vms[id], m.name)
    requires GoesByID(Run(w, ops), m, cls, region, id) && Honest(Run(w, ops).script)
    requires DeleteMachine(Run(w, ops), m, cls, orders).result.Ok?
    ensures var before, after := Run(w, ops), DeleteMachine(Run(w, ops), m, cls, orders).w;
            && ShutDownExactly(before, after, if id in before.vms then [id] else [])
            && Matching(after, FiltersOf(m, other)) == Except(StillListed(before.vms, LaunchLog(w, ops, m.name)), id)
  {
    RunStaysBacked(w, ops, cls, m.name);
    var before := Run(w, ops);
    BackedIsMatching(before, cls, m.name, LaunchLog(w, ops, m.name), other);
    DeleteByIDShutsDownOne(before, m, cls, orders, region, id);
    DeleteByIDLeavesOthers(before, m, cls, orders, region, id, other);
  }

  lemma HonestSuccessTakesEffect(w: World, m: Machine, cls: MachineClass, orders: Orders, region: string, id: string)
    requires GoesByID(w, m, cls, region, id) && Honest(w.script) && DeleteMachine(w, m, cls, orders).result.Ok?
    ensures !OutcomeAt(w.script, 1).Refuse?
  {
    DeleteByIDExact(w, m, cls, orders, region, id);
  }

  lemma DeleteByIDShutsDownOne(w: World, m: Machine, cls: MachineClass, orders: Orders, region: string, id: string)
    requires GoesByID(w, m, cls, region, id) && Honest(w.script) && DeleteMachine(w, m, cls, orders).result.Ok?
    ensures ShutDownExactly(w, DeleteMachine(w, m, cls, orders).w, if id in w.vms then [id] else [])
  {
    DeleteByIDExact(w, m, cls, orders, region, id);
    HonestSuccessTakesEffect(w, m, cls, orders, region, id);
  }

  lemma DeleteByIDLeavesOthers(w: World, m: Machine, cls: MachineClass, orders: Orders, region: string, id: string,
                               other: Orders)
    requires Valid(w) && GoesByID(w, m, cls, region, id) && Honest(w.script)
               && DeleteMachine(w, m, cls, orders).result.Ok?
    ensures Matching(DeleteMachine(w, m, cls, orders).w, FiltersOf(m, other))
              == Except(Matching(w, FiltersOf(m, other)), id)
  {
    HonestSuccessTakesEffect(w, m, cls, orders, region, id);
    StillMatchingByID(w, m, cls, orders, region, id, other);
  }

  /** The machine as its controller keeps it after a creation that answered with this provider id. */
  function WithProviderID(m: Machine, providerID: string): Machine {
    m.(providerID := providerID)
  }

  /** In this history the operation at position k is a creation of the machine that succeeds. */
  ghost predicate SucceedsAt(w: World, ops: seq<Op>, k: nat, m: Machine, cls: MachineClass)
    requires forall i :: 0 <= i < |ops| ==> Legal(ops[i])
  {
    && k < |ops| && Legal(ops[k]) && ops[k].Create? && ops[k].m == m && ops[k].cls == cls
    && CreateMachine(Run(w, ops[..k]), m, cls, ops[k].orders, ops[k].retries).result.Ok?
  }

  /** The provider id it reports. */
  ghost function ReportedAt(w: World, ops: seq<Op>, k: nat, m: Machine, cls: MachineClass): string
    requires (forall i :: 0 <= i < |ops| ==> Legal(ops[i])) && SucceedsAt(w, ops, k, m, cls)
  {
    CreateMachine(Run(w, ops[..k]), m, cls, ops[k].orders, ops[k].retries).result.value.providerID
  }

  lemma ReportedNames(w: World, ops: seq<Op>, k: nat, m: Machine, cls: MachineClass)
    requires (forall i :: 0 <= i < |ops| ==> Legal(ops[i])) && SucceedsAt(w, ops, k, m, cls)
    ensures Run(w, ops[..k]).births != []
    ensures var id, reported := Run(w, ops[..k]).births[0].id, ReportedAt(w, ops, k, m, cls);
            && reported != "" && ProviderId.Decode(reported).Ok?
            && (ProviderId.Decode(reported).value.1 == id <==> '/' !in id)
  {
    CreateEffect(Run(w, ops[..k]), m, cls, ops[k].orders, ops[k].retries);
    ProviderId.LastPartIff(cls.spec.value.region, Run(w, ops[..k]).births[0].id);
  }

  /**
   * After a successful creation and any history around it, a deletion with the reported provider id that
   * succeeds, EC2 answering honestly: if EC2's id of the launched instance has no slash, exactly this
   * instance is shut down, if still known, and every other launch of the machine stays as it was; if the
   * id has a slash, the launched instance is not touched. A slash in the region does no harm.
   */
  lemma {:induction false} ReportedIDLeadsBackIff(w: World, ops: seq<Op>, k: nat, m: Machine, cls: MachineClass,
                                                  orders: Orders, other: Orders)
    requires forall i :: 0 <= i < |ops| ==> Legal(ops[i])
    requires Valid(w) && OneClassCreates(ops, cls, m.name) && OrdersOf(other, cls) && SucceedsAt(w, ops, k, m, cls)
    requires forall id :: id in w.vms ==> !Named(w.vms[id], m.name)
    requires Honest(Run(w, ops).script)
    requires DeleteMachine(Run(w, ops), WithProviderID(m, ReportedAt(w, ops, k, m, cls)), cls, orders).result.Ok?
    ensures Run(w, ops[..k]).births != []
    ensures var before, id := Run(w, ops), Run(w, ops[..k]).births[0].id;
            var after := DeleteMachine(before, WithProviderID(m, ReportedAt(w, ops, k, m, cls)), cls, orders).w;
            if '/' !in id then
              && ShutDownExactly(before, after, if id in before.vms then [id] else [])
              && Matching(after, FiltersOf(m, other)) == Except(StillListed(before.vms, LaunchLog(w, ops, m.name)), id)
            else id in before.vms ==> id in after.vms && after.vms[id] == before.vms[id]
  {
    ReportedNames(w, ops, k, m, cls);
    var m', id := WithProviderID(m, ReportedAt(w, ops, k, m, cls)), Run(w, ops[..k]).births[0].id;
    var (region, target) := ProviderId.Decode(m'.providerID).value;
    DeletionNames(Run(w, ops), m', cls, orders, region, target);
    DeleteByIDRemovesOneLaunch(w, ops, cls, m', orders, other, region, target);
    UntouchedUnlessNamed(Run(w, ops), DeleteMachine(Run(w, ops), m', cls, orders).w, target, id);
  }

  lemma UntouchedUnlessNamed(w: World, w': World, target: string, id: string)
    requires ShutDownExactly(w, w', if target in w.vms then [target] else [])
    ensures id != target && id in w.vms ==> id in w'.vms && w'.vms[id] == w.vms[id]
  {
  }

  /** A deletion by provider id that succeeds got to its termination. */
  lemma DeletionNames(w: World, m: Machine, cls: MachineClass, orders: Orders, region: string, id: string)
    requires m.providerID != "" && ProviderId.Decode(m.providerID) == Ok((region, id))
    requires DeleteMachine(w, m, cls, orders).result.Ok?
    ensures GoesByID(w, m, cls, region, id)
  {
  }

  /** EC2 hands out an id with a slash. */
  function Slashed(): World {
    Samples.Empty([], [Birth("i/1", None, Some("ip"), None, [BirthNic("e1", None)])], 0, 0)
  }

  lemma SlashedIsCreated()
    ensures var cls := Samples.Class(Samples.ONE_NIC);
            var r := CreateMachine(Slashed(), Samples.Named("m"), cls, Samples.ORDERS, 0);
            && r.w == Samples.Created(Slashed(), "m", Samples.ONE_NIC)
            && r.result == Ok(MachineResponse(ProviderId.Encode("region", "i/1"), "ip"))
  {
    var cls := Samples.Class(Samples.ONE_NIC);
    Samples.ClassIsValid(Samples.ONE_NIC);
    Samples.CreateAccepted(Slashed(), "m", Samples.ONE_NIC);
    assert ReadyToLaunch(Slashed(), Samples.Named("m"), cls);
    UndisturbedCreateSucceeds(Slashed(), Samples.Named("m"), cls, Samples.ORDERS, 0);
  }

  lemma OtherIsDeleted(w: World, m: Machine, cls: MachineClass, orders: Orders, id: string)
    requires cls.provider == PROVIDER_AWS && Decoded(cls).Ok? && w.script == [] && '/' in id && id in w.vms
    requires m.providerID == ProviderId.Encode(cls.spec.value.region, id)
    ensures var r := DeleteMachine(w, m, cls, orders);
            r.result == Ok(()) && id in r.w.vms && r.w.vms[id] == w.vms[id]
  {
    ProviderId.LastPartIff(cls.spec.value.region, id);
    var (region, target) := ProviderId.Decode(m.providerID).value;
    DeleteByIDExact(w, m, cls, orders, region, target);
  }

  /** A deletion with the reported provider id succeeds, every call being accepted, and leaves the instance alone. */
  lemma SlashedIsMissed()
    ensures var m, cls := Samples.Named("m"), Samples.Class(Samples.ONE_NIC);
            var created := CreateMachine(Slashed(), m, cls, Samples.ORDERS, 0);
            && created.result.Ok?
            && var m' := WithProviderID(m, created.result.value.providerID);
               var r := DeleteMachine(created.w, m', cls, Samples.ORDERS);
               r.result == Ok(()) && "i/1" in r.w.vms && r.w.vms["i/1"].state == Pending
  {
    var m, cls := Samples.Named("m"), Samples.Class(Samples.ONE_NIC);
    var w := Samples.Created(Slashed(), "m", Samples.ONE_NIC);
    Samples.ClassIsValid(Samples.ONE_NIC);
    SlashedIsCreated();
    SlashInID();
    OtherIsDeleted(w, WithProviderID(m, ProviderId.Encode("region", "i/1")), cls, Samples.ORDERS, "i/1");
  }

  lemma SlashInID()
    ensures '/' in "i/1"
  {
    assert "i/1"[1] == '/';
  }

  /** The status by the reported provider id likewise: found or not, it is this instance that was looked for. */
  lemma {:induction false} StatusOfReported(w: World, m: Machine, cls: MachineClass, orders: Orders, retries: nat,
                                            later: World, other: Orders)
    requires OrdersOf(orders, cls) && CreateMachine(w, m, cls, orders, retries).result.Ok? && '/' !in w.births[0].id
    requires StatusLooksUp(later, m, cls, other) && Matching(later, FiltersOf(m, other)) == []
    requires FetchAll(later.Skip(1), FiltersOf(m, other)).w.Outcome() == Accept
    ensures var created := CreateMachine(w, m, cls, orders, retries).result.value;
            var status := GetMachineStatus(later, WithProviderID(m, created.providerID), cls, other);
            && (status.error == Some(NotFound) <==> w.births[0].id !in later.vms)
            && (w.births[0].id in later.vms ==>
                  status.response.Some? && status.response.value.providerID == created.providerID)
  {
    CreateEffect(w, m, cls, orders, retries);
    var reported := CreateMachine(w, m, cls, orders, retries).result.value.providerID;
    ProviderId.LastPartIff(cls.spec.value.region, w.births[0].id);
    StatusByProviderIDIgnoresState(later, WithProviderID(m, reported), cls, other,
                                   ProviderId.Decode(reported).value.0, w.births[0].id);
  }
}

/** When initialisation succeeds, and when retries converge. */
module Convergence {
  import opened Wrappers
  import opened Ec2
  import opened DriverSpec
  import opened Effects
  import opened Histories
  import opened Deletion
  import opened SourceDestChecks
  import opened Prefixes
  import opened Initialization
  import opened InitializationRuns
  import opened StuckInstances
  import ProviderId
  import Samples

  // --- Success ----------------------------------------------------------------------------------------------------

  /**
   * The instance can be initialised for this spec: there are interfaces to disable checks on, and the
   * requests due are possible.
   */
  predicate Initialisable(spec: ProviderSpec, t: Instance) {
    (ChecksToDisable(spec, t) ==> t.nics != []) && Requestable(spec.networkInterfaces, t.nics)
  }

  lemma AcceptedDisabling(w: World, id: string)
    requires Valid(w) && Accepting(w) && id in w.vms
    ensures var r := DisableSrcAndDestCheck(w, id); Accepting(r.w) && (r.ok <==> w.vms[id].nicIDs != [])
  {
    var nics, w1 := Now(w, id).nics, w.Skip(1);
    if w.vms[id].nicIDs != [] {
      OkIffEveryAttemptSucceeds(w1, nics);
      AttemptsContents(nics);
      forall j: nat | j < |Attempts(nics)| ensures Succeeds(w1, w1.script, Attempts(nics), j) {
        assert Attempts(nics)[j] in Attempts(nics);
        var i :| 0 <= i < |nics| && nics[i].id == Attempts(nics)[j] && !IsEfa(nics[i].nic);
        assert w.vms[id].nicIDs[i] in w.nics;
      }
      AcceptedDisableAll(w1, nics);
    }
  }

  lemma {:induction false} AcceptedDisableAll(w: World, nics: seq<NicView>)
    requires Accepting(w)
    ensures Accepting(DisableAll(w, nics).w)
    decreases |nics|
  {
    if nics != [] {
      OneDisable(w, nics[0].id);
      AcceptedDisableAll(if IsEfa(nics[0].nic) then w else DisableCheck(w, nics[0].id).w, nics[1..]);
    }
  }

  lemma InstanceSucceedsIff(w: World, spec: ProviderSpec, t: Instance)
    requires Valid(w) && Accepting(w) && Shows(w, t)
    ensures InitializeInstance(w, spec, t).result.Ok? <==> Initialisable(spec, t)
  {
    var disabled := if ChecksToDisable(spec, t) then DisableSrcAndDestCheck(w, t.id) else Attempt(w, true);
    AcceptedDisabling(w, t.id);
    ShownIsUpToDate(w, t);
    DisableSamePrefixes(w, t.id);
    AssignAllOkIff(disabled.w, spec.networkInterfaces, t.nics);
  }

  /** The machine's instance can be found: something matches by tags, or EC2 knows the instance of the provider id. */
  ghost predicate Findable(w: World, m: Machine, orders: Orders) {
    || Matching(w, FiltersOf(m, orders)) != []
    || (m.providerID != "" && ProviderId.Decode(m.providerID).Ok? && ProviderId.Decode(m.providerID).value.1 in w.vms)
  }

  lemma AcceptedTarget(w: World, m: Machine, cls: MachineClass, orders: Orders)
    requires Accepting(w)
    ensures Target(w, m, cls, orders).Some? <==> Decoded(cls).Ok? && Findable(w, m, orders)
  {
    AcceptedLookup(w.Skip(1), FiltersOf(m, orders));
    FetchAllReads(w.Skip(1), FiltersOf(m, orders));
    if Matching(w, FiltersOf(m, orders)) != [] {
      ReachesTheFirst(w, FiltersOf(m, orders));
    }
  }

  /**
   * With every call accepted, InitializeMachine succeeds exactly when the class is valid, the instance
   * can be found and it can be initialised.
   */
  lemma {:induction false} InitializeSucceedsIff(w: World, m: Machine, cls: MachineClass, orders: Orders)
    requires Valid(w) && Accepting(w)
    ensures InitializeMachine(w, m, cls, orders).result.Ok? <==>
              && Decoded(cls).Ok? && Findable(w, m, orders)
              && Target(w, m, cls, orders).Some? && Initialisable(cls.spec.value, Target(w, m, cls, orders).value)
  {
    AcceptedTarget(w, m, cls, orders);
    var w1 := InitializeShape(w, m, cls, orders);
    if Target(w, m, cls, orders).Some? {
      AcceptingAfterLookup(w, m, orders);
      InstanceSucceedsIff(w1, cls.spec.value, Target(w, m, cls, orders).value);
    }
  }

  /** Whatever the outcomes, an initialisation that has an impossible request to make fails. */
  lemma {:induction false} SuccessNeedsRequestable(w: World, m: Machine, cls: MachineClass, orders: Orders)
    requires InitializeMachine(w, m, cls, orders).result.Ok?
    ensures var t := Target(w, m, cls, orders);
            t.Some? && Requestable(cls.spec.value.networkInterfaces, t.value.nics)
  {
    var w1 := InitializeShape(w, m, cls, orders);
    var spec, t := cls.spec.value, Target(w, m, cls, orders).value;
    var disabled := if ChecksToDisable(spec, t) then DisableSrcAndDestCheck(w1, t.id) else Attempt(w1, true);
    AssignAllOkNeeds(disabled.w, spec.networkInterfaces, t.nics);
  }

  /** A negative count for an interface without prefixes makes the initialisation fail in every world. */
  lemma {:induction false} NegativeCountFails(w: World, m: Machine, cls: MachineClass, orders: Orders, i: nat)
    requires var t := Target(w, m, cls, orders);
             && t.Some? && i < |t.value.nics| && t.value.nics[i].nic.prefixes == 0
             && var wanted := Unmet(cls.spec.value.networkInterfaces, t.value.nics[i].nic);
                wanted.Some? && wanted.value < 0
    ensures InitializeMachine(w, m, cls, orders).result.Err?
  {
    if InitializeMachine(w, m, cls, orders).result.Ok? {
      SuccessNeedsRequestable(w, m, cls, orders);
    }
  }

  const NEGATIVE := [NicSpec(None, None, Some(-1))]

  function OneNic(): World {
    Samples.Empty([], [Birth("i-1", None, Some("ip"), None, [BirthNic("e1", Some(true))])], 0, 0)
  }

  lemma NegativeIsFresh()
    ensures Fresh(OneNic(), OneNic().births[0], LaunchNics(NEGATIVE))
    ensures BirthNicIDs(OneNic().births[0]) == ["e1"]
  {
  }

  lemma NegativeIsLaunched()
    ensures CreateMachine(OneNic(), Samples.Named("m"), Samples.Class(NEGATIVE), Samples.ORDERS, 0).w
         == Samples.Created(OneNic(), "m", NEGATIVE)
  {
    NegativeIsFresh();
    Samples.CreateAccepted(OneNic(), "m", NEGATIVE);
  }

  lemma NegativeIsAsNeeded()
    ensures var w := Samples.Created(OneNic(), "m", NEGATIVE);
            && OneLaunched(w, NEGATIVE) && w.vms["i-1"].nicIDs == ["e1"]
            && "e1" in w.nics && w.nics["e1"] == Nic(Some(Attachment(Some(0))), Some(true), None, 0)
  {
    NegativeIsFresh();
    FreshNics(OneNic(), OneNic().births[0], LaunchNics(NEGATIVE));
    assert OneNic().births[0].nics[0].id == "e1";
  }

  lemma NegativeIsUnmet(nic: Nic)
    requires nic == Nic(Some(Attachment(Some(0))), Some(true), None, 0)
    ensures Unmet(NEGATIVE, nic) == Some(-1)
  {
  }

  lemma OneView(w: World)
    requires "i-1" in w.vms && w.vms["i-1"].nicIDs == ["e1"] && "e1" in w.nics
    ensures Now(w, "i-1").nics == [NicView("e1", w.nics["e1"])]
  {
  }

  /** A valid class with such a count: created with every call accepted, the machine cannot be initialised. */
  lemma {:induction false} NegativeCountHappens()
    ensures var m, cls := Samples.Named("m"), Samples.Class(NEGATIVE);
            var created := CreateMachine(OneNic(), m, cls, Samples.ORDERS, 0).w;
            && Decoded(cls).Ok? && Accepting(created)
            && InitializeMachine(created, m, cls, Samples.ORDERS).result.Err?
  {
    Samples.ClassIsValid(NEGATIVE);
    NegativeIsLaunched();
    NegativeIsAsNeeded();
    NothingToCome();
    LaunchedNegativeFails(Samples.Created(OneNic(), "m", NEGATIVE));
  }

  lemma NothingToCome()
    ensures Samples.Created(OneNic(), "m", NEGATIVE).script == []
  {
  }

  lemma {:induction false} LaunchedNegativeFails(w: World)
    requires OneLaunched(w, NEGATIVE) && w.vms["i-1"].nicIDs == ["e1"]
    requires "e1" in w.nics && w.nics["e1"] == Nic(Some(Attachment(Some(0))), Some(true), None, 0)
    ensures InitializeMachine(w, Samples.Named("m"), Samples.Class(NEGATIVE), Samples.ORDERS).result.Err?
  {
    OneIsTarget(w, NEGATIVE);
    NegativeIsUnmet(w.nics["e1"]);
    OneView(w);
    NegativeCountFails(w, Samples.Named("m"), Samples.Class(NEGATIVE), Samples.ORDERS, 0);
  }

  // --- Convergence ------------------------------------------------------------------------------------------------

  /** The instance's flag contradicts an interface from the start, or a split outcome in the history makes it. */
  ghost predicate EverContradicts(w: World, ops: seq<Op>, id: string)
    requires forall i :: 0 <= i < |ops| ==> Legal(ops[i])
  {
    exists n :: StuckAt(w, id, n) || EverSplits(w, ops, id, n)
  }

  /** An instance is in the contradiction at some interface exactly when flag and views say so. */
  lemma StuckSomewhereIff(w: World, id: string)
    requires Valid(w) && id in w.vms
    ensures (exists n :: StuckAt(w, id, n))
       <==> w.vms[id].sourceDestCheck == Some(false) && CheckLeftOn(Now(w, id).nics)
  {
    var nics := Now(w, id).nics;
    if n :| StuckAt(w, id, n) {
      var i :| 0 <= i < |w.vms[id].nicIDs| && w.vms[id].nicIDs[i] == n;
      assert !IsEfa(nics[i].nic) && IsOn(nics[i].nic);
    }
    if w.vms[id].sourceDestCheck == Some(false) && CheckLeftOn(nics) {
      var i :| 0 <= i < |nics| && !IsEfa(nics[i].nic) && IsOn(nics[i].nic);
      assert w.vms[id].nicIDs[i] in w.vms[id].nicIDs;
      assert StuckAt(w, id, w.vms[id].nicIDs[i]);
    }
  }

  lemma {:induction false} RunContradictsIff(w: World, ops: seq<Op>, id: string)
    requires Valid(w) && id in w.vms && (forall i :: 0 <= i < |ops| ==> Legal(ops[i]))
    requires id in Run(w, ops).vms
    ensures (exists n :: StuckAt(Run(w, ops), id, n)) <==> EverContradicts(w, ops, id)
  {
    forall n ensures StuckAt(Run(w, ops), id, n) <==> StuckAt(w, id, n) || EverSplits(w, ops, id, n) {
      RunStuckIff(w, ops, id, n);
    }
  }

  /**
   * Whatever failed before, the first initialisation that succeeds leaves nothing to be done, except
   * exactly where the class wants the checks off and flag and interfaces contradict each other by then.
   */
  lemma {:induction false} FirstSuccessSufficesIff(w: World, ops: seq<Op>, id: string,
                                                   m: Machine, cls: MachineClass, orders: Orders)
    requires Valid(w) && id in w.vms && (forall i :: 0 <= i < |ops| ==> Legal(ops[i]))
    requires var w1 := Run(w, ops);
             && InitializeMachine(w1, m, cls, orders).result.Ok?
             && Target(w1, m, cls, orders).Some? && Target(w1, m, cls, orders).value.id == id
    ensures var w' := InitializeMachine(Run(w, ops), m, cls, orders).w;
            && id in w'.vms
            && (NeedsInitialization(cls.spec.value, Now(w', id)) <==>
                  cls.spec.value.srcAndDstChecksEnabled == Some(false) && EverContradicts(w, ops, id))
  {
    var after := Run(w, ops);
    var w1 := InitializeShape(after, m, cls, orders);
    RunStaysConsistent(w, ops);
    RunContradictsIff(w, ops, id);
    StuckSomewhereIff(after, id);
    assert Target(after, m, cls, orders).value == Now(after, id);
    ReadyIff(w1, cls.spec.value, Target(after, m, cls, orders).value);
  }

  /** The prefix counts of the class are possible ones. */
  predicate CountsPossible(specs: seq<NicSpec>) {
    forall k :: 0 <= k < |specs| && specs[k].ipv6PrefixCount.Some? ==> specs[k].ipv6PrefixCount.value >= 0
  }

  /** The instance's interfaces are within the class's counts, and only its own class initialises it in the history. */
  ghost predicate KeptToItsClass(w: World, ops: seq<Op>, id: string, specs: seq<NicSpec>)
    requires id in w.vms && forall i :: 0 <= i < |ops| ==> Legal(ops[i])
  {
    forall n :: n in w.vms[id].nicIDs ==> WithinAt(w, specs, n) && OwnerAlwaysGoesBy(w, ops, specs, n)
  }

  lemma HistoryKeepsRequestable(w: World, ops: seq<Op>, id: string, specs: seq<NicSpec>)
    requires Valid(w) && id in w.vms && (forall i :: 0 <= i < |ops| ==> Legal(ops[i]))
    requires id in Run(w, ops).vms && CountsPossible(specs) && KeptToItsClass(w, ops, id, specs)
    ensures Requestable(specs, Now(Run(w, ops), id).nics)
  {
    var after := Run(w, ops);
    RunStaysConsistent(w, ops);
    RunKeepsNics(w, ops, id);
    var views := Now(after, id).nics;
    forall i | 0 <= i < |views| ensures WithinCount(specs, views[i].nic) {
      var n := after.vms[id].nicIDs[i];
      assert n in w.vms[id].nicIDs && n in after.nics;
      NeverOverAssigned(w, ops, specs, n);
    }
    forall i | 0 <= i < |views| && Unmet(specs, views[i].nic).Some? ensures Unmet(specs, views[i].nic).value > 0 {
      assert WithinCount(specs, views[i].nic);
    }
    WithinRequestableIff(specs, views);
  }

  /**
   * Take an instance with interfaces within the counts of its class, and any history, with
   * initialisations that fail at any call, in which only its own class initialises it. The next
   * initialisation that finds it, its calls accepted, succeeds. It leaves nothing to be done exactly
   * when the class does not want the checks off, or no contradiction was there or came about by a split.
   */
  lemma {:induction false} RetriesConvergeIff(w: World, ops: seq<Op>, id: string,
                                              m: Machine, cls: MachineClass, orders: Orders)
    requires Valid(w) && id in w.vms && w.vms[id].nicIDs != []
    requires Decoded(cls).Ok? && CountsPossible(cls.spec.value.networkInterfaces)
    requires forall i :: 0 <= i < |ops| ==> Legal(ops[i])
    requires KeptToItsClass(w, ops, id, cls.spec.value.networkInterfaces)
    requires var w1 := Run(w, ops);
             && Accepting(w1) && Target(w1, m, cls, orders).Some? && Target(w1, m, cls, orders).value.id == id
    ensures var r := InitializeMachine(Run(w, ops), m, cls, orders);
            && r.result.Ok? && id in r.w.vms
            && (NeedsInitialization(cls.spec.value, Now(r.w, id)) <==>
                  cls.spec.value.srcAndDstChecksEnabled == Some(false) && EverContradicts(w, ops, id))
  {
    var after := Run(w, ops);
    RunStaysConsistent(w, ops);
    var w1 := InitializeShape(after, m, cls, orders);
    assert Target(after, m, cls, orders).value == Now(after, id);
    HistoryKeepsRequestable(w, ops, id, cls.spec.value.networkInterfaces);
    RunKeepsNics(w, ops, id);
    AcceptedTarget(after, m, cls, orders);
    InitializeSucceedsIff(after, m, cls, orders);
    FirstSuccessSufficesIff(w, ops, id, m, cls, orders);
  }

  /** Instances with one interface, and all where flags do not follow interfaces, come into no contradiction. */
  lemma {:induction false} NoContradiction(w: World, ops: seq<Op>, id: string)
    requires Valid(w) && id in w.vms && (forall i :: 0 <= i < |ops| ==> Legal(ops[i]))
    requires !w.mirror || |w.vms[id].nicIDs| == 1
    requires !(w.vms[id].sourceDestCheck == Some(false) && CheckLeftOn(Now(w, id).nics))
    ensures !EverContradicts(w, ops, id)
  {
    StuckSomewhereIff(w, id);
    forall n ensures !StuckAt(w, id, n) && !EverSplits(w, ops, id, n) {
      NoSplit(w, ops, id, n);
    }
  }

  lemma {:induction false} NoSplit(w: World, ops: seq<Op>, id: string, n: string)
    requires Valid(w) && id in w.vms && (forall i :: 0 <= i < |ops| ==> Legal(ops[i]))
    requires !w.mirror || |w.vms[id].nicIDs| == 1
    ensures !EverSplits(w, ops, id, n)
  {
    if EverSplits(w, ops, id, n) {
      SplitTakesTwo(w, ops, id, n);
      TwoAreMany(w.vms[id].nicIDs, n);
    }
  }

  lemma TwoAreMany(ids: seq<string>, n: string)
    requires n in ids && exists p :: p in ids && p != n
    ensures |ids| > 1
  {
  }
}

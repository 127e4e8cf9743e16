/** Initialisation that ends for good: an instance whose own flag contradicts its interfaces. */
module StuckInstances {
  import opened Wrappers
  import opened Tags
  import opened Ec2
  import opened DriverSpec
  import opened Effects
  import opened Histories
  import opened Deletion
  import opened SourceDestChecks
  import opened Prefixes
  import opened Initialization
  import opened InitializationRuns
  import Marks
  import Samples

  /** The instance's own flag is off while its non-EFA interface n has the check on. */
  ghost predicate StuckAt(w: World, id: string, n: string) {
    && id in w.vms && w.vms[id].sourceDestCheck == Some(false)
    && n in w.vms[id].nicIDs && n in w.nics && !IsEfa(w.nics[n]) && IsOn(w.nics[n])
  }

  // --- How one call brings it about -----------------------------------------------------------------------------

  /**
   * Of the attempts on the instance's interfaces, one on a primary takes effect and none on n, which
   * has the check on.
   */
  ghost predicate SplitOutcome(w: World, t: Instance, n: string) {
    && w.mirror && w.Outcome().Accept?
    && t.id in w.vms && PrimaryHit(w.Skip(1), Attempts(t.nics), w.vms[t.id].nicIDs)
    && n in w.nics && IsOn(w.nics[n]) && !IsEfa(w.nics[n]) && !Hit(w.Skip(1), Attempts(t.nics), n)
  }

  lemma InstanceSticksIff(w: World, spec: ProviderSpec, t: Instance, n: string)
    requires Valid(w) && Shows(w, t) && ChecksToDisable(spec, t) && n in w.vms[t.id].nicIDs
    ensures StuckAt(InitializeInstance(w, spec, t).w, t.id, n) <==> SplitOutcome(w, t, n)
  {
    DisablingSticksIff(w, t, n);
    AssigningLeavesStuck(DisableSrcAndDestCheck(w, t.id).w, spec.networkInterfaces, t, n);
  }

  lemma DisablingSticksIff(w: World, t: Instance, n: string)
    requires Valid(w) && Shows(w, t) && t.sourceDestCheck != Some(false) && n in w.vms[t.id].nicIDs
    ensures StuckAt(DisableSrcAndDestCheck(w, t.id).w, t.id, n) <==> SplitOutcome(w, t, n)
  {
    var disabled := DisableSrcAndDestCheck(w, t.id);
    if w.Outcome().Accept? {
      assert t.nics != [] by { assert w.vms[t.id].nicIDs != []; }
      assert disabled == DisableAll(w.Skip(1), t.nics);
      DisableAllSettles(w.Skip(1), t.nics);
      FlagFallsIff(w.Skip(1), t.nics, t.id);
      ExactlyTheHitAreOff(w.Skip(1), t.nics, n);
    } else {
      assert OnlyRead(w, disabled.w);
    }
  }

  lemma AssigningLeavesStuck(w: World, specs: seq<NicSpec>, t: Instance, n: string)
    ensures StuckAt(AssignAll(w, specs, t.nics).w, t.id, n) <==> StuckAt(w, t.id, n)
  {
    AssignAllSettles(w, specs, t.nics);
    AssignAllSameChecks(w, specs, t.nics);
  }

  /** An attempt without effect is an attempt that fails, and so does the call. */
  lemma MissedIsFailed(w: World, spec: ProviderSpec, t: Instance, n: string)
    requires Valid(w) && Shows(w, t) && ChecksToDisable(spec, t) && n in w.vms[t.id].nicIDs && SplitOutcome(w, t, n)
    ensures InitializeInstance(w, spec, t).result == Err(Uninitialized)
  {
    var w1, attempts := w.Skip(1), Attempts(t.nics);
    AttemptsContents(t.nics);
    var i :| 0 <= i < |t.nics| && t.nics[i].id == n;
    assert n in attempts;
    var j: nat :| j < |attempts| && attempts[j] == n;
    assert !Succeeds(w1, w1.script, attempts, j);
    OkIffEveryAttemptSucceeds(w1, t.nics);
  }

  /**
   * Exactly when one InitializeMachine call brings this about: where the instance's own flag follows its
   * primary interface, and the attempt on the primary takes effect while none on the other does. The
   * call then answers Uninitialized, which asks for the retry that cannot help.
   */
  lemma {:induction false} PartialFailureSticks(w: World, m: Machine, cls: MachineClass, orders: Orders, n: string)
    requires Valid(w) && Target(w, m, cls, orders).Some? && TargetOwns(w, m, cls, orders, n)
    requires ChecksToDisable(cls.spec.value, Target(w, m, cls, orders).value)
    ensures var r, t := InitializeMachine(w, m, cls, orders), Target(w, m, cls, orders).value;
            && (StuckAt(r.w, t.id, n) <==> SplitOutcome(AfterLookup(w, m, orders), t, n))
            && (StuckAt(r.w, t.id, n) ==> r.result == Err(Uninitialized))
  {
    var w1 := InitializeShape(w, m, cls, orders);
    var t := Target(w, m, cls, orders).value;
    InstanceSticksIff(w1, cls.spec.value, t, n);
    if SplitOutcome(w1, t, n) {
      MissedIsFailed(w1, cls.spec.value, t, n);
    }
  }

  // --- Nothing else does, and nothing repairs it ----------------------------------------------------------------

  /** What the contradiction depends on is as before. */
  ghost predicate SameForStuck(w: World, w': World, id: string) {
    && id in w.vms && id in w'.vms
    && w'.vms[id].sourceDestCheck == w.vms[id].sourceDestCheck && w'.vms[id].nicIDs == w.vms[id].nicIDs
    && forall n :: n in w.vms[id].nicIDs && n in w.nics ==>
         && n in w'.nics && w'.nics[n].interfaceType == w.nics[n].interfaceType
         && w'.nics[n].sourceDestCheck == w.nics[n].sourceDestCheck
  }

  lemma SameForStuckTransitive(a: World, b: World, c: World, id: string)
    requires SameForStuck(a, b, id) && SameForStuck(b, c, id)
    ensures SameForStuck(a, c, id)
  {
  }

  lemma AssignAllIsSame(w: World, specs: seq<NicSpec>, nics: seq<NicView>, id: string)
    requires id in w.vms
    ensures SameForStuck(w, AssignAll(w, specs, nics).w, id)
  {
    AssignAllSettles(w, specs, nics);
    AssignAllSameChecks(w, specs, nics);
  }

  /** Attempts on other interfaces leave the instance as it is. */
  lemma DisableOthersIsSame(w: World, nics: seq<NicView>, id: string)
    requires id in w.vms && forall i :: 0 <= i < |nics| ==> nics[i].id !in w.vms[id].nicIDs
    ensures SameForStuck(w, DisableAll(w, nics).w, id)
  {
    DisableAllSettles(w, nics);
    DisableAllFlags(w, nics);
    AttemptsContents(nics);
    var attempts := Attempts(nics);
    assert forall j: nat :: j < |attempts| ==> attempts[j] in attempts;
    assert !PrimaryHit(w, attempts, w.vms[id].nicIDs);
    FlagFallsIff(w, nics, id);
    forall n | n in w.vms[id].nicIDs && n in w.nics ensures DisableAll(w, nics).w.nics[n] == w.nics[n] {
      ExactlyTheHitAreOff(w, nics, n);
    }
  }

  lemma OthersNics(w: World, t: Instance, id: string)
    requires Valid(w) && Shows(w, t) && id in w.vms && t.id != id
    ensures forall i :: 0 <= i < |t.nics| ==> t.nics[i].id !in w.vms[id].nicIDs
  {
    forall i | 0 <= i < |t.nics| ensures t.nics[i].id !in w.vms[id].nicIDs {
      assert w.vms[t.id].nicIDs[i] in w.vms[t.id].nicIDs;
    }
  }

  /** Initialising another instance, or this one without trying its checks, leaves it as it is. */
  lemma InitializeInstanceIsSame(w: World, spec: ProviderSpec, t: Instance, id: string)
    requires Valid(w) && Shows(w, t) && id in w.vms && (t.id != id || !ChecksToDisable(spec, t))
    ensures SameForStuck(w, InitializeInstance(w, spec, t).w, id)
  {
    var disabled := if ChecksToDisable(spec, t) then DisableSrcAndDestCheck(w, t.id) else Attempt(w, true);
    if ChecksToDisable(spec, t) {
      OthersNics(w, t, id);
      DisableOtherIsSame(w, t, id);
    }
    AssignAllIsSame(disabled.w, spec.networkInterfaces, t.nics, id);
    SameForStuckTransitive(w, disabled.w, AssignAll(disabled.w, spec.networkInterfaces, t.nics).w, id);
  }

  lemma DisableOtherIsSame(w: World, t: Instance, id: string)
    requires Shows(w, t) && id in w.vms && forall i :: 0 <= i < |t.nics| ==> t.nics[i].id !in w.vms[id].nicIDs
    ensures SameForStuck(w, DisableSrcAndDestCheck(w, t.id).w, id)
  {
    var d := DescribeByID(w, t.id);
    assert OnlyRead(w, d.w);
    if d.result.Success? && d.result.value != [] {
      DisableOthersIsSame(d.w, t.nics, id);
    }
  }

  lemma LaunchIsSame(w: World, w': World, name: string, spec: ProviderSpec, order: seq<string>, id: string)
    requires Valid(w) && id in w.vms
    requires (forall k :: k in order ==> k in spec.tags) && LaunchedFor(w, w', name, spec, order)
    ensures SameForStuck(w, w', id)
  {
    FreshNics(w, w.births[0], LaunchNics(spec.networkInterfaces));
  }

  /** The operation turns to this instance and sets out to switch its checks off. */
  ghost predicate Tries(w: World, op: Op, id: string) {
    op.Initialize? &&
    var t := Target(w, op.m, op.cls, op.orders);
    t.Some? && t.value.id == id && ChecksToDisable(op.cls.spec.value, t.value)
  }

  /** It does so with a split outcome at interface n. */
  ghost predicate Splits(w: World, op: Op, id: string, n: string) {
    && Tries(w, op, id) && id in w.vms && n in w.vms[id].nicIDs
    && SplitOutcome(AfterLookup(w, op.m, op.orders), Target(w, op.m, op.cls, op.orders).value, n)
  }

  lemma {:induction false} InitializeIsSame(w: World, op: Op, id: string)
    requires op.Initialize? && Valid(w) && id in w.vms && !Tries(w, op, id)
    ensures SameForStuck(w, InitializeMachine(w, op.m, op.cls, op.orders).w, id)
  {
    var w1 := InitializeShape(w, op.m, op.cls, op.orders);
    if Target(w, op.m, op.cls, op.orders).Some? {
      InitializeInstanceIsSame(w1, op.cls.spec.value, Target(w, op.m, op.cls, op.orders).value, id);
    }
  }

  lemma {:induction false} StepIsSame(w: World, op: Op, id: string)
    requires Legal(op) && Valid(w) && id in w.vms && id in Step(w, op).vms && !Tries(w, op, id)
    ensures SameForStuck(w, Step(w, op), id)
  {
    match op
    case Create(m, cls, orders, retries) =>
      CreateEffect(w, m, cls, orders, retries);
      if !NothingLaunched(w, Step(w, op)) {
        LaunchIsSame(w, Step(w, op), m.name, cls.spec.value, orders.instance, id);
      }
    case Initialize(_, _, _) => InitializeIsSame(w, op, id);
    case Status(m, cls, orders) => StatusReads(w, m, cls, orders);
    case Delete(m, cls, orders) => DeleteEffect(w, m, cls, orders);
    case List(cls, orders) => ListReads(w, cls, orders);
    case _ =>
  }

  lemma {:induction false} TryStuckIff(w: World, op: Op, id: string, n: string)
    requires Legal(op) && Valid(w) && id in w.vms && Tries(w, op, id)
    ensures StuckAt(Step(w, op), id, n) <==> Splits(w, op, id, n)
    ensures !StuckAt(w, id, n)
  {
    var w1 := InitializeShape(w, op.m, op.cls, op.orders);
    InitializeSettles(w, op.m, op.cls, op.orders);
    if n in w.vms[id].nicIDs {
      PartialFailureSticks(w, op.m, op.cls, op.orders, n);
    }
  }

  lemma {:induction false} StepStuckIff(w: World, op: Op, id: string, n: string)
    requires Legal(op) && Valid(w) && id in w.vms && id in Step(w, op).vms
    ensures StuckAt(Step(w, op), id, n) <==> StuckAt(w, id, n) || Splits(w, op, id, n)
  {
    if Tries(w, op, id) {
      TryStuckIff(w, op, id, n);
    } else {
      StepIsSame(w, op, id);
    }
  }

  /** Some initialisation of the history turns to the instance and has a split outcome at interface n. */
  ghost predicate EverSplits(w: World, ops: seq<Op>, id: string, n: string)
    requires forall i :: 0 <= i < |ops| ==> Legal(ops[i])
  {
    ops != [] &&
    var front, op := ops[..|ops| - 1], ops[|ops| - 1];
    EverSplits(w, front, id, n) || Splits(Run(w, front), op, id, n)
  }

  /**
   * Over histories: as long as EC2 knows the instance, it is in the contradiction at n exactly when it
   * was at the start, or some initialisation of it since then had a split outcome at n. Nothing else
   * causes the contradiction, and nothing repairs it.
   */
  lemma {:induction false} RunStuckIff(w: World, ops: seq<Op>, id: string, n: string)
    requires Valid(w) && id in w.vms && (forall i :: 0 <= i < |ops| ==> Legal(ops[i]))
    requires id in Run(w, ops).vms
    ensures StuckAt(Run(w, ops), id, n) <==> StuckAt(w, id, n) || EverSplits(w, ops, id, n)
    decreases |ops|
  {
    if ops != [] {
      var front, op := ops[..|ops| - 1], ops[|ops| - 1];
      RunStaysConsistent(w, front);
      KnownBefore(w, ops, id);
      RunStuckIff(w, front, id, n);
      StepStuckIff(Run(w, front), op, id, n);
    }
  }

  lemma {:induction false} KnownBefore(w: World, ops: seq<Op>, id: string)
    requires Valid(w) && id in w.vms && (forall i :: 0 <= i < |ops| ==> Legal(ops[i]))
    requires ops != [] && id in Run(w, ops).vms
    ensures id in Run(w, ops[..|ops| - 1]).vms
  {
    var front, op := ops[..|ops| - 1], ops[|ops| - 1];
    RunStaysConsistent(w, front);
    IdsDoNotReturn(w, front, id);
    if op.Create? {
      CreateEffect(Run(w, front), op.m, op.cls, op.orders, op.retries);
    } else {
      StepKeepsMarks(Run(w, front), op);
    }
  }

  /** In particular no number of initialisations repairs it. */
  lemma {:induction false} StuckForever(w: World, ops: seq<Op>, id: string, n: string)
    requires Valid(w) && StuckAt(w, id, n) && (forall i :: 0 <= i < |ops| ==> Legal(ops[i]))
    requires id in Run(w, ops).vms
    ensures StuckAt(Run(w, ops), id, n)
  {
    RunStuckIff(w, ops, id, n);
  }

  /** A split takes a world in which flags follow primary interfaces, and two interfaces. */
  lemma {:induction false} SplitTakesTwo(w: World, ops: seq<Op>, id: string, n: string)
    requires Valid(w) && id in w.vms && (forall i :: 0 <= i < |ops| ==> Legal(ops[i]))
    requires EverSplits(w, ops, id, n)
    ensures w.mirror && n in w.vms[id].nicIDs && exists p :: p in w.vms[id].nicIDs && p != n
    decreases |ops|
  {
    var front, op := ops[..|ops| - 1], ops[|ops| - 1];
    if EverSplits(w, front, id, n) {
      SplitTakesTwo(w, front, id, n);
    } else {
      var w0 := Run(w, front);
      RunKeepsMirror(w, front);
      RunKeepsNics(w, front, id);
      RunStaysConsistent(w, front);
      OneSplitTakesTwo(w0, op, id, n);
    }
  }

  lemma OneSplitTakesTwo(w: World, op: Op, id: string, n: string)
    requires Valid(w) && Splits(w, op, id, n)
    ensures w.mirror && exists p :: p in w.vms[id].nicIDs && p != n
  {
    var w1 := InitializeShape(w, op.m, op.cls, op.orders);
    var t := Target(w, op.m, op.cls, op.orders).value;
    var attempts := Attempts(t.nics);
    var p :| p in w1.vms[id].nicIDs && Hit(w1.Skip(1), attempts, p) && IsPrimary(w1.Skip(1).nics[p]);
    assert p != n;
  }

  // --- What the operations make of it ---------------------------------------------------------------------------

  /** The lookup of the operations yields this instance and no other. */
  ghost predicate FindsOnly(w: World, m: Machine, orders: Orders, id: string) {
    var matched := MatchMachine(w.Skip(1), m, Selected(orders.scan)).result;
    matched.Ok? && |matched.value| == 1 && matched.value[0].id == id
  }

  /**
   * So after any history, for every class that wants the checks off and whenever the lookup yields this
   * instance: GetMachineStatus answers with the instance and Uninitialized, and an InitializeMachine whose
   * calls are accepted answers success, unless it has an impossible request to make, and changes nothing
   * about it.
   */
  lemma {:induction false} StuckInVain(w: World, ops: seq<Op>, id: string, n: string, m: Machine, cls: MachineClass,
                                       orders: Orders)
    requires Valid(w) && StuckAt(w, id, n) && (forall i :: 0 <= i < |ops| ==> Legal(ops[i]))
    requires cls.provider == PROVIDER_AWS && Decoded(cls).Ok? && cls.spec.value.srcAndDstChecksEnabled == Some(false)
    requires ClientAvailable(Run(w, ops)) && FindsOnly(Run(w, ops), m, orders, id)
    ensures var status := GetMachineStatus(Run(w, ops), m, cls, orders);
            status.response.Some? && status.error == Some(Uninitialized)
    ensures var after, init := Run(w, ops), InitializeMachine(Run(w, ops), m, cls, orders);
            && id in after.vms && id in init.w.vms && StuckAt(init.w, id, n)
            && (Accepting(after) ==>
                  (init.result.Ok? <==> Requestable(cls.spec.value.networkInterfaces, Now(after, id).nics)))
  {
    var after := Run(w, ops);
    RunStaysConsistent(w, ops);
    var w1 := InitializeShape(after, m, cls, orders);
    StuckForever(w, ops, id, n);
    var t := Target(after, m, cls, orders).value;
    assert t == Now(after, id);
    StuckIsUninitialized(after, m, cls, orders, id, n);
    InitializeInstanceIsSame(w1, cls.spec.value, t, id);
    var specs := cls.spec.value.networkInterfaces;
    assert InitializeInstance(w1, cls.spec.value, t).result.Ok? <==> AssignAll(w1, specs, t.nics).ok;
    if Accepting(after) {
      AcceptingAfterLookup(after, m, orders);
      ShownIsUpToDate(w1, t);
      AssignAllOkIff(w1, cls.spec.value.networkInterfaces, t.nics);
    }
  }

  lemma StuckIsUninitialized(w: World, m: Machine, cls: MachineClass, orders: Orders, id: string, n: string)
    requires StuckAt(w, id, n) && FindsOnly(w, m, orders, id)
    requires cls.provider == PROVIDER_AWS && Decoded(cls).Ok? && cls.spec.value.srcAndDstChecksEnabled == Some(false)
    requires ClientAvailable(w)
    ensures var status := GetMachineStatus(w, m, cls, orders);
            status.response.Some? && status.error == Some(Uninitialized)
  {
    MatchMachineReads(w.Skip(1), m, Selected(orders.scan));
    var t := Target(w, m, cls, orders).value;
    assert t == Now(w, id);
    var i :| 0 <= i < |t.nics| && t.nics[i].id == n;
    assert CheckLeftOn(t.nics);
  }

  // --- One history that ends so -----------------------------------------------------------------------------------

  const TWO_NICS := [NicSpec(None, None, None), NicSpec(None, None, None)]
  const REFUSED_ONCE := [Accept, Accept, Accept, Accept, Accept, Accept, Accept, Accept, Refuse(OtherError)]

  /** EC2 will launch one instance with two interfaces and refuse the ninth call. */
  function OneRefusal(): World {
    var birth := Birth("i-1", None, Some("ip"), None, [BirthNic("e1", Some(true)), BirthNic("e2", Some(true))]);
    Samples.Empty(REFUSED_ONCE, [birth], 0, 0)
  }

  function CreateThenInitialize(): seq<Op> {
    var m, cls := Samples.Named("m"), Samples.Class(TWO_NICS);
    [Create(m, cls, Samples.ORDERS, 0), Initialize(m, cls, Samples.ORDERS)]
  }

  /** What the creation leaves, as far as the lookup is concerned. */
  ghost predicate OneLaunched(w: World, nics: seq<NicSpec>) {
    && NicsAcceptable(nics) && w.issued == ["i-1"] && w.pageSize == 0
    && "i-1" in w.vms && w.vms["i-1"].state == Pending
         && w.vms["i-1"].tags == LaunchTags(Samples.TAGS, Samples.KEYS, "m")
    && w.Outcome().Accept? && w.Skip(1).Outcome().Accept?
  }

  lemma OneMatches(w: World, nics: seq<NicSpec>)
    requires OneLaunched(w, nics)
    ensures Matching(w, MachineFilters("m", Selected(Samples.ORDERS.scan))) == ["i-1"]
  {
    var cls, filters := Samples.Class(nics), MachineFilters("m", Selected(Samples.ORDERS.scan));
    Samples.ClassIsValid(nics);
    assert BearsMarks(w.vms["i-1"], Launcher(cls, "m"));
    Marks.MarkedPasses(w.vms["i-1"], Launcher(cls, "m"), Samples.ORDERS);
    assert ["i-1"][..0] == [];
    assert Select(w.vms, [], filters) == [];
  }

  lemma OneIsTarget(w: World, nics: seq<NicSpec>)
    requires OneLaunched(w, nics)
    ensures Target(w, Samples.Named("m"), Samples.Class(nics), Samples.ORDERS) == Some(Now(w, "i-1"))
    ensures AfterLookup(w, Samples.Named("m"), Samples.ORDERS) == w.Skip(2)
  {
    var filters := MachineFilters("m", Selected(Samples.ORDERS.scan));
    Samples.ClassIsValid(nics);
    OneMatches(w, nics);
    OneIsFound(w.Skip(1), filters);
    assert ClientAvailable(w) && w.Skip(1).Skip(1) == w.Skip(2);
    assert MatchMachine(w.Skip(1), Samples.Named("m"), Selected(Samples.ORDERS.scan))
        == FetchAll(w.Skip(1), filters);
  }

  lemma OneIsFound(w: World, filters: seq<Filter>)
    requires w.pageSize == 0 && w.Outcome().Accept? && "i-1" in w.vms && Matching(w, filters) == ["i-1"]
    ensures FetchAll(w, filters) == Answer(w.Skip(1), Ok([Now(w, "i-1")]))
  {
    UnpagedLookup(w, filters);
    assert Found(w, filters) == [Now(w, "i-1")];
  }

  /** The attempt on the primary interface takes effect, the one on the other is refused. */
  lemma OneIsSplit(w: World)
    requires w.mirror && w.script == [Accept, Accept, Refuse(OtherError)]
    requires "i-1" in w.vms && w.vms["i-1"].nicIDs == ["e1", "e2"] && "e1" in w.nics && "e2" in w.nics
    requires w.nics["e1"] == Nic(Some(Attachment(Some(0))), Some(true), None, 0)
    requires w.nics["e2"] == Nic(Some(Attachment(Some(1))), Some(true), None, 0)
    ensures SplitOutcome(w, Now(w, "i-1"), "e2")
  {
    var t, w1 := Now(w, "i-1"), w.Skip(1);
    assert w1.script == [Accept, Refuse(OtherError)];
    assert t.nics == [NicView("e1", w.nics["e1"]), NicView("e2", w.nics["e2"])];
    TwoAttempts(t.nics);
    assert Hit(w1, ["e1", "e2"], "e1") by {
      assert ["e1", "e2"][0] == "e1" && OutcomeAt(w1.script, 0) == Accept;
    }
    assert "e1" in w.vms["i-1"].nicIDs;
    assert !Hit(w1, ["e1", "e2"], "e2");
  }

  lemma TwoAttempts(nics: seq<NicView>)
    requires |nics| == 2 && !IsEfa(nics[0].nic) && !IsEfa(nics[1].nic)
    ensures Attempts(nics) == [nics[0].id, nics[1].id]
  {
    assert nics[1..][1..] == [];
    assert Attempts(nics[1..]) == [nics[1].id] + Attempts(nics[1..][1..]);
  }

  lemma OneIsFresh()
    ensures Fresh(OneRefusal(), OneRefusal().births[0], LaunchNics(TWO_NICS))
  {
    var ids := BirthNicIDs(OneRefusal().births[0]);
    assert ids[0] == "e1" && ids[1] == "e2" && "e1"[1] != "e2"[1];
  }

  /** The world after the creation. */
  lemma OneCreated()
    ensures CreateMachine(OneRefusal(), Samples.Named("m"), Samples.Class(TWO_NICS), Samples.ORDERS, 0).w
         == Samples.Created(OneRefusal(), "m", TWO_NICS)
  {
    OneIsFresh();
    Samples.CreateAccepted(OneRefusal(), "m", TWO_NICS);
  }

  lemma OneIsAsNeeded()
    ensures var w := Samples.Created(OneRefusal(), "m", TWO_NICS);
            && OneLaunched(w, TWO_NICS) && w.mirror && w.Skip(2).script == [Accept, Accept, Refuse(OtherError)]
            && w.vms["i-1"].nicIDs == ["e1", "e2"] && w.vms["i-1"].sourceDestCheck == None
  {
    var w := Samples.Created(OneRefusal(), "m", TWO_NICS);
    assert w.script == REFUSED_ONCE[4..];
  }

  lemma OneHasItsNics()
    ensures var w := Samples.Created(OneRefusal(), "m", TWO_NICS);
            && "e1" in w.nics && w.nics["e1"] == Nic(Some(Attachment(Some(0))), Some(true), None, 0)
            && "e2" in w.nics && w.nics["e2"] == Nic(Some(Attachment(Some(1))), Some(true), None, 0)
  {
    OneIsFresh();
    FreshNics(OneRefusal(), OneRefusal().births[0], LaunchNics(TWO_NICS));
    var b := OneRefusal().births[0];
    assert b.nics[0].id == "e1" && b.nics[1].id == "e2";
  }

  /** An instance does end up so, from nothing, with one refused call. */
  lemma {:induction false} StuckHappens()
    ensures var ops := CreateThenInitialize();
            && Valid(OneRefusal()) && (forall i :: 0 <= i < |ops| ==> Legal(ops[i]))
            && StuckAt(Run(OneRefusal(), ops), "i-1", "e2")
  {
    var m, cls, ops := Samples.Named("m"), Samples.Class(TWO_NICS), CreateThenInitialize();
    Samples.ClassIsValid(TWO_NICS);
    RunOfTwo(OneRefusal(), ops[0], ops[1]);
    OneCreated();
    var w := Samples.Created(OneRefusal(), "m", TWO_NICS);
    assert Step(OneRefusal(), ops[0]) == w;
    OneEndsStuck();
  }

  lemma OneIsValid()
    ensures Valid(Samples.Created(OneRefusal(), "m", TWO_NICS))
  {
    var w := OneRefusal();
    Samples.ClassIsValid(TWO_NICS);
    OneIsFresh();
    LaunchStaysValid(w, Samples.Created(w, "m", TWO_NICS), "m", Samples.Spec(TWO_NICS), Samples.KEYS);
  }

  lemma {:induction false} OneEndsStuck()
    ensures var w := Samples.Created(OneRefusal(), "m", TWO_NICS);
            StuckAt(InitializeMachine(w, Samples.Named("m"), Samples.Class(TWO_NICS), Samples.ORDERS).w, "i-1", "e2")
  {
    var m, cls, w := Samples.Named("m"), Samples.Class(TWO_NICS), Samples.Created(OneRefusal(), "m", TWO_NICS);
    OneIsValid();
    OneIsAsNeeded();
    OneHasItsNics();
    OneIsTarget(w, TWO_NICS);
    OneIsSplit(w.Skip(2));
    assert Now(w.Skip(2), "i-1") == Now(w, "i-1");
    PartialFailureSticks(w, m, cls, Samples.ORDERS, "e2");
  }
}

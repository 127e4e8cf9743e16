/** The error code of each operation, case by case and in plain terms, and what is left undone in each case. */
module Answers {
  import opened Wrappers
  import opened Tags
  import opened Paging
  import opened BlockDevices
  import opened Ec2
  import opened DriverSpec
  import opened Effects
  import opened Launches
  import opened Deletion
  import opened Scopes

  // --- The request ----------------------------------------------------------------------------------------------

  /** Of a known type, and not at a negative device index. */
  predicate SoundNic(nic: NicSpec) {
    && (nic.interfaceType.None? || nic.interfaceType.value in ["", "interface", "efa", "efa-only"])
    && (nic.deviceIndex.None? || nic.deviceIndex.value >= 0)
  }

  /** What the validation demands of a spec; AcceptableIff says what is demanded of block devices. */
  ghost predicate Sound(spec: ProviderSpec) {
    && spec.othersValid && Acceptable(spec.blockDevices)
    && (exists k :: ClusterKeyOf(spec.tags, k)) && (exists k :: RoleKeyOf(spec.tags, k))
    && |spec.networkInterfaces| > 0
    && forall i :: 0 <= i < |spec.networkInterfaces| ==> SoundNic(spec.networkInterfaces[i])
  }

  lemma SoundIff(spec: ProviderSpec)
    ensures Validated(spec) <==> Sound(spec)
  {
    KeysMean(spec.tags);
    forall i | 0 <= i < |spec.networkInterfaces|
      ensures NicAcceptable(spec.networkInterfaces[i]) <==> SoundNic(spec.networkInterfaces[i])
    {
    }
    if HasClusterAndRole(spec.tags) {
      var k :| k in spec.tags && IsClusterKey(k);
      var l :| l in spec.tags && IsRoleKey(l);
      assert ClusterKeyOf(spec.tags, k) && RoleKeyOf(spec.tags, l);
    }
  }

  /** The code for a spec that is refused: it cannot be decoded, or it can and is not sound. */
  ghost predicate RefusedWith(cls: MachineClass, code: Code) {
    (cls.spec.None? && code == Internal) || (cls.spec.Some? && !Sound(cls.spec.value) && code == InvalidArgument)
  }

  lemma DecodedIff(cls: MachineClass)
    ensures Decoded(cls).Ok? <==> cls.spec.Some? && Sound(cls.spec.value)
    ensures Decoded(cls).Err? ==> RefusedWith(cls, Decoded(cls).code)
  {
    if cls.spec.Some? {
      SoundIff(cls.spec.value);
    }
  }

  /** All operations refuse such a spec, before any call to the API; those that look at the provider do so first. */
  lemma RefusedRequests(w: World, m: Machine, cls: MachineClass, orders: Orders, retries: nat, code: Code)
    requires OrdersOf(orders, cls) && RefusedWith(cls, code)
    ensures InitializeMachine(w, m, cls, orders) == Answer(w, Err(code))
    ensures cls.provider == "AWS" ==>
              && CreateMachine(w, m, cls, orders, retries) == Answer(w, Err(code))
              && GetMachineStatus(w, m, cls, orders) == StatusAnswer(w, None, Some(code))
              && DeleteMachine(w, m, cls, orders) == Answer(w, Err(code))
              && ListMachines(w, cls, orders) == Answer(w, Err(code))
  {
    DecodedIff(cls);
  }

  /** Another provider is refused at once, except by InitializeMachine, which does not look at it. */
  lemma OtherProviders(w: World, m: Machine, cls: MachineClass, orders: Orders, retries: nat)
    requires OrdersOf(orders, cls) && cls.provider != "AWS"
    ensures CreateMachine(w, m, cls, orders, retries) == Answer(w, Err(InvalidArgument))
    ensures GetMachineStatus(w, m, cls, orders) == StatusAnswer(w, None, Some(InvalidArgument))
    ensures DeleteMachine(w, m, cls, orders) == Answer(w, Err(InvalidArgument))
    ensures ListMachines(w, cls, orders) == Answer(w, Err(InvalidArgument))
    ensures InitializeMachine(w, m, cls, orders) == InitializeMachine(w, m, cls.(provider := "AWS"), orders)
  {
  }

  /** The code a creation gives to an error of the API. */
  predicate CodeOf(e: ApiError, code: Code) {
    code == if e == Exhausted then ResourceExhausted else Internal
  }

  predicate Failing(o: Outcome) {
    o.Refuse? || o.Lose?
  }

  /** Without a client there is no further call. */
  lemma NoClient(w: World, m: Machine, cls: MachineClass, orders: Orders, retries: nat)
    requires OrdersOf(orders, cls) && cls.provider == "AWS" && cls.spec.Some? && Sound(cls.spec.value)
    requires Failing(OutcomeAt(w.script, 0))
    ensures var r := CreateMachine(w, m, cls, orders, retries);
            r.result.Err? && CodeOf(OutcomeAt(w.script, 0).error, r.result.code) && r.w == w.Skip(1)
    ensures InitializeMachine(w, m, cls, orders) == Answer(w.Skip(1), Err(Uninitialized))
    ensures GetMachineStatus(w, m, cls, orders) == StatusAnswer(w.Skip(1), None, Some(Internal))
    ensures DeleteMachine(w, m, cls, orders) == Answer(w.Skip(1), Err(Internal))
    ensures ListMachines(w, cls, orders) == Answer(w.Skip(1), Err(Internal))
  {
    DecodedIff(cls);
    assert w.Outcome() == OutcomeAt(w.script, 0);
  }

  // --- Creation -------------------------------------------------------------------------------------------------

  /** The request is sound and there is a client. */
  ghost predicate GetsToImage(w: World, cls: MachineClass) {
    && cls.provider == "AWS" && cls.spec.Some? && Sound(cls.spec.value)
    && !Failing(OutcomeAt(w.script, 0))
  }

  /** The creation ends with this code, having launched and asked for nothing. */
  ghost predicate EndsBeforeLaunch(w: World, r: Answer<MachineResponse>, code: Code) {
    r.result == Err(code) && r.w.log == w.log && r.w.vms == w.vms && r.w.issued == w.issued
  }

  lemma CreateFromHere(w: World, m: Machine, cls: MachineClass, orders: Orders, retries: nat)
    requires OrdersOf(orders, cls) && GetsToImage(w, cls)
    ensures Decoded(cls).Ok?
    ensures CreateMachine(w, m, cls, orders, retries) == CreateFromImage(w.Skip(1), m, cls.spec.value, orders, retries)
    ensures w.Skip(1).Outcome() == OutcomeAt(w.script, 1) && w.Skip(1).Skip(1) == w.Skip(2)
    ensures w.Skip(2).Outcome() == OutcomeAt(w.script, 2)
  {
    DecodedIff(cls);
    SkipIsLater(w, 1, 1);
    assert w.Outcome() == OutcomeAt(w.script, 0);
  }

  /** The class's image is known and has a root name, and there are devices to compile. */
  predicate HasRootName(w: World, cls: MachineClass)
    requires cls.spec.Some?
  {
    && cls.spec.value.ami in w.images && w.images[cls.spec.value.ami].Some? && cls.spec.value.blockDevices != []
  }

  /** A failing image call, an unknown image, one without root name, or a placement annotation that does not decode. */
  lemma CreateWithoutImage(w: World, m: Machine, cls: MachineClass, orders: Orders, retries: nat)
    requires OrdersOf(orders, cls) && GetsToImage(w, cls)
    ensures var r, o, ami := CreateMachine(w, m, cls, orders, retries), OutcomeAt(w.script, 1), cls.spec.value.ami;
            && (Failing(o) ==> r.result.Err? && CodeOf(o.error, r.result.code) && EndsBeforeLaunch(w, r, r.result.code))
            && (o == Blank || (o == Accept && ami !in w.images) ==> EndsBeforeLaunch(w, r, NotFound))
            && (o == Accept && ami in w.images && (w.images[ami].None? || cls.spec.value.blockDevices == []) ==>
                  EndsBeforeLaunch(w, r, InvalidArgument))
            && (o == Accept && HasRootName(w, cls) && !cls.spec.value.placementSet && !m.placementDecodes ==>
                  EndsBeforeLaunch(w, r, Internal))
  {
    CreateFromHere(w, m, cls, orders, retries);
  }

  /** Image, root name and placement are there. */
  ghost predicate GetsToLaunch(w: World, m: Machine, cls: MachineClass) {
    && GetsToImage(w, cls) && OutcomeAt(w.script, 1) == Accept && HasRootName(w, cls)
    && (cls.spec.value.placementSet || m.placementDecodes)
  }

  lemma CreateIsLaunch(w: World, m: Machine, cls: MachineClass, orders: Orders, retries: nat)
    requires OrdersOf(orders, cls) && GetsToLaunch(w, m, cls)
    ensures Decoded(cls).Ok? && w.Skip(2).Outcome() == OutcomeAt(w.script, 2)
    ensures var spec := cls.spec.value;
            CreateMachine(w, m, cls, orders, retries)
              == Launch(w.Skip(2), m.name, spec, w.images[spec.ami].value, orders, retries)
  {
    CreateFromHere(w, m, cls, orders, retries);
    assert DescribeImages(w.Skip(1), cls.spec.value.ami) == Reply(w.Skip(2), Success([w.images[cls.spec.value.ami]]));
  }

  /** EC2 has an instance to give. */
  ghost predicate Able(w: World, nics: seq<NicSpec>) {
    w.births != [] && Fresh(w, w.births[0], LaunchNics(nics))
  }

  /** The launch call, answered with o, does not yield an instance id, and the creation ends accordingly. */
  ghost predicate LaunchCode(o: Outcome, able: bool, result: Result<MachineResponse>) {
    && (o.Refuse? || (o.Lose? && able) ==> result.Err? && CodeOf(o.error, result.code))
    && (!o.Refuse? && !able ==> result == Err(ResourceExhausted))
    && (o == Blank && able ==> result == Err(Internal))
  }

  lemma LaunchWithoutAnswer(w: World, name: string, spec: ProviderSpec, root: string, orders: Orders, retries: nat)
    requires forall k :: k in orders.instance || k in orders.volume || k in orders.networkInterface ==> k in spec.tags
    ensures var r := Launch(w, name, spec, root, orders, retries);
            LaunchCode(w.Outcome(), Able(w, spec.networkInterfaces), r.result)
  {
  }

  lemma AbleLater(w: World, w': World, nics: seq<NicSpec>)
    requires OnlyRead(w, w')
    ensures Able(w', nics) <==> Able(w, nics)
  {
  }

  /** Then one launch is requested. Its error, missing capacity or a blank answer end the creation. */
  lemma CreateWithoutLaunch(w: World, m: Machine, cls: MachineClass, orders: Orders, retries: nat)
    requires OrdersOf(orders, cls) && GetsToLaunch(w, m, cls)
    ensures var r := CreateMachine(w, m, cls, orders, retries);
            && LaunchCode(OutcomeAt(w.script, 2), Able(w, cls.spec.value.networkInterfaces), r.result)
            && exists q :: r.w.log == w.log + [RunCall(q)]
  {
    CreateIsLaunch(w, m, cls, orders, retries);
    var spec, root := cls.spec.value, w.images[cls.spec.value.ami].value;
    LaunchWithoutAnswer(w.Skip(2), m.name, spec, root, orders, retries);
    LaunchSendsRequest(w.Skip(2), m.name, spec, root, orders, retries);
    AbleLater(w, w.Skip(2), spec.networkInterfaces);
  }

  /** An instance that shows no node name, as none was reported either, fails the creation. */
  lemma CreateWithoutName(w: World, m: Machine, cls: MachineClass, orders: Orders, retries: nat)
    requires OrdersOf(orders, cls) && GetsToLaunch(w, m, cls) && OutcomeAt(w.script, 2) == Accept
    requires Able(w, cls.spec.value.networkInterfaces)
    requires w.births[0].dns.GetOr(w.births[0].reported.GetOr("")) == ""
    ensures CreateMachine(w, m, cls, orders, retries).result == Err(Internal)
  {
    CreateIsLaunch(w, m, cls, orders, retries);
    var spec, root, w2 := cls.spec.value, w.images[cls.spec.value.ami].value, w.Skip(2);
    LaunchIsAwait(w2, m.name, spec, root, orders, retries);
    AwaitReads(RunInstances(w2, LaunchRequestOf(m.name, spec, root, orders)).w, w.births[0].id, retries);
  }

  // --- Lookups --------------------------------------------------------------------------------------------------

  /** The request is sound, and the lookup by tags fails on some page. */
  ghost predicate LookupFails(w: World, cls: MachineClass, filters: seq<Filter>) {
    && cls.provider == "AWS" && cls.spec.Some? && Sound(cls.spec.value) && !Failing(OutcomeAt(w.script, 0))
    && exists j: nat :: j < PageCount(Reached(w, filters), w.pageSize) && !Answered(w.script, 1, j)
  }

  lemma {:induction false} AcceptedCallsIff(script: seq<Outcome>, n: nat)
    ensures AcceptedCalls(script, n) == n <==> forall j: nat :: j < n ==> Answered(script, 0, j)
  {
    if n > 0 && script != [] {
      AcceptedCallsIff(script[1..], n - 1);
      forall j: nat ensures Answered(script[1..], 0, j) <==> Answered(script, 0, j + 1) {
      }
      if forall j: nat :: j < n - 1 ==> Answered(script[1..], 0, j) {
        forall j: nat | 0 < j < n ensures Answered(script, 0, j) {
          assert Answered(script[1..], 0, j - 1);
        }
      }
      if AcceptedCalls(script, n) != n && Answered(script, 0, 0) {
        var j: nat :| j < n - 1 && !Answered(script[1..], 0, j);
        assert !Answered(script, 0, j + 1);
      }
    }
  }

  /** A lookup succeeds exactly when each of its page calls is accepted, and fails with Internal otherwise. */
  lemma LookupSucceedsIff(w: World, filters: seq<Filter>)
    ensures FetchAll(w, filters).result.Ok? <==>
              forall j: nat :: j < PageCount(Reached(w, filters), w.pageSize) ==> Answered(w.script, 0, j)
    ensures FetchAll(w, filters).result.Err? ==> FetchAll(w, filters).result == Err(Internal)
  {
    AcceptedCallsIff(w.script, PageCount(Reached(w, filters), w.pageSize));
  }

  /** A page that fails makes every operation that looks up by tags answer Internal, having changed nothing. */
  lemma FailedPages(w: World, m: Machine, cls: MachineClass, orders: Orders)
    requires LookupFails(w, cls, FiltersOf(m, orders))
    ensures InitializeMachine(w, m, cls, orders).result == Err(Internal)
    ensures OnlyRead(w, InitializeMachine(w, m, cls, orders).w)
    ensures var status := GetMachineStatus(w, m, cls, orders); status.response == None && status.error == Some(Internal)
    ensures m.providerID == "" ==>
              && DeleteMachine(w, m, cls, orders).result == Err(Internal)
              && OnlyRead(w, DeleteMachine(w, m, cls, orders).w)
  {
    FailedLookup(w, cls, FiltersOf(m, orders));
  }

  lemma FailedLists(w: World, cls: MachineClass, orders: Orders)
    requires LookupFails(w, cls, ListFilters(Selected(orders.scan)))
    ensures ListMachines(w, cls, orders).result == Err(Internal) && OnlyRead(w, ListMachines(w, cls, orders).w)
  {
    FailedLookup(w, cls, ListFilters(Selected(orders.scan)));
  }

  lemma FailedLookup(w: World, cls: MachineClass, filters: seq<Filter>)
    requires LookupFails(w, cls, filters)
    ensures Decoded(cls).Ok? && ClientAvailable(w)
    ensures FetchAll(w.Skip(1), filters).result == Err(Internal) && OnlyRead(w, FetchAll(w.Skip(1), filters).w)
  {
    DecodedIff(cls);
    assert w.Outcome() == OutcomeAt(w.script, 0);
    SkipIsLater(w, 1, 0);
    var j: nat :| j < PageCount(Reached(w, filters), w.pageSize) && !Answered(w.script, 1, j);
    assert Reached(w.Skip(1), filters) == Reached(w, filters);
    assert !Answered(w.Skip(1).script, 0, j) by {
      assert OutcomeAt(w.Skip(1).script, j) == OutcomeAt(w.script, 1 + j);
    }
    LookupSucceedsIff(w.Skip(1), filters);
  }

  /** The lookup by tags succeeds and finds nothing. */
  ghost predicate NothingByTags(w: World, m: Machine, cls: MachineClass, orders: Orders) {
    && cls.provider == "AWS" && cls.spec.Some? && Sound(cls.spec.value) && !Failing(OutcomeAt(w.script, 0))
    && FetchAll(w.Skip(1), FiltersOf(m, orders)).result == Ok([])
  }

  /** The code of the lookup by provider id, given the describe call's outcome; none if it finds the instance. */
  ghost predicate FallbackCode(w: World, m: Machine, o: Outcome, code: Option<Code>) {
    if m.providerID == "" then code == Some(NotFound)
    else if '/' !in m.providerID then code == Some(InvalidArgument)
    else
      match o
      case Accept => code == if ProviderId.Decode(m.providerID).Ok? && ProviderId.Decode(m.providerID).value.1 in w.vms
                             then None else Some(NotFound)
      case Blank => code == Some(NotFound)
      case Refuse(e) => code == Some(if e == InstanceIdNotFound then NotFound else Internal)
      case Lose(e) => code == Some(if e == InstanceIdNotFound then NotFound else Internal)
  }

  /**
   * With nothing found by tags, a machine without provider id is not found, a provider id without slash is
   * invalid, and otherwise the describe call decides: not found when it says so, shows nothing, or EC2 does
   * not know the id, and Internal on any other error. InitializeMachine answers Uninitialized for not found.
   */
  lemma FallbackAnswers(w: World, m: Machine, cls: MachineClass, orders: Orders) returns (code: Option<Code>)
    requires NothingByTags(w, m, cls, orders)
    ensures FallbackCode(w, m, FetchAll(w.Skip(1), FiltersOf(m, orders)).w.Outcome(), code)
    ensures code.Some? ==>
              && GetMachineStatus(w, m, cls, orders).response == None
              && GetMachineStatus(w, m, cls, orders).error == code
              && InitializeMachine(w, m, cls, orders).result
                   == Err(if code.value == NotFound then Uninitialized else code.value)
    ensures code.None? ==> GetMachineStatus(w, m, cls, orders).response.Some?
  {
    DecodedIff(cls);
    assert w.Outcome() == OutcomeAt(w.script, 0);
    FetchAllReads(w.Skip(1), FiltersOf(m, orders));
    var _ := ProviderId.DecodeShape(m.providerID);
    var matched := MatchMachine(w.Skip(1), m, Selected(orders.scan));
    code := if matched.result.Ok? then None else Some(matched.result.code);
  }
}

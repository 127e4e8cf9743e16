/** What the operations of the driver change in the world, and what they leave alone. */
module Effects {
  import opened Wrappers
  import opened Tags
  import opened Paging
  import opened Ec2
  import opened DriverSpec
  import ProviderId

  /** The call only read. */
  ghost predicate OnlyRead(w: World, w': World) {
    w' == w.(script := w'.script)
  }

  /** Neither instances nor interfaces come or go; identities stay and prefix counts do not fall. */
  ghost predicate Kept(w: World, w': World) {
    && w' == w.(vms := w'.vms, nics := w'.nics, script := w'.script, log := w'.log)
    && w'.vms.Keys == w.vms.Keys
    && (forall id :: id in w.vms ==> SameIdentity(w.vms[id], w'.vms[id]))
    && w'.nics.Keys == w.nics.Keys
    && forall n :: n in w.nics ==> SameNic(w.nics[n], w'.nics[n])
  }

  ghost predicate SameIdentity(vm: Vm, vm': Vm) {
    vm'.dns == vm.dns && vm'.tags == vm.tags && vm'.nicIDs == vm.nicIDs
  }

  ghost predicate SameNic(nic: Nic, nic': Nic) {
    nic'.attachment == nic.attachment && nic'.interfaceType == nic.interfaceType && nic.prefixes <= nic'.prefixes
  }

  /** In addition no instance changes its state. */
  ghost predicate Settled(w: World, w': World) {
    Kept(w, w') && forall id :: id in w.vms ==> w'.vms[id].state == w.vms[id].state
  }

  // --- Reading --------------------------------------------------------------------------------------------

  lemma {:induction false} SelectMembers(vms: map<string, Vm>, ids: seq<string>, filters: seq<Filter>)
    ensures forall id :: id in Select(vms, ids, filters) <==> id in ids && id in vms && Passes(vms[id], filters)
    ensures NoDuplicates(ids) ==> NoDuplicates(Select(vms, ids, filters))
  {
    if ids != [] {
      var front, last := ids[..|ids| - 1], ids[|ids| - 1];
      SelectMembers(vms, front, filters);
      assert ids == front + [last];
    }
  }

  /** Selections agree when they agree on each id. */
  lemma {:induction false} SelectAgrees(vms1: map<string, Vm>, vms2: map<string, Vm>, ids: seq<string>,
                                        f1: seq<Filter>, f2: seq<Filter>)
    requires forall id :: id in ids ==> (id in vms1 && Passes(vms1[id], f1) <==> id in vms2 && Passes(vms2[id], f2))
    ensures Select(vms1, ids, f1) == Select(vms2, ids, f2)
  {
    if ids != [] {
      SelectAgrees(vms1, vms2, ids[..|ids| - 1], f1, f2);
    }
  }

  /** A lookup only reads; when it succeeds, it shows the instances that match as far as it reaches. */
  lemma FetchAllReads(w: World, filters: seq<Filter>)
    ensures OnlyRead(w, FetchAll(w, filters).w)
    ensures FetchAll(w, filters).result.Err? ==> FetchAll(w, filters).result.code == Internal
    ensures FetchAll(w, filters).result.Ok? ==>
              FetchAll(w, filters).result.value == Found(w, filters)[..Reached(w, filters)]
  {
  }

  lemma {:induction false} AllAreAccepted(script: seq<Outcome>, n: nat)
    requires AllAccept(script)
    ensures AcceptedCalls(script, n) == n
  {
    if n > 0 && script != [] {
      AllAreAccepted(script[1..], n - 1);
    }
  }

  /** A lookup whose calls are all accepted succeeds. */
  lemma AcceptedLookup(w: World, filters: seq<Filter>)
    requires Accepting(w)
    ensures FetchAll(w, filters).result.Ok? && Accepting(FetchAll(w, filters).w)
  {
    AllAreAccepted(w.script, PageCount(Reached(w, filters), w.pageSize));
  }

  /** Unpaged, one accepted call answers the lookup. */
  lemma UnpagedLookup(w: World, filters: seq<Filter>)
    requires w.pageSize <= 0 && w.Outcome().Accept?
    ensures FetchAll(w, filters) == Answer(w.Skip(1), Ok(Found(w, filters)))
  {
    assert AcceptedCalls(w.script, 1) == 1;
    assert Found(w, filters)[..|Found(w, filters)|] == Found(w, filters);
  }

  ghost predicate Shows(w: World, t: Instance) {
    t.id in w.vms && t == InstanceOf(t.id, w.vms[t.id], w.nics)
  }

  lemma FoundShows(w: World, filters: seq<Filter>)
    ensures forall i :: 0 <= i < |Found(w, filters)| ==> Shows(w, Found(w, filters)[i])
  {
    SelectMembers(w.vms, w.issued, filters);
    forall i | 0 <= i < |Found(w, filters)| ensures Shows(w, Found(w, filters)[i]) {
      assert Matching(w, filters)[i] in Matching(w, filters);
    }
  }

  lemma MatchMachineReads(w: World, m: Machine, s: Selection)
    ensures OnlyRead(w, MatchMachine(w, m, s).w)
    ensures MatchMachine(w, m, s).result.Ok? ==>
              forall i :: 0 <= i < |MatchMachine(w, m, s).result.value| ==>
                Shows(w, MatchMachine(w, m, s).result.value[i])
  {
    FetchAllReads(w, MachineFilters(m.name, s));
    FoundShows(w, MachineFilters(m.name, s));
  }

  lemma {:induction false} AwaitReads(w: World, id: string, retries: nat)
    ensures OnlyRead(w, Await(w, id, retries).w)
    ensures Await(w, id, retries).result.Ok? ==>
              Shows(w, Await(w, id, retries).result.value) && Await(w, id, retries).result.value.id == id
    decreases retries
  {
    if retries > 0 {
      AwaitReads(DescribeByID(w, id).w, id, retries - 1);
    }
  }

  // --- Changing -------------------------------------------------------------------------------------------

  lemma SettledTransitive(a: World, b: World, c: World)
    requires Settled(a, b) && Settled(b, c)
    ensures Settled(a, c)
  {
  }

  lemma DisableCheckSettles(w: World, nicID: string)
    ensures Settled(w, DisableCheck(w, nicID).w)
  {
    var w' := DisableCheck(w, nicID).w;
    assert w' == w.(vms := w'.vms, nics := w'.nics, script := w'.script, log := w'.log);
    assert w'.vms == w.vms || w'.vms == MirrorOff(w.vms, nicID);
    assert w'.nics == w.nics || w'.nics == w.nics[nicID := w.nics[nicID].(sourceDestCheck := Some(false))];
  }

  lemma AssignPrefixesSettles(w: World, nicID: string, count: int32)
    ensures Settled(w, AssignPrefixes(w, nicID, count).w)
    ensures AssignPrefixes(w, nicID, count).w.vms == w.vms
  {
    var w' := AssignPrefixes(w, nicID, count).w;
    assert w' == w.(nics := w'.nics, script := w'.script, log := w'.log);
  }

  lemma {:induction false} DisableAllSettles(w: World, nics: seq<NicView>)
    ensures Settled(w, DisableAll(w, nics).w)
    decreases |nics|
  {
    if nics != [] {
      if IsEfa(nics[0].nic) {
        DisableAllSettles(w, nics[1..]);
      } else {
        var r := DisableCheck(w, nics[0].id);
        DisableCheckSettles(w, nics[0].id);
        DisableAllSettles(r.w, nics[1..]);
        SettledTransitive(w, r.w, DisableAll(r.w, nics[1..]).w);
      }
    }
  }

  lemma {:induction false} AssignAllSettles(w: World, specs: seq<NicSpec>, nics: seq<NicView>)
    ensures Settled(w, AssignAll(w, specs, nics).w)
    ensures AssignAll(w, specs, nics).w.vms == w.vms
    decreases |nics|
  {
    if nics != [] {
      match Unmet(specs, nics[0].nic)
      case None => AssignAllSettles(w, specs, nics[1..]);
      case Some(wanted) =>
        var r := AssignPrefixes(w, nics[0].id, Request(wanted, nics[0]));
        AssignPrefixesSettles(w, nics[0].id, Request(wanted, nics[0]));
        if r.result.Success? {
          AssignAllSettles(r.w, specs, nics[1..]);
          SettledTransitive(w, r.w, AssignAll(r.w, specs, nics[1..]).w);
        }
    }
  }

  lemma DisableSettles(w: World, instanceID: string)
    ensures Settled(w, DisableSrcAndDestCheck(w, instanceID).w)
  {
    var d := DescribeByID(w, instanceID);
    assert OnlyRead(w, d.w);
    if d.result.Success? && d.result.value != [] {
      DisableAllSettles(d.w, d.result.value[0].nics);
    }
  }

  lemma InitializeInstanceSettles(w: World, spec: ProviderSpec, t: Instance)
    ensures Settled(w, InitializeInstance(w, spec, t).w)
  {
    DisableSettles(w, t.id);
    var disabled := if ChecksToDisable(spec, t) then DisableSrcAndDestCheck(w, t.id) else Attempt(w, true);
    AssignAllSettles(disabled.w, spec.networkInterfaces, t.nics);
    SettledTransitive(w, disabled.w, AssignAll(disabled.w, spec.networkInterfaces, t.nics).w);
  }

  lemma {:induction false} InitializeSettles(w: World, m: Machine, cls: MachineClass, orders: Orders)
    ensures Settled(w, InitializeMachine(w, m, cls, orders).w)
  {
    if Decoded(cls).Ok? && ClientAvailable(w) {
      var matched := MatchMachine(w.Skip(1), m, Selected(orders.scan));
      MatchMachineReads(w.Skip(1), m, Selected(orders.scan));
      if matched.result.Ok? {
        InitializeInstanceSettles(matched.w, cls.spec.value, matched.result.value[0]);
      }
    }
  }

  lemma {:induction false} StatusReads(w: World, m: Machine, cls: MachineClass, orders: Orders)
    ensures OnlyRead(w, GetMachineStatus(w, m, cls, orders).w)
  {
    MatchMachineReads(w.Skip(1), m, Selected(orders.scan));
  }

  lemma ListReads(w: World, cls: MachineClass, orders: Orders)
    ensures OnlyRead(w, ListMachines(w, cls, orders).w)
  {
    FetchAllReads(w.Skip(1), ListFilters(Selected(orders.scan)));
  }

  /** Terminating touches the named instances only, and only to shut them down. */
  ghost predicate ShutDownAmong(w: World, w': World, ids: seq<string>) {
    && Kept(w, w') && w'.nics == w.nics
    && forall id :: id in w.vms ==> w'.vms[id] == w.vms[id] || (id in ids && w'.vms[id] == ShutDown(w.vms[id]))
  }

  lemma {:induction false} TerminateEffect(w: World, id: string)
    ensures ShutDownAmong(w, TerminateInstance(w, id).w, [id])
  {
    var w' := TerminateInstance(w, id).w;
    assert w' == w.(vms := w'.vms, script := w'.script, log := w'.log);
    assert w'.vms == w.vms || (id in w.vms && w'.vms == w.vms[id := ShutDown(w.vms[id])]);
  }

  lemma ShutDownTransitive(a: World, b: World, c: World, x: seq<string>, y: seq<string>, ids: seq<string>)
    requires ShutDownAmong(a, b, x) && ShutDownAmong(b, c, y)
    requires forall id :: id in x || id in y ==> id in ids
    ensures ShutDownAmong(a, c, ids)
  {
  }

  lemma {:induction false} TerminateAllEffect(w: World, ids: seq<string>)
    ensures ShutDownAmong(w, TerminateAll(w, ids).w, ids)
    decreases |ids|
  {
    if ids != [] {
      var r := TerminateInstance(w, ids[0]);
      TerminateEffect(w, ids[0]);
      if r.ok {
        TerminateAllEffect(r.w, ids[1..]);
        ShutDownTransitive(w, r.w, TerminateAll(r.w, ids[1..]).w, [ids[0]], ids[1..], ids);
      }
    }
  }

  /** The ids of the matching instances that a lookup reaches. */
  function ReachedIDs(w: World, filters: seq<Filter>): (ids: seq<string>)
    ensures |ids| == Reached(w, filters)
  {
    Matching(w, filters)[..Reached(w, filters)]
  }

  /** The ids a DeleteMachine call may terminate. */
  ghost function Targets(w: World, m: Machine, orders: Orders): seq<string> {
    if m.providerID != "" then
      match ProviderId.Decode(m.providerID)
      case Err(_) => []
      case Ok((_, id)) => [id]
    else ReachedIDs(w, MachineFilters(m.name, Selected(orders.scan)))
  }

  lemma {:induction false} DeleteEffect(w: World, m: Machine, cls: MachineClass, orders: Orders)
    ensures ShutDownAmong(w, DeleteMachine(w, m, cls, orders).w, Targets(w, m, orders))
  {
    if cls.provider == PROVIDER_AWS && Decoded(cls).Ok? && ClientAvailable(w) {
      if m.providerID != "" {
        var decoded := ProviderId.Decode(m.providerID);
        if decoded.Ok? {
          TerminateEffect(w.Skip(1), decoded.value.1);
        }
      } else {
        DeleteFoundEffect(w, MachineFilters(m.name, Selected(orders.scan)));
      }
    }
  }

  /** The instances a successful lookup names are the matching instances it reaches. */
  lemma FetchedIDs(w: World, filters: seq<Filter>)
    requires FetchAll(w, filters).result.Ok?
    ensures IDs(FetchAll(w, filters).result.value) == ReachedIDs(w, filters)
  {
  }

  lemma DeleteFoundEffect(w: World, filters: seq<Filter>)
    ensures var found := FetchAll(w.Skip(1), filters);
            found.result.Ok? ==>
              ShutDownAmong(w, TerminateAll(found.w, IDs(found.result.value)).w, ReachedIDs(w, filters))
  {
    var found := FetchAll(w.Skip(1), filters);
    if found.result.Ok? {
      FetchAllReads(w.Skip(1), filters);
      FetchedIDs(w.Skip(1), filters);
      TerminateAllEffect(found.w, IDs(found.result.value));
    }
  }

  // --- Launching ------------------------------------------------------------------------------------------

  /** w' is w after the launch of w's next birth for this machine. */
  ghost predicate LaunchedFor(w: World, w': World, name: string, spec: ProviderSpec, order: seq<string>)
    requires forall k :: k in order ==> k in spec.tags
  {
    && w.births != []
    && var b := w.births[0];
       && Fresh(w, b, LaunchNics(spec.networkInterfaces))
       && w' == Birthed(w, b, LaunchTags(spec.tags, order, name), LaunchNics(spec.networkInterfaces))
                .(script := w'.script, births := w'.births, log := w'.log)
  }

  /** Instances and interfaces are as before. */
  ghost predicate NothingLaunched(w: World, w': World) {
    w' == w.(script := w'.script, births := w'.births, log := w'.log)
  }

  lemma LaunchAfterRead(w: World, w1: World, w': World, name: string, spec: ProviderSpec, order: seq<string>)
    requires OnlyRead(w, w1) && forall k :: k in order ==> k in spec.tags
    ensures NothingLaunched(w1, w') ==> NothingLaunched(w, w')
    ensures LaunchedFor(w1, w', name, spec, order) ==> LaunchedFor(w, w', name, spec, order)
  {
  }

  /** What RunInstances leaves of the world, and what it reports. */
  lemma RunEffect(w: World, name: string, spec: ProviderSpec, root: string, orders: Orders)
    requires forall k :: k in orders.instance || k in orders.volume || k in orders.networkInterface ==> k in spec.tags
    ensures var run := RunInstances(w, LaunchRequestOf(name, spec, root, orders));
            && ((run.result.Failure? && NothingLaunched(w, run.w))
                 || LaunchedFor(w, run.w, name, spec, orders.instance))
            && (run.result.Success? && FirstWithID(run.result.value).id.GetOr("") != "" ==>
                  FirstWithID(run.result.value) == Launched(Some(w.births[0].id), w.births[0].reported))
  {
  }

  lemma LaunchEffect(w: World, name: string, spec: ProviderSpec, root: string, orders: Orders, retries: nat)
    requires forall k :: k in orders.instance || k in orders.volume || k in orders.networkInterface ==> k in spec.tags
    ensures var r := Launch(w, name, spec, root, orders, retries);
            && ((r.result.Err? && NothingLaunched(w, r.w)) || LaunchedFor(w, r.w, name, spec, orders.instance))
            && (r.result.Ok? ==>
                  && r.result.value.providerID == ProviderId.Encode(spec.region, w.births[0].id)
                  && r.result.value.nodeName == NodeName(w.births[0]) && r.result.value.nodeName != "")
  {
    RunEffect(w, name, spec, root, orders);
    var run := RunInstances(w, LaunchRequestOf(name, spec, root, orders));
    if run.result.Success? {
      AwaitReads(run.w, FirstWithID(run.result.value).id.GetOr(""), retries);
    }
  }

  lemma {:induction false} CreateFromImageEffect(w: World, m: Machine, spec: ProviderSpec, orders: Orders, retries: nat)
    requires forall k :: k in orders.instance || k in orders.volume || k in orders.networkInterface ==> k in spec.tags
    ensures var r := CreateFromImage(w, m, spec, orders, retries);
            && ((r.result.Err? && NothingLaunched(w, r.w)) || LaunchedFor(w, r.w, m.name, spec, orders.instance))
            && (r.result.Ok? ==>
                  && r.result.value.providerID == ProviderId.Encode(spec.region, w.births[0].id)
                  && r.result.value.nodeName == NodeName(w.births[0]) && r.result.value.nodeName != "")
  {
    var images := DescribeImages(w, spec.ami);
    assert OnlyRead(w, images.w);
    if images.result.Success? && images.result.value != [] && images.result.value[0].Some? {
      var root := images.result.value[0].value;
      LaunchEffect(images.w, m.name, spec, root, orders, retries);
      LaunchAfterRead(w, images.w, Launch(images.w, m.name, spec, root, orders, retries).w, m.name, spec,
        orders.instance);
    }
  }

  /**
   * A creation launches nothing and fails, or launches exactly one instance, whether or not it then
   * succeeds. Success reports the provider id and the node name of that instance.
   */
  lemma {:induction false} CreateEffect(w: World, m: Machine, cls: MachineClass, orders: Orders, retries: nat)
    requires OrdersOf(orders, cls)
    ensures var r := CreateMachine(w, m, cls, orders, retries);
            && ((r.result.Err? && NothingLaunched(w, r.w))
                || (Decoded(cls).Ok? && LaunchedFor(w, r.w, m.name, cls.spec.value, orders.instance)))
            && (r.result.Ok? ==>
                  && r.result.value.providerID == ProviderId.Encode(cls.spec.value.region, w.births[0].id)
                  && r.result.value.nodeName == NodeName(w.births[0]) && r.result.value.nodeName != "")
  {
    if cls.provider == PROVIDER_AWS && Decoded(cls).Ok? && ClientAvailable(w) {
      var spec := cls.spec.value;
      assert OnlyRead(w, w.Skip(1));
      CreateFromImageEffect(w.Skip(1), m, spec, orders, retries);
      LaunchAfterRead(w, w.Skip(1), CreateFromImage(w.Skip(1), m, spec, orders, retries).w, m.name, spec,
        orders.instance);
    }
  }

  // --- Consistency ----------------------------------------------------------------------------------------

  lemma KeptStaysValid(w: World, w': World)
    requires Valid(w) && Kept(w, w')
    ensures Valid(w')
  {
  }

  lemma {:induction false} NewNicsContents(born: seq<BirthNic>, nics: seq<LaunchNic>)
    requires |born| == |nics|
    requires forall i, j :: 0 <= i < j < |born| ==> born[i].id != born[j].id
    ensures forall n :: n in NewNics(born, nics) <==> exists i :: 0 <= i < |born| && born[i].id == n
    ensures forall i :: 0 <= i < |born| ==>
              && born[i].id in NewNics(born, nics)
              && NewNics(born, nics)[born[i].id]
                 == Nic(Some(Attachment(Some(nics[i].deviceIndex))), born[i].sourceDestCheck, nics[i].interfaceType, 0)
  {
    if born != [] {
      NewNicsContents(born[..|born| - 1], nics[..|born| - 1]);
    }
  }

  lemma FreshNics(w: World, b: Birth, nics: seq<LaunchNic>)
    requires Fresh(w, b, nics)
    ensures forall i, j :: 0 <= i < j < |b.nics| ==> b.nics[i].id != b.nics[j].id
    ensures forall n :: n in NewNics(b.nics, nics) <==> n in BirthNicIDs(b)
    ensures forall n :: n in NewNics(b.nics, nics) ==> n !in w.nics
    ensures forall i :: 0 <= i < |b.nics| ==>
              && b.nics[i].id in NewNics(b.nics, nics)
              && NewNics(b.nics, nics)[b.nics[i].id]
                 == Nic(Some(Attachment(Some(nics[i].deviceIndex))), b.nics[i].sourceDestCheck,
                   nics[i].interfaceType, 0)
  {
    var ids := BirthNicIDs(b);
    assert forall i, j :: 0 <= i < j < |ids| ==> ids[i] != ids[j];
    forall i, j | 0 <= i < j < |b.nics| ensures b.nics[i].id != b.nics[j].id {
      assert ids[i] != ids[j];
    }
    NewNicsContents(b.nics, nics);
    forall n | n in ids ensures n in NewNics(b.nics, nics) {
      var i :| 0 <= i < |ids| && ids[i] == n;
      assert b.nics[i].id == n;
    }
    forall n | n in NewNics(b.nics, nics) ensures n in ids && n !in w.nics {
      var i :| 0 <= i < |b.nics| && b.nics[i].id == n;
      assert ids[i] == n;
    }
  }

  lemma LaunchStaysValid(w: World, w': World, name: string, spec: ProviderSpec, order: seq<string>)
    requires Valid(w) && IsOrder(order, spec.tags) && LaunchedFor(w, w', name, spec, order)
    ensures Valid(w')
  {
    var b, nics := w.births[0], LaunchNics(spec.networkInterfaces);
    FreshNics(w, b, nics);
    LaunchTagsContents(spec.tags, order, name);
    var vm := w'.vms[b.id];
    assert ValidVm(vm, w'.nics);
    forall id | id in w'.vms && id != b.id ensures w'.vms[id] == w.vms[id] && ValidVm(w'.vms[id], w'.nics) {
    }
    forall id, n | id in w.vms && n in w.vms[id].nicIDs ensures n !in vm.nicIDs {
      assert n in w.nics;
    }
  }
}

/** The driver (core.go, core_util.go) as it runs: loops and API calls on a client. */
module Drivers {
  import opened Wrappers
  import opened Tags
  import opened BlockDevices
  import opened Paging
  import opened Ec2
  import opened DriverSpec
  import opened Paginators
  import ProviderId

  class Driver {
    const ec2: Client

    constructor (ec2: Client)
      ensures this.ec2 == ec2
    {
      this.ec2 := ec2;
    }

    method DecodeProviderSpecAndSecret(cls: MachineClass, orders: Orders) returns (r: Result<ProviderSpec>)
      requires OrdersOf(orders, cls)
      ensures r == Decoded(cls)
    {
      if cls.spec.None? {
        return Err(Internal);
      }
      var spec := cls.spec.value;
      var tagErrs := ValidateSpecTags(spec.tags, orders.validation);
      var deviceErrs := ValidateBlockDevices(spec.blockDevices);
      var nicsOk := ValidateNetworkInterfaces(spec.networkInterfaces);
      if !spec.othersValid || |tagErrs| > 0 || |deviceErrs| > 0 || !nicsOk {
        return Err(InvalidArgument);
      }
      r := Ok(spec);
    }

    method ValidateNetworkInterfaces(nics: seq<NicSpec>) returns (ok: bool)
      ensures ok == NicsAcceptable(nics)
      ensures ok <==>
                && nics != []
                && forall nic :: nic in nics ==>
                     && (nic.interfaceType.None? || nic.interfaceType.value in ["", "interface", "efa", "efa-only"])
                     && (nic.deviceIndex.None? || nic.deviceIndex.value >= 0)
    {
      if |nics| == 0 {
        return false;
      }
      ok := true;
      for i := 0 to |nics|
        invariant ok <==> forall j :: 0 <= j < i ==> NicAcceptable(nics[j])
      {
        var netIf := nics[i];
        if netIf.interfaceType.Some? && netIf.interfaceType.value !in VALID_INTERFACE_TYPES {
          ok := false;
        }
        if netIf.deviceIndex.Some? && netIf.deviceIndex.value < 0 {
          ok := false;
        }
      }
    }

    method CreateClient() returns (error: Option<ApiError>)
      modifies ec2
      ensures error.None? <==> ClientAvailable(old(ec2.View()))
      ensures error.Some? ==> error.value == old(ec2.View()).Outcome().error
      ensures ec2.View() == old(ec2.View()).Skip(1)
    {
      var o := ec2.NextOutcome();
      error := if o.Accept? || o.Blank? then None else Some(o.error);
    }

    method GetMatchingInstancesForMachine(m: Machine, s: Selection) returns (r: Result<seq<Instance>>)
      modifies ec2
      ensures Answer(ec2.View(), r) == MatchMachine(old(ec2.View()), m, s)
    {
      var pages;
      r, pages := GetInstances(ec2, MachineFilters(m.name, s));
      if r.Err? || |r.value| != 0 {
        return;
      }
      if m.providerID == "" {
        return Err(NotFound);
      }
      var decoded := ProviderId.Decode(m.providerID);
      if decoded.Err? {
        return Err(InvalidArgument);
      }
      var run := ec2.DescribeInstanceByID(decoded.value.1);
      if run.Failure? {
        return Err(if run.error.InstanceIdNotFound? then NotFound else Internal);
      }
      if |run.value| == 0 {
        return Err(NotFound);
      }
      r := Ok(run.value);
    }

    // --- CreateMachine ----------------------------------------------------------------------------------

    method NetworkInterfaceSpecs(specs: seq<NicSpec>) returns (nics: seq<LaunchNic>)
      ensures nics == LaunchNics(specs)
    {
      nics := [];
      for i := 0 to |specs|
        invariant nics == LaunchNics(specs)[..i]
      {
        var deviceIndex;
        if specs[i].deviceIndex.Some? {
          deviceIndex := specs[i].deviceIndex.value;
        } else {
          deviceIndex := ToInt32(i);
        }
        nics := nics + [LaunchNic(deviceIndex, specs[i].interfaceType)];
      }
    }

    method RetryUntilVisible(instanceID: string, retries: nat) returns (r: Result<Instance>)
      modifies ec2
      ensures Answer(ec2.View(), r) == Await(old(ec2.View()), instanceID, retries)
    {
      var left := retries;
      while true
        invariant Await(ec2.View(), instanceID, left) == Await(old(ec2.View()), instanceID, retries)
        decreases left
      {
        var out := ec2.DescribeInstanceByID(instanceID);
        if out.Success? && |out.value| > 0 {
          return Ok(out.value[0]);
        }
        if left == 0 {
          return Err(LookCode(out));
        }
        left := left - 1;
      }
    }

    method LaunchInstance(machineName: string, spec: ProviderSpec, ghost root: string, mappings: seq<Mapping>,
                          orders: Orders, retries: nat)
        returns (r: Result<MachineResponse>)
      requires forall k :: k in orders.instance || k in orders.volume || k in orders.networkInterface ==> k in spec.tags
      requires mappings == Compiled(spec.blockDevices, root)
      modifies ec2
      ensures Answer(ec2.View(), r) == Launch(old(ec2.View()), machineName, spec, root, orders, retries)
    {
      var tagInstance := GenerateTags(spec.tags, orders.instance, "instance", machineName);
      var tagVolume := GenerateTags(spec.tags, orders.volume, "volume", machineName);
      var tagNetworkInterface := GenerateTags(spec.tags, orders.networkInterface, "network-interface", machineName);
      var nics := NetworkInterfaceSpecs(spec.networkInterfaces);
      var run := ec2.Run(LaunchRequest(spec.ami, mappings, [tagInstance, tagVolume, tagNetworkInterface], nics));
      if run.Failure? {
        return Err(CreateCode(run.error));
      }
      var launched := Launched(Some(""), None);
      for i := 0 to |run.value|
        invariant launched == Launched(Some(""), None)
        invariant FirstWithID(run.value) == FirstWithID(run.value[i..])
      {
        if run.value[i].id.Some? {
          launched := run.value[i];
          break;
        }
      }
      var instanceID, nodeName := launched.id.value, launched.dns.GetOr("");
      if instanceID == "" {
        return Err(Internal);
      }
      var instance := RetryUntilVisible(instanceID, retries);
      if instance.Err? {
        return Err(Internal);
      }
      nodeName := instance.value.dns.GetOr(nodeName);
      if nodeName == "" {
        return Err(Internal);
      }
      r := Ok(MachineResponse(ProviderId.Encode(spec.region, instanceID), nodeName));
    }

    method Create(m: Machine, cls: MachineClass, orders: Orders, retries: nat) returns (r: Result<MachineResponse>)
      requires OrdersOf(orders, cls)
      modifies ec2
      ensures Answer(ec2.View(), r) == CreateMachine(old(ec2.View()), m, cls, orders, retries)
    {
      if cls.provider != PROVIDER_AWS {
        return Err(InvalidArgument);
      }
      var decoded := DecodeProviderSpecAndSecret(cls, orders);
      if decoded.Err? {
        return Err(decoded.code);
      }
      var spec := decoded.value;
      var error := CreateClient();
      if error.Some? {
        return Err(CreateCode(error.value));
      }
      r := CreateWithClient(m, spec, orders, retries);
    }

    /** The part of the creation that needs a client. */
    method CreateWithClient(m: Machine, spec: ProviderSpec, orders: Orders, retries: nat)
        returns (r: Result<MachineResponse>)
      requires forall k :: k in orders.instance || k in orders.volume || k in orders.networkInterface ==> k in spec.tags
      requires Acceptable(spec.blockDevices)
      modifies ec2
      ensures Answer(ec2.View(), r) == CreateFromImage(old(ec2.View()), m, spec, orders, retries)
    {
      var images := ec2.Images(spec.ami);
      if images.Failure? {
        return Err(CreateCode(images.error));
      } else if |images.value| < 1 {
        return Err(NotFound);
      }
      var root := images.value[0];
      var mappings := GenerateBlockDevices(spec.blockDevices, root);
      CompilationFailsIff(spec.blockDevices, root);
      if mappings.None? {
        return Err(InvalidArgument);
      }
      CompilationIsUnique(spec.blockDevices, root.value, mappings.value);
      if !spec.placementSet && !m.placementDecodes {
        return Err(Internal);
      }
      r := LaunchInstance(m.name, spec, root.value, mappings.value, orders, retries);
    }

    // --- InitializeMachine --------------------------------------------------------------------------------

    method DisableAllChecks(nics: seq<NicView>) returns (ok: bool)
      modifies ec2
      ensures Attempt(ec2.View(), ok) == DisableAll(old(ec2.View()), nics)
    {
      ok := true;
      for i := 0 to |nics|
        invariant var rest := DisableAll(ec2.View(), nics[i..]);
                  DisableAll(old(ec2.View()), nics) == Attempt(rest.w, ok && rest.ok)
      {
        assert nics[i..][1..] == nics[i + 1..];
        if nics[i].nic.interfaceType.GetOr("") == EFA || nics[i].nic.interfaceType.GetOr("") == EFA_ONLY {
          continue;
        }
        var modified := ec2.ModifyNetworkInterface(nics[i].id);
        if modified.Failure? {
          ok := false;
        }
      }
    }

    method DisableSourceDestCheck(instanceID: string) returns (ok: bool)
      modifies ec2
      ensures Attempt(ec2.View(), ok) == DisableSrcAndDestCheck(old(ec2.View()), instanceID)
    {
      var out := ec2.DescribeInstanceByID(instanceID);
      if out.Failure? || |out.value| == 0 {
        return false;
      }
      var instance := out.value[0];
      if |instance.nics| == 0 {
        return false;
      }
      ok := DisableAllChecks(instance.nics);
    }

    /** The prefix count to reach on an interface, if it is not there already. */
    method WantedPrefixes(specs: seq<NicSpec>, nic: Nic) returns (wanted: Option<int32>)
      ensures wanted == Unmet(specs, nic)
    {
      if nic.attachment.None? {
        return None;
      }
      var idx := nic.attachment.value.deviceIndex.GetOr(-1);
      if idx < 0 || idx >= ToInt32(|specs|) {
        return None;
      }
      var netIf := specs[idx];
      if netIf.ipv6PrefixCount.Some? && ToInt32(nic.prefixes) != netIf.ipv6PrefixCount.value {
        return netIf.ipv6PrefixCount;
      }
      wanted := None;
    }

    method AssignMissingPrefixes(specs: seq<NicSpec>, nics: seq<NicView>) returns (ok: bool)
      modifies ec2
      ensures Attempt(ec2.View(), ok) == AssignAll(old(ec2.View()), specs, nics)
    {
      for i := 0 to |nics|
        invariant AssignAll(old(ec2.View()), specs, nics) == AssignAll(ec2.View(), specs, nics[i..])
      {
        assert nics[i..][1..] == nics[i + 1..];
        var wanted := WantedPrefixes(specs, nics[i].nic);
        if wanted.Some? {
          var r := ec2.AssignIpv6Prefixes(nics[i].id, ToInt32(wanted.value - ToInt32(nics[i].nic.prefixes)));
          if r.Failure? {
            return false;
          }
        }
      }
      ok := true;
    }

    method Initialize(m: Machine, cls: MachineClass, orders: Orders) returns (r: Result<MachineResponse>)
      requires OrdersOf(orders, cls)
      modifies ec2
      ensures Answer(ec2.View(), r) == InitializeMachine(old(ec2.View()), m, cls, orders)
    {
      var decoded := DecodeProviderSpecAndSecret(cls, orders);
      if decoded.Err? {
        return Err(decoded.code);
      }
      var spec := decoded.value;
      var error := CreateClient();
      if error.Some? {
        return Err(Uninitialized);
      }
      var s := ScanTags(orders.scan);
      r := InitializeMatching(m, spec, s);
    }

    method InitializeMatching(m: Machine, spec: ProviderSpec, s: Selection) returns (r: Result<MachineResponse>)
      modifies ec2
      ensures Answer(ec2.View(), r) == InitializeFromLookup(old(ec2.View()), m, spec, s)
    {
      var instances := GetMatchingInstancesForMachine(m, s);
      if instances.Err? {
        return Err(if instances.code.NotFound? then Uninitialized else instances.code);
      }
      r := InitializeTarget(spec, instances.value[0]);
    }

    /** What an initialisation does with the first instance it found. */
    method InitializeTarget(spec: ProviderSpec, target: Instance) returns (r: Result<MachineResponse>)
      modifies ec2
      ensures Answer(ec2.View(), r) == InitializeInstance(old(ec2.View()), spec, target)
    {
      var providerID := ProviderId.Encode(spec.region, target.id);
      if spec.srcAndDstChecksEnabled.Some? && !spec.srcAndDstChecksEnabled.value && target.sourceDestCheck.GetOr(true) {
        var disabled := DisableSourceDestCheck(target.id);
        if !disabled {
          return Err(Uninitialized);
        }
      }
      var ok := AssignMissingPrefixes(spec.networkInterfaces, target.nics);
      if !ok {
        return Err(Uninitialized);
      }
      r := Ok(MachineResponse(providerID, target.dns.GetOr("")));
    }

    // --- GetMachineStatus -----------------------------------------------------------------------------------

    method CheckEnabledSomewhere(nics: seq<NicView>) returns (enabled: bool)
      ensures enabled == CheckLeftOn(nics)
    {
      enabled := false;
      for i := 0 to |nics|
        invariant !enabled && !CheckLeftOn(nics[..i])
      {
        if nics[i].nic.interfaceType.GetOr("") == EFA || nics[i].nic.interfaceType.GetOr("") == EFA_ONLY {
          continue;
        }
        if nics[i].nic.sourceDestCheck.Some? && nics[i].nic.sourceDestCheck.value {
          enabled := true;
          break;
        }
      }
    }

    method PrefixesMissing(specs: seq<NicSpec>, nics: seq<NicView>) returns (missing: bool)
      ensures missing == PrefixesUnmet(specs, nics)
    {
      for i := 0 to |nics|
        invariant !PrefixesUnmet(specs, nics[..i])
      {
        var wanted := WantedPrefixes(specs, nics[i].nic);
        if wanted.Some? {
          assert Unmet(specs, nics[i].nic).Some?;
          return true;
        }
      }
      assert nics[..|nics|] == nics;
      missing := false;
    }

    method GetStatus(m: Machine, cls: MachineClass, orders: Orders)
        returns (response: Option<MachineResponse>, error: Option<Code>)
      requires OrdersOf(orders, cls)
      modifies ec2
      ensures StatusAnswer(ec2.View(), response, error) == GetMachineStatus(old(ec2.View()), m, cls, orders)
    {
      if cls.provider != PROVIDER_AWS {
        return None, Some(InvalidArgument);
      }
      var decoded := DecodeProviderSpecAndSecret(cls, orders);
      if decoded.Err? {
        return None, Some(decoded.code);
      }
      var spec := decoded.value;
      var failed := CreateClient();
      if failed.Some? {
        return None, Some(Internal);
      }
      var s := ScanTags(orders.scan);
      response, error := StatusOfMatching(m, spec, s);
    }

    method StatusOfMatching(m: Machine, spec: ProviderSpec, s: Selection)
        returns (response: Option<MachineResponse>, error: Option<Code>)
      modifies ec2
      ensures StatusAnswer(ec2.View(), response, error) == StatusFromLookup(old(ec2.View()), m, spec, s)
    {
      var instances := GetMatchingInstancesForMachine(m, s);
      if instances.Err? {
        return None, Some(instances.code);
      }
      response, error := StatusOfInstances(spec, instances.value);
    }

    method StatusOfInstances(spec: ProviderSpec, instances: seq<Instance>)
        returns (response: Option<MachineResponse>, error: Option<Code>)
      requires instances != []
      ensures StatusAnswer(ec2.View(), response, error) == StatusOf(ec2.View(), spec, instances)
    {
      if |instances| > 1 {
        return None, Some(OutOfRange);
      }
      var required := instances[0];
      response := Some(MachineResponse(ProviderId.Encode(spec.region, required.id), required.dns.GetOr("")));
      var pending := InitializationPending(spec, required);
      error := if pending then Some(Uninitialized) else None;
    }

    method InitializationPending(spec: ProviderSpec, required: Instance) returns (pending: bool)
      ensures pending == NeedsInitialization(spec, required)
    {
      if spec.srcAndDstChecksEnabled.Some? && !spec.srcAndDstChecksEnabled.value {
        var enabled := CheckEnabledSomewhere(required.nics);
        if enabled {
          return true;
        }
      }
      pending := PrefixesMissing(spec.networkInterfaces, required.nics);
    }

    // --- DeleteMachine ----------------------------------------------------------------------------------------

    method Terminate(instanceID: string) returns (ok: bool)
      modifies ec2
      ensures Attempt(ec2.View(), ok) == TerminateInstance(old(ec2.View()), instanceID)
    {
      var r := ec2.Terminate(instanceID);
      if r.Failure? {
        return r.error.InstanceIdNotFound?;
      }
      ok := true;
    }

    method Delete(m: Machine, cls: MachineClass, orders: Orders) returns (r: Result<()>)
      requires OrdersOf(orders, cls)
      modifies ec2
      ensures Answer(ec2.View(), r) == DeleteMachine(old(ec2.View()), m, cls, orders)
    {
      if cls.provider != PROVIDER_AWS {
        return Err(InvalidArgument);
      }
      var decoded := DecodeProviderSpecAndSecret(cls, orders);
      if decoded.Err? {
        return Err(decoded.code);
      }
      var error := CreateClient();
      if error.Some? {
        return Err(Internal);
      }
      var ok;
      if m.providerID != "" {
        var id := ProviderId.Decode(m.providerID);
        if id.Err? {
          return Err(InvalidArgument);
        }
        ok := Terminate(id.value.1);
        if !ok {
          return Err(Internal);
        }
      } else {
        var s := ScanTags(orders.scan);
        var found, pages := GetInstances(ec2, MachineFilters(m.name, s));
        if found.Err? {
          return if found.code.NotFound? then Ok(()) else Err(found.code);
        }
        ok := TerminateEach(found.value);
        if !ok {
          return Err(Internal);
        }
      }
      r := Ok(());
    }

    method TerminateEach(instances: seq<Instance>) returns (ok: bool)
      modifies ec2
      ensures Attempt(ec2.View(), ok) == TerminateAll(old(ec2.View()), IDs(instances))
    {
      ghost var ids := IDs(instances);
      for i := 0 to |instances|
        invariant TerminateAll(old(ec2.View()), ids) == TerminateAll(ec2.View(), ids[i..])
      {
        assert ids[i..][1..] == ids[i + 1..];
        ok := Terminate(instances[i].id);
        if !ok {
          return;
        }
      }
      ok := true;
    }

    // --- ListMachines -----------------------------------------------------------------------------------------

    method List(cls: MachineClass, orders: Orders) returns (r: Result<map<string, string>>)
      requires OrdersOf(orders, cls)
      modifies ec2
      ensures Answer(ec2.View(), r) == ListMachines(old(ec2.View()), cls, orders)
    {
      if cls.provider != PROVIDER_AWS {
        return Err(InvalidArgument);
      }
      var decoded := DecodeProviderSpecAndSecret(cls, orders);
      if decoded.Err? {
        return Err(decoded.code);
      }
      var spec := decoded.value;
      var s := ScanTags(orders.scan);
      var error := CreateClient();
      if error.Some? {
        return Err(Internal);
      }
      r := ListPages(ec2, spec.region, ListFilters(s));
    }
  }

  /** The loop over the pages, filling the map instance by instance. */
  method ListPages(ec2: Client, region: string, filters: seq<Filter>) returns (r: Result<map<string, string>>)
    modifies ec2
    ensures Answer(ec2.View(), r) == Listed(region, FetchAll(old(ec2.View()), filters))
  {
    ghost var w0 := ec2.View();
    var listOfVMs: map<string, string> := map[];
    var paginator := new Paginator(filters);
    ghost var c: nat := 0;
    while paginator.HasMorePages()
      invariant paginator.After(w0, c, ec2.View()) && fresh(paginator) && paginator.filters == filters
      invariant listOfVMs == MachineList(region, FetchedBy(w0, filters, c))
      decreases PageCount(Reached(w0, filters), ec2.pageSize) - c
    {
      var page := paginator.NextPage(ec2, w0, c);
      if page.Failure? {
        return Err(Internal);
      }
      listOfVMs := AddPage(region, page.value, listOfVMs, FetchedBy(w0, filters, c));
      c := c + 1;
    }
    FetchingDone(w0, filters, c, ec2.View());
    r := Ok(listOfVMs);
  }

  /** Adds the instances of one page to the list of those on the pages before. */
  method AddPage(region: string, page: seq<Instance>, listOfVMs: map<string, string>, ghost listed: seq<Instance>)
      returns (r: map<string, string>)
    requires listOfVMs == MachineList(region, listed)
    ensures r == MachineList(region, listed + page)
  {
    r := listOfVMs;
    assert listed + page[..0] == listed;
    for i := 0 to |page|
      invariant r == MachineList(region, listed + page[..i])
    {
      ghost var next := listed + page[..i + 1];
      assert next[..|next| - 1] == listed + page[..i] && next[|next| - 1] == page[i];
      var machineName := FirstNameTag(page[i].tags);
      r := r[ProviderId.Encode(region, page[i].id) := machineName];
    }
    assert page[..|page|] == page;
  }

  method FirstNameTag(tags: seq<Tag>) returns (machineName: string)
    ensures machineName == NameOf(tags)
  {
    machineName := "";
    for i := 0 to |tags|
      invariant machineName == ""
      invariant NameOf(tags) == NameOf(tags[i..])
    {
      assert tags[i..][1..] == tags[i + 1..];
      if tags[i].key == NAME {
        machineName := tags[i].value;
        break;
      }
    }
  }
}

/**
 * The driver operations (core.go, core_util.go) as functions of the world: the resulting world and
 * the answer. The methods of module Driver are proved to compute them; the lemmas of the remaining
 * modules say what they guarantee.
 */
module DriverSpec {
  import opened Wrappers
  import opened Tags
  import opened BlockDevices
  import opened Paging
  import opened Ec2
  import ProviderId

  const PROVIDER_AWS := "AWS"

  datatype NicSpec = NicSpec(deviceIndex: Option<int32>, interfaceType: Option<string>, ipv6PrefixCount: Option<int32>)

  /** othersValid: the outcome of the validators that are not part of this model. */
  datatype ProviderSpec = ProviderSpec(
    region: string, ami: string, tags: map<string, string>, blockDevices: seq<BlockDevice>,
    networkInterfaces: seq<NicSpec>, srcAndDstChecksEnabled: Option<bool>, placementSet: bool, othersValid: bool)

  /** spec is None when the raw provider spec is not decodable. */
  datatype MachineClass = MachineClass(provider: string, spec: Option<ProviderSpec>)

  /** placementDecodes: whether the placement annotation of the machine decodes. */
  datatype Machine = Machine(name: string, providerID: string, placementDecodes: bool)

  /** The order in which the runtime ranges over the tags, for each of the loops over them. */
  datatype Orders = Orders(validation: seq<string>, scan: seq<string>,
                           instance: seq<string>, volume: seq<string>, networkInterface: seq<string>)

  datatype MachineResponse = MachineResponse(providerID: string, nodeName: string)

  datatype Answer<+T> = Answer(w: World, result: Result<T>)

  /** GetMachineStatus may return a response together with an error. */
  datatype StatusAnswer = StatusAnswer(w: World, response: Option<MachineResponse>, error: Option<Code>)

  ghost predicate OrdersOf(orders: Orders, cls: MachineClass) {
    cls.spec.Some? ==>
      var tags := cls.spec.value.tags;
      && IsOrder(orders.validation, tags) && IsOrder(orders.scan, tags) && IsOrder(orders.instance, tags)
      && IsOrder(orders.volume, tags) && IsOrder(orders.networkInterface, tags)
  }

  /** GetMCMErrorCodeForCreateMachine */
  function CreateCode(e: ApiError): Code {
    if e.Exhausted? then ResourceExhausted else Internal
  }

  // --- Requests and clients ---------------------------------------------------------------------------

  const VALID_INTERFACE_TYPES := ["", "interface", EFA, EFA_ONLY]

  predicate NicAcceptable(nic: NicSpec) {
    && (nic.interfaceType.Some? ==> nic.interfaceType.value in VALID_INTERFACE_TYPES)
    && (nic.deviceIndex.Some? ==> nic.deviceIndex.value >= 0)
  }

  /** At least one interface, each of a known type and with no negative device index. */
  predicate NicsAcceptable(nics: seq<NicSpec>) {
    nics != [] && forall i :: 0 <= i < |nics| ==> NicAcceptable(nics[i])
  }

  ghost predicate Validated(spec: ProviderSpec) {
    && spec.othersValid && HasClusterAndRole(spec.tags) && Acceptable(spec.blockDevices)
    && NicsAcceptable(spec.networkInterfaces)
  }

  ghost function Decoded(cls: MachineClass): Result<ProviderSpec> {
    if cls.spec.None? then Err(Internal)
    else if !Validated(cls.spec.value) then Err(InvalidArgument)
    else Ok(cls.spec.value)
  }

  /** Whether the configuration for a client can be obtained. */
  predicate ClientAvailable(w: World) {
    w.Outcome().Accept? || w.Outcome().Blank?
  }

  // --- Lookup -----------------------------------------------------------------------------------------

  function ListFilters(s: Selection): seq<Filter> {
    [TagKey([s.cluster]), TagKey([s.role]), StateName(LISTED_STATES)]
  }

  function MachineFilters(machineName: string, s: Selection): seq<Filter> {
    [TagName([machineName])] + ListFilters(s)
  }

  /** Every coming call is accepted. */
  predicate Accepting(w: World) {
    AllAccept(w.script)
  }

  predicate AllAccept(script: seq<Outcome>) {
    forall i :: 0 <= i < |script| ==> script[i].Accept?
  }

  /** How many of the next n calls are accepted before the first that is not. */
  function AcceptedCalls(script: seq<Outcome>, n: nat): (k: nat)
    ensures k <= n
  {
    if n == 0 then 0
    else if script == [] then n
    else if script[0].Accept? then 1 + AcceptedCalls(script[1..], n - 1)
    else 0
  }

  /** How many of the matching instances a lookup reaches: all of them unless the server repeats a token. */
  function Reached(w: World, filters: seq<Filter>): (m: nat)
    ensures m <= |Matching(w, filters)|
  {
    Reach(|Found(w, filters)|, w.pageSize, w.duplicateAt)
  }

  /** The paged lookup: all the pages, or the error of the first page that fails. */
  function FetchAll(w: World, filters: seq<Filter>): Answer<seq<Instance>> {
    var found := Found(w, filters);
    var m := Reached(w, filters);
    var pages := PageCount(m, w.pageSize);
    var accepted := AcceptedCalls(w.script, pages);
    if accepted == pages then Answer(w.Skip(pages), Ok(found[..m]))
    else Answer(w.Skip(accepted + 1), Err(Internal))
  }

  /** getMatchingInstancesForMachine */
  function MatchMachine(w: World, m: Machine, s: Selection): Answer<seq<Instance>> {
    var byTags := FetchAll(w, MachineFilters(m.name, s));
    if byTags.result.Err? || byTags.result.value != [] then byTags
    else if m.providerID == "" then Answer(byTags.w, Err(NotFound))
    else
      match ProviderId.Decode(m.providerID)
      case Err(_) => Answer(byTags.w, Err(InvalidArgument))
      case Ok((_, id)) =>
        var byID := DescribeByID(byTags.w, id);
        match byID.result
        case Failure(InstanceIdNotFound) => Answer(byID.w, Err(NotFound))
        case Failure(_) => Answer(byID.w, Err(Internal))
        case Success(instances) => Answer(byID.w, if instances == [] then Err(NotFound) else Ok(instances))
  }

  // --- CreateMachine ------------------------------------------------------------------------------------

  function LaunchNics(specs: seq<NicSpec>): (nics: seq<LaunchNic>)
    ensures |nics| == |specs|
    ensures forall i :: 0 <= i < |specs| ==>
              nics[i] == LaunchNic(specs[i].deviceIndex.GetOr(ToInt32(i)), specs[i].interfaceType)
  {
    seq(|specs|, i requires 0 <= i < |specs| =>
      LaunchNic(specs[i].deviceIndex.GetOr(ToInt32(i)), specs[i].interfaceType))
  }

  function LaunchTagSpecs(spec: ProviderSpec, orders: Orders, machineName: string): seq<TagSpecification>
    requires forall k :: k in orders.instance || k in orders.volume || k in orders.networkInterface ==> k in spec.tags
  {
    [TagSpecification("instance", LaunchTags(spec.tags, orders.instance, machineName)),
     TagSpecification("volume", LaunchTags(spec.tags, orders.volume, machineName)),
     TagSpecification("network-interface", LaunchTags(spec.tags, orders.networkInterface, machineName))]
  }

  /** The first launched instance that has an id. */
  function FirstWithID(launched: seq<Launched>): Launched {
    if launched == [] then Launched(Some(""), None)
    else if launched[0].id.Some? then launched[0]
    else FirstWithID(launched[1..])
  }

  /** One look at the new instance: an empty answer counts as not found. */
  function LookCode(result: ApiResult<seq<Instance>>): Code {
    if result.Success? || result.error.InstanceIdNotFound? then NotFound else Internal
  }

  /** The wait for the new instance to be visible: one look, then as many as fit into the back-off. */
  function Await(w: World, id: string, retries: nat): Answer<Instance>
    decreases retries
  {
    var d := DescribeByID(w, id);
    if d.result.Success? && d.result.value != [] then Answer(d.w, Ok(d.result.value[0]))
    else if retries == 0 then Answer(d.w, Err(LookCode(d.result)))
    else Await(d.w, id, retries - 1)
  }

  function LaunchRequestOf(machineName: string, spec: ProviderSpec, root: string, orders: Orders): LaunchRequest
    requires forall k :: k in orders.instance || k in orders.volume || k in orders.networkInterface ==> k in spec.tags
  {
    LaunchRequest(spec.ami, Compiled(spec.blockDevices, root), LaunchTagSpecs(spec, orders, machineName),
                  LaunchNics(spec.networkInterfaces))
  }

  ghost function Launch(w: World, machineName: string, spec: ProviderSpec, root: string, orders: Orders,
                        retries: nat): Answer<MachineResponse>
    requires forall k :: k in orders.instance || k in orders.volume || k in orders.networkInterface ==> k in spec.tags
  {
    var run := RunInstances(w, LaunchRequestOf(machineName, spec, root, orders));
    if run.result.Failure? then Answer(run.w, Err(CreateCode(run.result.error)))
    else
      var launched := FirstWithID(run.result.value);
      var id := launched.id.GetOr("");
      if id == "" then Answer(run.w, Err(Internal))
      else
        var seen := Await(run.w, id, retries);
        if seen.result.Err? then Answer(seen.w, Err(Internal))
        else
          var nodeName := seen.result.value.dns.GetOr(launched.dns.GetOr(""));
          Answer(seen.w, if nodeName == "" then Err(Internal)
                         else Ok(MachineResponse(ProviderId.Encode(spec.region, id), nodeName)))
  }

  /** From the image on, with a client at hand. */
  ghost function CreateFromImage(w: World, m: Machine, spec: ProviderSpec, orders: Orders,
                                 retries: nat): Answer<MachineResponse>
    requires forall k :: k in orders.instance || k in orders.volume || k in orders.networkInterface ==> k in spec.tags
  {
    var images := DescribeImages(w, spec.ami);
    if images.result.Failure? then Answer(images.w, Err(CreateCode(images.result.error)))
    else if images.result.value == [] then Answer(images.w, Err(NotFound))
    else if spec.blockDevices == [] || images.result.value[0].None? then Answer(images.w, Err(InvalidArgument))
    else if !spec.placementSet && !m.placementDecodes then Answer(images.w, Err(Internal))
    else Launch(images.w, m.name, spec, images.result.value[0].value, orders, retries)
  }

  ghost function CreateMachine(w: World, m: Machine, cls: MachineClass, orders: Orders,
                               retries: nat): Answer<MachineResponse>
    requires OrdersOf(orders, cls)
  {
    if cls.provider != PROVIDER_AWS then Answer(w, Err(InvalidArgument))
    else
      match Decoded(cls)
      case Err(code) => Answer(w, Err(code))
      case Ok(spec) =>
        if !ClientAvailable(w) then Answer(w.Skip(1), Err(CreateCode(w.Outcome().error)))
        else CreateFromImage(w.Skip(1), m, spec, orders, retries)
  }

  // --- InitializeMachine ----------------------------------------------------------------------------------

  /** The position of the interface spec that an attached interface belongs to, by device index. */
  function SpecIndex(specs: seq<NicSpec>, nic: Nic): (r: Option<nat>)
    ensures r.Some? ==> r.value < |specs|
  {
    if nic.attachment.None? then None
    else
      var idx := nic.attachment.value.deviceIndex.GetOr(-1);
      if idx < 0 || idx >= ToInt32(|specs|) then None else Some(idx)
  }

  /** The prefix count the spec asks for on this interface, unless it is there already. */
  function Unmet(specs: seq<NicSpec>, nic: Nic): Option<int32> {
    var i := SpecIndex(specs, nic);
    if i.Some? && specs[i.value].ipv6PrefixCount.Some? && ToInt32(nic.prefixes) != specs[i.value].ipv6PrefixCount.value
    then specs[i.value].ipv6PrefixCount else None
  }

  datatype Attempt = Attempt(w: World, ok: bool)

  /** Switches the check off on each non-EFA interface in turn, whatever the earlier outcomes. */
  function DisableAll(w: World, nics: seq<NicView>): Attempt
    decreases |nics|
  {
    if nics == [] then Attempt(w, true)
    else if IsEfa(nics[0].nic) then DisableAll(w, nics[1..])
    else
      var r := DisableCheck(w, nics[0].id);
      var rest := DisableAll(r.w, nics[1..]);
      Attempt(rest.w, r.result.Success? && rest.ok)
  }

  /** disableSrcAndDestCheck */
  function DisableSrcAndDestCheck(w: World, instanceID: string): Attempt {
    var d := DescribeByID(w, instanceID);
    if d.result.Failure? || d.result.value == [] || d.result.value[0].nics == [] then Attempt(d.w, false)
    else DisableAll(d.w, d.result.value[0].nics)
  }

  /** The 32-bit difference between the count the spec asks for and the count the interface shows. */
  function Request(wanted: int32, view: NicView): int32 {
    ToInt32(wanted - ToInt32(view.nic.prefixes))
  }

  /** Requests the missing prefixes interface by interface, up to the first error. */
  function AssignAll(w: World, specs: seq<NicSpec>, nics: seq<NicView>): Attempt
    decreases |nics|
  {
    if nics == [] then Attempt(w, true)
    else
      match Unmet(specs, nics[0].nic)
      case None => AssignAll(w, specs, nics[1..])
      case Some(wanted) =>
        var r := AssignPrefixes(w, nics[0].id, Request(wanted, nics[0]));
        if r.result.Failure? then Attempt(r.w, false) else AssignAll(r.w, specs, nics[1..])
  }

  predicate ChecksToDisable(spec: ProviderSpec, t: Instance) {
    spec.srcAndDstChecksEnabled == Some(false) && t.sourceDestCheck.GetOr(true)
  }

  function InitializeInstance(w: World, spec: ProviderSpec, t: Instance): Answer<MachineResponse> {
    var disabled := if ChecksToDisable(spec, t) then DisableSrcAndDestCheck(w, t.id) else Attempt(w, true);
    if !disabled.ok then Answer(disabled.w, Err(Uninitialized))
    else
      var requested := AssignAll(disabled.w, spec.networkInterfaces, t.nics);
      Answer(requested.w, if !requested.ok then Err(Uninitialized)
                         else Ok(MachineResponse(ProviderId.Encode(spec.region, t.id), t.dns.GetOr(""))))
  }

  /** From the lookup on, with a client at hand. */
  function InitializeFromLookup(w: World, m: Machine, spec: ProviderSpec, s: Selection): Answer<MachineResponse> {
    var matched := MatchMachine(w, m, s);
    match matched.result
    case Err(code) => Answer(matched.w, Err(if code.NotFound? then Uninitialized else code))
    case Ok(instances) => InitializeInstance(matched.w, spec, instances[0])
  }

  /** The machine class's provider is not looked at here. */
  ghost function InitializeMachine(w: World, m: Machine, cls: MachineClass, orders: Orders): Answer<MachineResponse> {
    match Decoded(cls)
    case Err(code) => Answer(w, Err(code))
    case Ok(spec) =>
      if !ClientAvailable(w) then Answer(w.Skip(1), Err(Uninitialized))
      else InitializeFromLookup(w.Skip(1), m, spec, Selected(orders.scan))
  }

  // --- GetMachineStatus -------------------------------------------------------------------------------------

  predicate CheckLeftOn(nics: seq<NicView>) {
    exists i :: 0 <= i < |nics| && !IsEfa(nics[i].nic) && IsOn(nics[i].nic)
  }

  predicate PrefixesUnmet(specs: seq<NicSpec>, nics: seq<NicView>) {
    exists i :: 0 <= i < |nics| && Unmet(specs, nics[i].nic).Some?
  }

  /** An instance that still needs initialisation. */
  predicate NeedsInitialization(spec: ProviderSpec, t: Instance) {
    (spec.srcAndDstChecksEnabled == Some(false) && CheckLeftOn(t.nics)) || PrefixesUnmet(spec.networkInterfaces, t.nics)
  }

  function StatusOf(w: World, spec: ProviderSpec, instances: seq<Instance>): StatusAnswer
    requires instances != []
  {
    if |instances| > 1 then StatusAnswer(w, None, Some(OutOfRange))
    else
      var t := instances[0];
      StatusAnswer(w, Some(MachineResponse(ProviderId.Encode(spec.region, t.id), t.dns.GetOr(""))),
                   if NeedsInitialization(spec, t) then Some(Uninitialized) else None)
  }

  /** From the lookup on, with a client at hand. */
  function StatusFromLookup(w: World, m: Machine, spec: ProviderSpec, s: Selection): StatusAnswer {
    var matched := MatchMachine(w, m, s);
    match matched.result
    case Err(code) => StatusAnswer(matched.w, None, Some(code))
    case Ok(instances) => StatusOf(matched.w, spec, instances)
  }

  ghost function GetMachineStatus(w: World, m: Machine, cls: MachineClass, orders: Orders): StatusAnswer {
    if cls.provider != PROVIDER_AWS then StatusAnswer(w, None, Some(InvalidArgument))
    else
      match Decoded(cls)
      case Err(code) => StatusAnswer(w, None, Some(code))
      case Ok(spec) =>
        if !ClientAvailable(w) then StatusAnswer(w.Skip(1), None, Some(Internal))
        else StatusFromLookup(w.Skip(1), m, spec, Selected(orders.scan))
  }

  // --- DeleteMachine ------------------------------------------------------------------------------------------

  /** terminateInstance: an instance that is not found counts as terminated. */
  function TerminateInstance(w: World, id: string): Attempt {
    var r := TerminateInstances(w, id);
    Attempt(r.w, r.result.Success? || r.result.error.InstanceIdNotFound?)
  }

  /** Terminates one instance after the other, up to the first error. */
  function TerminateAll(w: World, ids: seq<string>): Attempt
    decreases |ids|
  {
    if ids == [] then Attempt(w, true)
    else
      var r := TerminateInstance(w, ids[0]);
      if !r.ok then r else TerminateAll(r.w, ids[1..])
  }

  function IDs(instances: seq<Instance>): (ids: seq<string>)
    ensures |ids| == |instances| && forall i :: 0 <= i < |ids| ==> ids[i] == instances[i].id
  {
    seq(|instances|, i requires 0 <= i < |instances| => instances[i].id)
  }

  ghost function DeleteMachine(w: World, m: Machine, cls: MachineClass, orders: Orders): Answer<()> {
    if cls.provider != PROVIDER_AWS then Answer(w, Err(InvalidArgument))
    else
      match Decoded(cls)
      case Err(code) => Answer(w, Err(code))
      case Ok(spec) =>
        if !ClientAvailable(w) then Answer(w.Skip(1), Err(Internal))
        else if m.providerID != "" then
          match ProviderId.Decode(m.providerID)
          case Err(_) => Answer(w.Skip(1), Err(InvalidArgument))
          case Ok((_, id)) =>
            var r := TerminateInstance(w.Skip(1), id);
            Answer(r.w, if r.ok then Ok(()) else Err(Internal))
        else
          var found := FetchAll(w.Skip(1), MachineFilters(m.name, Selected(orders.scan)));
          match found.result
          case Err(code) => Answer(found.w, if code.NotFound? then Ok(()) else Err(code))
          case Ok(instances) =>
            var r := TerminateAll(found.w, IDs(instances));
            Answer(r.w, if r.ok then Ok(()) else Err(Internal))
  }

  // --- ListMachines -------------------------------------------------------------------------------------------

  /** Provider id to machine name, for each instance; of equal provider ids the last one counts. */
  function MachineList(region: string, instances: seq<Instance>): map<string, string> {
    if instances == [] then map[]
    else
      var n := |instances| - 1;
      MachineList(region, instances[..n])[ProviderId.Encode(region, instances[n].id) := NameOf(instances[n].tags)]
  }

  /** The list made of what the lookup fetched. */
  function Listed(region: string, fetched: Answer<seq<Instance>>): Answer<map<string, string>> {
    match fetched.result
    case Err(code) => Answer(fetched.w, Err(code))
    case Ok(instances) => Answer(fetched.w, Ok(MachineList(region, instances)))
  }

  ghost function ListMachines(w: World, cls: MachineClass, orders: Orders): Answer<map<string, string>> {
    if cls.provider != PROVIDER_AWS then Answer(w, Err(InvalidArgument))
    else
      match Decoded(cls)
      case Err(code) => Answer(w, Err(code))
      case Ok(spec) =>
        if !ClientAvailable(w) then Answer(w.Skip(1), Err(Internal))
        else Listed(spec.region, FetchAll(w.Skip(1), ListFilters(Selected(orders.scan))))
  }
}

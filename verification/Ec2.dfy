/**
 * The EC2 world the driver works against. What the environment decides is written down beforehand:
 * `script` holds the outcome of each coming API call (calls beyond its end are accepted) and `births`
 * the identities EC2 gives to the coming instances. Statements about all scripts and births are
 * statements about all behaviours of the API.
 */
module Ec2 {
  import opened Wrappers
  import opened Paging
  import opened Tags
  import opened BlockDevices

  datatype InstanceState = Pending | Running | ShuttingDown | Terminated | Stopping | Stopped

  const LISTED_STATES := [Pending, Running, Stopping, Stopped]

  /** Exhausted stands for the codes that report missing capacity or a reached limit. */
  datatype ApiError = InstanceIdNotFound | Exhausted | OtherError

  /**
   * How EC2 answers one call. A blank answer to a page of the tag lookup counts as a failed page: a
   * lookup that succeeds shows what matches, and an empty answer to it is one where nothing matches.
   */
  datatype Outcome =
    | Accept                    // carried out, and reported so
    | Blank                     // carried out, but the answer names no instance
    | Refuse(error: ApiError)   // not carried out
    | Lose(error: ApiError)     // carried out, but the caller sees an error

  datatype ApiResult<+T> = Success(value: T) | Failure(error: ApiError)

  /** Mutating calls, in the order they are sent, whatever becomes of them. */
  datatype Call =
    | RunCall(request: LaunchRequest)
    | TerminateCall(instanceID: string)
    | DisableCheckCall(nicID: string)
    | AssignPrefixesCall(nicID: string, count: int32)

  datatype Attachment = Attachment(deviceIndex: Option<int32>)
  datatype Nic = Nic(attachment: Option<Attachment>, sourceDestCheck: Option<bool>, interfaceType: Option<string>,
                     prefixes: nat)
  datatype Vm = Vm(dns: Option<string>, state: InstanceState, tags: seq<Tag>, sourceDestCheck: Option<bool>,
                   nicIDs: seq<string>)

  /** An interface and an instance as DescribeInstances shows them. */
  datatype NicView = NicView(id: string, nic: Nic)
  datatype Instance = Instance(id: string, dns: Option<string>, state: InstanceState, tags: seq<Tag>,
                               sourceDestCheck: Option<bool>, nics: seq<NicView>)

  /**
   * What RunInstances is asked for, what EC2 makes of it, and what it reports. The DNS name in the answer to
   * the launch (`reported`) need not be the one the instance shows later (`dns`).
   */
  datatype LaunchNic = LaunchNic(deviceIndex: int32, interfaceType: Option<string>)
  datatype LaunchRequest = LaunchRequest(imageID: string, mappings: seq<Mapping>, tags: seq<TagSpecification>,
                                         nics: seq<LaunchNic>)
  datatype BirthNic = BirthNic(id: string, sourceDestCheck: Option<bool>)
  datatype Birth = Birth(id: string, reported: Option<string>, dns: Option<string>, sourceDestCheck: Option<bool>,
                         nics: seq<BirthNic>)
  datatype Launched = Launched(id: Option<string>, dns: Option<string>)

  /** Filters hold together; within a filter any listed value will do. */
  datatype Filter =
    | TagName(values: seq<string>)
    | TagKey(values: seq<string>)
    | StateName(states: seq<InstanceState>)

  const EFA := "efa"
  const EFA_ONLY := "efa-only"

  predicate IsEfa(nic: Nic) {
    nic.interfaceType.GetOr("") == EFA || nic.interfaceType.GetOr("") == EFA_ONLY
  }

  predicate IsOn(nic: Nic) {
    nic.sourceDestCheck == Some(true)
  }

  predicate IsPrimary(nic: Nic) {
    nic.attachment.Some? && nic.attachment.value.deviceIndex == Some(0)
  }

  /**
   * issued: every instance id EC2 ever gave out, oldest first; vms: the instances it still knows.
   * mirror: whether an instance's own SourceDestCheck follows the one of its primary interface.
   */
  datatype World = World(
    issued: seq<string>, vms: map<string, Vm>, nics: map<string, Nic>,
    script: seq<Outcome>, births: seq<Birth>, log: seq<Call>,
    images: map<string, Option<string>>, pageSize: int, duplicateAt: int, mirror: bool)
  {
    function Outcome(): Outcome {
      if script == [] then Accept else script[0]
    }

    function Skip(n: nat): World {
      this.(script := if n <= |script| then script[n..] else [])
    }

    /** After the next outcome is used up, with a call logged. */
    function Sent(call: Call): World {
      Skip(1).(log := log + [call])
    }
  }

  /** How the j-th coming call is answered. */
  function OutcomeAt(script: seq<Outcome>, j: nat): Outcome {
    if j < |script| then script[j] else Accept
  }

  datatype Reply<+T> = Reply(w: World, result: ApiResult<T>)

  // --- Reading ------------------------------------------------------------------------------------

  predicate Satisfies(vm: Vm, f: Filter) {
    match f
    case TagName(values) => exists i :: 0 <= i < |vm.tags| && vm.tags[i].key == NAME && vm.tags[i].value in values
    case TagKey(values) => exists i :: 0 <= i < |vm.tags| && vm.tags[i].key in values
    case StateName(states) => vm.state in states
  }

  predicate Passes(vm: Vm, filters: seq<Filter>) {
    forall i :: 0 <= i < |filters| ==> Satisfies(vm, filters[i])
  }

  /** The ids among `ids` of known instances that pass the filters, in order. */
  function Select(vms: map<string, Vm>, ids: seq<string>, filters: seq<Filter>): seq<string> {
    if ids == [] then []
    else
      var before, id := Select(vms, ids[..|ids| - 1], filters), ids[|ids| - 1];
      if id in vms && Passes(vms[id], filters) then before + [id] else before
  }

  function Matching(w: World, filters: seq<Filter>): seq<string> {
    Select(w.vms, w.issued, filters)
  }

  function NicAt(nics: map<string, Nic>, id: string): Nic {
    if id in nics then nics[id] else Nic(None, None, None, 0)
  }

  function NicViews(nics: map<string, Nic>, ids: seq<string>): (views: seq<NicView>)
    ensures |views| == |ids|
    ensures forall i :: 0 <= i < |ids| ==> views[i] == NicView(ids[i], NicAt(nics, ids[i]))
  {
    seq(|ids|, i requires 0 <= i < |ids| => NicView(ids[i], NicAt(nics, ids[i])))
  }

  function InstanceOf(id: string, vm: Vm, nics: map<string, Nic>): Instance {
    Instance(id, vm.dns, vm.state, vm.tags, vm.sourceDestCheck, NicViews(nics, vm.nicIDs))
  }

  /** The unpaged answer to a filtered DescribeInstances. */
  function Found(w: World, filters: seq<Filter>): (found: seq<Instance>)
    ensures |found| == |Matching(w, filters)|
    ensures forall i :: 0 <= i < |found| ==> found[i].id == Matching(w, filters)[i]
  {
    InstancesOf(w, Matching(w, filters))
  }

  function InstancesOf(w: World, ids: seq<string>): (found: seq<Instance>)
    ensures |found| == |ids|
    ensures forall i :: 0 <= i < |found| ==> found[i].id == ids[i]
    ensures forall i :: 0 <= i < |found| && ids[i] in w.vms ==> found[i] == InstanceOf(ids[i], w.vms[ids[i]], w.nics)
  {
    seq(|ids|, i requires 0 <= i < |ids| =>
      if ids[i] in w.vms then InstanceOf(ids[i], w.vms[ids[i]], w.nics)
      else Instance(ids[i], None, Terminated, [], None, []))
  }

  function DescribePage(w: World, filters: seq<Filter>, token: Option<string>): Reply<Served<Instance>> {
    match w.Outcome()
    case Accept => Reply(w.Skip(1), Success(ServePage(Found(w, filters), w.pageSize, w.duplicateAt, token)))
    case Blank => Reply(w.Skip(1), Failure(OtherError))
    case Refuse(e) => Reply(w.Skip(1), Failure(e))
    case Lose(e) => Reply(w.Skip(1), Failure(e))
  }

  /** DescribeInstances by instance id; there is no filter on the state. */
  function DescribeByID(w: World, id: string): Reply<seq<Instance>> {
    match w.Outcome()
    case Accept =>
      Reply(w.Skip(1), if id in w.vms then Success([InstanceOf(id, w.vms[id], w.nics)])
                       else Failure(InstanceIdNotFound))
    case Blank => Reply(w.Skip(1), Success([]))
    case Refuse(e) => Reply(w.Skip(1), Failure(e))
    case Lose(e) => Reply(w.Skip(1), Failure(e))
  }

  /** The root device names of the images found. */
  function DescribeImages(w: World, ami: string): Reply<seq<Option<string>>> {
    match w.Outcome()
    case Accept => Reply(w.Skip(1), Success(if ami in w.images then [w.images[ami]] else []))
    case Blank => Reply(w.Skip(1), Success([]))
    case Refuse(e) => Reply(w.Skip(1), Failure(e))
    case Lose(e) => Reply(w.Skip(1), Failure(e))
  }

  // --- Launching ------------------------------------------------------------------------------------

  function BirthNicIDs(b: Birth): (ids: seq<string>)
    ensures |ids| == |b.nics| && forall i :: 0 <= i < |ids| ==> ids[i] == b.nics[i].id
  {
    seq(|b.nics|, i requires 0 <= i < |b.nics| => b.nics[i].id)
  }

  /** The name the new node goes by: the one the instance shows, else the one reported, else none. */
  function NodeName(b: Birth): string {
    b.dns.GetOr(b.reported.GetOr(""))
  }

  /** EC2 gives out new ids only, and one interface for each requested. */
  predicate Fresh(w: World, b: Birth, nics: seq<LaunchNic>) {
    && b.id != "" && b.id !in w.issued && b.id !in w.vms
    && |b.nics| == |nics|
    && NoDuplicates(BirthNicIDs(b))
    && forall i :: 0 <= i < |b.nics| ==> b.nics[i].id !in w.nics
  }

  function NewNics(born: seq<BirthNic>, nics: seq<LaunchNic>): map<string, Nic>
    requires |born| == |nics|
  {
    if born == [] then map[]
    else
      var n := |born| - 1;
      NewNics(born[..n], nics[..n])
        [born[n].id := Nic(Some(Attachment(Some(nics[n].deviceIndex))), born[n].sourceDestCheck,
                           nics[n].interfaceType, 0)]
  }

  function Birthed(w: World, b: Birth, tags: seq<Tag>, nics: seq<LaunchNic>): World
    requires |b.nics| == |nics|
  {
    w.(issued := w.issued + [b.id],
       vms := w.vms[b.id := Vm(b.dns, Pending, tags, b.sourceDestCheck, BirthNicIDs(b))],
       nics := w.nics + NewNics(b.nics, nics))
  }

  /** The tags that go on the instance itself. */
  function InstanceTags(specs: seq<TagSpecification>): seq<Tag> {
    if specs == [] then []
    else if specs[0].resourceType == "instance" then specs[0].tags
    else InstanceTags(specs[1..])
  }

  /** One instance is asked for; without a fresh birth EC2 has no capacity. */
  function RunInstances(w: World, request: LaunchRequest): Reply<seq<Launched>> {
    var w' := w.Sent(RunCall(request));
    if w.Outcome().Refuse? then Reply(w', Failure(w.Outcome().error))
    else if w.births == [] then Reply(w', Failure(Exhausted))
    else
      var b, w'' := w.births[0], w'.(births := w.births[1..]);
      if !Fresh(w, b, request.nics) then Reply(w'', Failure(Exhausted))
      else
        var born := Birthed(w'', b, InstanceTags(request.tags), request.nics);
        match w.Outcome()
        case Accept => Reply(born, Success([Launched(Some(b.id), b.reported)]))
        case Blank => Reply(born, Success([Launched(None, None)]))
        case Lose(e) => Reply(born, Failure(e))
  }

  // --- Changing ---------------------------------------------------------------------------------------

  function ShutDown(vm: Vm): Vm {
    if vm.state.Terminated? then vm else vm.(state := ShuttingDown)
  }

  function TerminateInstances(w: World, id: string): Reply<()> {
    var w' := w.Sent(TerminateCall(id));
    match w.Outcome()
    case Refuse(e) => Reply(w', Failure(e))
    case Lose(e) => Reply(if id in w.vms then w'.(vms := w.vms[id := ShutDown(w.vms[id])]) else w', Failure(e))
    case _ =>
      if id in w.vms then Reply(w'.(vms := w.vms[id := ShutDown(w.vms[id])]), Success(()))
      else Reply(w', Failure(InstanceIdNotFound))
  }

  /** Instances whose primary interface it is report the check as off too, if they mirror it. */
  function MirrorOff(vms: map<string, Vm>, nicID: string): (r: map<string, Vm>)
    ensures r.Keys == vms.Keys
    ensures forall id :: id in r ==>
              r[id] == if nicID in vms[id].nicIDs then vms[id].(sourceDestCheck := Some(false)) else vms[id]
  {
    map id | id in vms :: if nicID in vms[id].nicIDs then vms[id].(sourceDestCheck := Some(false)) else vms[id]
  }

  function CheckOff(w: World, nicID: string): World
    requires nicID in w.nics
  {
    w.(nics := w.nics[nicID := w.nics[nicID].(sourceDestCheck := Some(false))],
       vms := if w.mirror && IsPrimary(w.nics[nicID]) then MirrorOff(w.vms, nicID) else w.vms)
  }

  /** ModifyNetworkInterfaceAttribute with SourceDestCheck=false; EFA interfaces do not support it. */
  function DisableCheck(w: World, nicID: string): Reply<()> {
    var w' := w.Sent(DisableCheckCall(nicID));
    var possible := nicID in w.nics && !IsEfa(w.nics[nicID]);
    match w.Outcome()
    case Refuse(e) => Reply(w', Failure(e))
    case Lose(e) => Reply(if possible then CheckOff(w', nicID) else w', Failure(e))
    case _ => if possible then Reply(CheckOff(w', nicID), Success(())) else Reply(w', Failure(OtherError))
  }

  function Assigned(w: World, nicID: string, count: nat): World
    requires nicID in w.nics
  {
    w.(nics := w.nics[nicID := w.nics[nicID].(prefixes := w.nics[nicID].prefixes + count)])
  }

  /** AssignIpv6Addresses with a prefix count, which has to be positive. */
  function AssignPrefixes(w: World, nicID: string, count: int32): Reply<()> {
    var w' := w.Sent(AssignPrefixesCall(nicID, count));
    var possible := nicID in w.nics && count > 0;
    match w.Outcome()
    case Refuse(e) => Reply(w', Failure(e))
    case Lose(e) => Reply(if possible then Assigned(w', nicID, count) else w', Failure(e))
    case _ => if possible then Reply(Assigned(w', nicID, count), Success(())) else Reply(w', Failure(OtherError))
  }

  // --- Consistency ------------------------------------------------------------------------------------

  /** Instance ids are unique; each interface exists and belongs to one instance. */
  ghost predicate Valid(w: World) {
    && NoDuplicates(w.issued)
    && (forall id :: id in w.vms ==> id in w.issued)
    && (forall id :: id in w.vms ==> ValidVm(w.vms[id], w.nics))
    && forall id1, id2, n :: id1 in w.vms && id2 in w.vms && n in w.vms[id1].nicIDs && n in w.vms[id2].nicIDs ==>
         id1 == id2
  }

  ghost predicate ValidVm(vm: Vm, nics: map<string, Nic>) {
    && UniqueKeys(vm.tags)
    && NoDuplicates(vm.nicIDs)
    && forall n :: n in vm.nicIDs ==> n in nics
  }

  /** A client for one world: the methods carry out API calls on it. */
  class Client {
    var issued: seq<string>
    var vms: map<string, Vm>
    var nics: map<string, Nic>
    var script: seq<Outcome>
    var births: seq<Birth>
    var log: seq<Call>
    const images: map<string, Option<string>>
    const pageSize: int
    const duplicateAt: int
    const mirror: bool

    constructor (w: World)
      ensures View() == w
    {
      issued, vms, nics, script, births, log := w.issued, w.vms, w.nics, w.script, w.births, w.log;
      images, pageSize, duplicateAt, mirror := w.images, w.pageSize, w.duplicateAt, w.mirror;
    }

    function View(): World
      reads this
    {
      World(issued, vms, nics, script, births, log, images, pageSize, duplicateAt, mirror)
    }

    method NextOutcome() returns (o: Outcome)
      modifies this`script
      ensures o == old(View()).Outcome() && View() == old(View()).Skip(1)
    {
      if script == [] {
        o := Accept;
      } else {
        o, script := script[0], script[1..];
      }
    }

    method DescribeInstances(filters: seq<Filter>, token: Option<string>) returns (r: ApiResult<Served<Instance>>)
      requires ServePage(Found(View(), filters), pageSize, duplicateAt, token).Page?  // no slice-bounds panic
      modifies this`script
      ensures Reply(View(), r) == DescribePage(old(View()), filters, token)
    {
      var o := NextOutcome();
      if o != Accept {
        return Failure(if o.Blank? then OtherError else o.error);
      }
      var list: seq<Instance> := [];
      for i := 0 to |issued|
        invariant list == InstancesOf(View(), Select(vms, issued[..i], filters))
      {
        assert issued[..i + 1][..i] == issued[..i];
        if issued[i] in vms && Passes(vms[issued[i]], filters) {
          list := list + [InstanceOf(issued[i], vms[issued[i]], nics)];
        }
      }
      assert issued[..|issued|] == issued;
      assert list == Found(old(View()), filters);

      var nextToken: Option<string> := None;
      var page := list;
      if pageSize > 0 {
        var startIndex, returnDuplicateToken := 0, false;
        if token.Some? {
          var idx := Decimal.Atoi(token.value);
          if idx.Some? {
            startIndex := idx.value;
          }
        }
        if duplicateAt > 0 {
          var currentPage := startIndex / pageSize + 1;
          if currentPage == duplicateAt {
            returnDuplicateToken := true;
          }
        }
        var endIndex := Min(startIndex + pageSize, |list|);
        page := list[startIndex..endIndex];
        if endIndex < |list| {
          nextToken := Some(Decimal.Print(endIndex));
        }
        if returnDuplicateToken {
          nextToken := token;
        }
      }
      r := Success(Page(page, nextToken));
    }

    method DescribeInstanceByID(id: string) returns (r: ApiResult<seq<Instance>>)
      modifies this`script
      ensures Reply(View(), r) == DescribeByID(old(View()), id)
    {
      var o := NextOutcome();
      match o
      case Accept => r := if id in vms then Success([InstanceOf(id, vms[id], nics)]) else Failure(InstanceIdNotFound);
      case Blank => r := Success([]);
      case Refuse(e) => r := Failure(e);
      case Lose(e) => r := Failure(e);
    }

    method Images(ami: string) returns (r: ApiResult<seq<Option<string>>>)
      modifies this`script
      ensures Reply(View(), r) == DescribeImages(old(View()), ami)
    {
      var o := NextOutcome();
      match o
      case Accept => r := Success(if ami in images then [images[ami]] else []);
      case Blank => r := Success([]);
      case Refuse(e) => r := Failure(e);
      case Lose(e) => r := Failure(e);
    }

    method Run(request: LaunchRequest) returns (r: ApiResult<seq<Launched>>)
      modifies this
      ensures Reply(View(), r) == RunInstances(old(View()), request)
    {
      var before := View();
      var o := NextOutcome();
      log := log + [RunCall(request)];
      if o.Refuse? {
        return Failure(o.error);
      }
      if births == [] {
        return Failure(Exhausted);
      }
      var b := births[0];
      births := births[1..];
      if !Fresh(before, b, request.nics) {
        return Failure(Exhausted);
      }
      issued := issued + [b.id];
      vms := vms[b.id := Vm(b.dns, Pending, InstanceTags(request.tags), b.sourceDestCheck, BirthNicIDs(b))];
      nics := nics + NewNics(b.nics, request.nics);
      match o
      case Accept => r := Success([Launched(Some(b.id), b.reported)]);
      case Blank => r := Success([Launched(None, None)]);
      case Lose(e) => r := Failure(e);
    }

    method Terminate(id: string) returns (r: ApiResult<()>)
      modifies this
      ensures Reply(View(), r) == TerminateInstances(old(View()), id)
    {
      var o := NextOutcome();
      log := log + [TerminateCall(id)];
      if o.Refuse? {
        return Failure(o.error);
      }
      if id in vms {
        vms := vms[id := ShutDown(vms[id])];
      }
      r := if o.Lose? then Failure(o.error) else if id in vms then Success(()) else Failure(InstanceIdNotFound);
    }

    method ModifyNetworkInterface(nicID: string) returns (r: ApiResult<()>)
      modifies this
      ensures Reply(View(), r) == DisableCheck(old(View()), nicID)
    {
      var o := NextOutcome();
      log := log + [DisableCheckCall(nicID)];
      if o.Refuse? {
        return Failure(o.error);
      }
      var possible := nicID in nics && !IsEfa(nics[nicID]);
      if possible {
        if mirror && IsPrimary(nics[nicID]) {
          vms := MirrorOff(vms, nicID);
        }
        nics := nics[nicID := nics[nicID].(sourceDestCheck := Some(false))];
      }
      r := if o.Lose? then Failure(o.error) else if possible then Success(()) else Failure(OtherError);
    }

    method AssignIpv6Prefixes(nicID: string, count: int32) returns (r: ApiResult<()>)
      modifies this
      ensures Reply(View(), r) == AssignPrefixes(old(View()), nicID, count)
    {
      var o := NextOutcome();
      log := log + [AssignPrefixesCall(nicID, count)];
      if o.Refuse? {
        return Failure(o.error);
      }
      var possible := nicID in nics && count > 0;
      if possible {
        nics := nics[nicID := nics[nicID].(prefixes := nics[nicID].prefixes + count)];
      }
      r := if o.Lose? then Failure(o.error) else if possible then Success(()) else Failure(OtherError);
    }
  }
}

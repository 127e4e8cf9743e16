/** What a creation asks EC2 for: at most one launch request, made of the class as validated and compiled. */
module Launches {
  import opened Wrappers
  import opened Tags
  import opened BlockDevices
  import opened Ec2
  import opened DriverSpec
  import opened Effects
  import opened Histories

  /** The request names the class's image, one mapping per block device, the class's tags and its interfaces. */
  ghost predicate AsTheClassSays(q: LaunchRequest, w: World, name: string, spec: ProviderSpec, orders: Orders)
    requires forall k :: k in orders.instance || k in orders.volume || k in orders.networkInterface ==> k in spec.tags
  {
    && q.imageID == spec.ami && spec.ami in w.images && w.images[spec.ami].Some?
    && |q.mappings| == |spec.blockDevices| > 0
    && (forall i :: 0 <= i < |spec.blockDevices| ==> Compiles(spec.blockDevices, i, w.images[spec.ami], q.mappings[i]))
    && q.tags == LaunchTagSpecs(spec, orders, name)
    && q.nics == LaunchNics(spec.networkInterfaces)
  }

  /** From w to w' this one request is logged. */
  ghost predicate SendsRequest(w: World, w': World, q: LaunchRequest) {
    w'.log == w.log + [RunCall(q)]
  }

  lemma LaunchSendsRequest(w: World, name: string, spec: ProviderSpec, root: string, orders: Orders, retries: nat)
    requires forall k :: k in orders.instance || k in orders.volume || k in orders.networkInterface ==> k in spec.tags
    ensures SendsRequest(w, Launch(w, name, spec, root, orders, retries).w, LaunchRequestOf(name, spec, root, orders))
  {
    var run := RunInstances(w, LaunchRequestOf(name, spec, root, orders));
    if run.result.Success? {
      AwaitReads(run.w, FirstWithID(run.result.value).id.GetOr(""), retries);
    }
  }

  /**
   * A creation sends no launch request, and then launches nothing and fails, or exactly one, in which
   * the devices are compiled with the root name of the class's image.
   */
  lemma {:induction false} CreateSendsOneRequest(w: World, m: Machine, cls: MachineClass, orders: Orders, retries: nat)
      returns (q: LaunchRequest)
    requires OrdersOf(orders, cls)
    ensures var r := CreateMachine(w, m, cls, orders, retries);
            || (r.result.Err? && OnlyRead(w, r.w))
            || (Decoded(cls).Ok? && SendsRequest(w, r.w, q) && AsTheClassSays(q, w, m.name, cls.spec.value, orders))
  {
    q := LaunchRequest("", [], [], []);
    if cls.provider == PROVIDER_AWS && Decoded(cls).Ok? && ClientAvailable(w) {
      q := FromImageSendsOneRequest(w.Skip(1), m, cls.spec.value, orders, retries);
    }
  }

  lemma {:induction false} FromImageSendsOneRequest(w: World, m: Machine, spec: ProviderSpec, orders: Orders,
                                                    retries: nat)
      returns (q: LaunchRequest)
    requires forall k :: k in orders.instance || k in orders.volume || k in orders.networkInterface ==> k in spec.tags
    ensures var r := CreateFromImage(w, m, spec, orders, retries);
            || (r.result.Err? && OnlyRead(w, r.w))
            || (SendsRequest(w, r.w, q) && AsTheClassSays(q, w, m.name, spec, orders))
  {
    q := LaunchRequest("", [], [], []);
    var images := DescribeImages(w, spec.ami);
    assert OnlyRead(w, images.w);
    if images.result.Success? && images.result.value != [] && images.result.value[0].Some? {
      var root := images.result.value[0].value;
      q := LaunchRequestOf(m.name, spec, root, orders);
      LaunchSendsRequest(images.w, m.name, spec, root, orders, retries);
    }
  }

  /** The device names in such a request are distinct exactly when no other device carries the image's root name. */
  lemma RequestedNamesDistinctIff(q: LaunchRequest, w: World, name: string, cls: MachineClass, orders: Orders)
    requires OrdersOf(orders, cls) && Decoded(cls).Ok? && AsTheClassSays(q, w, name, cls.spec.value, orders)
    ensures var devices, root := cls.spec.value.blockDevices, w.images[cls.spec.value.ami].value;
            (forall i, j :: 0 <= i < j < |q.mappings| ==> q.mappings[i].deviceName != q.mappings[j].deviceName)
            <==> !exists i :: 0 <= i < |devices| && !IsRoot(devices, i) && devices[i].deviceName == root
  {
    CompiledNamesDistinctIff(cls.spec.value.blockDevices, w.images[cls.spec.value.ami].value, q.mappings);
  }

  /** The tags are the class's entries with Name replaced by the machine name, each key once. */
  ghost predicate TagsOf(list: seq<Tag>, tags: map<string, string>, name: string) {
    && (forall i, j :: 0 <= i < j < |list| ==> list[i].key != list[j].key)
    && forall t :: t in list <==> t == Tag("Name", name) || (t.key in tags && t.key != "Name" && t.value == tags[t.key])
  }

  /** The request puts them on the instance, its volumes and its interfaces. */
  lemma RequestedTags(q: LaunchRequest, w: World, name: string, cls: MachineClass, orders: Orders)
    requires OrdersOf(orders, cls) && Decoded(cls).Ok? && AsTheClassSays(q, w, name, cls.spec.value, orders)
    ensures |q.tags| == 3
    ensures q.tags[0].resourceType == "instance" && TagsOf(q.tags[0].tags, cls.spec.value.tags, name)
    ensures q.tags[1].resourceType == "volume" && TagsOf(q.tags[1].tags, cls.spec.value.tags, name)
    ensures q.tags[2].resourceType == "network-interface" && TagsOf(q.tags[2].tags, cls.spec.value.tags, name)
  {
    LaunchTagsContents(cls.spec.value.tags, orders.instance, name);
    LaunchTagsContents(cls.spec.value.tags, orders.volume, name);
    LaunchTagsContents(cls.spec.value.tags, orders.networkInterface, name);
  }

  /** It asks for one interface per spec, of its type, at its device index or else at its position. */
  lemma RequestedNics(q: LaunchRequest, w: World, name: string, cls: MachineClass, orders: Orders, i: nat)
    requires OrdersOf(orders, cls) && Decoded(cls).Ok? && AsTheClassSays(q, w, name, cls.spec.value, orders)
    requires i < |cls.spec.value.networkInterfaces|
    ensures var spec := cls.spec.value.networkInterfaces[i];
            && |q.nics| == |cls.spec.value.networkInterfaces| && q.nics[i].interfaceType == spec.interfaceType
            && (spec.deviceIndex.Some? ==> q.nics[i].deviceIndex == spec.deviceIndex.value)
            && (spec.deviceIndex.None? ==> (q.nics[i].deviceIndex - i) % 0x1_0000_0000 == 0)
  {
  }

  /** And for one volume per device, under its own name or, for the root device, under the image's root name. */
  lemma RequestedDevices(q: LaunchRequest, w: World, name: string, cls: MachineClass, orders: Orders, i: nat)
    requires OrdersOf(orders, cls) && Decoded(cls).Ok? && AsTheClassSays(q, w, name, cls.spec.value, orders)
    requires i < |cls.spec.value.blockDevices|
    ensures var devices, root := cls.spec.value.blockDevices, w.images[cls.spec.value.ami].value;
            && |q.mappings| == |devices|
            && var m, d := q.mappings[i], devices[i].ebs;
               && m.deviceName == (if devices[i].deviceName == "/root" || |devices| == 1 then root
                                   else devices[i].deviceName)
               && m.ebs.volumeSize == d.volumeSize && m.ebs.volumeType == d.volumeType
               && m.ebs.encrypted == d.encrypted && m.ebs.snapshotID == d.snapshotID && m.ebs.throughput == d.throughput
               && (m.ebs.deleteOnTermination <==> d.deleteOnTermination != Some(false))
               && m.ebs.iops == (if d.iops > 0 then Some(d.iops) else None)
  {
    assert Compiles(cls.spec.value.blockDevices, i, w.images[cls.spec.value.ami], q.mappings[i]);
  }

  // --- Undisturbed creations ------------------------------------------------------------------------------------

  /** Nothing stands in the way of a launch but the API: image, annotation and a fresh birth are there. */
  ghost predicate ReadyToLaunch(w: World, m: Machine, cls: MachineClass) {
    && cls.provider == PROVIDER_AWS && Decoded(cls).Ok?
    && cls.spec.value.ami in w.images && w.images[cls.spec.value.ami].Some? && cls.spec.value.blockDevices != []
    && (cls.spec.value.placementSet || m.placementDecodes)
    && w.births != [] && Fresh(w, w.births[0], LaunchNics(cls.spec.value.networkInterfaces))
    && NodeName(w.births[0]) != ""
  }

  /** Then, with every call accepted, the creation succeeds and reports the new instance. */
  lemma {:induction false} UndisturbedCreateSucceeds(w: World, m: Machine, cls: MachineClass, orders: Orders,
                                                     retries: nat)
    requires OrdersOf(orders, cls) && ReadyToLaunch(w, m, cls)
    requires Accepting(w)
    ensures CreateMachine(w, m, cls, orders, retries).result
         == Ok(MachineResponse(ProviderId.Encode(cls.spec.value.region, w.births[0].id), NodeName(w.births[0])))
  {
    var spec, w1 := cls.spec.value, w.Skip(1);
    assert DescribeImages(w1, spec.ami) == Reply(w1.Skip(1), Success([w.images[spec.ami]]));
    var root := w.images[spec.ami].value;
    AcceptedLaunch(w1.Skip(1), m.name, spec, root, orders, retries);
    assert CreateFromImage(w1, m, spec, orders, retries) == Launch(w1.Skip(1), m.name, spec, root, orders, retries);
  }

  /** A creation that succeeds is on record: its instance is the machine's, in the history of that one call. */
  lemma {:induction false} SuccessIsRecorded(w: World, m: Machine, cls: MachineClass, orders: Orders, retries: nat)
    requires OrdersOf(orders, cls) && CreateMachine(w, m, cls, orders, retries).result.Ok?
    ensures w.births != []
    ensures Launchers(w, [Create(m, cls, orders, retries)]) == map[w.births[0].id := Launcher(cls, m.name)]
  {
    var op := Create(m, cls, orders, retries);
    CreateEffect(w, m, cls, orders, retries);
    RunOfOne(w, op);
  }

  lemma AcceptedLaunch(w: World, name: string, spec: ProviderSpec, root: string, orders: Orders, retries: nat)
    requires forall k :: k in orders.instance || k in orders.volume || k in orders.networkInterface ==> k in spec.tags
    requires Accepting(w)
    requires w.births != [] && Fresh(w, w.births[0], LaunchNics(spec.networkInterfaces))
    requires NodeName(w.births[0]) != ""
    ensures Launch(w, name, spec, root, orders, retries).result
         == Ok(MachineResponse(ProviderId.Encode(spec.region, w.births[0].id), NodeName(w.births[0])))
  {
  }

  // --- Waiting for the new instance -----------------------------------------------------------------------------

  /** The look with this number, counted from the call at position `from`, is accepted. */
  predicate Answered(script: seq<Outcome>, from: nat, look: nat) {
    OutcomeAt(script, from + look).Accept?
  }

  /** Of the looks 0 to retries, this is the first that is accepted. */
  ghost predicate FirstAnswered(script: seq<Outcome>, from: nat, retries: nat, j: nat) {
    j <= retries && Answered(script, from, j) && forall i: nat :: i < j ==> !Answered(script, from, i)
  }

  ghost predicate NoneAnswered(script: seq<Outcome>, from: nat, retries: nat) {
    forall j: nat :: j <= retries ==> !Answered(script, from, j)
  }

  lemma SkipIsLater(w: World, k: nat, n: nat)
    ensures w.Skip(k).Skip(n) == w.Skip(k + n)
    ensures forall i: nat :: OutcomeAt(w.Skip(k).script, i) == OutcomeAt(w.script, k + i)
  {
  }

  /** A known instance is seen by the first look that is accepted, and no look is taken after it. */
  lemma {:induction false} AwaitSees(w: World, id: string, retries: nat, j: nat)
    requires id in w.vms && FirstAnswered(w.script, 0, retries, j)
    ensures Await(w, id, retries) == Answer(w.Skip(j + 1), Ok(InstanceOf(id, w.vms[id], w.nics)))
    decreases retries
  {
    assert w.Outcome() == OutcomeAt(w.script, 0);
    if j > 0 {
      assert !Answered(w.script, 0, 0);
      SkipIsLater(w, 1, j);
      LaterLooks(w, retries);
      AwaitSees(w.Skip(1), id, retries - 1, j - 1);
    }
  }

  lemma LaterLooks(w: World, retries: nat)
    ensures forall i: nat :: Answered(w.Skip(1).script, 0, i) <==> Answered(w.script, 0, i + 1)
  {
    forall i: nat ensures Answered(w.Skip(1).script, 0, i) <==> Answered(w.script, 0, i + 1) {
      SkipIsLater(w, 1, 0);
      assert OutcomeAt(w.Skip(1).script, i) == OutcomeAt(w.script, 1 + i);
    }
  }

  /** The error a look ends with: an empty answer, or one that says so, means not found. */
  predicate LookError(o: Outcome, code: Code) {
    match o
    case Accept => code == NotFound
    case Blank => code == NotFound
    case Refuse(e) => code == if e == InstanceIdNotFound then NotFound else Internal
    case Lose(e) => code == if e == InstanceIdNotFound then NotFound else Internal
  }

  /** Where no look is accepted, or EC2 does not know the id, the wait ends after all looks with the last error. */
  lemma {:induction false} AwaitGivesUp(w: World, id: string, retries: nat)
    requires id !in w.vms || NoneAnswered(w.script, 0, retries)
    ensures var r := Await(w, id, retries);
            r.result.Err? && LookError(OutcomeAt(w.script, retries), r.result.code) && r.w == w.Skip(retries + 1)
    decreases retries
  {
    assert w.Outcome() == OutcomeAt(w.script, 0);
    assert id in w.vms ==> !Answered(w.script, 0, 0);
    if retries > 0 {
      SkipIsLater(w, 1, retries);
      LaterLooks(w, retries);
      AwaitGivesUp(w.Skip(1), id, retries - 1);
      assert OutcomeAt(w.Skip(1).script, retries - 1) == OutcomeAt(w.script, retries);
    }
  }

  /** The calls for client, image and launch are accepted. */
  predicate LaunchAcceptedFirst(w: World) {
    OutcomeAt(w.script, 0).Accept? && OutcomeAt(w.script, 1).Accept? && OutcomeAt(w.script, 2).Accept?
  }

  /** From there on, with the launched instance in the world. */
  ghost function AfterLaunch(w: World, m: Machine, cls: MachineClass, orders: Orders): World
    requires OrdersOf(orders, cls) && ReadyToLaunch(w, m, cls)
  {
    var spec := cls.spec.value;
    RunInstances(w.Skip(2), LaunchRequestOf(m.name, spec, w.images[spec.ami].value, orders)).w
  }

  lemma CreateIsAwait(w: World, m: Machine, cls: MachineClass, orders: Orders, retries: nat)
    requires OrdersOf(orders, cls) && ReadyToLaunch(w, m, cls) && LaunchAcceptedFirst(w)
    ensures var spec, w3, id := cls.spec.value, AfterLaunch(w, m, cls, orders), w.births[0].id;
            var seen := Await(w3, id, retries);
            && id in w3.vms && w3.vms[id].dns == w.births[0].dns
            && w3.script == w.Skip(3).script
            && CreateMachine(w, m, cls, orders, retries)
                 == Answer(seen.w, if seen.result.Err? then Err(Internal)
                                   else
                                     var nodeName := seen.result.value.dns.GetOr(w.births[0].reported.GetOr(""));
                                     if nodeName == "" then Err(Internal)
                                     else Ok(MachineResponse(ProviderId.Encode(spec.region, id), nodeName)))
  {
    var spec, w1, w2 := cls.spec.value, w.Skip(1), w.Skip(2);
    SkipIsLater(w, 1, 1);
    SkipIsLater(w, 2, 1);
    assert w.Outcome() == OutcomeAt(w.script, 0) && w1.Outcome() == OutcomeAt(w.script, 1);
    assert w2.Outcome() == OutcomeAt(w.script, 2);
    assert DescribeImages(w1, spec.ami) == Reply(w2, Success([w.images[spec.ami]]));
    LaunchIsAwait(w2, m.name, spec, w.images[spec.ami].value, orders, retries);
    assert CreateFromImage(w1, m, spec, orders, retries)
        == Launch(w2, m.name, spec, w.images[spec.ami].value, orders, retries);
  }

  lemma LaunchIsAwait(w: World, name: string, spec: ProviderSpec, root: string, orders: Orders, retries: nat)
    requires forall k :: k in orders.instance || k in orders.volume || k in orders.networkInterface ==> k in spec.tags
    requires w.Outcome().Accept? && w.births != [] && Fresh(w, w.births[0], LaunchNics(spec.networkInterfaces))
    ensures var w3, id := RunInstances(w, LaunchRequestOf(name, spec, root, orders)).w, w.births[0].id;
            var seen := Await(w3, id, retries);
            && id in w3.vms && w3.vms[id].dns == w.births[0].dns
            && w3.script == w.Skip(1).script
            && Launch(w, name, spec, root, orders, retries)
                 == Answer(seen.w, if seen.result.Err? then Err(Internal)
                                   else
                                     var nodeName := seen.result.value.dns.GetOr(w.births[0].reported.GetOr(""));
                                     if nodeName == "" then Err(Internal)
                                     else Ok(MachineResponse(ProviderId.Encode(spec.region, id), nodeName)))
  {
    var run := RunInstances(w, LaunchRequestOf(name, spec, root, orders));
    assert run.result == Success([Launched(Some(w.births[0].id), w.births[0].reported)]);
  }

  /** The answer of a creation that launched b. */
  function AnswerFor(cls: MachineClass, b: Birth): MachineResponse
    requires cls.spec.Some?
  {
    MachineResponse("aws:///" + cls.spec.value.region + "/" + b.id, b.dns.GetOr(b.reported.GetOr("")))
  }

  lemma {:induction false} CreateSees(w: World, m: Machine, cls: MachineClass, orders: Orders, retries: nat, j: nat)
    requires OrdersOf(orders, cls) && ReadyToLaunch(w, m, cls) && LaunchAcceptedFirst(w)
    requires FirstAnswered(w.script, 3, retries, j)
    ensures var r := CreateMachine(w, m, cls, orders, retries);
            r.result == Ok(AnswerFor(cls, w.births[0])) && r.w.script == w.Skip(4 + j).script
  {
    CreateIsAwait(w, m, cls, orders, retries);
    var w3 := AfterLaunch(w, m, cls, orders);
    LooksAfterLaunch(w, w3.script);
    AwaitSees(w3, w.births[0].id, retries, j);
  }

  lemma {:induction false} CreateGivesUp(w: World, m: Machine, cls: MachineClass, orders: Orders, retries: nat)
    requires OrdersOf(orders, cls) && ReadyToLaunch(w, m, cls) && LaunchAcceptedFirst(w)
    requires NoneAnswered(w.script, 3, retries)
    ensures var r := CreateMachine(w, m, cls, orders, retries);
            r.result == Err(Internal) && r.w.script == w.Skip(4 + retries).script
  {
    CreateIsAwait(w, m, cls, orders, retries);
    var w3 := AfterLaunch(w, m, cls, orders);
    LooksAfterLaunch(w, w3.script);
    AwaitGivesUp(w3, w.births[0].id, retries);
  }

  lemma LooksAfterLaunch(w: World, script: seq<Outcome>)
    requires script == w.Skip(3).script
    ensures forall i: nat :: Answered(script, 0, i) <==> Answered(w.script, 3, i)
  {
    forall i: nat ensures Answered(script, 0, i) <==> Answered(w.script, 3, i) {
      assert OutcomeAt(script, i) == OutcomeAt(w.script, 3 + i);
    }
  }

  /**
   * Once the instance is launched, the creation succeeds exactly when one of the retries + 1 looks at it is
   * accepted. It then reports the instance, and takes no look after the first that is; otherwise it answers
   * Internal after the last.
   */
  lemma {:induction false} CreateWaits(w: World, m: Machine, cls: MachineClass, orders: Orders, retries: nat)
    requires OrdersOf(orders, cls) && ReadyToLaunch(w, m, cls) && LaunchAcceptedFirst(w)
    ensures CreateMachine(w, m, cls, orders, retries).result
         == if exists j: nat :: j <= retries && Answered(w.script, 3, j)
            then Ok(AnswerFor(cls, w.births[0])) else Err(Internal)
    ensures forall j: nat :: FirstAnswered(w.script, 3, retries, j) ==>
              CreateMachine(w, m, cls, orders, retries).w.script == w.Skip(4 + j).script
    ensures NoneAnswered(w.script, 3, retries) ==>
              CreateMachine(w, m, cls, orders, retries).w.script == w.Skip(4 + retries).script
  {
    if NoneAnswered(w.script, 3, retries) {
      CreateGivesUp(w, m, cls, orders, retries);
    } else {
      var j := FirstOf(w.script, 3, retries);
      CreateSees(w, m, cls, orders, retries, j);
    }
  }

  lemma {:induction false} FirstOf(script: seq<Outcome>, from: nat, retries: nat) returns (j: nat)
    requires !NoneAnswered(script, from, retries)
    ensures FirstAnswered(script, from, retries, j)
    ensures forall k: nat :: FirstAnswered(script, from, retries, k) ==> k == j
    decreases retries
  {
    if retries > 0 && !NoneAnswered(script, from, retries - 1) {
      j := FirstOf(script, from, retries - 1);
    } else {
      j := retries;
    }
  }
}

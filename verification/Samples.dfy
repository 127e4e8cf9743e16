/** A small class and world, for the lemmas that show a property failing at one input. */
module Samples {
  import opened Wrappers
  import opened Tags
  import opened BlockDevices
  import opened Ec2
  import opened DriverSpec
  import Text

  const KEYS := [CLUSTER_PREFIX, ROLE_PREFIX]
  const TAGS := map[CLUSTER_PREFIX := "1", ROLE_PREFIX := "1"]
  const ORDERS := Orders(KEYS, KEYS, KEYS, KEYS, KEYS)

  /** A class with these interfaces, one device, and the checks to be switched off; it is valid if they are. */
  function Class(nics: seq<NicSpec>): MachineClass
    requires nics != []
  {
    MachineClass(PROVIDER_AWS, Some(Spec(nics)))
  }

  const ONE_NIC := [NicSpec(None, None, None)]

  function Spec(nics: seq<NicSpec>): ProviderSpec {
    ProviderSpec("region", "ami", TAGS, [BlockDevice("/dev/sda", SOUND_VOLUME)], nics, Some(false), true, true)
  }

  function Named(name: string): Machine {
    Machine(name, "", true)
  }

  /** No instance yet, and the image of the class. */
  function Empty(script: seq<Outcome>, births: seq<Birth>, pageSize: int, duplicateAt: int): (w: World)
    ensures Valid(w)
  {
    World([], map[], map[], script, births, [], map["ami" := Some("/dev/xvda")], pageSize, duplicateAt, true)
  }

  lemma ClassIsValid(nics: seq<NicSpec>)
    requires NicsAcceptable(nics)
    ensures Decoded(Class(nics)) == Ok(Spec(nics)) && OrdersOf(ORDERS, Class(nics))
  {
    KeysAreRight();
    KeysAreAnOrder(CLUSTER_PREFIX, ROLE_PREFIX);
    OneDevice("/dev/sda");
    assert Validated(Spec(nics));
  }

  lemma ContainsItself(s: string)
    ensures Text.Contains(s, s)
  {
  }

  lemma KeysAreRight()
    ensures IsClusterKey(CLUSTER_PREFIX) && IsRoleKey(ROLE_PREFIX) && CLUSTER_PREFIX != ROLE_PREFIX
    ensures HasClusterAndRole(TAGS)
  {
    ContainsItself(CLUSTER_PREFIX);
    ContainsItself(ROLE_PREFIX);
    Text.TooShort(ROLE_PREFIX, CLUSTER_PREFIX);
    assert CLUSTER_PREFIX in TAGS && ROLE_PREFIX in TAGS;
  }

  lemma KeysAreAnOrder(a: string, b: string)
    requires a != b
    ensures IsOrder([a, b], map[a := "1", b := "1"])
  {
    assert forall k :: k in [a, b] <==> k == a || k == b;
  }

  lemma OneDevice(name: string)
    ensures Acceptable([BlockDevice(name, SOUND_VOLUME)])
  {
  }

  /** The world after a creation whose calls are accepted. */
  function Created(w: World, name: string, nics: seq<NicSpec>): World
    requires w.births != [] && |w.births[0].nics| == |nics|
  {
    Birthed(w, w.births[0], LaunchTags(TAGS, KEYS, name), LaunchNics(nics))
    .(script := w.Skip(4).script, births := w.births[1..],
      log := w.log + [RunCall(LaunchRequestOf(name, Spec(nics), "/dev/xvda", ORDERS))])
  }

  /** The next four calls are accepted. */
  predicate FourAccepted(w: World) {
    forall i :: 0 <= i < 4 && i < |w.script| ==> w.script[i].Accept?
  }

  lemma SkipsAdd(w: World, k: nat)
    ensures w.Skip(k).Skip(1) == w.Skip(k + 1)
  {
  }

  lemma CreateAccepted(w: World, name: string, nics: seq<NicSpec>)
    requires NicsAcceptable(nics) && FourAccepted(w) && w.images == map["ami" := Some("/dev/xvda")]
    requires w.births != [] && Fresh(w, w.births[0], LaunchNics(nics))
    requires NodeName(w.births[0]) != ""
    ensures CreateMachine(w, Named(name), Class(nics), ORDERS, 0).w == Created(w, name, nics)
  {
    ClassIsValid(nics);
    AcceptedSkips(w);
    FromImageAccepted(w.Skip(1), name, nics);
    assert ClientAvailable(w) && CreateMachine(w, Named(name), Class(nics), ORDERS, 0)
        == CreateFromImage(w.Skip(1), Named(name), Spec(nics), ORDERS, 0);
  }

  lemma AcceptedSkips(w: World)
    requires FourAccepted(w)
    ensures w.Outcome().Accept? && w.Skip(1).Outcome().Accept? && w.Skip(2).Outcome().Accept?
              && w.Skip(3).Outcome().Accept?
    ensures w.Skip(1).Skip(1) == w.Skip(2) && w.Skip(2).Skip(1) == w.Skip(3) && w.Skip(2).Skip(2) == w.Skip(4)
    ensures w.Skip(1).Skip(1).Skip(1) == w.Skip(3) && w.Skip(1).Skip(3) == w.Skip(4)
  {
  }

  lemma FromImageAccepted(w: World, name: string, nics: seq<NicSpec>)
    requires w.Outcome().Accept? && w.Skip(1).Outcome().Accept? && w.Skip(1).Skip(1).Outcome().Accept?
    requires w.images == map["ami" := Some("/dev/xvda")]
    requires w.births != [] && Fresh(w, w.births[0], LaunchNics(nics))
    requires NodeName(w.births[0]) != ""
    ensures forall k :: k in ORDERS.instance || k in ORDERS.volume || k in ORDERS.networkInterface ==>
              k in Spec(nics).tags
    ensures CreateFromImage(w, Named(name), Spec(nics), ORDERS, 0).w
              == Created(w, name, nics).(script := w.Skip(3).script)
  {
    var w1 := w.Skip(1);
    LaunchAccepted(w1, name, nics);
    assert DescribeImages(w, "ami") == Reply(w1, Success([Some("/dev/xvda")]));
    assert w1.Skip(2) == w.Skip(3);
    assert CreateFromImage(w, Named(name), Spec(nics), ORDERS, 0)
             == Launch(w1, name, Spec(nics), "/dev/xvda", ORDERS, 0);
    assert Created(w1, name, nics).(script := w.Skip(3).script) == Created(w, name, nics).(script := w.Skip(3).script);
  }

  lemma LaunchAccepted(w: World, name: string, nics: seq<NicSpec>)
    requires w.Outcome().Accept? && w.Skip(1).Outcome().Accept?
    requires w.births != [] && Fresh(w, w.births[0], LaunchNics(nics))
    requires NodeName(w.births[0]) != ""
    ensures forall k :: k in ORDERS.instance || k in ORDERS.volume || k in ORDERS.networkInterface ==>
              k in Spec(nics).tags
    ensures Launch(w, name, Spec(nics), "/dev/xvda", ORDERS, 0).w == Created(w, name, nics).(script := w.Skip(2).script)
  {
    var request := LaunchRequestOf(name, Spec(nics), "/dev/xvda", ORDERS);
    var run := RunInstances(w, request);
    assert run.result == Success([Launched(Some(w.births[0].id), w.births[0].reported)]);
    SkipsAdd(w, 1);
    assert run.w == Created(w, name, nics).(script := w.Skip(1).script);
  }
}

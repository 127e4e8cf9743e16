/** Orphan safety: whatever happened before, ListMachines finds every launched instance under its machine's name. */
module Orphans {
  import opened Wrappers
  import opened Tags
  import opened Ec2
  import opened DriverSpec
  import opened Effects
  import opened Histories
  import opened Marks
  import ProviderId
  import Samples

  function ProviderIDs(region: string, instances: seq<Instance>): (keys: seq<string>)
    ensures |keys| == |instances| && forall i :: 0 <= i < |keys| ==>
              keys[i] == ProviderId.Encode(region, instances[i].id)
  {
    seq(|instances|, i requires 0 <= i < |instances| => ProviderId.Encode(region, instances[i].id))
  }

  function NamesOf(instances: seq<Instance>): (names: seq<string>)
    ensures |names| == |instances| && forall i :: 0 <= i < |names| ==> names[i] == NameOf(instances[i].tags)
  {
    seq(|instances|, i requires 0 <= i < |instances| => NameOf(instances[i].tags))
  }

  /** The map has one entry for each key, with the value at the same position, and no other. */
  ghost predicate Tabulates(list: map<string, string>, keys: seq<string>, values: seq<string>)
    requires |keys| == |values|
  {
    && |list| == |keys|
    && (forall i :: 0 <= i < |keys| ==> keys[i] in list && list[keys[i]] == values[i])
    && forall key :: key in list ==> key in keys
  }

  lemma OneMore(list: map<string, string>, keys: seq<string>, values: seq<string>, n: nat)
    requires |keys| == |values| == n + 1 && Tabulates(list, keys[..n], values[..n]) && keys[n] !in keys[..n]
    ensures Tabulates(list[keys[n] := values[n]], keys, values)
  {
  }

  /** One entry per instance, under its provider id and with the value of its Name tag. */
  ghost predicate ListsExactly(list: map<string, string>, region: string, instances: seq<Instance>) {
    Tabulates(list, ProviderIDs(region, instances), NamesOf(instances))
  }

  lemma ProviderIDsDistinct(region: string, instances: seq<Instance>)
    requires forall i, j :: 0 <= i < j < |instances| ==> instances[i].id != instances[j].id
    ensures NoDuplicates(ProviderIDs(region, instances))
  {
    var keys := ProviderIDs(region, instances);
    forall i, j | 0 <= i < j < |keys| ensures keys[i] != keys[j] {
      if keys[i] == keys[j] {
        ProviderId.EncodeInjective(region, instances[i].id, instances[j].id);
      }
    }
  }

  function Table(keys: seq<string>, values: seq<string>): map<string, string>
    requires |keys| == |values|
  {
    if keys == [] then map[]
    else Table(keys[..|keys| - 1], values[..|keys| - 1])[keys[|keys| - 1] := values[|keys| - 1]]
  }

  lemma {:induction false} TableTabulates(keys: seq<string>, values: seq<string>)
    requires |keys| == |values| && NoDuplicates(keys)
    ensures Tabulates(Table(keys, values), keys, values)
  {
    if keys != [] {
      var n := |keys| - 1;
      TableTabulates(keys[..n], values[..n]);
      assert keys[n] !in keys[..n];
      OneMore(Table(keys[..n], values[..n]), keys, values, n);
    }
  }

  lemma {:induction false} MachineListIsTable(region: string, instances: seq<Instance>)
    ensures MachineList(region, instances) == Table(ProviderIDs(region, instances), NamesOf(instances))
  {
    if instances != [] {
      var n := |instances| - 1;
      MachineListIsTable(region, instances[..n]);
      assert ProviderIDs(region, instances)[..n] == ProviderIDs(region, instances[..n]);
      assert NamesOf(instances)[..n] == NamesOf(instances[..n]);
    }
  }

  lemma MachineListIsExact(region: string, instances: seq<Instance>)
    requires forall i, j :: 0 <= i < j < |instances| ==> instances[i].id != instances[j].id
    ensures ListsExactly(MachineList(region, instances), region, instances)
  {
    ProviderIDsDistinct(region, instances);
    MachineListIsTable(region, instances);
    TableTabulates(ProviderIDs(region, instances), NamesOf(instances));
  }

  lemma FoundDistinct(w: World, filters: seq<Filter>)
    requires NoDuplicates(w.issued)
    ensures forall i, j :: 0 <= i < j < |Found(w, filters)| ==> Found(w, filters)[i].id != Found(w, filters)[j].id
  {
    SelectMembers(w.vms, w.issued, filters);
  }

  /**
   * The list shows exactly the instances that pass the filters and that the paged lookup reaches, each
   * once and under its Name tag. It reaches all of them unless the server repeats a token too early.
   */
  lemma ListIsExact(w: World, cls: MachineClass, orders: Orders)
    requires NoDuplicates(w.issued) && ListMachines(w, cls, orders).result.Ok?
    ensures var filters := ListFilters(Selected(orders.scan));
            ListsExactly(ListMachines(w, cls, orders).result.value, cls.spec.value.region,
              Found(w, filters)[..Reached(w, filters)])
  {
    var filters := ListFilters(Selected(orders.scan));
    FetchAllReads(w.Skip(1), filters);
    FoundDistinct(w, filters);
    MachineListIsExact(cls.spec.value.region, Found(w, filters)[..Reached(w, filters)]);
  }

  /**
   * The instance is on the list, under its Name tag, exactly when the lookup reaches its position
   * among the matches.
   */
  lemma ListedIffReached(w: World, cls: MachineClass, orders: Orders, j: nat)
    requires NoDuplicates(w.issued) && ListMachines(w, cls, orders).result.Ok?
    requires j < |Matching(w, ListFilters(Selected(orders.scan)))|
    ensures var list, filters := ListMachines(w, cls, orders).result.value, ListFilters(Selected(orders.scan));
            var id := Matching(w, filters)[j];
            var key := ProviderId.Encode(cls.spec.value.region, id);
            && (key in list <==> j < Reached(w, filters))
            && (key in list ==> id in w.vms && list[key] == NameOf(w.vms[id].tags))
  {
    var region, filters := cls.spec.value.region, ListFilters(Selected(orders.scan));
    var list, found := ListMachines(w, cls, orders).result.value, Found(w, filters);
    var shown := found[..Reached(w, filters)];
    ListIsExact(w, cls, orders);
    FoundShows(w, filters);
    FoundDistinct(w, filters);
    ProviderIDsDistinct(region, found);
    assert ProviderIDs(region, shown) == ProviderIDs(region, found)[..|shown|];
    assert ProviderIDs(region, found)[j] == ProviderId.Encode(region, Matching(w, filters)[j]);
    if j < |shown| {
      assert ProviderIDs(region, shown)[j] in list && NamesOf(shown)[j] == NameOf(found[j].tags);
    }
  }

  /** The instance is the j-th that matches the lookup for the list. */
  ghost predicate IsMatch(w: World, orders: Orders, j: nat, id: string) {
    var matching := Matching(w, ListFilters(Selected(orders.scan)));
    j < |matching| && matching[j] == id
  }

  /** The list has the instance exactly when the lookup reaches position j, and then under the name. */
  ghost predicate ListedAs(w: World, list: map<string, string>, cls: MachineClass, orders: Orders, j: nat, id: string,
                           name: string)
    requires cls.spec.Some?
  {
    var key := ProviderId.Encode(cls.spec.value.region, id);
    && (key in list <==> j < Reached(w, ListFilters(Selected(orders.scan))))
    && (key in list ==> list[key] == name)
  }

  /**
   * In a consistent world every launched instance in a listed state is among the matches, and it is
   * listed, under its machine's name, exactly when the lookup reaches its position.
   */
  lemma ConsistentWorldLists(w: World, launchers: map<string, Launcher>, cls: MachineClass, orders: Orders, id: string)
      returns (j: nat)
    requires Consistent(w, launchers) && OrdersOf(orders, cls)
    requires id in launchers && launchers[id].cls == cls
    requires id in w.vms && w.vms[id].state in LISTED_STATES
    ensures IsMatch(w, orders, j, id)
    ensures ListMachines(w, cls, orders).result.Ok? ==>
              ListedAs(w, ListMachines(w, cls, orders).result.value, cls, orders, j, id, launchers[id].name)
  {
    var l, filters := launchers[id], ListFilters(Selected(orders.scan));
    assert BearsMarks(w.vms[id], l);
    MarkedName(w.vms[id], l);
    MarkedPasses(w.vms[id], l, orders);
    SelectMembers(w.vms, w.issued, filters);
    j :| 0 <= j < |Matching(w, filters)| && Matching(w, filters)[j] == id;
    if ListMachines(w, cls, orders).result.Ok? {
      ListedIffReached(w, cls, orders, j);
    }
  }

  /** The lookup for the list reaches everything that matches. */
  ghost predicate ListIsWhole(w: World, orders: Orders) {
    Reached(w, ListFilters(Selected(orders.scan))) == |Matching(w, ListFilters(Selected(orders.scan)))|
  }

  /**
   * For every history: an instance that some CreateMachine launched, whatever that call answered, and
   * that is still in a listed state, is in a list its class obtains exactly when the lookup reaches it,
   * and then under exactly the machine name that launched it. Only a server that repeats a page token
   * keeps the lookup from reaching every match.
   */
  lemma {:induction false} OrphanSafety(w: World, ops: seq<Op>, cls: MachineClass, orders: Orders, id: string)
      returns (j: nat)
    requires Valid(w) && OrdersOf(orders, cls)
    requires forall i :: 0 <= i < |ops| ==> Legal(ops[i])
    requires id in Launchers(w, ops) && Launchers(w, ops)[id].cls == cls
    requires id in Run(w, ops).vms && Run(w, ops).vms[id].state in LISTED_STATES
    ensures IsMatch(Run(w, ops), orders, j, id)
    ensures var list := ListMachines(Run(w, ops), cls, orders).result;
            list.Ok? ==>
              && ListedAs(Run(w, ops), list.value, cls, orders, j, id, Launchers(w, ops)[id].name)
              && (w.duplicateAt <= 0 || w.pageSize <= 0 || ListIsWhole(Run(w, ops), orders) ==>
                    ProviderId.Encode(cls.spec.value.region, id) in list.value)
  {
    RunStaysConsistent(w, ops);
    j := ConsistentWorldLists(Run(w, ops), Launchers(w, ops), cls, orders, id);
  }

  /** And the list is obtained as soon as the API accepts the calls for the client and the pages. */
  lemma ListSucceeds(w: World, cls: MachineClass, orders: Orders)
    requires cls.provider == PROVIDER_AWS && Decoded(cls).Ok?
    requires Accepting(w)
    ensures ListMachines(w, cls, orders).result.Ok?
  {
    AcceptedLookup(w.Skip(1), ListFilters(Selected(orders.scan)));
  }

  // --- One list that misses an instance -------------------------------------------------------------------------

  function OneNicClass(): MachineClass {
    Samples.Class(Samples.ONE_NIC)
  }

  /** An instance with one interface of its own. */
  function Newborn(id: string, nic: string): Birth {
    Birth(id, None, Some("ip"), None, [BirthNic(nic, None)])
  }

  /** Pages of one instance, and the first token repeated. */
  function Repeating(): World {
    Samples.Empty([], [Newborn("i-1", "e1"), Newborn("i-2", "e2")], 1, 1)
  }

  function CreateTwo(): seq<Op> {
    [Create(Samples.Named("a"), OneNicClass(), Samples.ORDERS, 0),
     Create(Samples.Named("b"), OneNicClass(), Samples.ORDERS, 0)]
  }

  function AfterOne(): World {
    Samples.Created(Repeating(), "a", Samples.ONE_NIC)
  }

  function AfterTwo(): World {
    Samples.Created(AfterOne(), "b", Samples.ONE_NIC)
  }

  lemma OneThenTwo()
    ensures CreateMachine(Repeating(), Samples.Named("a"), OneNicClass(), Samples.ORDERS, 0).w == AfterOne()
    ensures CreateMachine(AfterOne(), Samples.Named("b"), OneNicClass(), Samples.ORDERS, 0).w == AfterTwo()
  {
    NewbornsAreFresh();
    OneNewborn(Repeating(), "a", "i-1", "e1");
    OneNewborn(AfterOne(), "b", "i-2", "e2");
  }

  lemma OneNewborn(w: World, name: string, id: string, nic: string)
    requires w.script == [] && w.images == map["ami" := Some("/dev/xvda")]
    requires w.births != [] && w.births[0] == Newborn(id, nic)
    requires Fresh(w, Newborn(id, nic), LaunchNics(Samples.ONE_NIC))
    ensures CreateMachine(w, Samples.Named(name), OneNicClass(), Samples.ORDERS, 0).w
              == Samples.Created(w, name, Samples.ONE_NIC)
  {
    Samples.CreateAccepted(w, name, Samples.ONE_NIC);
  }

  lemma NewbornsAreFresh()
    ensures Fresh(Repeating(), Newborn("i-1", "e1"), LaunchNics(Samples.ONE_NIC))
    ensures Fresh(AfterOne(), Newborn("i-2", "e2"), LaunchNics(Samples.ONE_NIC))
    ensures Repeating().births == [Newborn("i-1", "e1"), Newborn("i-2", "e2")]
    ensures AfterOne().births == [Newborn("i-2", "e2")]
  {
    assert "i-1"[2] != "i-2"[2];
  }

  lemma IdsIssued()
    ensures AfterOne().issued == ["i-1"] && AfterTwo().issued == ["i-1", "i-2"]
    ensures Repeating().script == [] && AfterOne().script == []
  {
    NewbornsAreFresh();
  }

  lemma TwoAreThere()
    ensures var w := AfterTwo();
            && Accepting(w) && w.pageSize == 1 && w.duplicateAt == 1
            && "i-1" in w.vms && w.vms["i-1"].state == Pending && "i-2" in w.vms && w.vms["i-2"].state == Pending
  {
    assert "i-1"[2] != "i-2"[2];
  }

  lemma {:induction false} RunTwo()
    ensures forall i :: 0 <= i < 2 ==> Legal(CreateTwo()[i])
    ensures Run(Repeating(), CreateTwo()[..0]) == Repeating()
    ensures Run(Repeating(), CreateTwo()[..1]) == AfterOne() && Run(Repeating(), CreateTwo()) == AfterTwo()
  {
    var ops := CreateTwo();
    Samples.ClassIsValid(Samples.ONE_NIC);
    OneThenTwo();
    assert Step(Repeating(), ops[0]) == AfterOne() && Step(AfterOne(), ops[1]) == AfterTwo();
    assert ops[..1] == [ops[0]] && ops[..0] == [];
    RunOfTwo(Repeating(), ops[0], ops[1]);
  }

  lemma {:induction false} TwoLaunched()
    ensures forall i :: 0 <= i < 2 ==> Legal(CreateTwo()[i])
    ensures Launchers(Repeating(), CreateTwo())
         == map["i-1" := Launcher(OneNicClass(), "a"), "i-2" := Launcher(OneNicClass(), "b")]
  {
    RunTwo();
    IdsIssued();
    LaunchersOfTwo(Repeating(), CreateTwo(), "i-1", "i-2");
  }

  lemma LaunchersOfTwo(w: World, ops: seq<Op>, a: string, b: string)
    requires |ops| == 2 && ops[0].Create? && ops[1].Create? && (forall i :: 0 <= i < 2 ==> Legal(ops[i]))
    requires w.issued == [] && Run(w, ops[..1]).issued == [a] && Run(w, ops).issued == [a, b]
    ensures Launchers(w, ops) == map[a := Launcher(ops[0].cls, ops[0].m.name), b := Launcher(ops[1].cls, ops[1].m.name)]
  {
    assert ops[..1][..0] == [];
    assert Run(w, []) == w && Launchers(w, []) == map[];
    assert Launchers(w, ops[..1]) == map[a := Launcher(ops[0].cls, ops[0].m.name)];
  }

  /** Where every lookup ends after one instance, a list has at most one of two launched instances. */
  lemma {:induction false} ListHasOneOfTwo(w: World, ops: seq<Op>, cls: MachineClass, orders: Orders, a: string,
                                           b: string)
      returns (missed: string)
    requires Valid(w) && OrdersOf(orders, cls) && (forall i :: 0 <= i < |ops| ==> Legal(ops[i]))
    requires a != b && a in Launchers(w, ops) && b in Launchers(w, ops)
    requires Launchers(w, ops)[a].cls == cls && Launchers(w, ops)[b].cls == cls
    requires a in Run(w, ops).vms && Run(w, ops).vms[a].state in LISTED_STATES
    requires b in Run(w, ops).vms && Run(w, ops).vms[b].state in LISTED_STATES
    requires Run(w, ops).pageSize == 1 && Run(w, ops).duplicateAt == 1
    requires ListMachines(Run(w, ops), cls, orders).result.Ok?
    ensures missed == a || missed == b
    ensures ProviderId.Encode(cls.spec.value.region, missed) !in ListMachines(Run(w, ops), cls, orders).result.value
  {
    var j := OrphanSafety(w, ops, cls, orders, a);
    var k := OrphanSafety(w, ops, cls, orders, b);
    assert j != k;
    assert Reached(Run(w, ops), ListFilters(Selected(orders.scan))) == 1;
    missed := if j >= 1 then a else b;
  }

  /** A list is obtained, every call being accepted, and one of two launched instances is not on it. */
  lemma {:induction false} ListMisses() returns (missed: string)
    ensures forall i :: 0 <= i < 2 ==> Legal(CreateTwo()[i])
    ensures Valid(Repeating()) && Run(Repeating(), CreateTwo()) == AfterTwo()
    ensures missed in Launchers(Repeating(), CreateTwo())
    ensures missed in AfterTwo().vms && AfterTwo().vms[missed].state == Pending
    ensures var list := ListMachines(AfterTwo(), OneNicClass(), Samples.ORDERS).result;
            list.Ok? && ProviderId.Encode("region", missed) !in list.value
  {
    var cls := OneNicClass();
    Samples.ClassIsValid(Samples.ONE_NIC);
    RunTwo();
    TwoLaunched();
    TwoAreThere();
    ListSucceeds(AfterTwo(), cls, Samples.ORDERS);
    assert "i-1"[2] != "i-2"[2];
    missed := ListHasOneOfTwo(Repeating(), CreateTwo(), cls, Samples.ORDERS, "i-1", "i-2");
  }
}

/**
 * Which instances the lookups, the list and a deletion by tags concern, in plain terms: those of the class's
 * own cluster and role.
 */
module Scopes {
  import opened Wrappers
  import opened Tags
  import opened Ec2
  import opened DriverSpec
  import opened Effects
  import opened Orphans
  import opened Deletion
  import opened Multiplicity

  predicate ClusterKeyOf(tags: map<string, string>, key: string) {
    key in tags && Text.Contains(key, "kubernetes.io/cluster/")
  }

  predicate RoleKeyOf(tags: map<string, string>, key: string) {
    key in tags && Text.Contains(key, "kubernetes.io/role/") && !Text.Contains(key, "kubernetes.io/cluster/")
  }

  /** The instance carries a cluster key and a role key of the class, and is neither shutting down nor terminated. */
  ghost predicate OwnOf(vm: Vm, tags: map<string, string>) {
    && (exists i :: 0 <= i < |vm.tags| && ClusterKeyOf(tags, vm.tags[i].key))
    && (exists i :: 0 <= i < |vm.tags| && RoleKeyOf(tags, vm.tags[i].key))
    && vm.state != ShuttingDown && vm.state != Terminated
  }

  ghost predicate NamedBy(vm: Vm, name: string) {
    exists i :: 0 <= i < |vm.tags| && vm.tags[i] == Tag("Name", name)
  }

  /** The value of the first Name tag, or nothing. */
  ghost predicate FirstName(tags: seq<Tag>, name: string) {
    if exists i :: 0 <= i < |tags| && tags[i].key == "Name"
    then exists i :: 0 <= i < |tags| && tags[i] == Tag("Name", name) && forall j :: 0 <= j < i ==> tags[j].key != "Name"
    else name == ""
  }

  /** The class has one cluster key and one role key, as it has if a scan of its tags leaves no choice. */
  ghost predicate OneOfEach(tags: map<string, string>) {
    && (forall k, l :: ClusterKeyOf(tags, k) && ClusterKeyOf(tags, l) ==> k == l)
    && forall k, l :: RoleKeyOf(tags, k) && RoleKeyOf(tags, l) ==> k == l
  }

  /** The server repeats no page token before it has shown as many instances as there are ids. */
  predicate NeverCutShort(w: World) {
    w.pageSize <= 0 || w.duplicateAt <= 0 || |w.issued| <= w.duplicateAt * w.pageSize
  }

  lemma KeysMean(tags: map<string, string>)
    ensures forall k :: k in tags && IsClusterKey(k) <==> ClusterKeyOf(tags, k)
    ensures forall k :: k in tags && IsRoleKey(k) <==> RoleKeyOf(tags, k)
  {
  }

  lemma PassesListIff(vm: Vm, s: Selection)
    ensures Passes(vm, ListFilters(s)) <==>
              && (exists i :: 0 <= i < |vm.tags| && vm.tags[i].key == s.cluster)
              && (exists i :: 0 <= i < |vm.tags| && vm.tags[i].key == s.role)
              && vm.state != ShuttingDown && vm.state != Terminated
  {
    var filters := ListFilters(s);
    assert filters[0] == TagKey([s.cluster]) && filters[1] == TagKey([s.role]);
    assert filters[2] == StateName(LISTED_STATES);
    assert Passes(vm, filters) <==> Satisfies(vm, filters[0]) && Satisfies(vm, filters[1]) && Satisfies(vm, filters[2]);
  }

  lemma PassesMachineIff(vm: Vm, name: string, s: Selection)
    ensures Passes(vm, MachineFilters(name, s)) <==> NamedBy(vm, name) && Passes(vm, ListFilters(s))
  {
    var filters, rest := MachineFilters(name, s), ListFilters(s);
    assert filters[0] == TagName([name]);
    assert Satisfies(vm, filters[0]) <==> NamedBy(vm, name) by {
      if Satisfies(vm, filters[0]) {
        var i :| 0 <= i < |vm.tags| && vm.tags[i].key == NAME && vm.tags[i].value in [name];
        assert vm.tags[i] == Tag("Name", name);
      }
    }
    forall i | 0 <= i < |rest| ensures filters[i + 1] == rest[i] {
    }
    forall i | 0 < i < |filters| ensures filters[i] == rest[i - 1] {
    }
  }

  /** What passes is the class's own; with one key of each kind nothing else is. */
  lemma PassesListOwn(vm: Vm, tags: map<string, string>, order: seq<string>)
    requires IsOrder(order, tags) && HasClusterAndRole(tags)
    ensures Passes(vm, ListFilters(Selected(order))) ==> OwnOf(vm, tags)
    ensures OneOfEach(tags) ==> (Passes(vm, ListFilters(Selected(order))) <==> OwnOf(vm, tags))
  {
    KeysMean(tags);
    SelectionIsPossible(order, tags);
    PassesListIff(vm, Selected(order));
    assert ClusterKeyOf(tags, Selected(order).cluster) && RoleKeyOf(tags, Selected(order).role);
  }

  lemma {:induction false} NameOfIsFirst(tags: seq<Tag>)
    ensures FirstName(tags, NameOf(tags))
  {
    if tags != [] && tags[0].key != NAME {
      NameOfIsFirst(tags[1..]);
      forall i | 0 <= i < |tags| - 1 ensures tags[1..][i] == tags[i + 1] {
      }
      if i :| 0 <= i < |tags| - 1 && tags[1..][i] == Tag("Name", NameOf(tags))
              && forall j :: 0 <= j < i ==> tags[1..][j].key != "Name" {
        assert tags[i + 1] == Tag("Name", NameOf(tags));
        forall j | 0 <= j < i + 1 ensures tags[j].key != "Name" {
          assert j > 0 ==> tags[j] == tags[1..][j - 1];
        }
      }
      if k :| 0 <= k < |tags| && tags[k].key == "Name" {
        assert tags[1..][k - 1] == tags[k];
      }
    }
  }

  // --- Listing --------------------------------------------------------------------------------------------------

  /** Every entry of a list stands for an own instance, and shows its first Name tag, under every scan order. */
  lemma ListedAreOwn(w: World, cls: MachineClass, orders: Orders, key: string) returns (id: string)
    requires NoDuplicates(w.issued) && OrdersOf(orders, cls)
    requires ListMachines(w, cls, orders).result.Ok? && key in ListMachines(w, cls, orders).result.value
    ensures id in w.vms && OwnOf(w.vms[id], cls.spec.value.tags)
    ensures key == "aws:///" + cls.spec.value.region + "/" + id
    ensures FirstName(w.vms[id].tags, ListMachines(w, cls, orders).result.value[key])
  {
    var filters := ListFilters(Selected(orders.scan));
    ListIsExact(w, cls, orders);
    var shown := Found(w, filters)[..Reached(w, filters)];
    var i :| 0 <= i < |shown| && ProviderIDs(cls.spec.value.region, shown)[i] == key;
    id := Matching(w, filters)[i];
    assert id in Matching(w, filters);
    SelectMembers(w.vms, w.issued, filters);
    PassesListOwn(w.vms[id], cls.spec.value.tags, orders.scan);
    FoundShows(w, filters);
    assert NamesOf(shown)[i] == NameOf(w.vms[id].tags);
    NameOfIsFirst(w.vms[id].tags);
  }

  lemma ReachesEverything(w: World, filters: seq<Filter>)
    requires NeverCutShort(w)
    ensures Reached(w, filters) == |Matching(w, filters)|
  {
    SelectIsShorter(w.vms, w.issued, filters);
  }

  lemma {:induction false} SelectIsShorter(vms: map<string, Vm>, ids: seq<string>, filters: seq<Filter>)
    ensures |Select(vms, ids, filters)| <= |ids|
  {
    if ids != [] {
      SelectIsShorter(vms, ids[..|ids| - 1], filters);
    }
  }

  /** With one key of each kind and no list cut short, exactly the own instances are listed. */
  lemma ListedIffOwn(w: World, cls: MachineClass, orders: Orders, id: string)
    requires Valid(w) && OrdersOf(orders, cls) && NeverCutShort(w) && ListMachines(w, cls, orders).result.Ok?
    requires OneOfEach(cls.spec.value.tags) && id in w.vms
    ensures "aws:///" + cls.spec.value.region + "/" + id in ListMachines(w, cls, orders).result.value <==>
              OwnOf(w.vms[id], cls.spec.value.tags)
  {
    var region, filters := cls.spec.value.region, ListFilters(Selected(orders.scan));
    var key := "aws:///" + region + "/" + id;
    PassesListOwn(w.vms[id], cls.spec.value.tags, orders.scan);
    if OwnOf(w.vms[id], cls.spec.value.tags) {
      SelectMembers(w.vms, w.issued, filters);
      var j: nat :| j < |Matching(w, filters)| && Matching(w, filters)[j] == id;
      ReachesEverything(w, filters);
      ListedIffReached(w, cls, orders, j);
    } else if key in ListMachines(w, cls, orders).result.value {
      var other := ListedAreOwn(w, cls, orders, key);
      ProviderId.EncodeInjective(region, id, other);
    }
  }

  // --- Machines -------------------------------------------------------------------------------------------------

  /** What belongs to the machine of the class, going by the tags. */
  ghost predicate Backs(vm: Vm, cls: MachineClass, name: string)
    requires cls.spec.Some?
  {
    OwnOf(vm, cls.spec.value.tags) && NamedBy(vm, name)
  }

  lemma PassesMachineOwn(vm: Vm, cls: MachineClass, name: string, orders: Orders)
    requires Decoded(cls).Ok? && OrdersOf(orders, cls)
    ensures Passes(vm, MachineFilters(name, Selected(orders.scan))) ==> Backs(vm, cls, name)
    ensures OneOfEach(cls.spec.value.tags) ==>
              (Passes(vm, MachineFilters(name, Selected(orders.scan))) <==> Backs(vm, cls, name))
  {
    PassesMachineIff(vm, name, Selected(orders.scan));
    PassesListOwn(vm, cls.spec.value.tags, orders.scan);
  }

  /** Without a provider id, every instance the lookup finds for a machine backs it. */
  lemma FoundBack(w: World, m: Machine, cls: MachineClass, orders: Orders, i: nat)
    requires Decoded(cls).Ok? && OrdersOf(orders, cls) && m.providerID == ""
    requires MatchMachine(w, m, Selected(orders.scan)).result.Ok?
    requires i < |MatchMachine(w, m, Selected(orders.scan)).result.value|
    ensures var t := MatchMachine(w, m, Selected(orders.scan)).result.value[i];
            t.id in w.vms && Backs(w.vms[t.id], cls, m.name)
  {
    var filters := MachineFilters(m.name, Selected(orders.scan));
    FetchAllReads(w, filters);
    SelectMembers(w.vms, w.issued, filters);
    var id := Matching(w, filters)[i];
    assert id in Matching(w, filters);
    PassesMachineOwn(w.vms[id], cls, m.name, orders);
  }

  /** With one key of each kind and nothing cut short, an answered lookup finds exactly what backs the machine. */
  lemma FoundIffBacks(w: World, m: Machine, cls: MachineClass, orders: Orders, id: string)
    requires Valid(w) && Decoded(cls).Ok? && OrdersOf(orders, cls) && m.providerID == "" && id in w.vms
    requires OneOfEach(cls.spec.value.tags) && NeverCutShort(w)
    requires MatchMachine(w, m, Selected(orders.scan)).result != Err(Internal)
    ensures var found := MatchMachine(w, m, Selected(orders.scan)).result;
            && (found.Ok? || found == Err(NotFound))
            && (Backs(w.vms[id], cls, m.name) <==> found.Ok? && id in IDs(found.value))
  {
    var filters := MachineFilters(m.name, Selected(orders.scan));
    FetchAllReads(w, filters);
    ReachesEverything(w, filters);
    SelectMembers(w.vms, w.issued, filters);
    PassesMachineOwn(w.vms[id], cls, m.name, orders);
    assert FetchAll(w, filters).result.Ok?;
    FetchedIDs(w, filters);
    assert ReachedIDs(w, filters) == Matching(w, filters);
  }

  /** A deletion by tags changes no instance that does not back the machine, in particular none of another cluster. */
  lemma DeleteSparesOthers(w: World, m: Machine, cls: MachineClass, orders: Orders, id: string)
    requires OrdersOf(orders, cls) && m.providerID == "" && id in w.vms
    requires Decoded(cls).Ok? ==> !Backs(w.vms[id], cls, m.name)
    ensures var after := DeleteMachine(w, m, cls, orders).w; id in after.vms && after.vms[id] == w.vms[id]
  {
    DeleteEffect(w, m, cls, orders);
    if Decoded(cls).Ok? {
      PassesMachineOwn(w.vms[id], cls, m.name, orders);
      SelectMembers(w.vms, w.issued, FiltersOf(m, orders));
    }
  }

  /** With one key of each kind, full lists and honest answers, success shuts down exactly what backs the machine. */
  lemma DeleteShutsDownBacking(w: World, m: Machine, cls: MachineClass, orders: Orders, id: string)
    requires Valid(w) && OrdersOf(orders, cls) && m.providerID == "" && id in w.vms && Honest(w.script)
    requires DeleteMachine(w, m, cls, orders).result.Ok?
    requires OneOfEach(cls.spec.value.tags) && NeverCutShort(w)
    ensures var after := DeleteMachine(w, m, cls, orders).w;
            && id in after.vms
            && after.vms[id] == if Backs(w.vms[id], cls, m.name) then w.vms[id].(state := ShuttingDown) else w.vms[id]
  {
    DeleteShutsDownReached(w, m, cls, orders);
    ReachesEverything(w, FiltersOf(m, orders));
    assert ReachedIDs(w, FiltersOf(m, orders)) == Matching(w, FiltersOf(m, orders));
    SelectMembers(w.vms, w.issued, FiltersOf(m, orders));
    PassesMachineOwn(w.vms[id], cls, m.name, orders);
  }
}

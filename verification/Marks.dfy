/** The tags a launch writes, and what they mean to the two lookups: every iteration order finds the same instances. */
module Marks {
  import opened Tags
  import opened Ec2
  import opened DriverSpec
  import opened Effects
  import opened Histories

  lemma MarkedName(vm: Vm, l: Launcher)
    requires BearsMarks(vm, l)
    ensures NameOf(vm.tags) == l.name && Tag(NAME, l.name) in vm.tags && UniqueKeys(vm.tags)
  {
    var tags := l.cls.spec.value.tags;
    var order :| IsOrder(order, tags) && vm.tags == LaunchTags(tags, order, l.name);
    LaunchTagsContents(tags, order, l.name);
    NameOfTagged(vm.tags, l.name);
  }

  lemma MarkedKeys(vm: Vm, l: Launcher, orders: Orders)
    requires BearsMarks(vm, l) && OrdersOf(orders, l.cls)
    ensures HasKey(vm.tags, Selected(orders.scan).cluster) && HasKey(vm.tags, Selected(orders.scan).role)
  {
    var tags := l.cls.spec.value.tags;
    var order :| IsOrder(order, tags) && vm.tags == LaunchTags(tags, order, l.name);
    SelectedKeysAreWritten(tags, order, orders.scan, l.name);
  }

  /** A launched instance in a listed state passes the filters of either lookup, whatever the scan order. */
  lemma {:induction false} MarkedPasses(vm: Vm, l: Launcher, orders: Orders)
    requires BearsMarks(vm, l) && OrdersOf(orders, l.cls) && vm.state in LISTED_STATES
    ensures Passes(vm, ListFilters(Selected(orders.scan)))
    ensures Passes(vm, MachineFilters(l.name, Selected(orders.scan)))
  {
    MarkedName(vm, l);
    MarkedKeys(vm, l, orders);
    var s := Selected(orders.scan);
    assert Satisfies(vm, TagKey([s.cluster])) && Satisfies(vm, TagKey([s.role]));
    var i :| 0 <= i < |vm.tags| && vm.tags[i] == Tag(NAME, l.name);
    assert Satisfies(vm, TagName([l.name]));
  }

  // --- Names ------------------------------------------------------------------------------------------------

  ghost predicate Named(vm: Vm, name: string) {
    Satisfies(vm, TagName([name]))
  }

  lemma OtherNameNotNamed(vm: Vm, other: string, name: string)
    requires UniqueKeys(vm.tags) && Named(vm, other) && other != name
    ensures !Named(vm, name)
  {
  }

  /** A launched instance bears its machine's name and no other. */
  lemma NamedIffLaunchedUnder(vm: Vm, l: Launcher, name: string)
    requires BearsMarks(vm, l)
    ensures Named(vm, name) <==> name == l.name
  {
    MarkedName(vm, l);
    var i :| 0 <= i < |vm.tags| && vm.tags[i] == Tag(NAME, l.name);
    assert Named(vm, l.name);
    if name != l.name {
      OtherNameNotNamed(vm, l.name, name);
    }
  }

  lemma PassingIsNamed(vm: Vm, name: string, s: Selection)
    requires Passes(vm, MachineFilters(name, s))
    ensures Named(vm, name) && vm.state in LISTED_STATES
  {
    var filters := MachineFilters(name, s);
    assert filters[0] == TagName([name]) && filters[3] == StateName(LISTED_STATES);
  }

  /** Whatever carries the name was launched for this machine of this class. */
  ghost predicate NameIsOwn(vms: map<string, Vm>, cls: MachineClass, name: string) {
    forall id :: id in vms && Named(vms[id], name) ==> BearsMarks(vms[id], Launcher(cls, name))
  }

  /** An instance that carries its name by launch matches exactly when its state is listed. */
  lemma {:induction false} PassesIffListed(vm: Vm, cls: MachineClass, name: string, orders: Orders)
    requires OrdersOf(orders, cls) && (Named(vm, name) ==> BearsMarks(vm, Launcher(cls, name)))
    ensures Passes(vm, MachineFilters(name, Selected(orders.scan))) <==> Named(vm, name) && vm.state in LISTED_STATES
  {
    if Passes(vm, MachineFilters(name, Selected(orders.scan))) {
      PassingIsNamed(vm, name, Selected(orders.scan));
    } else if Named(vm, name) && vm.state in LISTED_STATES {
      MarkedPasses(vm, Launcher(cls, name), orders);
    }
  }

  /** The two lookups range over the tags alike, or only this machine's instances carry its name. */
  ghost predicate OrdersAgree(vms: map<string, Vm>, cls: MachineClass, name: string, o1: Orders, o2: Orders) {
    Selected(o1.scan) == Selected(o2.scan) || (NameIsOwn(vms, cls, name) && OrdersOf(o1, cls) && OrdersOf(o2, cls))
  }

  lemma AgreeOnPassing(vms: map<string, Vm>, cls: MachineClass, name: string, o1: Orders, o2: Orders, id: string)
    requires id in vms && OrdersAgree(vms, cls, name, o1, o2)
    ensures Passes(vms[id], MachineFilters(name, Selected(o1.scan)))
       <==> Passes(vms[id], MachineFilters(name, Selected(o2.scan)))
  {
    if Selected(o1.scan) != Selected(o2.scan) {
      PassesIffListed(vms[id], cls, name, o1);
      PassesIffListed(vms[id], cls, name, o2);
    }
  }

  /** Then the same instances match under both iteration orders. */
  lemma {:induction false} MatchingAnyOrder(w: World, cls: MachineClass, name: string, o1: Orders, o2: Orders)
    requires OrdersAgree(w.vms, cls, name, o1, o2)
    ensures Matching(w, MachineFilters(name, Selected(o1.scan))) == Matching(w, MachineFilters(name, Selected(o2.scan)))
  {
    var f1, f2 := MachineFilters(name, Selected(o1.scan)), MachineFilters(name, Selected(o2.scan));
    forall id | id in w.issued ensures id in w.vms && Passes(w.vms[id], f1) <==> id in w.vms && Passes(w.vms[id], f2) {
      if id in w.vms {
        AgreeOnPassing(w.vms, cls, name, o1, o2, id);
      }
    }
    SelectAgrees(w.vms, w.vms, w.issued, f1, f2);
  }

  /** Instances that keep their tags keep being their machine's own. */
  lemma NameStaysOwn(vms: map<string, Vm>, vms': map<string, Vm>, cls: MachineClass, name: string)
    requires NameIsOwn(vms, cls, name)
    requires forall id :: id in vms' ==> id in vms && vms'[id].tags == vms[id].tags
    ensures NameIsOwn(vms', cls, name)
  {
    forall id | id in vms' && Named(vms'[id], name) ensures BearsMarks(vms'[id], Launcher(cls, name)) {
      assert Named(vms[id], name);
    }
  }
}

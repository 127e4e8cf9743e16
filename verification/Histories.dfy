/**
 * Histories: driver calls in any order, for any machines and classes, with any API outcomes, between
 * which EC2 moves instances through their states and forgets them. Who launched what is recorded
 * beside the world, from the calls alone.
 */
module Histories {
  import opened Wrappers
  import opened Tags
  import opened Ec2
  import opened DriverSpec
  import opened Effects

  datatype Op =
    | Create(m: Machine, cls: MachineClass, orders: Orders, retries: nat)
    | Initialize(m: Machine, cls: MachineClass, orders: Orders)
    | Status(m: Machine, cls: MachineClass, orders: Orders)
    | Delete(m: Machine, cls: MachineClass, orders: Orders)
    | List(cls: MachineClass, orders: Orders)
    | Drift(id: string, state: InstanceState, dns: Option<string>)   // EC2 moves an instance on
    | Forget(id: string)                                             // EC2 drops an instance

  ghost predicate Legal(op: Op) {
    op.Drift? || op.Forget? || OrdersOf(op.orders, op.cls)
  }

  ghost function Step(w: World, op: Op): World
    requires Legal(op)
  {
    match op
    case Create(m, cls, orders, retries) => CreateMachine(w, m, cls, orders, retries).w
    case Initialize(m, cls, orders) => InitializeMachine(w, m, cls, orders).w
    case Status(m, cls, orders) => GetMachineStatus(w, m, cls, orders).w
    case Delete(m, cls, orders) => DeleteMachine(w, m, cls, orders).w
    case List(cls, orders) => ListMachines(w, cls, orders).w
    case Drift(id, state, dns) =>
      if id in w.vms then w.(vms := w.vms[id := w.vms[id].(state := state, dns := dns)]) else w
    case Forget(id) => w.(vms := w.vms - {id})
  }

  ghost function Run(w: World, ops: seq<Op>): World
    requires forall i :: 0 <= i < |ops| ==> Legal(ops[i])
  {
    if ops == [] then w else Step(Run(w, ops[..|ops| - 1]), ops[|ops| - 1])
  }

  lemma RunOfOne(w: World, a: Op)
    requires Legal(a)
    ensures Legal([a][0]) && [a][..0] == [] && Run(w, []) == w && Run(w, [a]) == Step(w, a)
  {
    assert [a][..0] == [];
  }

  lemma RunOfTwo(w: World, a: Op, b: Op)
    requires Legal(a) && Legal(b)
    ensures forall i :: 0 <= i < 2 ==> Legal([a, b][i])
    ensures Run(w, [a]) == Step(w, a) && Run(w, [a, b]) == Step(Step(w, a), b)
  {
    RunOfOne(w, a);
    assert [a, b][..1] == [a];
  }

  datatype Launcher = Launcher(cls: MachineClass, name: string)

  /** The class and machine name of the call that launched each instance of the history. */
  ghost function Launchers(w: World, ops: seq<Op>): map<string, Launcher>
    requires forall i :: 0 <= i < |ops| ==> Legal(ops[i])
  {
    if ops == [] then map[]
    else
      var front, op := ops[..|ops| - 1], ops[|ops| - 1];
      var before, after := Run(w, front).issued, Run(w, ops).issued;
      if op.Create? && |after| > |before|
      then Launchers(w, front)[after[|after| - 1] := Launcher(op.cls, op.m.name)]
      else Launchers(w, front)
  }

  /** The instance still carries what some launch for this machine and class gave it. */
  ghost predicate BearsMarks(vm: Vm, l: Launcher) {
    && Decoded(l.cls).Ok?
    && exists order ::
         IsOrder(order, l.cls.spec.value.tags) && vm.tags == LaunchTags(l.cls.spec.value.tags, order, l.name)
  }

  /** The invariant of every history. */
  ghost predicate Consistent(w: World, launchers: map<string, Launcher>) {
    && Valid(w)
    && (forall id :: id in launchers ==> id in w.issued)
    && AllMarked(w.vms, launchers)
  }

  /** The step launched nothing, and the instances that remain are marked as before. */
  ghost predicate MarksKept(w: World, w': World) {
    && w'.issued == w.issued && w'.nics.Keys == w.nics.Keys
    && w'.pageSize == w.pageSize && w'.duplicateAt == w.duplicateAt && w'.mirror == w.mirror
    && forall id :: id in w'.vms ==>
         id in w.vms && w'.vms[id].tags == w.vms[id].tags && w'.vms[id].nicIDs == w.vms[id].nicIDs
  }

  lemma {:induction false} StepKeepsMarks(w: World, op: Op)
    requires Legal(op) && !op.Create?
    ensures MarksKept(w, Step(w, op))
  {
    match op
    case Initialize(m, cls, orders) => InitializeSettles(w, m, cls, orders);
    case Status(m, cls, orders) => StatusReads(w, m, cls, orders);
    case Delete(m, cls, orders) => DeleteEffect(w, m, cls, orders);
    case List(cls, orders) => ListReads(w, cls, orders);
    case _ =>
  }

  lemma {:induction false} StepStaysConsistent(w: World, launchers: map<string, Launcher>, op: Op)
    requires Legal(op) && !op.Create? && Consistent(w, launchers)
    ensures Consistent(Step(w, op), launchers) && Step(w, op).issued == w.issued
  {
    StepKeepsMarks(w, op);
  }

  lemma LaunchStaysConsistent(w: World, w': World, launchers: map<string, Launcher>, cls: MachineClass, name: string,
                              order: seq<string>)
    requires Consistent(w, launchers) && Decoded(cls).Ok? && IsOrder(order, cls.spec.value.tags)
    requires LaunchedFor(w, w', name, cls.spec.value, order)
    ensures Consistent(w', launchers[w.births[0].id := Launcher(cls, name)])
  {
    LaunchStaysValid(w, w', name, cls.spec.value, order);
    MarksAfterLaunch(w.vms, launchers, w.births[0].id, w'.vms[w.births[0].id], Launcher(cls, name));
  }

  ghost predicate AllMarked(vms: map<string, Vm>, launchers: map<string, Launcher>) {
    forall id :: id in launchers && id in vms ==> BearsMarks(vms[id], launchers[id])
  }

  lemma MarksAfterLaunch(vms: map<string, Vm>, launchers: map<string, Launcher>, id: string, vm: Vm, l: Launcher)
    requires AllMarked(vms, launchers) && BearsMarks(vm, l)
    ensures AllMarked(vms[id := vm], launchers[id := l])
  {
  }

  lemma {:induction false} CreateStaysConsistent(w: World, launchers: map<string, Launcher>, op: Op)
    requires Legal(op) && op.Create? && Consistent(w, launchers)
    ensures var w' := Step(w, op);
            || (w'.issued == w.issued && Consistent(w', launchers))
            || (w.births != [] && w'.issued == w.issued + [w.births[0].id]
                && Consistent(w', launchers[w.births[0].id := Launcher(op.cls, op.m.name)]))
  {
    var w' := Step(w, op);
    CreateEffect(w, op.m, op.cls, op.orders, op.retries);
    if NothingLaunched(w, w') {
      assert Valid(w');
    } else {
      LaunchStaysConsistent(w, w', launchers, op.cls, op.m.name, op.orders.instance);
    }
  }

  /** Every history keeps the world and the record of its launches consistent. */
  lemma {:induction false} RunStaysConsistent(w: World, ops: seq<Op>)
    requires Valid(w) && forall i :: 0 <= i < |ops| ==> Legal(ops[i])
    ensures Consistent(Run(w, ops), Launchers(w, ops))
    ensures Run(w, ops).duplicateAt == w.duplicateAt && Run(w, ops).pageSize == w.pageSize
  {
    if ops != [] {
      var front, op := ops[..|ops| - 1], ops[|ops| - 1];
      RunStaysConsistent(w, front);
      if op.Create? {
        CreateStaysConsistent(Run(w, front), Launchers(w, front), op);
        CreateEffect(Run(w, front), op.m, op.cls, op.orders, op.retries);
      } else {
        StepStaysConsistent(Run(w, front), Launchers(w, front), op);
        StepKeepsMarks(Run(w, front), op);
      }
    }
  }

  // --- What an instance keeps for life ------------------------------------------------------------------------

  lemma {:induction false} IdsDoNotReturn(w: World, ops: seq<Op>, id: string)
    requires Valid(w) && id in w.issued && (forall i :: 0 <= i < |ops| ==> Legal(ops[i]))
    ensures id in Run(w, ops).issued
    ensures id in Run(w, ops).vms ==> id in w.vms
    decreases |ops|
  {
    if ops != [] {
      var front, op := ops[..|ops| - 1], ops[|ops| - 1];
      IdsDoNotReturn(w, front, id);
      if op.Create? {
        CreateEffect(Run(w, front), op.m, op.cls, op.orders, op.retries);
      } else {
        StepKeepsMarks(Run(w, front), op);
      }
    }
  }

  /** As long as EC2 knows an instance, it has the interfaces it was launched with. */
  lemma {:induction false} RunKeepsNics(w: World, ops: seq<Op>, id: string)
    requires Valid(w) && id in w.vms && (forall i :: 0 <= i < |ops| ==> Legal(ops[i]))
    requires id in Run(w, ops).vms
    ensures Run(w, ops).vms[id].nicIDs == w.vms[id].nicIDs
    decreases |ops|
  {
    if ops != [] {
      var front, op := ops[..|ops| - 1], ops[|ops| - 1];
      RunStaysConsistent(w, front);
      IdsDoNotReturn(w, front, id);
      if op.Create? {
        CreateEffect(Run(w, front), op.m, op.cls, op.orders, op.retries);
      } else {
        StepKeepsMarks(Run(w, front), op);
      }
      RunKeepsNics(w, front, id);
    }
  }

  /** Attachments do not change. */
  ghost predicate AttachmentsKept(w: World, w': World) {
    forall n :: n in w.nics ==> n in w'.nics && w'.nics[n].attachment == w.nics[n].attachment
  }

  lemma {:induction false} StepKeepsAttachments(w: World, op: Op)
    requires Legal(op)
    ensures AttachmentsKept(w, Step(w, op))
  {
    match op
    case Create(m, cls, orders, retries) =>
      CreateEffect(w, m, cls, orders, retries);
      if !NothingLaunched(w, Step(w, op)) {
        FreshNics(w, w.births[0], LaunchNics(cls.spec.value.networkInterfaces));
      }
    case Initialize(m, cls, orders) => InitializeSettles(w, m, cls, orders);
    case Status(m, cls, orders) => StatusReads(w, m, cls, orders);
    case Delete(m, cls, orders) => DeleteEffect(w, m, cls, orders);
    case List(cls, orders) => ListReads(w, cls, orders);
    case _ =>
  }

  lemma {:induction false} RunKeepsAttachments(w: World, ops: seq<Op>)
    requires forall i :: 0 <= i < |ops| ==> Legal(ops[i])
    ensures AttachmentsKept(w, Run(w, ops))
  {
    if ops != [] {
      RunKeepsAttachments(w, ops[..|ops| - 1]);
      StepKeepsAttachments(Run(w, ops[..|ops| - 1]), ops[|ops| - 1]);
    }
  }

  lemma {:induction false} RunKeepsMirror(w: World, ops: seq<Op>)
    requires forall i :: 0 <= i < |ops| ==> Legal(ops[i])
    ensures Run(w, ops).mirror == w.mirror
  {
    if ops != [] {
      var front, op := ops[..|ops| - 1], ops[|ops| - 1];
      RunKeepsMirror(w, front);
      if op.Create? {
        CreateEffect(Run(w, front), op.m, op.cls, op.orders, op.retries);
      } else {
        StepKeepsMarks(Run(w, front), op);
      }
    }
  }
}

/** DeleteMachine without a provider id: what one call removes, what partial failure leaves, and how retries end. */
module Deletion {
  import opened Wrappers
  import opened Tags
  import opened Paging
  import opened Ec2
  import opened DriverSpec
  import opened Effects
  import opened Histories
  import opened Marks
  import Samples

  /** An answer that makes terminateInstance fail; a "not found" does not. */
  predicate Stops(o: Outcome) {
    (o.Refuse? || o.Lose?) && !o.error.InstanceIdNotFound?
  }

  /** How many of the next n terminate calls come before the first that fails. */
  function CallsBeforeStop(script: seq<Outcome>, n: nat): (k: nat)
    ensures k <= n
    ensures k < n ==> Stops(OutcomeAt(script, k))
    ensures forall j :: 0 <= j < k ==> !Stops(OutcomeAt(script, j))
  {
    if n == 0 || Stops(OutcomeAt(script, 0)) then 0
    else
      var rest := if script == [] then [] else script[1..];
      assert forall j :: 0 <= j ==> OutcomeAt(rest, j) == OutcomeAt(script, j + 1);
      var k := 1 + CallsBeforeStop(rest, n - 1);
      assert forall j :: 0 < j < k ==> OutcomeAt(script, j) == OutcomeAt(rest, j - 1);
      k
  }

  function TerminateCalls(ids: seq<string>): seq<Call> {
    if ids == [] then [] else [TerminateCall(ids[0])] + TerminateCalls(ids[1..])
  }

  /** The ids named in the calls that are sent. */
  function Sent(script: seq<Outcome>, ids: seq<string>): seq<string> {
    ids[..Min(CallsBeforeStop(script, |ids|) + 1, |ids|)]
  }

  /** The instance after the call at position j, of which position k is the last that was sent. */
  ghost predicate AfterCalls(script: seq<Outcome>, k: nat, j: nat, vm: Vm, vm': Vm) {
    vm' == if j <= k && !OutcomeAt(script, j).Refuse? then ShutDown(vm) else vm
  }

  lemma OneTermination(w: World, id: string)
    requires id in w.vms
    ensures var r := TerminateInstance(w, id);
            && (r.ok <==> !Stops(w.Outcome()))
            && r.w == w.Sent(TerminateCall(id)).(vms := r.w.vms)
            && r.w.vms == if w.Outcome().Refuse? then w.vms else w.vms[id := ShutDown(w.vms[id])]
  {
  }

  lemma StopLater(script: seq<Outcome>, n: nat)
    requires n > 0 && !Stops(OutcomeAt(script, 0))
    ensures CallsBeforeStop(script, n) == 1 + CallsBeforeStop(if script == [] then [] else script[1..], n - 1)
  {
  }

  lemma SentLater(script: seq<Outcome>, ids: seq<string>)
    requires ids != [] && !Stops(OutcomeAt(script, 0))
    ensures Sent(script, ids) == [ids[0]] + Sent(if script == [] then [] else script[1..], ids[1..])
  {
    StopLater(script, |ids|);
  }

  /** The run of terminations succeeds exactly when no call fails. */
  lemma {:induction false} TerminateAllOk(w: World, ids: seq<string>)
    requires forall i :: 0 <= i < |ids| ==> ids[i] in w.vms
    ensures TerminateAll(w, ids).ok <==> CallsBeforeStop(w.script, |ids|) == |ids|
    decreases |ids|
  {
    if ids != [] {
      OneTermination(w, ids[0]);
      var r := TerminateInstance(w, ids[0]);
      if r.ok {
        TerminateAllOk(r.w, ids[1..]);
        StopLater(w.script, |ids|);
      }
    }
  }

  lemma LogLater(log: seq<Call>, id: string, ids: seq<string>)
    requires ids != [] && ids[0] == id
    ensures (log + [TerminateCall(id)]) + TerminateCalls(ids[1..]) == log + TerminateCalls(ids)
  {
  }

  /** The calls up to and including the first failing one are sent. */
  lemma {:induction false} TerminateAllCalls(w: World, ids: seq<string>)
    requires forall i :: 0 <= i < |ids| ==> ids[i] in w.vms
    ensures TerminateAll(w, ids).w.log == w.log + TerminateCalls(Sent(w.script, ids))
    decreases |ids|
  {
    if ids != [] {
      OneTermination(w, ids[0]);
      var r, sent := TerminateInstance(w, ids[0]), Sent(w.script, ids);
      LogLater(w.log, ids[0], sent);
      if r.ok {
        TerminateAllCalls(r.w, ids[1..]);
        SentLater(w.script, ids);
        assert sent[1..] == Sent(r.w.script, ids[1..]);
      } else {
        assert sent[1..] == [];
      }
    }
  }

  /** Each call that was sent is in effect unless EC2 refused it, and no other instance changes. */
  lemma {:induction false} TerminateAllExact(w: World, ids: seq<string>)
    requires NoDuplicates(ids) && forall i :: 0 <= i < |ids| ==> ids[i] in w.vms
    ensures var w', k := TerminateAll(w, ids).w, CallsBeforeStop(w.script, |ids|);
            && w'.vms.Keys == w.vms.Keys
            && (forall j :: 0 <= j < |ids| ==> AfterCalls(w.script, k, j, w.vms[ids[j]], w'.vms[ids[j]]))
            && forall id :: id in w.vms && id !in ids ==> w'.vms[id] == w.vms[id]
    decreases |ids|
  {
    if ids != [] {
      OneTermination(w, ids[0]);
      var r := TerminateInstance(w, ids[0]);
      if r.ok {
        TerminateAllExact(r.w, ids[1..]);
        StopLater(w.script, |ids|);
        ExactStep(w, r.w, TerminateAll(r.w, ids[1..]).w, ids, CallsBeforeStop(w.script, |ids|) - 1);
      }
    }
  }

  lemma ExactStep(w: World, w1: World, w2: World, ids: seq<string>, k: nat)
    requires ids != [] && NoDuplicates(ids) && forall i :: 0 <= i < |ids| ==> ids[i] in w.vms
    requires w1.script == w.Skip(1).script && w1.vms.Keys == w.vms.Keys && w2.vms.Keys == w.vms.Keys
    requires w1.vms == if w.Outcome().Refuse? then w.vms else w.vms[ids[0] := ShutDown(w.vms[ids[0]])]
    requires forall j :: 0 <= j < |ids| - 1 ==> AfterCalls(w1.script, k, j, w1.vms[ids[1..][j]], w2.vms[ids[1..][j]])
    requires forall id :: id in w1.vms && id !in ids[1..] ==> w2.vms[id] == w1.vms[id]
    ensures forall j :: 0 <= j < |ids| ==> AfterCalls(w.script, k + 1, j, w.vms[ids[j]], w2.vms[ids[j]])
    ensures forall id :: id in w.vms && id !in ids ==> w2.vms[id] == w.vms[id]
  {
  }

  // --- DeleteMachine by tags --------------------------------------------------------------------------------

  ghost function FiltersOf(m: Machine, orders: Orders): seq<Filter> {
    MachineFilters(m.name, Selected(orders.scan))
  }

  /** The call gets as far as its terminations: the request is sound and the lookup succeeds. */
  ghost predicate LooksUp(w: World, m: Machine, cls: MachineClass, orders: Orders) {
    && cls.provider == PROVIDER_AWS && Decoded(cls).Ok? && m.providerID == ""
    && ClientAvailable(w) && FetchAll(w.Skip(1), FiltersOf(m, orders)).result.Ok?
  }

  /** The outcomes of the terminate calls that follow the lookup. */
  ghost function Answers(w: World, m: Machine, orders: Orders): seq<Outcome> {
    FetchAll(w.Skip(1), FiltersOf(m, orders)).w.script
  }

  /** Without a provider id, a call that does not get to its terminations fails and only reads. */
  lemma DeleteElsewise(w: World, m: Machine, cls: MachineClass, orders: Orders)
    requires m.providerID == "" && !LooksUp(w, m, cls, orders)
    ensures DeleteMachine(w, m, cls, orders).result.Err? && OnlyRead(w, DeleteMachine(w, m, cls, orders).w)
  {
    FetchAllReads(w.Skip(1), FiltersOf(m, orders));
  }

  lemma DeleteIsTerminateAll(w: World, m: Machine, cls: MachineClass, orders: Orders) returns (w1: World)
    requires LooksUp(w, m, cls, orders)
    ensures OnlyRead(w, w1) && w1.script == Answers(w, m, orders)
    ensures var r := TerminateAll(w1, ReachedIDs(w, FiltersOf(m, orders)));
            DeleteMachine(w, m, cls, orders) == Answer(r.w, if r.ok then Ok(()) else Err(Internal))
  {
    var filters := FiltersOf(m, orders);
    FetchAllReads(w.Skip(1), filters);
    FetchedIDs(w.Skip(1), filters);
    w1 := FetchAll(w.Skip(1), filters).w;
  }

  lemma ReachedAreKnown(w: World, filters: seq<Filter>)
    requires NoDuplicates(w.issued)
    ensures NoDuplicates(ReachedIDs(w, filters))
    ensures forall i :: 0 <= i < Reached(w, filters) ==> ReachedIDs(w, filters)[i] in w.vms
  {
    SelectMembers(w.vms, w.issued, filters);
    forall i | 0 <= i < Reached(w, filters) ensures ReachedIDs(w, filters)[i] in w.vms {
      assert Matching(w, filters)[i] in Matching(w, filters);
    }
  }

  /** Exactly what a deletion does to the instances its lookup reaches, to all others, and in calls sent. */
  lemma DeleteExact(w: World, m: Machine, cls: MachineClass, orders: Orders)
    requires Valid(w) && LooksUp(w, m, cls, orders)
    ensures var r, answers := DeleteMachine(w, m, cls, orders), Answers(w, m, orders);
            var ids := ReachedIDs(w, FiltersOf(m, orders));
            var k := CallsBeforeStop(answers, |ids|);
            && r.result == (if k == |ids| then Ok(()) else Err(Internal))
            && r.w.log == w.log + TerminateCalls(Sent(answers, ids))
            && r.w.vms.Keys == w.vms.Keys
            && (forall j :: 0 <= j < |ids| ==>
                 ids[j] in w.vms && AfterCalls(answers, k, j, w.vms[ids[j]], r.w.vms[ids[j]]))
            && forall id :: id in w.vms && id !in ids ==> r.w.vms[id] == w.vms[id]
  {
    var ids := ReachedIDs(w, FiltersOf(m, orders));
    ReachedAreKnown(w, FiltersOf(m, orders));
    var w1 := DeleteIsTerminateAll(w, m, cls, orders);
    TerminateAllOk(w1, ids);
    TerminateAllCalls(w1, ids);
    TerminateAllExact(w1, ids);
  }

  lemma ShutDownIsHidden(vm: Vm, m: Machine, orders: Orders)
    ensures !Passes(ShutDown(vm), FiltersOf(m, orders))
  {
    var filters := FiltersOf(m, orders);
    assert filters[3] == StateName(LISTED_STATES);
    assert !Satisfies(ShutDown(vm), filters[3]);
  }

  /** After a deletion exactly the matches that no call took effect on still match. */
  lemma StillMatching(w: World, m: Machine, cls: MachineClass, orders: Orders, j: nat)
    requires Valid(w) && LooksUp(w, m, cls, orders)
    requires j < |Matching(w, FiltersOf(m, orders))|
    ensures var w', filters, answers := DeleteMachine(w, m, cls, orders).w, FiltersOf(m, orders), Answers(w, m, orders);
            var n := Reached(w, filters);
            Matching(w, filters)[j] in Matching(w', filters) <==>
              j >= n || j > CallsBeforeStop(answers, n) || OutcomeAt(answers, j).Refuse?
  {
    var filters := FiltersOf(m, orders);
    var ids, w' := Matching(w, filters), DeleteMachine(w, m, cls, orders).w;
    DeleteExact(w, m, cls, orders);
    DeleteEffect(w, m, cls, orders);
    SelectMembers(w.vms, w.issued, filters);
    SelectMembers(w'.vms, w'.issued, filters);
    assert ids[j] in ids;
    if j < Reached(w, filters) {
      assert ReachedIDs(w, filters)[j] == ids[j];
      ShutDownIsHidden(w.vms[ids[j]], m, orders);
    } else {
      assert ids[j] !in ReachedIDs(w, filters);
    }
  }

  lemma NoNewMatches(w: World, m: Machine, cls: MachineClass, orders: Orders, id: string)
    requires id in Matching(DeleteMachine(w, m, cls, orders).w, FiltersOf(m, orders))
    ensures id in Matching(w, FiltersOf(m, orders))
  {
    var filters, w' := FiltersOf(m, orders), DeleteMachine(w, m, cls, orders).w;
    DeleteEffect(w, m, cls, orders);
    SelectMembers(w.vms, w.issued, filters);
    SelectMembers(w'.vms, w'.issued, filters);
    ShutDownIsHidden(w.vms[id], m, orders);
  }

  /** The lookup reaches every match, which it does unless the server repeats a page token before the last page. */
  ghost predicate ReachesAll(w: World, m: Machine, orders: Orders) {
    Reached(w, FiltersOf(m, orders)) == |Matching(w, FiltersOf(m, orders))|
  }

  /** No call for an instance the lookup reached is refused with "not found". */
  ghost predicate NoneDisowned(w: World, m: Machine, orders: Orders) {
    forall j :: 0 <= j < Reached(w, FiltersOf(m, orders)) ==>
      OutcomeAt(Answers(w, m, orders), j) != Refuse(InstanceIdNotFound)
  }

  /**
   * A deletion by tags that succeeds leaves no match exactly when its lookup reached them all and EC2
   * carried out every terminate call.
   */
  lemma DeleteByTagsEmptiesIff(w: World, m: Machine, cls: MachineClass, orders: Orders)
    requires Valid(w) && m.providerID == ""
    requires DeleteMachine(w, m, cls, orders).result.Ok?
    ensures var w' := DeleteMachine(w, m, cls, orders).w;
            Matching(w', FiltersOf(m, orders)) == [] <==> ReachesAll(w, m, orders) && NoneDisowned(w, m, orders)
  {
    var filters := FiltersOf(m, orders);
    var ids, left := Matching(w, filters), Matching(DeleteMachine(w, m, cls, orders).w, filters);
    if left != [] {
      NoNewMatches(w, m, cls, orders, left[0]);
      var j :| 0 <= j < |ids| && ids[j] == left[0];
      StillMatchingAfterSuccess(w, m, cls, orders, j);
    } else {
      forall j | 0 <= j < |ids| ensures !Spared(w, m, orders, j) {
        StillMatchingAfterSuccess(w, m, cls, orders, j);
      }
      if !ReachesAll(w, m, orders) {
        var j := Reached(w, filters);
        assert j < |ids| && Spared(w, m, orders, j);
      }
      forall j | 0 <= j < Reached(w, filters)
        ensures OutcomeAt(Answers(w, m, orders), j) != Refuse(InstanceIdNotFound)
      {
        assert !Spared(w, m, orders, j);
      }
    }
  }

  /** The lookup does not reach the match, or the call for it is refused with "not found". */
  ghost predicate Spared(w: World, m: Machine, orders: Orders, j: nat) {
    j >= Reached(w, FiltersOf(m, orders)) || OutcomeAt(Answers(w, m, orders), j) == Refuse(InstanceIdNotFound)
  }

  lemma StillMatchingAfterSuccess(w: World, m: Machine, cls: MachineClass, orders: Orders, j: nat)
    requires Valid(w) && m.providerID == "" && DeleteMachine(w, m, cls, orders).result.Ok?
    requires j < |Matching(w, FiltersOf(m, orders))|
    ensures Matching(w, FiltersOf(m, orders))[j] in Matching(DeleteMachine(w, m, cls, orders).w, FiltersOf(m, orders))
       <==> Spared(w, m, orders, j)
  {
    if !LooksUp(w, m, cls, orders) {
      DeleteElsewise(w, m, cls, orders);
    }
    DeleteExact(w, m, cls, orders);
    StillMatching(w, m, cls, orders, j);
  }

  // --- DeleteMachine by provider id -----------------------------------------------------------------------------

  /** The call goes by the provider id, which names this instance, and gets as far as its termination. */
  ghost predicate GoesByID(w: World, m: Machine, cls: MachineClass, region: string, id: string) {
    && cls.provider == PROVIDER_AWS && Decoded(cls).Ok? && ClientAvailable(w)
    && m.providerID != "" && ProviderId.Decode(m.providerID) == Ok((region, id))
  }

  /** Exactly what a deletion by provider id does: one call, for the instance named and for no other. */
  lemma DeleteByIDExact(w: World, m: Machine, cls: MachineClass, orders: Orders, region: string, id: string)
    requires GoesByID(w, m, cls, region, id)
    ensures var r, answer := DeleteMachine(w, m, cls, orders), OutcomeAt(w.script, 1);
            && r.result == (if Stops(answer) then Err(Internal) else Ok(()))
            && r.w.log == w.log + [TerminateCall(id)]
            && r.w == w.(vms := r.w.vms, script := r.w.script, log := r.w.log)
            && r.w.vms == if id in w.vms && !answer.Refuse? then w.vms[id := ShutDown(w.vms[id])] else w.vms
  {
  }

  /** The ids other than this one, in order. */
  function Except(ids: seq<string>, id: string): seq<string> {
    if ids == [] then []
    else
      var front, last := Except(ids[..|ids| - 1], id), ids[|ids| - 1];
      if last == id then front else front + [last]
  }

  lemma {:induction false} ExceptMembers(ids: seq<string>, id: string)
    ensures forall x :: x in Except(ids, id) <==> x in ids && x != id
  {
    if ids != [] {
      ExceptMembers(ids[..|ids| - 1], id);
      assert ids == ids[..|ids| - 1] + [ids[|ids| - 1]];
    }
  }

  /** When one instance stops passing, a selection loses it and nothing else. */
  lemma {:induction false} SelectExcept(vms: map<string, Vm>, id: string, vm: Vm, ids: seq<string>,
                                        filters: seq<Filter>)
    requires !Passes(vm, filters)
    ensures Select(vms[id := vm], ids, filters) == Except(Select(vms, ids, filters), id)
  {
    if ids != [] {
      SelectExcept(vms, id, vm, ids[..|ids| - 1], filters);
      var before, last := Select(vms, ids[..|ids| - 1], filters), ids[|ids| - 1];
      assert (before + [last])[..|before|] == before;
    }
  }

  /** After it the former matches still match, in order, but for the instance named, unless its call was refused. */
  lemma StillMatchingByID(w: World, m: Machine, cls: MachineClass, orders: Orders, region: string, id: string,
                          other: Orders)
    requires Valid(w) && GoesByID(w, m, cls, region, id)
    ensures var before := Matching(w, FiltersOf(m, other));
            var after := Matching(DeleteMachine(w, m, cls, orders).w, FiltersOf(m, other));
            after == if OutcomeAt(w.script, 1).Refuse? then before else Except(before, id)
  {
    var filters := FiltersOf(m, other);
    DeleteByIDExact(w, m, cls, orders, region, id);
    if id in w.vms {
      ShutDownIsHidden(w.vms[id], m, other);
      SelectExcept(w.vms, id, ShutDown(w.vms[id]), w.issued, filters);
    } else {
      SelectMembers(w.vms, w.issued, filters);
      ExceptAbsent(Matching(w, filters), id);
    }
  }

  lemma {:induction false} ExceptAbsent(ids: seq<string>, id: string)
    requires id !in ids
    ensures Except(ids, id) == ids
  {
    if ids != [] {
      assert ids == ids[..|ids| - 1] + [ids[|ids| - 1]];
      ExceptAbsent(ids[..|ids| - 1], id);
    }
  }

  /** Everything that matches is the instance of the provider id, and its call is not refused. */
  ghost predicate NamesTheOnly(w: World, m: Machine, orders: Orders) {
    forall id :: id in Matching(w, FiltersOf(m, orders)) ==>
      && ProviderId.Decode(m.providerID).Ok? && ProviderId.Decode(m.providerID).value.1 == id
      && !OutcomeAt(w.script, 1).Refuse?
  }

  lemma DeleteByIDEmptiesIff(w: World, m: Machine, cls: MachineClass, orders: Orders, other: Orders)
    requires Valid(w) && m.providerID != "" && DeleteMachine(w, m, cls, orders).result.Ok?
    ensures Matching(DeleteMachine(w, m, cls, orders).w, FiltersOf(m, other)) == [] <==> NamesTheOnly(w, m, other)
  {
    var (region, id) := ProviderId.Decode(m.providerID).value;
    assert GoesByID(w, m, cls, region, id);
    StillMatchingByID(w, m, cls, orders, region, id, other);
    var before := Matching(w, FiltersOf(m, other));
    ExceptMembers(before, id);
    if Except(before, id) != [] {
      assert Except(before, id)[0] in Except(before, id);
    }
    if before != [] {
      assert before[0] in before;
    }
  }

  /**
   * Exactly when a deletion that succeeds leaves nothing that matches the machine. The three ways to
   * succeed with instances left are a provider id that names only one of them, a page token repeated too
   * early, and a refusal with "not found", which counts as terminated.
   */
  lemma DeleteEmptiesIff(w: World, m: Machine, cls: MachineClass, orders: Orders)
    requires Valid(w) && DeleteMachine(w, m, cls, orders).result.Ok?
    ensures Matching(DeleteMachine(w, m, cls, orders).w, FiltersOf(m, orders)) == [] <==>
              if m.providerID == "" then ReachesAll(w, m, orders) && NoneDisowned(w, m, orders)
              else NamesTheOnly(w, m, orders)
  {
    if m.providerID == "" {
      DeleteByTagsEmptiesIff(w, m, cls, orders);
    } else {
      DeleteByIDEmptiesIff(w, m, cls, orders, orders);
    }
  }

  // --- Each of the three ways, once -----------------------------------------------------------------------------

  /** Two instances of machine "m", and what is to come. */
  function Twins(script: seq<Outcome>, pageSize: int, duplicateAt: int): World {
    var vm := Vm(None, Running, LaunchTags(Samples.TAGS, Samples.KEYS, "m"), None, []);
    World(["i-1", "i-2"], map["i-1" := vm, "i-2" := vm], map[], script, [], [], map[], pageSize, duplicateAt, false)
  }

  lemma TwinsMatch(script: seq<Outcome>, pageSize: int, duplicateAt: int)
    ensures Valid(Twins(script, pageSize, duplicateAt))
    ensures Matching(Twins(script, pageSize, duplicateAt), FiltersOf(Samples.Named("m"), Samples.ORDERS))
              == ["i-1", "i-2"]
  {
    var w := Twins(script, pageSize, duplicateAt);
    Samples.ClassIsValid(Samples.ONE_NIC);
    IdsDiffer();
    TwinIsMarked(script, pageSize, duplicateAt);
    PairMatches(w, "i-1", "i-2", Samples.Class(Samples.ONE_NIC), Samples.Named("m"), Samples.ORDERS);
  }

  lemma IdsDiffer()
    ensures "i-1" != "i-2"
  {
    assert "i-1"[2] != "i-2"[2];
  }

  lemma TwinIsMarked(script: seq<Outcome>, pageSize: int, duplicateAt: int)
    ensures BearsMarks(Twins(script, pageSize, duplicateAt).vms["i-1"], Launcher(Samples.Class(Samples.ONE_NIC), "m"))
  {
    Samples.ClassIsValid(Samples.ONE_NIC);
    assert IsOrder(Samples.KEYS, Samples.TAGS);
  }

  lemma PairMatches(w: World, a: string, b: string, cls: MachineClass, m: Machine, orders: Orders)
    requires a != b && w.issued == [a, b] && w.vms.Keys == {a, b} && w.vms[a] == w.vms[b] && w.vms[a].nicIDs == []
    requires BearsMarks(w.vms[a], Launcher(cls, m.name)) && w.vms[a].state in LISTED_STATES && OrdersOf(orders, cls)
    ensures Valid(w) && Matching(w, FiltersOf(m, orders)) == [a, b]
  {
    MarkedName(w.vms[a], Launcher(cls, m.name));
    MarkedPasses(w.vms[a], Launcher(cls, m.name), orders);
    SelectBoth(w.vms, a, b, FiltersOf(m, orders));
  }

  lemma SelectBoth(vms: map<string, Vm>, a: string, b: string, filters: seq<Filter>)
    requires a in vms && b in vms && Passes(vms[a], filters) && Passes(vms[b], filters)
    ensures Select(vms, [a, b], filters) == [a, b]
  {
    assert [a, b][..1] == [a] && [a][..0] == [];
    assert Select(vms, [], filters) == [] && Select(vms, [a], filters) == [a];
  }

  lemma ExceptFirst(a: string, b: string)
    requires a != b
    ensures Except([a, b], a) == [b]
  {
    assert [a, b][..1] == [a] && [a][..0] == [];
    assert Except([a], a) == [];
  }

  lemma LeavesTheOther(w: World, m: Machine, cls: MachineClass, orders: Orders, region: string, a: string, b: string)
    requires Valid(w) && GoesByID(w, m, cls, region, a) && w.script == []
    requires Matching(w, FiltersOf(m, orders)) == [a, b] && a != b
    ensures var r := DeleteMachine(w, m, cls, orders); r.result == Ok(()) && Matching(r.w, FiltersOf(m, orders)) == [b]
  {
    DeleteByIDExact(w, m, cls, orders, region, a);
    StillMatchingByID(w, m, cls, orders, region, a, orders);
    ExceptFirst(a, b);
  }

  function NamesFirst(): Machine {
    Samples.Named("m").(providerID := ProviderId.Encode("region", "i-1"))
  }

  lemma NamedByEncoding(w: World, m: Machine, cls: MachineClass, region: string, id: string)
    requires cls.provider == PROVIDER_AWS && Decoded(cls).Ok? && w.script == []
    requires m.providerID == ProviderId.Encode(region, id) && '/' !in region && '/' !in id
    ensures GoesByID(w, m, cls, region, id)
  {
    ProviderId.RoundTrip(region, id);
    ProviderId.LastPartIff(region, id);
  }

  lemma FirstIsSlashFree()
    ensures '/' !in "region" && '/' !in "i-1"
  {
  }

  lemma FirstIsNamed()
    ensures GoesByID(Twins([], 0, 0), NamesFirst(), Samples.Class(Samples.ONE_NIC), "region", "i-1")
  {
    Samples.ClassIsValid(Samples.ONE_NIC);
    FirstIsSlashFree();
    NamedByEncoding(Twins([], 0, 0), NamesFirst(), Samples.Class(Samples.ONE_NIC), "region", "i-1");
  }

  /** A provider id that names one of two, every call being accepted. */
  lemma LeftByProviderID()
    ensures var m := NamesFirst();
            var r := DeleteMachine(Twins([], 0, 0), m, Samples.Class(Samples.ONE_NIC), Samples.ORDERS);
            r.result == Ok(()) && Matching(r.w, FiltersOf(m, Samples.ORDERS)) == ["i-2"]
  {
    var m, w, cls := NamesFirst(), Twins([], 0, 0), Samples.Class(Samples.ONE_NIC);
    TwinsMatch([], 0, 0);
    FirstIsNamed();
    IdsDiffer();
    LeavesTheOther(w, m, cls, Samples.ORDERS, "region", "i-1", "i-2");
  }

  lemma StopsTooEarly(w: World, m: Machine, cls: MachineClass, orders: Orders)
    requires Valid(w) && cls.provider == PROVIDER_AWS && Decoded(cls).Ok? && m.providerID == "" && w.script == []
    requires w.pageSize == 1 && w.duplicateAt == 1 && |Matching(w, FiltersOf(m, orders))| > 1
    ensures var r := DeleteMachine(w, m, cls, orders); r.result == Ok(()) && Matching(r.w, FiltersOf(m, orders)) != []
  {
    AcceptedLookup(w.Skip(1), FiltersOf(m, orders));
    assert LooksUp(w, m, cls, orders) && Answers(w, m, orders) == [];
    DeleteExact(w, m, cls, orders);
    DeleteByTagsEmptiesIff(w, m, cls, orders);
  }

  /** A server with pages of one instance that repeats its first token, every call being accepted. */
  lemma LeftByRepeatedToken()
    ensures var m := Samples.Named("m");
            var r := DeleteMachine(Twins([], 1, 1), m, Samples.Class(Samples.ONE_NIC), Samples.ORDERS);
            r.result == Ok(()) && Matching(r.w, FiltersOf(m, Samples.ORDERS)) != []
  {
    Samples.ClassIsValid(Samples.ONE_NIC);
    TwinsMatch([], 1, 1);
    StopsTooEarly(Twins([], 1, 1), Samples.Named("m"), Samples.Class(Samples.ONE_NIC), Samples.ORDERS);
  }

  lemma DisownsTheFirst(w: World, m: Machine, cls: MachineClass, orders: Orders)
    requires Valid(w) && LooksUp(w, m, cls, orders) && Matching(w, FiltersOf(m, orders)) != []
    requires Answers(w, m, orders) == [Refuse(InstanceIdNotFound)]
    ensures var r := DeleteMachine(w, m, cls, orders); r.result == Ok(()) && Matching(r.w, FiltersOf(m, orders)) != []
  {
    DeleteExact(w, m, cls, orders);
    DeleteByTagsEmptiesIff(w, m, cls, orders);
    ReachesTheFirst(w, FiltersOf(m, orders));
    assert OutcomeAt(Answers(w, m, orders), 0) == Refuse(InstanceIdNotFound);
  }

  const DISOWNING := [Accept, Accept, Refuse(InstanceIdNotFound)]

  /** A terminate call refused with "not found". */
  lemma LeftByDisowning()
    ensures var m := Samples.Named("m");
            var r := DeleteMachine(Twins(DISOWNING, 0, 0), m, Samples.Class(Samples.ONE_NIC), Samples.ORDERS);
            r.result == Ok(()) && Matching(r.w, FiltersOf(m, Samples.ORDERS)) != []
  {
    var m, w, cls := Samples.Named("m"), Twins(DISOWNING, 0, 0), Samples.Class(Samples.ONE_NIC);
    Samples.ClassIsValid(Samples.ONE_NIC);
    TwinsMatch(DISOWNING, 0, 0);
    UnpagedLookup(w.Skip(1), FiltersOf(m, Samples.ORDERS));
    assert w.Skip(1).Skip(1).script == [Refuse(InstanceIdNotFound)];
    assert LooksUp(w, m, cls, Samples.ORDERS);
    DisownsTheFirst(w, m, cls, Samples.ORDERS);
  }

  // --- Deleting again -------------------------------------------------------------------------------------------

  /** EC2 reports "not found" only for instances it does not know. */
  ghost predicate Honest(script: seq<Outcome>) {
    forall j :: 0 <= j < |script| && (script[j].Refuse? || script[j].Lose?) ==> !script[j].error.InstanceIdNotFound?
  }

  lemma HonestAnswers(w: World, m: Machine, orders: Orders)
    requires Honest(w.script)
    ensures forall j: nat :: OutcomeAt(Answers(w, m, orders), j) != Refuse(InstanceIdNotFound)
  {
    SkipIsHonest(w, 1);
    LookupIsHonest(w.Skip(1), FiltersOf(m, orders));
    HonestNeverDisowns(Answers(w, m, orders));
  }

  lemma HonestNeverDisowns(script: seq<Outcome>)
    requires Honest(script)
    ensures forall j: nat :: OutcomeAt(script, j) != Refuse(InstanceIdNotFound)
  {
  }

  lemma LookupIsHonest(w: World, filters: seq<Filter>)
    requires Honest(w.script)
    ensures Honest(FetchAll(w, filters).w.script)
  {
    var pages := PageCount(Reached(w, filters), w.pageSize);
    var accepted := AcceptedCalls(w.script, pages);
    SkipIsHonest(w, if accepted == pages then pages else accepted + 1);
  }

  lemma SkipIsHonest(w: World, k: nat)
    requires Honest(w.script)
    ensures Honest(w.Skip(k).script)
  {
  }

  lemma DeleteKeepsNames(w: World, m: Machine, cls: MachineClass, orders: Orders, o1: Orders, o2: Orders)
    requires OrdersAgree(w.vms, cls, m.name, o1, o2)
    ensures OrdersAgree(DeleteMachine(w, m, cls, orders).w.vms, cls, m.name, o1, o2)
  {
    DeleteEffect(w, m, cls, orders);
    if Selected(o1.scan) != Selected(o2.scan) {
      NameStaysOwn(w.vms, DeleteMachine(w, m, cls, orders).w.vms, cls, m.name);
    }
  }

  /**
   * With honest answers, success removes every match exactly when the lookup reached them all, and then
   * the same deletion again sends no call, in whatever order it ranges over the tags.
   */
  lemma SecondDeleteIsIdle(w: World, m: Machine, cls: MachineClass, orders: Orders, again: Orders)
    requires Valid(w) && m.providerID == "" && Honest(w.script)
    requires DeleteMachine(w, m, cls, orders).result.Ok? && OrdersAgree(w.vms, cls, m.name, orders, again)
    ensures var w' := DeleteMachine(w, m, cls, orders).w;
            && (Matching(w', FiltersOf(m, again)) == [] <==> ReachesAll(w, m, orders))
            && (ReachesAll(w, m, orders) ==>
                  && DeleteMachine(w', m, cls, again).w.log == w'.log
                  && DeleteMachine(w', m, cls, again).w.vms == w'.vms)
  {
    var w' := DeleteMachine(w, m, cls, orders).w;
    HonestAnswers(w, m, orders);
    DeleteByTagsEmptiesIff(w, m, cls, orders);
    DeleteKeepsNames(w, m, cls, orders, orders, again);
    MatchingAnyOrder(w', cls, m.name, orders, again);
    if ReachesAll(w, m, orders) {
      IdleWithoutMatches(w, m, cls, orders, again);
    }
  }

  lemma {:induction false} IdleWithoutMatches(w: World, m: Machine, cls: MachineClass, orders: Orders, again: Orders)
    requires Valid(w) && m.providerID == ""
    requires Matching(DeleteMachine(w, m, cls, orders).w, FiltersOf(m, again)) == []
    ensures var w' := DeleteMachine(w, m, cls, orders).w;
            && DeleteMachine(w', m, cls, again).w.log == w'.log
            && DeleteMachine(w', m, cls, again).w.vms == w'.vms
  {
    var w' := DeleteMachine(w, m, cls, orders).w;
    DeleteEffect(w, m, cls, orders);
    KeptStaysValid(w, w');
    if LooksUp(w', m, cls, again) {
      DeleteExact(w', m, cls, again);
      assert forall id :: id in w'.vms ==> DeleteMachine(w', m, cls, again).w.vms[id] == w'.vms[id];
    } else {
      DeleteElsewise(w', m, cls, again);
    }
  }

  // --- Retries ------------------------------------------------------------------------------------------------

  /** A selection that can only lose members gets shorter by losing one. */
  lemma {:induction false} SelectShrinks(vms: map<string, Vm>, vms': map<string, Vm>, ids: seq<string>,
                                         filters: seq<Filter>)
    requires forall id :: id in ids && id in vms' && Passes(vms'[id], filters) ==> id in vms && Passes(vms[id], filters)
    ensures |Select(vms', ids, filters)| <= |Select(vms, ids, filters)|
    ensures (exists id :: id in ids && id in vms && Passes(vms[id], filters)
                          && !(id in vms' && Passes(vms'[id], filters))) ==>
              |Select(vms', ids, filters)| < |Select(vms, ids, filters)|
  {
    if ids != [] {
      SelectShrinks(vms, vms', ids[..|ids| - 1], filters);
      assert ids == ids[..|ids| - 1] + [ids[|ids| - 1]];
    }
  }

  /** The termination of the j-th match by tags gets through: it is sent and not refused. */
  ghost predicate Through(w: World, m: Machine, orders: Orders, j: nat) {
    var n, answers := Reached(w, FiltersOf(m, orders)), Answers(w, m, orders);
    j < n && j <= CallsBeforeStop(answers, n) && !OutcomeAt(answers, j).Refuse?
  }

  /** By tags, some termination gets through, whatever becomes of those before and after it. */
  ghost predicate ThroughByTags(w: World, m: Machine, cls: MachineClass, orders: Orders) {
    LooksUp(w, m, cls, orders) && exists j: nat :: Through(w, m, orders, j)
  }

  /** By provider id, the instance named matches and its termination gets through. */
  ghost predicate ThroughByID(w: World, m: Machine, cls: MachineClass, orders: Orders) {
    && m.providerID != "" && ProviderId.Decode(m.providerID).Ok?
    && var (region, id) := ProviderId.Decode(m.providerID).value;
       && GoesByID(w, m, cls, region, id)
       && id in Matching(w, FiltersOf(m, orders)) && !OutcomeAt(w.script, 1).Refuse?
  }

  /** This attempt gets at least one termination of a match through. */
  ghost predicate GetsOneThrough(w: World, m: Machine, cls: MachineClass, orders: Orders) {
    if m.providerID == "" then ThroughByTags(w, m, cls, orders) else ThroughByID(w, m, cls, orders)
  }

  lemma MatchesOnlyGo(w: World, m: Machine, cls: MachineClass, orders: Orders)
    requires Valid(w)
    ensures var w', filters := DeleteMachine(w, m, cls, orders).w, FiltersOf(m, orders);
            && Valid(w') && w'.issued == w.issued
            && forall id :: id in w.issued && id in w'.vms && Passes(w'.vms[id], filters) ==>
                 id in w.vms && Passes(w.vms[id], filters)
  {
    var w', filters := DeleteMachine(w, m, cls, orders).w, FiltersOf(m, orders);
    DeleteEffect(w, m, cls, orders);
    KeptStaysValid(w, w');
    SelectMembers(w'.vms, w.issued, filters);
    SelectMembers(w.vms, w.issued, filters);
    forall id | id in w.issued && id in w'.vms && Passes(w'.vms[id], filters)
      ensures id in w.vms && Passes(w.vms[id], filters)
    {
      assert id in Matching(w', filters);
      NoNewMatches(w, m, cls, orders, id);
    }
  }

  lemma FewerIfThrough(w: World, m: Machine, cls: MachineClass, orders: Orders, j: nat)
    requires Valid(w) && LooksUp(w, m, cls, orders) && Through(w, m, orders, j)
    ensures |Matching(DeleteMachine(w, m, cls, orders).w, FiltersOf(m, orders))| < |Matching(w, FiltersOf(m, orders))|
  {
    var w', filters := DeleteMachine(w, m, cls, orders).w, FiltersOf(m, orders);
    MatchesOnlyGo(w, m, cls, orders);
    StillMatching(w, m, cls, orders, j);
    SelectMembers(w.vms, w.issued, filters);
    SelectMembers(w'.vms, w.issued, filters);
    var id := Matching(w, filters)[j];
    assert id in Matching(w, filters);
    assert id in w.issued && id in w.vms && Passes(w.vms[id], filters);
    assert !(id in w'.vms && Passes(w'.vms[id], filters));
    SelectShrinks(w.vms, w'.vms, w.issued, filters);
  }

  lemma SameUnlessThrough(w: World, m: Machine, cls: MachineClass, orders: Orders)
    requires Valid(w) && LooksUp(w, m, cls, orders) && forall j: nat :: !Through(w, m, orders, j)
    ensures Matching(DeleteMachine(w, m, cls, orders).w, FiltersOf(m, orders)) == Matching(w, FiltersOf(m, orders))
  {
    var w', filters := DeleteMachine(w, m, cls, orders).w, FiltersOf(m, orders);
    MatchesOnlyGo(w, m, cls, orders);
    SelectMembers(w.vms, w.issued, filters);
    SelectMembers(w'.vms, w.issued, filters);
    forall id | id in w.issued
      ensures id in w.vms && Passes(w.vms[id], filters) <==> id in w'.vms && Passes(w'.vms[id], filters)
    {
      if id in w.vms && Passes(w.vms[id], filters) {
        var j: nat :| j < |Matching(w, filters)| && Matching(w, filters)[j] == id;
        assert !Through(w, m, orders, j);
        StillMatching(w, m, cls, orders, j);
      }
    }
    SelectAgrees(w.vms, w'.vms, w.issued, filters, filters);
  }

  lemma {:induction false} ExceptShorterIff(ids: seq<string>, id: string)
    ensures |Except(ids, id)| <= |ids| && (|Except(ids, id)| < |ids| <==> id in ids)
  {
    if ids != [] {
      ExceptShorterIff(ids[..|ids| - 1], id);
      assert ids == ids[..|ids| - 1] + [ids[|ids| - 1]];
    }
  }

  /** By provider id, a call that does not get to its termination fails and only reads. */
  lemma DeleteByIDElsewise(w: World, m: Machine, cls: MachineClass, orders: Orders)
    requires m.providerID != ""
    requires ProviderId.Decode(m.providerID).Ok? ==>
               var (region, id) := ProviderId.Decode(m.providerID).value; !GoesByID(w, m, cls, region, id)
    ensures DeleteMachine(w, m, cls, orders).result.Err? && OnlyRead(w, DeleteMachine(w, m, cls, orders).w)
  {
  }

  /** A deletion with a provider id that succeeds sent one call, for the instance named after the last slash. */
  lemma SuccessByIDSendsOneCall(w: World, m: Machine, cls: MachineClass, orders: Orders)
      returns (prefix: string, id: string)
    requires m.providerID != "" && DeleteMachine(w, m, cls, orders).result.Ok?
    ensures m.providerID == prefix + "/" + id && '/' !in id
    ensures DeleteMachine(w, m, cls, orders).w.log == w.log + [TerminateCall(id)]
  {
    var front := ProviderId.DecodeShape(m.providerID);
    if ProviderId.Decode(m.providerID).Err? {
      DeleteByIDElsewise(w, m, cls, orders);
    }
    var (region, target) := ProviderId.Decode(m.providerID).value;
    if !GoesByID(w, m, cls, region, target) {
      DeleteByIDElsewise(w, m, cls, orders);
    }
    prefix, id := front + region, target;
    DeleteByIDExact(w, m, cls, orders, region, id);
  }

  /** Of an otherwise sound request, the provider id is refused exactly when it has no slash. */
  lemma UndecodableIsInvalid(w: World, m: Machine, cls: MachineClass, orders: Orders)
    requires cls.provider == "AWS" && Decoded(cls).Ok? && ClientAvailable(w) && m.providerID != ""
    ensures DeleteMachine(w, m, cls, orders).result == Err(InvalidArgument) <==> '/' !in m.providerID
  {
    var _ := ProviderId.DecodeShape(m.providerID);
  }

  lemma ProgressByID(w: World, m: Machine, cls: MachineClass, orders: Orders)
    requires Valid(w) && m.providerID != ""
    ensures var before, after := Matching(w, FiltersOf(m, orders)),
                                 Matching(DeleteMachine(w, m, cls, orders).w, FiltersOf(m, orders));
            |after| <= |before| && (|after| < |before| <==> ThroughByID(w, m, cls, orders))
  {
    if ProviderId.Decode(m.providerID).Ok? {
      var (region, id) := ProviderId.Decode(m.providerID).value;
      if GoesByID(w, m, cls, region, id) {
        StillMatchingByID(w, m, cls, orders, region, id, orders);
        ExceptShorterIff(Matching(w, FiltersOf(m, orders)), id);
      } else {
        DeleteByIDElsewise(w, m, cls, orders);
      }
    } else {
      DeleteByIDElsewise(w, m, cls, orders);
    }
  }

  lemma ProgressByTags(w: World, m: Machine, cls: MachineClass, orders: Orders)
    requires Valid(w) && m.providerID == ""
    ensures var before, after := Matching(w, FiltersOf(m, orders)),
                                 Matching(DeleteMachine(w, m, cls, orders).w, FiltersOf(m, orders));
            |after| <= |before| && (|after| < |before| <==> ThroughByTags(w, m, cls, orders))
  {
    if !LooksUp(w, m, cls, orders) {
      DeleteElsewise(w, m, cls, orders);
    } else if j: nat :| Through(w, m, orders, j) {
      FewerIfThrough(w, m, cls, orders, j);
    } else {
      SameUnlessThrough(w, m, cls, orders);
    }
  }

  /** No deletion adds a match, and there are fewer after it exactly when some termination of one gets through. */
  lemma DeleteProgress(w: World, m: Machine, cls: MachineClass, orders: Orders)
    requires Valid(w)
    ensures var w', filters := DeleteMachine(w, m, cls, orders).w, FiltersOf(m, orders);
            && Valid(w')
            && |Matching(w', filters)| <= |Matching(w, filters)|
            && (|Matching(w', filters)| < |Matching(w, filters)| <==> GetsOneThrough(w, m, cls, orders))
  {
    MatchesOnlyGo(w, m, cls, orders);
    if m.providerID == "" {
      ProgressByTags(w, m, cls, orders);
    } else {
      ProgressByID(w, m, cls, orders);
    }
  }

  /** However early a token repeats, the first page has been fetched by then. */
  lemma ReachesTheFirst(w: World, filters: seq<Filter>)
    requires Matching(w, filters) != []
    ensures Reached(w, filters) > 0
  {
    if w.duplicateAt > 0 && w.pageSize > 0 {
      MultiplesApart(0, w.duplicateAt, w.pageSize);
    }
  }

  /** The world after a series of attempts, each of which ranges over the tags in an order of its own. */
  ghost function Retried(w: World, m: Machine, cls: MachineClass, attempts: seq<Orders>): World {
    if attempts == [] then w
    else DeleteMachine(Retried(w, m, cls, attempts[..|attempts| - 1]), m, cls, attempts[|attempts| - 1]).w
  }

  /** Each attempt gets a termination through as long as something is left. */
  ghost predicate KeepsGettingThrough(w: World, m: Machine, cls: MachineClass, attempts: seq<Orders>) {
    attempts == [] ||
    var front, last := attempts[..|attempts| - 1], attempts[|attempts| - 1];
    && KeepsGettingThrough(w, m, cls, front)
    && var before := Retried(w, m, cls, front);
       Matching(before, FiltersOf(m, last)) != [] ==> GetsOneThrough(before, m, cls, last)
  }

  /** Each attempt agrees with `orders` on what matches. */
  ghost predicate AllAgree(vms: map<string, Vm>, cls: MachineClass, name: string, attempts: seq<Orders>,
                           orders: Orders)
  {
    forall i :: 0 <= i < |attempts| ==> OrdersAgree(vms, cls, name, attempts[i], orders)
  }

  /** After n attempts either nothing matches or at least n of the first matches are gone. */
  ghost predicate Shrunk(w: World, filters: seq<Filter>, first: nat, n: nat) {
    Valid(w) && (Matching(w, filters) == [] || |Matching(w, filters)| + n <= first)
  }

  lemma ShrinksOnce(w: World, m: Machine, cls: MachineClass, attempt: Orders, orders: Orders, first: nat, n: nat)
    requires Shrunk(w, FiltersOf(m, orders), first, n)
    requires Matching(w, FiltersOf(m, attempt)) != [] ==> GetsOneThrough(w, m, cls, attempt)
    requires OrdersAgree(w.vms, cls, m.name, attempt, orders)
    ensures Shrunk(DeleteMachine(w, m, cls, attempt).w, FiltersOf(m, orders), first, n + 1)
  {
    DeleteProgress(w, m, cls, attempt);
    DeleteKeepsNames(w, m, cls, attempt, attempt, orders);
    MatchingAnyOrder(w, cls, m.name, attempt, orders);
    MatchingAnyOrder(DeleteMachine(w, m, cls, attempt).w, cls, m.name, attempt, orders);
  }

  lemma {:induction false} RetriesKeepNames(w: World, m: Machine, cls: MachineClass, attempts: seq<Orders>, o1: Orders,
                                            o2: Orders)
    requires OrdersAgree(w.vms, cls, m.name, o1, o2)
    ensures OrdersAgree(Retried(w, m, cls, attempts).vms, cls, m.name, o1, o2)
  {
    if attempts != [] {
      var front, last := attempts[..|attempts| - 1], attempts[|attempts| - 1];
      RetriesKeepNames(w, m, cls, front, o1, o2);
      DeleteKeepsNames(Retried(w, m, cls, front), m, cls, last, o1, o2);
    }
  }

  lemma {:induction false} RetriesShrink(w: World, m: Machine, cls: MachineClass, attempts: seq<Orders>,
                                         orders: Orders, first: nat)
    requires Valid(w) && first == |Matching(w, FiltersOf(m, orders))|
    requires AllAgree(w.vms, cls, m.name, attempts, orders) && KeepsGettingThrough(w, m, cls, attempts)
    ensures Shrunk(Retried(w, m, cls, attempts), FiltersOf(m, orders), first, |attempts|)
  {
    if attempts != [] {
      var front, last := attempts[..|attempts| - 1], attempts[|attempts| - 1];
      RetriesShrink(w, m, cls, front, orders, first);
      RetriesKeepNames(w, m, cls, front, last, orders);
      ShrinksOnce(Retried(w, m, cls, front), m, cls, last, orders, first, |front|);
    }
  }

  /**
   * Retried often enough, deletion ends with nothing left that matches: one attempt per match will do,
   * each with an iteration order of its own, even if the server repeats page tokens.
   */
  lemma RetriesDrain(w: World, m: Machine, cls: MachineClass, attempts: seq<Orders>, orders: Orders)
    requires Valid(w) && |attempts| >= |Matching(w, FiltersOf(m, orders))|
    requires AllAgree(w.vms, cls, m.name, attempts, orders) && KeepsGettingThrough(w, m, cls, attempts)
    ensures Matching(Retried(w, m, cls, attempts), FiltersOf(m, orders)) == []
  {
    RetriesShrink(w, m, cls, attempts, orders, |Matching(w, FiltersOf(m, orders))|);
  }
}

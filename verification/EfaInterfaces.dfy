/** Which interfaces an initialisation calls to switch the check off, in plain terms: EFA and EFA-only ones never. */
module EfaInterfaces {
  import opened Wrappers
  import opened Ec2
  import opened DriverSpec
  import opened Effects
  import opened SourceDestChecks
  import opened InitializationRuns

  /** The two interface types that do not support the change. */
  predicate WithoutCheck(nic: Nic) {
    nic.interfaceType == Some("efa") || nic.interfaceType == Some("efa-only")
  }

  /** Between w and w' a call to switch the check of this interface off is sent. */
  ghost predicate CallsFor(w: World, w': World, n: string) {
    exists k :: |w.log| <= k < |w'.log| && w'.log[k] == DisableCheckCall(n)
  }

  lemma EfaMeans(nic: Nic)
    ensures IsEfa(nic) <==> WithoutCheck(nic)
  {
  }

  lemma {:induction false} DisableCallsContents(ids: seq<string>)
    ensures |DisableCalls(ids)| == |ids|
    ensures forall i :: 0 <= i < |ids| ==> DisableCalls(ids)[i] == DisableCheckCall(ids[i])
  {
    if ids != [] {
      DisableCallsContents(ids[1..]);
    }
  }

  /** The log grows, without a call to switch a check off. */
  ghost predicate NoDisabling(w: World, w': World) {
    w.log <= w'.log && forall k :: |w.log| <= k < |w'.log| ==> !w'.log[k].DisableCheckCall?
  }

  lemma {:induction false} AssignDisablesNothing(w: World, specs: seq<NicSpec>, views: seq<NicView>)
    ensures NoDisabling(w, AssignAll(w, specs, views).w)
    decreases |views|
  {
    if views != [] {
      match Unmet(specs, views[0].nic)
      case None => AssignDisablesNothing(w, specs, views[1..]);
      case Some(wanted) =>
        var r := AssignPrefixes(w, views[0].id, Request(wanted, views[0]));
        assert r.w.log == w.log + [AssignPrefixesCall(views[0].id, Request(wanted, views[0]))];
        if r.result.Success? {
          AssignDisablesNothing(r.w, specs, views[1..]);
        }
    }
  }

  lemma DisableAllCallsIff(w: World, nics: seq<NicView>, n: string)
    ensures CallsFor(w, DisableAll(w, nics).w, n) <==> n in Attempts(nics)
    ensures w.log <= DisableAll(w, nics).w.log
  {
    EveryCheckIsAttempted(w, nics);
    var attempts := Attempts(nics);
    DisableCallsContents(attempts);
    if n in attempts {
      var i :| 0 <= i < |attempts| && attempts[i] == n;
      assert DisableAll(w, nics).w.log[|w.log| + i] == DisableCheckCall(n);
    }
  }

  lemma AttemptedIff(w: World, t: Instance, n: string)
    requires Shows(w, t)
    ensures n in Attempts(t.nics) <==> n in w.vms[t.id].nicIDs && !WithoutCheck(NicAt(w.nics, n))
  {
    AttemptsContents(t.nics);
    var ids := w.vms[t.id].nicIDs;
    if n in ids {
      var i :| 0 <= i < |ids| && ids[i] == n;
      EfaMeans(t.nics[i].nic);
    }
    if n in Attempts(t.nics) {
      var i :| 0 <= i < |t.nics| && t.nics[i].id == n && !IsEfa(t.nics[i].nic);
      assert ids[i] in ids;
      EfaMeans(t.nics[i].nic);
    }
  }

  lemma DisableCalledIff(w: World, t: Instance, n: string)
    requires Shows(w, t)
    ensures w.log <= DisableSrcAndDestCheck(w, t.id).w.log
    ensures CallsFor(w, DisableSrcAndDestCheck(w, t.id).w, n) <==>
              w.Outcome() == Accept && n in w.vms[t.id].nicIDs && !WithoutCheck(NicAt(w.nics, n))
  {
    AttemptedIff(w, t, n);
    var d := DescribeByID(w, t.id);
    if w.Outcome() == Accept && t.nics != [] {
      assert DisableSrcAndDestCheck(w, t.id) == DisableAll(w.Skip(1), t.nics);
      DisableAllCallsIff(w.Skip(1), t.nics, n);
    } else {
      assert OnlyRead(w, DisableSrcAndDestCheck(w, t.id).w);
      assert t.nics == [] ==> w.vms[t.id].nicIDs == [];
    }
  }

  lemma CallsStay(a: World, b: World, c: World, n: string)
    requires a.log <= b.log && NoDisabling(b, c)
    ensures CallsFor(a, c, n) <==> CallsFor(a, b, n)
  {
    if k :| |a.log| <= k < |b.log| && b.log[k] == DisableCheckCall(n) {
      assert c.log[k] == DisableCheckCall(n);
    }
  }

  lemma InstanceCalledIff(w: World, spec: ProviderSpec, t: Instance, n: string)
    requires Shows(w, t)
    ensures CallsFor(w, InitializeInstance(w, spec, t).w, n) <==>
              && spec.srcAndDstChecksEnabled == Some(false) && t.sourceDestCheck != Some(false)
              && w.Outcome() == Accept && n in w.vms[t.id].nicIDs && !WithoutCheck(NicAt(w.nics, n))
  {
    var disabled := if ChecksToDisable(spec, t) then DisableSrcAndDestCheck(w, t.id) else Attempt(w, true);
    DisableCalledIff(w, t, n);
    AssignDisablesNothing(disabled.w, spec.networkInterfaces, t.nics);
    CallsStay(w, disabled.w, AssignAll(disabled.w, spec.networkInterfaces, t.nics).w, n);
  }

  /**
   * An initialisation calls to switch the check of an interface off exactly when the class wants the checks
   * off, the found instance's own flag is not off yet, the instance is described to it, and the interface is
   * one of its interfaces and neither EFA nor EFA-only.
   */
  lemma {:induction false} InitializeCallsIff(w: World, m: Machine, cls: MachineClass, orders: Orders, n: string)
    ensures CallsFor(w, InitializeMachine(w, m, cls, orders).w, n) <==>
              var t := Target(w, m, cls, orders);
              && t.Some? && t.value.id in w.vms
              && cls.spec.value.srcAndDstChecksEnabled == Some(false) && t.value.sourceDestCheck != Some(false)
              && AfterLookup(w, m, orders).Outcome() == Accept
              && n in w.vms[t.value.id].nicIDs && !WithoutCheck(NicAt(w.nics, n))
  {
    var w1 := InitializeShape(w, m, cls, orders);
    if Target(w, m, cls, orders).Some? {
      InstanceCalledIff(w1, cls.spec.value, Target(w, m, cls, orders).value, n);
    }
  }

  // --- What follows the disabling -------------------------------------------------------------------------------

  /** The checks are not all switched off: the describe call, the interfaces or some attempt are missing. */
  ghost predicate DisablingFails(w: World, t: Instance) {
    w.Outcome() != Accept || t.nics == [] || !AllSucceed(w.Skip(1), w.Skip(1).script, Attempts(t.nics))
  }

  /** The answer once the prefix requests are over. */
  ghost predicate EndsWith(answer: Answer<MachineResponse>, requested: Attempt, spec: ProviderSpec, t: Instance) {
    && answer.w == requested.w
    && answer.result == if requested.ok
                        then Ok(MachineResponse("aws:///" + spec.region + "/" + t.id, t.dns.GetOr("")))
                        else Err(Uninitialized)
  }

  /**
   * If the checks are to be switched off and that fails, the call answers Uninitialized and requests no
   * prefixes. Otherwise it requests them, and succeeds exactly when no request fails.
   */
  lemma DisablingComesFirst(w: World, spec: ProviderSpec, t: Instance)
    requires Shows(w, t)
    ensures var r, tries := InitializeInstance(w, spec, t),
                            spec.srcAndDstChecksEnabled == Some(false) && t.sourceDestCheck != Some(false);
            if tries && DisablingFails(w, t) then r.result == Err(Uninitialized) && NoRequests(w, r.w)
            else
              var w1 := if tries then DisableAll(w.Skip(1), t.nics).w else w;
              EndsWith(r, AssignAll(w1, spec.networkInterfaces, t.nics), spec, t)
  {
    DisableRequestsNothing(w, t.id);
    if w.Outcome() == Accept {
      OkIffEveryAttemptSucceeds(w.Skip(1), t.nics);
      assert DescribeByID(w, t.id).result == Success([t]);
    }
  }
}

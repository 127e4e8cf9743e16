/** InitializeMachine and GetMachineStatus: when a successful initialisation is one the status agrees with. */
module Initialization {
  import opened Wrappers
  import opened Ec2
  import opened DriverSpec
  import opened Effects
  import opened SourceDestChecks
  import opened Prefixes

  /** The interfaces differ at most in their checks. */
  ghost predicate SamePrefixes(w: World, w': World) {
    && w'.nics.Keys == w.nics.Keys
    && forall n :: n in w.nics ==> w'.nics[n] == w.nics[n].(sourceDestCheck := w'.nics[n].sourceDestCheck)
  }

  /** The interfaces differ at most in their prefixes. */
  ghost predicate SameChecks(w: World, w': World) {
    && w'.nics.Keys == w.nics.Keys
    && forall n :: n in w.nics ==> w'.nics[n] == w.nics[n].(prefixes := w'.nics[n].prefixes)
  }

  lemma DisableAllSamePrefixes(w: World, nics: seq<NicView>)
    ensures SamePrefixes(w, DisableAll(w, nics).w)
  {
    DisableAllSettles(w, nics);
    forall n | n in w.nics
      ensures DisableAll(w, nics).w.nics[n]
                == w.nics[n].(sourceDestCheck := DisableAll(w, nics).w.nics[n].sourceDestCheck)
    {
      ExactlyTheHitAreOff(w, nics, n);
    }
  }

  lemma DisableSamePrefixes(w: World, instanceID: string)
    ensures SamePrefixes(w, DisableSrcAndDestCheck(w, instanceID).w)
  {
    var d := DescribeByID(w, instanceID);
    assert OnlyRead(w, d.w);
    if d.result.Success? && d.result.value != [] {
      DisableAllSamePrefixes(d.w, d.result.value[0].nics);
    }
  }

  lemma AssignSameChecks(w: World, nicID: string, count: int32)
    ensures SameChecks(w, AssignPrefixes(w, nicID, count).w)
  {
  }

  lemma SameChecksTransitive(a: World, b: World, c: World)
    requires SameChecks(a, b) && SameChecks(b, c)
    ensures SameChecks(a, c)
  {
  }

  lemma {:induction false} AssignAllSameChecks(w: World, specs: seq<NicSpec>, views: seq<NicView>)
    ensures SameChecks(w, AssignAll(w, specs, views).w)
    decreases |views|
  {
    if views != [] {
      match Unmet(specs, views[0].nic)
      case None => AssignAllSameChecks(w, specs, views[1..]);
      case Some(wanted) =>
        var r := AssignPrefixes(w, views[0].id, Request(wanted, views[0]));
        AssignSameChecks(w, views[0].id, Request(wanted, views[0]));
        if r.result.Success? {
          AssignAllSameChecks(r.w, specs, views[1..]);
          SameChecksTransitive(w, r.w, AssignAll(r.w, specs, views[1..]).w);
        }
    }
  }

  /** What DescribeInstances shows of a valid world is up to date and names each interface once. */
  lemma ShownIsUpToDate(w: World, t: Instance)
    requires Valid(w) && Shows(w, t)
    ensures UpToDate(w, t.nics) && DistinctIDs(t.nics)
  {
  }

  lemma StaysUpToDate(w: World, w': World, views: seq<NicView>)
    requires UpToDate(w, views) && SamePrefixes(w, w')
    ensures UpToDate(w', views)
  {
  }

  /** The instance as it is in a later world. */
  function Now(w: World, id: string): Instance
    requires id in w.vms
  {
    InstanceOf(id, w.vms[id], w.nics)
  }

  /** A successful initialisation leaves no prefixes to be wished for. */
  lemma InitializedPrefixes(w: World, spec: ProviderSpec, t: Instance)
    requires Valid(w) && Shows(w, t) && InitializeInstance(w, spec, t).result.Ok?
    ensures forall n :: n in w.vms[t.id].nicIDs ==> Met(InitializeInstance(w, spec, t).w, spec.networkInterfaces, n)
  {
    var disabled := if ChecksToDisable(spec, t) then DisableSrcAndDestCheck(w, t.id) else Attempt(w, true);
    ShownIsUpToDate(w, t);
    DisableSamePrefixes(w, t.id);
    StaysUpToDate(w, disabled.w, t.nics);
    forall n | n in w.vms[t.id].nicIDs ensures Met(InitializeInstance(w, spec, t).w, spec.networkInterfaces, n) {
      var i :| 0 <= i < |t.nics| && t.nics[i].id == n;
      AssignAllMeets(disabled.w, spec.networkInterfaces, t.nics, i);
    }
  }

  /** It leaves the check on exactly where it did not try to switch it off. */
  lemma InitializedChecks(w: World, spec: ProviderSpec, t: Instance, n: string)
    requires Valid(w) && Shows(w, t) && InitializeInstance(w, spec, t).result.Ok?
    requires n in w.vms[t.id].nicIDs && n in w.nics
    ensures var w' := InitializeInstance(w, spec, t).w;
            && n in w'.nics && (IsEfa(w'.nics[n]) <==> IsEfa(w.nics[n]))
            && (!IsEfa(w.nics[n]) ==> (IsOn(w'.nics[n]) <==> !ChecksToDisable(spec, t) && IsOn(w.nics[n])))
  {
    var disabled := if ChecksToDisable(spec, t) then DisableSrcAndDestCheck(w, t.id) else Attempt(w, true);
    DisableSamePrefixes(w, t.id);
    AssignAllSameChecks(disabled.w, spec.networkInterfaces, t.nics);
    if ChecksToDisable(spec, t) && !IsEfa(w.nics[n]) {
      var d := DescribeByID(w, t.id);
      assert d.result.value[0] == t;
      var i :| 0 <= i < |t.nics| && t.nics[i].id == n;
      SuccessLeavesNoneOn(d.w, t.nics, i);
    }
  }

  /**
   * After a successful initialisation the instance still needs one exactly when the checks are to be
   * off, the instance's own flag was already off, and yet some non-EFA interface had its check on.
   */
  lemma {:induction false} ReadyIff(w: World, spec: ProviderSpec, t: Instance)
    requires Valid(w) && Shows(w, t) && InitializeInstance(w, spec, t).result.Ok?
    ensures var w' := InitializeInstance(w, spec, t).w;
            && t.id in w'.vms
            && (NeedsInitialization(spec, Now(w', t.id)) <==>
                  spec.srcAndDstChecksEnabled == Some(false) && t.sourceDestCheck == Some(false) && CheckLeftOn(t.nics))
  {
    var w' := InitializeInstance(w, spec, t).w;
    InitializeInstanceSettles(w, spec, t);
    InitializedPrefixes(w, spec, t);
    var ids, t' := w.vms[t.id].nicIDs, Now(w', t.id);
    assert !PrefixesUnmet(spec.networkInterfaces, t'.nics) by {
      forall i | 0 <= i < |t'.nics| ensures Unmet(spec.networkInterfaces, t'.nics[i].nic).None? {
        assert ids[i] in ids;
      }
    }
    LeftOnIff(w, spec, t);
  }

  lemma LeftOnIff(w: World, spec: ProviderSpec, t: Instance)
    requires Valid(w) && Shows(w, t) && InitializeInstance(w, spec, t).result.Ok?
    ensures var w' := InitializeInstance(w, spec, t).w;
            t.id in w'.vms && (CheckLeftOn(Now(w', t.id).nics) <==> !ChecksToDisable(spec, t) && CheckLeftOn(t.nics))
  {
    var w' := InitializeInstance(w, spec, t).w;
    InitializeInstanceSettles(w, spec, t);
    var ids, t' := w.vms[t.id].nicIDs, Now(w', t.id);
    forall i | 0 <= i < |ids|
      ensures && (IsEfa(t'.nics[i].nic) <==> IsEfa(t.nics[i].nic))
              && (!IsEfa(t.nics[i].nic) ==>
                   (IsOn(t'.nics[i].nic) <==> !ChecksToDisable(spec, t) && IsOn(t.nics[i].nic)))
    {
      assert ids[i] in ids;
      InitializedChecks(w, spec, t, ids[i]);
    }
  }

  /**
   * disableSrcAndDestCheck on an instance that EC2 describes with at least one interface: every non-EFA
   * interface is called for whatever the outcomes; the result is success exactly when every call
   * succeeds; and then no non-EFA interface of the instance has the check on.
   */
  lemma DisablingIsBestEffort(w: World, id: string)
    requires Valid(w) && w.Outcome().Accept? && id in w.vms && w.vms[id].nicIDs != []
    ensures var r, nics := DisableSrcAndDestCheck(w, id), Now(w, id).nics;
            && r.w.log == w.log + DisableCalls(Attempts(nics))
            && (r.ok <==> AllSucceed(w, w.Skip(1).script, Attempts(nics)))
            && id in r.w.vms
            && (r.ok ==> !CheckLeftOn(Now(r.w, id).nics))
  {
    var w1, nics, ids := w.Skip(1), Now(w, id).nics, w.vms[id].nicIDs;
    var r := DisableAll(w1, nics);
    assert DisableSrcAndDestCheck(w, id) == r;
    EveryCheckIsAttempted(w1, nics);
    OkIffEveryAttemptSucceeds(w1, nics);
    DisableAllSettles(w1, nics);
    forall j: nat | j < |Attempts(nics)|
      ensures Succeeds(w1, w1.script, Attempts(nics), j) <==> Succeeds(w, w1.script, Attempts(nics), j)
    {
    }
    if r.ok {
      forall i | 0 <= i < |ids| ensures IsEfa(NicAt(r.w.nics, ids[i])) || !IsOn(NicAt(r.w.nics, ids[i])) {
        assert ids[i] in ids && nics[i] == NicView(ids[i], w.nics[ids[i]]);
        if !IsEfa(nics[i].nic) {
          SuccessLeavesNoneOn(w1, nics, i);
        }
      }
    }
  }
}

/** IPv6 prefixes: requests close the gap exactly, never overshoot, and stop once it is closed. */
module Prefixes {
  import opened Wrappers
  import opened Ec2
  import opened DriverSpec

  /** Asking for the 32-bit difference of a 32-bit count meets that count, even where the arithmetic wraps. */
  lemma DifferenceMeetsCount(wanted: int32, prefixes: nat)
    ensures ToInt32(prefixes + ToInt32(wanted - ToInt32(prefixes))) == wanted
  {
  }

  /** The views show the interfaces as they are now, as far as prefixes are concerned. */
  ghost predicate UpToDate(w: World, views: seq<NicView>) {
    forall i :: 0 <= i < |views| ==>
      && views[i].id in w.nics
      && w.nics[views[i].id].attachment == views[i].nic.attachment
      && w.nics[views[i].id].prefixes == views[i].nic.prefixes
  }

  predicate DistinctIDs(views: seq<NicView>) {
    forall i, j :: 0 <= i < j < |views| ==> views[i].id != views[j].id
  }

  /** The interface exists and the spec wants nothing more of it. */
  ghost predicate Met(w: World, specs: seq<NicSpec>, n: string) {
    n in w.nics && Unmet(specs, w.nics[n]).None?
  }

  /** The interface is not beyond what the spec wants of it. */
  predicate WithinCount(specs: seq<NicSpec>, nic: Nic) {
    var i := SpecIndex(specs, nic);
    i.Some? && specs[i.value].ipv6PrefixCount.Some? ==>
      var count := specs[i.value].ipv6PrefixCount.value;
      nic.prefixes <= (if count > 0 then count else 0)
  }

  /** A successful request meets the spec; any request keeps within it; no other interface changes. */
  lemma OneRequest(w: World, specs: seq<NicSpec>, view: NicView)
    requires UpToDate(w, [view]) && Unmet(specs, view.nic).Some?
    ensures var r := AssignPrefixes(w, view.id, Request(Unmet(specs, view.nic).value, view));
            && view.id in w.nics && r.w.nics.Keys == w.nics.Keys
            && (r.result.Success? ==> Met(r.w, specs, view.id))
            && (WithinCount(specs, w.nics[view.id]) ==> WithinCount(specs, r.w.nics[view.id]))
            && forall n :: n in w.nics && n != view.id ==> r.w.nics[n] == w.nics[n]
  {
    assert [view][0] == view;
    DifferenceMeetsCount(Unmet(specs, view.nic).value, view.nic.prefixes);
  }

  /** A successful run over up-to-date views meets the spec on every interface of them. */
  lemma {:induction false} AssignAllMeets(w: World, specs: seq<NicSpec>, views: seq<NicView>, i: nat)
    requires UpToDate(w, views) && DistinctIDs(views) && i < |views| && AssignAll(w, specs, views).ok
    ensures Met(AssignAll(w, specs, views).w, specs, views[i].id)
    decreases |views|
  {
    var view := views[0];
    assert UpToDate(w, [view]);
    var w1 := w;
    if Unmet(specs, view.nic).Some? {
      OneRequest(w, specs, view);
      w1 := AssignPrefixes(w, view.id, Request(Unmet(specs, view.nic).value, view)).w;
    }
    assert Met(w1, specs, view.id);
    assert UpToDate(w1, views[1..]);
    if i > 0 {
      AssignAllMeets(w1, specs, views[1..], i - 1);
    } else {
      AssignAllSpares(w1, specs, views[1..], view.id);
    }
  }

  /** Interfaces that are not among the views keep what they have. */
  lemma {:induction false} AssignAllSpares(w: World, specs: seq<NicSpec>, views: seq<NicView>, n: string)
    requires n in w.nics && forall i :: 0 <= i < |views| ==> views[i].id != n
    ensures n in AssignAll(w, specs, views).w.nics && AssignAll(w, specs, views).w.nics[n] == w.nics[n]
    decreases |views|
  {
    if views != [] {
      match Unmet(specs, views[0].nic)
      case None => AssignAllSpares(w, specs, views[1..], n);
      case Some(wanted) =>
        var r := AssignPrefixes(w, views[0].id, Request(wanted, views[0]));
        if r.result.Success? {
          AssignAllSpares(r.w, specs, views[1..], n);
        }
    }
  }

  /** No run over up-to-date views takes an interface beyond the spec, whether or not it fails half-way. */
  lemma {:induction false} AssignAllKeepsWithin(w: World, specs: seq<NicSpec>, views: seq<NicView>, n: string)
    requires UpToDate(w, views) && DistinctIDs(views)
    requires n in w.nics && WithinCount(specs, w.nics[n])
    ensures n in AssignAll(w, specs, views).w.nics && WithinCount(specs, AssignAll(w, specs, views).w.nics[n])
    decreases |views|
  {
    if views != [] {
      var view := views[0];
      assert UpToDate(w, [view]);
      match Unmet(specs, view.nic)
      case None => AssignAllKeepsWithin(w, specs, views[1..], n);
      case Some(wanted) =>
        OneRequest(w, specs, view);
        var r := AssignPrefixes(w, view.id, Request(wanted, view));
        if r.result.Success? {
          AssignAllKeepsWithin(r.w, specs, views[1..], n);
        }
    }
  }

  // --- Progress ---------------------------------------------------------------------------------------------

  /** EC2 accepts each request that is due: it asks for a positive number of prefixes. */
  predicate Requestable(specs: seq<NicSpec>, views: seq<NicView>) {
    forall i :: 0 <= i < |views| && Unmet(specs, views[i].nic).Some? ==>
      Request(Unmet(specs, views[i].nic).value, views[i]) > 0
  }

  lemma OneRequestOk(w: World, wanted: int32, view: NicView)
    requires AllAccept(w.script) && view.id in w.nics
    ensures var r := AssignPrefixes(w, view.id, Request(wanted, view));
            && (r.result.Success? <==> Request(wanted, view) > 0)
            && AllAccept(r.w.script) && r.w.nics.Keys == w.nics.Keys
  {
  }

  /** With calls accepted, a run succeeds exactly when each request that is due asks for a positive number. */
  lemma {:induction false} AssignAllOkIff(w: World, specs: seq<NicSpec>, views: seq<NicView>)
    requires AllAccept(w.script) && forall i :: 0 <= i < |views| ==> views[i].id in w.nics
    ensures AssignAll(w, specs, views).ok <==> Requestable(specs, views)
    decreases |views|
  {
    if views != [] {
      RequestableRest(specs, views);
      match Unmet(specs, views[0].nic)
      case None => AssignAllOkIff(w, specs, views[1..]);
      case Some(wanted) =>
        OneRequestOk(w, wanted, views[0]);
        var r := AssignPrefixes(w, views[0].id, Request(wanted, views[0]));
        if r.result.Success? {
          AssignAllOkIff(r.w, specs, views[1..]);
        }
    }
  }

  /** Whatever the outcomes, a run that has an impossible request to make fails. */
  lemma {:induction false} AssignAllOkNeeds(w: World, specs: seq<NicSpec>, views: seq<NicView>)
    requires AssignAll(w, specs, views).ok
    ensures Requestable(specs, views)
    decreases |views|
  {
    if views != [] {
      RequestableRest(specs, views);
      match Unmet(specs, views[0].nic)
      case None => AssignAllOkNeeds(w, specs, views[1..]);
      case Some(wanted) =>
        var r := AssignPrefixes(w, views[0].id, Request(wanted, views[0]));
        assert r.result.Success? ==> Request(wanted, views[0]) > 0;
        AssignAllOkNeeds(r.w, specs, views[1..]);
    }
  }

  lemma RequestableRest(specs: seq<NicSpec>, views: seq<NicView>)
    requires views != []
    ensures Requestable(specs, views) <==>
              && (Unmet(specs, views[0].nic).Some? ==> Request(Unmet(specs, views[0].nic).value, views[0]) > 0)
              && Requestable(specs, views[1..])
  {
    forall i | 0 < i < |views| ensures views[i] == views[1..][i - 1] {
    }
    forall i | 0 <= i < |views| - 1 ensures views[1..][i] == views[i + 1] {
    }
  }

  /** Within the counts, the requests that are due are possible exactly when none stems from a negative count. */
  lemma WithinRequestableIff(specs: seq<NicSpec>, views: seq<NicView>)
    requires forall i :: 0 <= i < |views| ==> WithinCount(specs, views[i].nic)
    ensures Requestable(specs, views) <==>
              forall i :: 0 <= i < |views| && Unmet(specs, views[i].nic).Some? ==> Unmet(specs, views[i].nic).value > 0
  {
    forall i | 0 <= i < |views| && Unmet(specs, views[i].nic).Some?
      ensures Request(Unmet(specs, views[i].nic).value, views[i]) > 0 <==> Unmet(specs, views[i].nic).value > 0
    {
      DueWithin(specs, views[i]);
    }
  }

  lemma DueWithin(specs: seq<NicSpec>, view: NicView)
    requires Unmet(specs, view.nic).Some? && WithinCount(specs, view.nic)
    ensures Request(Unmet(specs, view.nic).value, view) > 0 <==> Unmet(specs, view.nic).value > 0
  {
  }

  // --- Calls ------------------------------------------------------------------------------------------------

  /** Between w and w' no prefixes are requested for the interface. */
  ghost predicate NoRequestFor(w: World, w': World, n: string) {
    && w.log <= w'.log
    && forall k :: |w.log| <= k < |w'.log| ==> !(w'.log[k].AssignPrefixesCall? && w'.log[k].nicID == n)
  }

  lemma NoRequestTransitive(a: World, b: World, c: World, n: string)
    requires NoRequestFor(a, b, n) && NoRequestFor(b, c, n)
    ensures NoRequestFor(a, c, n)
  {
  }

  /** A request for another interface does not concern this one. */
  lemma RequestElsewhere(w: World, specs: seq<NicSpec>, view: NicView, n: string)
    requires UpToDate(w, [view]) && Unmet(specs, view.nic).Some? && Met(w, specs, n)
    ensures view.id != n
    ensures var w' := AssignPrefixes(w, view.id, Request(Unmet(specs, view.nic).value, view)).w;
            NoRequestFor(w, w', n) && Met(w', specs, n)
  {
    assert [view][0] == view;
    OneRequest(w, specs, view);
    var count := Request(Unmet(specs, view.nic).value, view);
    assert AssignPrefixes(w, view.id, count).w.log == w.log + [AssignPrefixesCall(view.id, count)];
  }

  lemma UpToDateRest(w: World, specs: seq<NicSpec>, views: seq<NicView>)
    requires views != [] && UpToDate(w, views) && DistinctIDs(views) && Unmet(specs, views[0].nic).Some?
    ensures UpToDate(w, [views[0]])
    ensures UpToDate(AssignPrefixes(w, views[0].id, Request(Unmet(specs, views[0].nic).value, views[0])).w, views[1..])
  {
  }

  /** For an interface that lacks nothing, as the views show it, nothing is requested and nothing changes. */
  lemma {:induction false} NothingForTheMet(w: World, specs: seq<NicSpec>, views: seq<NicView>, n: string)
    requires Met(w, specs, n) && UpToDate(w, views) && DistinctIDs(views)
    ensures NoRequestFor(w, AssignAll(w, specs, views).w, n)
    ensures Met(AssignAll(w, specs, views).w, specs, n)
    decreases |views|
  {
    if views != [] {
      match Unmet(specs, views[0].nic)
      case None => NothingForTheMet(w, specs, views[1..], n);
      case Some(wanted) =>
        var r := AssignPrefixes(w, views[0].id, Request(wanted, views[0]));
        UpToDateRest(w, specs, views);
        RequestElsewhere(w, specs, views[0], n);
        if r.result.Success? {
          NothingForTheMet(r.w, specs, views[1..], n);
          NoRequestTransitive(w, r.w, AssignAll(r.w, specs, views[1..]).w, n);
        }
    }
  }

  /** For an interface that is not among the views nothing is requested. */
  lemma {:induction false} NothingForOthers(w: World, specs: seq<NicSpec>, views: seq<NicView>, n: string)
    requires forall i :: 0 <= i < |views| ==> views[i].id != n
    ensures NoRequestFor(w, AssignAll(w, specs, views).w, n)
    decreases |views|
  {
    if views != [] {
      match Unmet(specs, views[0].nic)
      case None => NothingForOthers(w, specs, views[1..], n);
      case Some(wanted) =>
        var r := AssignPrefixes(w, views[0].id, Request(wanted, views[0]));
        assert r.w.log == w.log + [AssignPrefixesCall(views[0].id, Request(wanted, views[0]))];
        if r.result.Success? {
          NothingForOthers(r.w, specs, views[1..], n);
          NoRequestTransitive(w, r.w, AssignAll(r.w, specs, views[1..]).w, n);
        }
    }
  }

  // --- Which requests are sent ----------------------------------------------------------------------------------

  /** The requests that are due, interface by interface. */
  function DueCalls(specs: seq<NicSpec>, views: seq<NicView>): seq<Call> {
    if views == [] then []
    else
      match Unmet(specs, views[0].nic)
      case None => DueCalls(specs, views[1..])
      case Some(wanted) =>
        [AssignPrefixesCall(views[0].id, Request(wanted, views[0]))] + DueCalls(specs, views[1..])
  }

  /** EC2 carries the request out and says so. */
  predicate Goes(script: seq<Outcome>, calls: seq<Call>, j: nat)
    requires j < |calls|
  {
    && (OutcomeAt(script, j).Accept? || OutcomeAt(script, j).Blank?)
    && calls[j].AssignPrefixesCall? && calls[j].count > 0
  }

  /** How many requests go before the first that does not. */
  function Going(script: seq<Outcome>, calls: seq<Call>): (k: nat)
    ensures k <= |calls|
    ensures forall j: nat :: j < k ==> Goes(script, calls, j)
    ensures k < |calls| ==> !Goes(script, calls, k)
  {
    if calls == [] || !Goes(script, calls, 0) then 0
    else
      var rest := if script == [] then [] else script[1..];
      assert forall j: nat :: j < |calls| - 1 ==> Goes(rest, calls[1..], j) == Goes(script, calls, j + 1);
      var k := 1 + Going(rest, calls[1..]);
      assert forall j: nat :: 0 < j < k ==> Goes(script, calls, j) == Goes(rest, calls[1..], j - 1);
      k
  }

  /**
   * The requests sent are the due ones up to and including the first that does not go; the run is without
   * error if all go.
   */
  lemma {:induction false} AssignAllCalls(w: World, specs: seq<NicSpec>, views: seq<NicView>)
    requires forall i :: 0 <= i < |views| ==> views[i].id in w.nics
    ensures var r, due := AssignAll(w, specs, views), DueCalls(specs, views);
            var k := Going(w.script, due);
            && (r.ok <==> k == |due|)
            && r.w.log == w.log + due[..Min(k + 1, |due|)]
    decreases |views|
  {
    if views != [] {
      match Unmet(specs, views[0].nic)
      case None => AssignAllCalls(w, specs, views[1..]);
      case Some(wanted) =>
        var call, due := AssignPrefixesCall(views[0].id, Request(wanted, views[0])), DueCalls(specs, views);
        var r := AssignPrefixes(w, views[0].id, Request(wanted, views[0]));
        OneGoes(w, views[0].id, Request(wanted, views[0]), due);
        assert due[0] == call && due[1..] == DueCalls(specs, views[1..]);
        if r.result.Success? {
          AssignAllCalls(r.w, specs, views[1..]);
          LogsLater(w.log, due, Going(r.w.script, due[1..]));
        } else {
          assert due[..1] == [call];
        }
    }
  }

  lemma OneGoes(w: World, n: string, count: int32, due: seq<Call>)
    requires n in w.nics && due != [] && due[0] == AssignPrefixesCall(n, count)
    ensures var r := AssignPrefixes(w, n, count);
            && (r.result.Success? <==> Goes(w.script, due, 0))
            && r.w.log == w.log + [due[0]] && r.w.script == w.Skip(1).script && r.w.nics.Keys == w.nics.Keys
  {
    assert w.Outcome() == OutcomeAt(w.script, 0);
  }

  lemma LogsLater(log: seq<Call>, due: seq<Call>, k: nat)
    requires due != [] && k <= |due| - 1
    ensures (log + [due[0]]) + due[1..][..Min(k + 1, |due| - 1)] == log + due[..Min(k + 2, |due|)]
  {
  }
}

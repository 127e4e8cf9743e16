/** Interfaces are matched to their specs by device index: when the match leads back to the right spec. */
module NicCorrespondence {
  import opened Wrappers
  import opened Tags
  import opened Ec2
  import opened DriverSpec
  import opened Effects
  import opened Histories
  import opened Initialization
  import BlockDevices
  import Samples

  /** The spec names no device index, or its own position. */
  predicate InPlace(specs: seq<NicSpec>, i: nat)
    requires i < |specs|
  {
    specs[i].deviceIndex.None? || specs[i].deviceIndex.value == i
  }

  /** What the launched instance shows at position i. */
  lemma LaunchedNic(w: World, w': World, name: string, spec: ProviderSpec, order: seq<string>, i: nat)
    requires (forall k :: k in order ==> k in spec.tags) && LaunchedFor(w, w', name, spec, order)
    requires i < |spec.networkInterfaces|
    ensures w.births[0].id in w'.vms && |Now(w', w.births[0].id).nics| == |spec.networkInterfaces|
    ensures Now(w', w.births[0].id).nics[i].nic.attachment
         == Some(Attachment(Some(spec.networkInterfaces[i].deviceIndex.GetOr(ToInt32(i)))))
  {
    var b, nics := w.births[0], LaunchNics(spec.networkInterfaces);
    FreshNics(w, b, nics);
    assert BirthNicIDs(b)[i] == b.nics[i].id;
    assert w'.nics[b.nics[i].id] == NewNics(b.nics, nics)[b.nics[i].id];
  }

  /** The interface launched from a spec is matched back to it exactly when the spec is in place. */
  lemma MatchedBackIff(w: World, w': World, name: string, spec: ProviderSpec, order: seq<string>, i: nat)
    requires (forall k :: k in order ==> k in spec.tags) && LaunchedFor(w, w', name, spec, order)
    requires i < |spec.networkInterfaces| < 0x8000_0000
    ensures var id, specs := w.births[0].id, spec.networkInterfaces;
            && id in w'.vms && |Now(w', id).nics| == |specs|
            && (SpecIndex(specs, Now(w', id).nics[i].nic) == Some(i) <==> InPlace(specs, i))
  {
    LaunchedNic(w, w', name, spec, order, i);
  }

  /**
   * Both InitializeMachine and GetMachineStatus find every interface's own spec exactly when all specs
   * are in place.
   */
  lemma AllMatchedBackIff(w: World, w': World, name: string, spec: ProviderSpec, order: seq<string>)
    requires (forall k :: k in order ==> k in spec.tags) && LaunchedFor(w, w', name, spec, order)
    requires |spec.networkInterfaces| < 0x8000_0000
    ensures var id, specs := w.births[0].id, spec.networkInterfaces;
            && id in w'.vms && |Now(w', id).nics| == |specs|
            && ((forall i :: 0 <= i < |specs| ==> SpecIndex(specs, Now(w', id).nics[i].nic) == Some(i))
                <==> forall i :: 0 <= i < |specs| ==> InPlace(specs, i))
  {
    var specs := spec.networkInterfaces;
    assert |Now(w', w.births[0].id).nics| == |specs|;
    forall i | 0 <= i < |specs|
      ensures SpecIndex(specs, Now(w', w.births[0].id).nics[i].nic) == Some(i) <==> InPlace(specs, i)
    {
      MatchedBackIff(w, w', name, spec, order, i);
    }
  }

  // --- Shared device indices ----------------------------------------------------------------------------------

  /** Of n numbers, each of 0 to n - 1 is among them exactly when they are in that range and distinct. */
  lemma OntoIff(numbers: seq<int>)
    ensures (forall h :: 0 <= h < |numbers| ==> h in numbers)
       <==> NoDuplicates(numbers) && forall i :: 0 <= i < |numbers| ==> 0 <= numbers[i] < |numbers|
  {
    var n := |numbers|;
    if forall h :: 0 <= h < n ==> h in numbers {
      forall p | 0 <= p < n
        ensures 0 <= numbers[p] < n && forall q :: 0 <= q < n && numbers[q] == numbers[p] ==> q == p
      {
        OntoIsOneToOne(numbers, p);
      }
    } else if NoDuplicates(numbers) && forall i :: 0 <= i < n ==> 0 <= numbers[i] < n {
      var h :| 0 <= h < n && h !in numbers;
      BlockDevices.Pigeonhole(numbers + [h], n);
    }
  }

  lemma OntoIsOneToOne(numbers: seq<int>, p: nat)
    requires p < |numbers| && forall h :: 0 <= h < |numbers| ==> h in numbers
    ensures 0 <= numbers[p] < |numbers|
    ensures forall q :: 0 <= q < |numbers| && numbers[q] == numbers[p] ==> q == p
  {
    var n := |numbers|;
    if q :| 0 <= q < n && numbers[q] == numbers[p] && q != p {
      var positions := Positions(numbers, n, p);
      BlockDevices.Pigeonhole(positions + [p], n);
    } else if !(0 <= numbers[p] < n) {
      var positions := Positions(numbers, n, p);
      BlockDevices.Pigeonhole(positions + [p], n);
    }
  }

  /** Positions other than p at which 0 to k - 1 stand, where p stands for none of them alone. */
  lemma {:induction false} Positions(numbers: seq<int>, k: nat, p: nat) returns (positions: seq<nat>)
    requires p < |numbers| && k <= |numbers| && forall h :: 0 <= h < |numbers| ==> h in numbers
    requires !(0 <= numbers[p] < |numbers|) || exists q :: 0 <= q < |numbers| && numbers[q] == numbers[p] && q != p
    ensures |positions| == k && forall h :: 0 <= h < k ==>
              positions[h] < |numbers| && positions[h] != p && numbers[positions[h]] == h
  {
    if k == 0 {
      positions := [];
    } else {
      var rest := Positions(numbers, k - 1, p);
      assert k - 1 in numbers;
      var q :| 0 <= q < |numbers| && q != p && numbers[q] == k - 1;
      positions := rest + [q];
    }
  }

  /** The device indices a launch asks for. */
  function DeviceIndices(specs: seq<NicSpec>): (indices: seq<int>)
    ensures |indices| == |specs| && forall i :: 0 <= i < |specs| ==>
              indices[i] == specs[i].deviceIndex.GetOr(ToInt32(i))
  {
    seq(|specs|, i requires 0 <= i < |specs| => specs[i].deviceIndex.GetOr(ToInt32(i)) as int)
  }

  ghost predicate IsMatched(specs: seq<NicSpec>, nics: seq<NicView>, h: int) {
    exists k :: 0 <= k < |nics| && SpecIndex(specs, nics[k].nic) == Some(h)
  }

  /**
   * Each spec of a launch is matched by some interface exactly when the device indices are a
   * permutation of the positions.
   */
  lemma EverySpecMatchedIff(w: World, w': World, name: string, spec: ProviderSpec, order: seq<string>)
    requires (forall k :: k in order ==> k in spec.tags) && LaunchedFor(w, w', name, spec, order)
    requires |spec.networkInterfaces| < 0x8000_0000
    ensures w.births[0].id in w'.vms
    ensures var nics, specs := Now(w', w.births[0].id).nics, spec.networkInterfaces;
            (forall h :: 0 <= h < |specs| ==> IsMatched(specs, nics, h))
            <==> NoDuplicates(DeviceIndices(specs))
                 && forall i :: 0 <= i < |specs| ==> 0 <= DeviceIndices(specs)[i] < |specs|
  {
    var specs, nics := spec.networkInterfaces, Now(w', w.births[0].id).nics;
    var indices := DeviceIndices(specs);
    forall h | 0 <= h < |specs| ensures IsMatched(specs, nics, h) <==> h in indices {
      MatchedIffAsked(w, w', name, spec, order, h);
    }
    OntoIff(indices);
  }

  lemma MatchedIffAsked(w: World, w': World, name: string, spec: ProviderSpec, order: seq<string>, h: nat)
    requires (forall k :: k in order ==> k in spec.tags) && LaunchedFor(w, w', name, spec, order)
    requires h < |spec.networkInterfaces| < 0x8000_0000
    ensures w.births[0].id in w'.vms
    ensures IsMatched(spec.networkInterfaces, Now(w', w.births[0].id).nics, h)
       <==> h in DeviceIndices(spec.networkInterfaces)
  {
    var specs, nics := spec.networkInterfaces, Now(w', w.births[0].id).nics;
    var indices := DeviceIndices(specs);
    LaunchedNic(w, w', name, spec, order, h);
    forall k | 0 <= k < |specs| ensures SpecIndex(specs, nics[k].nic) == Some(h) <==> indices[k] == h {
      LaunchedNic(w, w', name, spec, order, k);
    }
    if h in indices {
      var k :| 0 <= k < |indices| && indices[k] == h;
      assert SpecIndex(specs, nics[k].nic) == Some(h);
    }
  }

  /** The specs with another prefix count at position h. */
  function WithCount(specs: seq<NicSpec>, h: nat, count: Option<int32>): seq<NicSpec>
    requires h < |specs|
  {
    specs[h := specs[h].(ipv6PrefixCount := count)]
  }

  lemma UnmatchedMissesNothing(specs: seq<NicSpec>, nics: seq<NicView>, h: nat, count: Option<int32>)
    requires h < |specs| && !IsMatched(specs, nics, h)
    ensures PrefixesUnmet(WithCount(specs, h, count), nics) <==> PrefixesUnmet(specs, nics)
  {
    forall k | 0 <= k < |nics| ensures Unmet(WithCount(specs, h, count), nics[k].nic) == Unmet(specs, nics[k].nic) {
      assert SpecIndex(specs, nics[k].nic) != Some(h);
    }
  }

  lemma {:induction false} UnmatchedRequestsNothing(w: World, specs: seq<NicSpec>, nics: seq<NicView>, h: nat,
                                                    count: Option<int32>)
    requires h < |specs| && !IsMatched(specs, nics, h)
    ensures AssignAll(w, WithCount(specs, h, count), nics) == AssignAll(w, specs, nics)
    decreases |nics|
  {
    if nics != [] {
      assert SpecIndex(specs, nics[0].nic) != Some(h);
      assert Unmet(WithCount(specs, h, count), nics[0].nic) == Unmet(specs, nics[0].nic);
      assert !IsMatched(specs, nics[1..], h) by {
        assert forall k :: 0 <= k < |nics| - 1 ==> nics[1..][k] == nics[k + 1];
      }
      match Unmet(specs, nics[0].nic)
      case None => UnmatchedRequestsNothing(w, specs, nics[1..], h, count);
      case Some(wanted) =>
        UnmatchedRequestsNothing(AssignPrefixes(w, nics[0].id, Request(wanted, nics[0])).w, specs, nics[1..], h, count);
    }
  }

  /** No history changes which specs the interfaces of an instance are matched to. */
  lemma {:induction false} MatchesForLife(w: World, ops: seq<Op>, id: string, specs: seq<NicSpec>, h: nat)
    requires Valid(w) && id in w.vms && (forall i :: 0 <= i < |ops| ==> Legal(ops[i]))
    requires id in Run(w, ops).vms
    ensures IsMatched(specs, Now(Run(w, ops), id).nics, h) <==> IsMatched(specs, Now(w, id).nics, h)
  {
    var before, after := Now(w, id).nics, Now(Run(w, ops), id).nics;
    RunKeepsNics(w, ops, id);
    RunKeepsAttachments(w, ops);
    forall k | 0 <= k < |before| ensures SpecIndex(specs, after[k].nic) == SpecIndex(specs, before[k].nic) {
      assert w.vms[id].nicIDs[k] in w.nics;
    }
  }

  /**
   * Interfaces may share a device index, on different network cards, or carry one beyond the list. Then
   * some spec of the class is matched by no interface, after any history: whatever prefixes it asks for,
   * none are ever requested on its account and the status never misses any.
   */
  lemma {:induction false} SharedIndexHidesSpec(w: World, w': World, name: string, spec: ProviderSpec,
                                                order: seq<string>, ops: seq<Op>) returns (h: nat)
    requires Valid(w) && IsOrder(order, spec.tags) && LaunchedFor(w, w', name, spec, order)
    requires |spec.networkInterfaces| < 0x8000_0000 && (forall i :: 0 <= i < |ops| ==> Legal(ops[i]))
    requires !(NoDuplicates(DeviceIndices(spec.networkInterfaces))
               && forall i :: 0 <= i < |spec.networkInterfaces| ==>
                    0 <= DeviceIndices(spec.networkInterfaces)[i] < |spec.networkInterfaces|)
    requires w.births[0].id in Run(w', ops).vms
    ensures var specs, nics := spec.networkInterfaces, Now(Run(w', ops), w.births[0].id).nics;
            && h < |specs| && !IsMatched(specs, nics, h)
            && (forall count :: PrefixesUnmet(WithCount(specs, h, count), nics) <==> PrefixesUnmet(specs, nics))
            && forall w1, count :: AssignAll(w1, WithCount(specs, h, count), nics) == AssignAll(w1, specs, nics)
  {
    var specs, id := spec.networkInterfaces, w.births[0].id;
    EverySpecMatchedIff(w, w', name, spec, order);
    h :| 0 <= h < |specs| && !IsMatched(specs, Now(w', id).nics, h);
    LaunchStaysValid(w, w', name, spec, order);
    MatchesForLife(w', ops, id, specs, h);
    var nics := Now(Run(w', ops), id).nics;
    forall count ensures PrefixesUnmet(WithCount(specs, h, count), nics) <==> PrefixesUnmet(specs, nics) {
      UnmatchedMissesNothing(specs, nics, h, count);
    }
    forall w1, count ensures AssignAll(w1, WithCount(specs, h, count), nics) == AssignAll(w1, specs, nics) {
      UnmatchedRequestsNothing(w1, specs, nics, h, count);
    }
  }

  // --- One launch with a shared index ---------------------------------------------------------------------------

  /** Both interfaces at device index 0; the second asks for a prefix. */
  const SHARED := [NicSpec(Some(0), None, None), NicSpec(Some(0), None, Some(1))]

  function TwoNics(): World {
    var birth := Birth("i-1", None, Some("ip"), None, [BirthNic("e1", None), BirthNic("e2", None)]);
    Samples.Empty([], [birth], 0, 0)
  }

  lemma SharedIsLaunched()
    ensures var w, w' := TwoNics(), Samples.Created(TwoNics(), "m", SHARED);
            && CreateMachine(w, Samples.Named("m"), Samples.Class(SHARED), Samples.ORDERS, 0).w == w'
            && IsOrder(Samples.KEYS, Samples.TAGS) && LaunchedFor(w, w', "m", Samples.Spec(SHARED), Samples.KEYS)
  {
    SharedIsFresh();
    Samples.ClassIsValid(SHARED);
    Samples.CreateAccepted(TwoNics(), "m", SHARED);
  }

  lemma SharedIsFresh()
    ensures Fresh(TwoNics(), TwoNics().births[0], LaunchNics(SHARED))
  {
    var ids := BirthNicIDs(TwoNics().births[0]);
    assert ids[0] == "e1" && ids[1] == "e2" && "e1"[1] != "e2"[1];
  }

  /** After the launch nothing is missed and nothing requested, although the class asks for a prefix. */
  lemma {:induction false} SharedIndexHappens(w1: World)
    ensures var w' := CreateMachine(TwoNics(), Samples.Named("m"), Samples.Class(SHARED), Samples.ORDERS, 0).w;
            && "i-1" in w'.vms
            && !PrefixesUnmet(SHARED, Now(w', "i-1").nics)
            && AssignAll(w1, SHARED, Now(w', "i-1").nics) == Attempt(w1, true)
  {
    var w' := Samples.Created(TwoNics(), "m", SHARED);
    SharedIsLaunched();
    SharedAtZero(TwoNics(), w', "m", Samples.Spec(SHARED), Samples.KEYS);
    NothingToAssign(w1, SHARED, Now(w', "i-1").nics);
  }

  /** All interfaces launched from these specs are held against the first, which asks for nothing. */
  lemma SharedAtZero(w: World, w': World, name: string, spec: ProviderSpec, order: seq<string>)
    requires spec.networkInterfaces == SHARED
    requires (forall k :: k in order ==> k in spec.tags) && LaunchedFor(w, w', name, spec, order)
    ensures w.births[0].id in w'.vms && !PrefixesUnmet(SHARED, Now(w', w.births[0].id).nics)
  {
    LaunchedNic(w, w', name, spec, order, 0);
    LaunchedNic(w, w', name, spec, order, 1);
    var nics := Now(w', w.births[0].id).nics;
    forall i | 0 <= i < 2 ensures Unmet(SHARED, nics[i].nic).None? {
      assert SpecIndex(SHARED, nics[i].nic) == Some(0);
    }
  }

  lemma {:induction false} NothingToAssign(w: World, specs: seq<NicSpec>, nics: seq<NicView>)
    requires !PrefixesUnmet(specs, nics)
    ensures AssignAll(w, specs, nics) == Attempt(w, true)
    decreases |nics|
  {
    if nics != [] {
      assert Unmet(specs, nics[0].nic).None?;
      forall i | 0 <= i < |nics| - 1 ensures Unmet(specs, nics[1..][i].nic).None? {
        assert nics[1..][i] == nics[i + 1];
      }
      NothingToAssign(w, specs, nics[1..]);
    }
  }
}

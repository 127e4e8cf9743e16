/** GetMachineStatus in plain terms: when it objects to an instance, and what it never looks at. */
module Statuses {
  import opened Wrappers
  import opened Tags
  import opened Ec2
  import opened DriverSpec
  import opened Effects
  import opened Initialization
  import opened StuckInstances

  /**
   * The interface is attached at an index inside the spec list, the spec there names a prefix count, and the
   * number of prefixes it shows is another one, as 32-bit numbers go.
   */
  predicate ShowsOtherCount(specs: seq<NicSpec>, nic: Nic) {
    && nic.attachment.Some? && nic.attachment.value.deviceIndex.Some?
    && var i := nic.attachment.value.deviceIndex.value;
       && 0 <= i < ToInt32(|specs|)
       && specs[i].ipv6PrefixCount.Some?
       && (nic.prefixes - specs[i].ipv6PrefixCount.value) % 0x1_0000_0000 != 0
  }

  /** The interface has its check on, and is of a type that supports switching it off. */
  predicate ShowsCheckOn(nic: Nic) {
    nic.sourceDestCheck == Some(true) && nic.interfaceType != Some("efa") && nic.interfaceType != Some("efa-only")
  }

  /** What the status asks of an instance. */
  ghost predicate InOrder(w: World, spec: ProviderSpec, id: string)
    requires id in w.vms
  {
    && (forall n :: n in w.vms[id].nicIDs ==> !ShowsOtherCount(spec.networkInterfaces, NicAt(w.nics, n)))
    && (spec.srcAndDstChecksEnabled == Some(false) ==>
          forall n :: n in w.vms[id].nicIDs ==> !ShowsCheckOn(NicAt(w.nics, n)))
  }

  lemma DifferentCounts(wanted: int32, prefixes: nat)
    ensures ToInt32(prefixes) != wanted <==> (prefixes - wanted) % 0x1_0000_0000 != 0
  {
  }

  lemma UnmetMeans(specs: seq<NicSpec>, nic: Nic)
    ensures Unmet(specs, nic).Some? <==> ShowsOtherCount(specs, nic)
    ensures ShowsOtherCount(specs, nic) ==>
              Unmet(specs, nic) == specs[nic.attachment.value.deviceIndex.value].ipv6PrefixCount
  {
    if nic.attachment.Some? && nic.attachment.value.deviceIndex.Some? {
      var i := nic.attachment.value.deviceIndex.value;
      if 0 <= i < ToInt32(|specs|) && specs[i].ipv6PrefixCount.Some? {
        DifferentCounts(specs[i].ipv6PrefixCount.value, nic.prefixes);
      }
    }
  }

  lemma NeedsInitializationIff(w: World, spec: ProviderSpec, id: string)
    requires id in w.vms
    ensures NeedsInitialization(spec, Now(w, id)) <==> !InOrder(w, spec, id)
  {
    var ids, nics := w.vms[id].nicIDs, Now(w, id).nics;
    forall i | 0 <= i < |ids|
      ensures Unmet(spec.networkInterfaces, nics[i].nic).Some? <==>
                ShowsOtherCount(spec.networkInterfaces, NicAt(w.nics, ids[i]))
      ensures !IsEfa(nics[i].nic) && IsOn(nics[i].nic) <==> ShowsCheckOn(NicAt(w.nics, ids[i]))
      ensures ids[i] in ids
    {
      UnmetMeans(spec.networkInterfaces, nics[i].nic);
    }
    if !InOrder(w, spec, id) {
      if n :| n in ids && ShowsOtherCount(spec.networkInterfaces, NicAt(w.nics, n)) {
        var i :| 0 <= i < |ids| && ids[i] == n;
        assert Unmet(spec.networkInterfaces, nics[i].nic).Some?;
      } else {
        var n :| n in ids && ShowsCheckOn(NicAt(w.nics, n));
        var i :| 0 <= i < |ids| && ids[i] == n;
        assert !IsEfa(nics[i].nic) && IsOn(nics[i].nic);
      }
    }
  }

  /**
   * For one found instance the status answers with its provider id and node name, without error exactly
   * when its interfaces are in order, and with Uninitialized otherwise.
   */
  lemma StatusExact(w: World, m: Machine, cls: MachineClass, orders: Orders, id: string)
    requires cls.provider == "AWS" && Decoded(cls).Ok? && ClientAvailable(w) && FindsOnly(w, m, orders, id)
    ensures id in w.vms
    ensures var status, spec := GetMachineStatus(w, m, cls, orders), cls.spec.value;
            && status.response == Some(MachineResponse("aws:///" + spec.region + "/" + id, w.vms[id].dns.GetOr("")))
            && status.error == if InOrder(w, spec, id) then None else Some(Uninitialized)
  {
    MatchMachineReads(w.Skip(1), m, Selected(orders.scan));
    assert MatchMachine(w.Skip(1), m, Selected(orders.scan)).result.value[0] == Now(w, id);
    NeedsInitializationIff(w, cls.spec.value, id);
  }

  /** The check of an EFA or EFA-only interface makes no difference to the status. */
  lemma StatusIgnoresEfaChecks(w: World, w': World, m: Machine, cls: MachineClass, orders: Orders, id: string,
                               n: string)
    requires cls.provider == "AWS" && Decoded(cls).Ok? && ClientAvailable(w)
    requires FindsOnly(w, m, orders, id) && FindsOnly(w', m, orders, id)
    requires DifferAtEfa(w, w', n)
    ensures GetMachineStatus(w', m, cls, orders).response == GetMachineStatus(w, m, cls, orders).response
    ensures GetMachineStatus(w', m, cls, orders).error == GetMachineStatus(w, m, cls, orders).error
  {
    StatusExact(w, m, cls, orders, id);
    StatusExact(w', m, cls, orders, id);
    EfaChecksDoNotMatter(w, w', cls.spec.value, id, n);
  }

  /** The worlds differ at most in the check of this EFA interface. */
  ghost predicate DifferAtEfa(w: World, w': World, n: string) {
    && n in w.nics && (w.nics[n].interfaceType == Some("efa") || w.nics[n].interfaceType == Some("efa-only"))
    && exists check :: w' == w.(nics := w.nics[n := w.nics[n].(sourceDestCheck := check)])
  }

  lemma EfaChecksDoNotMatter(w: World, w': World, spec: ProviderSpec, id: string, n: string)
    requires id in w.vms && DifferAtEfa(w, w', n)
    ensures id in w'.vms && w'.vms == w.vms && (InOrder(w', spec, id) <==> InOrder(w, spec, id))
  {
    forall x | x in w.vms[id].nicIDs
      ensures && ShowsOtherCount(spec.networkInterfaces, NicAt(w'.nics, x))
                   == ShowsOtherCount(spec.networkInterfaces, NicAt(w.nics, x))
              && ShowsCheckOn(NicAt(w'.nics, x)) == ShowsCheckOn(NicAt(w.nics, x))
    {
    }
  }
}

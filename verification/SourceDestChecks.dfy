/** Switching the source/destination checks off: what each attempt does, and what becomes of partial failures. */
module SourceDestChecks {
  import opened Wrappers
  import opened Ec2
  import opened DriverSpec
  import opened Deletion

  /** The interfaces the loop calls for: all but the EFA ones, in order. */
  function Attempts(nics: seq<NicView>): seq<string> {
    if nics == [] then []
    else if IsEfa(nics[0].nic) then Attempts(nics[1..])
    else [nics[0].id] + Attempts(nics[1..])
  }

  function DisableCalls(ids: seq<string>): seq<Call> {
    if ids == [] then [] else [DisableCheckCall(ids[0])] + DisableCalls(ids[1..])
  }

  predicate CanDisable(w: World, n: string) {
    n in w.nics && !IsEfa(w.nics[n])
  }

  /** The call reports success: EC2 carries it out and says so. */
  predicate Succeeds(w: World, script: seq<Outcome>, attempts: seq<string>, j: nat)
    requires j < |attempts|
  {
    CanDisable(w, attempts[j]) && (OutcomeAt(script, j).Accept? || OutcomeAt(script, j).Blank?)
  }

  predicate AllSucceed(w: World, script: seq<Outcome>, attempts: seq<string>) {
    forall j: nat :: j < |attempts| ==> Succeeds(w, script, attempts, j)
  }

  /** Some attempt on the interface is carried out, whatever is reported. */
  ghost predicate Hit(w: World, attempts: seq<string>, n: string) {
    CanDisable(w, n) && exists j: nat :: j < |attempts| && attempts[j] == n && !OutcomeAt(w.script, j).Refuse?
  }

  lemma CallsLater(log: seq<Call>, ids: seq<string>)
    requires ids != []
    ensures (log + [DisableCheckCall(ids[0])]) + DisableCalls(ids[1..]) == log + DisableCalls(ids)
  {
  }

  /** Every non-EFA interface is attempted, and no other, whatever the outcomes. */
  lemma {:induction false} EveryCheckIsAttempted(w: World, nics: seq<NicView>)
    ensures DisableAll(w, nics).w.log == w.log + DisableCalls(Attempts(nics))
    decreases |nics|
  {
    if nics != [] {
      if IsEfa(nics[0].nic) {
        EveryCheckIsAttempted(w, nics[1..]);
      } else {
        var r := DisableCheck(w, nics[0].id);
        EveryCheckIsAttempted(r.w, nics[1..]);
        var attempts := Attempts(nics);
        assert attempts[0] == nics[0].id && attempts[1..] == Attempts(nics[1..]);
        CallsLater(w.log, attempts);
        assert r.w.log == w.log + [DisableCheckCall(nics[0].id)];
      }
    }
  }

  lemma OneDisable(w: World, n: string)
    ensures var r := DisableCheck(w, n);
            && r.w.script == w.Skip(1).script
            && (r.result.Success? <==> CanDisable(w, n) && (w.Outcome().Accept? || w.Outcome().Blank?))
            && (forall x :: CanDisable(r.w, x) <==> CanDisable(w, x))
            && r.w.nics == if CanDisable(w, n) && !w.Outcome().Refuse?
                           then w.nics[n := w.nics[n].(sourceDestCheck := Some(false))] else w.nics
  {
  }

  /** The loop reports success exactly when every attempt succeeds. */
  lemma {:induction false} OkIffEveryAttemptSucceeds(w: World, nics: seq<NicView>)
    ensures DisableAll(w, nics).ok <==> AllSucceed(w, w.script, Attempts(nics))
    decreases |nics|
  {
    if nics != [] {
      if IsEfa(nics[0].nic) {
        OkIffEveryAttemptSucceeds(w, nics[1..]);
      } else {
        var r := DisableCheck(w, nics[0].id);
        OneDisable(w, nics[0].id);
        OkIffEveryAttemptSucceeds(r.w, nics[1..]);
        SucceedLater(w, r.w, nics[0].id, Attempts(nics[1..]));
      }
    }
  }

  lemma SucceedLater(w: World, w1: World, first: string, rest: seq<string>)
    requires w1.script == w.Skip(1).script && forall x :: CanDisable(w1, x) <==> CanDisable(w, x)
    ensures AllSucceed(w, w.script, [first] + rest) <==>
              CanDisable(w, first) && (w.Outcome().Accept? || w.Outcome().Blank?) && AllSucceed(w1, w1.script, rest)
  {
    var attempts := [first] + rest;
    forall j: nat | j < |rest| ensures Succeeds(w1, w1.script, rest, j) <==> Succeeds(w, w.script, attempts, j + 1) {
      assert OutcomeAt(w1.script, j) == OutcomeAt(w.script, j + 1);
    }
    assert Succeeds(w, w.script, attempts, 0) <==> CanDisable(w, first) && (w.Outcome().Accept? || w.Outcome().Blank?);
    forall j: nat | j < |attempts| && j > 0
      ensures Succeeds(w, w.script, attempts, j) <==> Succeeds(w1, w1.script, rest, j - 1)
    {
    }
  }

  /** Exactly the interfaces some attempt is carried out on end with the check off; the others are as before. */
  lemma {:induction false} ExactlyTheHitAreOff(w: World, nics: seq<NicView>, n: string)
    requires n in w.nics
    ensures var w' := DisableAll(w, nics).w;
            n in w'.nics && w'.nics[n] == if Hit(w, Attempts(nics), n)
              then w.nics[n].(sourceDestCheck := Some(false)) else w.nics[n]
    decreases |nics|
  {
    if nics != [] {
      if IsEfa(nics[0].nic) {
        ExactlyTheHitAreOff(w, nics[1..], n);
      } else {
        var r := DisableCheck(w, nics[0].id);
        OneDisable(w, nics[0].id);
        ExactlyTheHitAreOff(r.w, nics[1..], n);
        HitLater(w, r.w, nics[0].id, Attempts(nics[1..]), n);
      }
    }
  }

  lemma HitLater(w: World, w1: World, first: string, rest: seq<string>, n: string)
    requires w1.script == w.Skip(1).script && (CanDisable(w1, n) <==> CanDisable(w, n))
    ensures Hit(w, [first] + rest, n) <==> (CanDisable(w, n) && first == n && !w.Outcome().Refuse?) || Hit(w1, rest, n)
  {
    var attempts := [first] + rest;
    forall j: nat | j < |rest|
      ensures OutcomeAt(w1.script, j) == OutcomeAt(w.script, j + 1) && attempts[j + 1] == rest[j]
    {
    }
    if CanDisable(w, n) && first == n && !w.Outcome().Refuse? {
      assert attempts[0] == n && OutcomeAt(w.script, 0) == w.Outcome();
    }
    if Hit(w1, rest, n) {
      var j: nat :| j < |rest| && rest[j] == n && !OutcomeAt(w1.script, j).Refuse?;
      assert attempts[j + 1] == n && !OutcomeAt(w.script, j + 1).Refuse?;
    }
    if Hit(w, attempts, n) {
      var j: nat :| j < |attempts| && attempts[j] == n && !OutcomeAt(w.script, j).Refuse?;
      if j > 0 {
        assert rest[j - 1] == n && !OutcomeAt(w1.script, j - 1).Refuse?;
      }
    }
  }

  lemma {:induction false} AttemptsContents(nics: seq<NicView>)
    ensures forall n :: n in Attempts(nics) <==> exists i :: 0 <= i < |nics| && nics[i].id == n && !IsEfa(nics[i].nic)
  {
    if nics != [] {
      AttemptsContents(nics[1..]);
      assert forall i :: 0 < i < |nics| ==> nics[i] == nics[1..][i - 1];
      assert forall i :: 0 <= i < |nics| - 1 ==> nics[1..][i] == nics[i + 1];
    }
  }

  /** After success no non-EFA interface of the instance has the check on. */
  lemma SuccessLeavesNoneOn(w: World, nics: seq<NicView>, i: nat)
    requires i < |nics| && !IsEfa(nics[i].nic) && DisableAll(w, nics).ok
    ensures var w' := DisableAll(w, nics).w;
            nics[i].id in w'.nics && w'.nics[nics[i].id].sourceDestCheck == Some(false)
  {
    var attempts, n := Attempts(nics), nics[i].id;
    AttemptsContents(nics);
    OkIffEveryAttemptSucceeds(w, nics);
    assert n in attempts;
    var j: nat :| j < |attempts| && attempts[j] == n;
    assert Succeeds(w, w.script, attempts, j);
    assert Hit(w, attempts, n);
    ExactlyTheHitAreOff(w, nics, n);
  }

  /** EFA interfaces are never called for, and never change. */
  lemma {:induction false} EfaIsLeftAlone(w: World, nics: seq<NicView>, n: string)
    requires n in w.nics && (w.nics[n].interfaceType == Some("efa") || w.nics[n].interfaceType == Some("efa-only"))
    ensures n in DisableAll(w, nics).w.nics && DisableAll(w, nics).w.nics[n] == w.nics[n]
    ensures (forall i :: 0 <= i < |nics| && nics[i].id == n ==>
                     nics[i].nic.interfaceType == w.nics[n].interfaceType) ==>
              n !in Attempts(nics)
  {
    ExactlyTheHitAreOff(w, nics, n);
    AttemptsContents(nics);
  }

  // --- What mirroring adds ------------------------------------------------------------------------------------

  /** Only the instances' own flags may change, only to off, and only in a world that mirrors. */
  ghost predicate FlagsOnlyFall(w: World, w': World) {
    && w'.vms.Keys == w.vms.Keys && w'.mirror == w.mirror
    && (!w.mirror ==> w'.vms == w.vms)
    && forall id :: id in w.vms ==> w'.vms[id] == w.vms[id] || w'.vms[id] == w.vms[id].(sourceDestCheck := Some(false))
  }

  lemma {:induction false} DisableAllFlags(w: World, nics: seq<NicView>)
    ensures FlagsOnlyFall(w, DisableAll(w, nics).w)
    decreases |nics|
  {
    if nics != [] {
      if IsEfa(nics[0].nic) {
        DisableAllFlags(w, nics[1..]);
      } else {
        var r := DisableCheck(w, nics[0].id);
        assert FlagsOnlyFall(w, r.w);
        DisableAllFlags(r.w, nics[1..]);
      }
    }
  }

  /** Some attempt on a primary interface among these is carried out. */
  ghost predicate PrimaryHit(w: World, attempts: seq<string>, ids: seq<string>) {
    exists p :: p in ids && Hit(w, attempts, p) && IsPrimary(w.nics[p])
  }

  /** The attempt switches the flag of the instance with these interfaces off. */
  predicate FlagsAtOnce(w: World, first: string, ids: seq<string>) {
    first in ids && CanDisable(w, first) && !w.Outcome().Refuse? && IsPrimary(w.nics[first])
  }

  lemma PrimaryHitLater(w: World, first: string, rest: seq<string>, ids: seq<string>)
    ensures var w1 := DisableCheck(w, first).w;
            PrimaryHit(w, [first] + rest, ids) <==> FlagsAtOnce(w, first, ids) || PrimaryHit(w1, rest, ids)
  {
    var w1 := DisableCheck(w, first).w;
    OneDisable(w, first);
    forall p ensures p in w.nics ==> p in w1.nics && IsPrimary(w1.nics[p]) == IsPrimary(w.nics[p]) {
    }
    if p :| p in ids && Hit(w, [first] + rest, p) && IsPrimary(w.nics[p]) {
      HitLater(w, w1, first, rest, p);
    }
    if FlagsAtOnce(w, first, ids) {
      HitLater(w, w1, first, rest, first);
    }
    if p :| p in ids && Hit(w1, rest, p) && IsPrimary(w1.nics[p]) {
      HitLater(w, w1, first, rest, p);
    }
  }

  lemma OneFlag(w: World, first: string, id: string)
    requires id in w.vms
    ensures var w1 := DisableCheck(w, first).w;
            && id in w1.vms && w1.vms[id].nicIDs == w.vms[id].nicIDs && w1.mirror == w.mirror
            && (w1.vms[id].sourceDestCheck == Some(false) <==>
                  w.vms[id].sourceDestCheck == Some(false) || (w.mirror && FlagsAtOnce(w, first, w.vms[id].nicIDs)))
  {
  }

  /**
   * The instance's own flag ends off exactly when it was, or when it mirrors a primary interface an
   * attempt took effect on.
   */
  lemma {:induction false} FlagFallsIff(w: World, nics: seq<NicView>, id: string)
    requires id in w.vms
    ensures id in DisableAll(w, nics).w.vms
    ensures DisableAll(w, nics).w.vms[id].sourceDestCheck == Some(false) <==>
              w.vms[id].sourceDestCheck == Some(false) || (w.mirror && PrimaryHit(w, Attempts(nics), w.vms[id].nicIDs))
    decreases |nics|
  {
    if nics != [] {
      if IsEfa(nics[0].nic) {
        FlagFallsIff(w, nics[1..], id);
      } else {
        OneFlag(w, nics[0].id, id);
        PrimaryHitLater(w, nics[0].id, Attempts(nics[1..]), w.vms[id].nicIDs);
        FlagFallsIff(DisableCheck(w, nics[0].id).w, nics[1..], id);
      }
    }
  }
}

/**
 * The mock client's instance list (mockclient.go). A provider owns the list; a client holds a pointer
 * to it. Launching writes through the pointer, terminating points the client at a list of its own.
 */
module MockClients {
  import opened Wrappers
  import opened Tags
  import opened Ec2
  import Decimal
  import Text

  datatype MockInstance = MockInstance(id: string, dns: string, tags: seq<Tag>)

  class ListCell {
    var items: seq<MockInstance>

    constructor (items: seq<MockInstance>)
      ensures this.items == items
    {
      this.items := items;
    }
  }

  class MockProvider {
    const fakeInstances: ListCell

    constructor (items: seq<MockInstance>)
      ensures fresh(fakeInstances) && fakeInstances.items == items
    {
      fakeInstances := new ListCell(items);
    }
  }

  const FAIL_QUERY_AT_RUN_INSTANCES := "aws:///eu-west-1/i-fail-query-at-RunInstances"
  const INSTANCE_DOESNT_EXIST_ERROR := "i-instance-doesnt-exist"
  const SET_INSTANCE_ID := "set-instance-id"
  const INCONSISTENCY_IN_APIS := "apis-are-inconsistent"
  const INSUFFICIENT_CAPACITY := "insufficient-capacity"

  datatype Placement = Placement(affinity: string, availabilityZone: string, tenancy: string)

  function PlacementSuffix(p: Placement): string {
    "/placement={affinity:" + p.affinity + ",availabilityZone:" + p.availabilityZone + ",tenancy:" + p.tenancy + "}"
  }

  function GeneratedID(n: nat): string {
    "i-0123456789-" + Decimal.Print(n)
  }

  /** The list without the instances of one id. */
  function Without(items: seq<MockInstance>, id: string): seq<MockInstance> {
    if items == [] then []
    else
      var rest, last := Without(items[..|items| - 1], id), items[|items| - 1];
      if last.id == id then rest else rest + [last]
  }

  /** What the loop over the ids collects: for each id, everything but its instances. */
  function Remaining(items: seq<MockInstance>, ids: seq<string>): seq<MockInstance> {
    if ids == [] then [] else Remaining(items, ids[..|ids| - 1]) + Without(items, ids[|ids| - 1])
  }

  class MockClient {
    var fakeInstances: ListCell

    constructor (provider: MockProvider)
      ensures fakeInstances == provider.fakeInstances
    {
      fakeInstances := provider.fakeInstances;
    }

    /**
     * One image makes the call fail, with an error chosen by the key. Image names of another kind force the
     * id, again by the key; otherwise it is generated from the length of the list and the placement. The key
     * is dereferenced for these images only.
     */
    method RunInstances(imageID: string, keyName: Option<string>, tags: seq<Tag>, placement: Option<Placement>)
        returns (r: ApiResult<MockInstance>)
      requires imageID == FAIL_QUERY_AT_RUN_INSTANCES || Text.Contains(imageID, SET_INSTANCE_ID) ==> keyName.Some?
      modifies fakeInstances
      ensures r.Failure? <==> imageID == FAIL_QUERY_AT_RUN_INSTANCES
      ensures r.Failure? ==>
                && fakeInstances.items == old(fakeInstances.items)
                && (r.error == Exhausted <==> keyName.value == INSUFFICIENT_CAPACITY)
                && (r.error == OtherError <==> keyName.value != INSUFFICIENT_CAPACITY)
      ensures r.Success? ==>
                && fakeInstances.items == old(fakeInstances.items) + [r.value]
                && r.value.dns == "ip-" + Decimal.Print(|old(fakeInstances.items)|) && r.value.tags == tags
      ensures r.Success? && Text.Contains(imageID, SET_INSTANCE_ID) ==>
                r.value.id == if keyName.value == INCONSISTENCY_IN_APIS then INSTANCE_DOESNT_EXIST_ERROR
                              else keyName.value
      ensures r.Success? && !Text.Contains(imageID, SET_INSTANCE_ID) ==>
                var generated := "i-0123456789-" + Decimal.Print(|old(fakeInstances.items)|);
                r.value.id == if placement.Some? then generated + PlacementSuffix(placement.value) else generated
    {
      if imageID == FAIL_QUERY_AT_RUN_INSTANCES {
        return Failure(if keyName.value == INSUFFICIENT_CAPACITY then Exhausted else OtherError);
      }
      var instanceID := GeneratedID(|fakeInstances.items|);
      var privateDNSName := "ip-" + Decimal.Print(|fakeInstances.items|);
      if placement.Some? {
        instanceID := instanceID + PlacementSuffix(placement.value);
      }
      if Text.Contains(imageID, SET_INSTANCE_ID) {
        if keyName.value == INCONSISTENCY_IN_APIS {
          instanceID := INSTANCE_DOESNT_EXIST_ERROR;
        } else {
          instanceID := keyName.value;
        }
      }
      var newInstance := MockInstance(instanceID, privateDNSName, tags);
      fakeInstances.items := fakeInstances.items + [newInstance];
      r := Success(newInstance);
    }

    /** Answers whether any of the ids was found; the list pointed to before is not written to. */
    method TerminateInstances(ids: seq<string>) returns (found: bool)
      modifies `fakeInstances
      ensures fresh(fakeInstances) && fakeInstances.items == Remaining(old(fakeInstances.items), ids)
      ensures found <==> exists x :: x in old(fakeInstances.items) && x.id in ids
    {
      found := false;
      var items := fakeInstances.items;
      var newInstanceList: seq<MockInstance> := [];
      for i := 0 to |ids|
        invariant newInstanceList == Remaining(items, ids[..i])
        invariant found <==> exists x :: x in items && x.id in ids[..i]
      {
        assert ids[..i + 1][..i] == ids[..i];
        var foundHere, kept := CopyWithout(items, ids[i]);
        found, newInstanceList := found || foundHere, newInstanceList + kept;
        assert forall id :: id in ids[..i + 1] <==> id in ids[..i] || id == ids[i];
      }
      assert ids[..|ids|] == ids;
      fakeInstances := new ListCell(newInstanceList);
    }
  }

  /** The inner loop of TerminateInstances: copies all instances but those with the id. */
  method CopyWithout(items: seq<MockInstance>, id: string) returns (found: bool, kept: seq<MockInstance>)
    ensures kept == Without(items, id)
    ensures found <==> exists x :: x in items && x.id == id
  {
    found, kept := false, [];
    for j := 0 to |items|
      invariant kept == Without(items[..j], id)
      invariant found <==> exists x :: x in items[..j] && x.id == id
    {
      assert items[..j + 1][..j] == items[..j];
      assert forall x :: x in items[..j + 1] <==> x in items[..j] || x == items[j];
      if items[j].id == id {
        found := true;
      } else {
        kept := kept + [items[j]];
      }
    }
    assert items[..|items|] == items;
  }

  /** A termination never reaches the provider's list, nor does anything the client launches after it. */
  method TerminationStaysLocal(provider: MockProvider, ids: seq<string>, tags: seq<Tag>) returns (client: MockClient)
    ensures provider.fakeInstances.items == old(provider.fakeInstances.items)
    ensures var left := Remaining(old(provider.fakeInstances.items), ids);
            && |client.fakeInstances.items| == |left| + 1 && client.fakeInstances.items[..|left|] == left
            && client.fakeInstances.items[|left|].id == GeneratedID(|left|)
  {
    client := new MockClient(provider);
    var _ := client.TerminateInstances(ids);
    PlainImage();
    var _ := client.RunInstances(PLAIN_IMAGE, None, tags, None);
  }

  const PLAIN_IMAGE := "ami"

  lemma PlainImage()
    ensures PLAIN_IMAGE != FAIL_QUERY_AT_RUN_INSTANCES && !Text.Contains(PLAIN_IMAGE, SET_INSTANCE_ID)
  {
    Text.TooShort(PLAIN_IMAGE, SET_INSTANCE_ID);
    assert |PLAIN_IMAGE| < |FAIL_QUERY_AT_RUN_INSTANCES|;
  }

  lemma {:induction false} WithoutMembers(items: seq<MockInstance>, id: string)
    ensures forall x :: x in Without(items, id) <==> x in items && x.id != id
  {
    if items != [] {
      WithoutMembers(items[..|items| - 1], id);
      assert items == items[..|items| - 1] + [items[|items| - 1]];
    }
  }

  lemma {:induction false} RemainingMembers(items: seq<MockInstance>, ids: seq<string>)
    ensures forall x :: x in Remaining(items, ids) <==> x in items && exists id :: id in ids && id != x.id
  {
    if ids != [] {
      var front, last := ids[..|ids| - 1], ids[|ids| - 1];
      RemainingMembers(items, front);
      WithoutMembers(items, last);
      forall x ensures x in Remaining(items, ids) <==> x in items && exists id :: id in ids && id != x.id {
        assert ids == front + [last];
        assert x in Remaining(items, ids) <==> x in Remaining(items, front) || x in Without(items, last);
        assert forall id :: id in ids <==> id in front || id == last;
        if x in items && last != x.id {
          assert last in ids && last != x.id;
        }
      }
    }
  }

  /**
   * The loop removes what it was asked to exactly when every known instance it names is the only one
   * named: with two different ids each brings the other's instances back.
   */
  lemma RemovesNamedIff(items: seq<MockInstance>, ids: seq<string>)
    ensures (forall x :: x in Remaining(items, ids) ==> x.id !in ids)
       <==> forall x, id :: x in items && x.id in ids && id in ids ==> id == x.id
  {
    RemainingMembers(items, ids);
  }

  /** Two known ids: both instances are still there afterwards. */
  lemma BothComeBack(a: MockInstance, b: MockInstance)
    requires a.id != b.id
    ensures Remaining([a, b], [a.id, b.id]) == [b, a]
  {
    WithoutOneOfTwo(a, b, a.id);
    WithoutOneOfTwo(a, b, b.id);
    RemainingTwo([a, b], a.id, b.id);
  }

  lemma WithoutOneOfTwo(a: MockInstance, b: MockInstance, id: string)
    ensures Without([a, b], id) == (if a.id == id then [] else [a]) + (if b.id == id then [] else [b])
  {
    assert [a, b][..1] == [a] && [a][..0] == [];
    assert Without([a], id) == if a.id == id then [] else [a];
  }

  lemma RemainingTwo(items: seq<MockInstance>, x: string, y: string)
    ensures Remaining(items, [x, y]) == Without(items, x) + Without(items, y)
  {
    assert [x, y][..1] == [x] && [x][..0] == [];
    assert Remaining(items, [x]) == Without(items, x);
  }

  /** The ids of the list are the ones generated for its positions. */
  predicate AllGenerated(items: seq<MockInstance>) {
    forall i :: 0 <= i < |items| ==> items[i].id == GeneratedID(i)
  }

  lemma GeneratedIDsDiffer(m: nat, n: nat)
    requires GeneratedID(m) == GeneratedID(n)
    ensures m == n
  {
    var k := |"i-0123456789-"|;
    assert GeneratedID(m)[k..] == Decimal.Print(m) && GeneratedID(n)[k..] == Decimal.Print(n);
    Decimal.PrintInjective(m, n);
  }

  lemma {:induction false} WithoutOneGenerated(items: seq<MockInstance>, k: nat)
    requires AllGenerated(items)
    ensures |Without(items, GeneratedID(k))| == if k < |items| then |items| - 1 else |items|
  {
    if items != [] {
      var n := |items| - 1;
      WithoutOneGenerated(items[..n], k);
      if items[n].id == GeneratedID(k) {
        GeneratedIDsDiffer(n, k);
      }
    }
  }

  /** After one termination the next generated id collides exactly when it was not the last instance that went. */
  lemma NextIDCollidesIff(items: seq<MockInstance>, k: nat)
    requires AllGenerated(items) && k < |items|
    ensures var left := Without(items, GeneratedID(k));
            (exists x :: x in left && x.id == GeneratedID(|left|)) <==> k < |items| - 1
  {
    var left := Without(items, GeneratedID(k));
    WithoutOneGenerated(items, k);
    WithoutMembers(items, GeneratedID(k));
    var last := items[|items| - 1];
    assert last in items && last.id == GeneratedID(|left|);
    if k < |items| - 1 && last.id == GeneratedID(k) {
      GeneratedIDsDiffer(|items| - 1, k);
    }
  }

  /** Of two generated instances the first goes: the next id is the second's. */
  lemma NextIDCollides()
    ensures var a, b := MockInstance(GeneratedID(0), "ip-0", []), MockInstance(GeneratedID(1), "ip-1", []);
            Without([a, b], a.id) == [b] && b.id == GeneratedID(|Without([a, b], a.id)|)
  {
    var a, b := MockInstance(GeneratedID(0), "ip-0", []), MockInstance(GeneratedID(1), "ip-1", []);
    if GeneratedID(0) == GeneratedID(1) {
      GeneratedIDsDiffer(0, 1);
    }
    WithoutOneOfTwo(a, b, a.id);
  }
}

/**
 * Tags: validation of the class's tags, generation of the launch tags, and the scans that pick the
 * cluster and role keys for a lookup (validation.go, core_util.go, core.go).
 * Go ranges over a map in an arbitrary order; `order` is the order the runtime picks.
 */
module Tags {
  import opened Wrappers
  import Text

  const CLUSTER_PREFIX := "kubernetes.io/cluster/"
  const ROLE_PREFIX := "kubernetes.io/role/"
  const NAME := "Name"

  datatype Tag = Tag(key: string, value: string)
  datatype TagSpecification = TagSpecification(resourceType: string, tags: seq<Tag>)
  datatype TagError = ClusterTagRequired | RoleTagRequired

  /** The keys a lookup filters on; "" where the scan found none. */
  datatype Selection = Selection(cluster: string, role: string)

  ghost predicate IsOrder(order: seq<string>, tags: map<string, string>) {
    NoDuplicates(order) && forall k :: k in order <==> k in tags
  }

  predicate IsClusterKey(key: string) {
    Text.Contains(key, CLUSTER_PREFIX)
  }

  /** A key that contains both prefixes counts as cluster key. */
  predicate IsRoleKey(key: string) {
    !IsClusterKey(key) && Text.Contains(key, ROLE_PREFIX)
  }

  ghost predicate HasClusterAndRole(tags: map<string, string>) {
    (exists k :: k in tags && IsClusterKey(k)) && (exists k :: k in tags && IsRoleKey(k))
  }

  /** What a scan may select: some key of each class, and "" only for a class without keys. */
  ghost predicate MaySelect(tags: map<string, string>, s: Selection) {
    && (if exists k :: k in tags && IsClusterKey(k)
        then s.cluster in tags && IsClusterKey(s.cluster) else s.cluster == "")
    && (if exists k :: k in tags && IsRoleKey(k) then s.role in tags && IsRoleKey(s.role) else s.role == "")
  }

  /** The last key of each class in iteration order. */
  function Selected(order: seq<string>): Selection {
    if order == [] then Selection("", "")
    else
      var before, key := Selected(order[..|order| - 1]), order[|order| - 1];
      if IsClusterKey(key) then before.(cluster := key)
      else if IsRoleKey(key) then before.(role := key)
      else before
  }

  /** The scan that validation, the machine lookup and ListMachines each carry out. */
  method ScanTags(order: seq<string>) returns (s: Selection)
    ensures s == Selected(order)
  {
    var clusterName, nodeRole := "", "";
    for i := 0 to |order|
      invariant Selection(clusterName, nodeRole) == Selected(order[..i])
    {
      assert order[..i + 1][..i] == order[..i];
      var key := order[i];
      if Text.Contains(key, CLUSTER_PREFIX) {
        clusterName := key;
      } else if Text.Contains(key, ROLE_PREFIX) {
        nodeRole := key;
      }
    }
    assert order[..|order|] == order;
    s := Selection(clusterName, nodeRole);
  }

  method ValidateSpecTags(tags: map<string, string>, order: seq<string>) returns (errs: seq<TagError>)
    requires IsOrder(order, tags)
    ensures errs == [] <==> HasClusterAndRole(tags)
    ensures ClusterTagRequired in errs <==> !exists k :: k in tags && IsClusterKey(k)
    ensures RoleTagRequired in errs <==> !exists k :: k in tags && IsRoleKey(k)
  {
    errs := [];
    var s := ScanTags(order);
    SelectionIsPossible(order, tags);
    if s.cluster == "" {
      errs := errs + [ClusterTagRequired];
    }
    if s.role == "" {
      errs := errs + [RoleTagRequired];
    }
  }

  /** A tag list holds every entry of the map but Name, in iteration order, and the machine name last. */
  function LaunchTags(tags: map<string, string>, order: seq<string>, machineName: string): seq<Tag>
    requires forall k :: k in order ==> k in tags
  {
    CopiedTags(tags, order) + [Tag(NAME, machineName)]
  }

  function CopiedTags(tags: map<string, string>, order: seq<string>): seq<Tag>
    requires forall k :: k in order ==> k in tags
  {
    if order == [] then []
    else
      var copied, key := CopiedTags(tags, order[..|order| - 1]), order[|order| - 1];
      if key == NAME then copied else copied + [Tag(key, tags[key])]
  }

  method GenerateTags(tags: map<string, string>, order: seq<string>, resourceType: string, machineName: string)
      returns (spec: TagSpecification)
    requires forall k :: k in order ==> k in tags
    ensures spec == TagSpecification(resourceType, LaunchTags(tags, order, machineName))
  {
    var tagList := [];
    for i := 0 to |order|
      invariant tagList == CopiedTags(tags, order[..i])
    {
      assert order[..i + 1][..i] == order[..i];
      if order[i] == NAME {
        continue;
      }
      tagList := tagList + [Tag(order[i], tags[order[i]])];
    }
    assert order[..|order|] == order;
    tagList := tagList + [Tag(NAME, machineName)];
    spec := TagSpecification(resourceType, tagList);
  }

  // --- The scans ------------------------------------------------------------------------------

  lemma {:induction false} SelectedIn(order: seq<string>)
    ensures var s := Selected(order);
            && (s.cluster == "" || (s.cluster in order && IsClusterKey(s.cluster)))
            && (s.role == "" || (s.role in order && IsRoleKey(s.role)))
            && (forall k :: k in order && IsClusterKey(k) ==> s.cluster != "")
            && (forall k :: k in order && IsRoleKey(k) ==> s.role != "")
  {
    if order != [] {
      SelectedIn(order[..|order| - 1]);
      assert order == order[..|order| - 1] + [order[|order| - 1]];
      assert !IsClusterKey("") && !IsRoleKey("");
    }
  }

  /** This is the last key in iteration order that satisfies the predicate, or there is none and it is empty. */
  ghost predicate IsLast(order: seq<string>, key: string, p: string -> bool) {
    if exists k :: k in order && p(k)
    then exists i :: 0 <= i < |order| && order[i] == key && p(key) && forall j :: i < j < |order| ==> !p(order[j])
    else key == ""
  }

  lemma LastOfMore(front: seq<string>, last: string, key: string, p: string -> bool)
    requires IsLast(front, key, p)
    ensures IsLast(front + [last], if p(last) then last else key, p)
  {
    var order := front + [last];
    assert forall k :: k in order <==> k in front || k == last;
    if p(last) {
      assert order[|front|] == last;
    } else if exists k :: k in front && p(k) {
      var i :| 0 <= i < |front| && front[i] == key && p(key) && forall j :: i < j < |front| ==> !p(front[j]);
      assert order[i] == key;
      forall j | i < j < |order| ensures !p(order[j]) {
        assert j < |front| ==> order[j] == front[j];
      }
    }
  }

  /** The scan selects the last cluster key and the last role key it meets. */
  lemma {:induction false} SelectedIsLast(order: seq<string>)
    ensures IsLast(order, Selected(order).cluster, IsClusterKey) && IsLast(order, Selected(order).role, IsRoleKey)
  {
    if order != [] {
      var front, last := order[..|order| - 1], order[|order| - 1];
      SelectedIsLast(front);
      LastOfMore(front, last, Selected(front).cluster, IsClusterKey);
      LastOfMore(front, last, Selected(front).role, IsRoleKey);
      assert order == front + [last];
    }
  }

  /** Under every iteration order the scan selects a key of each class that has one. */
  lemma SelectionIsPossible(order: seq<string>, tags: map<string, string>)
    requires IsOrder(order, tags)
    ensures MaySelect(tags, Selected(order))
    ensures HasClusterAndRole(tags) <==> Selected(order).cluster != "" && Selected(order).role != ""
  {
    SelectedIn(order);
    assert !IsClusterKey("") && !IsRoleKey("");
    var s := Selected(order);
    assert s.cluster != "" ==> s.cluster in tags;
    assert s.role != "" ==> s.role in tags;
  }

  /** Selection does not depend on the order exactly when no class of keys has two members. */
  lemma SelectionDeterministicIff(tags: map<string, string>)
    ensures (forall o1, o2 :: IsOrder(o1, tags) && IsOrder(o2, tags) ==> Selected(o1) == Selected(o2))
       <==> && (forall k, l :: k in tags && l in tags && IsClusterKey(k) && IsClusterKey(l) ==> k == l)
            && (forall k, l :: k in tags && l in tags && IsRoleKey(k) && IsRoleKey(l) ==> k == l)
  {
    if && (forall k, l :: k in tags && l in tags && IsClusterKey(k) && IsClusterKey(l) ==> k == l)
       && (forall k, l :: k in tags && l in tags && IsRoleKey(k) && IsRoleKey(l) ==> k == l)
    {
      forall o1, o2 | IsOrder(o1, tags) && IsOrder(o2, tags) ensures Selected(o1) == Selected(o2) {
        SelectionIsPossible(o1, tags);
        SelectionIsPossible(o2, tags);
      }
    }
    forall k, l | k in tags && l in tags && IsClusterKey(k) && IsClusterKey(l) && k != l
      ensures exists o1, o2 :: IsOrder(o1, tags) && IsOrder(o2, tags) && Selected(o1) != Selected(o2)
    {
      var o1 := OrderEndingIn(tags, k);
      var o2 := OrderEndingIn(tags, l);
      assert Selected(o1).cluster == k && Selected(o2).cluster == l;
    }
    forall k, l | k in tags && l in tags && IsRoleKey(k) && IsRoleKey(l) && k != l
      ensures exists o1, o2 :: IsOrder(o1, tags) && IsOrder(o2, tags) && Selected(o1) != Selected(o2)
    {
      var o1 := OrderEndingIn(tags, k);
      var o2 := OrderEndingIn(tags, l);
      assert Selected(o1).role == k && Selected(o2).role == l;
    }
  }

  lemma OrderEndingIn(tags: map<string, string>, last: string) returns (order: seq<string>)
    requires last in tags
    ensures IsOrder(order, tags) && |order| > 0 && order[|order| - 1] == last
  {
    var front := Enumerate(tags.Keys - {last});
    order := front + [last];
    assert forall k :: k in order <==> k in front || k == last;
  }

  lemma {:induction false} Enumerate(keys: set<string>) returns (order: seq<string>)
    ensures NoDuplicates(order) && forall k :: k in order <==> k in keys
    decreases keys
  {
    if keys == {} {
      order := [];
    } else {
      var k :| k in keys;
      var rest := Enumerate(keys - {k});
      order := rest + [k];
    }
  }

  // --- Tags written are tags found --------------------------------------------------------------

  lemma {:induction false} CopiedTagsContents(tags: map<string, string>, order: seq<string>)
    requires NoDuplicates(order) && forall k :: k in order ==> k in tags
    ensures forall t :: t in CopiedTags(tags, order) <==> t.key in order && t.key != NAME && t.value == tags[t.key]
    ensures forall i, j :: 0 <= i < j < |CopiedTags(tags, order)| ==>
              CopiedTags(tags, order)[i].key != CopiedTags(tags, order)[j].key
  {
    if order != [] {
      var front, key := order[..|order| - 1], order[|order| - 1];
      CopiedTagsContents(tags, front);
      assert order == front + [key];
      assert key !in front;
      var copied := CopiedTags(tags, front);
      forall i | 0 <= i < |copied| ensures copied[i].key != key {
        assert copied[i] in copied;
      }
    }
  }

  /** Tag keys on one resource are unique. */
  ghost predicate UniqueKeys(list: seq<Tag>) {
    forall i, j :: 0 <= i < j < |list| ==> list[i].key != list[j].key
  }

  /** The launch tags are the class's entries with Name replaced by the machine name, each once. */
  lemma LaunchTagsContents(tags: map<string, string>, order: seq<string>, machineName: string)
    requires IsOrder(order, tags)
    ensures UniqueKeys(LaunchTags(tags, order, machineName))
    ensures forall t :: t in LaunchTags(tags, order, machineName) <==>
              t == Tag(NAME, machineName) || (t.key in tags && t.key != NAME && t.value == tags[t.key])
  {
    CopiedTagsContents(tags, order);
    var copied := CopiedTags(tags, order);
    forall i | 0 <= i < |copied| ensures copied[i].key != NAME {
      assert copied[i] in copied;
    }
  }

  ghost predicate HasKey(list: seq<Tag>, key: string) {
    exists i :: 0 <= i < |list| && list[i].key == key
  }

  /** Whatever the orders at launch and at lookup, the keys a lookup selects are on the instance. */
  lemma SelectedKeysAreWritten(tags: map<string, string>, launchOrder: seq<string>, scanOrder: seq<string>,
                               machineName: string)
    requires IsOrder(launchOrder, tags) && IsOrder(scanOrder, tags) && HasClusterAndRole(tags)
    ensures HasKey(LaunchTags(tags, launchOrder, machineName), Selected(scanOrder).cluster)
    ensures HasKey(LaunchTags(tags, launchOrder, machineName), Selected(scanOrder).role)
  {
    LaunchTagsContents(tags, launchOrder, machineName);
    SelectionIsPossible(scanOrder, tags);
    assert !IsClusterKey(NAME) && !IsRoleKey(NAME) by {
      NameIsNoPrefixKey();
    }
    var s := Selected(scanOrder);
    var list := LaunchTags(tags, launchOrder, machineName);
    assert Tag(s.cluster, tags[s.cluster]) in list;
    assert Tag(s.role, tags[s.role]) in list;
  }

  lemma NameIsNoPrefixKey()
    ensures !IsClusterKey(NAME) && !IsRoleKey(NAME)
  {
  }

  /** The name ListMachines reads off a tag list: the value of the first Name tag. */
  function NameOf(list: seq<Tag>): string {
    if list == [] then ""
    else if list[0].key == NAME then list[0].value
    else NameOf(list[1..])
  }

  lemma {:induction false} NameOfTagged(list: seq<Tag>, name: string)
    requires UniqueKeys(list) && Tag(NAME, name) in list
    ensures NameOf(list) == name
  {
    if list[0].key != NAME {
      NameOfTagged(list[1..], name);
    } else {
      var i :| 0 <= i < |list| && list[i] == Tag(NAME, name);
      assert i == 0;
    }
  }
}

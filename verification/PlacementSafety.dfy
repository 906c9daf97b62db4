/** What an allowed patch does to managed placement groups of a running cluster. */
module PlacementSafety {
  import opened Values
  import opened Schema
  import opened ConfigDiff
  import opened DiffShape
  import opened PathText
  import opened Routes
  import opened ResizeSafety
  import opened MarkedDiff
  import opened Sharing
  import opened UpdatePolicy
  import PolicyConditions

  /** The networking part of the queue schema: `Networking` of a queue and of a compute resource, and the placement
      group both may hold. */
  datatype Groups = Groups(queues: Queues, queueNetworking: Schema, networkingPolicy: Policy, resourceNetworking: Schema,
                           group: Schema)

  const ENABLED := Field("Enabled", Param, ManagedPlacementGroup)
  const GROUP_NAME := Field("Name", Param, ManagedPlacementGroup)
  const GROUP_ID := Field("Id", Param, ManagedPlacementGroup)

  function QueueNetworkingField(g: Groups): Field { Field("Networking", Nested(g.queueNetworking), g.networkingPolicy) }

  function ResourceNetworkingField(g: Groups): Field {
    Field("Networking", Nested(g.resourceNetworking), ManagedPlacementGroup)
  }

  function GroupField(g: Groups): Field { Field("PlacementGroup", Nested(g.group), ManagedPlacementGroup) }

  /** The placement group fields carry the placement group policy on both levels. */
  ghost predicate GroupSchema(g: Groups) {
    && QueueSchema(g.queues)
    && NoScript(g.queueNetworking) && NoScript(g.resourceNetworking) && NoScript(g.group)
    && QueueNetworkingField(g) in g.queues.queue.fields
    && ResourceNetworkingField(g) in g.queues.resource.fields
    && GroupField(g) in g.queueNetworking.fields && GroupField(g) in g.resourceNetworking.fields
    && ENABLED in g.group.fields && GROUP_NAME in g.group.fields && GROUP_ID in g.group.fields
  }

  function Networking(it: Item): Node { Entry(Sec(it.body), "Networking") }

  function Group(it: Item): Node { Entry(Networking(it), "PlacementGroup") }

  /** The placement group that applies to a compute resource: its own, or its queue's. */
  function Applied(queue: Item, resource: Item): Node {
    if Truthy(Group(resource)) then Group(resource) else Group(queue)
  }

  /** The cluster manages the placement group: it is enabled and names no existing group. */
  predicate Managed(group: Node) {
    Truthy(Entry(group, "Enabled")) && !Truthy(Entry(group, "Name")) && !Truthy(Entry(group, "Id"))
  }

  // ------------------------------------------------------------ what a checked change finds in the configurations

  /** The path of a change inside the networking of a queue, or of a compute resource of it. */
  ghost predicate InQueueNetworking(path: Path, queue: string) {
    && |path| >= 2 && Plain(path[0]) && path[1] == Segment("SlurmQueues", Leaf(Str(queue)))
    && forall i :: 2 <= i < |path| ==> Plain(path[i])
  }

  ghost predicate InResource(path: Path, queue: string, resource: string) {
    && |path| >= 3 && Plain(path[0]) && path[1] == Segment("SlurmQueues", Leaf(Str(queue)))
    && path[2] == Segment("ComputeResources", Leaf(Str(resource)))
    && forall i :: 3 <= i < |path| ==> Plain(path[i])
  }

  /** The last segment with the pattern is the one taken apart. */
  lemma {:induction false} LastNamedIs(pattern: string, path: Path, n: nat)
    requires n < |path| && Search(pattern, path[n]) && ExtractTypeAndName(path[n]).Some?
    requires forall i :: n < i < |path| ==> !Search(pattern, path[i])
    requires forall i :: 0 <= i < n && Search(pattern, path[i]) ==> ExtractTypeAndName(path[i]).Some?
    ensures LastNamed(pattern, path) == Some(ExtractTypeAndName(path[n]))
    decreases |path|
  {
    hide Search, ExtractTypeAndName;
    if n < |path| - 1 {
      LastNamedIs(pattern, path[..|path| - 1], n);
    } else {
      LastNamedReturns(pattern, path[..n]);
    }
  }

  lemma {:induction false} LastNamedReturns(pattern: string, path: Path)
    requires forall i :: 0 <= i < |path| && Search(pattern, path[i]) ==> ExtractTypeAndName(path[i]).Some?
    ensures LastNamed(pattern, path).Some?
    ensures (forall i :: 0 <= i < |path| ==> !Search(pattern, path[i])) ==> LastNamed(pattern, path) == Some(None)
    decreases |path|
  {
    hide Search, ExtractTypeAndName;
    if path != [] {
      LastNamedReturns(pattern, path[..|path| - 1]);
    }
  }

  const QUEUES := "Queues["
  const RESOURCES := "ComputeResources["

  lemma PlainSegment(s: string)
    requires Plain(s)
    ensures !Search(QUEUES, s) && !Search(RESOURCES, s)
  {
    NotInPlain("Queues", s);
    NotInPlain("ComputeResources", s);
    assert QUEUES == "Queues" + "[" && RESOURCES == "ComputeResources" + "[";
  }

  lemma QueueSegment(queue: string)
    requires queue != "" && Plain(queue)
    ensures var s := Segment("SlurmQueues", Leaf(Str(queue)));
            && Search(QUEUES, s) && !Search(RESOURCES, s)
            && ExtractTypeAndName(s) == Some(("SlurmQueues", queue))
  {
    hide Search, ExtractTypeAndName, Segment;
    var key, s := "SlurmQueues", Segment("SlurmQueues", Leaf(Str(queue)));
    assert Search(QUEUES, s) by {
      FoundInSegment("Queues", key, queue);
      assert key[5..] == "Queues" && QUEUES == "Queues" + "[";
    }
    assert !Search(RESOURCES, s) by {
      FoundInSegment("ComputeResources", key, queue);
      assert RESOURCES == "ComputeResources" + "[";
    }
    ExtractRoundTrip(key, queue);
  }

  lemma ResourceSegment(resource: string)
    requires resource != "" && Plain(resource)
    ensures var s := Segment("ComputeResources", Leaf(Str(resource)));
            && !Search(QUEUES, s) && Search(RESOURCES, s)
            && ExtractTypeAndName(s) == Some(("ComputeResources", resource))
  {
    hide Search, ExtractTypeAndName, Segment;
    var key, s := "ComputeResources", Segment("ComputeResources", Leaf(Str(resource)));
    assert !Search(QUEUES, s) by {
      FoundInSegment("Queues", key, resource);
      assert key[10..][0] != "Queues"[0];
      assert QUEUES == "Queues" + "[";
    }
    assert Search(RESOURCES, s) by {
      FoundInSegment(key, key, resource);
      assert key[0..] == key && RESOURCES == key + "[";
    }
    ExtractRoundTrip(key, resource);
  }

  /** A pattern found in one segment only. */
  lemma OnlyNamed(pattern: string, path: Path, n: nat, found: (string, string))
    requires n < |path| && Search(pattern, path[n]) && ExtractTypeAndName(path[n]) == Some(found)
    requires forall i :: 0 <= i < |path| && i != n ==> !Search(pattern, path[i])
    ensures LastNamed(pattern, path) == Some(Some(found))
  {
    hide Search, ExtractTypeAndName, LastNamed;
    LastNamedIs(pattern, path, n);
  }

  lemma NotNamed(path: Path, i: nat)
    requires i < |path| && Plain(path[i])
    ensures !Search(QUEUES, path[i]) && !Search(RESOURCES, path[i])
  {
    PlainSegment(path[i]);
  }

  lemma NamesInQueuePath(path: Path, queue: string)
    requires InQueueNetworking(path, queue) && queue != "" && Plain(queue)
    ensures LastNamed(QUEUES, path) == Some(Some(("SlurmQueues", queue)))
    ensures LastNamed(RESOURCES, path) == Some(None)
  {
    QueueSegment(queue);
    hide Search, ExtractTypeAndName, Segment, LastNamed, QUEUES, RESOURCES, Plain;
    forall i | 0 <= i < |path| && i != 1
      ensures !Search(QUEUES, path[i]) && !Search(RESOURCES, path[i])
    {
      NotNamed(path, i);
    }
    OnlyNamed(QUEUES, path, 1, ("SlurmQueues", queue));
    LastNamedReturns(RESOURCES, path);
  }

  lemma NamesInResourcePath(path: Path, queue: string, resource: string)
    requires InResource(path, queue, resource) && queue != "" && Plain(queue) && resource != "" && Plain(resource)
    ensures LastNamed(QUEUES, path) == Some(Some(("SlurmQueues", queue)))
    ensures LastNamed(RESOURCES, path) == Some(Some(("ComputeResources", resource)))
  {
    QueueSegment(queue);
    ResourceSegment(resource);
    hide Search, ExtractTypeAndName, Segment, LastNamed, QUEUES, RESOURCES, Plain;
    forall i | 0 <= i < |path| && i != 1 && i != 2
      ensures !Search(QUEUES, path[i]) && !Search(RESOURCES, path[i])
    {
      NotNamed(path, i);
    }
    OnlyNamed(QUEUES, path, 1, ("SlurmQueues", queue));
    OnlyNamed(RESOURCES, path, 2, ("ComputeResources", resource));
  }

  /** Looking a queue up by its name finds it. */
  lemma {:induction false} FindNamed(items: seq<Item>, it: Item, name: string)
    requires it in items && UniqueItemNames(items, "Name") && Name(it) == Leaf(Str(name))
    ensures FirstNamed(items, name) == it.body
    decreases |items|
  {
    if items[0] != it {
      assert exists i :: 0 < i < |items| && items[i] == it;
      FindNamed(items[1..], it, name);
    }
  }

  ghost predicate NamedResource(queue: Item, resource: Item, name: string, path: Path) {
    && resource in ResourceList(queue) && UniqueItemNames(ResourceList(queue), "Name")
    && Name(resource) == Leaf(Str(name))
    && LastNamed(RESOURCES, path) == Some(Some(("ComputeResources", name)))
  }

  /** The queue and the compute resource a change's path leads to. */
  lemma LookUp(path: Path, config: Node, queue: Item, queueName: string)
    requires config.Sec? && Entry(config, "Scheduling").Sec? && queue in QueueList(config)
    requires UniqueItemNames(QueueList(config), "Name") && Name(queue) == Leaf(Str(queueName))
    requires LastNamed(QUEUES, path) == Some(Some(("SlurmQueues", queueName)))
    ensures QueueOf(path, config) == Some(queue.body)
    ensures LastNamed(RESOURCES, path) == Some(None) ==> ResourceOf(path, config) == Some(map[])
    ensures forall resource, name :: NamedResource(queue, resource, name, path) ==>
              ResourceOf(path, config) == Some(resource.body)
  {
    hide LastNamed;
    FindNamed(QueueList(config), queue, queueName);
    forall resource, name | NamedResource(queue, resource, name, path)
      ensures ResourceOf(path, config) == Some(resource.body)
    {
      FindNamed(ResourceList(queue), resource, name);
    }
  }

  /** What the helper computes is whether the applied group is managed, whenever it does not raise. */
  lemma IsManagedMeansManaged(queue: Item, resource: Item)
    ensures var found := IsManaged(Child(queue.body, "Networking"), Child(resource.body, "Networking"));
            found.Some? ==> found.value == Managed(Applied(queue, resource))
  {
  }

  /** For a change of the queue itself, the helper looks at the group of the queue. */
  lemma QueueGroupManaged(queue: Item)
    ensures var found := IsManaged(Child(queue.body, "Networking"), Sec(map[]));
            found.Some? ==> found.value == Managed(Group(queue))
  {
  }

  // ------------------------------------------------------------ what passing the check means

  /** An allowed patch of a cluster with running capacity. */
  ghost predicate Running(g: Groups, patch: Patch, fleet: Fleet, parsers: Parsers) {
    && GroupSchema(g)
    && QueueNames(patch.base) && QueueNames(patch.target)
    && patch.changes == Diff(g.queues.root, patch.base, patch.target, [])
    && fleet.capacity && Allowed(patch, fleet, parsers)
  }

  /** A queue or compute resource of the two configurations with the same, readable name. */
  ghost predicate SameName(bs: seq<Item>, ts: seq<Item>, b: Item, t: Item, name: string) {
    && b in bs && t in ts && Name(b) == Leaf(Str(name)) && Name(t) == Leaf(Str(name))
    && name != "" && Plain(name)
  }

  lemma GroupChangePasses(patch: Patch, fleet: Fleet, parsers: Parsers, c: Change)
    requires Allowed(patch, fleet, parsers) && fleet.capacity && c in patch.changes && c.policy == ManagedPlacementGroup
    ensures IsManagedDeletion(c, patch) == Some(false)
  {
    hide IsManagedDeletion, QueueUpdateStrategyCheck;
    EachPasses(patch.changes, patch, fleet, parsers, None, c);
  }

  /** No deletion was found, both lookups succeed: what was managed in the base is managed in the target. */
  lemma NoDeletion(c: Change, patch: Patch, bq: map<string, Node>, br: map<string, Node>, tq: map<string, Node>,
                   tr: map<string, Node>)
    requires IsManagedDeletion(c, patch) == Some(false)
    requires QueueOf(c.path, patch.base) == Some(bq) && ResourceOf(c.path, patch.base) == Some(br)
    requires QueueOf(c.path, patch.target) == Some(tq) && ResourceOf(c.path, patch.target) == Some(tr)
    ensures IsManaged(Child(bq, "Networking"), Child(br, "Networking")).Some?
    ensures IsManaged(Child(bq, "Networking"), Child(br, "Networking")) == Some(true) ==>
            IsManaged(Child(tq, "Networking"), Child(tr, "Networking")) == Some(true)
  {
    hide QueueOf, ResourceOf, IsManaged;
  }

  lemma ConfigReadable(config: Node, queue: Item)
    requires QueueNames(config) && queue in QueueList(config)
    ensures config.Sec? && Entry(config, "Scheduling").Sec?
    ensures UniqueItemNames(QueueList(config), "Name") && UniqueItemNames(ResourceList(queue), "Name")
  {
    var k :| 0 <= k < |QueueList(config)| && QueueList(config)[k] == queue;
  }

  lemma ResourceChangePasses(g: Groups, patch: Patch, fleet: Fleet, parsers: Parsers, bq: Item, tq: Item, br: Item,
                             tr: Item, queue: string, resource: string, c: Change)
    requires Running(g, patch, fleet, parsers)
    requires SameName(QueueList(patch.base), QueueList(patch.target), bq, tq, queue)
    requires SameName(ResourceList(bq), ResourceList(tq), br, tr, resource)
    requires c in patch.changes && c.policy == ManagedPlacementGroup && InResource(c.path, queue, resource)
    ensures Managed(Applied(bq, br)) ==> Managed(Applied(tq, tr))
  {
    hide Managed, Applied, IsManaged, QueueOf, ResourceOf, LastNamed, Diff, Allowed, IsManagedDeletion;
    GroupChangePasses(patch, fleet, parsers, c);
    NamesInResourcePath(c.path, queue, resource);
    ConfigReadable(patch.base, bq);
    ConfigReadable(patch.target, tq);
    LookUp(c.path, patch.base, bq, queue);
    LookUp(c.path, patch.target, tq, queue);
    assert NamedResource(bq, br, resource, c.path) && NamedResource(tq, tr, resource, c.path);
    NoDeletion(c, patch, bq.body, br.body, tq.body, tr.body);
    IsManagedMeansManaged(bq, br);
    IsManagedMeansManaged(tq, tr);
  }

  lemma QueueChangePasses(g: Groups, patch: Patch, fleet: Fleet, parsers: Parsers, bq: Item, tq: Item, queue: string,
                          c: Change)
    requires Running(g, patch, fleet, parsers)
    requires SameName(QueueList(patch.base), QueueList(patch.target), bq, tq, queue)
    requires c in patch.changes && c.policy == ManagedPlacementGroup && InQueueNetworking(c.path, queue)
    ensures Managed(Group(bq)) ==> Managed(Group(tq))
  {
    hide Managed, Group, IsManaged, QueueOf, ResourceOf, LastNamed, Diff, Allowed, IsManagedDeletion;
    GroupChangePasses(patch, fleet, parsers, c);
    NamesInQueuePath(c.path, queue);
    ConfigReadable(patch.base, bq);
    ConfigReadable(patch.target, tq);
    LookUp(c.path, patch.base, bq, queue);
    LookUp(c.path, patch.target, tq, queue);
    assert Child(map[], "Networking") == Sec(map[]);
    NoDeletion(c, patch, bq.body, map[], tq.body, map[]);
    QueueGroupManaged(bq);
    QueueGroupManaged(tq);
  }

  // ------------------------------------------------------------ exactly when a change of a group passes

  /** Networking and placement group are sections where they are there. */
  predicate GroupReadable(it: Item) {
    && ("Networking" in it.body ==> it.body["Networking"].Sec?)
    && (Truthy(Group(it)) ==> Group(it).Sec?)
  }

  /** A change with the placement group policy anywhere in a compute resource that both configurations have: it passes if
      and only if no compute node runs, or a queue update strategy is set and no managed group is given up. */
  lemma ResourceGroupPassesIff(patch: Patch, fleet: Fleet, parsers: Parsers, kept: Option<bool>, bq: Item, tq: Item,
                               br: Item, tr: Item, queue: string, resource: string, c: Change)
    requires QueueNames(patch.base) && QueueNames(patch.target)
    requires SameName(QueueList(patch.base), QueueList(patch.target), bq, tq, queue)
    requires SameName(ResourceList(bq), ResourceList(tq), br, tr, resource)
    requires GroupReadable(bq) && GroupReadable(tq) && GroupReadable(br) && GroupReadable(tr)
    requires c.policy == ManagedPlacementGroup && InResource(c.path, queue, resource)
    ensures Check(c, patch, fleet, parsers, kept).0 == Some(SUCCEEDED) <==>
            || !fleet.capacity
            || (PolicyConditions.SetsStrategy(patch.target)
                && (Managed(Applied(bq, br)) ==> Managed(Applied(tq, tr))))
  {
    NamesInResourcePath(c.path, queue, resource);
    ConfigReadable(patch.base, bq);
    ConfigReadable(patch.target, tq);
    hide LastNamed, QueueOf, ResourceOf, IsManaged, Check, Managed, GroupReadable;
    LookUp(c.path, patch.base, bq, queue);
    LookUp(c.path, patch.target, tq, queue);
    assert NamedResource(bq, br, resource, c.path) && NamedResource(tq, tr, resource, c.path);
    ManagedIffReadable(bq, br);
    ManagedIffReadable(tq, tr);
    InAQueue(c, queue);
    PolicyConditions.OutcomeIff(c, patch, fleet, parsers, kept);
    hide PolicyConditions.SetsStrategy, PolicyConditions.BelowQueue;
  }

  /** The same for a change in the networking of the queue itself, which is about the group of the queue. */
  lemma QueueGroupPassesIff(patch: Patch, fleet: Fleet, parsers: Parsers, kept: Option<bool>, bq: Item, tq: Item,
                            queue: string, c: Change)
    requires QueueNames(patch.base) && QueueNames(patch.target)
    requires SameName(QueueList(patch.base), QueueList(patch.target), bq, tq, queue)
    requires GroupReadable(bq) && GroupReadable(tq)
    requires c.policy == ManagedPlacementGroup && InQueueNetworking(c.path, queue)
    ensures Check(c, patch, fleet, parsers, kept).0 == Some(SUCCEEDED) <==>
            || !fleet.capacity
            || (PolicyConditions.SetsStrategy(patch.target) && (Managed(Group(bq)) ==> Managed(Group(tq))))
  {
    NamesInQueuePath(c.path, queue);
    ConfigReadable(patch.base, bq);
    ConfigReadable(patch.target, tq);
    hide LastNamed, QueueOf, ResourceOf, IsManaged, Check, Managed, GroupReadable;
    LookUp(c.path, patch.base, bq, queue);
    LookUp(c.path, patch.target, tq, queue);
    assert Child(map[], "Networking") == Sec(map[]);
    QueueManagedIffReadable(bq);
    QueueManagedIffReadable(tq);
    InAQueue(c, queue);
    PolicyConditions.OutcomeIff(c, patch, fleet, parsers, kept);
    hide PolicyConditions.SetsStrategy, PolicyConditions.BelowQueue;
  }

  lemma ManagedIffReadable(queue: Item, resource: Item)
    requires GroupReadable(queue) && GroupReadable(resource)
    ensures IsManaged(Child(queue.body, "Networking"), Child(resource.body, "Networking"))
            == Some(Managed(Applied(queue, resource)))
  {
  }

  lemma QueueManagedIffReadable(queue: Item)
    requires GroupReadable(queue)
    ensures IsManaged(Child(queue.body, "Networking"), Sec(map[])) == Some(Managed(Group(queue)))
  {
  }

  lemma InAQueue(c: Change, queue: string)
    requires |c.path| >= 2 && c.path[1] == Segment("SlurmQueues", Leaf(Str(queue)))
    ensures PolicyConditions.BelowQueue(c)
  {
    assert "SlurmQueues[" == "SlurmQueues" + "[";
    assert "SlurmQueues[" <= c.path[1];
  }

  // ------------------------------------------------------------ a difference in the groups is recorded

  /** The two groups are both absent, or both present and managed alike. */
  predicate Alike(b: Node, t: Node) {
    (Truthy(b) <==> Truthy(t)) && (Truthy(b) ==> Managed(b) == Managed(t))
  }

  /** If the groups of two networking sections differ in that, a change with the placement group policy says so. */
  lemma GroupDifferenceRecorded(g: Groups, s: Schema, b: Node, t: Node, path: Path) returns (c: Change)
    requires GroupSchema(g) && NoScript(s) && GroupField(g) in s.fields
    requires !Alike(Entry(b, "PlacementGroup"), Entry(t, "PlacementGroup"))
    ensures c in Diff(s, b, t, path) && c.policy == ManagedPlacementGroup
    ensures c.path == path || c.path == path + ["PlacementGroup"]
  {
    hide Diff;
    var bg, tg := Entry(b, "PlacementGroup"), Entry(t, "PlacementGroup");
    if Truthy(bg) != Truthy(tg) {
      c := Change(path, "PlacementGroup", OrDash(bg), OrDash(tg), ManagedPlacementGroup, false);
      assert c in DiffField(GroupField(g), b, t, path, path);
      FieldRecorded(s, GroupField(g), b, t, path, c);
    } else {
      var f := if Entry(bg, "Enabled") != Entry(tg, "Enabled") then ENABLED
               else if Entry(bg, "Name") != Entry(tg, "Name") then GROUP_NAME else GROUP_ID;
      c := Change(path + ["PlacementGroup"], f.key, Entry(bg, f.key), Entry(tg, f.key), ManagedPlacementGroup, false);
      assert Entry(bg, f.key) != Entry(tg, f.key);
      assert c in DiffField(f, bg, tg, path + ["PlacementGroup"], path + ["PlacementGroup"]);
      FieldRecorded(g.group, f, bg, tg, path + ["PlacementGroup"], c);
      SectionRecorded(s, GroupField(g), b, t, path, c);
    }
  }

  /** Items with the same name are compared with each other. */
  lemma Paired(bs: seq<Item>, ts: seq<Item>, b: Item, t: Item, name: string) returns (i: nat, k: nat)
    requires UniqueItemNames(bs, "Name") && SameName(bs, ts, b, t, name)
    ensures i < |ts| && k < |bs| && ts[i] == t && bs[k] == b && MatchOf(bs, "Name", ts[i]) == k
  {
    i :| 0 <= i < |ts| && ts[i] == t;
    k :| 0 <= k < |bs| && bs[k] == b;
    assert "Name" in b.body;
  }

  /** A change of a queue that both configurations have is a change of the patch. */
  lemma InQueue(g: Groups, patch: Patch, fleet: Fleet, parsers: Parsers, bq: Item, tq: Item, queue: string, c: Change)
    requires Running(g, patch, fleet, parsers)
    requires SameName(QueueList(patch.base), QueueList(patch.target), bq, tq, queue)
    requires c in Diff(g.queues.queue, Sec(bq.body), Sec(tq.body), QueuePath(tq))
    ensures c in patch.changes
  {
    hide Diff, Allowed;
    ConfigReadable(patch.base, bq);
    var i, k := Paired(QueueList(patch.base), QueueList(patch.target), bq, tq, queue);
    QueueRecorded(g.queues, patch.base, patch.target, i, k, c);
  }

  /** A change of a compute resource that both configurations have is a change of the patch. */
  lemma InComputeResource(g: Groups, patch: Patch, fleet: Fleet, parsers: Parsers, bq: Item, tq: Item, br: Item, tr: Item,
                          queue: string, resource: string, c: Change)
    requires Running(g, patch, fleet, parsers)
    requires SameName(QueueList(patch.base), QueueList(patch.target), bq, tq, queue)
    requires SameName(ResourceList(bq), ResourceList(tq), br, tr, resource)
    requires c in Diff(g.queues.resource, Sec(br.body), Sec(tr.body), ResourcePath(tq, tr))
    ensures c in patch.changes
  {
    hide Diff, Allowed;
    ConfigReadable(patch.base, bq);
    var i, k := Paired(ResourceList(bq), ResourceList(tq), br, tr, resource);
    ResourceRecorded(g.queues, bq, tq, i, k, QueuePath(tq), c);
    InQueue(g, patch, fleet, parsers, bq, tq, queue, c);
  }

  /** Either the groups of the compute resource itself settle the matter, or it has none on either side. */
  lemma ResourceOwn(g: Groups, patch: Patch, fleet: Fleet, parsers: Parsers, bq: Item, tq: Item, br: Item, tr: Item,
                    queue: string, resource: string) returns (inherits: bool)
    requires Running(g, patch, fleet, parsers)
    requires SameName(QueueList(patch.base), QueueList(patch.target), bq, tq, queue)
    requires SameName(ResourceList(bq), ResourceList(tq), br, tr, resource)
    ensures inherits ==> !Truthy(Group(br)) && !Truthy(Group(tr))
    ensures !inherits ==> Managed(Applied(bq, br)) ==> Managed(Applied(tq, tr))
  {
    hide Diff, Managed, Allowed, Segment, DiffField;
    var bn, tn, path := Networking(br), Networking(tr), ResourcePath(tq, tr);
    inherits := !Truthy(Group(br)) && !Truthy(Group(tr));
    if Truthy(bn) != Truthy(tn) {
      var c := OneSidedNetworking(g, br, tr, path);
      InComputeResource(g, patch, fleet, parsers, bq, tq, br, tr, queue, resource, c);
      ResourceChangePasses(g, patch, fleet, parsers, bq, tq, br, tr, queue, resource, c);
    } else if Truthy(bn) && !Alike(Group(br), Group(tr)) {
      var c := GroupDifferenceRecorded(g, g.resourceNetworking, bn, tn, path + ["Networking"]);
      SectionRecorded(g.queues.resource, ResourceNetworkingField(g), Sec(br.body), Sec(tr.body), path, c);
      InComputeResource(g, patch, fleet, parsers, bq, tq, br, tr, queue, resource, c);
      ResourceChangePasses(g, patch, fleet, parsers, bq, tq, br, tr, queue, resource, c);
    }
  }

  lemma OneSidedNetworking(g: Groups, br: Item, tr: Item, path: Path) returns (c: Change)
    requires GroupSchema(g) && Truthy(Networking(br)) != Truthy(Networking(tr))
    ensures c in Diff(g.queues.resource, Sec(br.body), Sec(tr.body), path)
    ensures c.policy == ManagedPlacementGroup && c.path == path
  {
    hide Diff;
    c := Change(path, "Networking", OrDash(Networking(br)), OrDash(Networking(tr)), ManagedPlacementGroup, false);
    assert c in DiffField(ResourceNetworkingField(g), Sec(br.body), Sec(tr.body), path, path);
    FieldRecorded(g.queues.resource, ResourceNetworkingField(g), Sec(br.body), Sec(tr.body), path, c);
  }

  /** A queue in a managed group stays in one. */
  lemma QueueInherited(g: Groups, patch: Patch, fleet: Fleet, parsers: Parsers, bq: Item, tq: Item, queue: string)
    requires Running(g, patch, fleet, parsers)
    requires SameName(QueueList(patch.base), QueueList(patch.target), bq, tq, queue)
    requires Truthy(Networking(bq)) && Truthy(Networking(tq))
    ensures Managed(Group(bq)) ==> Managed(Group(tq))
  {
    hide Diff, Managed, Allowed, Segment, DiffField;
    AbsentNotManaged(Group(bq));
    if !Alike(Group(bq), Group(tq)) {
      var path := QueuePath(tq);
      var c := GroupDifferenceRecorded(g, g.queueNetworking, Networking(bq), Networking(tq), path + ["Networking"]);
      SectionRecorded(g.queues.queue, QueueNetworkingField(g), Sec(bq.body), Sec(tq.body), path, c);
      InQueue(g, patch, fleet, parsers, bq, tq, queue, c);
      QueueChangePasses(g, patch, fleet, parsers, bq, tq, queue, c);
    }
  }

  // ------------------------------------------------------------ the theorem

  /** With capacity running, an allowed patch leaves every compute resource in a managed placement group if it was in
      one, whether the group is its own or its queue's. The queue's networking section, which the schema requires, is
      there on both sides. */
  lemma AllowedKeepsManagedGroups(g: Groups, patch: Patch, fleet: Fleet, parsers: Parsers, bq: Item, tq: Item, br: Item,
                                  tr: Item, queue: string, resource: string)
    requires Running(g, patch, fleet, parsers)
    requires SameName(QueueList(patch.base), QueueList(patch.target), bq, tq, queue)
    requires SameName(ResourceList(bq), ResourceList(tq), br, tr, resource)
    requires Truthy(Networking(bq)) && Truthy(Networking(tq))
    requires Managed(Applied(bq, br))
    ensures Managed(Applied(tq, tr))
  {
    hide Managed, Diff, Allowed;
    var inherits := ResourceOwn(g, patch, fleet, parsers, bq, tq, br, tr, queue, resource);
    if inherits {
      QueueInherited(g, patch, fleet, parsers, bq, tq, queue);
    }
  }

  /** The same for the changes the comparison records, when it overlooks no removal. */
  lemma AllowedUpdateKeepsManagedGroups(g: Groups, patch: Patch, fleet: Fleet, parsers: Parsers, bq: Item, tq: Item,
                                        br: Item, tr: Item, queue: string, resource: string, marks: set<nat>)
    requires GroupSchema(g) && QueueNames(patch.base) && QueueNames(patch.target)
    requires WalkSection(g.queues.root, patch.base, patch.target, [], {}) == Walked(patch.changes, marks)
    requires !Overlooks(Events(g.queues.root, patch.base, patch.target), {})
    requires fleet.capacity && Allowed(patch, fleet, parsers)
    requires SameName(QueueList(patch.base), QueueList(patch.target), bq, tq, queue)
    requires SameName(ResourceList(bq), ResourceList(tq), br, tr, resource)
    requires Truthy(Networking(bq)) && Truthy(Networking(tq))
    requires Managed(Applied(bq, br))
    ensures Managed(Applied(tq, tr))
  {
    hide Diff, Allowed, Managed, Applied;
    RecordsIntendedIff(g.queues.root, patch.base, patch.target, [], {});
    AllowedKeepsManagedGroups(g, patch, fleet, parsers, bq, tq, br, tr, queue, resource);
  }

  lemma AbsentNotManaged(group: Node)
    ensures !Truthy(group) ==> !Managed(group)
  {
  }
}

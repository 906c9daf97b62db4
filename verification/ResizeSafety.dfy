/** What an allowed patch does to running queues: it removes no queue and no compute resource, and shrinks none. */
module ResizeSafety {
  import opened Values
  import opened Schema
  import opened ConfigDiff
  import opened DiffShape
  import opened Meaning
  import opened Routes
  import opened MarkedDiff
  import opened Sharing
  import opened UpdatePolicy
  import PolicyConditions

  /** The part of the cluster schema that describes queues. */
  datatype Queues = Queues(root: Schema, scheduling: Schema, queue: Schema, resource: Schema)

  const MAX_COUNT := Field("MaxCount", Param, ResizeUpdateStrategyOnRemove)
  const MIN_COUNT := Field("MinCount", Param, ResizeUpdateStrategyOnRemove)

  function SchedulingField(q: Queues): Field { Field("Scheduling", Nested(q.scheduling), Unsupported) }

  function QueuesField(q: Queues): Field {
    Field("SlurmQueues", Many("Name", q.queue), ResizeUpdateStrategyOnRemove)
  }

  function ResourcesField(q: Queues): Field {
    Field("ComputeResources", Many("Name", q.resource), ResizeUpdateStrategyOnRemove)
  }

  /** The schema has the queue fields with the resize policy, keys are unambiguous, and custom actions are confined to
      sections of their own. */
  ghost predicate QueueSchema(q: Queues) {
    && GoodKeys(q.root) && KeepsPath(q.root, "MaxCount")
    && NoScript(q.root) && NoScript(q.scheduling) && NoScript(q.queue) && NoScript(q.resource)
    && SchedulingField(q) in q.root.fields
    && QueuesField(q) in q.scheduling.fields
    && ResourcesField(q) in q.queue.fields
    && MAX_COUNT in q.resource.fields && MIN_COUNT in q.resource.fields
  }

  function QueueList(config: Node): seq<Item> { ListOf(Entry(config, "Scheduling"), "SlurmQueues") }

  function ResourceList(queue: Item): seq<Item> { ListOf(Sec(queue.body), "ComputeResources") }

  function Name(it: Item): Node { Get(it.body, "Name") }

  function MaxCount(resource: Item, parsers: Parsers): Option<int> {
    PolicyConditions.Number(Get(resource.body, "MaxCount"), 10, parsers)
  }

  function MinCount(resource: Item, parsers: Parsers): Option<int> {
    PolicyConditions.Number(Get(resource.body, "MinCount"), 0, parsers)
  }

  /** Neither the maximum nor the number of nodes beyond the minimum gets smaller. */
  predicate NotShrunk(b: Item, t: Item, parsers: Parsers) {
    var (oldMax, oldMin) := (MaxCount(b, parsers), MinCount(b, parsers));
    var (newMax, newMin) := (MaxCount(t, parsers), MinCount(t, parsers));
    && (oldMax.Some? && newMax.Some? ==> newMax.value >= oldMax.value)
    && (oldMax.Some? && newMax.Some? && oldMin.Some? && newMin.Some? ==>
          newMax.value - newMin.value >= oldMax.value - oldMin.value)
  }

  /** The target still has an item of that name, and the property holds of the pair. */
  predicate StillThere(items: seq<Item>, b: Item) { FirstMatch(items, "Name", Name(b)) < |items| }

  function Successor(items: seq<Item>, b: Item): Item
    requires StillThere(items, b)
  {
    items[FirstMatch(items, "Name", Name(b))]
  }

  predicate QueueSafe(bq: Item, tq: Item, parsers: Parsers) {
    forall k :: 0 <= k < |ResourceList(bq)| ==>
      var br := ResourceList(bq)[k];
      StillThere(ResourceList(tq), br) && NotShrunk(br, Successor(ResourceList(tq), br), parsers)
  }

  // ------------------------------------------------------------ what an allowed patch says about each change

  lemma {:induction false} EachPasses(changes: seq<Change>, patch: Patch, fleet: Fleet, parsers: Parsers,
                                      cache: Option<bool>, c: Change)
    requires c in changes
    requires var report := CheckAll(changes, patch, fleet, parsers, cache); report.Some? && report.value.allowed
    ensures HasChecker(c.policy)
    ensures exists k :: Condition(c.policy, c, patch, fleet, parsers, k).verdict == Allow
    decreases |changes|
  {
    hide Condition;
    if c == changes[0] {
      assert Check(c, patch, fleet, parsers, cache).0 == Some(SUCCEEDED);
      assert Condition(c.policy, c, patch, fleet, parsers, cache).verdict == Allow;
    } else {
      EachPasses(changes[1..], patch, fleet, parsers, Check(changes[0], patch, fleet, parsers, cache).1, c);
    }
  }

  /** Every change with the resize policy passed the resize check. */
  lemma ResizePasses(patch: Patch, fleet: Fleet, parsers: Parsers, c: Change)
    requires Allowed(patch, fleet, parsers) && c in patch.changes && c.policy == ResizeUpdateStrategyOnRemove
    ensures ResizeCheck(c, patch, fleet, parsers) == Allow
  {
    hide ResizeCheck;
    EachPasses(patch.changes, patch, fleet, parsers, None, c);
  }

  /** An allowed patch records no item of a queue list as removed while capacity is running. */
  lemma NoRemoval(patch: Patch, fleet: Fleet, parsers: Parsers, f: Field, path: Path, b: Item)
    requires Allowed(patch, fleet, parsers) && fleet.capacity && !PolicyConditions.Terminates(patch.target)
    requires f.policy == ResizeUpdateStrategyOnRemove && f.key != "MaxCount" && f.key != "MinCount"
    ensures RemovedItem(path, f, b) !in patch.changes
  {
    PolicyConditions.StrategyIff(patch.target);
    if RemovedItem(path, f, b) in patch.changes {
      ResizePasses(patch, fleet, parsers, RemovedItem(path, f, b));
    }
  }

  // ------------------------------------------------------------ the situation of the theorem

  /** Queues have different names, and so have the compute resources of each queue; names are text. Nothing is asked of
      the other lists of a configuration, some of which may hold two items with one update key. */
  ghost predicate QueueNames(config: Node) {
    && NamedItems(QueueList(config), "Name")
    && forall k :: 0 <= k < |QueueList(config)| ==> NamedItems(ResourceList(QueueList(config)[k]), "Name")
  }

  /** An allowed patch for a cluster with running capacity, which may not terminate nodes; the recorded changes are the
      intended ones. */
  ghost predicate Situation(q: Queues, patch: Patch, fleet: Fleet, parsers: Parsers) {
    && QueueSchema(q)
    && QueueNames(patch.base) && QueueNames(patch.target)
    && patch.changes == Diff(q.root, patch.base, patch.target, [])
    && fleet.capacity && !PolicyConditions.Terminates(patch.target)
    && Allowed(patch, fleet, parsers)
  }

  /** In lists of named items, an item that some target item is compared with still has a target item of its name,
      and that one is compared with it. */
  lemma PairUp(bs: seq<Item>, ts: seq<Item>, k: nat)
    requires UniqueItemNames(bs, "Name") && UniqueItemNames(ts, "Name")
    requires forall j :: 0 <= j < |bs| ==> IsText(Name(bs[j]))
    requires k < |bs| && Kept(bs, ts, "Name", k)
    ensures StillThere(ts, bs[k]) && Name(Successor(ts, bs[k])) == Name(bs[k])
    ensures MatchOf(bs, "Name", Successor(ts, bs[k])) == k
  {
    var i :| 0 <= i < |ts| && MatchOf(bs, "Name", ts[i]) == k;
    assert "Name" in bs[k].body;
  }

  // ------------------------------------------------------------ the paths of queues and resources

  function QueuePath(bq: Item): Path { ["Scheduling"] + [Segment("SlurmQueues", Name(bq))] }

  function ResourcePath(bq: Item, br: Item): Path { QueuePath(bq) + [Segment("ComputeResources", Name(br))] }

  /** The scheduling section is on both sides: adding or removing it is never allowed. */
  lemma SchedulingStays(q: Queues, patch: Patch, fleet: Fleet, parsers: Parsers)
    requires Situation(q, patch, fleet, parsers)
    ensures Truthy(Entry(patch.base, "Scheduling")) <==> Truthy(Entry(patch.target, "Scheduling"))
  {
    var f, bv, tv := SchedulingField(q), Entry(patch.base, "Scheduling"), Entry(patch.target, "Scheduling");
    if Truthy(bv) != Truthy(tv) {
      var c := Change([], f.key, OrDash(bv), OrDash(tv), Unsupported, false);
      assert c in DiffField(f, patch.base, patch.target, [], []);
      FieldRecorded(q.root, f, patch.base, patch.target, [], c);
      EachPasses(patch.changes, patch, fleet, parsers, None, c);
    }
  }

  /** A change of the scheduling section is a change of the patch, if base and target have the section. */
  lemma InScheduling(q: Queues, base: Node, target: Node, c: Change)
    requires QueueSchema(q) && Truthy(Entry(base, "Scheduling")) && Truthy(Entry(target, "Scheduling"))
    requires c in Diff(q.scheduling, Entry(base, "Scheduling"), Entry(target, "Scheduling"), ["Scheduling"])
    ensures c in Diff(q.root, base, target, [])
  {
    assert [] + ["Scheduling"] == ["Scheduling"];
    SectionRecorded(q.root, SchedulingField(q), base, target, [], c);
  }

  lemma QueueKept(q: Queues, patch: Patch, fleet: Fleet, parsers: Parsers, k: nat)
    requires Situation(q, patch, fleet, parsers) && k < |QueueList(patch.base)|
    ensures Truthy(Entry(patch.base, "Scheduling")) && Truthy(Entry(patch.target, "Scheduling"))
    ensures Kept(QueueList(patch.base), QueueList(patch.target), "Name", k)
  {
    hide Diff;
    SchedulingStays(q, patch, fleet, parsers);
    if !Kept(QueueList(patch.base), QueueList(patch.target), "Name", k) {
      var b, t, f := Entry(patch.base, "Scheduling"), Entry(patch.target, "Scheduling"), QueuesField(q);
      RemovalRecorded(q.scheduling, f, b, t, ["Scheduling"], k);
      InScheduling(q, patch.base, patch.target, RemovedItem(["Scheduling"], f, QueueList(patch.base)[k]));
      NoRemoval(patch, fleet, parsers, f, ["Scheduling"], QueueList(patch.base)[k]);
    }
  }

  /** The changes of a queue that both sides have are changes of the whole. */
  lemma QueueRecorded(q: Queues, base: Node, target: Node, i: nat, k: nat, c: Change)
    requires QueueSchema(q) && Truthy(Entry(base, "Scheduling")) && Truthy(Entry(target, "Scheduling"))
    requires i < |QueueList(target)| && k < |QueueList(base)|
    requires MatchOf(QueueList(base), "Name", QueueList(target)[i]) == k
    requires c in Diff(q.queue, Sec(QueueList(base)[k].body), Sec(QueueList(target)[i].body),
                       QueuePath(QueueList(target)[i]))
    ensures c in Diff(q.root, base, target, [])
  {
    hide Diff, DiffItem;
    var b, t := Entry(base, "Scheduling"), Entry(target, "Scheduling");
    ItemIsDiff(QueuesField(q), b, t, ["Scheduling"], i, k);
    ItemRecorded(q.scheduling, QueuesField(q), b, t, ["Scheduling"], i, c);
    InScheduling(q, base, target, c);
  }

  /** The changes of a compute resource that both sides have are changes of its queue. */
  lemma ResourceRecorded(q: Queues, bq: Item, tq: Item, i: nat, k: nat, path: Path, c: Change)
    requires QueueSchema(q)
    requires i < |ResourceList(tq)| && k < |ResourceList(bq)|
    requires MatchOf(ResourceList(bq), "Name", ResourceList(tq)[i]) == k
    requires c in Diff(q.resource, Sec(ResourceList(bq)[k].body), Sec(ResourceList(tq)[i].body),
                       path + [Segment("ComputeResources", Name(ResourceList(tq)[i]))])
    ensures c in Diff(q.queue, Sec(bq.body), Sec(tq.body), path)
  {
    hide Diff, DiffItem;
    ItemIsDiff(ResourcesField(q), Sec(bq.body), Sec(tq.body), path, i, k);
    ItemRecorded(q.queue, ResourcesField(q), Sec(bq.body), Sec(tq.body), path, i, c);
  }

  /** Every base queue is still there, and its changes are changes of the patch. */
  lemma QueueStays(q: Queues, patch: Patch, fleet: Fleet, parsers: Parsers, k: nat)
    requires Situation(q, patch, fleet, parsers) && k < |QueueList(patch.base)|
    ensures var bq, tqs := QueueList(patch.base)[k], QueueList(patch.target);
            && StillThere(tqs, bq)
            && forall c :: c in Diff(q.queue, Sec(bq.body), Sec(Successor(tqs, bq).body), QueuePath(bq)) ==>
                 c in patch.changes
  {
    hide Diff, Allowed;
    var bqs, tqs := QueueList(patch.base), QueueList(patch.target);
    QueueKept(q, patch, fleet, parsers, k);
    PairUp(bqs, tqs, k);
    var bq, tq, i := bqs[k], Successor(tqs, bqs[k]), FirstMatch(tqs, "Name", Name(bqs[k]));
    forall c | c in Diff(q.queue, Sec(bq.body), Sec(tq.body), QueuePath(bq))
      ensures c in patch.changes
    {
      QueueRecorded(q, patch.base, patch.target, i, k, c);
    }
  }

  /** Every compute resource of a base queue is still there, and its changes are changes of the patch. */
  lemma ResourceStays(q: Queues, patch: Patch, fleet: Fleet, parsers: Parsers, bq: Item, tq: Item, k: nat)
    requires Situation(q, patch, fleet, parsers)
    requires NamedItems(ResourceList(bq), "Name") && NamedItems(ResourceList(tq), "Name")
    requires forall c :: c in Diff(q.queue, Sec(bq.body), Sec(tq.body), QueuePath(bq)) ==> c in patch.changes
    requires k < |ResourceList(bq)|
    ensures var br, trs := ResourceList(bq)[k], ResourceList(tq);
            && StillThere(trs, br)
            && forall c :: c in Diff(q.resource, Sec(br.body), Sec(Successor(trs, br).body), ResourcePath(bq, br)) ==>
                 c in patch.changes
  {
    var b, t, path := Sec(bq.body), Sec(tq.body), QueuePath(bq);
    var brs, trs, f := ResourceList(bq), ResourceList(tq), ResourcesField(q);
    if !Kept(brs, trs, "Name", k) {
      RemovalRecorded(q.queue, f, b, t, path, k);
      NoRemoval(patch, fleet, parsers, f, path, brs[k]);
      assert false;
    }
    PairUp(brs, trs, k);
    var br, tr := brs[k], Successor(trs, brs[k]);
    var i := FirstMatch(trs, "Name", Name(br));
    forall c | c in Diff(q.resource, Sec(br.body), Sec(tr.body), ResourcePath(bq, br))
      ensures c in patch.changes
    {
      ResourceRecorded(q, bq, tq, i, k, path, c);
    }
  }

  // ------------------------------------------------------------ the sibling MaxCount change is the resource's own

  lemma QueueSchemas(q: Queues)
    requires QueueSchema(q)
    ensures GoodKeys(q.scheduling) && GoodKeys(q.queue) && GoodKeys(q.resource)
    ensures KeepsPath(q.scheduling, "MaxCount") && KeepsPath(q.queue, "MaxCount") && KeepsPath(q.resource, "MaxCount")
  {
    FieldSchemas(q.root, SchedulingField(q), "MaxCount");
    FieldSchemas(q.scheduling, QueuesField(q), "MaxCount");
    FieldSchemas(q.queue, ResourcesField(q), "MaxCount");
  }

  lemma FieldSchemas(s: Schema, f: Field, key: string)
    requires GoodKeys(s) && KeepsPath(s, key) && f in s.fields
    ensures f.kind.Nested? ==> GoodKeys(f.kind.section) && KeepsPath(f.kind.section, key)
    ensures f.kind.Many? ==> GoodKeys(f.kind.item) && KeepsPath(f.kind.item, key)
  {
    var i :| 0 <= i < |s.fields| && s.fields[i] == f;
    assert GoodField(s.fields[i]) && FieldKeepsPath(s.fields[i], key);
  }

  /** A change called `MaxCount` behind the path of a queue is a change of that queue. */
  lemma MaxCountOfQueue(q: Queues, base: Node, target: Node, i: nat, k: nat, c: Change)
    requires QueueSchema(q) && NamedItems(QueueList(target), "Name")
    requires c in Diff(q.root, base, target, []) && c.key == "MaxCount"
    requires i < |QueueList(target)| && k < |QueueList(base)|
    requires MatchOf(QueueList(base), "Name", QueueList(target)[i]) == k
    requires |c.path| > 1 && c.path[..2] == QueuePath(QueueList(target)[i])
    ensures c in Diff(q.queue, Sec(QueueList(base)[k].body), Sec(QueueList(target)[i].body),
                      QueuePath(QueueList(target)[i]))
  {
    hide Diff, DiffItem, KeepsPath, GoodKeys;
    var b, t := Entry(base, "Scheduling"), Entry(target, "Scheduling");
    QueueSchemas(q);
    assert c.path[0] == QueuePath(QueueList(target)[i])[0] && c.path[1] == QueuePath(QueueList(target)[i])[1];
    DescendSection(q.root, SchedulingField(q), base, target, [], c);
    assert [] + ["Scheduling"] == ["Scheduling"];
    DescendItem(q.scheduling, QueuesField(q), b, t, ["Scheduling"], i, c);
    ItemIsDiff(QueuesField(q), b, t, ["Scheduling"], i, k);
  }

  lemma ItemIsDiff(f: Field, b: Node, t: Node, path: Path, i: nat, k: nat)
    requires f.kind.Many? && i < |ListOf(t, f.key)| && k < |ListOf(b, f.key)|
    requires MatchOf(ListOf(b, f.key), f.kind.updateKey, ListOf(t, f.key)[i]) == k
    ensures DiffItem(f, f.kind.updateKey, f.kind.item, ListOf(b, f.key), ListOf(t, f.key)[i], path, path)
            == Diff(f.kind.item, Sec(ListOf(b, f.key)[k].body), Sec(ListOf(t, f.key)[i].body),
                    path + [Segment(f.key, Get(ListOf(t, f.key)[i].body, f.kind.updateKey))])
  {
  }

  /** A change called `MaxCount` at the path of a compute resource is the resource's own. */
  lemma MaxCountOfResource(q: Queues, bq: Item, tq: Item, i: nat, k: nat, path: Path, c: Change)
    requires QueueSchema(q) && NamedItems(ResourceList(tq), "Name")
    requires c in Diff(q.queue, Sec(bq.body), Sec(tq.body), path) && c.key == "MaxCount"
    requires i < |ResourceList(tq)| && k < |ResourceList(bq)|
    requires MatchOf(ResourceList(bq), "Name", ResourceList(tq)[i]) == k
    requires c.path == path + [Segment("ComputeResources", Name(ResourceList(tq)[i]))]
    ensures c in DiffField(MAX_COUNT, Sec(ResourceList(bq)[k].body), Sec(ResourceList(tq)[i].body), c.path, c.path)
  {
    hide Diff, DiffItem, KeepsPath, GoodKeys, DiffField;
    var b, t := Sec(bq.body), Sec(tq.body);
    QueueSchemas(q);
    assert c.path[|path|] == Segment("ComputeResources", Name(ResourceList(tq)[i]));
    DescendItem(q.queue, ResourcesField(q), b, t, path, i, c);
    ItemIsDiff(ResourcesField(q), b, t, path, i, k);
    OwnMaxCount(q.resource, Sec(ResourceList(bq)[k].body), Sec(ResourceList(tq)[i].body), c.path, c);
  }

  lemma OwnMaxCount(s: Schema, b: Node, t: Node, path: Path, c: Change)
    requires GoodKeys(s) && NoScript(s) && KeepsPath(s, "MaxCount") && MAX_COUNT in s.fields
    requires c in Diff(s, b, t, path) && c.path == path && c.key == "MaxCount"
    ensures c in DiffField(MAX_COUNT, b, t, path, path)
  {
    hide Diff, DiffField;
    InPlainSection(s, b, t, path, c);
    var i :| 0 <= i < |s.fields| && c in DiffField(s.fields[i], b, t, path, path);
    assert GoodField(s.fields[i]) && FieldKeepsPath(s.fields[i], c.key);
    FieldKeptBelow(s.fields[i], b, t, path, c);
    var k :| 0 <= k < |s.fields| && s.fields[k] == MAX_COUNT;
    assert i == k;
  }

  // ------------------------------------------------------------ the sizes

  lemma {:induction false} SiblingInChanges(path: Path, changes: seq<Change>)
    ensures SiblingMaxCount(path, changes).Some? ==>
              var c := SiblingMaxCount(path, changes).value;
              c in changes && c.path == path && c.key == "MaxCount"
    decreases |changes|
  {
    if changes != [] {
      SiblingInChanges(path, changes[1..]);
    }
  }

  /** What the resize check lets through for the counts of a compute resource. */
  lemma CountPasses(patch: Patch, fleet: Fleet, parsers: Parsers, c: Change)
    requires fleet.capacity && !PolicyConditions.Terminates(patch.target) && !c.isList
    requires ResizeCheck(c, patch, fleet, parsers) == Allow
    ensures c.key == "MaxCount" ==> MaxCountCheck(c, parsers) == Allow
    ensures c.key == "MinCount" ==> MinCountCheck(c, patch.changes, parsers) == Allow
  {
    PolicyConditions.StrategyIff(patch.target);
    hide MaxCountCheck, MinCountCheck;
  }

  /** The recorded change of a count, if the counts differ. */
  lemma CountRecorded(s: Schema, f: Field, b: Item, t: Item, path: Path)
    requires NoScript(s) && f in s.fields && f.kind.Param?
    ensures Get(b.body, f.key) != Get(t.body, f.key) ==>
              Change(path, f.key, Get(b.body, f.key), Get(t.body, f.key), f.policy, false)
              in Diff(s, Sec(b.body), Sec(t.body), path)
  {
    if Get(b.body, f.key) != Get(t.body, f.key) {
      var c := Change(path, f.key, Get(b.body, f.key), Get(t.body, f.key), f.policy, false);
      assert f.key != "Script";
      assert c in DiffField(f, Sec(b.body), Sec(t.body), path, path);
      FieldRecorded(s, f, Sec(b.body), Sec(t.body), path, c);
    }
  }

  /** A surviving compute resource is not shrunk. */
  lemma ResourceNotShrunk(q: Queues, patch: Patch, fleet: Fleet, parsers: Parsers, path: Path, b: Item, t: Item)
    requires Situation(q, patch, fleet, parsers)
    requires forall c :: c in Diff(q.resource, Sec(b.body), Sec(t.body), path) ==> c in patch.changes
    requires forall c :: c in patch.changes && c.path == path && c.key == "MaxCount" ==>
               c in DiffField(MAX_COUNT, Sec(b.body), Sec(t.body), path, path)
    ensures NotShrunk(b, t, parsers)
  {
    hide Diff, Allowed, ResizeCheck;
    CountRecorded(q.resource, MAX_COUNT, b, t, path);
    CountRecorded(q.resource, MIN_COUNT, b, t, path);
    var (bMax, tMax) := (Get(b.body, "MaxCount"), Get(t.body, "MaxCount"));
    var (bMin, tMin) := (Get(b.body, "MinCount"), Get(t.body, "MinCount"));
    if bMax != tMax {
      var c := Change(path, "MaxCount", bMax, tMax, ResizeUpdateStrategyOnRemove, false);
      ResizePasses(patch, fleet, parsers, c);
      CountPasses(patch, fleet, parsers, c);
    }
    if bMin != tMin {
      var c := Change(path, "MinCount", bMin, tMin, ResizeUpdateStrategyOnRemove, false);
      ResizePasses(patch, fleet, parsers, c);
      CountPasses(patch, fleet, parsers, c);
      SiblingInChanges(path, patch.changes);
      var other := SiblingMaxCount(path, patch.changes).value;
      assert other.oldValue == bMax && other.newValue == tMax;
    }
  }

  // ------------------------------------------------------------ the theorem

  /** With capacity running and a strategy that may not terminate nodes, an allowed patch keeps every queue and every
      compute resource, lowers no maximum, and leaves at least as many nodes beyond the minimum. */
  lemma AllowedKeepsQueues(q: Queues, patch: Patch, fleet: Fleet, parsers: Parsers)
    requires Situation(q, patch, fleet, parsers)
    ensures forall k :: 0 <= k < |QueueList(patch.base)| ==>
              var bq := QueueList(patch.base)[k];
              StillThere(QueueList(patch.target), bq)
              && QueueSafe(bq, Successor(QueueList(patch.target), bq), parsers)
  {
    forall k | 0 <= k < |QueueList(patch.base)|
      ensures var bq := QueueList(patch.base)[k];
              StillThere(QueueList(patch.target), bq)
              && QueueSafe(bq, Successor(QueueList(patch.target), bq), parsers)
    {
      QueueIsSafe(q, patch, fleet, parsers, k);
    }
  }

  lemma QueueIsSafe(q: Queues, patch: Patch, fleet: Fleet, parsers: Parsers, k: nat)
    requires Situation(q, patch, fleet, parsers) && k < |QueueList(patch.base)|
    ensures var bq := QueueList(patch.base)[k];
            StillThere(QueueList(patch.target), bq)
            && QueueSafe(bq, Successor(QueueList(patch.target), bq), parsers)
  {
    hide Diff, Allowed, NotShrunk;
    var bqs, tqs := QueueList(patch.base), QueueList(patch.target);
    QueueStays(q, patch, fleet, parsers, k);
    QueueKept(q, patch, fleet, parsers, k);
    PairUp(bqs, tqs, k);
    var bq, i := bqs[k], FirstMatch(tqs, "Name", Name(bqs[k]));
    var tq := tqs[i];
    assert NamedItems(ResourceList(bq), "Name") && NamedItems(ResourceList(tq), "Name");
    forall j | 0 <= j < |ResourceList(bq)|
      ensures var br := ResourceList(bq)[j];
              StillThere(ResourceList(tq), br) && NotShrunk(br, Successor(ResourceList(tq), br), parsers)
    {
      ResourceIsSafe(q, patch, fleet, parsers, k, i, j);
    }
  }

  lemma ResourceIsSafe(q: Queues, patch: Patch, fleet: Fleet, parsers: Parsers, k: nat, i: nat, j: nat)
    requires Situation(q, patch, fleet, parsers)
    requires k < |QueueList(patch.base)| && i < |QueueList(patch.target)|
    requires MatchOf(QueueList(patch.base), "Name", QueueList(patch.target)[i]) == k
    requires var bq, tq := QueueList(patch.base)[k], QueueList(patch.target)[i];
             && Name(bq) == Name(tq)
             && NamedItems(ResourceList(bq), "Name") && NamedItems(ResourceList(tq), "Name")
             && (forall c :: c in Diff(q.queue, Sec(bq.body), Sec(tq.body), QueuePath(bq)) ==> c in patch.changes)
             && j < |ResourceList(bq)|
    ensures var br, trs := ResourceList(QueueList(patch.base)[k])[j], ResourceList(QueueList(patch.target)[i]);
            StillThere(trs, br) && NotShrunk(br, Successor(trs, br), parsers)
  {
    hide Diff, Allowed, NotShrunk, DiffField;
    var bq, tq := QueueList(patch.base)[k], QueueList(patch.target)[i];
    var brs, trs := ResourceList(bq), ResourceList(tq);
    ResourceStays(q, patch, fleet, parsers, bq, tq, j);
    var br := brs[j];
    var m := FirstMatch(trs, "Name", Name(br));
    var tr, path := trs[m], ResourcePath(bq, br);
    MatchesBack(brs, trs, j);
    forall c | c in patch.changes && c.path == path && c.key == "MaxCount"
      ensures c in DiffField(MAX_COUNT, Sec(br.body), Sec(tr.body), path, path)
    {
      assert c.path[..2] == QueuePath(tq);
      MaxCountOfQueue(q, patch.base, patch.target, i, k, c);
      MaxCountOfResource(q, bq, tq, m, j, QueuePath(tq), c);
    }
    ResourceNotShrunk(q, patch, fleet, parsers, path, br, tr);
  }

  lemma MatchesBack(bs: seq<Item>, ts: seq<Item>, k: nat)
    requires UniqueItemNames(bs, "Name") && k < |bs| && IsText(Name(bs[k])) && StillThere(ts, bs[k])
    ensures MatchOf(bs, "Name", Successor(ts, bs[k])) == k && Name(Successor(ts, bs[k])) == Name(bs[k])
  {
    assert "Name" in bs[k].body;
  }

  /** The same for the changes the comparison records, when it overlooks no removal. */
  lemma AllowedUpdateKeepsQueues(q: Queues, patch: Patch, fleet: Fleet, parsers: Parsers, marks: set<nat>)
    requires QueueSchema(q) && QueueNames(patch.base) && QueueNames(patch.target)
    requires WalkSection(q.root, patch.base, patch.target, [], {}) == Walked(patch.changes, marks)
    requires !Overlooks(Events(q.root, patch.base, patch.target), {})
    requires fleet.capacity && !PolicyConditions.Terminates(patch.target)
    requires Allowed(patch, fleet, parsers)
    ensures forall k :: 0 <= k < |QueueList(patch.base)| ==>
              var bq := QueueList(patch.base)[k];
              StillThere(QueueList(patch.target), bq)
              && QueueSafe(bq, Successor(QueueList(patch.target), bq), parsers)
  {
    RecordsIntendedIff(q.root, patch.base, patch.target, [], {});
    AllowedKeepsQueues(q, patch, fleet, parsers);
  }
}

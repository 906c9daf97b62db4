/** Exactly when a change passes its check, policy by policy, spelled out on the change, the two configurations and the
    state of the cluster, with the keys, texts and numbers of the configuration language. */
module PolicyConditions {
  import opened Values
  import opened Schema
  import opened PathText
  import opened UpdatePolicy
  import DictionaryDiff

  // ------------------------------------------------------------ what the conditions speak of

  /** The value that a way of keys leads to through nested sections. */
  function At(n: Node, keys: seq<string>): Option<Node>
    decreases |keys|
  {
    if keys == [] then Some(n)
    else if n.Sec? && keys[0] in n.body then At(n.body[keys[0]], keys[1..])
    else None
  }

  const STRATEGY: seq<string> := ["Scheduling", "SlurmSettings", "QueueUpdateStrategy"]

  /** The configuration sets a strategy for updating queues that is not the default. */
  predicate SetsStrategy(config: Node) {
    At(config, STRATEGY).Some? && At(config, STRATEGY).value != Leaf(Str("COMPUTE_FLEET_STOP"))
  }

  /** The strategy it sets is to terminate nodes. */
  predicate Terminates(config: Node) { At(config, STRATEGY) == Some(Leaf(Str("TERMINATE"))) }

  /** The scheduling section is there, and its settings, if any, are a section. */
  predicate StrategyReadable(config: Node) {
    && At(config, ["Scheduling"]).Some? && At(config, ["Scheduling"]).value.Sec?
    && var settings := At(config, ["Scheduling", "SlurmSettings"]);
       settings.Some? ==> settings.value.Sec?
  }

  /** The change is of a queue or below one, or of the list of queues. */
  predicate BelowQueue(c: Change) { exists i :: 0 <= i < |c.path| && "SlurmQueues[" <= c.path[i] }

  predicate OfQueues(c: Change) { BelowQueue(c) || c.key == "SlurmQueues" }

  /** An item is added to a list. */
  predicate AddsToList(c: Change) { c.isList && c.oldValue == NONE && c.newValue != NONE }

  function Number(v: Node, missing: int, parsers: Parsers): Option<int> {
    if v == NONE then Some(missing) else parsers.number(v)
  }

  /** The numbers before and after, ten for a missing maximum and zero for a missing minimum. */
  ghost predicate MaxCounts(c: Change, parsers: Parsers, before: int, after: int) {
    Number(c.oldValue, 10, parsers) == Some(before) && Number(c.newValue, 10, parsers) == Some(after)
  }

  ghost predicate MinCounts(c: Change, parsers: Parsers, before: int, after: int) {
    Number(c.oldValue, 0, parsers) == Some(before) && Number(c.newValue, 0, parsers) == Some(after)
  }

  /** The maximum does not go down. */
  ghost predicate KeepsMaximum(c: Change, parsers: Parsers) {
    exists before, after :: MaxCounts(c, parsers, before, after) && after >= before
  }

  /** The first change of `MaxCount` at the same place. */
  ghost predicate FirstMaxCount(cs: seq<Change>, path: Path, k: int) {
    && 0 <= k < |cs| && cs[k].path == path && cs[k].key == "MaxCount"
    && forall i :: 0 <= i < k ==> !(cs[i].path == path && cs[i].key == "MaxCount")
  }

  /** The maximum beside it goes up by at least as much as the minimum. */
  ghost predicate MaximumFollows(c: Change, cs: seq<Change>, parsers: Parsers) {
    exists k, oldMax, newMax, oldMin, newMin ::
      && FirstMaxCount(cs, c.path, k)
      && MaxCounts(cs[k], parsers, oldMax, newMax) && MinCounts(c, parsers, oldMin, newMin)
      && newMax - oldMax >= newMin - oldMin
  }

  /** A Lustre file system that the cluster manages, in the list of shared storage. */
  predicate ManagedFileSystem(it: Item) {
    && Get(it.body, "StorageType") == Leaf(Str("FsxLustre"))
    && ("FsxLustreSettings" in it.body ==>
          it.body["FsxLustreSettings"].Sec? && "FileSystemId" !in it.body["FsxLustreSettings"].body)
  }

  /** Shared storage is a list, if there is any, in which the settings of a Lustre file system are a section. */
  predicate StorageReadable(config: Node) {
    && config.Sec?
    && ("SharedStorage" in config.body ==>
          || config.body["SharedStorage"] == Sec(map[])
          || (config.body["SharedStorage"].Items?
              && forall i :: 0 <= i < |ListOf(config, "SharedStorage")| ==>
                   SettingsReadable(ListOf(config, "SharedStorage")[i])))
  }

  predicate SettingsReadable(it: Item) {
    Get(it.body, "StorageType") == Leaf(Str("FsxLustre")) && "FsxLustreSettings" in it.body ==>
      it.body["FsxLustreSettings"].Sec?
  }

  /** Both configurations manage a file system of one name. */
  ghost predicate SharesFileSystem(base: Node, target: Node) {
    exists b, t :: b in ListOf(base, "SharedStorage") && t in ListOf(target, "SharedStorage")
                   && ManagedFileSystem(b) && ManagedFileSystem(t) && Get(b.body, "Name") == Get(t.body, "Name")
  }

  /** `v in container` for the kinds of values that can be asked. */
  predicate Contains(container: Json, v: Json) {
    match container
    case Arr(elems) => v in elems
    case Obj(fields) => v.Str? && v.s in fields
    case Str(s) => v.Str? && exists i :: 0 <= i <= |s| && v.s <= s[i..]
    case _ => false
  }

  /** A list of values of which none is lost. */
  predicate KeepsAll(before: Node, after: Node) {
    && before.Leaf? && before.v.Arr? && after.Leaf?
    && forall k :: 0 <= k < |before.v.elems| ==> Contains(after.v, before.v.elems[k])
  }

  /** The storage that comes or goes, or the value of the change. */
  function Subject(c: Change): Node { if c.newValue != NONE then c.newValue else c.oldValue }

  /** The settings of a storage, under a key made of its type. */
  function Settings(storage: map<string, Node>): Node {
    var key := Text(Get(storage, "StorageType")) + "Settings";
    if key in storage then storage[key] else Sec(map[])
  }

  predicate IsStorage(c: Change) { Subject(c).Sec? && Settings(Subject(c).body).Sec? }

  /** A file system from outside the cluster, of a type that running nodes can mount and unmount. */
  predicate LiveStorage(storage: map<string, Node>) {
    && Get(storage, "StorageType").Leaf?
    && Get(storage, "StorageType").v in { Str("Efs"), Str("FsxLustre"), Str("FsxOntap"), Str("FsxOpenZfs"), Str("FileCache") }
    && Settings(storage).Sec?
    && exists id :: id in {"VolumeId", "FileSystemId", "FileCacheId"} && id in Settings(storage).body
  }

  predicate IsLive(c: Change) { Subject(c).Sec? && LiveStorage(Subject(c).body) }

  predicate AtHome(storage: map<string, Node>) { Get(storage, "MountDir") in { Leaf(Str("home")), Leaf(Str("/home")) } }

  /** Neither side of the change is a storage at the home directory. */
  predicate LeavesHome(c: Change) {
    c.key == "SharedStorage" ==>
      && (Truthy(c.oldValue) ==> c.oldValue.Sec? && !AtHome(c.oldValue.body))
      && (Truthy(c.newValue) ==> c.newValue.Sec? && !AtHome(c.newValue.body))
  }

  /** The pool of the first path segment that names one, or no pool. */
  ghost predicate PoolIs(path: Path, pool: string) {
    || (pool == "" && forall i :: 0 <= i < |path| ==> !Search("Pools[", path[i]))
    || exists i :: FirstPool(path, i) && ExtractTypeAndName(path[i]).Some? && ExtractTypeAndName(path[i]).value.1 == pool
  }

  ghost predicate FirstPool(path: Path, i: int) {
    0 <= i < |path| && Search("Pools[", path[i]) && forall k :: 0 <= k < i ==> !Search("Pools[", path[k])
  }

  /** The login nodes of a known pool, or all of them, are stopped, by the kept answer if there is one. */
  predicate LoginStopped(fleet: Fleet, pool: string, kept: Option<bool>) {
    && (pool == "" || pool in fleet.pools)
    && (if kept.Some? then !kept.value else if pool == "" then !fleet.login else !fleet.pools[pool])
  }

  /** The attributes in a text, none for another value or a text that gives nothing. */
  function Parsed(v: Node, parsers: Parsers): Json {
    match v
    case Leaf(Str(text)) => if text != "" && TruthyJson(parsers.json(text)) then parsers.json(text) else Obj(map[])
    case _ => Obj(map[])
  }

  /** All places at which the attributes differ are among the three updatable ones. */
  ghost predicate OnlyUpdatable(before: Json, after: Json) {
    && before.Obj? && after.Obj?
    && forall ks :: ks != [] && DictionaryDiff.Differs(before, after, ks) ==>
         DictionaryDiff.Dotted("", ks) in { "cluster.slurm.reconfigure_timeout", "cluster.cluster_readiness_check_enabled",
                                            "cluster.cluster_readiness_check_ignore_failure" }
  }

  // ------------------------------------------------------------ the condition of each policy

  /** The changes of a compute fleet that may run: none but what the queue update strategy allows. */
  predicate QueueStrategyAllows(c: Change, patch: Patch, fleet: Fleet) {
    !fleet.capacity || (BelowQueue(c) && SetsStrategy(patch.target))
  }

  ghost predicate ResizeAllows(c: Change, patch: Patch, fleet: Fleet, parsers: Parsers) {
    || !fleet.capacity
    || (OfQueues(c) && Terminates(patch.target))
    || ((OfQueues(c) ==> StrategyReadable(patch.target))
        && ((OfQueues(c) && AddsToList(c))
            || (c.key == "MaxCount" && KeepsMaximum(c, parsers))
            || (c.key == "MinCount" && MaximumFollows(c, patch.changes, parsers))))
  }

  ghost predicate ManagedFsxAllows(c: Change, patch: Patch, fleet: Fleet) {
    && StorageReadable(patch.base) && StorageReadable(patch.target) && !SharesFileSystem(patch.base, patch.target)
    && (!fleet.capacity
        || (BelowQueue(c)
            && (SetsStrategy(patch.target) || (StrategyReadable(patch.target) && KeepsAll(c.oldValue, c.newValue)))))
  }

  predicate StorageAllows(c: Change, patch: Patch, fleet: Fleet, kept: Option<bool>) {
    && LeavesHome(c)
    && (LoginStopped(fleet, "", kept) || IsLive(c))
    && (fleet.capacity ==> IsLive(c) || (IsStorage(c) && SetsStrategy(patch.target)))
  }

  /** The change passes, for every policy but that of placement groups. */
  ghost predicate Passes(c: Change, patch: Patch, fleet: Fleet, parsers: Parsers, kept: Option<bool>) {
    match c.policy
    case Ignored => true
    case Supported => true
    case ExtraChefAttributes => OnlyUpdatable(Parsed(c.oldValue, parsers), Parsed(c.newValue, parsers))
    case QueueUpdateStrategy => QueueStrategyAllows(c, patch, fleet)
    case ResizeUpdateStrategyOnRemove => ResizeAllows(c, patch, fleet, parsers)
    case ManagedPlacementGroup => IsManagedDeletion(c, patch).Some? && QueueStrategyAllows(c, patch, fleet)
                                  && (fleet.capacity ==> IsManagedDeletion(c, patch) == Some(false))
    case SharedStorageUpdate => StorageAllows(c, patch, fleet, kept)
    case ComputeFleetStopOnRemove => !fleet.capacity || (OfQueues(c) && AddsToList(c))
    case ComputeFleetStop => !fleet.capacity
    case HeadNodeStop => fleet.headStopped
    case ReadOnlyResourceBucket => false
    case Unknown => false
    case Unsupported => false
    case SupportedUnlessAdc => !fleet.isolated
    case ManagedFsx => ManagedFsxAllows(c, patch, fleet)
    case LoginNodesPools => LoginStopped(fleet, "", kept) || (AddsToList(c) && c.key == "Pools")
    case LoginNodesStop => LoginStopped(fleet, "", kept)
    case LoginNodesPoolStop => exists pool :: PoolIs(c.path, pool) && LoginStopped(fleet, pool, kept)
    case ComputeAndLoginNodesStop => !fleet.capacity && LoginStopped(fleet, "", kept)
  }

  // ------------------------------------------------------------ when the check of each policy raises

  ghost predicate MaxUnreadable(c: Change, parsers: Parsers) {
    Number(c.oldValue, 10, parsers).None? || Number(c.newValue, 10, parsers).None?
  }

  ghost predicate MinUnreadable(c: Change, cs: seq<Change>, parsers: Parsers) {
    exists k :: FirstMaxCount(cs, c.path, k)
                && (MaxUnreadable(cs[k], parsers) || Number(c.oldValue, 0, parsers).None?
                    || Number(c.newValue, 0, parsers).None?)
  }

  ghost predicate ResizeRaises(c: Change, patch: Patch, fleet: Fleet, parsers: Parsers) {
    && fleet.capacity
    && if OfQueues(c) && !StrategyReadable(patch.target) then true
       else
         && !(OfQueues(c) && (Terminates(patch.target) || AddsToList(c)))
         && ((c.key == "MaxCount" && MaxUnreadable(c, parsers))
             || (c.key == "MinCount" && MinUnreadable(c, patch.changes, parsers)))
  }

  /** Asking whether the container holds the value raises. */
  predicate CannotHold(container: Json, v: Json) {
    match container
    case Arr(_) => false
    case Obj(_) => false
    case Str(_) => !v.Str?
    case _ => true
  }

  /** Going through the values, the first that is not found makes asking raise. */
  ghost predicate AskingRaises(before: Node, after: Node) {
    && before.Leaf? && before.v.Arr?
    && (!after.Leaf?
        || exists k :: 0 <= k < |before.v.elems| && CannotHold(after.v, before.v.elems[k])
                       && forall i :: 0 <= i < k ==> Contains(after.v, before.v.elems[i]))
  }

  ghost predicate ManagedFsxRaises(c: Change, patch: Patch, fleet: Fleet) {
    || !StorageReadable(patch.base) || !StorageReadable(patch.target)
    || (!SharesFileSystem(patch.base, patch.target) && fleet.capacity && BelowQueue(c)
        && (!StrategyReadable(patch.target) || (!SetsStrategy(patch.target) && AskingRaises(c.oldValue, c.newValue))))
  }

  /** A side of a storage change that is read is no storage; the new side is read unless the old one is at home. */
  predicate HomeUnreadable(c: Change) {
    && c.key == "SharedStorage"
    && ((Truthy(c.oldValue) && !c.oldValue.Sec?)
        || (!(Truthy(c.oldValue) && AtHome(c.oldValue.body)) && Truthy(c.newValue) && !c.newValue.Sec?))
  }

  predicate StorageRaises(c: Change, patch: Patch, fleet: Fleet, kept: Option<bool>) {
    || HomeUnreadable(c)
    || (LeavesHome(c) && !IsStorage(c) && (fleet.capacity || !LoginStopped(fleet, "", kept)))
    || (LeavesHome(c) && !IsLive(c) && fleet.capacity && LoginStopped(fleet, "", kept) && !StrategyReadable(patch.target))
  }

  /** The check of the change raises. */
  ghost predicate Raises(c: Change, patch: Patch, fleet: Fleet, parsers: Parsers, kept: Option<bool>) {
    match c.policy
    case ExtraChefAttributes => !Parsed(c.oldValue, parsers).Obj? || !Parsed(c.newValue, parsers).Obj?
    case QueueUpdateStrategy => fleet.capacity && BelowQueue(c) && !StrategyReadable(patch.target)
    case ResizeUpdateStrategyOnRemove => ResizeRaises(c, patch, fleet, parsers)
    case ManagedPlacementGroup =>
      || IsManagedDeletion(c, patch).None?
      || (IsManagedDeletion(c, patch) == Some(false) && fleet.capacity && BelowQueue(c) && !StrategyReadable(patch.target))
    case SharedStorageUpdate => StorageRaises(c, patch, fleet, kept)
    case ManagedFsx => ManagedFsxRaises(c, patch, fleet)
    case LoginNodesPoolStop => forall pool :: PoolIs(c.path, pool) ==> pool != "" && pool !in fleet.pools
    case _ => false
  }

  // ------------------------------------------------------------ the checkers meet the conditions

  lemma StrategyAt(config: Node)
    ensures At(config, STRATEGY)
            == if config.Sec? && "Scheduling" in config.body && config.body["Scheduling"].Sec?
                  && "SlurmSettings" in config.body["Scheduling"].body
                  && config.body["Scheduling"].body["SlurmSettings"].Sec?
                  && "QueueUpdateStrategy" in config.body["Scheduling"].body["SlurmSettings"].body
               then Some(config.body["Scheduling"].body["SlurmSettings"].body["QueueUpdateStrategy"]) else None
    ensures At(config, ["Scheduling"])
            == if config.Sec? && "Scheduling" in config.body then Some(config.body["Scheduling"]) else None
    ensures At(config, ["Scheduling", "SlurmSettings"])
            == if config.Sec? && "Scheduling" in config.body && config.body["Scheduling"].Sec?
                  && "SlurmSettings" in config.body["Scheduling"].body
               then Some(config.body["Scheduling"].body["SlurmSettings"]) else None
  {
    assert STRATEGY[1..] == ["SlurmSettings", "QueueUpdateStrategy"] && STRATEGY[1..][1..] == ["QueueUpdateStrategy"];
    assert ["QueueUpdateStrategy"][1..] == [] && ["Scheduling"][1..] == [] && ["SlurmSettings"][1..] == [];
    assert ["Scheduling", "SlurmSettings"][1..] == ["SlurmSettings"];
  }

  /** The strategy checks: set, not set, or the configuration cannot be read. */
  lemma StrategyIff(config: Node)
    ensures StrategySet(config) == if !StrategyReadable(config) then Raise else Decide(SetsStrategy(config))
    ensures StrategyTerminate(config) == if !StrategyReadable(config) then Raise else Decide(Terminates(config))
    ensures SetsStrategy(config) || Terminates(config) ==> StrategyReadable(config)
  {
    StrategyAt(config);
    hide At;
  }

  lemma QueueUpdateIff(c: Change, patch: Patch, fleet: Fleet)
    ensures QueueUpdateStrategyCheck(c, patch, fleet) == Allow <==> QueueStrategyAllows(c, patch, fleet)
    ensures QueueUpdateStrategyCheck(c, patch, fleet) == Raise <==>
            fleet.capacity && BelowQueue(c) && !StrategyReadable(patch.target)
  {
    StrategyIff(patch.target);
    hide StrategySet, SetsStrategy, StrategyReadable, Terminates;
  }

  lemma MaxCountIff(c: Change, parsers: Parsers)
    ensures MaxCountCheck(c, parsers) == Allow <==> KeepsMaximum(c, parsers)
    ensures MaxCountCheck(c, parsers) == Raise <==> MaxUnreadable(c, parsers)
  {
    var before, after := Number(c.oldValue, 10, parsers), Number(c.newValue, 10, parsers);
    if before.Some? && after.Some? {
      assert MaxCounts(c, parsers, before.value, after.value);
    }
  }

  lemma {:induction false} SiblingIff(path: Path, cs: seq<Change>)
    ensures SiblingMaxCount(path, cs).None? ==>
              forall i :: 0 <= i < |cs| ==> !(cs[i].path == path && cs[i].key == "MaxCount")
    ensures SiblingMaxCount(path, cs).Some? ==> exists k :: FirstMaxCount(cs, path, k) && SiblingMaxCount(path, cs).value == cs[k]
    decreases |cs|
  {
    if cs != [] {
      if cs[0].path == path && cs[0].key == "MaxCount" {
        assert FirstMaxCount(cs, path, 0);
      } else {
        SiblingIff(path, cs[1..]);
        assert forall i :: 0 < i < |cs| ==> cs[i] == cs[1..][i - 1];
        if SiblingMaxCount(path, cs).Some? {
          var k :| FirstMaxCount(cs[1..], path, k) && SiblingMaxCount(path, cs[1..]).value == cs[1..][k];
          assert FirstMaxCount(cs, path, k + 1);
        }
      }
    }
  }

  lemma MinCountIff(c: Change, cs: seq<Change>, parsers: Parsers)
    ensures MinCountCheck(c, cs, parsers) == Allow <==> MaximumFollows(c, cs, parsers)
    ensures MinCountCheck(c, cs, parsers) == Raise <==> MinUnreadable(c, cs, parsers)
  {
    SiblingIff(c.path, cs);
    hide SiblingMaxCount;
    if SiblingMaxCount(c.path, cs).Some? {
      var k :| FirstMaxCount(cs, c.path, k) && SiblingMaxCount(c.path, cs).value == cs[k];
      forall i | FirstMaxCount(cs, c.path, i)
        ensures i == k
      {
      }
      var other := cs[k];
      var a, b := Number(other.oldValue, 10, parsers), Number(other.newValue, 10, parsers);
      var d, e := Number(c.oldValue, 0, parsers), Number(c.newValue, 0, parsers);
      if a.Some? && b.Some? && d.Some? && e.Some? {
        assert MaxCounts(other, parsers, a.value, b.value) && MinCounts(c, parsers, d.value, e.value);
      }
    }
  }

  lemma ResizeIff(c: Change, patch: Patch, fleet: Fleet, parsers: Parsers)
    ensures ResizeCheck(c, patch, fleet, parsers) == Allow <==> ResizeAllows(c, patch, fleet, parsers)
    ensures ResizeCheck(c, patch, fleet, parsers) == Raise <==> ResizeRaises(c, patch, fleet, parsers)
  {
    StrategyIff(patch.target);
    MaxCountIff(c, parsers);
    MinCountIff(c, patch.changes, parsers);
    hide StrategyTerminate, StrategySet, SetsStrategy, Terminates, StrategyReadable, MaxCountCheck, MinCountCheck,
      KeepsMaximum, MaximumFollows, MaxUnreadable, MinUnreadable;
  }

  lemma {:induction false} AllMembersIff(values: seq<Json>, container: Json)
    ensures AllMembers(values, container) == Allow <==>
            forall k :: 0 <= k < |values| ==> Contains(container, values[k])
    ensures AllMembers(values, container) == Raise <==>
            exists k :: 0 <= k < |values| && CannotHold(container, values[k])
                        && forall i :: 0 <= i < k ==> Contains(container, values[i])
    decreases |values|
  {
    if values != [] {
      AllMembersIff(values[1..], container);
      assert forall k :: 0 < k < |values| ==> values[k] == values[1..][k - 1];
      assert forall k :: 0 <= k < |values[1..]| ==> values[1..][k] == values[k + 1];
      MemberIff(values[0], container);
      hide Member, Contains, CannotHold;
      if k :| 0 <= k < |values[1..]| && CannotHold(container, values[1..][k])
              && forall i :: 0 <= i < k ==> Contains(container, values[1..][i]) {
        if Contains(container, values[0]) {
          assert CannotHold(container, values[k + 1]);
          assert forall i :: 0 <= i < k + 1 ==> Contains(container, values[i]);
        }
      }
      if k :| 0 < k < |values| && CannotHold(container, values[k]) && forall i :: 0 <= i < k ==> Contains(container, values[i]) {
        assert CannotHold(container, values[1..][k - 1]);
        assert forall i :: 0 <= i < k - 1 ==> Contains(container, values[1..][i]);
      }
    }
  }

  lemma MemberIff(v: Json, container: Json)
    ensures Member(v, container) == Some(true) <==> Contains(container, v)
    ensures Member(v, container) == None <==> CannotHold(container, v)
  {
  }

  lemma QueueOnRemoveIff(c: Change, patch: Patch, fleet: Fleet)
    ensures QueueStrategyOnRemoveCheck(c, patch, fleet) == Allow <==>
            || !fleet.capacity
            || (BelowQueue(c)
                && (SetsStrategy(patch.target) || (StrategyReadable(patch.target) && KeepsAll(c.oldValue, c.newValue))))
    ensures QueueStrategyOnRemoveCheck(c, patch, fleet) == Raise <==>
            && fleet.capacity && BelowQueue(c)
            && (!StrategyReadable(patch.target) || (!SetsStrategy(patch.target) && AskingRaises(c.oldValue, c.newValue)))
  {
    StrategyIff(patch.target);
    if c.oldValue.Leaf? && c.oldValue.v.Arr? && c.newValue.Leaf? {
      AllMembersIff(c.oldValue.v.elems, c.newValue.v);
    }
    hide StrategySet, SetsStrategy, Terminates, StrategyReadable, AllMembers, Contains, CannotHold;
  }

  lemma ManagedNames(config: Node)
    ensures ManagedFsxNames(config).Some? <==> StorageReadable(config)
    ensures ManagedFsxNames(config).Some? ==>
              forall name :: name in ManagedFsxNames(config).value <==>
                exists it :: it in ListOf(config, "SharedStorage") && ManagedFileSystem(it) && Get(it.body, "Name") == name
  {
    var items := ListOf(config, "SharedStorage");
    assert forall i :: 0 <= i < |items| ==> items[i] in items;
    if ManagedFsxNames(config).Some? {
      forall name
        ensures name in ManagedFsxNames(config).value <==>
                exists it :: it in items && ManagedFileSystem(it) && Get(it.body, "Name") == name
      {
        if it :| it in items && ManagedFileSystem(it) && Get(it.body, "Name") == name {
          var i :| 0 <= i < |items| && items[i] == it;
        }
      }
    }
  }

  lemma ManagedFsxIff(c: Change, patch: Patch, fleet: Fleet)
    ensures ManagedFsxCheck(c, patch, fleet) == Allow <==> ManagedFsxAllows(c, patch, fleet)
    ensures ManagedFsxCheck(c, patch, fleet) == Raise <==> ManagedFsxRaises(c, patch, fleet)
  {
    ManagedNames(patch.base);
    ManagedNames(patch.target);
    QueueOnRemoveIff(c, patch, fleet);
    hide ManagedFsxNames, QueueStrategyOnRemoveCheck, StorageReadable, ManagedFileSystem, BelowQueue, KeepsAll, AskingRaises,
      SetsStrategy, StrategyReadable;
    if StorageReadable(patch.base) && StorageReadable(patch.target) {
      var before, after := ManagedFsxNames(patch.base).value, ManagedFsxNames(patch.target).value;
      if before * after != {} {
        var name :| name in before * after;
        assert name in before && name in after;
      }
      if SharesFileSystem(patch.base, patch.target) {
        var b, t :| b in ListOf(patch.base, "SharedStorage") && t in ListOf(patch.target, "SharedStorage")
                   && ManagedFileSystem(b) && ManagedFileSystem(t) && Get(b.body, "Name") == Get(t.body, "Name");
        assert Get(b.body, "Name") in before && Get(b.body, "Name") in after;
        assert Get(b.body, "Name") in before * after;
      }
    }
  }

  lemma LiveIff(c: Change)
    ensures LiveUpdate(c).Some? <==> IsStorage(c)
    ensures LiveUpdate(c) == Some(true) <==> IsLive(c)
  {
    if Subject(c).Sec? {
      var kind := Get(Subject(c).body, "StorageType");
      assert Child(Subject(c).body, Text(kind) + "Settings") == Settings(Subject(c).body);
      assert kind in LIVE_UPDATE_TYPES <==>
             kind.Leaf? && kind.v in { Str("Efs"), Str("FsxLustre"), Str("FsxOntap"), Str("FsxOpenZfs"), Str("FileCache") };
    }
  }

  lemma HomeIff(c: Change)
    ensures HomeChange(c) == Some(false) <==> LeavesHome(c)
    ensures HomeChange(c).None? <==> HomeUnreadable(c)
  {
  }

  lemma StorageIff(c: Change, patch: Patch, fleet: Fleet, kept: Option<bool>)
    ensures SharedStorageCheck(c, patch, fleet, kept).verdict == Allow <==> StorageAllows(c, patch, fleet, kept)
    ensures SharedStorageCheck(c, patch, fleet, kept).verdict == Raise <==> StorageRaises(c, patch, fleet, kept)
  {
    LiveIff(c);
    HomeIff(c);
    StrategyIff(patch.target);
    hide LiveUpdate, HomeChange, StrategySet, StrategyTerminate, IsLive, IsStorage, LeavesHome, HomeUnreadable,
      SetsStrategy, Terminates, StrategyReadable;
    assert IsLive(c) ==> IsStorage(c);
  }

  lemma {:induction false} PoolIff(path: Path, pool: string)
    ensures PoolName(path) == Some(pool) <==> PoolIs(path, pool)
    decreases |path|
  {
    hide Search, ExtractTypeAndName;
    if path != [] {
      var rest := path[1..];
      assert forall i :: 0 <= i < |rest| ==> rest[i] == path[i + 1];
      assert forall i :: 0 < i < |path| ==> path[i] == rest[i - 1];
      if Search("Pools[", path[0]) {
        assert FirstPool(path, 0);
        assert forall i :: FirstPool(path, i) ==> i == 0;
      } else {
        PoolIff(rest, pool);
        forall i | 0 <= i
          ensures FirstPool(path, i + 1) <==> FirstPool(rest, i)
        {
        }
        assert !FirstPool(path, 0);
        if i :| FirstPool(rest, i) && ExtractTypeAndName(rest[i]).Some? && ExtractTypeAndName(rest[i]).value.1 == pool {
          assert FirstPool(path, i + 1);
        }
        if i :| FirstPool(path, i) && ExtractTypeAndName(path[i]).Some? && ExtractTypeAndName(path[i]).value.1 == pool {
          assert FirstPool(rest, i - 1);
        }
      }
    }
  }

  lemma LoginIff(fleet: Fleet, pool: string, kept: Option<bool>)
    ensures LoginRunning(fleet, pool, kept) == Some(false) <==> LoginStopped(fleet, pool, kept)
    ensures LoginRunning(fleet, pool, kept).Some? <==> pool == "" || pool in fleet.pools
  {
  }

  lemma ParsedIs(v: Node, parsers: Parsers)
    ensures Attributes(v, parsers) == Parsed(v, parsers)
  {
  }

  lemma ExtraChefIff(c: Change, parsers: Parsers)
    ensures ExtraChefCheck(c, parsers) == Allow <==> OnlyUpdatable(Parsed(c.oldValue, parsers), Parsed(c.newValue, parsers))
    ensures ExtraChefCheck(c, parsers) == Raise <==> !Parsed(c.oldValue, parsers).Obj? || !Parsed(c.newValue, parsers).Obj?
  {
    ParsedIs(c.oldValue, parsers);
    ParsedIs(c.newValue, parsers);
    hide Attributes, Parsed;
    var before, after := Parsed(c.oldValue, parsers), Parsed(c.newValue, parsers);
    if before.Obj? && after.Obj? {
      forall p
        ensures p in DictionaryDiff.Diff(before, after, "") <==>
                exists ks :: ks != [] && DictionaryDiff.Dotted("", ks) == p && DictionaryDiff.Differs(before, after, ks)
      {
        DictionaryDiff.DiffExact(before, after, p);
      }
      hide DictionaryDiff.Diff, DictionaryDiff.Differs, DictionaryDiff.Dotted;
      var reported := DictionaryDiff.Diff(before, after, "");
      assert ExtraChefCheck(c, parsers) == Decide(reported <= EXTRA_CHEF_UPDATABLE);
      if reported <= EXTRA_CHEF_UPDATABLE {
        forall ks | ks != [] && DictionaryDiff.Differs(before, after, ks)
          ensures DictionaryDiff.Dotted("", ks) in EXTRA_CHEF_UPDATABLE
        {
          assert DictionaryDiff.Dotted("", ks) in reported;
        }
      }
      if OnlyUpdatable(before, after) {
        forall p | p in reported
          ensures p in EXTRA_CHEF_UPDATABLE
        {
          var ks :| ks != [] && DictionaryDiff.Dotted("", ks) == p && DictionaryDiff.Differs(before, after, ks);
        }
      }
    }
  }

  /** Every policy, every change, every state of the cluster, and every kept answer about login nodes: when the check
      succeeds, when it raises, and when it fails outright; otherwise an action is needed. */
  lemma OutcomeIff(c: Change, patch: Patch, fleet: Fleet, parsers: Parsers, kept: Option<bool>)
    ensures Check(c, patch, fleet, parsers, kept).0 == Some(SUCCEEDED) <==> Passes(c, patch, fleet, parsers, kept)
    ensures Check(c, patch, fleet, parsers, kept).0 == None <==> Raises(c, patch, fleet, parsers, kept)
    ensures Check(c, patch, fleet, parsers, kept).0 == Some(FAILED) <==> c.policy == Unknown || c.policy == Unsupported
  {
    if HasChecker(c.policy) {
      VerdictIff(c, patch, fleet, parsers, kept);
      hide Condition, Passes, Raises;
    }
  }

  lemma VerdictIff(c: Change, patch: Patch, fleet: Fleet, parsers: Parsers, kept: Option<bool>)
    requires HasChecker(c.policy)
    ensures Condition(c.policy, c, patch, fleet, parsers, kept).verdict == Allow <==> Passes(c, patch, fleet, parsers, kept)
    ensures Condition(c.policy, c, patch, fleet, parsers, kept).verdict == Raise <==> Raises(c, patch, fleet, parsers, kept)
  {
    hide ExtraChefCheck, OnlyUpdatable, ResizeCheck, ResizeAllows, ResizeRaises, SharedStorageCheck, StorageAllows,
      StorageRaises, ManagedFsxCheck, ManagedFsxAllows, ManagedFsxRaises, QueueUpdateStrategyCheck, QueueStrategyAllows,
      IsManagedDeletion, PoolName, PoolIs, LoginStopped, LoginRunning, SetsStrategy, StrategyReadable, Parsed;
    match c.policy
    case ExtraChefAttributes => ExtraChefIff(c, parsers);
    case QueueUpdateStrategy => QueueUpdateIff(c, patch, fleet);
    case ManagedPlacementGroup => GroupIff(c, patch, fleet);
    case ResizeUpdateStrategyOnRemove => ResizeIff(c, patch, fleet, parsers);
    case SharedStorageUpdate => StorageIff(c, patch, fleet, kept);
    case ManagedFsx => ManagedFsxIff(c, patch, fleet);
    case LoginNodesPoolStop => PoolStopIff(c, patch, fleet, parsers, kept);
    case LoginNodesPools => LoginIff(fleet, "", kept);
    case LoginNodesStop => LoginIff(fleet, "", kept);
    case ComputeAndLoginNodesStop => LoginIff(fleet, "", kept);
    case ComputeFleetStopOnRemove => OnRemoveIff(c, fleet);
    case _ =>
  }

  lemma OnRemoveIff(c: Change, fleet: Fleet)
    ensures StopOnRemoveCheck(c, fleet) == Decide(!fleet.capacity || (OfQueues(c) && AddsToList(c)))
  {
  }

  lemma GroupIff(c: Change, patch: Patch, fleet: Fleet)
    ensures var deletion := IsManagedDeletion(c, patch);
            && (ManagedPlacementGroupCheck(c, patch, fleet) == Allow <==>
                  deletion.Some? && QueueStrategyAllows(c, patch, fleet) && (fleet.capacity ==> deletion == Some(false)))
            && (ManagedPlacementGroupCheck(c, patch, fleet) == Raise <==>
                  deletion.None? || (deletion == Some(false) && fleet.capacity && BelowQueue(c)
                                     && !StrategyReadable(patch.target)))
  {
    QueueUpdateIff(c, patch, fleet);
    hide IsManagedDeletion, StrategyReadable, SetsStrategy, BelowQueue;
  }

  lemma PoolStopIff(c: Change, patch: Patch, fleet: Fleet, parsers: Parsers, kept: Option<bool>)
    requires c.policy == LoginNodesPoolStop
    ensures var verdict := Condition(c.policy, c, patch, fleet, parsers, kept).verdict;
            && (verdict == Allow <==> exists pool :: PoolIs(c.path, pool) && LoginStopped(fleet, pool, kept))
            && (verdict == Raise <==> forall pool :: PoolIs(c.path, pool) ==> pool != "" && pool !in fleet.pools)
  {
    forall pool
      ensures PoolName(c.path) == Some(pool) <==> PoolIs(c.path, pool)
    {
      PoolIff(c.path, pool);
    }
    hide PoolName, PoolIs, LoginStopped, LoginRunning;
    if PoolName(c.path).Some? {
      LoginIff(fleet, PoolName(c.path).value, kept);
    }
  }
}

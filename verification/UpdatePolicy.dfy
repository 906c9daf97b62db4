/** The checkers that decide whether a recorded change may be applied, given the state of the cluster. */
module UpdatePolicy {
  import opened Values
  import opened Schema
  import opened PathText
  import DictionaryDiff

  /** What a condition checker does: it returns true, returns false, or raises. */
  datatype Verdict = Allow | Refuse | Raise

  function Decide(b: bool): Verdict { if b then Allow else Refuse }

  /** The configurations being compared and the changes found. */
  datatype Patch = Patch(base: Node, target: Node, changes: seq<Change>)

  /** The state of the cluster: whether compute capacity is running, whether login nodes are running at all and in each
      known pool, whether the head node is stopped, and whether the region is an isolated one. */
  datatype Fleet = Fleet(capacity: bool, login: bool, pools: map<string, bool>, headStopped: bool, isolated: bool)

  /** Calls into code outside this model: reading a number and reading JSON text. */
  datatype Parsers = Parsers(number: Node -> Option<int>, json: string -> Json)

  const DEFAULT_MAX_COUNT := 10
  const DEFAULT_MIN_COUNT := 0

  // ------------------------------------------------------------ reading the configurations

  predicate IsSlurmQueuesChange(c: Change) {
    exists i :: 0 <= i < |c.path| && "SlurmQueues[" <= c.path[i]
  }

  /** The last segment that contains the pattern, taken apart; the outer option is for raising. */
  function LastNamed(pattern: string, path: Path): Option<Option<(string, string)>>
    decreases |path|
  {
    if path == [] then Some(None)
    else
      match LastNamed(pattern, path[..|path| - 1])
      case None => None
      case Some(found) =>
        var segment := path[|path| - 1];
        if !Search(pattern, segment) then Some(found)
        else
          match ExtractTypeAndName(segment)
          case None => None
          case Some(pair) => Some(Some(pair))
  }

  function FirstNamed(items: seq<Item>, name: string): map<string, Node> {
    if items == [] then map[]
    else if Get(items[0].body, "Name") == Leaf(Str(name)) then items[0].body
    else FirstNamed(items[1..], name)
  }

  /** `section.get(key, {})`, used as a dictionary or iterated as a list right away. */
  function Child(section: map<string, Node>, key: string): Node {
    if key in section then section[key] else Sec(map[])
  }

  /** The item of a list with the given name, `{}` if there is none; nothing when the list cannot be iterated. */
  function NamedItem(section: map<string, Node>, key: string, name: string): Option<map<string, Node>> {
    match Child(section, key)
    case Items(items) => Some(FirstNamed(items, name))
    case Sec(m) => if m == map[] then Some(map[]) else None
    case Leaf(_) => None
  }

  /** `get_q_from_config`. */
  function QueueOf(path: Path, config: Node): Option<map<string, Node>> {
    match LastNamed("Queues[", path)
    case None => None
    case Some(None) => Some(map[])
    case Some(Some(pair)) =>
      if !config.Sec? || !Child(config.body, "Scheduling").Sec? then None
      else NamedItem(Child(config.body, "Scheduling").body, pair.0, pair.1)
  }

  /** `get_cr_from_config`. */
  function ResourceOf(path: Path, config: Node): Option<map<string, Node>> {
    match LastNamed("ComputeResources[", path)
    case None => None
    case Some(None) => Some(map[])
    case Some(Some(pair)) =>
      match QueueOf(path, config)
      case None => None
      case Some(queue) => NamedItem(queue, pair.0, pair.1)
  }

  /** `is_placement_group_managed_for_compute_resource` on two `Networking` sections. */
  function IsManaged(queueNetworking: Node, resourceNetworking: Node): Option<bool> {
    if !resourceNetworking.Sec? then None
    else
      var own := Get(resourceNetworking.body, "PlacementGroup");
      if Truthy(own) then GroupManaged(own)
      else if !queueNetworking.Sec? then None
      else GroupManaged(Get(queueNetworking.body, "PlacementGroup"))
  }

  function GroupManaged(group: Node): Option<bool> {
    if !Truthy(group) then Some(false)
    else if !group.Sec? then None
    else Some(Truthy(Get(group.body, "Enabled")) && !Truthy(Get(group.body, "Name")) && !Truthy(Get(group.body, "Id")))
  }

  /** Whether the placement group of the change's compute resource is managed in a configuration. */
  function ManagedIn(path: Path, config: Node): Option<bool> {
    match (QueueOf(path, config), ResourceOf(path, config))
    case (Some(queue), Some(resource)) => IsManaged(Child(queue, "Networking"), Child(resource, "Networking"))
    case _ => None
  }

  /** `is_managed_placement_group_deletion`. */
  function IsManagedDeletion(c: Change, patch: Patch): Option<bool> {
    if QueueOf(c.path, patch.target).None? || ResourceOf(c.path, patch.target).None? then None
    else
      match ManagedIn(c.path, patch.base)
      case None => None
      case Some(false) => Some(false)
      case Some(true) =>
        match ManagedIn(c.path, patch.target)
        case None => None
        case Some(managed) => Some(!managed)
  }

  /** `target_config.get("Scheduling").get("SlurmSettings", {}).get("QueueUpdateStrategy", "COMPUTE_FLEET_STOP")`. */
  function Strategy(target: Node): Option<Node> {
    if !target.Sec? || !Get(target.body, "Scheduling").Sec? then None
    else
      var settings := Child(Get(target.body, "Scheduling").body, "SlurmSettings");
      if !settings.Sec? then None
      else if "QueueUpdateStrategy" in settings.body then Some(settings.body["QueueUpdateStrategy"])
      else Some(Leaf(Str("COMPUTE_FLEET_STOP")))
  }

  /** The strategy is set to something other than the default. */
  function StrategySet(target: Node): Verdict {
    match Strategy(target)
    case None => Raise
    case Some(strategy) => Decide(strategy != Leaf(Str("COMPUTE_FLEET_STOP")))
  }

  function StrategyTerminate(target: Node): Verdict {
    match Strategy(target)
    case None => Raise
    case Some(strategy) => Decide(strategy == Leaf(Str("TERMINATE")))
  }

  /** `get_managed_fsx_from_config`, as the names. */
  function ManagedFsxNames(config: Node): Option<set<Node>> {
    if !config.Sec? then None
    else
      match Child(config.body, "SharedStorage")
      case Items(items) =>
        if exists i :: 0 <= i < |items| && IsFsxLustre(items[i]) && !Child(items[i].body, "FsxLustreSettings").Sec? then None
        else Some(set i | 0 <= i < |items| && IsFsxLustre(items[i])
                          && "FileSystemId" !in Child(items[i].body, "FsxLustreSettings").body :: Get(items[i].body, "Name"))
      case Sec(m) => if m == map[] then Some({}) else None
      case Leaf(_) => None
  }

  predicate IsFsxLustre(it: Item) { Get(it.body, "StorageType") == Leaf(Str("FsxLustre")) }

  // ------------------------------------------------------------ compute fleet policies

  /** `condition_checker_queue_update_strategy`. */
  function QueueUpdateStrategyCheck(c: Change, patch: Patch, fleet: Fleet): Verdict {
    if !fleet.capacity then Allow
    else if IsSlurmQueuesChange(c) then StrategySet(patch.target)
    else Refuse
  }

  /** `condition_checker_compute_fleet_stop_on_remove`. */
  function StopOnRemoveCheck(c: Change, fleet: Fleet): Verdict {
    Decide(!fleet.capacity
           || (c.isList && (IsSlurmQueuesChange(c) || c.key == "SlurmQueues")
               && c.oldValue == NONE && c.newValue != NONE))
  }

  function ToInt(v: Node, default: int, parsers: Parsers): Option<int> {
    if v == NONE then Some(default) else parsers.number(v)
  }

  /** The change of the sibling `MaxCount` that the loop finds first. */
  function SiblingMaxCount(path: Path, changes: seq<Change>): Option<Change> {
    if changes == [] then None
    else if changes[0].path == path && changes[0].key == "MaxCount" then Some(changes[0])
    else SiblingMaxCount(path, changes[1..])
  }

  function MaxCountCheck(c: Change, parsers: Parsers): Verdict {
    match (ToInt(c.newValue, DEFAULT_MAX_COUNT, parsers), ToInt(c.oldValue, DEFAULT_MAX_COUNT, parsers))
    case (Some(newMax), Some(oldMax)) => Decide(newMax >= oldMax)
    case _ => Raise
  }

  function MinCountCheck(c: Change, changes: seq<Change>, parsers: Parsers): Verdict {
    match SiblingMaxCount(c.path, changes)
    case None => Refuse
    case Some(other) =>
      match (ToInt(other.newValue, DEFAULT_MAX_COUNT, parsers), ToInt(other.oldValue, DEFAULT_MAX_COUNT, parsers),
             ToInt(c.newValue, DEFAULT_MIN_COUNT, parsers), ToInt(c.oldValue, DEFAULT_MIN_COUNT, parsers))
      case (Some(newMax), Some(oldMax), Some(newMin), Some(oldMin)) => Decide(newMax - oldMax >= newMin - oldMin)
      case _ => Raise
  }

  /** `condition_checker_resize_update_strategy_on_remove`. */
  function ResizeCheck(c: Change, patch: Patch, fleet: Fleet, parsers: Parsers): Verdict {
    var inQueue := if fleet.capacity && (IsSlurmQueuesChange(c) || c.key == "SlurmQueues")
                   then StrategyTerminate(patch.target) else Decide(!fleet.capacity);
    if inQueue != Refuse then inQueue
    else if (IsSlurmQueuesChange(c) || c.key == "SlurmQueues") && c.isList && c.oldValue == NONE && c.newValue != NONE
    then Allow
    else if c.key == "MaxCount" then MaxCountCheck(c, parsers)
    else if c.key == "MinCount" then MinCountCheck(c, patch.changes, parsers)
    else Refuse
  }

  /** `value in container`. */
  function Member(v: Json, container: Json): Option<bool> {
    match container
    case Arr(a) => Some(v in a)
    case Obj(m) => Some(v.Str? && v.s in m)
    case Str(s) => if v.Str? then Some(Search(v.s, s)) else None
    case _ => None
  }

  /** `all(value in container for value in values)`. */
  function AllMembers(values: seq<Json>, container: Json): Verdict {
    if values == [] then Allow
    else
      match Member(values[0], container)
      case None => Raise
      case Some(b) => if b then AllMembers(values[1..], container) else Refuse
  }

  /** `condition_checker_queue_update_strategy_on_remove`. */
  function QueueStrategyOnRemoveCheck(c: Change, patch: Patch, fleet: Fleet): Verdict {
    if !fleet.capacity then Allow
    else if !IsSlurmQueuesChange(c) then Refuse
    else if StrategySet(patch.target) != Refuse then StrategySet(patch.target)
    else if c.oldValue.Leaf? && c.oldValue.v.Arr? then
      if c.newValue.Leaf? then AllMembers(c.oldValue.v.elems, c.newValue.v) else Raise
    else Refuse
  }

  /** `condition_checker_managed_placement_group`. */
  function ManagedPlacementGroupCheck(c: Change, patch: Patch, fleet: Fleet): Verdict {
    match IsManagedDeletion(c, patch)
    case None => Raise
    case Some(deletion) =>
      if deletion && fleet.capacity then Refuse else QueueUpdateStrategyCheck(c, patch, fleet)
  }

  /** `condition_checker_managed_fsx`. */
  function ManagedFsxCheck(c: Change, patch: Patch, fleet: Fleet): Verdict {
    match (ManagedFsxNames(patch.base), ManagedFsxNames(patch.target))
    case (Some(before), Some(after)) =>
      if before * after != {} then Refuse else QueueStrategyOnRemoveCheck(c, patch, fleet)
    case _ => Raise
  }

  // ------------------------------------------------------------ shared storage

  predicate IsHome(n: Node) { n == Leaf(Str("home")) || n == Leaf(Str("/home")) }

  /** `is_home_change`; reading the mount directory of something that is no dictionary raises. */
  function HomeChange(c: Change): Option<bool> {
    if c.key != "SharedStorage" then Some(false)
    else if Truthy(c.oldValue) && !c.oldValue.Sec? then None
    else if Truthy(c.oldValue) && IsHome(Entry(c.oldValue, "MountDir")) then Some(true)
    else if Truthy(c.newValue) && !c.newValue.Sec? then None
    else Some(Truthy(c.newValue) && IsHome(Entry(c.newValue, "MountDir")))
  }

  const LIVE_UPDATE_TYPES: set<Node> :=
    { Leaf(Str("Efs")), Leaf(Str("FsxLustre")), Leaf(Str("FsxOntap")), Leaf(Str("FsxOpenZfs")), Leaf(Str("FileCache")) }

  /** `SharedStorageChangeInfo(change)`: the storage is external and of a type that can be updated live. */
  function LiveUpdate(c: Change): Option<bool> {
    var item := if c.newValue != NONE then c.newValue else c.oldValue;
    if !item.Sec? then None
    else
      var kind := Get(item.body, "StorageType");
      var settings := Child(item.body, Text(kind) + "Settings");
      if !settings.Sec? then None
      else Some(kind in LIVE_UPDATE_TYPES
                && ("VolumeId" in settings.body || "FileSystemId" in settings.body || "FileCacheId" in settings.body))
  }

  // ------------------------------------------------------------ login nodes

  /** `has_running_login_nodes`: the first answer is kept and given to every later question, whatever pool it asks
      about. An unknown pool raises. */
  function LoginRunning(fleet: Fleet, pool: string, cache: Option<bool>): Option<bool> {
    if pool != "" && pool !in fleet.pools then None
    else if cache.Some? then cache
    else Some(if pool == "" then fleet.login else fleet.pools[pool])
  }

  /** `get_pool_name_from_change_paths`: the first pool segment, or the empty name. */
  function PoolName(path: Path): Option<string> {
    if path == [] then Some("")
    else if Search("Pools[", path[0]) then
      match ExtractTypeAndName(path[0])
      case None => None
      case Some(pair) => Some(pair.1)
    else PoolName(path[1..])
  }

  /** A verdict and the kept answer about login nodes afterwards. */
  datatype Checked = Checked(verdict: Verdict, cache: Option<bool>)

  function IfLoginStopped(fleet: Fleet, pool: string, cache: Option<bool>, stopped: Verdict, running: Verdict): Checked {
    match LoginRunning(fleet, pool, cache)
    case None => Checked(Raise, cache)
    case Some(answer) => Checked(if answer then running else stopped, Some(answer))
  }

  /** `condition_checker_shared_storage_update_policy`. */
  function SharedStorageCheck(c: Change, patch: Patch, fleet: Fleet, cache: Option<bool>): Checked {
    match HomeChange(c)
    case None => Checked(Raise, cache)
    case Some(true) => Checked(Refuse, cache)
    case Some(false) =>
      var compute := if !fleet.capacity then Allow else
                       match LiveUpdate(c)
                       case None => Raise
                       case Some(live) => if live then Allow else StrategySet(patch.target);
      IfLoginStopped(fleet, "", cache, compute,
                     match LiveUpdate(c)
                     case None => Raise
                     case Some(live) => if live then compute else Refuse)
  }

  // ------------------------------------------------------------ extra chef attributes

  const EXTRA_CHEF_UPDATABLE: set<string> :=
    { "cluster.slurm.reconfigure_timeout",
      "cluster.cluster_readiness_check_enabled",
      "cluster.cluster_readiness_check_ignore_failure" }

  /** The parsed attributes, `{}` when there are none or they do not parse. */
  function Attributes(v: Node, parsers: Parsers): Json {
    var parsed := if Truthy(v) && v.Leaf? && v.v.Str? then parsers.json(v.v.s) else Obj(map[]);
    if TruthyJson(parsed) then parsed else Obj(map[])
  }

  /** `condition_checker_extra_chef_attributes`. */
  function ExtraChefCheck(c: Change, parsers: Parsers): Verdict {
    var before, after := Attributes(c.oldValue, parsers), Attributes(c.newValue, parsers);
    if !before.Obj? || !after.Obj? then Raise
    else Decide(DictionaryDiff.Diff(before, after, "") <= EXTRA_CHEF_UPDATABLE)
  }

  // ------------------------------------------------------------ UpdatePolicy.check

  predicate HasChecker(p: Policy) { p != Unknown && p != Unsupported }

  /** The condition checker of each policy. */
  function Condition(p: Policy, c: Change, patch: Patch, fleet: Fleet, parsers: Parsers, cache: Option<bool>): Checked
    requires HasChecker(p)
  {
    match p
    case Ignored => Checked(Allow, cache)
    case Supported => Checked(Allow, cache)
    case ExtraChefAttributes => Checked(ExtraChefCheck(c, parsers), cache)
    case QueueUpdateStrategy => Checked(QueueUpdateStrategyCheck(c, patch, fleet), cache)
    case ResizeUpdateStrategyOnRemove => Checked(ResizeCheck(c, patch, fleet, parsers), cache)
    case ManagedPlacementGroup => Checked(ManagedPlacementGroupCheck(c, patch, fleet), cache)
    case SharedStorageUpdate => SharedStorageCheck(c, patch, fleet, cache)
    case ComputeFleetStopOnRemove => Checked(StopOnRemoveCheck(c, fleet), cache)
    case ComputeFleetStop => Checked(Decide(!fleet.capacity), cache)
    case HeadNodeStop => Checked(Decide(fleet.headStopped), cache)
    case ReadOnlyResourceBucket => Checked(Refuse, cache)
    case SupportedUnlessAdc => Checked(Decide(!fleet.isolated), cache)
    case ManagedFsx => Checked(ManagedFsxCheck(c, patch, fleet), cache)
    case LoginNodesPools =>
      IfLoginStopped(fleet, "", cache, Allow,
                     Decide(c.isList && c.key == "Pools" && c.oldValue == NONE && c.newValue != NONE))
    case LoginNodesStop => IfLoginStopped(fleet, "", cache, Allow, Refuse)
    case LoginNodesPoolStop =>
      (match PoolName(c.path)
       case None => Checked(Raise, cache)
       case Some(pool) => IfLoginStopped(fleet, pool, cache, Allow, Refuse))
    case ComputeAndLoginNodesStop =>
      if fleet.capacity then Checked(Refuse, cache) else IfLoginStopped(fleet, "", cache, Allow, Refuse)
  }

  datatype CheckResult = SUCCEEDED | ACTION_NEEDED | FAILED

  /** `UpdatePolicy.check`: the result, nothing when the checker raises, and the kept answer about login nodes. */
  function Check(c: Change, patch: Patch, fleet: Fleet, parsers: Parsers, cache: Option<bool>)
    : (Option<CheckResult>, Option<bool>)
  {
    if !HasChecker(c.policy) then (Some(FAILED), cache)
    else
      var checked := Condition(c.policy, c, patch, fleet, parsers, cache);
      match checked.verdict
      case Allow => (Some(SUCCEEDED), checked.cache)
      case Refuse => (Some(ACTION_NEEDED), checked.cache)
      case Raise => (None, checked.cache)
  }

  /** The line of the report for a change; succeeding ignored and read-only changes are not reported. */
  datatype Row = Row(change: Change, result: CheckResult)

  function Reported(c: Change, result: CheckResult): seq<Row> {
    if result == SUCCEEDED && (c.policy == Ignored || c.policy == ReadOnlyResourceBucket) then [] else [Row(c, result)]
  }

  /** The outcome of checking a list of changes in order: nothing when a checker raises. */
  datatype Report = Report(allowed: bool, rows: seq<Row>)

  function CheckAll(changes: seq<Change>, patch: Patch, fleet: Fleet, parsers: Parsers, cache: Option<bool>)
    : Option<Report>
    decreases |changes|
  {
    if changes == [] then Some(Report(true, []))
    else
      var (result, cache') := Check(changes[0], patch, fleet, parsers, cache);
      if result.None? then None
      else
        match CheckAll(changes[1..], patch, fleet, parsers, cache')
        case None => None
        case Some(rest) =>
          Some(Report(result.value == SUCCEEDED && rest.allowed, Reported(changes[0], result.value) + rest.rows))
  }

  /** The patch may be applied. */
  predicate Allowed(patch: Patch, fleet: Fleet, parsers: Parsers) {
    var report := CheckAll(patch.changes, patch, fleet, parsers, None);
    report.Some? && report.value.allowed
  }
}

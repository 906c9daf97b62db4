/** A fragment of the part of the cluster schema that describes queues, as written in
    cli/src/pcluster/schemas/cluster_schema.py: the fields the safety results speak of, and those a change of which can
    pop a path or is in a list of its own, with their policies and update keys. */
module QueueFragment {
  import opened Schema
  import opened PathText
  import opened DiffShape
  import opened Routes
  import opened Raising
  import opened Scripts
  import opened ResizeSafety
  import opened PlacementSafety

  const NAME := Field("Name", Param, Unsupported)

  const GROUP := Schema([ENABLED, GROUP_ID, GROUP_NAME])
  const PLACEMENT_GROUP := Field("PlacementGroup", Nested(GROUP), ManagedPlacementGroup)

  /** A custom action holds one script, or its `Sequence` of scripts under the same policy. */
  const ACTION := Schema([Field("Script", Param, QueueUpdateStrategy), Field("Args", Param, QueueUpdateStrategy)])
  const ACTIONS := Schema([Field("OnNodeStart", Nested(ACTION), QueueUpdateStrategy),
                           Field("OnNodeConfigured", Nested(ACTION), QueueUpdateStrategy)])
  const CUSTOM_ACTIONS := Field("CustomActions", Nested(ACTIONS), QueueUpdateStrategy)

  const TAG := Schema([Field("Key", Param, QueueUpdateStrategy), Field("Value", Param, QueueUpdateStrategy)])
  const TAGS := Field("Tags", Many("Key", TAG), QueueUpdateStrategy)

  const RESOURCE_NETWORKING := Schema([PLACEMENT_GROUP])
  const RESOURCE := Schema([NAME, MAX_COUNT, MIN_COUNT,
                            Field("Networking", Nested(RESOURCE_NETWORKING), ManagedPlacementGroup), TAGS])

  const QUEUE_NETWORKING := Schema([Field("SubnetIds", Param, ManagedFsx), PLACEMENT_GROUP])
  const RESOURCES := Field("ComputeResources", Many("Name", RESOURCE), ResizeUpdateStrategyOnRemove)
  const NETWORKING := Field("Networking", Nested(QUEUE_NETWORKING), QueueUpdateStrategy)
  const QUEUE := Schema([NAME, CUSTOM_ACTIONS, RESOURCES, NETWORKING, TAGS])

  const SCALING_STRATEGY := Field("ScalingStrategy", Param, Supported)
  const QUEUES := Field("SlurmQueues", Many("Name", QUEUE), ResizeUpdateStrategyOnRemove)
  const SCHEDULING := Schema([SCALING_STRATEGY, QUEUES])
  const SCHEDULING_FIELD := Field("Scheduling", Nested(SCHEDULING), Unsupported)
  const CLUSTER := Schema([SCHEDULING_FIELD])

  const GROUPS := Groups(Queues(CLUSTER, SCHEDULING, QUEUE, RESOURCE), QUEUE_NETWORKING, QueueUpdateStrategy,
                         RESOURCE_NETWORKING, GROUP)

  /** The hypotheses on keys, policies and scripts, for one section and for one field of it. */
  ghost predicate Regular(s: Schema) {
    GoodKeys(s) && KeepsPath(s, "MaxCount") && IgnoredHoldsNoList(s) && ScriptsLead(s)
  }

  ghost predicate RegularField(f: Field) {
    && Plain(f.key) && f.key != "Sequence" && f.key != "MaxCount" && f.policy != Ignored
    && match f.kind
       case Param => true
       case Nested(s) => Regular(s)
       case Many(uk, s) =>
         && Regular(s) && NoScript(s) && uk != "Script" && uk != "Sequence"
         && forall i :: 0 <= i < |s.fields| && s.fields[i].key == uk ==> s.fields[i].kind.Param?
  }

  lemma RegularSection(s: Schema)
    requires forall i, j :: 0 <= i < j < |s.fields| ==> s.fields[i].key != s.fields[j].key
    requires NoScript(s)
             || (s.fields[0].key == "Script" && forall i :: 0 <= i < |s.fields| ==> s.fields[i].kind.Param?)
    requires forall i :: 0 <= i < |s.fields| ==> KeysApart(s.fields, s.fields[i])
    requires forall i :: 0 <= i < |s.fields| ==> RegularField(s.fields[i]) || s.fields[i] == MAX_COUNT
    requires NoScript(s) || MAX_COUNT !in s.fields
    ensures Regular(s)
  {
    hide Plain;
    assert Plain("MaxCount") by { PlainKeys(); }
    forall i | 0 <= i < |s.fields|
      ensures GoodField(s.fields[i]) && FieldKeepsPath(s.fields[i], "MaxCount") && FieldIgnoredHoldsNoList(s.fields[i])
      ensures FieldScriptsLead(s.fields[i])
    {
      assert RegularField(s.fields[i]) || s.fields[i] == MAX_COUNT;
    }
  }

  lemma PlainKeys()
    ensures Plain("Name") && Plain("Enabled") && Plain("Id") && Plain("PlacementGroup") && Plain("MaxCount")
    ensures Plain("MinCount") && Plain("Networking") && Plain("SubnetIds") && Plain("ComputeResources")
    ensures Plain("ScalingStrategy") && Plain("SlurmQueues") && Plain("Scheduling")
  {
  }

  lemma PlainActionKeys()
    ensures Plain("Script") && Plain("Args") && Plain("OnNodeStart") && Plain("OnNodeConfigured")
    ensures Plain("CustomActions") && Plain("Key") && Plain("Value") && Plain("Tags")
  {
  }

  lemma GroupsRegular()
    ensures Regular(GROUP) && Regular(QUEUE_NETWORKING) && Regular(RESOURCE_NETWORKING)
  {
    PlainKeys();
    hide Plain, Regular;
    RegularSection(GROUP);
    RegularSection(RESOURCE_NETWORKING);
    RegularSection(QUEUE_NETWORKING);
  }

  /** The sections with a script hold parameters only, so that popping the path cannot produce a sibling's name. */
  lemma ActionsRegular()
    ensures Regular(ACTION) && Regular(ACTIONS) && Regular(TAG)
  {
    PlainActionKeys();
    hide Plain, Regular;
    RegularSection(ACTION);
    RegularSection(ACTIONS);
    RegularSection(TAG);
  }

  lemma ResourceRegular()
    requires Regular(RESOURCE_NETWORKING) && Regular(TAG)
    ensures Regular(RESOURCE)
  {
    PlainKeys();
    hide Plain, Regular;
    assert Plain("Tags") by { PlainActionKeys(); }
    RegularSection(RESOURCE);
  }

  lemma QueueRegular()
    requires Regular(QUEUE_NETWORKING) && Regular(RESOURCE) && Regular(ACTIONS) && Regular(TAG)
    ensures Regular(QUEUE)
  {
    assert forall i :: 0 <= i < |RESOURCE.fields| && RESOURCE.fields[i].key == "Name" ==> RESOURCE.fields[i].kind.Param?;
    PlainKeys();
    hide Plain, Regular, RESOURCE, QUEUE_NETWORKING, ACTIONS;
    assert Plain("CustomActions") && Plain("Tags") by { PlainActionKeys(); }
    RegularSection(QUEUE);
  }

  lemma QueuesRegular()
    requires Regular(QUEUE_NETWORKING) && Regular(RESOURCE_NETWORKING) && Regular(ACTIONS) && Regular(TAG)
    ensures Regular(CLUSTER) && Regular(SCHEDULING) && Regular(QUEUE) && Regular(RESOURCE)
  {
    ResourceRegular();
    QueueRegular();
    PlainKeys();
    hide Plain, Regular, RESOURCE;
    RegularSection(SCHEDULING);
    RegularSection(CLUSTER);
  }

  lemma RegularFits()
    requires Regular(CLUSTER) && Regular(SCHEDULING) && Regular(QUEUE) && Regular(RESOURCE)
    requires Regular(QUEUE_NETWORKING) && Regular(RESOURCE_NETWORKING) && Regular(GROUP)
    ensures GroupSchema(GROUPS) && IgnoredHoldsNoList(CLUSTER) && DistinctKeys(CLUSTER)
    ensures GoodKeys(CLUSTER) && ScriptsLead(CLUSTER) && NoScript(CLUSTER)
  {
    hide GoodKeys, KeepsPath, IgnoredHoldsNoList;
    GoodKeysDistinct(CLUSTER);
    assert CLUSTER.fields[0] == SCHEDULING_FIELD && SCHEDULING.fields[1] == QUEUES && QUEUE.fields[2] == RESOURCES;
    assert RESOURCE.fields[1] == MAX_COUNT && RESOURCE.fields[2] == MIN_COUNT && QUEUE.fields[3] == NETWORKING;
    assert RESOURCE.fields[3] == ResourceNetworkingField(GROUPS);
    assert RESOURCE_NETWORKING.fields[0] == PLACEMENT_GROUP && QUEUE_NETWORKING.fields[1] == PLACEMENT_GROUP;
    assert GROUP.fields[0] == ENABLED && GROUP.fields[1] == GROUP_ID && GROUP.fields[2] == GROUP_NAME;
  }

  /** The fragment meets the hypotheses of the resize and the placement group results. */
  lemma FragmentFits()
    ensures GroupSchema(GROUPS)
    ensures IgnoredHoldsNoList(CLUSTER) && DistinctKeys(CLUSTER)
    ensures GoodKeys(CLUSTER) && ScriptsLead(CLUSTER) && NoScript(CLUSTER)
  {
    hide Regular;
    GroupsRegular();
    ActionsRegular();
    QueuesRegular();
    RegularFits();
  }
}

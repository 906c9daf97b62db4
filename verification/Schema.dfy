/** The parts of a schema that the comparison reads, and the changes it records. */
module Schema {
  import opened Values

  /** The update policies of cli/src/pcluster/config/update_policy.py. */
  datatype Policy =
    | Ignored
    | Supported
    | ExtraChefAttributes
    | QueueUpdateStrategy
    | ResizeUpdateStrategyOnRemove
    | ManagedPlacementGroup
    | SharedStorageUpdate
    | ComputeFleetStopOnRemove
    | ComputeFleetStop
    | HeadNodeStop
    | ReadOnlyResourceBucket
    | Unknown
    | Unsupported
    | SupportedUnlessAdc
    | ManagedFsx
    | LoginNodesPools
    | LoginNodesStop
    | LoginNodesPoolStop
    | ComputeAndLoginNodesStop

  datatype Schema = Schema(fields: seq<Field>)

  datatype Field = Field(key: string, kind: Kind, policy: Policy)

  datatype Kind =
    | Param
    | Nested(section: Schema)
    | Many(updateKey: string, item: Schema)

  type Path = seq<string>

  datatype Change = Change(path: Path, key: string, oldValue: Node, newValue: Node, policy: Policy, isList: bool)

  /** No two fields of a section share a key, here and in every nested section. */
  ghost predicate DistinctKeys(s: Schema) {
    && (forall i, j :: 0 <= i < j < |s.fields| ==> s.fields[i].key != s.fields[j].key)
    && (forall i :: 0 <= i < |s.fields| ==> KindDistinctKeys(s.fields[i].kind))
  }

  ghost predicate KindDistinctKeys(k: Kind) {
    match k
    case Param => true
    case Nested(s) => DistinctKeys(s)
    case Many(_, s) => DistinctKeys(s)
  }

  /** The items of every list have pairwise different update-key values. */
  ghost predicate UniqueNames(s: Schema, n: Node)
    decreases s, 1
  {
    forall i :: 0 <= i < |s.fields| ==> FieldUniqueNames(s.fields[i], n)
  }

  ghost predicate FieldUniqueNames(f: Field, n: Node)
    decreases f, 0
  {
    match f.kind
    case Param => true
    case Nested(s) => UniqueNames(s, Entry(n, f.key))
    case Many(uk, s) =>
      && UniqueItemNames(ListOf(n, f.key), uk)
      && forall j :: 0 <= j < |ListOf(n, f.key)| ==> UniqueNames(s, Sec(ListOf(n, f.key)[j].body))
  }

  ghost predicate UniqueItemNames(items: seq<Item>, uk: string) {
    forall i, j :: 0 <= i < j < |items| ==> Get(items[i].body, uk) != Get(items[j].body, uk)
  }
}

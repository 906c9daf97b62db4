/** What an allowed update cannot change: the fields whose policy accepts nothing, or additions only, in the present state
    of the cluster are the same in both configurations. */
module FrozenFields {
  import opened Values
  import opened Schema
  import opened ConfigDiff
  import opened MarkedDiff
  import opened Sharing
  import opened ResizeSafety
  import opened PlacementSafety
  import opened UpdatePolicy
  import PolicyConditions

  /** The two sides agree on all fields with one of the policies, in every section that is compared. With `addable`, the
      target may have further list items. */
  ghost predicate Agree(s: Schema, b: Node, t: Node, ps: set<Policy>, addable: bool)
    decreases s, 1
  {
    forall i :: 0 <= i < |s.fields| ==> FieldAgrees(s.fields[i], b, t, ps, addable)
  }

  ghost predicate FieldAgrees(f: Field, b: Node, t: Node, ps: set<Policy>, addable: bool)
    decreases f, 1
  {
    match f.kind
    case Param => f.policy in ps ==> ReadParam(f.key, b) == ReadParam(f.key, t)
    case Nested(s) =>
      var bv, tv := Entry(b, f.key), Entry(t, f.key);
      if Traversed(f, bv, tv) then Agree(s, bv, tv, ps, addable) else f.policy in ps ==> Truthy(bv) == Truthy(tv)
    case Many(uk, s) =>
      var bs, ts := ListOf(b, f.key), ListOf(t, f.key);
      && (forall i :: 0 <= i < |ts| ==> ItemAgrees(f, uk, s, bs, ts[i], ps, addable))
      && (f.policy in ps ==> forall j :: 0 <= j < |bs| ==> Kept(bs, ts, uk, j))
  }

  ghost predicate ItemAgrees(f: Field, uk: string, s: Schema, bs: seq<Item>, t: Item, ps: set<Policy>, addable: bool)
    requires f.kind == Many(uk, s)
    decreases f, 0
  {
    var j := MatchOf(bs, uk, t);
    if j < |bs| then Agree(s, Sec(bs[j].body), Sec(t.body), ps, addable) else f.policy in ps ==> addable
  }

  predicate Addition(c: Change) { c.isList && c.oldValue == NONE && c.newValue != NONE }

  predicate Touches(c: Change, ps: set<Policy>, addable: bool) { c.policy in ps && !(addable && Addition(c)) }

  ghost predicate Untouched(cs: seq<Change>, ps: set<Policy>, addable: bool) {
    forall c :: c in cs ==> !Touches(c, ps, addable)
  }

  lemma UntouchedParts(cs: seq<Change>, ds: seq<Change>, ps: set<Policy>, addable: bool)
    ensures Untouched(cs + ds, ps, addable) <==> Untouched(cs, ps, addable) && Untouched(ds, ps, addable)
  {
    hide Touches;
    if Untouched(cs + ds, ps, addable) {
      forall c | c in cs || c in ds
        ensures !Touches(c, ps, addable)
      {
        assert c in cs + ds;
      }
    }
  }

  /** No change with one of the policies is recorded if and only if the two sides agree on the fields with these policies;
      with `addable`, no change but additions to lists. */
  lemma {:induction false} UntouchedIffAgree(s: Schema, b: Node, t: Node, path: Path, ps: set<Policy>, addable: bool)
    ensures Untouched(Diff(s, b, t, path), ps, addable) <==> Agree(s, b, t, ps, addable)
    decreases s, 1
  {
    FieldsUntouchedIff(s.fields, b, t, path, FinalPath(s.fields, b, t, path), ps, addable);
  }

  lemma {:induction false} FieldsUntouchedIff(fs: seq<Field>, b: Node, t: Node, cur: Path, fin: Path, ps: set<Policy>,
                                              addable: bool)
    ensures Untouched(DiffFields(fs, b, t, cur, fin), ps, addable) <==>
            forall i :: 0 <= i < |fs| ==> FieldAgrees(fs[i], b, t, ps, addable)
    decreases fs, 0
  {
    hide FieldAgrees, DiffField;
    if fs != [] {
      var rest := DiffFields(fs[1..], b, t, Step(fs[0], b, t, cur), fin);
      UntouchedParts(DiffField(fs[0], b, t, cur, fin), rest, ps, addable);
      hide Untouched;
      FieldUntouchedIff(fs[0], b, t, cur, fin, ps, addable);
      FieldsUntouchedIff(fs[1..], b, t, Step(fs[0], b, t, cur), fin, ps, addable);
      assert forall i :: 0 < i < |fs| ==> fs[i] == fs[1..][i - 1];
      assert forall i :: 0 <= i < |fs[1..]| ==> fs[1..][i] == fs[i + 1];
    }
  }

  lemma {:induction false} FieldUntouchedIff(f: Field, b: Node, t: Node, cur: Path, fin: Path, ps: set<Policy>,
                                             addable: bool)
    ensures Untouched(DiffField(f, b, t, cur, fin), ps, addable) <==> FieldAgrees(f, b, t, ps, addable)
    decreases f, 3
  {
    match f.kind
    case Param => ParamUntouchedIff(f, b, t, cur, fin, ps, addable);
    case Nested(s) =>
      var bv, tv := Entry(b, f.key), Entry(t, f.key);
      if Traversed(f, bv, tv) {
        UntouchedIffAgree(s, bv, tv, cur + [f.key], ps, addable);
      } else if Truthy(bv) || Truthy(tv) {
        OneUntouched(Change(fin, f.key, OrDash(bv), OrDash(tv), f.policy, false), ps, addable);
      }
    case Many(uk, s) =>
      var bs, ts := ListOf(b, f.key), ListOf(t, f.key);
      ItemsUntouchedIff(f, uk, s, bs, ts, cur, fin, ps, addable);
      RemovedUntouchedIff(f, uk, bs, ts, 0, fin, ps, addable);
      UntouchedParts(DiffItems(f, uk, s, bs, ts, cur, fin), DiffRemoved(f, uk, bs, ts, 0, fin), ps, addable);
  }

  lemma OneUntouched(c: Change, ps: set<Policy>, addable: bool)
    ensures Untouched([c], ps, addable) <==> !Touches(c, ps, addable)
  {
    assert c in [c];
  }

  lemma ParamUntouchedIff(f: Field, b: Node, t: Node, cur: Path, fin: Path, ps: set<Policy>, addable: bool)
    requires f.kind.Param?
    ensures Untouched(DiffParam(f, b, t, cur, fin), ps, addable) <==> FieldAgrees(f, b, t, ps, addable)
  {
    hide ReadParam;
    if DiffParam(f, b, t, cur, fin) != [] {
      OneUntouched(DiffParam(f, b, t, cur, fin)[0], ps, addable);
    }
  }

  lemma {:induction false} ItemsUntouchedIff(f: Field, uk: string, s: Schema, bs: seq<Item>, ts: seq<Item>, cur: Path,
                                             fin: Path, ps: set<Policy>, addable: bool)
    requires f.kind == Many(uk, s)
    ensures Untouched(DiffItems(f, uk, s, bs, ts, cur, fin), ps, addable) <==>
            forall i :: 0 <= i < |ts| ==> ItemAgrees(f, uk, s, bs, ts[i], ps, addable)
    decreases f, 1, |ts|
  {
    if ts != [] {
      ItemUntouchedIff(f, uk, s, bs, ts[0], cur, fin, ps, addable);
      ItemsUntouchedIff(f, uk, s, bs, ts[1..], cur, fin, ps, addable);
      hide ItemAgrees, DiffItem;
      UntouchedParts(DiffItem(f, uk, s, bs, ts[0], cur, fin), DiffItems(f, uk, s, bs, ts[1..], cur, fin), ps, addable);
      assert forall i :: 0 < i < |ts| ==> ts[i] == ts[1..][i - 1];
      assert forall i :: 0 <= i < |ts[1..]| ==> ts[1..][i] == ts[i + 1];
    }
  }

  lemma {:induction false} ItemUntouchedIff(f: Field, uk: string, s: Schema, bs: seq<Item>, t: Item, cur: Path,
                                            fin: Path, ps: set<Policy>, addable: bool)
    requires f.kind == Many(uk, s)
    ensures Untouched(DiffItem(f, uk, s, bs, t, cur, fin), ps, addable) <==> ItemAgrees(f, uk, s, bs, t, ps, addable)
    decreases f, 0
  {
    var j := MatchOf(bs, uk, t);
    if j < |bs| {
      UntouchedIffAgree(s, Sec(bs[j].body), Sec(t.body), cur + [Segment(f.key, Get(t.body, uk))], ps, addable);
    } else {
      OneUntouched(Added(fin, f, t), ps, addable);
    }
  }

  lemma {:induction false} RemovedUntouchedIff(f: Field, uk: string, bs: seq<Item>, ts: seq<Item>, j: nat, fin: Path,
                                               ps: set<Policy>, addable: bool)
    requires j <= |bs|
    ensures Untouched(DiffRemoved(f, uk, bs, ts, j, fin), ps, addable) <==>
            (f.policy in ps ==> forall k :: j <= k < |bs| ==> Kept(bs, ts, uk, k))
    decreases |bs| - j
  {
    hide Kept;
    if j < |bs| {
      RemovedUntouchedIff(f, uk, bs, ts, j + 1, fin, ps, addable);
      var here := if Kept(bs, ts, uk, j) then [] else [RemovedItem(fin, f, bs[j])];
      UntouchedParts(here, DiffRemoved(f, uk, bs, ts, j + 1, fin), ps, addable);
      OneUntouched(RemovedItem(fin, f, bs[j]), ps, addable);
    }
  }

  // ------------------------------------------------------------ what the checkers forbid

  /** No checker lets a change with one of the policies through, but for additions to lists if `addable`. */
  ghost predicate Forbidden(ps: set<Policy>, addable: bool, patch: Patch, fleet: Fleet, parsers: Parsers) {
    forall c, cache :: Touches(c, ps, addable) && HasChecker(c.policy) ==>
                         Condition(c.policy, c, patch, fleet, parsers, cache).verdict != Allow
  }

  /** An allowed patch leaves what is forbidden as it is. */
  lemma AllowedFreezes(s: Schema, patch: Patch, fleet: Fleet, parsers: Parsers, ps: set<Policy>, addable: bool)
    requires Allowed(patch, fleet, parsers) && Forbidden(ps, addable, patch, fleet, parsers)
    requires patch.changes == Diff(s, patch.base, patch.target, [])
    ensures Agree(s, patch.base, patch.target, ps, addable)
  {
    hide Diff, Agree;
    forall c | c in patch.changes
      ensures !Touches(c, ps, addable)
    {
      hide Condition, Touches;
      EachPasses(patch.changes, patch, fleet, parsers, None, c);
    }
    UntouchedIffAgree(s, patch.base, patch.target, [], ps, addable);
  }

  /** The same for the changes the comparison records, when it overlooks no removal. */
  lemma AllowedUpdateFreezes(s: Schema, patch: Patch, fleet: Fleet, parsers: Parsers, ps: set<Policy>, addable: bool,
                             marks: set<nat>)
    requires WalkSection(s, patch.base, patch.target, [], {}) == Walked(patch.changes, marks)
    requires !Overlooks(Events(s, patch.base, patch.target), {})
    requires Allowed(patch, fleet, parsers) && Forbidden(ps, addable, patch, fleet, parsers)
    ensures Agree(s, patch.base, patch.target, ps, addable)
  {
    hide Allowed, Forbidden, Agree, Diff;
    RecordsIntendedIff(s, patch.base, patch.target, [], {});
    AllowedFreezes(s, patch, fleet, parsers, ps, addable);
  }

  /** What is forbidden in which state. */
  lemma FrozenPolicies(patch: Patch, fleet: Fleet, parsers: Parsers)
    ensures Forbidden({Unsupported, Unknown, ReadOnlyResourceBucket}, false, patch, fleet, parsers)
    ensures fleet.capacity ==> Forbidden({ComputeFleetStop, ComputeAndLoginNodesStop}, false, patch, fleet, parsers)
    ensures fleet.capacity ==> Forbidden({ComputeFleetStopOnRemove}, true, patch, fleet, parsers)
    ensures fleet.capacity && !PolicyConditions.SetsStrategy(patch.target) ==>
              Forbidden({QueueUpdateStrategy}, false, patch, fleet, parsers)
    ensures !fleet.headStopped ==> Forbidden({HeadNodeStop}, false, patch, fleet, parsers)
    ensures fleet.isolated ==> Forbidden({SupportedUnlessAdc}, false, patch, fleet, parsers)
    ensures PolicyConditions.SharesFileSystem(patch.base, patch.target) ==> Forbidden({ManagedFsx}, false, patch, fleet, parsers)
  {
    hide Condition, PolicyConditions.SetsStrategy, PolicyConditions.SharesFileSystem, PolicyConditions.StorageReadable;
    forall c: Change, cache | HasChecker(c.policy)
      ensures Condition(c.policy, c, patch, fleet, parsers, cache).verdict == Allow <==>
              PolicyConditions.Passes(c, patch, fleet, parsers, cache)
    {
      PolicyConditions.OutcomeIff(c, patch, fleet, parsers, cache);
    }
  }

  // ------------------------------------------------------------ managed file systems

  /** A managed file system that both configurations have under one name. */
  ghost predicate KeptFileSystem(patch: Patch, b: Item, t: Item) {
    && b in ListOf(patch.base, "SharedStorage") && t in ListOf(patch.target, "SharedStorage")
    && PolicyConditions.ManagedFileSystem(b) && PolicyConditions.ManagedFileSystem(t) && Name(b) == Name(t)
  }

  lemma KeptIsShared(patch: Patch, b: Item, t: Item)
    requires KeptFileSystem(patch, b, t)
    ensures PolicyConditions.SharesFileSystem(patch.base, patch.target)
  {
  }

  lemma AgreeAt(s: Schema, f: Field, b: Node, t: Node, ps: set<Policy>, addable: bool)
    requires Agree(s, b, t, ps, addable) && f in s.fields
    ensures FieldAgrees(f, b, t, ps, addable)
  {
  }

  /** While a managed file system stays, an allowed patch moves no queue that stays to other subnets, which would delete
      the file system. */
  lemma ManagedFsxKeepsSubnets(g: Groups, patch: Patch, fleet: Fleet, parsers: Parsers, fs: (Item, Item), bq: Item,
                               tq: Item, queue: string)
    requires GroupSchema(g) && Field("SubnetIds", Param, ManagedFsx) in g.queueNetworking.fields
    requires QueueNames(patch.base) && QueueNames(patch.target)
    requires patch.changes == Diff(g.queues.root, patch.base, patch.target, []) && Allowed(patch, fleet, parsers)
    requires KeptFileSystem(patch, fs.0, fs.1)
    requires SameName(QueueList(patch.base), QueueList(patch.target), bq, tq, queue)
    requires Truthy(Networking(bq)) && Truthy(Networking(tq))
    ensures Entry(Networking(bq), "SubnetIds") == Entry(Networking(tq), "SubnetIds")
  {
    hide Diff, Allowed, Forbidden, Agree, KeptFileSystem, MatchOf;
    var ps := {ManagedFsx};
    KeptIsShared(patch, fs.0, fs.1);
    FrozenPolicies(patch, fleet, parsers);
    AllowedFreezes(g.queues.root, patch, fleet, parsers, ps, false);
    var b, t := Entry(patch.base, "Scheduling"), Entry(patch.target, "Scheduling");
    AgreeAt(g.queues.root, SchedulingField(g.queues), patch.base, patch.target, ps, false);
    AgreeAt(g.queues.scheduling, QueuesField(g.queues), b, t, ps, false);
    ConfigReadable(patch.base, bq);
    var i, k := Paired(QueueList(patch.base), QueueList(patch.target), bq, tq, queue);
    assert ItemAgrees(QueuesField(g.queues), "Name", g.queues.queue, QueueList(patch.base), QueueList(patch.target)[i],
                      ps, false);
    AgreeAt(g.queues.queue, QueueNetworkingField(g), Sec(bq.body), Sec(tq.body), ps, false);
    AgreeAt(g.queueNetworking, Field("SubnetIds", Param, ManagedFsx), Networking(bq), Networking(tq), ps, false);
  }
}

/** Two updates of login pools that the kept answer about login nodes decides wrongly, with configurations that lead to
    them. The schema is a fragment of cli/src/pcluster/schemas/cluster_schema.py. */
module LoginPools {
  import opened Values
  import opened Schema
  import opened ConfigDiff
  import opened DiffShape
  import opened MarkedDiff
  import opened PathText
  import opened UpdatePolicy
  import opened PolicyLaws

  const NAME := Field("Name", Param, LoginNodesPoolStop)
  const INSTANCE_TYPE := Field("InstanceType", Param, LoginNodesPoolStop)
  const COUNT := Field("Count", Param, Supported)
  const POOL := Schema([NAME, INSTANCE_TYPE, COUNT])
  const POOLS := Field("Pools", Many("Name", POOL), LoginNodesPools)
  const LOGIN_NODES := Field("LoginNodes", Nested(Schema([POOLS])), LoginNodesStop)
  const CLUSTER := Schema([LOGIN_NODES])

  /** A pool of `count` nodes. */
  function Pool(id: nat, name: string, kind: string, count: int): Item {
    Item(id, map["Name" := Leaf(Str(name)), "InstanceType" := Leaf(Str(kind)), "Count" := Leaf(Int(count))])
  }

  function Config(pools: seq<Item>): Node {
    Sec(map["LoginNodes" := Sec(map["Pools" := Items(pools)])])
  }

  function PoolPath(name: string): Path { ["LoginNodes", Segment("Pools", Leaf(Str(name)))] }

  function Edited(name: string, before: string, after: string): Change {
    Change(PoolPath(name), "InstanceType", Leaf(Str(before)), Leaf(Str(after)), LoginNodesPoolStop, false)
  }

  // ------------------------------------------------------------ the comparison, one step at a time

  lemma FirstParam(fs: seq<Field>, b: Node, t: Node, path: Path, marks: set<nat>)
    requires fs != [] && fs[0].kind.Param? && fs[0].key != "Script" && b.Sec? && t.Sec? && Truthy(b) && Truthy(t)
    ensures var (bv, tv) := (Entry(b, fs[0].key), Entry(t, fs[0].key));
            WalkFields(fs, b, t, path, path, marks)
            == WalkFields(fs[1..], b, t, path, path, marks).After(
                 if tv == bv then [] else [Change(path, fs[0].key, bv, tv, fs[0].policy, false)])
  {
    hide WalkMany, WalkNested;
  }

  /** Two items of one pool: only the instance type can differ. */
  lemma PoolCompared(ids: (nat, nat), name: string, before: string, after: string, count: int, path: Path,
                     marks: set<nat>)
    ensures WalkSection(POOL, Sec(Pool(ids.0, name, before, count).body), Sec(Pool(ids.1, name, after, count).body), path,
                        marks)
            == Walked(if before == after then []
                      else [Change(path, "InstanceType", Leaf(Str(before)), Leaf(Str(after)), LoginNodesPoolStop, false)],
                      marks)
  {
    var b, t := Sec(Pool(ids.0, name, before, count).body), Sec(Pool(ids.1, name, after, count).body);
    var fs := [NAME, INSTANCE_TYPE, COUNT];
    assert "Name" in b.body && "Name" in t.body;
    assert Entry(b, "Name") == Entry(t, "Name") && Entry(b, "Count") == Entry(t, "Count");
    assert Entry(b, "InstanceType") == Leaf(Str(before)) && Entry(t, "InstanceType") == Leaf(Str(after));
    hide WalkFields, FinalPath, Pool;
    PathStays(fs, b, t, path);
    FirstParam(fs, b, t, path, marks);
    assert fs[1..] == [INSTANCE_TYPE, COUNT] && fs[1..][1..] == [COUNT] && [COUNT][1..] == [];
    FirstParam([INSTANCE_TYPE, COUNT], b, t, path, marks);
    FirstParam([COUNT], b, t, path, marks);
    NoFields(b, t, path, marks);
  }

  lemma NoFields(b: Node, t: Node, path: Path, marks: set<nat>)
    ensures WalkFields([], b, t, path, path, marks) == Walked([], marks)
  {
  }

  /** The whole comparison is that of the two lists of pools. */
  lemma PoolsCompared(bs: seq<Item>, ts: seq<Item>, items: Walk)
    requires bs != [] && ts != []
    requires items == WalkItems(POOLS, "Name", POOL, bs, ts, ["LoginNodes"], ["LoginNodes"], {}) && items.Walked?
    ensures WalkSection(CLUSTER, Config(bs), Config(ts), [], {})
            == WalkRemoved(POOLS, bs, 0, ["LoginNodes"], items.marks).After(items.changes)
  {
    hide WalkItems, WalkRemoved, POOL;
    var b, t := Entry(Config(bs), "LoginNodes"), Entry(Config(ts), "LoginNodes");
    assert ListOf(b, "Pools") == bs && ListOf(t, "Pools") == ts && "Pools" in b.body && "Pools" in t.body;
    var path: Path := ["LoginNodes"];
    assert [] + path == path;
    var w := WalkMany(POOLS, "Name", POOL, b, t, path, path, {});
    assert w == WalkRemoved(POOLS, bs, 0, path, items.marks).After(items.changes);
    OneFieldSection(POOLS, b, t, path, {}, w);
    assert "LoginNodes" in Config(bs).body && "LoginNodes" in Config(ts).body;
    assert WalkNested(LOGIN_NODES, Schema([POOLS]), Config(bs), Config(ts), [], [], {}) == w;
    OneFieldSection(LOGIN_NODES, Config(bs), Config(ts), [], {}, w);
  }

  lemma OneFieldSection(f: Field, b: Node, t: Node, path: Path, marks: set<nat>, w: Walk)
    requires !f.kind.Param? && f.key != "Script" && w.Walked? && w == WalkField(f, b, t, path, path, marks)
    ensures WalkSection(Schema([f]), b, t, path, marks) == w
  {
    hide WalkField;
    PathStays([f], b, t, path);
    assert [f][1..] == [] && [f][0] == f;
    NoFields(b, t, path, w.marks);
    assert WalkFields([f], b, t, path, path, marks) == Walked(w.changes + [], w.marks);
    assert w.changes + [] == w.changes;
  }

  /** A pool that is in both configurations. */
  lemma FirstMatched(bs: seq<Item>, ts: seq<Item>, marks: set<nat>, x: Walk)
    requires ts != [] && MatchOf(bs, "Name", ts[0]) < |bs| && x.Walked?
    requires var b, t := Sec(bs[MatchOf(bs, "Name", ts[0])].body), Sec(ts[0].body);
             x == WalkSection(POOL, b, t, ["LoginNodes", Segment("Pools", Get(ts[0].body, "Name"))], marks)
    ensures WalkItems(POOLS, "Name", POOL, bs, ts, ["LoginNodes"], ["LoginNodes"], marks)
            == WalkItems(POOLS, "Name", POOL, bs, ts[1..], ["LoginNodes"], ["LoginNodes"],
                         x.marks + {bs[MatchOf(bs, "Name", ts[0])].id}).After(x.changes)
  {
    hide WalkSection;
    assert ["LoginNodes"] + [Segment("Pools", Get(ts[0].body, "Name"))]
        == ["LoginNodes", Segment("Pools", Get(ts[0].body, "Name"))];
  }

  lemma FirstAdded(bs: seq<Item>, ts: seq<Item>, marks: set<nat>)
    requires ts != [] && MatchOf(bs, "Name", ts[0]) == |bs|
    ensures WalkItems(POOLS, "Name", POOL, bs, ts, ["LoginNodes"], ["LoginNodes"], marks)
            == WalkItems(POOLS, "Name", POOL, bs, ts[1..], ["LoginNodes"], ["LoginNodes"], marks)
                 .After([Added(["LoginNodes"], POOLS, ts[0])])
  {
    hide WalkSection;
  }

  lemma NoItems(bs: seq<Item>, marks: set<nat>)
    ensures WalkItems(POOLS, "Name", POOL, bs, [], ["LoginNodes"], ["LoginNodes"], marks) == Walked([], marks)
  {
  }

  // ------------------------------------------------------------ what the checkers ask about

  /** An edit inside a pool asks about that pool only. */
  lemma EditAsks(name: string, before: string, after: string, fleet: Fleet)
    requires name != "" && Plain(name)
    ensures Question(Edited(name, before, after), fleet) == Some(name)
  {
    hide Search, ExtractTypeAndName, Segment, Plain;
    var path := PoolPath(name);
    PoolKeys();
    NotInPlain("Pools", path[0]);
    FoundInSegment("Pools", "Pools", name);
    ExtractRoundTrip("Pools", name);
    assert path[1..] == [path[1]];
    assert PoolName([path[1]]) == Some(name);
  }

  lemma PoolKeys()
    ensures Plain("Pools") && Plain("LoginNodes") && "Pools" + "[" == "Pools["
  {
  }

  /** The login nodes in this state: those of the edited pool are stopped, those of the other pool run. */
  predicate OneRuns(fleet: Fleet, stopped: string, running: string) {
    && stopped in fleet.pools && !fleet.pools[stopped]
    && running in fleet.pools && fleet.pools[running] && fleet.login
  }

  lemma EditPasses(name: string, before: string, after: string, patch: Patch, fleet: Fleet, parsers: Parsers)
    requires name != "" && Plain(name) && name in fleet.pools && !fleet.pools[name]
    ensures var c := Edited(name, before, after);
            && NeedsStopped(c, fleet) && Answer(c, fleet) == Some(false)
            && PassesWith(c, patch, fleet, parsers, None) && PassesWith(c, patch, fleet, parsers, Some(false))
            && !PassesWith(c, patch, fleet, parsers, Some(true))
  {
    EditAsks(name, before, after, fleet);
    hide PoolName;
  }

  /** Taking away a pool whose nodes run, next to an edit of a pool whose nodes are stopped: the edit is recorded first,
      its answer is kept, and the update is allowed, though the removal on its own is not. */
  lemma RunningPoolRemoved(a: string, b: string, before: string, after: string, kind: string, counts: (int, int),
                           ids: (nat, nat, nat), fleet: Fleet, parsers: Parsers)
    requires a != b && a != "" && Plain(a) && before != after && ids.0 != ids.1 && OneRuns(fleet, a, b)
    ensures var dropped := Pool(ids.1, b, kind, counts.1);
            var base := Config([Pool(ids.0, a, before, counts.0), dropped]);
            var target := Config([Pool(ids.2, a, after, counts.0)]);
            var changes := [Edited(a, before, after), RemovedItem(["LoginNodes"], POOLS, dropped)];
            && WalkSection(CLUSTER, base, target, [], {}) == Walked(changes, {ids.0})
            && Allowed(Patch(base, target, changes), fleet, parsers)
            && SomeIsRunning(changes, fleet)
            && !Allowed(Patch(base, target, changes[1..]), fleet, parsers)
  {
    var kept, dropped, edited := Pool(ids.0, a, before, counts.0), Pool(ids.1, b, kind, counts.1),
                                 Pool(ids.2, a, after, counts.0);
    var bs, ts := [kept, dropped], [edited];
    var removal := RemovedItem(["LoginNodes"], POOLS, dropped);
    var changes := [Edited(a, before, after), removal];
    var patch := Patch(Config(bs), Config(ts), changes);
    PoolNames(ids.0, a, before, counts.0);
    PoolNames(ids.2, a, after, counts.0);
    assert WalkSection(CLUSTER, Config(bs), Config(ts), [], {}) == Walked(changes, {ids.0}) by {
      PoolCompared((ids.0, ids.2), a, before, after, counts.0, PoolPath(a), {});
      hide WalkSection, WalkItems, POOL, POOLS;
      assert MatchOf(bs, "Name", ts[0]) == 0;
      FirstMatched(bs, ts, {}, Walked([Edited(a, before, after)], {}));
      NoItems(bs, {} + {ids.0});
      assert ts[1..] == [] && {} + {ids.0} == {ids.0};
      SecondRemoved(bs, ids.0);
      PoolsCompared(bs, ts, Walked([Edited(a, before, after)] + [], {ids.0}));
    }
    hide WalkSection, WalkItems, PassesWith, Answer, NeedsStopped, Allowed;
    EditPasses(a, before, after, patch, fleet, parsers);
    RemovalAsks(removal, patch, fleet, parsers);
    assert changes[0] == Edited(a, before, after) && changes[1] == removal;
    assert FirstAnswer(changes, fleet) == Some(false);
    AllowedIff(patch, fleet, parsers);
    RemovalRefused(removal, Config(bs), Config(ts), fleet, parsers);
    assert changes[1..] == [removal];
  }

  lemma PoolNames(id: nat, name: string, kind: string, count: int)
    ensures var it := Pool(id, name, kind, count); Get(it.body, "Name") == Leaf(Str(name)) && it.body != map[]
  {
    assert "Name" in Pool(id, name, kind, count).body;
  }

  lemma {:induction false} SecondRemoved(bs: seq<Item>, id: nat)
    requires |bs| == 2 && bs[0].id == id && bs[1].id != id
    ensures WalkRemoved(POOLS, bs, 0, ["LoginNodes"], {id})
            == Walked([RemovedItem(["LoginNodes"], POOLS, bs[1])], {id})
  {
    assert WalkRemoved(POOLS, bs, 2, ["LoginNodes"], {id}) == Walked([], {id});
    assert WalkRemoved(POOLS, bs, 1, ["LoginNodes"], {id})
        == Walked([RemovedItem(["LoginNodes"], POOLS, bs[1])], {id});
  }

  lemma RemovalAsks(c: Change, patch: Patch, fleet: Fleet, parsers: Parsers)
    requires c.policy == LoginNodesPools && c.newValue == NONE
    ensures NeedsStopped(c, fleet) && Answer(c, fleet) == Some(fleet.login)
    ensures PassesWith(c, patch, fleet, parsers, Some(false))
  {
  }

  lemma RemovalRefused(c: Change, base: Node, target: Node, fleet: Fleet, parsers: Parsers)
    requires c.policy == LoginNodesPools && c.newValue == NONE && fleet.login
    ensures !Allowed(Patch(base, target, [c]), fleet, parsers)
  {
    var patch := Patch(base, target, [c]);
    RemovalAsks(c, patch, fleet, parsers);
    AllowedIff(patch, fleet, parsers);
    hide Allowed, NeedsStopped, Answer;
    assert FirstAnswer([c], fleet) == Some(true) && NeedsStopped([c][0], fleet);
  }

  /** A new pool, an edited one and one that stays as it is: the addition is recorded before the edit. */
  lemma AdditionThenEdit(bs: seq<Item>, ts: seq<Item>, edit: Change)
    requires |bs| == 2 && |ts| == 3 && MatchOf(bs, "Name", ts[0]) == 2
    requires MatchOf(bs, "Name", ts[1]) == 0 && MatchOf(bs, "Name", ts[2]) == 1
    requires WalkSection(POOL, Sec(bs[0].body), Sec(ts[1].body),
                         ["LoginNodes", Segment("Pools", Get(ts[1].body, "Name"))], {}) == Walked([edit], {})
    requires WalkSection(POOL, Sec(bs[1].body), Sec(ts[2].body),
                         ["LoginNodes", Segment("Pools", Get(ts[2].body, "Name"))], {bs[0].id}) == Walked([], {bs[0].id})
    ensures WalkSection(CLUSTER, Config(bs), Config(ts), [], {})
            == Walked([Added(["LoginNodes"], POOLS, ts[0]), edit], {bs[0].id, bs[1].id})
  {
    hide WalkSection, WalkItems, MatchOf, POOL, POOLS;
    var marks := {bs[0].id, bs[1].id};
    assert ts[1..] == [ts[1], ts[2]] && [ts[1], ts[2]][1..] == [ts[2]] && [ts[2]][1..] == [];
    FirstAdded(bs, ts, {});
    FirstMatched(bs, [ts[1], ts[2]], {}, Walked([edit], {}));
    FirstMatched(bs, [ts[2]], {bs[0].id}, Walked([], {bs[0].id}));
    NoItems(bs, {bs[0].id} + {bs[1].id});
    assert {} + {bs[0].id} == {bs[0].id} && {bs[0].id} + {bs[1].id} == marks;
    NoneRemoved(bs, marks);
    PoolsCompared(bs, ts, Walked([Added(["LoginNodes"], POOLS, ts[0]), edit], marks));
  }

  lemma AdditionPolicy(it: Item)
    requires it.body != map[]
    ensures var c := Added(["LoginNodes"], POOLS, it);
            c.policy == LoginNodesPools && c.isList && c.key == "Pools" && c.oldValue == NONE && c.newValue != NONE
  {
  }

  /** Adding a pool ahead of an edited pool whose nodes are stopped, while another pool that stays as it is has nodes
      running: the addition asks about all login nodes, and the update is refused, though each change on its own is not. */
  lemma StoppedPoolRefused(a: string, b: string, added: string, before: string, after: string, kinds: (string, string),
                           counts: (int, int, int), ids: (nat, nat, nat, nat, nat), fleet: Fleet, parsers: Parsers)
    requires a != b && added != a && added != b && a != "" && Plain(a) && before != after && OneRuns(fleet, a, b)
    ensures var first := Pool(ids.0, added, kinds.0, counts.0);
            var base := Config([Pool(ids.1, a, before, counts.1), Pool(ids.2, b, kinds.1, counts.2)]);
            var target := Config([first, Pool(ids.3, a, after, counts.1), Pool(ids.4, b, kinds.1, counts.2)]);
            var changes := [Added(["LoginNodes"], POOLS, first), Edited(a, before, after)];
            && WalkSection(CLUSTER, base, target, [], {}) == Walked(changes, {ids.1, ids.2})
            && !Allowed(Patch(base, target, changes), fleet, parsers)
            && EachPassesAlone(Patch(base, target, changes), fleet, parsers)
  {
    var first := Pool(ids.0, added, kinds.0, counts.0);
    var bs := [Pool(ids.1, a, before, counts.1), Pool(ids.2, b, kinds.1, counts.2)];
    var second, third := Pool(ids.3, a, after, counts.1), Pool(ids.4, b, kinds.1, counts.2);
    var ts := [first, second, third];
    var addition := Added(["LoginNodes"], POOLS, first);
    var changes := [addition, Edited(a, before, after)];
    var patch := Patch(Config(bs), Config(ts), changes);
    PoolNames(ids.0, added, kinds.0, counts.0);
    PoolNames(ids.1, a, before, counts.1);
    PoolNames(ids.2, b, kinds.1, counts.2);
    PoolNames(ids.3, a, after, counts.1);
    PoolNames(ids.4, b, kinds.1, counts.2);
    PoolCompared((ids.1, ids.3), a, before, after, counts.1, PoolPath(a), {});
    PoolCompared((ids.2, ids.4), b, kinds.1, kinds.1, counts.2, PoolPath(b), {ids.1});
    assert bs[0].id == ids.1 && bs[1].id == ids.2;
    hide WalkSection, WalkItems, POOL, POOLS, Pool, EachPassesAlone, Allowed, Plain, Edited, Added;
    assert bs[1..][0] == bs[1] && bs[1..][1..] == [];
    assert MatchOf(bs, "Name", first) == 2 && MatchOf(bs, "Name", second) == 0 && MatchOf(bs, "Name", third) == 1;
    AdditionThenEdit(bs, ts, Edited(a, before, after));
    AdditionPolicy(first);
    AdditionBlocks(addition, a, before, after, patch, fleet, parsers);
  }

  lemma AdditionBlocks(c: Change, name: string, before: string, after: string, patch: Patch, fleet: Fleet, parsers: Parsers)
    requires c.policy == LoginNodesPools && c.isList && c.key == "Pools" && c.oldValue == NONE && c.newValue != NONE
    requires name != "" && Plain(name) && name in fleet.pools && !fleet.pools[name] && fleet.login
    requires patch.changes == [c, Edited(name, before, after)]
    ensures !Allowed(patch, fleet, parsers) && EachPassesAlone(patch, fleet, parsers)
  {
    hide PassesWith, Answer, NeedsStopped, Allowed, Plain, Edited;
    EditPasses(name, before, after, patch, fleet, parsers);
    AdditionAsks(c, patch, fleet, parsers);
    assert patch.changes[0] == c && patch.changes[1] == Edited(name, before, after);
    assert FirstAnswer(patch.changes, fleet) == Some(true);
    AllowedIff(patch, fleet, parsers);
  }

  lemma {:induction false} NoneRemoved(bs: seq<Item>, marks: set<nat>)
    requires |bs| == 2 && bs[0].id in marks && bs[1].id in marks
    ensures WalkRemoved(POOLS, bs, 0, ["LoginNodes"], marks) == Walked([], marks)
  {
    assert WalkRemoved(POOLS, bs, 2, ["LoginNodes"], marks) == Walked([], marks);
    assert WalkRemoved(POOLS, bs, 1, ["LoginNodes"], marks) == Walked([], marks);
  }

  lemma AdditionAsks(c: Change, patch: Patch, fleet: Fleet, parsers: Parsers)
    requires c.policy == LoginNodesPools && c.isList && c.key == "Pools" && c.oldValue == NONE && c.newValue != NONE
    ensures !NeedsStopped(c, fleet) && Answer(c, fleet) == Some(fleet.login)
    ensures PassesWith(c, patch, fleet, parsers, None) && PassesWith(c, patch, fleet, parsers, Some(false))
  {
  }
}

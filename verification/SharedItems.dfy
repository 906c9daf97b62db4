/** What the marks do when two lists of the base configuration share their item objects, as a YAML anchor makes them
    do: an item compared in one list counts as compared in the other, and its removal there goes unnoticed. */
module SharedItems {
  import opened Values
  import opened Schema
  import opened ConfigDiff
  import opened DiffShape
  import opened DiffLaws
  import opened MarkedDiff
  import opened Raising
  import opened Meaning
  import opened ResizeSafety
  import opened QueueFragment
  import opened UpdatePolicy

  // ------------------------------------------------------------ comparing a part with itself

  /** Comparing a section with itself records nothing, whatever is marked. */
  lemma NothingRecorded(s: Schema, n: Node, path: Path, marks: set<nat>)
    requires GoodKeys(s) && Accepted(s, n) && WalkSection(s, n, n, path, marks).Walked?
    ensures WalkSection(s, n, n, path, marks).changes == []
    ensures marks <= WalkSection(s, n, n, path, marks).marks
  {
    UniqueApart(s, n);
    UnchangedIffNamesApart(s, n, path);
    hide WalkSection, Diff, Accepted, NamesApart;
    SectionLacksOnlyRemovals(s, n, n, path, marks);
  }

  // ------------------------------------------------------------ a list whose base items are all marked

  /** The target items are base items, and all base items are marked. */
  ghost predicate SubList(uk: string, s: Schema, bs: seq<Item>, ts: seq<Item>) {
    && UniqueItemNames(bs, uk) && UniqueItemNames(ts, uk)
    && (forall i :: 0 <= i < |bs| ==> IsText(Get(bs[i].body, uk)) && Accepted(s, Sec(bs[i].body)))
    && (forall i :: 0 <= i < |ts| ==> ts[i] in bs)
  }

  lemma {:induction false} SubItemsSilent(f: Field, uk: string, s: Schema, bs: seq<Item>, ts: seq<Item>, cur: Path,
                                          fin: Path, marks: set<nat>)
    requires f.kind == Many(uk, s) && GoodKeys(s) && SubList(uk, s, bs, ts)
    requires WalkItems(f, uk, s, bs, ts, cur, fin, marks).Walked?
    ensures WalkItems(f, uk, s, bs, ts, cur, fin, marks).changes == []
    ensures marks <= WalkItems(f, uk, s, bs, ts, cur, fin, marks).marks
    decreases |ts|
  {
    hide WalkSection, Accepted, GoodKeys;
    if ts != [] {
      var k :| 0 <= k < |bs| && bs[k] == ts[0];
      assert uk in bs[k].body && MatchOf(bs, uk, ts[0]) == k;
      NothingRecorded(s, Sec(ts[0].body), cur + [Segment(f.key, Get(ts[0].body, uk))], marks);
      SubItemsSilent(f, uk, s, bs, ts[1..], cur, fin, WalkItem(f, uk, s, bs, ts[0], cur, fin, marks).marks);
    }
  }

  lemma {:induction false} MarkedNotRemoved(f: Field, bs: seq<Item>, j: nat, fin: Path, marks: set<nat>)
    requires j <= |bs| && forall i :: 0 <= i < |bs| ==> bs[i].id in marks
    ensures WalkRemoved(f, bs, j, fin, marks) == Walked([], marks)
    decreases |bs| - j
  {
    if j < |bs| {
      MarkedNotRemoved(f, bs, j + 1, fin, marks);
    }
  }

  /** If all base items are marked already, dropping any of them is not recorded. */
  lemma MarkedListSilent(f: Field, uk: string, s: Schema, b: Node, t: Node, cur: Path, fin: Path, marks: set<nat>)
    requires f.kind == Many(uk, s) && GoodKeys(s) && SubList(uk, s, ListOf(b, f.key), ListOf(t, f.key))
    requires forall i :: 0 <= i < |ListOf(b, f.key)| ==> ListOf(b, f.key)[i].id in marks
    requires WalkField(f, b, t, cur, fin, marks).Walked?
    ensures WalkField(f, b, t, cur, fin, marks).changes == []
    ensures marks <= WalkField(f, b, t, cur, fin, marks).marks
  {
    hide WalkItems, WalkRemoved, SubList;
    var bs, ts := ListOf(b, f.key), ListOf(t, f.key);
    SubItemsSilent(f, uk, s, bs, ts, cur, fin, marks);
    MarkedNotRemoved(f, bs, 0, fin, WalkItems(f, uk, s, bs, ts, cur, fin, marks).marks);
  }

  // ------------------------------------------------------------ one field after the other

  /** What comparing one field marks, comparing the section marks. */
  lemma {:induction false} FieldsMark(fs: seq<Field>, i: nat, b: Node, t: Node, path: Path, marks: set<nat>, id: nat)
    requires i < |fs| && (forall k :: 0 <= k < |fs| ==> !Switches(fs[k], b, t))
    requires forall m :: WalkField(fs[i], b, t, path, path, m).Walked? ==> id in WalkField(fs[i], b, t, path, path, m).marks
    requires WalkFields(fs, b, t, path, path, marks).Walked?
    ensures id in WalkFields(fs, b, t, path, path, marks).marks
    decreases i
  {
    hide WalkField, WalkFields;
    FirstField(fs, b, t, path, marks);
    var first := WalkField(fs[0], b, t, path, path, marks);
    if i == 0 {
      FieldsLackOnlyRemovals(fs[1..], b, t, path, path, first.marks);
    } else {
      FieldsMark(fs[1..], i - 1, b, t, path, first.marks, id);
    }
  }

  /** If no field records anything, whatever is marked in addition, the section records nothing. */
  lemma {:induction false} FieldsSilent(fs: seq<Field>, b: Node, t: Node, path: Path, marks: set<nat>)
    requires forall k :: 0 <= k < |fs| ==> !Switches(fs[k], b, t)
    requires forall k, m :: 0 <= k < |fs| && marks <= m && WalkField(fs[k], b, t, path, path, m).Walked? ==>
               WalkField(fs[k], b, t, path, path, m).changes == []
    requires WalkFields(fs, b, t, path, path, marks).Walked?
    ensures WalkFields(fs, b, t, path, path, marks).changes == []
    decreases |fs|
  {
    hide WalkField;
    if fs != [] {
      FirstField(fs, b, t, path, marks);
      var first := WalkField(fs[0], b, t, path, path, marks);
      FieldLacksOnlyRemovals(fs[0], b, t, path, path, marks);
      assert marks <= marks && WalkField(fs[0], b, t, path, path, marks).changes == [];
      forall k, m | 0 <= k < |fs[1..]| && first.marks <= m && WalkField(fs[1..][k], b, t, path, path, m).Walked?
        ensures WalkField(fs[1..][k], b, t, path, path, m).changes == []
      {
        assert fs[1..][k] == fs[k + 1] && marks <= m;
      }
      FieldsSilent(fs[1..], b, t, path, first.marks);
    }
  }

  // ------------------------------------------------------------ two queues with one list of compute resources

  /** A queue with the given name and resources, whatever else it holds. */
  function QueueBody(name: string, resources: seq<Item>, rest: map<string, Node>): map<string, Node> {
    rest["Name" := Leaf(Str(name))]["ComputeResources" := Items(resources)]
  }

  function Config(strategy: string, first: Item, second: Item): Node {
    Sec(map["Scheduling" := Sec(map["ScalingStrategy" := Leaf(Str(strategy)), "SlurmQueues" := Items([first, second])])])
  }

  /** Both base queues have the list object `shared`; the target leaves `kept` of it in the second queue. */
  ghost predicate Resources(shared: seq<Item>, kept: seq<Item>, rest: map<string, Node>) {
    SubList("Name", RESOURCE, shared, kept) && Accepted(QUEUE, Sec(QueueBody("", [], rest)))
  }

  lemma QueueKeys()
    ensures NoScript(QUEUE)
    ensures |QUEUE.fields| > 2 && RESOURCES == QUEUE.fields[2]
    ensures forall i :: 0 <= i < |QUEUE.fields| && QUEUE.fields[i].key == "ComputeResources" ==> i == 2
    ensures forall i :: 0 <= i < |QUEUE.fields| && QUEUE.fields[i].key == "Name" ==> QUEUE.fields[i].kind.Param?
  {
    hide RESOURCE;
  }

  lemma SameEntryAccepted(f: Field, x: Node, y: Node)
    requires x.Sec? && y.Sec?
    requires f.kind.Param? || (Entry(x, f.key) == Entry(y, f.key) && (f.key in x.body <==> f.key in y.body))
    requires FieldTyped(f, x) && FieldUniqueNames(f, x) && FieldNamed(f, x)
    ensures FieldTyped(f, y) && FieldUniqueNames(f, y) && FieldNamed(f, y)
  {
  }

  lemma ResourceItemAccepted(rs: seq<Item>, name: string, rest: map<string, Node>)
    requires SubList("Name", RESOURCE, rs, rs) && Accepted(QUEUE, Sec(QueueBody("", [], rest)))
    ensures Accepted(QUEUE, Sec(QueueBody(name, rs, rest)))
  {
    QueueKeys();
    hide RESOURCE, QUEUE;
    var m, n := Sec(QueueBody("", [], rest)), Sec(QueueBody(name, rs, rest));
    assert ListOf(n, "ComputeResources") == rs;
    forall i | 0 <= i < |QUEUE.fields|
      ensures FieldTyped(QUEUE.fields[i], n) && FieldUniqueNames(QUEUE.fields[i], n) && FieldNamed(QUEUE.fields[i], n)
    {
      if i != 2 {
        AcceptedField(QUEUE, m, i);
        SameEntryAccepted(QUEUE.fields[i], m, n);
      }
    }
    AcceptedFrom(QUEUE, n);
  }

  lemma SubListItself(uk: string, s: Schema, bs: seq<Item>, ts: seq<Item>)
    requires SubList(uk, s, bs, ts)
    ensures SubList(uk, s, bs, bs) && SubList(uk, s, ts, ts)
  {
  }

  /** Comparing a queue with itself marks its compute resources. */
  lemma QueueMarksResources(name: string, rs: seq<Item>, rest: map<string, Node>, path: Path, marks: set<nat>)
    requires SubList("Name", RESOURCE, rs, rs)
    requires var n := Sec(QueueBody(name, rs, rest)); WalkSection(QUEUE, n, n, path, marks).Walked?
    ensures var n := Sec(QueueBody(name, rs, rest));
            forall i :: 0 <= i < |rs| ==> rs[i].id in WalkSection(QUEUE, n, n, path, marks).marks
  {
    QueueKeys();
    hide WalkField, WalkFields, RESOURCE, QUEUE;
    var n := Sec(QueueBody(name, rs, rest));
    assert ListOf(n, "ComputeResources") == rs;
    PathStays(QUEUE.fields, n, n, path);
    forall i | 0 <= i < |rs|
      ensures rs[i].id in WalkSection(QUEUE, n, n, path, marks).marks
    {
      assert "Name" in rs[i].body && MatchOf(rs, "Name", rs[i]) == i;
      assert Kept(rs, rs, "Name", i);
      forall m | WalkField(RESOURCES, n, n, path, path, m).Walked?
        ensures rs[i].id in WalkField(RESOURCES, n, n, path, path, m).marks
      {
        ResourcesMarked(n, n, path, m);
      }
      FieldsMark(QUEUE.fields, 2, n, n, path, marks, rs[i].id);
    }
  }

  lemma ResourcesMarked(b: Node, t: Node, path: Path, marks: set<nat>)
    requires WalkField(RESOURCES, b, t, path, path, marks).Walked?
    ensures var bs, ts := ListOf(b, "ComputeResources"), ListOf(t, "ComputeResources");
            forall i :: 0 <= i < |bs| && Kept(bs, ts, "Name", i) ==>
              bs[i].id in WalkField(RESOURCES, b, t, path, path, marks).marks
  {
    hide WalkItems, WalkRemoved, RESOURCE;
    var bs, ts := ListOf(b, "ComputeResources"), ListOf(t, "ComputeResources");
    ItemsLackOnlyRemovals(RESOURCES, "Name", RESOURCE, bs, ts, path, path, marks);
    RemovedKeepsMarks(RESOURCES, bs, 0, path, WalkItems(RESOURCES, "Name", RESOURCE, bs, ts, path, path, marks).marks);
  }

  /** A queue whose compute resources are all marked: dropping some is not recorded. */
  lemma MarkedQueueSilent(name: string, shared: seq<Item>, kept: seq<Item>, rest: map<string, Node>, path: Path,
                          marks: set<nat>)
    requires Resources(shared, kept, rest)
    requires forall i :: 0 <= i < |shared| ==> shared[i].id in marks
    requires WalkSection(QUEUE, Sec(QueueBody(name, shared, rest)), Sec(QueueBody(name, kept, rest)), path, marks).Walked?
    ensures WalkSection(QUEUE, Sec(QueueBody(name, shared, rest)), Sec(QueueBody(name, kept, rest)), path,
                        marks).changes == []
  {
    FragmentKeys();
    QueueKeys();
    hide WalkField, WalkFields, GoodKeys, Accepted, QUEUE, RESOURCE;
    var b, t := Sec(QueueBody(name, shared, rest)), Sec(QueueBody(name, kept, rest));
    assert ListOf(b, "ComputeResources") == shared && ListOf(t, "ComputeResources") == kept;
    SubListItself("Name", RESOURCE, shared, kept);
    ResourceItemAccepted(shared, name, rest);
    PathStays(QUEUE.fields, b, t, path);
    forall k, m | 0 <= k < |QUEUE.fields| && marks <= m && WalkField(QUEUE.fields[k], b, t, path, path, m).Walked?
      ensures WalkField(QUEUE.fields[k], b, t, path, path, m).changes == []
    {
      if k == 2 {
        MarkedListSilent(RESOURCES, "Name", RESOURCE, b, t, path, path, m);
      } else {
        assert Entry(b, QUEUE.fields[k].key) == Entry(t, QUEUE.fields[k].key);
        UnchangedFieldSilent(QUEUE, k, b, t, path, m);
      }
    }
    FieldsSilent(QUEUE.fields, b, t, path, marks);
  }

  /** A field with the same value on both sides records nothing. */
  lemma UnchangedFieldSilent(s: Schema, k: nat, b: Node, t: Node, path: Path, marks: set<nat>)
    requires k < |s.fields| && s.fields[k].key != "Script" && Accepted(s, b)
    requires b.Sec? && t.Sec? && Truthy(b) && Truthy(t) && Entry(b, s.fields[k].key) == Entry(t, s.fields[k].key)
    requires WalkField(s.fields[k], b, t, path, path, marks).Walked?
    ensures WalkField(s.fields[k], b, t, path, path, marks).changes == []
  {
    UniqueApart(s, b);
    SameRefl(s, b);
    assert FieldSame(s.fields[k], b, b) && FieldNamesApart(s.fields[k], b);
    EmptyFieldIffSame(s.fields[k], b, b, path, path);
    FieldLacksOnlyRemovals(s.fields[k], b, t, path, path, marks);
    SameEntrySameDiff(s.fields[k], b, t, path, path);
  }

  lemma SameEntrySameDiff(f: Field, b: Node, t: Node, cur: Path, fin: Path)
    requires f.key != "Script" && b.Sec? && t.Sec? && Truthy(b) && Truthy(t) && Entry(b, f.key) == Entry(t, f.key)
    ensures DiffField(f, b, t, cur, fin) == DiffField(f, b, b, cur, fin)
  {
  }

  lemma FragmentKeys()
    ensures GoodKeys(QUEUE) && GoodKeys(RESOURCE)
  {
    hide Regular;
    GroupsRegular();
    ActionsRegular();
    QueuesRegular();
    assert Regular(QUEUE) && Regular(RESOURCE);
    RegularKeys(QUEUE);
    RegularKeys(RESOURCE);
  }

  lemma RegularKeys(s: Schema)
    requires Regular(s)
    ensures GoodKeys(s)
  {
  }

  lemma FirstField(fs: seq<Field>, b: Node, t: Node, path: Path, marks: set<nat>)
    requires fs != [] && !Switches(fs[0], b, t) && WalkFields(fs, b, t, path, path, marks).Walked?
    ensures var first := WalkField(fs[0], b, t, path, path, marks);
            && first.Walked?
            && var rest := WalkFields(fs[1..], b, t, path, path, first.marks);
               rest.Walked? && WalkFields(fs, b, t, path, path, marks) == Walked(first.changes + rest.changes, rest.marks)
  {
    hide WalkField;
  }

  lemma NoField(b: Node, t: Node, path: Path, marks: set<nat>)
    ensures WalkFields([], b, t, path, path, marks) == Walked([], marks)
  {
  }

  lemma ConfigAccepted(a: string, b: string, rs: seq<Item>, ts: seq<Item>, rest: map<string, Node>, ids: (nat, nat),
                       strategy: string)
    requires a != b && Resources(rs, ts, rest)
    ensures Accepted(CLUSTER, Config(strategy, Item(ids.0, QueueBody(a, rs, rest)),
                                     Item(ids.1, QueueBody(b, ts, rest))))
  {
    SubListItself("Name", RESOURCE, rs, ts);
    ResourceItemAccepted(rs, a, rest);
    ResourceItemAccepted(ts, b, rest);
    QueuesAccepted(Item(ids.0, QueueBody(a, rs, rest)), Item(ids.1, QueueBody(b, ts, rest)), strategy);
  }

  lemma QueuesAccepted(first: Item, second: Item, strategy: string)
    requires Accepted(QUEUE, Sec(first.body)) && Accepted(QUEUE, Sec(second.body))
    requires IsText(Name(first)) && IsText(Name(second)) && Name(first) != Name(second)
    ensures Accepted(CLUSTER, Config(strategy, first, second))
  {
    hide QUEUE;
    var n := Config(strategy, first, second);
    var scheduling := Entry(n, "Scheduling");
    assert ListOf(scheduling, "SlurmQueues") == [first, second];
    AcceptedFrom(SCHEDULING, scheduling);
    AcceptedFrom(CLUSTER, n);
  }

  lemma AcceptedFrom(s: Schema, n: Node)
    requires Readable(n)
    requires forall i :: 0 <= i < |s.fields| ==>
               FieldTyped(s.fields[i], n) && FieldUniqueNames(s.fields[i], n) && FieldNamed(s.fields[i], n)
    ensures Accepted(s, n)
  {
  }

  lemma Returns(base: Node, target: Node)
    requires base.Sec? && target.Sec? && Accepted(CLUSTER, base) && Accepted(CLUSTER, target)
    ensures WalkSection(CLUSTER, base, target, [], {}).Walked?
  {
    hide WalkSection, IgnoredHoldsNoList, Typed, DistinctKeys;
    FragmentFits();
    assert CLUSTER.fields == [SCHEDULING_FIELD];
    NeverRaises(CLUSTER, base, target, [], {});
  }

  /** The walk of the whole is the walk of its scheduling section, field by field. */
  lemma SchedulingWalk(base: Node, target: Node) returns (x: Walk, y: Walk)
    requires base.Sec? && target.Sec? && Truthy(Entry(base, "Scheduling")) && Truthy(Entry(target, "Scheduling"))
    requires WalkSection(CLUSTER, base, target, [], {}).Walked?
    ensures var b, t := Entry(base, "Scheduling"), Entry(target, "Scheduling");
            && x.Walked? && x == WalkField(SCALING_STRATEGY, b, t, ["Scheduling"], ["Scheduling"], {})
            && y.Walked? && y == WalkField(QUEUES, b, t, ["Scheduling"], ["Scheduling"], x.marks)
    ensures WalkSection(CLUSTER, base, target, [], {}) == Walked(x.changes + y.changes, y.marks)
  {
    var b, t := Entry(base, "Scheduling"), Entry(target, "Scheduling");
    hide WalkSection, WalkFields, SCHEDULING;
    OneField(SCHEDULING_FIELD, base, target, [], {});
    assert [] + ["Scheduling"] == ["Scheduling"];
    assert WalkField(SCHEDULING_FIELD, base, target, [], [], {}) == WalkSection(SCHEDULING, b, t, ["Scheduling"], {});
    SchedulingFields();
    x, y := TwoFields(SCALING_STRATEGY, QUEUES, b, t, ["Scheduling"], {});
  }

  lemma SchedulingFields()
    ensures SCHEDULING == Schema([SCALING_STRATEGY, QUEUES])
  {
  }

  lemma OneField(f: Field, b: Node, t: Node, path: Path, marks: set<nat>)
    requires !Switches(f, b, t) && WalkSection(Schema([f]), b, t, path, marks).Walked?
    ensures WalkSection(Schema([f]), b, t, path, marks) == WalkField(f, b, t, path, path, marks)
  {
    hide WalkField, WalkFields;
    FieldsOfDiff([f], b, t, path, Change([], "", NONE, NONE, Ignored, false));
    FirstField([f], b, t, path, marks);
    var w := WalkField(f, b, t, path, path, marks);
    assert [f][1..] == [] && w.changes + [] == w.changes;
    NoField(b, t, path, w.marks);
  }

  lemma TwoFields(f: Field, g: Field, b: Node, t: Node, path: Path, marks: set<nat>) returns (x: Walk, y: Walk)
    requires !Switches(f, b, t) && !Switches(g, b, t)
    requires WalkSection(Schema([f, g]), b, t, path, marks).Walked?
    ensures x.Walked? && x == WalkField(f, b, t, path, path, marks)
    ensures y.Walked? && y == WalkField(g, b, t, path, path, x.marks)
    ensures WalkSection(Schema([f, g]), b, t, path, marks) == Walked(x.changes + y.changes, y.marks)
  {
    hide WalkField, WalkFields;
    FieldsOfDiff([f, g], b, t, path, Change([], "", NONE, NONE, Ignored, false));
    assert [f, g][1..] == [g] && [g][1..] == [];
    FirstField([f, g], b, t, path, marks);
    x := WalkField(f, b, t, path, path, marks);
    FirstField([g], b, t, path, x.marks);
    y := WalkField(g, b, t, path, path, x.marks);
    NoField(b, t, path, y.marks);
    assert x.changes + (y.changes + []) == x.changes + y.changes;
  }

  /** Two base items, each compared with its target item. */
  lemma TwoItems(f: Field, uk: string, s: Schema, bs: seq<Item>, ts: seq<Item>, cur: Path, fin: Path, marks: set<nat>)
    returns (x: Walk, y: Walk)
    requires f.kind == Many(uk, s) && |bs| == 2 && |ts| == 2
    requires MatchOf(bs, uk, ts[0]) == 0 && MatchOf(bs, uk, ts[1]) == 1
    requires WalkItems(f, uk, s, bs, ts, cur, fin, marks).Walked?
    ensures var path := cur + [Segment(f.key, Get(ts[0].body, uk))];
            x.Walked? && x == WalkSection(s, Sec(bs[0].body), Sec(ts[0].body), path, marks)
    ensures var path := cur + [Segment(f.key, Get(ts[1].body, uk))];
            y.Walked? && y == WalkSection(s, Sec(bs[1].body), Sec(ts[1].body), path, x.marks + {bs[0].id})
    ensures WalkItems(f, uk, s, bs, ts, cur, fin, marks) == Walked(x.changes + y.changes, y.marks + {bs[1].id})
  {
    hide WalkSection;
    x := WalkSection(s, Sec(bs[0].body), Sec(ts[0].body), cur + [Segment(f.key, Get(ts[0].body, uk))], marks);
    var marks' := if x.Walked? then x.marks + {bs[0].id} else {};
    y := WalkSection(s, Sec(bs[1].body), Sec(ts[1].body), cur + [Segment(f.key, Get(ts[1].body, uk))], marks');
    assert ts[1..][0] == ts[1] && ts[1..][1..] == [];
    assert x.Walked? ==> WalkItem(f, uk, s, bs, ts[0], cur, fin, marks) == Walked(x.changes, marks');
    assert y.Raised? ==> WalkItem(f, uk, s, bs, ts[1], cur, fin, marks').Raised?;
    assert y.Raised? ==> WalkItems(f, uk, s, bs, ts[1..], cur, fin, marks').Raised?;
    if x.Walked? && y.Walked? {
      assert WalkItems(f, uk, s, bs, ts[1..], cur, fin, marks') == Walked(y.changes + [], y.marks + {bs[1].id});
      assert y.changes + [] == y.changes;
    }
  }

  /** No removal is recorded for the two queues. */
  lemma QueuesSilent(b: Node, t: Node, qa: Item, qb: Item, qt: Item, shared: seq<Item>, kept: seq<Item>,
                     names: (string, string), rest: map<string, Node>, path: Path, marks: set<nat>)
    requires names.0 != names.1 && Resources(shared, kept, rest)
    requires qa.body == QueueBody(names.0, shared, rest)
    requires qb.body == QueueBody(names.1, shared, rest) && qt.body == QueueBody(names.1, kept, rest)
    requires ListOf(b, "SlurmQueues") == [qa, qb] && ListOf(t, "SlurmQueues") == [qa, qt]
    requires WalkField(QUEUES, b, t, path, path, marks).Walked?
    ensures WalkField(QUEUES, b, t, path, path, marks).changes == []
  {
    hide WalkSection, WalkRemoved, WalkItems, Accepted, SubList, GoodKeys, Segment, QUEUE;
    var bs, ts := [qa, qb], [qa, qt];
    assert "Name" in qa.body && "Name" in qb.body && bs[1..][0] == qb;
    assert Get(qa.body, "Name") == Leaf(Str(names.0)) && Get(qb.body, "Name") == Leaf(Str(names.1));
    assert MatchOf(bs, "Name", ts[0]) == 0 && MatchOf(bs, "Name", ts[1]) == 1;
    FragmentKeys();
    SubListItself("Name", RESOURCE, shared, kept);
    ResourceItemAccepted(shared, names.0, rest);
    var x, y := TwoItems(QUEUES, "Name", QUEUE, bs, ts, path, path, marks);
    var pathA, pathB := path + [Segment("SlurmQueues", Name(qa))], path + [Segment("SlurmQueues", Name(qt))];
    NothingRecorded(QUEUE, Sec(qa.body), pathA, marks);
    QueueMarksResources(names.0, shared, rest, pathA, marks);
    MarkedQueueSilent(names.1, shared, kept, rest, pathB, x.marks + {qa.id});
    SectionLacksOnlyRemovals(QUEUE, Sec(qb.body), Sec(qt.body), pathB, x.marks + {qa.id});
    MarkedNotRemoved(QUEUES, bs, 0, path, y.marks + {qb.id});
  }

  lemma SupportedAllowed(base: Node, target: Node, c: Change, fleet: Fleet, parsers: Parsers)
    requires c.policy == Supported
    ensures Allowed(Patch(base, target, [c]), fleet, parsers)
  {
    var patch := Patch(base, target, [c]);
    assert Check(c, patch, fleet, parsers, None) == (Some(SUCCEEDED), None);
    assert CheckAll([c][1..], patch, fleet, parsers, None) == Some(Report(true, []));
  }

  /** A resource is taken away from the queue. */
  ghost predicate Loses(shared: seq<Item>, kept: seq<Item>) {
    exists k :: 0 <= k < |shared| && !StillThere(kept, shared[k])
  }

  lemma LosingIsUnsafe(queue: string, shared: seq<Item>, kept: seq<Item>, rest: map<string, Node>, id: nat, parsers: Parsers)
    ensures Loses(shared, kept) ==> !QueueSafe(Item(id, QueueBody(queue, shared, rest)),
                                               Item(id, QueueBody(queue, kept, rest)), parsers)
  {
    var b, t := Item(id, QueueBody(queue, shared, rest)), Item(id, QueueBody(queue, kept, rest));
    assert ResourceList(b) == shared && ResourceList(t) == kept;
    if Loses(shared, kept) {
      var k :| 0 <= k < |shared| && !StillThere(kept, shared[k]);
      assert !StillThere(ResourceList(t), ResourceList(b)[k]);
    }
  }

  // ------------------------------------------------------------ the theorem

  /** For every list of compute resources that two base queues share and every part of it that the target keeps in the
      second queue: the comparison records the unrelated change and no removal, so the update is allowed whatever is
      running, though the queue that loses a resource is not safe. */
  lemma SharedResourcesVanish(a: string, b: string, shared: seq<Item>, kept: seq<Item>, rest: map<string, Node>,
                              ids: (nat, nat), before: string, after: string, fleet: Fleet, parsers: Parsers)
    requires a != b && before != after && Resources(shared, kept, rest)
    ensures var base := Config(before, Item(ids.0, QueueBody(a, shared, rest)),
                               Item(ids.1, QueueBody(b, shared, rest)));
            var target := Config(after, Item(ids.0, QueueBody(a, shared, rest)),
                                 Item(ids.1, QueueBody(b, kept, rest)));
            var change := Change(["Scheduling"], "ScalingStrategy", Leaf(Str(before)), Leaf(Str(after)), Supported, false);
            && Accepted(CLUSTER, base) && Accepted(CLUSTER, target)
            && WalkSection(CLUSTER, base, target, [], {}).Walked?
            && WalkSection(CLUSTER, base, target, [], {}).changes == [change]
            && Allowed(Patch(base, target, [change]), fleet, parsers)
            && (Loses(shared, kept) ==> !QueueSafe(Item(ids.1, QueueBody(b, shared, rest)),
                                                   Item(ids.1, QueueBody(b, kept, rest)), parsers))
  {
    hide Accepted, Allowed, WalkSection, WalkField, SubList, CLUSTER, QUEUES, QueueSafe, Loses;
    LosingIsUnsafe(b, shared, kept, rest, ids.1, parsers);
    var qa, qb := Item(ids.0, QueueBody(a, shared, rest)), Item(ids.1, QueueBody(b, shared, rest));
    var qt := Item(ids.1, QueueBody(b, kept, rest));
    var base, target := Config(before, qa, qb), Config(after, qa, qt);
    SubListItself("Name", RESOURCE, shared, kept);
    ConfigAccepted(a, b, shared, shared, rest, ids, before);
    ConfigAccepted(a, b, shared, kept, rest, ids, after);
    Returns(base, target);
    var s, s' := Entry(base, "Scheduling"), Entry(target, "Scheduling");
    assert Get(s.body, "ScalingStrategy") == Leaf(Str(before)) && Get(s'.body, "ScalingStrategy") == Leaf(Str(after));
    assert "ScalingStrategy" in s.body && "ScalingStrategy" in s'.body;
    var x, y := SchedulingWalk(base, target);
    StrategyRecorded(s, s', Leaf(Str(before)), Leaf(Str(after)), ["Scheduling"]);
    QueuesSilent(s, s', qa, qb, qt, shared, kept, (a, b), rest, ["Scheduling"], x.marks);
    SupportedAllowed(base, target, x.changes[0], fleet, parsers);
  }

  lemma StrategyRecorded(b: Node, t: Node, before: Node, after: Node, path: Path)
    requires Truthy(b) && Truthy(t) && b.Sec? && t.Sec? && before != after
    requires Entry(b, "ScalingStrategy") == before && Entry(t, "ScalingStrategy") == after
    ensures WalkField(SCALING_STRATEGY, b, t, path, path, {})
            == Walked([Change(path, "ScalingStrategy", before, after, Supported, false)], {})
  {
  }
}

/** The limits of what recorded changes say: a target that repeats a name within a list is not determined by them, and
    with custom actions that switch form they determine the target by their order, not by what each of them says. */
module LostChanges {
  import opened Values
  import opened Schema
  import opened ConfigDiff
  import opened Meaning
  import opened QueueFragment

  const BUCKET := Field("BucketName", Param, Supported)
  const KEY := Field("KeyName", Param, Supported)
  const ACCESS := Schema([BUCKET, KEY])
  const S3_ACCESS := Field("S3Access", Many("BucketName", ACCESS), Supported)
  const IAM := Schema([S3_ACCESS])

  /** An entry of `S3Access`; nothing stops two entries from naming one bucket. */
  function Access(id: nat, bucket: string, key: string): Item {
    Item(id, map["BucketName" := Leaf(Str(bucket)), "KeyName" := Leaf(Str(key))])
  }

  function AccessList(items: seq<Item>): Node { Sec(map["S3Access" := Items(items)]) }

  lemma AccessDiff(b: Item, t: Item, bucket: string, before: string, after: string, path: Path)
    requires b == Access(b.id, bucket, before) && t == Access(t.id, bucket, after)
    ensures Diff(ACCESS, Sec(b.body), Sec(t.body), path)
            == if before == after then []
               else [Change(path, "KeyName", Leaf(Str(before)), Leaf(Str(after)), Supported, false)]
  {
    var x, y := Sec(b.body), Sec(t.body);
    assert "BucketName" in b.body && "BucketName" in t.body && "KeyName" in b.body && "KeyName" in t.body;
    assert [BUCKET, KEY][1..] == [KEY] && [KEY][1..] == [];
    assert FinalPath([KEY], x, y, path) == path && FinalPath([BUCKET, KEY], x, y, path) == path;
    assert DiffField(BUCKET, x, y, path, path) == [];
    assert DiffFields([KEY], x, y, path, path) == DiffField(KEY, x, y, path, path) + DiffFields([], x, y, path, path);
    assert DiffFields([KEY], x, y, path, path) == DiffField(KEY, x, y, path, path);
  }

  /** The items of a list one after the other. */
  lemma FirstItem(bs: seq<Item>, ts: seq<Item>, path: Path)
    requires ts != []
    ensures DiffItems(S3_ACCESS, "BucketName", ACCESS, bs, ts, path, path)
            == DiffItem(S3_ACCESS, "BucketName", ACCESS, bs, ts[0], path, path)
               + DiffItems(S3_ACCESS, "BucketName", ACCESS, bs, ts[1..], path, path)
  {
  }

  /** A base with one entry, and a target that has it with another key, alone or behind the entry as it was. */
  lemma AccessListDiff(base: seq<Item>, ts: seq<Item>, bucket: string, x: string, y: string)
    requires x != y && base == [Access(0, bucket, x)]
    requires ts == [Access(1, bucket, y)] || ts == [Access(2, bucket, x), Access(1, bucket, y)]
    ensures Diff(IAM, AccessList(base), AccessList(ts), [])
            == [Change([Segment("S3Access", Leaf(Str(bucket)))], "KeyName", Leaf(Str(x)), Leaf(Str(y)), Supported, false)]
  {
    var b, t := AccessList(base), AccessList(ts);
    var name := Leaf(Str(bucket));
    assert "S3Access" in b.body && "S3Access" in t.body && ListOf(b, "S3Access") == base && ListOf(t, "S3Access") == ts;
    assert "BucketName" in Access(0, bucket, x).body;
    assert forall i :: 0 <= i < |ts| ==> Get(ts[i].body, "BucketName") == name;
    assert Get(base[0].body, "BucketName") == name && base[0].body != map[];
    assert forall i :: 0 <= i < |ts| ==> MatchOf(base, "BucketName", ts[i]) == 0;
    var path: Path := [Segment("S3Access", name)];
    assert [] + path == path;
    var last := |ts| - 1;
    AccessDiff(base[0], ts[last], bucket, x, y, path);
    hide Diff, Access, ACCESS, Segment;
    var edit := Change(path, "KeyName", Leaf(Str(x)), Leaf(Str(y)), Supported, false);
    assert DiffItem(S3_ACCESS, "BucketName", ACCESS, base, ts[last], [], []) == [edit];
    assert ts[last..] == [ts[last]] && ts[last..][1..] == [];
    FirstItem(base, ts[last..], []);
    assert DiffItems(S3_ACCESS, "BucketName", ACCESS, base, [], [], []) == [];
    if |ts| == 2 {
      AccessDiff(base[0], ts[0], bucket, x, x, path);
      assert ts[1..] == ts[last..];
      FirstItem(base, ts, []);
    }
    assert ts[0..] == ts;
    assert DiffItems(S3_ACCESS, "BucketName", ACCESS, base, ts, [], []) == [edit];
    NoneDropped(base, ts);
    OneField(b, t);
  }

  lemma NoneDropped(base: seq<Item>, ts: seq<Item>)
    requires |base| == 1 && ts != [] && forall i :: 0 <= i < |ts| ==> MatchOf(base, "BucketName", ts[i]) == 0
    ensures DiffRemoved(S3_ACCESS, "BucketName", base, ts, 0, []) == []
  {
    hide MatchOf;
    assert MatchOf(base, "BucketName", ts[0]) == 0;
    assert Kept(base, ts, "BucketName", 0);
    assert DiffRemoved(S3_ACCESS, "BucketName", base, ts, 1, []) == [];
  }

  lemma OneField(b: Node, t: Node)
    ensures Diff(IAM, b, t, []) == DiffField(S3_ACCESS, b, t, [], [])
  {
    hide DiffField;
    var fs := [S3_ACCESS];
    assert fs[1..] == [] && Step(S3_ACCESS, b, t, []) == [] && FinalPath([], b, t, []) == [];
    assert FinalPath(fs, b, t, []) == [];
    assert DiffFields(fs, b, t, [], []) == DiffField(S3_ACCESS, b, t, [], []) + DiffFields([], b, t, [], []);
    assert DiffFields(fs, b, t, [], []) == DiffField(S3_ACCESS, b, t, [], []);
  }

  /** On a base with one entry, adding a second entry for its bucket is recorded like editing the one there is, so what
      is recorded does not say which of them the target is. */
  lemma RepeatedNameHides(bucket: string, x: string, y: string)
    requires x != y
    ensures var base := AccessList([Access(0, bucket, x)]);
            var edited := AccessList([Access(1, bucket, y)]);
            var second := AccessList([Access(2, bucket, x), Access(1, bucket, y)]);
            && Diff(IAM, base, edited, []) == Diff(IAM, base, second, [])
            && !Same(IAM, second, edited)
            && UniqueNames(IAM, base) && UniqueNames(IAM, edited) && !UniqueNames(IAM, second)
  {
    var base, ts, us := [Access(0, bucket, x)], [Access(2, bucket, x), Access(1, bucket, y)], [Access(1, bucket, y)];
    AccessListDiff(base, ts, bucket, x, y);
    AccessListDiff(base, us, bucket, x, y);
    Differ(ts, us, bucket, x, y);
    NamesOf(base);
    NamesOf(us);
    NamesOf(ts);
    assert "BucketName" in ts[0].body && "BucketName" in ts[1].body;
    assert Get(ts[0].body, "BucketName") == Get(ts[1].body, "BucketName");
  }

  lemma NamesOf(items: seq<Item>)
    ensures UniqueNames(IAM, AccessList(items)) <==> UniqueItemNames(items, "BucketName")
  {
    var n := AccessList(items);
    assert "S3Access" in n.body && ListOf(n, "S3Access") == items && IAM.fields == [S3_ACCESS];
    assert FieldUniqueNames(IAM.fields[0], n) <==> UniqueItemNames(items, "BucketName") by {
      forall j | 0 <= j < |items|
        ensures UniqueNames(ACCESS, Sec(items[j].body))
      {
        assert FieldUniqueNames(BUCKET, Sec(items[j].body)) && FieldUniqueNames(KEY, Sec(items[j].body));
      }
    }
  }

  lemma Differ(ts: seq<Item>, us: seq<Item>, bucket: string, x: string, y: string)
    requires x != y && ts == [Access(2, bucket, x), Access(1, bucket, y)] && us == [Access(1, bucket, y)]
    ensures !Same(IAM, AccessList(ts), AccessList(us))
  {
    var t, u := AccessList(ts), AccessList(us);
    assert ListOf(t, "S3Access") == ts && ListOf(u, "S3Access") == us && IAM.fields[0] == S3_ACCESS;
    assert "BucketName" in ts[0].body && "BucketName" in us[0].body;
    assert Get(ts[0].body, "BucketName") == Get(us[0].body, "BucketName");
    assert FirstMatch(us, "BucketName", Get(ts[0].body, "BucketName")) == 0;
    assert ReadParam("KeyName", Sec(ts[0].body)) != ReadParam("KeyName", Sec(us[0].body)) by {
      assert "KeyName" in ts[0].body && "KeyName" in us[0].body;
      assert Get(ts[0].body, "KeyName") != Get(us[0].body, "KeyName");
    }
    assert ACCESS.fields[1] == KEY && !FieldSame(KEY, Sec(ts[0].body), Sec(us[0].body));
    assert !Same(ACCESS, Sec(ts[0].body), Sec(us[0].body));
    if Same(IAM, t, u) {
      SameCounterpart(t, u, ts, us);
    }
  }

  lemma SameCounterpart(t: Node, u: Node, ts: seq<Item>, us: seq<Item>)
    requires Same(IAM, t, u) && ts == ListOf(t, "S3Access") && us == ListOf(u, "S3Access") && ts != []
    ensures var i := FirstMatch(us, "BucketName", Get(ts[0].body, "BucketName"));
            i < |us| && Same(ACCESS, Sec(ts[0].body), Sec(us[i].body))
  {
    assert IAM.fields[0] == S3_ACCESS && FieldSame(S3_ACCESS, t, u);
    hide Same;
  }

  // ------------------------------------------------------------ custom actions that switch form

  const START := Field("OnNodeStart", Nested(ACTION), QueueUpdateStrategy)
  const CONFIGURED := Field("OnNodeConfigured", Nested(ACTION), QueueUpdateStrategy)

  function Sequence(scripts: seq<Json>): Node { Sec(map["Sequence" := Leaf(Arr(scripts))]) }

  /** One script, with arguments or without any. */
  function Script(script: string, args: Option<seq<Json>>): Node {
    if args.None? then Sec(map["Script" := Leaf(Str(script))])
    else Sec(map["Script" := Leaf(Str(script)), "Args" := Leaf(Arr(args.value))])
  }

  function Actions(start: Node, configured: Node): Node {
    Sec(map["OnNodeStart" := start, "OnNodeConfigured" := configured])
  }

  function ToScript(path: Path, event: string, scripts: seq<Json>, script: string): Change {
    Change(path, event, Sec(map["Sequence" := Leaf(Arr(scripts))]), Sec(map["Script" := Leaf(Str(script))]),
           QueueUpdateStrategy, false)
  }

  function ArgsAdded(path: Path, args: seq<Json>): Change {
    Change(path, "Args", NONE, Leaf(Arr(args)), QueueUpdateStrategy, false)
  }

  /** What one custom action records when it goes from a sequence to a script. */
  lemma ActionDiff(scripts: seq<Json>, script: string, args: Option<seq<Json>>, path: Path, event: string)
    requires scripts != []
    ensures Diff(ACTION, Sequence(scripts), Script(script, args), path + [event])
            == [ToScript(path, event, scripts, script)] + if args.Some? then [ArgsAdded(path, args.value)] else []
  {
    var b, t := Sequence(scripts), Script(script, args);
    var fs := [Field("Script", Param, QueueUpdateStrategy), Field("Args", Param, QueueUpdateStrategy)];
    var cur := path + [event];
    assert "Sequence" in b.body && "Script" in t.body && "Script" !in b.body && "Args" !in b.body;
    assert ReadParam("Script", b) == (Leaf(Arr(scripts)), "Sequence");
    assert ReadParam("Script", t) == (Leaf(Str(script)), "Script");
    assert cur[..|cur| - 1] == path && cur[|cur| - 1] == event;
    assert Step(fs[0], b, t, cur) == path && Step(fs[1], b, t, path) == path;
    assert fs[1..] == [fs[1]] && [fs[1]][1..] == [];
    assert FinalPath([], b, t, path) == path;
    assert FinalPath([fs[1]], b, t, path) == path;
    assert FinalPath(fs, b, t, cur) == FinalPath(fs[1..], b, t, Step(fs[0], b, t, cur));
    assert DiffField(fs[0], b, t, cur, path) == [ToScript(path, event, scripts, script)];
    assert DiffField(fs[1], b, t, path, path) == if args.Some? then [ArgsAdded(path, args.value)] else [];
    assert DiffFields([], b, t, path, path) == [];
    assert DiffFields([fs[1]], b, t, path, path) == DiffField(fs[1], b, t, path, path) + [];
  }

  lemma ActionsDiff(scripts: seq<Json>, script: string, start: Option<seq<Json>>, configured: Option<seq<Json>>, path: Path)
    requires scripts != []
    ensures Diff(ACTIONS, Actions(Sequence(scripts), Sequence(scripts)),
                 Actions(Script(script, start), Script(script, configured)), path)
            == ([ToScript(path, "OnNodeStart", scripts, script)]
                + if start.Some? then [ArgsAdded(path, start.value)] else [])
               + ([ToScript(path, "OnNodeConfigured", scripts, script)]
                  + if configured.Some? then [ArgsAdded(path, configured.value)] else [])
  {
    var b := Actions(Sequence(scripts), Sequence(scripts));
    var t := Actions(Script(script, start), Script(script, configured));
    assert "OnNodeStart" in b.body && "OnNodeStart" in t.body;
    assert "OnNodeConfigured" in b.body && "OnNodeConfigured" in t.body;
    assert "Sequence" in Sequence(scripts).body && "Script" in Script(script, start).body;
    assert "Script" in Script(script, configured).body;
    ActionDiff(scripts, script, start, path, "OnNodeStart");
    ActionDiff(scripts, script, configured, path, "OnNodeConfigured");
    hide Diff, Script, Sequence, ToScript, ArgsAdded, ACTION;
    var fs := [START, CONFIGURED];
    assert ACTIONS.fields == fs;
    var first, second := DiffField(START, b, t, path, path), DiffField(CONFIGURED, b, t, path, path);
    assert first == Diff(ACTION, Sequence(scripts), Script(script, start), path + ["OnNodeStart"]);
    assert second == Diff(ACTION, Sequence(scripts), Script(script, configured), path + ["OnNodeConfigured"]);
    TwoSections(fs, b, t, path, first, second);
  }

  lemma TwoSections(fs: seq<Field>, b: Node, t: Node, path: Path, first: seq<Change>, second: seq<Change>)
    requires fs == [START, CONFIGURED]
    requires first == DiffField(START, b, t, path, path) && second == DiffField(CONFIGURED, b, t, path, path)
    ensures Diff(Schema(fs), b, t, path) == first + second
  {
    hide DiffField;
    assert fs[1..] == [CONFIGURED] && [CONFIGURED][1..] == [];
    assert DiffFields([], b, t, path, path) == [] && second + [] == second;
    assert Step(CONFIGURED, b, t, path) == path && Step(START, b, t, path) == path;
    assert FinalPath([], b, t, path) == path;
    assert FinalPath([CONFIGURED], b, t, path) == path;
    assert FinalPath(fs, b, t, path) == path;
    assert DiffFields([CONFIGURED], b, t, path, path) == second;
  }

  /** When both custom actions of a queue switch from a sequence to a script, the arguments given to the one are recorded
      as the same change as those given to the other: as a multiset, their order left aside, the changes are the same. Only
      their order tells the two targets apart. */
  lemma OrderTellsSection(scripts: seq<Json>, script: string, args: seq<Json>, path: Path)
    requires scripts != []
    ensures var base := Actions(Sequence(scripts), Sequence(scripts));
            var t := Actions(Script(script, Some(args)), Script(script, None));
            var u := Actions(Script(script, None), Script(script, Some(args)));
            && multiset(Diff(ACTIONS, base, t, path)) == multiset(Diff(ACTIONS, base, u, path))
            && Diff(ACTIONS, base, t, path) != Diff(ACTIONS, base, u, path)
            && !Same(ACTIONS, t, u)
  {
    var x, y := ToScript(path, "OnNodeStart", scripts, script), ToScript(path, "OnNodeConfigured", scripts, script);
    var c := ArgsAdded(path, args);
    assert c != y;
    hide Diff, Same, ToScript, ArgsAdded, Script, Sequence, Actions, ACTIONS;
    ActionsDiff(scripts, script, Some(args), None, path);
    ActionsDiff(scripts, script, None, Some(args), path);
    ArgsDiffer(script, args);
    LastTwoSwapped(x, c, y);
  }

  lemma LastTwoSwapped(x: Change, c: Change, y: Change)
    ensures multiset(([x] + [c]) + ([y] + [])) == multiset(([x] + []) + ([y] + [c]))
    ensures c != y ==> ([x] + [c]) + ([y] + []) != ([x] + []) + ([y] + [c])
  {
    assert ([x] + [c]) + ([y] + []) == [x, c, y] && ([x] + []) + ([y] + [c]) == [x, y, c];
    assert multiset([x, c, y]) == multiset([x, y, c]);
    assert [x, c, y][1] == c && [x, y, c][1] == y;
  }

  /** When both are given the same arguments besides, one change is recorded twice. */
  lemma SameArgsTwice(scripts: seq<Json>, script: string, args: seq<Json>, path: Path)
    requires scripts != []
    ensures var cs := Diff(ACTIONS, Actions(Sequence(scripts), Sequence(scripts)),
                           Actions(Script(script, Some(args)), Script(script, Some(args))), path);
            |cs| == 4 && cs[1] == cs[3] == ArgsAdded(path, args)
  {
    hide Diff, ArgsAdded, ToScript, Script, Sequence, Actions, ACTIONS;
    ActionsDiff(scripts, script, Some(args), Some(args), path);
  }

  lemma ArgsDiffer(script: string, args: seq<Json>)
    ensures !Same(ACTIONS, Actions(Script(script, Some(args)), Script(script, None)),
                  Actions(Script(script, None), Script(script, Some(args))))
  {
    var t := Actions(Script(script, Some(args)), Script(script, None));
    var u := Actions(Script(script, None), Script(script, Some(args)));
    var some, none := Script(script, Some(args)), Script(script, None);
    assert "OnNodeStart" in t.body && "OnNodeStart" in u.body;
    assert Entry(t, "OnNodeStart") == some && Entry(u, "OnNodeStart") == none;
    assert "Args" in some.body && "Args" !in none.body && "Script" in none.body;
    assert ReadParam("Args", some) != ReadParam("Args", none);
    assert ACTION.fields[1].key == "Args" && !FieldSame(ACTION.fields[1], some, none);
    assert !Same(ACTION, some, none);
    assert ACTIONS.fields[0] == START && !FieldSame(START, t, u);
  }
}

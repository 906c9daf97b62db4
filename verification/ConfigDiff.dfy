/** The difference between two configurations as a function of their values: what the comparison is meant to record.
    The traversal that marks list items in place and may raise is in MarkedDiff. */
module ConfigDiff {
  import opened Values
  import opened Schema

  /** `_get_value_from_section`: the value of a parameter and the key it was found under. A missing `Script` is read
      from `Sequence`. */
  function ReadParam(key: string, section: Node): (Node, string) {
    if !Truthy(section) then (NONE, key)
    else if key == "Script" && Entry(section, key) == NONE then
      var v := Entry(section, "Sequence");
      (v, if Truthy(v) then "Sequence" else key)
    else (Entry(section, key), key)
  }

  /** A custom action moved between its `Script` and its `Sequence` form. */
  predicate Switches(f: Field, b: Node, t: Node) {
    f.kind.Param? && ReadParam(f.key, b).1 != ReadParam(f.key, t).1
  }

  /** The path list after a field was visited: a switch pops the last segment. */
  function Step(f: Field, b: Node, t: Node, cur: Path): Path {
    if Switches(f, b, t) && cur != [] then cur[..|cur| - 1] else cur
  }

  /** The path list of a section once all its fields were visited; every change of the section shares it. */
  function FinalPath(fs: seq<Field>, b: Node, t: Node, cur: Path): Path {
    if fs == [] then cur else FinalPath(fs[1..], b, t, Step(fs[0], b, t, cur))
  }

  function OrDash(n: Node): Node { if Truthy(n) then n else DASH }

  /** Index of the first item with the given update-key value, or the length of the list. */
  function FirstMatch(items: seq<Item>, updateKey: string, name: Node): (j: nat)
    ensures j <= |items|
    ensures forall i :: 0 <= i < j ==> Get(items[i].body, updateKey) != name
    ensures j < |items| ==> Get(items[j].body, updateKey) == name
  {
    if items == [] then 0
    else if Get(items[0].body, updateKey) == name then 0
    else 1 + FirstMatch(items[1..], updateKey, name)
  }

  /** The base item a target item is compared with, if any: the first with its update key, unless it is empty. */
  function MatchOf(bs: seq<Item>, updateKey: string, t: Item): (j: nat)
    ensures j <= |bs|
  {
    var j := FirstMatch(bs, updateKey, Get(t.body, updateKey));
    if j < |bs| && bs[j].body != map[] then j else |bs|
  }

  /** Some target item is compared with base item `j`. */
  predicate Kept(bs: seq<Item>, ts: seq<Item>, updateKey: string, j: nat) {
    exists i :: 0 <= i < |ts| && MatchOf(bs, updateKey, ts[i]) == j
  }

  function Added(fin: Path, f: Field, t: Item): Change {
    Change(fin, f.key, NONE, Sec(t.body), f.policy, true)
  }

  function RemovedItem(fin: Path, f: Field, b: Item): Change {
    Change(fin, f.key, Sec(b.body), NONE, f.policy, true)
  }

  function Diff(s: Schema, b: Node, t: Node, path: Path): seq<Change>
    decreases s, 1
  {
    DiffFields(s.fields, b, t, path, FinalPath(s.fields, b, t, path))
  }

  function DiffFields(fs: seq<Field>, b: Node, t: Node, cur: Path, fin: Path): seq<Change>
    decreases fs, 0
  {
    if fs == [] then []
    else DiffField(fs[0], b, t, cur, fin) + DiffFields(fs[1..], b, t, Step(fs[0], b, t, cur), fin)
  }

  function DiffField(f: Field, b: Node, t: Node, cur: Path, fin: Path): seq<Change>
    decreases f, 2
  {
    match f.kind
    case Param => DiffParam(f, b, t, cur, fin)
    case Nested(s) => DiffNested(f, s, b, t, cur, fin)
    case Many(uk, s) =>
      DiffItems(f, uk, s, ListOf(b, f.key), ListOf(t, f.key), cur, fin)
      + DiffRemoved(f, uk, ListOf(b, f.key), ListOf(t, f.key), 0, fin)
  }

  function DiffParam(f: Field, b: Node, t: Node, cur: Path, fin: Path): seq<Change> {
    var (bv, bk) := ReadParam(f.key, b);
    var (tv, tk) := ReadParam(f.key, t);
    if bk != tk then
      [Change(fin, if cur == [] then "" else cur[|cur| - 1], Sec(map[bk := bv]), Sec(map[tk := tv]), f.policy, false)]
    else if tv != bv then [Change(fin, tk, bv, tv, f.policy, false)]
    else []
  }

  /** The two sides of a nested section are compared field by field. */
  predicate Traversed(f: Field, bv: Node, tv: Node) {
    (Truthy(bv) && Truthy(tv)) || ((Truthy(bv) || Truthy(tv)) && f.policy == Ignored)
  }

  function DiffNested(f: Field, s: Schema, b: Node, t: Node, cur: Path, fin: Path): seq<Change>
    requires f.kind == Nested(s)
    decreases f, 0
  {
    var bv, tv := Entry(b, f.key), Entry(t, f.key);
    if Traversed(f, bv, tv) then Diff(s, bv, tv, cur + [f.key])
    else if Truthy(bv) || Truthy(tv) then [Change(fin, f.key, OrDash(bv), OrDash(tv), f.policy, false)]
    else []
  }

  /** One target item at a time: compare it with its base item, or record it as added. */
  function DiffItems(f: Field, uk: string, s: Schema, bs: seq<Item>, ts: seq<Item>, cur: Path, fin: Path): seq<Change>
    requires f.kind == Many(uk, s)
    decreases f, 1, |ts|
  {
    if ts == [] then []
    else DiffItem(f, uk, s, bs, ts[0], cur, fin) + DiffItems(f, uk, s, bs, ts[1..], cur, fin)
  }

  function DiffItem(f: Field, uk: string, s: Schema, bs: seq<Item>, t: Item, cur: Path, fin: Path): seq<Change>
    requires f.kind == Many(uk, s)
    decreases f, 0
  {
    var j := MatchOf(bs, uk, t);
    if j < |bs| then Diff(s, Sec(bs[j].body), Sec(t.body), cur + [Segment(f.key, Get(t.body, uk))])
    else [Added(fin, f, t)]
  }

  /** The base items from index `j` on that no target item was compared with. */
  function DiffRemoved(f: Field, uk: string, bs: seq<Item>, ts: seq<Item>, j: nat, fin: Path): seq<Change>
    requires j <= |bs|
    decreases |bs| - j
  {
    if j == |bs| then []
    else (if Kept(bs, ts, uk, j) then [] else [RemovedItem(fin, f, bs[j])]) + DiffRemoved(f, uk, bs, ts, j + 1, fin)
  }
}

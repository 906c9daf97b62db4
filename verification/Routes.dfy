/** From a difference at a known place of the two configurations to the change recorded for it, and back. */
module Routes {
  import opened Values
  import opened Schema
  import opened ConfigDiff
  import opened DiffShape
  import opened PathText
  import opened Meaning

  lemma FieldRecorded(s: Schema, f: Field, b: Node, t: Node, path: Path, c: Change)
    requires NoScript(s) && f in s.fields && c in DiffField(f, b, t, path, path)
    ensures c in Diff(s, b, t, path)
  {
    InPlainSection(s, b, t, path, c);
    var i :| 0 <= i < |s.fields| && s.fields[i] == f;
  }

  /** A change below a section that both sides have is a change of the whole. */
  lemma SectionRecorded(s: Schema, f: Field, b: Node, t: Node, path: Path, c: Change)
    requires NoScript(s) && f in s.fields && f.kind.Nested? && Traversed(f, Entry(b, f.key), Entry(t, f.key))
    requires c in Diff(f.kind.section, Entry(b, f.key), Entry(t, f.key), path + [f.key])
    ensures c in Diff(s, b, t, path)
  {
    FieldRecorded(s, f, b, t, path, c);
  }

  /** A change below an item that both sides have is a change of the whole. */
  lemma ItemRecorded(s: Schema, f: Field, b: Node, t: Node, path: Path, i: nat, c: Change)
    requires NoScript(s) && f in s.fields && f.kind.Many?
    requires i < |ListOf(t, f.key)|
    requires c in DiffItem(f, f.kind.updateKey, f.kind.item, ListOf(b, f.key), ListOf(t, f.key)[i], path, path)
    ensures c in Diff(s, b, t, path)
  {
    InItems(f, f.kind.updateKey, f.kind.item, ListOf(b, f.key), ListOf(t, f.key), path, path, c);
    assert c in DiffField(f, b, t, path, path);
    FieldRecorded(s, f, b, t, path, c);
  }

  /** A base item that no target item is compared with is recorded as removed. */
  lemma RemovalRecorded(s: Schema, f: Field, b: Node, t: Node, path: Path, k: nat)
    requires NoScript(s) && f in s.fields && f.kind.Many?
    requires k < |ListOf(b, f.key)| && !Kept(ListOf(b, f.key), ListOf(t, f.key), f.kind.updateKey, k)
    ensures RemovedItem(path, f, ListOf(b, f.key)[k]) in Diff(s, b, t, path)
  {
    var c := RemovedItem(path, f, ListOf(b, f.key)[k]);
    InRemoved(f, f.kind.updateKey, ListOf(b, f.key), ListOf(t, f.key), 0, path, c);
    assert c in DiffField(f, b, t, path, path);
    FieldRecorded(s, f, b, t, path, c);
  }

  // ------------------------------------------------------------ from a change back to its place

  /** Popping a path cannot produce a change called `key`: a section with a script has parameters only, none of them
      called `key`, and is not itself called `key`. */
  ghost predicate KeepsPath(s: Schema, key: string)
    decreases s, 1
  {
    && (!NoScript(s) ==> forall i :: 0 <= i < |s.fields| ==> s.fields[i].kind.Param? && s.fields[i].key != key)
    && forall i :: 0 <= i < |s.fields| ==> FieldKeepsPath(s.fields[i], key)
  }

  ghost predicate FieldKeepsPath(f: Field, key: string)
    decreases f, 0
  {
    match f.kind
    case Param => true
    case Nested(s) => KeepsPath(s, key) && (!NoScript(s) ==> f.key != key)
    case Many(_, s) => KeepsPath(s, key)
  }

  /** All changes of a section with parameters only are called after a parameter, or after the popped segment. */
  lemma {:induction false} ParamsOnly(fs: seq<Field>, b: Node, t: Node, cur: Path, fin: Path, last: string, c: Change)
    requires forall i :: 0 <= i < |fs| ==> fs[i].kind.Param? && fs[i].key != c.key
    requires forall i, j :: 0 <= i < j < |fs| ==> fs[i].key != fs[j].key
    requires c in DiffFields(fs, b, t, cur, fin)
    requires (exists i :: 0 <= i < |fs| && fs[i].key == "Script") ==> cur != [] && cur[|cur| - 1] == last
    ensures c.key == "Sequence" || c.key == last
    decreases |fs|
  {
    if c !in DiffField(fs[0], b, t, cur, fin) {
      ParamsOnly(fs[1..], b, t, Step(fs[0], b, t, cur), fin, last, c);
    }
  }

  lemma {:induction false} KeptBelow(s: Schema, b: Node, t: Node, path: Path, c: Change)
    requires GoodKeys(s) && KeepsPath(s, c.key) && c.key != "Sequence" && Plain(c.key) && path != []
    requires !NoScript(s) ==> path[|path| - 1] != c.key
    requires c in Diff(s, b, t, path)
    ensures path <= c.path
    decreases s, 1
  {
    if NoScript(s) {
      InPlainSection(s, b, t, path, c);
      var i :| 0 <= i < |s.fields| && c in DiffField(s.fields[i], b, t, path, path);
      assert FieldKeepsPath(s.fields[i], c.key) && GoodField(s.fields[i]);
      FieldKeptBelow(s.fields[i], b, t, path, c);
    } else {
      ParamsOnly(s.fields, b, t, path, FinalPath(s.fields, b, t, path), path[|path| - 1], c);
      assert false;
    }
  }

  lemma {:induction false} FieldKeptBelow(f: Field, b: Node, t: Node, path: Path, c: Change)
    requires GoodField(f) && FieldKeepsPath(f, c.key) && c.key != "Sequence" && f.key != "Script"
    requires Plain(c.key)
    requires c in DiffField(f, b, t, path, path)
    ensures Below(f, path, c)
    decreases f, 0
  {
    match f.kind
    case Param =>
    case Nested(s) =>
      var bv, tv := Entry(b, f.key), Entry(t, f.key);
      if Traversed(f, bv, tv) {
        KeptBelow(s, bv, tv, path + [f.key], c);
      }
    case Many(uk, s) =>
      var bs, ts := ListOf(b, f.key), ListOf(t, f.key);
      InItems(f, uk, s, bs, ts, path, path, c);
      InRemoved(f, uk, bs, ts, 0, path, c);
      if i :| 0 <= i < |ts| && c in DiffItem(f, uk, s, bs, ts[i], path, path) {
        ItemKeptBelow(f, uk, s, bs, ts[i], path, c);
      }
  }

  lemma {:induction false} ItemKeptBelow(f: Field, uk: string, s: Schema, bs: seq<Item>, t: Item, path: Path, c: Change)
    requires f.kind == Many(uk, s) && GoodField(f) && FieldKeepsPath(f, c.key) && c.key != "Sequence" && Plain(c.key)
    requires c in DiffItem(f, uk, s, bs, t, path, path)
    ensures path <= c.path && (|c.path| == |path| ==> c == Added(path, f, t))
    ensures |c.path| > |path| ==> c.path[|path|] == Segment(f.key, Get(t.body, uk))
    ensures |c.path| > |path| ==> MatchOf(bs, uk, t) < |bs|
    decreases f, 0, 0
  {
    var j := MatchOf(bs, uk, t);
    if j < |bs| {
      var path' := path + [Segment(f.key, Get(t.body, uk))];
      SegmentInjective(f.key, Get(t.body, uk), c.key, NONE);
      KeptBelow(s, Sec(bs[j].body), Sec(t.body), path', c);
      assert c.path[|path|] == path'[|path|];
    }
  }

  /** The items of a list have different names, all of them text. */
  ghost predicate NamedItems(items: seq<Item>, uk: string) {
    UniqueItemNames(items, uk) && forall i :: 0 <= i < |items| ==> IsText(Get(items[i].body, uk))
  }

  /** A field whose segment is the given plain key has that key. */
  lemma SegmentOfKey(key: string, other: string)
    requires Plain(key) && Plain(other) && SegmentOf(other, key)
    ensures other == key
  {
    if other != key {
      var n :| key == Segment(other, n);
      SegmentInjective(other, n, key, n);
    }
  }

  lemma SegmentOfItem(key: string, n: Node, other: string)
    requires Plain(key) && Plain(other) && SegmentOf(other, Segment(key, n))
    ensures other == key
  {
    SegmentInjective(key, n, other, n);
    if m :| Segment(key, n) == Segment(other, m) {
      SegmentInjective(key, n, other, m);
    }
  }

  /** A change found behind a field's segment is a change of that field. */
  lemma DescendField(s: Schema, f: Field, b: Node, t: Node, path: Path, c: Change)
    requires GoodKeys(s) && NoScript(s) && KeepsPath(s, c.key) && Plain(c.key) && c.key != "Sequence"
    requires f in s.fields && c in Diff(s, b, t, path) && |c.path| > |path|
    requires c.path[|path|] == f.key || exists n :: c.path[|path|] == Segment(f.key, n)
    ensures c in DiffField(f, b, t, path, path)
  {
    hide Diff, DiffField, Segment;
    InPlainSection(s, b, t, path, c);
    var i :| 0 <= i < |s.fields| && c in DiffField(s.fields[i], b, t, path, path);
    var k :| 0 <= k < |s.fields| && s.fields[k] == f;
    assert GoodField(s.fields[i]) && FieldKeepsPath(s.fields[i], c.key) && GoodField(s.fields[k]);
    FieldKeptBelow(s.fields[i], b, t, path, c);
    if c.path[|path|] == f.key {
      SegmentOfKey(f.key, s.fields[i].key);
    } else {
      var n :| c.path[|path|] == Segment(f.key, n);
      SegmentOfItem(f.key, n, s.fields[i].key);
    }
    assert i == k;
  }

  /** A change found deeper than a section, behind a nested section's key, is a change of that nested section. */
  lemma DescendSection(s: Schema, f: Field, b: Node, t: Node, path: Path, c: Change)
    requires GoodKeys(s) && NoScript(s) && KeepsPath(s, c.key) && Plain(c.key) && c.key != "Sequence"
    requires f in s.fields && f.kind.Nested?
    requires c in Diff(s, b, t, path) && |c.path| > |path| && c.path[|path|] == f.key
    ensures c in Diff(f.kind.section, Entry(b, f.key), Entry(t, f.key), path + [f.key])
  {
    DescendField(s, f, b, t, path, c);
  }

  /** A change found behind the segment of a target item is a change of that item. */
  lemma DescendItem(s: Schema, f: Field, b: Node, t: Node, path: Path, i: nat, c: Change)
    requires GoodKeys(s) && NoScript(s) && KeepsPath(s, c.key) && Plain(c.key) && c.key != "Sequence"
    requires f in s.fields && f.kind.Many? && i < |ListOf(t, f.key)|
    requires NamedItems(ListOf(t, f.key), f.kind.updateKey)
    requires c in Diff(s, b, t, path) && |c.path| > |path|
    requires c.path[|path|] == Segment(f.key, Get(ListOf(t, f.key)[i].body, f.kind.updateKey))
    ensures c in DiffItem(f, f.kind.updateKey, f.kind.item, ListOf(b, f.key), ListOf(t, f.key)[i], path, path)
  {
    DescendField(s, f, b, t, path, c);
    var k :| 0 <= k < |s.fields| && s.fields[k] == f;
    assert GoodField(s.fields[k]) && FieldKeepsPath(s.fields[k], c.key);
    DescendList(f, f.kind.updateKey, f.kind.item, b, t, path, i, c);
  }

  lemma DescendList(f: Field, uk: string, s: Schema, b: Node, t: Node, path: Path, i: nat, c: Change)
    requires f.kind == Many(uk, s) && GoodField(f) && FieldKeepsPath(f, c.key) && Plain(c.key) && c.key != "Sequence"
    requires i < |ListOf(t, f.key)| && NamedItems(ListOf(t, f.key), uk)
    requires c in DiffField(f, b, t, path, path) && |c.path| > |path|
    requires c.path[|path|] == Segment(f.key, Get(ListOf(t, f.key)[i].body, uk))
    ensures c in DiffItem(f, uk, s, ListOf(b, f.key), ListOf(t, f.key)[i], path, path)
  {
    var bs, ts := ListOf(b, f.key), ListOf(t, f.key);
    assert c in DiffItems(f, uk, s, bs, ts, path, path) + DiffRemoved(f, uk, bs, ts, 0, path);
    hide DiffItem, DiffItems, DiffRemoved, Segment, DiffField;
    InItems(f, uk, s, bs, ts, path, path, c);
    InRemoved(f, uk, bs, ts, 0, path, c);
    var n :| 0 <= n < |ts| && c in DiffItem(f, uk, s, bs, ts[n], path, path);
    ItemKeptBelow(f, uk, s, bs, ts[n], path, c);
    SegmentInjective(f.key, Get(ts[i].body, uk), f.key, Get(ts[n].body, uk));
    SameText(Get(ts[i].body, uk), Get(ts[n].body, uk));
    assert n == i;
  }

  lemma SameText(n: Node, m: Node)
    requires IsText(n) && IsText(m) && Text(n) == Text(m)
    ensures n == m
  {
  }
}

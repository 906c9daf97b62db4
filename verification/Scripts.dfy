/** Which field a recorded change belongs to, also when a custom action switches form and its section's changes move to
    the parent's path. */
module Scripts {
  import opened Values
  import opened Schema
  import opened ConfigDiff
  import opened DiffShape
  import opened PathText
  import opened Raising
  import opened Meaning

  // ------------------------------------------------------------ which field a change belongs to

  /** A section with a script holds parameters only, the script first, and no field around it is called like one of them;
      items of lists hold no script themselves. */
  ghost predicate ScriptsLead(s: Schema)
    decreases s, 1
  {
    && (!NoScript(s) ==> s.fields[0].key == "Script" && forall i :: 0 <= i < |s.fields| ==> s.fields[i].kind.Param?)
    && forall i :: 0 <= i < |s.fields| ==> FieldScriptsLead(s.fields[i]) && KeysApart(s.fields, s.fields[i])
  }

  ghost predicate FieldScriptsLead(f: Field)
    decreases f, 0
  {
    match f.kind
    case Param => true
    case Nested(s) => ScriptsLead(s)
    case Many(_, s) => ScriptsLead(s) && NoScript(s)
  }

  ghost predicate KeysApart(around: seq<Field>, f: Field) {
    forall i :: 0 <= i < |around| ==> !MovesUp(f, around[i].key)
  }

  /** A change with this key may be of a parameter of the section `f`, moved to the path of the section around it. */
  ghost predicate MovesUp(f: Field, key: string) {
    f.kind.Nested? && !NoScript(f.kind.section)
    && exists j :: 0 <= j < |f.kind.section.fields| && f.kind.section.fields[j].key == key
  }

  ghost predicate Own(f: Field, path: Path, c: Change) {
    Below(f, path, c) || (c.path == path && MovesUp(f, c.key))
  }

  /** The changes of a section with a script: those of the script, and those of the other parameters at the path where the
      script leaves them. */
  lemma ScriptDiff(s: Schema, b: Node, t: Node, path: Path, key: string)
    requires GoodKeys(s) && ScriptsLead(s) && !NoScript(s)
    ensures var fin := if Switches(s.fields[0], b, t) then path else path + [key];
            && Diff(s, b, t, path + [key])
               == DiffParam(s.fields[0], b, t, path + [key], fin) + DiffFields(s.fields[1..], b, t, fin, fin)
            && forall i :: 0 <= i < |s.fields[1..]| ==> !Switches(s.fields[1..][i], b, t)
  {
    hide DiffFields, DiffParam, GoodField;
    var fs, cur := s.fields, path + [key];
    assert cur[..|cur| - 1] == path;
    assert forall i :: 0 <= i < |fs[1..]| ==> fs[1..][i] == fs[i + 1];
    assert forall i :: 0 <= i < |fs[1..]| ==> fs[1..][i].key != "Script";
    var fin := Step(fs[0], b, t, cur);
    PathStays(fs[1..], b, t, fin);
    assert FinalPath(fs, b, t, cur) == fin;
    FirstParamDiff(fs, b, t, cur, fin);
  }

  lemma FirstParamDiff(fs: seq<Field>, b: Node, t: Node, cur: Path, fin: Path)
    requires fs != [] && fs[0].kind.Param?
    ensures DiffFields(fs, b, t, cur, fin)
            == DiffParam(fs[0], b, t, cur, fin) + DiffFields(fs[1..], b, t, Step(fs[0], b, t, cur), fin)
  {
    hide DiffParam, Step;
  }

  lemma {:induction false} ParamPaths(fs: seq<Field>, b: Node, t: Node, path: Path, c: Change)
    requires forall i :: 0 <= i < |fs| ==> fs[i].kind.Param? && fs[i].key != "Script" && !Switches(fs[i], b, t)
    requires c in DiffFields(fs, b, t, path, path)
    ensures c.path == path && exists i :: 0 <= i < |fs| && fs[i].key == c.key
  {
    FieldsOfDiff(fs, b, t, path, c);
  }

  /** Every change of a section without a script is at its path or below. */
  lemma {:induction false} SectionPaths(s: Schema, b: Node, t: Node, path: Path, c: Change)
    requires GoodKeys(s) && ScriptsLead(s) && NoScript(s) && c in Diff(s, b, t, path)
    ensures path <= c.path
    decreases s, 1
  {
    InPlainSection(s, b, t, path, c);
    var i :| 0 <= i < |s.fields| && c in DiffField(s.fields[i], b, t, path, path);
    assert GoodField(s.fields[i]) && FieldScriptsLead(s.fields[i]);
    FieldOwns(s.fields[i], b, t, path, c);
  }

  /** Every change of a field is one that can belong to it. */
  lemma {:induction false} FieldOwns(f: Field, b: Node, t: Node, path: Path, c: Change)
    requires GoodField(f) && FieldScriptsLead(f) && !Switches(f, b, t) && c in DiffField(f, b, t, path, path)
    ensures Own(f, path, c)
    decreases f, 0
  {
    match f.kind
    case Param =>
    case Nested(s) =>
      var bv, tv := Entry(b, f.key), Entry(t, f.key);
      if Traversed(f, bv, tv) {
        if NoScript(s) {
          SectionPaths(s, bv, tv, path + [f.key], c);
        } else {
          ScriptOwns(f, s, bv, tv, path, c);
        }
      }
    case Many(uk, s) =>
      if !(path == c.path && c.key == f.key) {
        var i := AtItem(f, uk, s, b, t, path, c);
        ItemOwns(f, uk, s, ListOf(b, f.key), ListOf(t, f.key)[i], path, c);
      }
  }

  /** What a list records elsewhere than at its own path is of a target item that is compared. */
  lemma AtItem(f: Field, uk: string, s: Schema, b: Node, t: Node, path: Path, c: Change) returns (i: nat)
    requires f.kind == Many(uk, s) && c in DiffField(f, b, t, path, path) && !(path == c.path && c.key == f.key)
    ensures var bs, ts := ListOf(b, f.key), ListOf(t, f.key);
            && i < |ts| && MatchOf(bs, uk, ts[i]) < |bs|
            && c in DiffItem(f, uk, s, bs, ts[i], path, path)
  {
    var bs, ts := ListOf(b, f.key), ListOf(t, f.key);
    hide Diff, MatchOf, Kept;
    InItems(f, uk, s, bs, ts, path, path, c);
    InRemoved(f, uk, bs, ts, 0, path, c);
    i :| 0 <= i < |ts| && c in DiffItem(f, uk, s, bs, ts[i], path, path);
  }

  lemma {:induction false} ItemOwns(f: Field, uk: string, s: Schema, bs: seq<Item>, t: Item, path: Path, c: Change)
    requires f.kind == Many(uk, s) && GoodField(f) && FieldScriptsLead(f)
    requires MatchOf(bs, uk, t) < |bs| && c in DiffItem(f, uk, s, bs, t, path, path)
    ensures Own(f, path, c)
    decreases s, 2
  {
    var segment := Segment(f.key, Get(t.body, uk));
    var j := MatchOf(bs, uk, t);
    SectionPaths(s, Sec(bs[j].body), Sec(t.body), path + [segment], c);
    hide Segment, Diff, GoodKeys, ScriptsLead, MatchOf, MovesUp;
    assert c.path[|path|] == (path + [segment])[|path|] == segment;
  }

  lemma ScriptOwns(f: Field, s: Schema, b: Node, t: Node, path: Path, c: Change)
    requires f.kind == Nested(s) && GoodField(f) && FieldScriptsLead(f) && !NoScript(s)
    requires c in Diff(s, b, t, path + [f.key])
    ensures Own(f, path, c)
  {
    ScriptDiff(s, b, t, path, f.key);
    var fin := if Switches(s.fields[0], b, t) then path else path + [f.key];
    var rest := s.fields[1..];
    if c in DiffFields(rest, b, t, fin, fin) {
      assert forall i :: 0 <= i < |rest| ==> rest[i] == s.fields[i + 1];
      ParamPaths(rest, b, t, fin, c);
    }
  }

  /** The first change of a field says which field it is. */
  lemma FirstBelow(f: Field, b: Node, t: Node, path: Path)
    requires GoodField(f) && FieldScriptsLead(f) && !Switches(f, b, t) && DiffField(f, b, t, path, path) != []
    ensures Below(f, path, DiffField(f, b, t, path, path)[0])
  {
    var c := DiffField(f, b, t, path, path)[0];
    FieldOwns(f, b, t, path, c);
    if f.kind.Nested? && !NoScript(f.kind.section) && Traversed(f, Entry(b, f.key), Entry(t, f.key)) {
      FirstOfScript(f.kind.section, Entry(b, f.key), Entry(t, f.key), path, f.key);
    }
  }

  lemma FirstOfScript(s: Schema, b: Node, t: Node, path: Path, key: string)
    requires GoodKeys(s) && ScriptsLead(s) && !NoScript(s) && Diff(s, b, t, path + [key]) != []
    ensures var c := Diff(s, b, t, path + [key])[0];
            if Switches(s.fields[0], b, t) then
              var (tv, tk) := ReadParam("Script", t);
              c.path == path && c.key == key && c.oldValue.Sec? && c.newValue == Sec(map[tk := tv])
            else c.path == path + [key]
  {
    ScriptDiff(s, b, t, path, key);
    var rest := s.fields[1..];
    var c := Diff(s, b, t, path + [key])[0];
    if !Switches(s.fields[0], b, t) && c in DiffFields(rest, b, t, path + [key], path + [key]) {
      assert forall i :: 0 <= i < |rest| ==> rest[i] == s.fields[i + 1];
      ParamPaths(rest, b, t, path + [key], c);
    }
  }

  /** Fields of one section, the first of which is `fs[0]`. */
  ghost predicate InSection(fs: seq<Field>, b: Node, t: Node) {
    && (forall i, j :: 0 <= i < j < |fs| ==> fs[i].key != fs[j].key)
    && forall i :: 0 <= i < |fs| ==>
         GoodField(fs[i]) && FieldScriptsLead(fs[i]) && KeysApart(fs, fs[i]) && !Switches(fs[i], b, t)
         && (fs[i].kind.Param? || NoScript(Schema(fs)))
  }

  lemma TailInSection(fs: seq<Field>, b: Node, t: Node)
    requires fs != [] && InSection(fs, b, t)
    ensures InSection(fs[1..], b, t)
  {
    hide GoodField, FieldScriptsLead, MovesUp, Switches;
    assert forall i :: 0 <= i < |fs[1..]| ==> fs[1..][i] == fs[i + 1];
  }

  /** What follows the changes of a field does not belong to it. */
  lemma {:induction false} RestIsNotOwn(f: Field, fs: seq<Field>, b: Node, t: Node, path: Path)
    requires InSection(fs, b, t) && GoodField(f) && KeysApart(fs, f)
    requires forall i :: 0 <= i < |fs| ==> fs[i].key != f.key && (f.kind.Param? || fs[i].key != "Script")
    ensures var ys := DiffFields(fs, b, t, path, path); ys != [] ==> !Own(f, path, ys[0])
    decreases |fs|
  {
    hide DiffField, GoodField, FieldScriptsLead, Below, MovesUp, Switches;
    if fs != [] {
      TailInSection(fs, b, t);
      var g := fs[0];
      assert KeysApart(fs[1..], f) by {
        assert forall i :: 0 <= i < |fs[1..]| ==> fs[1..][i] == fs[i + 1];
      }
      RestIsNotOwn(f, fs[1..], b, t, path);
      assert Step(g, b, t, path) == path;
      var first := DiffField(g, b, t, path, path);
      if first != [] {
        FirstBelow(g, b, t, path);
        NotBoth(f, g, path, first[0]);
      }
    }
  }

  lemma NotBoth(f: Field, g: Field, path: Path, c: Change)
    requires GoodField(f) && GoodField(g) && f.key != g.key && Below(g, path, c) && !MovesUp(f, g.key)
    requires f.kind.Param? || g.key != "Script"
    ensures !Own(f, path, c)
  {
    hide GoodField;
    if Below(f, path, c) {
      BelowUnique(f, g, path, c);
    }
  }

  lemma SectionKeys(fs: seq<Field>, b: Node, t: Node)
    requires InSection(fs, b, t)
    ensures forall i, j :: 0 <= i < j < |fs| ==> fs[i].key != fs[j].key
    ensures forall i :: 0 <= i < |fs| ==> fs[i].key != "Sequence" && !Switches(fs[i], b, t)
  {
    hide FieldScriptsLead, MovesUp, Switches;
    forall i | 0 <= i < |fs|
      ensures fs[i].key != "Sequence"
    {
      assert GoodField(fs[i]);
    }
  }

  lemma PlainParam(f: Field, b: Node, t: Node)
    requires f.key != "Script"
    ensures !Switches(f, b, t)
  {
  }

  // ------------------------------------------------------------ lists

  /** The list of a target: its items have names of their own, in text. */
  ghost predicate Listed(f: Field, uk: string, s: Schema, t: Node) {
    && f.kind == Many(uk, s) && GoodField(f) && FieldScriptsLead(f)
    && FieldTyped(f, t) && FieldUniqueNames(f, t) && FieldNamed(f, t)
  }

  function ItemsPath(f: Field, uk: string, t: Item, path: Path): Path { path + [Segment(f.key, Get(t.body, uk))] }

  /** What one target item records: its addition at the path of the list, or changes below its own segment. */
  lemma ItemChange(f: Field, uk: string, s: Schema, bs: seq<Item>, t: Node, path: Path, i: nat, c: Change)
    requires Listed(f, uk, s, t) && i < |ListOf(t, f.key)|
    requires c in DiffItem(f, uk, s, bs, ListOf(t, f.key)[i], path, path)
    ensures var ti := ListOf(t, f.key)[i];
            if MatchOf(bs, uk, ti) < |bs| then ItemsPath(f, uk, ti, path) <= c.path else c == Added(path, f, ti)
  {
    var ti := ListOf(t, f.key)[i];
    var j := MatchOf(bs, uk, ti);
    if j < |bs| {
      SectionPaths(s, Sec(bs[j].body), Sec(ti.body), ItemsPath(f, uk, ti, path), c);
    }
  }

  /** Changes below the segment of one item are not below that of another. */
  lemma OtherItem(f: Field, uk: string, s: Schema, t: Node, path: Path, i: nat, k: nat, c: Change)
    requires Listed(f, uk, s, t) && i < |ListOf(t, f.key)| && k < |ListOf(t, f.key)| && i != k
    requires ItemsPath(f, uk, ListOf(t, f.key)[k], path) <= c.path
    ensures !(ItemsPath(f, uk, ListOf(t, f.key)[i], path) <= c.path)
  {
    var ts := ListOf(t, f.key);
    var x, y := Get(ts[i].body, uk), Get(ts[k].body, uk);
    assert x != y && IsText(x) && IsText(y);
    SegmentInjective(f.key, x, f.key, y);
    assert c.path[|path|] == Segment(f.key, y);
  }
}

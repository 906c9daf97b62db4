/** Which field a recorded change comes from, read off its path and key. */
module DiffShape {
  import opened Values
  import opened Schema
  import opened ConfigDiff
  import opened PathText

  /** Schema keys contain no brackets and none is `Sequence`; a list is keyed by a parameter of its items. */
  ghost predicate GoodKeys(s: Schema)
    decreases s, 1
  {
    && (forall i, j :: 0 <= i < j < |s.fields| ==> s.fields[i].key != s.fields[j].key)
    && (forall i :: 0 <= i < |s.fields| ==> GoodField(s.fields[i]))
  }

  ghost predicate GoodField(f: Field)
    decreases f, 0
  {
    && Plain(f.key) && f.key != "Sequence"
    && match f.kind
       case Param => true
       case Nested(s) => GoodKeys(s)
       case Many(uk, s) =>
         && GoodKeys(s)
         && uk != "Script" && uk != "Sequence"
         && forall i :: 0 <= i < |s.fields| && s.fields[i].key == uk ==> s.fields[i].kind.Param?
  }

  lemma {:induction false} GoodKeysDistinct(s: Schema)
    requires GoodKeys(s)
    ensures DistinctKeys(s)
    decreases s
  {
    forall i | 0 <= i < |s.fields|
      ensures KindDistinctKeys(s.fields[i].kind)
    {
      assert GoodField(s.fields[i]);
      match s.fields[i].kind
      case Param =>
      case Nested(s') => GoodKeysDistinct(s');
      case Many(_, s') => GoodKeysDistinct(s');
    }
  }

  /** No parameter of the section can move between two forms. */
  ghost predicate NoScript(s: Schema) {
    forall i :: 0 <= i < |s.fields| ==> s.fields[i].key != "Script"
  }

  lemma NoScriptNoSwitch(s: Schema, b: Node, t: Node)
    requires NoScript(s)
    ensures forall i :: 0 <= i < |s.fields| ==> !Switches(s.fields[i], b, t)
  {
  }

  lemma {:induction false} PathStays(fs: seq<Field>, b: Node, t: Node, path: Path)
    requires forall i :: 0 <= i < |fs| ==> !Switches(fs[i], b, t)
    ensures FinalPath(fs, b, t, path) == path
    decreases |fs|
  {
    if fs != [] {
      PathStays(fs[1..], b, t, path);
    }
  }

  /** Without a switch, the changes of a section are the changes of its fields, all recorded at its own path. */
  lemma {:induction false} FieldsOfDiff(fs: seq<Field>, b: Node, t: Node, path: Path, c: Change)
    requires forall i :: 0 <= i < |fs| ==> !Switches(fs[i], b, t)
    ensures FinalPath(fs, b, t, path) == path
    ensures c in DiffFields(fs, b, t, path, path) <==> exists i :: 0 <= i < |fs| && c in DiffField(fs[i], b, t, path, path)
    decreases fs
  {
    if fs != [] {
      FieldsOfDiff(fs[1..], b, t, path, c);
      assert forall i :: 0 < i < |fs| ==> fs[i] == fs[1..][i - 1];
      assert forall i :: 0 <= i < |fs[1..]| ==> fs[1..][i] == fs[i + 1];
    }
  }

  /** The changes of a section without scripts are those of its fields, recorded at its path. */
  lemma InPlainSection(s: Schema, b: Node, t: Node, path: Path, c: Change)
    requires NoScript(s)
    ensures c in Diff(s, b, t, path) <==> exists i :: 0 <= i < |s.fields| && c in DiffField(s.fields[i], b, t, path, path)
  {
    NoScriptNoSwitch(s, b, t);
    FieldsOfDiff(s.fields, b, t, path, c);
  }

  // ------------------------------------------------------------ what is recorded for a parameter

  /** The key that a custom action is written under: `Sequence` if it has no script and a sequence that is not empty. */
  function Form(section: Node): string {
    if Entry(section, "Script") == NONE && Truthy(Entry(section, "Sequence")) then "Sequence" else "Script"
  }

  function FormValue(section: Node): Node {
    if Entry(section, "Script") == NONE then Entry(section, "Sequence") else Entry(section, "Script")
  }

  /** Exactly what is recorded for a parameter: its two values under its key, if they differ; for a script the key it is
      written under on both sides, or, if it moves, both forms under the last segment of the path. */
  lemma ParamRecorded(f: Field, b: Node, t: Node, cur: Path, fin: Path)
    requires f.kind.Param?
    ensures DiffField(f, b, t, cur, fin)
            == if f.key != "Script" then
                 if Entry(b, f.key) == Entry(t, f.key) then []
                 else [Change(fin, f.key, Entry(b, f.key), Entry(t, f.key), f.policy, false)]
               else if Form(b) != Form(t) then
                 [Change(fin, if cur == [] then "" else cur[|cur| - 1], Sec(map[Form(b) := FormValue(b)]),
                         Sec(map[Form(t) := FormValue(t)]), f.policy, false)]
               else if FormValue(b) == FormValue(t) then []
               else [Change(fin, Form(t), FormValue(b), FormValue(t), f.policy, false)]
  {
    assert forall n: Node :: !Truthy(n) ==> Entry(n, f.key) == NONE && Entry(n, "Sequence") == NONE;
  }

  /** So where no script moves and no sequence is empty, a recorded change of a parameter has the values that the two sides
      have under the key of the change. */
  lemma ParamValues(f: Field, b: Node, t: Node, cur: Path, fin: Path, c: Change)
    requires f.kind.Param? && c in DiffField(f, b, t, cur, fin)
    requires f.key == "Script" ==> Form(b) == Form(t)
    requires f.key == "Script" ==> forall n :: n in {b, t} && Entry(n, "Sequence") != NONE ==> Truthy(Entry(n, "Sequence"))
    ensures c.oldValue == Entry(b, c.key) && c.newValue == Entry(t, c.key) && c.oldValue != c.newValue
    ensures c.key == f.key || (f.key == "Script" && c.key == "Sequence")
  {
    ParamRecorded(f, b, t, cur, fin);
  }

  /** The changes of a section share its path if and only if no custom action moves between its two forms; otherwise all
      of them, also those recorded before, end up at the parent's path. */
  lemma {:induction false} PathKeptIff(fs: seq<Field>, b: Node, t: Node, path: Path)
    requires forall i, j :: 0 <= i < j < |fs| ==> fs[i].key != fs[j].key
    requires path != []
    ensures FinalPath(fs, b, t, path)
            == if exists i :: 0 <= i < |fs| && Switches(fs[i], b, t) then path[..|path| - 1] else path
    decreases fs
  {
    if fs != [] {
      var rest := fs[1..];
      assert forall i :: 0 <= i < |rest| ==> rest[i] == fs[i + 1];
      assert forall i :: 0 < i < |fs| ==> fs[i] == rest[i - 1];
      if Switches(fs[0], b, t) {
        assert fs[0].key == "Script";
        assert forall i :: 0 <= i < |rest| ==> !Switches(rest[i], b, t);
        FieldsOfDiff(rest, b, t, path[..|path| - 1], Change([], "", NONE, NONE, Ignored, false));
      } else {
        PathKeptIff(rest, b, t, path);
      }
    }
  }

  lemma {:induction false} InItems(f: Field, uk: string, s: Schema, bs: seq<Item>, ts: seq<Item>, cur: Path, fin: Path,
                                   c: Change)
    requires f.kind == Many(uk, s)
    ensures c in DiffItems(f, uk, s, bs, ts, cur, fin) <==>
            exists i :: 0 <= i < |ts| && c in DiffItem(f, uk, s, bs, ts[i], cur, fin)
    decreases |ts|
  {
    if ts != [] {
      InItems(f, uk, s, bs, ts[1..], cur, fin, c);
      assert forall i :: 0 < i < |ts| ==> ts[i] == ts[1..][i - 1];
      assert forall i :: 0 <= i < |ts[1..]| ==> ts[1..][i] == ts[i + 1];
    }
  }

  lemma {:induction false} InRemoved(f: Field, uk: string, bs: seq<Item>, ts: seq<Item>, j: nat, fin: Path, c: Change)
    requires j <= |bs|
    ensures c in DiffRemoved(f, uk, bs, ts, j, fin) <==>
            exists k :: j <= k < |bs| && !Kept(bs, ts, uk, k) && c == RemovedItem(fin, f, bs[k])
    decreases |bs| - j
  {
    if j < |bs| {
      InRemoved(f, uk, bs, ts, j + 1, fin, c);
    }
  }

  /** A change of field `f` of the section at `path`: it is recorded at the section with the field's key, or further
      down behind the field's segment. */
  ghost predicate Below(f: Field, path: Path, c: Change) {
    && path <= c.path
    && (|c.path| == |path| ==> c.key == f.key || (f.key == "Script" && c.key == "Sequence"))
    && (|c.path| > |path| ==> SegmentOf(f.key, c.path[|path|]))
  }

  ghost predicate SegmentOf(key: string, segment: string) {
    segment == key || exists n :: segment == Segment(key, n)
  }

  /** A change lies below one field only. */
  lemma BelowUnique(f: Field, g: Field, path: Path, c: Change)
    requires GoodField(f) && GoodField(g)
    requires Below(f, path, c) && Below(g, path, c)
    ensures f.key == g.key
  {
    if |c.path| > |path| {
      var segment := c.path[|path|];
      if segment != f.key && segment != g.key {
        var n, m :| segment == Segment(f.key, n) && segment == Segment(g.key, m);
        SegmentInjective(f.key, n, g.key, m);
      } else if segment != f.key {
        var n :| segment == Segment(f.key, n);
        SegmentInjective(f.key, n, g.key, n);
      } else if segment != g.key {
        var m :| segment == Segment(g.key, m);
        SegmentInjective(g.key, m, f.key, m);
      }
    }
  }
}

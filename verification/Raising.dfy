/** Exactly when the comparison of two well-typed configurations raises instead of returning the changes. */
module Raising {
  import opened Values
  import opened Schema
  import opened ConfigDiff
  import opened MarkedDiff

  /** Sections are dictionaries and lists are lists wherever the schema expects one. */
  ghost predicate Typed(s: Schema, n: Node)
    decreases s, 1
  {
    && Readable(n)
    && forall i :: 0 <= i < |s.fields| ==> FieldTyped(s.fields[i], n)
  }

  ghost predicate FieldTyped(f: Field, n: Node)
    decreases f, 0
  {
    match f.kind
    case Param => true
    case Nested(s) => Typed(s, Entry(n, f.key))
    case Many(_, s) =>
      && (n.Sec? && f.key in n.body ==> n.body[f.key].Items?)
      && forall j :: 0 <= j < |ListOf(n, f.key)| ==> Typed(s, Sec(ListOf(n, f.key)[j].body))
  }

  /** Below an ignored section that one side lacks, the schema has a list: the target is the side that lacks the
      section, or the base lacks it and the target's list has items. */
  ghost predicate OneSidedList(s: Schema, b: Node, t: Node)
    decreases s, 1
  {
    exists i :: 0 <= i < |s.fields| && FieldOneSided(s.fields[i], b, t)
  }

  ghost predicate FieldOneSided(f: Field, b: Node, t: Node)
    decreases f, 1
  {
    match f.kind
    case Param => false
    case Nested(s) =>
      Traversed(f, Entry(b, f.key), Entry(t, f.key)) && OneSidedList(s, Entry(b, f.key), Entry(t, f.key))
    case Many(uk, s) =>
      var bs, ts := ListOf(b, f.key), ListOf(t, f.key);
      || !t.Sec?
      || (!b.Sec? && ts != [])
      || exists i :: 0 <= i < |ts| && ItemOneSided(f, uk, s, bs, ts[i])
  }

  ghost predicate ItemOneSided(f: Field, uk: string, s: Schema, bs: seq<Item>, t: Item)
    requires f.kind == Many(uk, s)
    decreases f, 0
  {
    var j := MatchOf(bs, uk, t);
    j < |bs| && OneSidedList(s, Sec(bs[j].body), Sec(t.body))
  }

  /** Popping the path is safe: it has a segment, or no field left to visit can pop it. */
  ghost predicate PopSafe(fs: seq<Field>, cur: Path) {
    cur != [] || forall i :: 0 <= i < |fs| ==> fs[i].key != "Script"
  }

  /** Something stands where the schema has a section. */
  predicate NoSection(n: Node) { Truthy(n) && !n.Sec? }

  /** There is no section to read a list from, or something else stands where the list should be. */
  predicate NoList(n: Node, key: string) { !n.Sec? || (key in n.body && !n.body[key].Items?) }

  predicate HasItems(n: Node, key: string) { n.Sec? && key in n.body && n.body[key].Items? && n.body[key].items != [] }

  /** Somewhere in what is compared a section or list cannot be read: the target's lists always are, the base's if there is
      a base section or the target has items. */
  ghost predicate Breaks(s: Schema, b: Node, t: Node)
    decreases s, 1
  {
    exists i :: 0 <= i < |s.fields| && FieldBreaks(s.fields[i], b, t)
  }

  ghost predicate FieldBreaks(f: Field, b: Node, t: Node)
    decreases f, 1
  {
    match f.kind
    case Param => NoSection(b) || NoSection(t)
    case Nested(s) =>
      || NoSection(b) || NoSection(t)
      || (Traversed(f, Entry(b, f.key), Entry(t, f.key)) && Breaks(s, Entry(b, f.key), Entry(t, f.key)))
    case Many(uk, s) =>
      var bs, ts := ListOf(b, f.key), ListOf(t, f.key);
      || NoList(t, f.key)
      || ((Truthy(b) || HasItems(t, f.key)) && NoList(b, f.key))
      || exists i :: 0 <= i < |ts| && ItemBreaks(f, uk, s, bs, ts[i])
  }

  ghost predicate ItemBreaks(f: Field, uk: string, s: Schema, bs: seq<Item>, t: Item)
    requires f.kind == Many(uk, s)
    decreases f, 0
  {
    var j := MatchOf(bs, uk, t);
    j < |bs| && Breaks(s, Sec(bs[j].body), Sec(t.body))
  }

  /** For all configurations, well-typed or not: the comparison raises if and only if something it reads is not what the
      schema expects. */
  lemma {:induction false} RaisesIffBreaks(s: Schema, b: Node, t: Node, path: Path, marks: set<nat>)
    requires DistinctKeys(s) && PopSafe(s.fields, path)
    ensures WalkSection(s, b, t, path, marks).Raised? <==> Breaks(s, b, t)
    decreases s, 1
  {
    FieldsRaise(s.fields, b, t, path, FinalPath(s.fields, b, t, path), marks);
  }

  lemma {:induction false} FieldsRaise(fs: seq<Field>, b: Node, t: Node, cur: Path, fin: Path, marks: set<nat>)
    requires forall i, j :: 0 <= i < j < |fs| ==> fs[i].key != fs[j].key
    requires (forall i :: 0 <= i < |fs| ==> KindDistinctKeys(fs[i].kind)) && PopSafe(fs, cur)
    ensures WalkFields(fs, b, t, cur, fin, marks).Raised? <==>
            exists i :: 0 <= i < |fs| && FieldBreaks(fs[i], b, t)
    decreases fs, 0
  {
    hide WalkField, FieldBreaks, KindDistinctKeys;
    if fs != [] {
      FieldRaises(fs[0], b, t, cur, fin, marks);
      var w := WalkField(fs[0], b, t, cur, fin, marks);
      if w.Walked? {
        var rest, cur' := fs[1..], Step(fs[0], b, t, cur);
        assert fs[0].key == "Script" ==> forall i :: 0 <= i < |rest| ==> rest[i].key != "Script";
        FieldsRaise(rest, b, t, cur', fin, w.marks);
        assert forall i :: 0 < i < |fs| ==> fs[i] == rest[i - 1];
        assert forall i :: 0 <= i < |rest| ==> rest[i] == fs[i + 1];
      }
    }
  }

  lemma {:induction false} FieldRaises(f: Field, b: Node, t: Node, cur: Path, fin: Path, marks: set<nat>)
    requires KindDistinctKeys(f.kind) && PopSafe([f], cur)
    ensures WalkField(f, b, t, cur, fin, marks).Raised? <==> FieldBreaks(f, b, t)
    decreases f, 2
  {
    match f.kind
    case Param =>
      assert [f][0] == f;
    case Nested(s) =>
      RaisesIffBreaks(s, Entry(b, f.key), Entry(t, f.key), cur + [f.key], marks);
    case Many(uk, s) =>
      if !ListsRaise(b, t, f.key) {
        ItemsRaise(f, uk, s, ListOf(b, f.key), ListOf(t, f.key), cur, fin, marks);
      }
  }

  lemma {:induction false} ItemsRaise(f: Field, uk: string, s: Schema, bs: seq<Item>, ts: seq<Item>, cur: Path,
                                      fin: Path, marks: set<nat>)
    requires f.kind == Many(uk, s) && DistinctKeys(s)
    ensures WalkItems(f, uk, s, bs, ts, cur, fin, marks).Raised? <==>
            exists i :: 0 <= i < |ts| && ItemBreaks(f, uk, s, bs, ts[i])
    decreases f, 1, |ts|
  {
    if ts != [] {
      var j := MatchOf(bs, uk, ts[0]);
      if j < |bs| {
        var path := cur + [Segment(f.key, Get(ts[0].body, uk))];
        RaisesIffBreaks(s, Sec(bs[j].body), Sec(ts[0].body), path, marks);
      }
      var w := WalkItem(f, uk, s, bs, ts[0], cur, fin, marks);
      if w.Walked? {
        var rest := ts[1..];
        ItemsRaise(f, uk, s, bs, rest, cur, fin, w.marks);
        assert forall i :: 0 < i < |ts| ==> ts[i] == rest[i - 1];
        assert forall i :: 0 <= i < |rest| ==> rest[i] == ts[i + 1];
      }
    }
  }

  /** On well-typed configurations only a one-sided section can break the comparison. */
  lemma {:induction false} BreaksIffOneSided(s: Schema, b: Node, t: Node)
    requires Typed(s, b) && Typed(s, t)
    ensures Breaks(s, b, t) <==> OneSidedList(s, b, t)
    decreases s
  {
    forall i | 0 <= i < |s.fields|
      ensures FieldBreaks(s.fields[i], b, t) <==> FieldOneSided(s.fields[i], b, t)
    {
      var f := s.fields[i];
      assert FieldTyped(f, b) && FieldTyped(f, t);
      match f.kind
      case Param =>
      case Nested(s') => BreaksIffOneSided(s', Entry(b, f.key), Entry(t, f.key));
      case Many(uk, s') =>
        var bs, ts := ListOf(b, f.key), ListOf(t, f.key);
        forall k | 0 <= k < |ts|
          ensures ItemBreaks(f, uk, s', bs, ts[k]) <==> ItemOneSided(f, uk, s', bs, ts[k])
        {
          var j := MatchOf(bs, uk, ts[k]);
          if j < |bs| {
            BreaksIffOneSided(s', Sec(bs[j].body), Sec(ts[k].body));
          }
        }
    }
  }

  /** The comparison of well-typed configurations raises if and only if an ignored section with a list below it is there on
      one side only. */
  lemma {:induction false} RaisesIffOneSidedList(s: Schema, b: Node, t: Node, path: Path, marks: set<nat>)
    requires DistinctKeys(s) && Typed(s, b) && Typed(s, t) && PopSafe(s.fields, path)
    ensures WalkSection(s, b, t, path, marks).Raised? <==> OneSidedList(s, b, t)
  {
    RaisesIffBreaks(s, b, t, path, marks);
    BreaksIffOneSided(s, b, t);
  }

  /** No list occurs below an ignored section, however deep. */
  ghost predicate IgnoredHoldsNoList(s: Schema)
    decreases s, 1
  {
    forall i :: 0 <= i < |s.fields| ==> FieldIgnoredHoldsNoList(s.fields[i])
  }

  ghost predicate FieldIgnoredHoldsNoList(f: Field)
    decreases f, 0
  {
    match f.kind
    case Param => true
    case Nested(s) => IgnoredHoldsNoList(s) && (f.policy == Ignored ==> HoldsNoList(s))
    case Many(_, s) => IgnoredHoldsNoList(s)
  }

  ghost predicate HoldsNoList(s: Schema)
    decreases s
  {
    forall i :: 0 <= i < |s.fields| ==>
      match s.fields[i].kind
      case Param => true
      case Nested(s') => HoldsNoList(s')
      case Many(_, _) => false
  }

  lemma {:induction false} NoListNotOneSided(s: Schema, b: Node, t: Node)
    requires HoldsNoList(s)
    ensures !OneSidedList(s, b, t)
    decreases s
  {
    forall i | 0 <= i < |s.fields|
      ensures !FieldOneSided(s.fields[i], b, t)
    {
      var f := s.fields[i];
      if f.kind.Nested? {
        NoListNotOneSided(f.kind.section, Entry(b, f.key), Entry(t, f.key));
      }
    }
  }

  lemma {:induction false} NothingOneSided(s: Schema, b: Node, t: Node)
    requires IgnoredHoldsNoList(s) && Typed(s, b) && Typed(s, t) && b.Sec? && t.Sec?
    ensures !OneSidedList(s, b, t)
    decreases s
  {
    forall i | 0 <= i < |s.fields|
      ensures !FieldOneSided(s.fields[i], b, t)
    {
      var f := s.fields[i];
      assert FieldTyped(f, b) && FieldTyped(f, t) && FieldIgnoredHoldsNoList(f);
      match f.kind
      case Param =>
      case Nested(s') =>
        if f.policy == Ignored {
          NoListNotOneSided(s', Entry(b, f.key), Entry(t, f.key));
        } else if Traversed(f, Entry(b, f.key), Entry(t, f.key)) {
          NothingOneSided(s', Entry(b, f.key), Entry(t, f.key));
        }
      case Many(uk, s') =>
        var bs, ts := ListOf(b, f.key), ListOf(t, f.key);
        forall k | 0 <= k < |ts|
          ensures !ItemOneSided(f, uk, s', bs, ts[k])
        {
          var j := MatchOf(bs, uk, ts[k]);
          if j < |bs| {
            NothingOneSided(s', Sec(bs[j].body), Sec(ts[k].body));
          }
        }
    }
  }

  /** A schema whose ignored sections hold no list makes the comparison return for all well-typed configurations. */
  lemma NeverRaises(s: Schema, b: Node, t: Node, path: Path, marks: set<nat>)
    requires DistinctKeys(s) && IgnoredHoldsNoList(s) && PopSafe(s.fields, path)
    requires Typed(s, b) && Typed(s, t) && b.Sec? && t.Sec?
    ensures WalkSection(s, b, t, path, marks).Walked?
  {
    NothingOneSided(s, b, t);
    RaisesIffOneSidedList(s, b, t, path, marks);
  }

  // The shared-storage part of the cluster schema: `FsxLustreSettings` is ignored and holds a list.
  const ASSOCIATIONS := Field("DataRepositoryAssociations", Many("Name", Schema([])), Supported)
  const LUSTRE := Schema([ASSOCIATIONS])
  const LUSTRE_SETTINGS := Field("FsxLustreSettings", Nested(LUSTRE), Ignored)
  const STORAGE := Schema([LUSTRE_SETTINGS])
  const SHARED_STORAGE := Field("SharedStorage", Many("Name", STORAGE), SharedStorageUpdate)
  const STORAGE_CLUSTER := Schema([SHARED_STORAGE])

  function StorageConfig(id: nat, body: map<string, Node>): Node {
    Sec(map["SharedStorage" := Items([Item(id, body["Name" := Leaf(Str("scratch"))])])])
  }

  lemma ClusterDistinctKeys()
    ensures DistinctKeys(STORAGE_CLUSTER)
  {
    assert KindDistinctKeys(ASSOCIATIONS.kind);
    assert KindDistinctKeys(LUSTRE_SETTINGS.kind);
    assert KindDistinctKeys(SHARED_STORAGE.kind);
  }

  /** Dropping `FsxLustreSettings` from a shared-storage item makes the update request raise, whatever non-empty
      settings the base item has. */
  lemma DroppingLustreSettingsRaises(settings: map<string, Node>)
    requires settings != map[]
    requires "DataRepositoryAssociations" in settings ==> settings["DataRepositoryAssociations"].Items?
    ensures var b := StorageConfig(0, map["FsxLustreSettings" := Sec(settings)]);
            var t := StorageConfig(1, map[]);
            Typed(STORAGE_CLUSTER, b) && Typed(STORAGE_CLUSTER, t) && WalkSection(STORAGE_CLUSTER, b, t, [], {}).Raised?
  {
    var b, t := StorageConfig(0, map["FsxLustreSettings" := Sec(settings)]), StorageConfig(1, map[]);
    var bs, ts := ListOf(b, "SharedStorage"), ListOf(t, "SharedStorage");
    var bi, ti := Sec(bs[0].body), Sec(ts[0].body);
    assert Entry(bi, "FsxLustreSettings") == Sec(settings) && Entry(ti, "FsxLustreSettings") == NONE;
    assert Typed(STORAGE_CLUSTER, b) && Typed(STORAGE_CLUSTER, t) by {
      assert FieldTyped(ASSOCIATIONS, Sec(settings));
      assert Typed(LUSTRE, Sec(settings)) && Typed(LUSTRE, NONE);
      assert FieldTyped(LUSTRE_SETTINGS, bi) && FieldTyped(LUSTRE_SETTINGS, ti);
      assert Typed(STORAGE, bi) && Typed(STORAGE, ti);
      assert FieldTyped(SHARED_STORAGE, b) && FieldTyped(SHARED_STORAGE, t);
    }
    assert OneSidedList(STORAGE_CLUSTER, b, t) by {
      assert FieldOneSided(LUSTRE.fields[0], Sec(settings), NONE);
      assert FieldOneSided(STORAGE.fields[0], bi, ti);
      assert "Name" in bs[0].body && MatchOf(bs, "Name", ts[0]) == 0;
      assert ItemOneSided(SHARED_STORAGE, "Name", STORAGE, bs, ts[0]);
      assert FieldOneSided(STORAGE_CLUSTER.fields[0], b, t);
    }
    ClusterDistinctKeys();
    RaisesIffOneSidedList(STORAGE_CLUSTER, b, t, [], {});
  }
}

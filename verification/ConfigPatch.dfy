/** The comparison as the class carries it out: it appends to one list of changes, marks base list items in place and
    hands one mutable path list to every change of a section. */
module ConfigPatch {
  import opened Values
  import opened Schema
  import opened ConfigDiff
  import opened MarkedDiff

  /** The list object that the changes of one section share. */
  class PathList {
    var segments: Path

    constructor (segments: Path)
      ensures this.segments == segments
    {
      this.segments := segments;
    }
  }

  datatype Record =
    Record(path: PathList, key: string, oldValue: Node, newValue: Node, policy: Policy, isList: bool)

  /** A record as a change, once the path list `own` holds `fin`. */
  ghost function ViewAs(r: Record, own: PathList, fin: Path): Change
    reads r.path
  {
    Change(if r.path == own then fin else r.path.segments, r.key, r.oldValue, r.newValue, r.policy, r.isList)
  }

  /** The records read as the changes `cs`, once the path list `own` holds `fin`. */
  ghost predicate Shows(rs: seq<Record>, own: PathList, fin: Path, cs: seq<Change>)
    reads *
  {
    |rs| == |cs| && forall i :: 0 <= i < |rs| ==> ViewAs(rs[i], own, fin) == cs[i]
  }

  /** The records are the changes `cs` of a section at `fin`, all with the path list `own`. */
  ghost predicate OwnedBy(rs: seq<Record>, own: PathList, fin: Path, cs: seq<Change>) {
    && |rs| == |cs|
    && forall i :: 0 <= i < |rs| ==>
      && rs[i] == Record(own, cs[i].key, cs[i].oldValue, cs[i].newValue, cs[i].policy, cs[i].isList)
      && cs[i].path == fin
  }

  /** The records read as the changes `cs` with the path lists as they are. */
  ghost predicate Reads(rs: seq<Record>, cs: seq<Change>)
    reads *
  {
    |rs| == |cs| && forall i :: 0 <= i < |rs| ==> ViewAs(rs[i], rs[i].path, rs[i].path.segments) == cs[i]
  }

  lemma ShowsAppend(rs: seq<Record>, qs: seq<Record>, own: PathList, fin: Path, cs: seq<Change>, ds: seq<Change>)
    requires Shows(rs, own, fin, cs) && Shows(qs, own, fin, ds)
    ensures Shows(rs + qs, own, fin, cs + ds)
  {
  }

  class ConfigPatch {
    const base: Node
    const target: Node
    const schema: Schema
    var changes: seq<Record>
    var visited: set<nat>

    constructor (base: Node, target: Node, schema: Schema)
      ensures this.base == base && this.target == target && this.schema == schema
      ensures changes == [] && visited == {}
    {
      this.base, this.target, this.schema := base, target, schema;
      changes, visited := [], {};
    }

    /** `_compare`: the changes are those of the traversal from the empty path, or the call raises. */
    method Compare() returns (ok: bool)
      requires changes == [] && visited == {}
      modifies this
      ensures ok == WalkSection(schema, base, target, [], {}).Walked?
      ensures ok ==> Reads(changes, WalkSection(schema, base, target, [], {}).changes)
    {
      var path := new PathList([]);
      ghost var added;
      ok, added := CompareSection(base, target, schema, path);
      assert ok ==> changes == added;
    }

    // In the methods below a false `ok` stands for an exception, `added` are the appended records, and `fin` is what
    // the path list of the enclosing section will hold in the end.

    /** `_compare_section`. */
    method CompareSection(b: Node, t: Node, s: Schema, path: PathList) returns (ok: bool, ghost added: seq<Record>)
      modifies this`changes, this`visited, path
      ensures var w := WalkSection(s, b, t, old(path.segments), old(visited));
              && ok == w.Walked?
              && (ok ==> changes == old(changes) + added && Reads(added, w.changes) && visited == w.marks)
      ensures ok ==> forall k :: 0 <= k < |added| ==> added[k].path == path || fresh(added[k].path)
      decreases s, 1
    {
      ghost var fin := FinalPath(s.fields, b, t, path.segments);
      ok, added := CompareFields(b, t, s.fields, path, fin);
    }

    /** The loop of `_compare_section` over the declared fields. */
    method CompareFields(b: Node, t: Node, fs: seq<Field>, path: PathList, ghost fin: Path)
      returns (ok: bool, ghost added: seq<Record>)
      requires FinalPath(fs, b, t, path.segments) == fin
      modifies this`changes, this`visited, path
      ensures var w := WalkFields(fs, b, t, old(path.segments), fin, old(visited));
              && ok == w.Walked?
              && (ok ==>
                    && changes == old(changes) + added && Shows(added, path, fin, w.changes) && visited == w.marks
                    && path.segments == fin)
      ensures ok ==> forall k :: 0 <= k < |added| ==> added[k].path == path || fresh(added[k].path)
      decreases fs, 0
    {
      hide FieldsLeft, WalkFields, WalkField, FinalPath, Step;
      var i := 0;
      added := [];
      ghost var total := WalkFields(fs, b, t, path.segments, fin, visited);
      ghost var done: seq<Change> := [];
      FieldsStart(fs, b, t, path.segments, fin, visited);
      while i < |fs|
        invariant i <= |fs|
        invariant changes == old(changes) + added
        invariant forall r :: r in added ==> r.path == path || fresh(r.path)
        invariant Shows(added, path, fin, done)
        invariant FieldsLeft(total, fs, i, b, t, path.segments, fin, visited, done)
      {
        ghost var w := WalkField(fs[i], b, t, path.segments, fin, visited);
        FieldStep(total, fs, i, b, t, path.segments, fin, visited, done);
        ghost var more;
        ok, more := CompareField(b, t, fs[i], path, fin);
        if !ok {
          return;
        }
        assert Shows(added + more, path, fin, done + w.changes) by {
          ShowsAppend(added, more, path, fin, done, w.changes);
        }
        assert changes == old(changes) + (added + more);
        added, done := added + more, done + w.changes;
        i := i + 1;
      }
      FieldsEnd(total, fs, b, t, path.segments, fin, visited, done);
      ok := true;
    }

    method CompareField(b: Node, t: Node, f: Field, path: PathList, ghost fin: Path)
      returns (ok: bool, ghost added: seq<Record>)
      modifies this`changes, this`visited, path
      ensures var w := WalkField(f, b, t, old(path.segments), fin, old(visited));
              && ok == w.Walked?
              && (ok ==>
                    && changes == old(changes) + added && Shows(added, path, fin, w.changes) && visited == w.marks
                    && path.segments == Step(f, b, t, old(path.segments)))
      ensures ok ==> forall k :: 0 <= k < |added| ==> added[k].path == path || fresh(added[k].path)
      decreases f, 4
    {
      match f.kind {
        case Param => ok, added := CompareParam(b, t, f, path, fin);
        case Nested(_) => ok, added := CompareSingle(b, t, f, path, fin);
        case Many(_, _) => ok, added := CompareList(b, t, f, path, fin);
      }
    }

    /** A parameter; a switch between script and sequence pops the path list that earlier changes share. */
    method CompareParam(b: Node, t: Node, f: Field, path: PathList, ghost fin: Path)
      returns (ok: bool, ghost added: seq<Record>)
      requires f.kind.Param?
      modifies this`changes, path
      ensures var w := WalkField(f, b, t, old(path.segments), fin, visited);
              && ok == w.Walked?
              && (ok ==>
                    && changes == old(changes) + added && Shows(added, path, fin, w.changes)
                    && path.segments == Step(f, b, t, old(path.segments)))
      ensures ok ==> forall k :: 0 <= k < |added| ==> added[k].path == path
    {
      added := [];
      if !Readable(b) || !Readable(t) {
        return false, added;
      }
      var (tv, tk) := ReadParam(f.key, t);
      var (bv, bk) := ReadParam(f.key, b);
      var key := tk;
      if tk != bk {
        if path.segments == [] {
          return false, added;
        }
        key := path.segments[|path.segments| - 1];
        path.segments := path.segments[..|path.segments| - 1];
        bv, tv := Sec(map[bk := bv]), Sec(map[tk := tv]);
        assert bk in bv.body && bk !in tv.body;
      }
      if tv != bv {
        added := [Record(path, key, bv, tv, f.policy, false)];
        changes := changes + [Record(path, key, bv, tv, f.policy, false)];
      }
      ok := true;
    }

    /** A single nested section: compared when both sides have it or its policy is ignored, else recorded whole. */
    method CompareSingle(b: Node, t: Node, f: Field, path: PathList, ghost fin: Path)
      returns (ok: bool, ghost added: seq<Record>)
      requires f.kind.Nested?
      modifies this`changes, this`visited
      ensures var w := WalkField(f, b, t, path.segments, fin, old(visited));
              && ok == w.Walked?
              && (ok ==> changes == old(changes) + added && Shows(added, path, fin, w.changes) && visited == w.marks)
      ensures ok ==> forall k :: 0 <= k < |added| ==> added[k].path == path || fresh(added[k].path)
      decreases f, 3
    {
      added := [];
      if !Readable(b) || !Readable(t) {
        return false, added;
      }
      var tv, bv := Entry(t, f.key), Entry(b, f.key);
      if Traversed(f, bv, tv) {
        var nested := new PathList(path.segments + [f.key]);
        ok, added := CompareSection(bv, tv, f.kind.section, nested);
        return;
      }
      if Truthy(tv) || Truthy(bv) {
        added := [Record(path, f.key, OrDash(bv), OrDash(tv), f.policy, false)];
        changes := changes + [Record(path, f.key, OrDash(bv), OrDash(tv), f.policy, false)];
      }
      ok := true;
    }

    /** `_compare_list`: target items against the base, marking what was compared; then the unmarked base items. */
    method CompareList(b: Node, t: Node, f: Field, path: PathList, ghost fin: Path)
      returns (ok: bool, ghost added: seq<Record>)
      requires f.kind.Many?
      modifies this`changes, this`visited
      ensures var w := WalkField(f, b, t, path.segments, fin, old(visited));
              && ok == w.Walked?
              && (ok ==> changes == old(changes) + added && Shows(added, path, fin, w.changes) && visited == w.marks)
      ensures ok ==> forall k :: 0 <= k < |added| ==> added[k].path == path || fresh(added[k].path)
      decreases f, 3
    {
      hide WalkItems, WalkRemoved, ListsRaise;
      if ListsRaise(b, t, f.key) {
        return false, [];
      }
      var bs, ts := ListOf(b, f.key), ListOf(t, f.key);
      ghost var uk := f.kind.updateKey;
      ghost var w := WalkItems(f, uk, f.kind.item, bs, ts, path.segments, fin, visited);
      ok, added := CompareItems(bs, ts, f, path, fin);
      if ok {
        ghost var removed := RecordRemoved(bs, f, path, fin);
        RemovedKeepsMarks(f, bs, 0, fin, visited);
        assert Shows(added + removed, path, fin, w.changes + WalkRemoved(f, bs, 0, fin, visited).changes) by {
          ShowsAppend(added, removed, path, fin, w.changes, WalkRemoved(f, bs, 0, fin, visited).changes);
        }
        added := added + removed;
      }
    }

    method CompareItems(bs: seq<Item>, ts: seq<Item>, f: Field, path: PathList, ghost fin: Path)
      returns (ok: bool, ghost added: seq<Record>)
      requires f.kind.Many?
      modifies this`changes, this`visited
      ensures var w := WalkItems(f, f.kind.updateKey, f.kind.item, bs, ts, path.segments, fin, old(visited));
              && ok == w.Walked?
              && (ok ==> changes == old(changes) + added && Shows(added, path, fin, w.changes) && visited == w.marks)
      ensures ok ==> forall k :: 0 <= k < |added| ==> added[k].path == path || fresh(added[k].path)
      decreases f, 2
    {
      hide ItemsLeft;
      ghost var uk, s := f.kind.updateKey, f.kind.item;
      var i := 0;
      added := [];
      ghost var cur := path.segments;
      ghost var total := WalkItems(f, uk, s, bs, ts, cur, fin, visited);
      ghost var done: seq<Change> := [];
      ItemsStart(f, bs, ts, cur, fin, visited);
      while i < |ts|
        invariant i <= |ts|
        invariant changes == old(changes) + added
        invariant forall r :: r in added ==> r.path == path || fresh(r.path)
        invariant Shows(added, path, fin, done)
        invariant ItemsLeft(total, f, bs, ts, i, cur, fin, visited, done)
      {
        ghost var w := WalkItem(f, uk, s, bs, ts[i], cur, fin, visited);
        ItemStep(total, f, bs, ts, i, cur, fin, visited, done);
        ghost var more;
        ok, more := CompareItem(bs, ts[i], f, path, fin);
        if !ok {
          return;
        }
        assert Shows(added + more, path, fin, done + w.changes) by {
          ShowsAppend(added, more, path, fin, done, w.changes);
        }
        assert changes == old(changes) + (added + more);
        added, done := added + more, done + w.changes;
        i := i + 1;
      }
      ItemsEnd(total, f, bs, ts, cur, fin, visited, done);
      ok := true;
    }

    method CompareItem(bs: seq<Item>, t: Item, f: Field, path: PathList, ghost fin: Path)
      returns (ok: bool, ghost added: seq<Record>)
      requires f.kind.Many?
      modifies this`changes, this`visited
      ensures var w := WalkItem(f, f.kind.updateKey, f.kind.item, bs, t, path.segments, fin, old(visited));
              && ok == w.Walked?
              && (ok ==> changes == old(changes) + added && Shows(added, path, fin, w.changes) && visited == w.marks)
      ensures ok ==> forall k :: 0 <= k < |added| ==> added[k].path == path || fresh(added[k].path)
      decreases f, 1
    {
      var name := Get(t.body, f.kind.updateKey);
      var j := MatchOf(bs, f.kind.updateKey, t);
      if j < |bs| {
        var nested := new PathList(path.segments + [Segment(f.key, name)]);
        ok, added := CompareSection(Sec(bs[j].body), Sec(t.body), f.kind.item, nested);
        if ok {
          visited := visited + {bs[j].id};
        }
      } else {
        added := [Record(path, f.key, NONE, Sec(t.body), f.policy, true)];
        changes := changes + [Record(path, f.key, NONE, Sec(t.body), f.policy, true)];
        ok := true;
      }
    }

    method RecordRemoved(bs: seq<Item>, f: Field, path: PathList, ghost fin: Path)
      returns (ghost added: seq<Record>)
      requires f.kind.Many?
      modifies this`changes
      ensures changes == old(changes) + added
      ensures Shows(added, path, fin, WalkRemoved(f, bs, 0, fin, visited).changes)
      ensures forall k :: 0 <= k < |added| ==> added[k].path == path
    {
      hide WalkRemoved;
      var j := 0;
      added := [];
      ghost var total := WalkRemoved(f, bs, 0, fin, visited).changes;
      ghost var done: seq<Change> := [];
      while j < |bs|
        invariant j <= |bs|
        invariant changes == old(changes) + added
        invariant OwnedBy(added, path, fin, done)
        invariant done + WalkRemoved(f, bs, j, fin, visited).changes == total
      {
        RemovedStep(f, bs, j, fin, visited, done);
        if bs[j].id !in visited {
          var removed := Record(path, f.key, Sec(bs[j].body), NONE, f.policy, true);
          changes := changes + [removed];
          added, done := added + [removed], done + [RemovedItem(fin, f, bs[j])];
        }
        j := j + 1;
      }
      RemovedEnd(f, bs, fin, visited);
    }
  }
}

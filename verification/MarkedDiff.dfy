/** The comparison as it is carried out: it marks base list items in place, reads the mark of an item to decide whether
    the item was removed, and raises when it reads a section that is not there. */
module MarkedDiff {
  import opened Values
  import opened Schema
  import opened ConfigDiff

  /** The outcome of a traversal: the recorded changes and the objects marked so far. */
  datatype Walk = Raised | Walked(changes: seq<Change>, marks: set<nat>) {
    function After(changes: seq<Change>): Walk {
      if Raised? then Raised else Walked(changes + this.changes, marks)
    }
  }

  /** `section.get` raises on a section that is present and is no dictionary. */
  predicate Readable(section: Node) { Truthy(section) ==> section.Sec? }

  /** The list `section.get(key, [])`, or nothing when reading it raises. */
  function ListAt(section: Node, key: string): Option<seq<Item>> {
    if !section.Sec? then None
    else if key !in section.body then Some([])
    else if section.body[key].Items? then Some(section.body[key].items)
    else None
  }

  function WalkSection(s: Schema, b: Node, t: Node, path: Path, marks: set<nat>): Walk
    decreases s, 1
  {
    WalkFields(s.fields, b, t, path, FinalPath(s.fields, b, t, path), marks)
  }

  function WalkFields(fs: seq<Field>, b: Node, t: Node, cur: Path, fin: Path, marks: set<nat>): Walk
    decreases fs, 0
  {
    if fs == [] then Walked([], marks)
    else
      match WalkField(fs[0], b, t, cur, fin, marks)
      case Raised => Raised
      case Walked(cs, marks') =>
        WalkFields(fs[1..], b, t, Step(fs[0], b, t, cur), fin, marks').After(cs)
  }

  function WalkField(f: Field, b: Node, t: Node, cur: Path, fin: Path, marks: set<nat>): Walk
    decreases f, 2
  {
    match f.kind
    case Param =>
      if !Readable(b) || !Readable(t) || (Switches(f, b, t) && cur == []) then Raised
      else Walked(DiffParam(f, b, t, cur, fin), marks)
    case Nested(s) => WalkNested(f, s, b, t, cur, fin, marks)
    case Many(uk, s) => WalkMany(f, uk, s, b, t, cur, fin, marks)
  }

  function WalkNested(f: Field, s: Schema, b: Node, t: Node, cur: Path, fin: Path, marks: set<nat>): Walk
    requires f.kind == Nested(s)
    decreases f, 0
  {
    var bv, tv := Entry(b, f.key), Entry(t, f.key);
    if !Readable(b) || !Readable(t) then Raised
    else if Traversed(f, bv, tv) then WalkSection(s, bv, tv, cur + [f.key], marks)
    else if Truthy(bv) || Truthy(tv) then
      Walked([Change(fin, f.key, OrDash(bv), OrDash(tv), f.policy, false)], marks)
    else Walked([], marks)
  }

  /** Reading the two lists raises. */
  predicate ListsRaise(b: Node, t: Node, key: string) {
    || ListAt(t, key).None?
    || ((ListAt(t, key).value != [] || Truthy(b)) && ListAt(b, key).None?)
  }

  function WalkMany(f: Field, uk: string, s: Schema, b: Node, t: Node, cur: Path, fin: Path, marks: set<nat>): Walk
    requires f.kind == Many(uk, s)
    decreases f, 1
  {
    if ListsRaise(b, t, f.key) then Raised
    else
      var bs, ts := ListOf(b, f.key), ListOf(t, f.key);
      match WalkItems(f, uk, s, bs, ts, cur, fin, marks)
      case Raised => Raised
      case Walked(cs, marks') => WalkRemoved(f, bs, 0, fin, marks').After(cs)
  }

  function WalkItems(f: Field, uk: string, s: Schema, bs: seq<Item>, ts: seq<Item>, cur: Path, fin: Path,
                     marks: set<nat>): Walk
    requires f.kind == Many(uk, s)
    decreases f, 0, |ts|
  {
    if ts == [] then Walked([], marks)
    else
      match WalkItem(f, uk, s, bs, ts[0], cur, fin, marks)
      case Raised => Raised
      case Walked(cs, marks') => WalkItems(f, uk, s, bs, ts[1..], cur, fin, marks').After(cs)
  }

  function WalkItem(f: Field, uk: string, s: Schema, bs: seq<Item>, t: Item, cur: Path, fin: Path,
                    marks: set<nat>): Walk
    requires f.kind == Many(uk, s)
    decreases f, 0, 0
  {
    var j := MatchOf(bs, uk, t);
    if j < |bs| then
      match WalkSection(s, Sec(bs[j].body), Sec(t.body), cur + [Segment(f.key, Get(t.body, uk))], marks)
      case Raised => Raised
      case Walked(cs, marks') => Walked(cs, marks' + {bs[j].id})
    else Walked([Added(fin, f, t)], marks)
  }

  function WalkRemoved(f: Field, bs: seq<Item>, j: nat, fin: Path, marks: set<nat>): Walk
    requires j <= |bs|
    ensures WalkRemoved(f, bs, j, fin, marks).Walked?
    decreases |bs| - j
  {
    if j == |bs| then Walked([], marks)
    else
      WalkRemoved(f, bs, j + 1, fin, marks).After(
        if bs[j].id !in marks then [RemovedItem(fin, f, bs[j])] else [])
  }

  // ------------------------------------------------------------ one step of each loop

  /** What the whole traversal returns, given what it recorded before field `i`. */
  ghost predicate FieldsLeft(total: Walk, fs: seq<Field>, i: nat, b: Node, t: Node, cur: Path, fin: Path,
                             marks: set<nat>, done: seq<Change>) {
    && i <= |fs|
    && FinalPath(fs[i..], b, t, cur) == fin
    && WalkFields(fs[i..], b, t, cur, fin, marks).After(done) == total
  }

  lemma FieldsStart(fs: seq<Field>, b: Node, t: Node, cur: Path, fin: Path, marks: set<nat>)
    requires FinalPath(fs, b, t, cur) == fin
    ensures FieldsLeft(WalkFields(fs, b, t, cur, fin, marks), fs, 0, b, t, cur, fin, marks, [])
  {
    assert fs[0..] == fs;
  }

  lemma FieldsEnd(total: Walk, fs: seq<Field>, b: Node, t: Node, cur: Path, fin: Path, marks: set<nat>,
                  done: seq<Change>)
    requires FieldsLeft(total, fs, |fs|, b, t, cur, fin, marks, done)
    ensures total == Walked(done, marks) && cur == fin
  {
  }

  lemma FieldStep(total: Walk, fs: seq<Field>, i: nat, b: Node, t: Node, cur: Path, fin: Path, marks: set<nat>,
                  done: seq<Change>)
    requires i < |fs| && FieldsLeft(total, fs, i, b, t, cur, fin, marks, done)
    ensures var w := WalkField(fs[i], b, t, cur, fin, marks);
            if w.Raised? then total.Raised?
            else FieldsLeft(total, fs, i + 1, b, t, Step(fs[i], b, t, cur), fin, w.marks, done + w.changes)
  {
    assert fs[i..][0] == fs[i] && fs[i..][1..] == fs[i + 1..];
    var w := WalkField(fs[i], b, t, cur, fin, marks);
    if w.Walked? {
      var rest := WalkFields(fs[i + 1..], b, t, Step(fs[i], b, t, cur), fin, w.marks);
      assert rest.Walked? ==> (done + w.changes) + rest.changes == done + (w.changes + rest.changes);
    }
  }

  /** What comparing a list of target items returns, given what was recorded before item `i`. */
  ghost predicate ItemsLeft(total: Walk, f: Field, bs: seq<Item>, ts: seq<Item>, i: nat, cur: Path, fin: Path,
                            marks: set<nat>, done: seq<Change>)
    requires f.kind.Many?
  {
    i <= |ts| && WalkItems(f, f.kind.updateKey, f.kind.item, bs, ts[i..], cur, fin, marks).After(done) == total
  }

  lemma ItemsStart(f: Field, bs: seq<Item>, ts: seq<Item>, cur: Path, fin: Path, marks: set<nat>)
    requires f.kind.Many?
    ensures ItemsLeft(WalkItems(f, f.kind.updateKey, f.kind.item, bs, ts, cur, fin, marks), f, bs, ts, 0, cur, fin,
                      marks, [])
  {
    assert ts[0..] == ts;
  }

  lemma ItemsEnd(total: Walk, f: Field, bs: seq<Item>, ts: seq<Item>, cur: Path, fin: Path, marks: set<nat>,
                 done: seq<Change>)
    requires f.kind.Many? && ItemsLeft(total, f, bs, ts, |ts|, cur, fin, marks, done)
    ensures total == Walked(done, marks)
  {
  }

  lemma ItemStep(total: Walk, f: Field, bs: seq<Item>, ts: seq<Item>, i: nat, cur: Path, fin: Path, marks: set<nat>,
                 done: seq<Change>)
    requires f.kind.Many? && i < |ts| && ItemsLeft(total, f, bs, ts, i, cur, fin, marks, done)
    ensures var w := WalkItem(f, f.kind.updateKey, f.kind.item, bs, ts[i], cur, fin, marks);
            if w.Raised? then total.Raised?
            else ItemsLeft(total, f, bs, ts, i + 1, cur, fin, w.marks, done + w.changes)
  {
    assert ts[i..][0] == ts[i] && ts[i..][1..] == ts[i + 1..];
    var w := WalkItem(f, f.kind.updateKey, f.kind.item, bs, ts[i], cur, fin, marks);
    if w.Walked? {
      var rest := WalkItems(f, f.kind.updateKey, f.kind.item, bs, ts[i + 1..], cur, fin, w.marks);
      assert rest.Walked? ==> (done + w.changes) + rest.changes == done + (w.changes + rest.changes);
    }
  }

  lemma RemovedStep(f: Field, bs: seq<Item>, j: nat, fin: Path, marks: set<nat>, done: seq<Change>)
    requires j < |bs|
    ensures done + WalkRemoved(f, bs, j, fin, marks).changes
            == (if bs[j].id !in marks then done + [RemovedItem(fin, f, bs[j])] else done)
               + WalkRemoved(f, bs, j + 1, fin, marks).changes
  {
  }

  lemma RemovedEnd(f: Field, bs: seq<Item>, fin: Path, marks: set<nat>)
    ensures WalkRemoved(f, bs, |bs|, fin, marks).changes == []
  {
  }

  lemma {:induction false} RemovedKeepsMarks(f: Field, bs: seq<Item>, j: nat, fin: Path, marks: set<nat>)
    requires j <= |bs|
    ensures WalkRemoved(f, bs, j, fin, marks).marks == marks
    decreases |bs| - j
  {
    if j < |bs| {
      RemovedKeepsMarks(f, bs, j + 1, fin, marks);
    }
  }

  // ------------------------------------------------------------ what the marks do to the recorded changes

  /** A traversal that returned recorded only intended changes; it may lack removals of list items and nothing else,
      and it lacks none if it recorded as many changes as intended. */
  ghost predicate LacksOnlyRemovals(w: Walk, intended: seq<Change>, marks: set<nat>) {
    w.Walked? ==>
      && marks <= w.marks
      && |w.changes| <= |intended|
      && (|w.changes| == |intended| ==> w.changes == intended)
      && (forall c :: c in w.changes ==> c in intended)
      && (forall c :: c in intended && c !in w.changes ==> c.isList && c.newValue == NONE)
  }

  /** Whatever was marked, the traversal records the intended changes but for removals it overlooks. */
  lemma {:induction false} SectionLacksOnlyRemovals(s: Schema, b: Node, t: Node, path: Path, marks: set<nat>)
    ensures LacksOnlyRemovals(WalkSection(s, b, t, path, marks), Diff(s, b, t, path), marks)
    decreases s, 1
  {
    FieldsLackOnlyRemovals(s.fields, b, t, path, FinalPath(s.fields, b, t, path), marks);
  }

  lemma {:induction false} FieldsLackOnlyRemovals(fs: seq<Field>, b: Node, t: Node, cur: Path, fin: Path,
                                                  marks: set<nat>)
    ensures LacksOnlyRemovals(WalkFields(fs, b, t, cur, fin, marks), DiffFields(fs, b, t, cur, fin), marks)
    decreases fs, 0
  {
    if fs != [] {
      FieldLacksOnlyRemovals(fs[0], b, t, cur, fin, marks);
      var w := WalkField(fs[0], b, t, cur, fin, marks);
      if w.Walked? {
        FieldsLackOnlyRemovals(fs[1..], b, t, Step(fs[0], b, t, cur), fin, w.marks);
      }
    }
  }

  lemma {:induction false} FieldLacksOnlyRemovals(f: Field, b: Node, t: Node, cur: Path, fin: Path, marks: set<nat>)
    ensures LacksOnlyRemovals(WalkField(f, b, t, cur, fin, marks), DiffField(f, b, t, cur, fin), marks)
    decreases f, 2
  {
    match f.kind
    case Param =>
    case Nested(s) =>
      SectionLacksOnlyRemovals(s, Entry(b, f.key), Entry(t, f.key), cur + [f.key], marks);
    case Many(uk, s) =>
      if !ListsRaise(b, t, f.key) {
        var bs, ts := ListOf(b, f.key), ListOf(t, f.key);
        ItemsLackOnlyRemovals(f, uk, s, bs, ts, cur, fin, marks);
        var w := WalkItems(f, uk, s, bs, ts, cur, fin, marks);
        if w.Walked? {
          RemovedLacksOnlyRemovals(f, uk, bs, ts, 0, fin, w.marks);
        }
      }
  }

  lemma {:induction false} ItemsLackOnlyRemovals(f: Field, uk: string, s: Schema, bs: seq<Item>, ts: seq<Item>,
                                                 cur: Path, fin: Path, marks: set<nat>)
    requires f.kind == Many(uk, s)
    ensures LacksOnlyRemovals(WalkItems(f, uk, s, bs, ts, cur, fin, marks), DiffItems(f, uk, s, bs, ts, cur, fin),
                              marks)
    ensures var w := WalkItems(f, uk, s, bs, ts, cur, fin, marks);
            w.Walked? ==> forall j :: 0 <= j < |bs| && Kept(bs, ts, uk, j) ==> bs[j].id in w.marks
    decreases f, 1, |ts|
  {
    if ts != [] {
      var j0 := MatchOf(bs, uk, ts[0]);
      if j0 < |bs| {
        var path := cur + [Segment(f.key, Get(ts[0].body, uk))];
        SectionLacksOnlyRemovals(s, Sec(bs[j0].body), Sec(ts[0].body), path, marks);
      }
      var w := WalkItem(f, uk, s, bs, ts[0], cur, fin, marks);
      if w.Walked? {
        ItemsLackOnlyRemovals(f, uk, s, bs, ts[1..], cur, fin, w.marks);
        var w' := WalkItems(f, uk, s, bs, ts[1..], cur, fin, w.marks);
        if w'.Walked? {
          forall j | 0 <= j < |bs| && Kept(bs, ts, uk, j)
            ensures bs[j].id in w'.marks
          {
            KeptStep(bs, ts, uk, j);
          }
        }
      }
    }
  }

  lemma KeptStep(bs: seq<Item>, ts: seq<Item>, uk: string, j: nat)
    requires ts != []
    ensures Kept(bs, ts, uk, j) <==> MatchOf(bs, uk, ts[0]) == j || Kept(bs, ts[1..], uk, j)
  {
    if Kept(bs, ts, uk, j) {
      var i :| 0 <= i < |ts| && MatchOf(bs, uk, ts[i]) == j;
      assert i > 0 ==> ts[i] == ts[1..][i - 1];
    }
    if Kept(bs, ts[1..], uk, j) {
      var i :| 0 <= i < |ts[1..]| && MatchOf(bs, uk, ts[1..][i]) == j;
      assert ts[1..][i] == ts[i + 1];
    }
  }

  lemma {:induction false} RemovedLacksOnlyRemovals(f: Field, uk: string, bs: seq<Item>, ts: seq<Item>, j: nat,
                                                    fin: Path, marks: set<nat>)
    requires j <= |bs|
    requires forall i :: 0 <= i < |bs| && Kept(bs, ts, uk, i) ==> bs[i].id in marks
    ensures LacksOnlyRemovals(WalkRemoved(f, bs, j, fin, marks), DiffRemoved(f, uk, bs, ts, j, fin), marks)
    decreases |bs| - j
  {
    if j < |bs| {
      RemovedLacksOnlyRemovals(f, uk, bs, ts, j + 1, fin, marks);
    }
  }
}

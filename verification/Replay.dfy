/** The recorded changes are a sufficient patch: replaying them in their order on the base configuration gives the
    target. A custom action that switches form moves the changes of its section to the parent's path; what they belong to
    is told by the switch that they follow. */
module Replay {
  import opened Values
  import opened Schema
  import opened ConfigDiff
  import opened DiffShape
  import opened Raising
  import opened Meaning
  import opened Scripts

  // ------------------------------------------------------------ replaying

  /** How many changes at the start of the list can belong to the field. */
  ghost function Leading(f: Field, path: Path, cs: seq<Change>): (n: nat)
    ensures n <= |cs|
  {
    if cs == [] || !Own(f, path, cs[0]) then 0 else 1 + Leading(f, path, cs[1..])
  }

  /** The whole section is recorded: it comes or goes. */
  ghost predicate ComesOrGoes(cs: seq<Change>, path: Path) {
    cs != [] && cs[0].path == path && (cs[0].oldValue == DASH || cs[0].newValue == DASH)
  }

  ghost predicate RemovesItem(c: Change, path: Path, uk: string, name: Node) {
    c.path == path && c.isList && c.newValue == NONE && Entry(c.oldValue, uk) == name
  }

  ghost function Removals(cs: seq<Change>, path: Path, uk: string, name: Node): nat {
    if cs == [] then 0 else (if RemovesItem(cs[0], path, uk, name) then 1 else 0) + Removals(cs[1..], path, uk, name)
  }

  /** How many items from index `k` on have the name. */
  ghost function Occurrences(items: seq<Item>, k: nat, uk: string, name: Node): nat
    requires k <= |items|
    decreases |items| - k
  {
    if k == |items| then 0
    else (if Get(items[k].body, uk) == name then 1 else 0) + Occurrences(items, k + 1, uk, name)
  }

  ghost predicate AddsItem(c: Change, path: Path) {
    c.path == path && c.isList && c.oldValue == NONE && c.newValue.Sec?
  }

  /** The changes at or below a path. */
  ghost function Under(cs: seq<Change>, path: Path): seq<Change> {
    if cs == [] then [] else (if path <= cs[0].path then [cs[0]] else []) + Under(cs[1..], path)
  }

  /** The section at `path` after its changes `cs` were applied to its value `b`, touching only schema fields. */
  ghost function Replay(s: Schema, b: Node, path: Path, cs: seq<Change>): Node
    decreases s, 1
  {
    if !NoScript(s) && cs != [] && cs[0].path != path && cs[0].newValue.Sec? then
      Sec((ReplayFields(s.fields[1..], b, cs[0].path, cs[1..]) - {"Script", "Sequence"}) + cs[0].newValue.body)
    else Sec(ReplayFields(s.fields, b, path, cs))
  }

  /** Field after field, each with the changes at the start of the list that can belong to it. */
  ghost function ReplayFields(fs: seq<Field>, b: Node, path: Path, cs: seq<Change>): map<string, Node>
    decreases fs, 0
  {
    if fs == [] then (if b.Sec? then b.body else map[])
    else
      var n := Leading(fs[0], path, cs);
      var body := ReplayFields(fs[1..], b, path, cs[n..]);
      var (v, key) := ReplayField(fs[0], b, path, cs[..n]);
      (if fs[0].key == "Script" then body - {"Script", "Sequence"} else body)[key := v]
  }

  /** The new value of a field and the key it is stored under. */
  ghost function ReplayField(f: Field, b: Node, path: Path, cs: seq<Change>): (Node, string)
    decreases f, 1
  {
    match f.kind
    case Param =>
      var (v, key) := ReadParam(f.key, b);
      if cs == [] then (v, key) else (cs[0].newValue, cs[0].key)
    case Nested(s) =>
      var v := Entry(b, f.key);
      if ComesOrGoes(cs, path) then (if cs[0].newValue == DASH then NONE else cs[0].newValue, f.key)
      else if Truthy(v) || f.policy == Ignored then (Replay(s, v, path + [f.key], cs), f.key)
      else (NONE, f.key)
    case Many(uk, s) =>
      (Items(ReplayItems(f, uk, s, ListOf(b, f.key), 0, path, cs) + AddedItems(path, cs)), f.key)
  }

  /** A base item stays if it is the first of its name and fewer items of the name are removed than there are. */
  ghost predicate Stays(uk: string, bs: seq<Item>, k: nat, path: Path, cs: seq<Change>)
    requires k < |bs|
  {
    var name := Get(bs[k].body, uk);
    FirstMatch(bs, uk, name) == k && Removals(cs, path, uk, name) < Occurrences(bs, 0, uk, name)
  }

  /** The base items that stay, each with its own changes replayed. */
  ghost function ReplayItems(f: Field, uk: string, s: Schema, bs: seq<Item>, k: nat, path: Path, cs: seq<Change>)
    : seq<Item>
    requires f.kind == Many(uk, s) && k <= |bs|
    decreases f, 0, |bs| - k
  {
    if k == |bs| then []
    else
      (if Stays(uk, bs, k, path, cs) then [Replayed(f, uk, s, bs[k], path, cs)] else [])
      + ReplayItems(f, uk, s, bs, k + 1, path, cs)
  }

  ghost function Replayed(f: Field, uk: string, s: Schema, b: Item, path: Path, cs: seq<Change>): Item
    requires f.kind == Many(uk, s)
    decreases f, 0, 0
  {
    var path' := path + [Segment(f.key, Get(b.body, uk))];
    Item(b.id, Replay(s, Sec(b.body), path', Under(cs, path')).body)
  }

  ghost function AddedItems(path: Path, cs: seq<Change>): seq<Item> {
    if cs == [] then []
    else (if AddsItem(cs[0], path) then [Item(0, cs[0].newValue.body)] else []) + AddedItems(path, cs[1..])
  }

  lemma {:induction false} InReplayItems(f: Field, uk: string, s: Schema, bs: seq<Item>, k: nat, path: Path,
                                         cs: seq<Change>, x: Item)
    requires f.kind == Many(uk, s) && k <= |bs|
    ensures x in ReplayItems(f, uk, s, bs, k, path, cs) <==>
            exists j :: k <= j < |bs| && Stays(uk, bs, j, path, cs) && x == Replayed(f, uk, s, bs[j], path, cs)
    decreases |bs| - k
  {
    hide Stays, Replayed;
    if k < |bs| {
      InReplayItems(f, uk, s, bs, k + 1, path, cs, x);
    }
  }

  lemma {:induction false} InAddedItems(path: Path, cs: seq<Change>, x: Item)
    ensures x in AddedItems(path, cs) <==> exists c :: c in cs && AddsItem(c, path) && x == Item(0, c.newValue.body)
    decreases |cs|
  {
    if cs != [] {
      InAddedItems(path, cs[1..], x);
      assert cs[0] in cs && forall c :: c in cs[1..] ==> c in cs;
      assert forall c :: c in cs ==> c == cs[0] || c in cs[1..];
    }
  }

  // ------------------------------------------------------------ the changes of one field after those of another

  lemma {:induction false} LeadingSplit(f: Field, path: Path, xs: seq<Change>, ys: seq<Change>)
    requires forall i :: 0 <= i < |xs| ==> Own(f, path, xs[i])
    requires ys != [] ==> !Own(f, path, ys[0])
    ensures Leading(f, path, xs + ys) == |xs|
    decreases |xs|
  {
    hide Own;
    if xs == [] {
      assert xs + ys == ys;
    } else {
      assert (xs + ys)[0] == xs[0] && (xs + ys)[1..] == xs[1..] + ys;
      LeadingSplit(f, path, xs[1..], ys);
    }
  }

  /** The replay of a section gives each field exactly the changes that are recorded for it. */
  lemma {:induction false} ReadBack(fs: seq<Field>, b: Node, t: Node, path: Path, i: nat)
    requires InSection(fs, b, t) && i < |fs|
    ensures var body := ReplayFields(fs, b, path, DiffFields(fs, b, t, path, path));
            var (v, key) := ReplayField(fs[i], b, path, DiffField(fs[i], b, t, path, path));
            && key in body && body[key] == v
            && (fs[i].key == "Script" ==> OnlyForm(body, key))
    decreases |fs|
  {
    hide ReplayField, ReadParam, DiffField, DiffFields, Leading, InSection, GoodField;
    SectionKeys(fs, b, t);
    FieldsSplit(fs, b, t, path);
    var f := fs[0];
    FieldKey(f, b, t, path);
    if i > 0 {
      TailInSection(fs, b, t);
      assert fs[1..][i - 1] == fs[i] && fs[0].key != fs[i].key;
      ReadBack(fs[1..], b, t, path, i - 1);
      FieldKey(fs[i], b, t, path);
    }
  }

  /** A custom action is stored in the given form and not in the other. */
  ghost predicate OnlyForm(body: map<string, Node>, key: string) {
    && (key != "Script" ==> "Script" !in body)
    && (key != "Sequence" ==> "Sequence" !in body)
  }

  lemma FieldKey(f: Field, b: Node, t: Node, path: Path)
    requires !Switches(f, b, t)
    ensures var key := ReplayField(f, b, path, DiffField(f, b, t, path, path)).1;
            key == f.key || (f.key == "Script" && key == "Sequence")
  {
  }

  lemma FieldsSplit(fs: seq<Field>, b: Node, t: Node, path: Path)
    requires fs != [] && InSection(fs, b, t)
    ensures var cs := DiffFields(fs, b, t, path, path);
            var n := Leading(fs[0], path, cs);
            cs[..n] == DiffField(fs[0], b, t, path, path) && cs[n..] == DiffFields(fs[1..], b, t, path, path)
  {
    hide DiffField, Leading, GoodField, FieldScriptsLead, MovesUp, Own;
    var f := fs[0];
    var xs, ys := DiffField(f, b, t, path, path), DiffFields(fs[1..], b, t, path, path);
    assert Step(f, b, t, path) == path;
    assert DiffFields(fs, b, t, path, path) == xs + ys;
    forall i | 0 <= i < |xs|
      ensures Own(f, path, xs[i])
    {
      FieldOwns(f, b, t, path, xs[i]);
    }
    TailInSection(fs, b, t);
    assert forall i :: 0 <= i < |fs[1..]| ==> fs[1..][i] == fs[i + 1];
    assert KeysApart(fs, f) && (f.kind.Param? || NoScript(Schema(fs)));
    RestIsNotOwn(f, fs[1..], b, t, path);
    LeadingSplit(f, path, xs, ys);
  }

  // ------------------------------------------------------------ lists

  lemma {:induction false} UnderAppend(cs: seq<Change>, ds: seq<Change>, path: Path)
    ensures Under(cs + ds, path) == Under(cs, path) + Under(ds, path)
    decreases |cs|
  {
    if cs == [] {
      assert cs + ds == ds;
    } else {
      assert (cs + ds)[0] == cs[0] && (cs + ds)[1..] == cs[1..] + ds;
      UnderAppend(cs[1..], ds, path);
    }
  }

  lemma {:induction false} UnderOnly(cs: seq<Change>, path: Path)
    ensures (forall i :: 0 <= i < |cs| ==> path <= cs[i].path) ==> Under(cs, path) == cs
    ensures (forall i :: 0 <= i < |cs| ==> !(path <= cs[i].path)) ==> Under(cs, path) == []
    decreases |cs|
  {
    if cs != [] {
      UnderOnly(cs[1..], path);
      assert forall i :: 0 <= i < |cs[1..]| ==> cs[1..][i] == cs[i + 1];
      assert cs == [cs[0]] + cs[1..];
    }
  }

  lemma {:induction false} RemovalsAppend(cs: seq<Change>, ds: seq<Change>, path: Path, uk: string, name: Node)
    ensures Removals(cs + ds, path, uk, name) == Removals(cs, path, uk, name) + Removals(ds, path, uk, name)
    decreases |cs|
  {
    if cs == [] {
      assert cs + ds == ds;
    } else {
      assert (cs + ds)[0] == cs[0] && (cs + ds)[1..] == cs[1..] + ds;
      RemovalsAppend(cs[1..], ds, path, uk, name);
    }
  }

  lemma {:induction false} NoRemovals(cs: seq<Change>, path: Path, uk: string, name: Node)
    requires forall i :: 0 <= i < |cs| ==> !RemovesItem(cs[i], path, uk, name)
    ensures Removals(cs, path, uk, name) == 0
    decreases |cs|
  {
    if cs != [] {
      NoRemovals(cs[1..], path, uk, name);
    }
  }

  /** Of what the target items record, the part below the segment of item `i` is the difference of that item. */
  lemma {:induction false} PartOfItem(f: Field, uk: string, s: Schema, bs: seq<Item>, t: Node, path: Path, i: nat, k: nat)
    requires Listed(f, uk, s, t) && i < |ListOf(t, f.key)| && k <= |ListOf(t, f.key)|
    requires MatchOf(bs, uk, ListOf(t, f.key)[i]) < |bs|
    ensures var ts := ListOf(t, f.key);
            Under(DiffItems(f, uk, s, bs, ts[k..], path, path), ItemsPath(f, uk, ts[i], path))
            == if i >= k then DiffItem(f, uk, s, bs, ts[i], path, path) else []
    decreases |ListOf(t, f.key)| - k
  {
    hide Listed, Under, DiffItem, DiffItems, MatchOf, ItemsPath, ListOf;
    var ts := ListOf(t, f.key);
    var path' := ItemsPath(f, uk, ts[i], path);
    ListedKind(f, uk, s, t);
    NextItem(f, uk, s, bs, ts, k, path);
    if k == |ts| {
      UnderNothing(path');
    } else {
      PartOfItem(f, uk, s, bs, t, path, i, k + 1);
      OneItemPart(f, uk, s, bs, t, path, i, k);
      var cs, ds := DiffItem(f, uk, s, bs, ts[k], path, path), DiffItems(f, uk, s, bs, ts[k + 1..], path, path);
      UnderAppend(cs, ds, path');
      OneOfThree(Under(cs, path'), Under(ds, path'), DiffItem(f, uk, s, bs, ts[i], path, path), i, k);
    }
  }

  lemma ListedKind(f: Field, uk: string, s: Schema, t: Node)
    requires Listed(f, uk, s, t)
    ensures f.kind == Many(uk, s)
  {
  }

  lemma OneOfThree(xs: seq<Change>, ys: seq<Change>, mine: seq<Change>, i: nat, k: nat)
    requires xs == if k == i then mine else []
    requires ys == if k < i then mine else []
    ensures xs + ys == if i >= k then mine else []
  {
  }

  lemma UnderNothing(path: Path)
    ensures Under([], path) == []
  {
  }

  lemma NextItem(f: Field, uk: string, s: Schema, bs: seq<Item>, ts: seq<Item>, k: nat, path: Path)
    requires f.kind == Many(uk, s) && k <= |ts|
    ensures DiffItems(f, uk, s, bs, ts[k..], path, path)
            == if k == |ts| then []
               else DiffItem(f, uk, s, bs, ts[k], path, path) + DiffItems(f, uk, s, bs, ts[k + 1..], path, path)
  {
    hide DiffItem;
    if k < |ts| {
      assert ts[k..][0] == ts[k] && ts[k..][1..] == ts[k + 1..];
    }
  }

  lemma OneItemPart(f: Field, uk: string, s: Schema, bs: seq<Item>, t: Node, path: Path, i: nat, k: nat)
    requires Listed(f, uk, s, t) && i < |ListOf(t, f.key)| && k < |ListOf(t, f.key)|
    requires MatchOf(bs, uk, ListOf(t, f.key)[i]) < |bs|
    ensures var ts := ListOf(t, f.key);
            var cs := DiffItem(f, uk, s, bs, ts[k], path, path);
            Under(cs, ItemsPath(f, uk, ts[i], path)) == if k == i then cs else []
  {
    hide DiffItem, MatchOf, ItemsPath, Under;
    var path' := ItemsPath(f, uk, ListOf(t, f.key)[i], path);
    var cs := DiffItem(f, uk, s, bs, ListOf(t, f.key)[k], path, path);
    hide Listed;
    forall n | 0 <= n < |cs|
      ensures path' <= cs[n].path <==> k == i
    {
      ItemChange(f, uk, s, bs, t, path, k, cs[n]);
      OnlyItsOwn(f, uk, s, bs, t, path, i, k, cs[n]);
    }
    UnderOnly(cs, path');
  }

  lemma OnlyItsOwn(f: Field, uk: string, s: Schema, bs: seq<Item>, t: Node, path: Path, i: nat, k: nat, c: Change)
    requires Listed(f, uk, s, t) && i < |ListOf(t, f.key)| && k < |ListOf(t, f.key)|
    requires MatchOf(bs, uk, ListOf(t, f.key)[i]) < |bs|
    requires var tk := ListOf(t, f.key)[k];
             if MatchOf(bs, uk, tk) < |bs| then ItemsPath(f, uk, tk, path) <= c.path else c == Added(path, f, tk)
    ensures ItemsPath(f, uk, ListOf(t, f.key)[i], path) <= c.path <==> k == i
  {
    hide Listed, MatchOf;
    if k != i && ItemsPath(f, uk, ListOf(t, f.key)[k], path) <= c.path {
      OtherItem(f, uk, s, t, path, i, k, c);
    }
  }

  /** Of the whole list, too: removals are recorded at the path of the list. */
  lemma PartOfList(f: Field, uk: string, s: Schema, b: Node, t: Node, path: Path, i: nat, j: nat)
    requires Listed(f, uk, s, t) && i < |ListOf(t, f.key)| && j < |ListOf(b, f.key)|
    requires MatchOf(ListOf(b, f.key), uk, ListOf(t, f.key)[i]) == j
    ensures var bi, ti := ListOf(b, f.key)[j], ListOf(t, f.key)[i];
            var path' := ItemsPath(f, uk, ti, path);
            && path' == ItemsPath(f, uk, bi, path)
            && Under(DiffField(f, b, t, path, path), path') == Diff(s, Sec(bi.body), Sec(ti.body), path')
  {
    var bs, ts := ListOf(b, f.key), ListOf(t, f.key);
    var path' := ItemsPath(f, uk, ts[i], path);
    var items, removed := DiffItems(f, uk, s, bs, ts, path, path), DiffRemoved(f, uk, bs, ts, 0, path);
    assert DiffField(f, b, t, path, path) == items + removed;
    assert DiffItem(f, uk, s, bs, ts[i], path, path) == Diff(s, Sec(bs[j].body), Sec(ts[i].body), path');
    hide Diff, DiffItem, DiffItems, DiffRemoved, DiffField, MatchOf, Listed;
    assert ts[0..] == ts;
    PartOfItem(f, uk, s, bs, t, path, i, 0);
    UnderAppend(items, removed, path');
    forall n | 0 <= n < |removed|
      ensures !(path' <= removed[n].path)
    {
      InRemoved(f, uk, bs, ts, 0, path, removed[n]);
    }
    UnderOnly(removed, path');
  }

  /** As many removals are recorded for a name as there are items of it that no target item is compared with: all, or all
      but the first. */
  lemma {:induction false} RemovalsOfName(f: Field, uk: string, bs: seq<Item>, ts: seq<Item>, k: nat, path: Path,
                                          name: Node)
    requires k <= |bs|
    ensures var first := FirstMatch(bs, uk, name);
            Removals(DiffRemoved(f, uk, bs, ts, k, path), path, uk, name)
            == Occurrences(bs, k, uk, name) - (if k <= first < |bs| && Kept(bs, ts, uk, first) then 1 else 0)
    decreases |bs| - k
  {
    if k < |bs| {
      RemovalsOfName(f, uk, bs, ts, k + 1, path, name);
      var first := if Kept(bs, ts, uk, k) then [] else [RemovedItem(path, f, bs[k])];
      RemovalsAppend(first, DiffRemoved(f, uk, bs, ts, k + 1, path), path, uk, name);
      if Kept(bs, ts, uk, k) {
        KeptIsFirst(uk, bs, ts, k);
      } else {
        OneRemoval(f, uk, bs[k], path, name);
      }
    }
  }

  lemma KeptIsFirst(uk: string, bs: seq<Item>, ts: seq<Item>, k: nat)
    requires k < |bs| && Kept(bs, ts, uk, k)
    ensures FirstMatch(bs, uk, Get(bs[k].body, uk)) == k
  {
    var i :| 0 <= i < |ts| && MatchOf(bs, uk, ts[i]) == k;
  }

  lemma OneRemoval(f: Field, uk: string, b: Item, path: Path, name: Node)
    ensures Removals([RemovedItem(path, f, b)], path, uk, name) == if Get(b.body, uk) == name then 1 else 0
  {
    assert [RemovedItem(path, f, b)][1..] == [];
  }

  /** A base item stays exactly when a target item is compared with it. */
  lemma StaysIffKept(f: Field, uk: string, s: Schema, b: Node, t: Node, path: Path, k: nat)
    requires Listed(f, uk, s, t) && k < |ListOf(b, f.key)|
    ensures var bs, ts := ListOf(b, f.key), ListOf(t, f.key);
            Stays(uk, bs, k, path, DiffField(f, b, t, path, path)) <==> Kept(bs, ts, uk, k)
  {
    var bs, ts := ListOf(b, f.key), ListOf(t, f.key);
    var name := Get(bs[k].body, uk);
    var items, removed := DiffItems(f, uk, s, bs, ts, path, path), DiffRemoved(f, uk, bs, ts, 0, path);
    assert DiffField(f, b, t, path, path) == items + removed;
    hide DiffItems, DiffRemoved, DiffField, Listed, Occurrences, Removals;
    RemovalsAppend(items, removed, path, uk, name);
    RemovalsOfName(f, uk, bs, ts, 0, path, name);
    forall n | 0 <= n < |items|
      ensures !RemovesItem(items[n], path, uk, name)
    {
      InItems(f, uk, s, bs, ts, path, path, items[n]);
      var i :| 0 <= i < |ts| && items[n] in DiffItem(f, uk, s, bs, ts[i], path, path);
      ItemChange(f, uk, s, bs, t, path, i, items[n]);
    }
    NoRemovals(items, path, uk, name);
    if Kept(bs, ts, uk, k) {
      KeptIsFirst(uk, bs, ts, k);
    }
  }

  /** What a list records at its own path and adds is a target item. */
  lemma AddsTarget(f: Field, uk: string, s: Schema, b: Node, t: Node, path: Path, c: Change) returns (i: nat)
    requires Listed(f, uk, s, t) && c in DiffField(f, b, t, path, path) && AddsItem(c, path)
    ensures i < |ListOf(t, f.key)| && c == Added(path, f, ListOf(t, f.key)[i])
  {
    var bs, ts := ListOf(b, f.key), ListOf(t, f.key);
    assert c in DiffItems(f, uk, s, bs, ts, path, path) + DiffRemoved(f, uk, bs, ts, 0, path);
    hide DiffItem, DiffItems, DiffRemoved, DiffField, Listed;
    InItems(f, uk, s, bs, ts, path, path, c);
    InRemoved(f, uk, bs, ts, 0, path, c);
    assert forall k :: 0 <= k < |bs| ==> c != RemovedItem(path, f, bs[k]);
    i :| 0 <= i < |ts| && c in DiffItem(f, uk, s, bs, ts[i], path, path);
    ItemChange(f, uk, s, bs, t, path, i, c);
  }

  // ------------------------------------------------------------ the theorem

  /** For every base and every target whose lists repeat no name, custom actions switching form or not: the changes of the
      comparison, applied in their order, turn the base configuration into the target. */
  lemma {:induction false} DiffIsSufficientPatch(s: Schema, b: Node, t: Node)
    requires GoodKeys(s) && ScriptsLead(s) && NoScript(s) && Typed(s, b) && Accepted(s, t)
    ensures Same(s, Replay(s, b, [], Diff(s, b, t, [])), t)
  {
    ReplaySame(s, b, t, []);
  }

  /** So two targets that are recorded alike mean the same. */
  lemma {:induction false} DiffDeterminesTarget(s: Schema, b: Node, t: Node, u: Node)
    requires GoodKeys(s) && ScriptsLead(s) && NoScript(s) && Typed(s, b) && Accepted(s, t) && Accepted(s, u)
    requires Diff(s, b, t, []) == Diff(s, b, u, [])
    ensures Same(s, t, u)
  {
    DiffIsSufficientPatch(s, b, t);
    DiffIsSufficientPatch(s, b, u);
    SameJoin(s, Replay(s, b, [], Diff(s, b, t, [])), t, u);
  }

  lemma {:induction false} ReplaySame(s: Schema, b: Node, t: Node, path: Path)
    requires GoodKeys(s) && ScriptsLead(s) && NoScript(s) && Typed(s, b) && Accepted(s, t)
    ensures Same(s, Replay(s, b, path, Diff(s, b, t, path)), t)
    decreases s, 1
  {
    WholeSection(s, b, t, path);
    forall i | 0 <= i < |s.fields|
      ensures FieldSame(s.fields[i], Replay(s, b, path, Diff(s, b, t, path)), t)
    {
      AcceptedField(s, t, i);
      assert FieldTyped(s.fields[i], b) && GoodField(s.fields[i]) && FieldScriptsLead(s.fields[i]);
      FieldReplay(s.fields, b, t, path, i);
    }
  }

  /** Without a script the fields of a section are replayed at its path. */
  lemma WholeSection(s: Schema, b: Node, t: Node, path: Path)
    requires GoodKeys(s) && ScriptsLead(s) && NoScript(s)
    ensures InSection(s.fields, b, t)
    ensures Diff(s, b, t, path) == DiffFields(s.fields, b, t, path, path)
    ensures Replay(s, b, path, Diff(s, b, t, path))
            == Sec(ReplayFields(s.fields, b, path, DiffFields(s.fields, b, t, path, path)))
  {
    hide GoodField, FieldScriptsLead, MovesUp, ReplayFields, DiffFields;
    PathStays(s.fields, b, t, path);
  }

  lemma {:induction false} FieldReplay(fs: seq<Field>, b: Node, t: Node, path: Path, i: nat)
    requires InSection(fs, b, t) && i < |fs| && GoodField(fs[i]) && FieldScriptsLead(fs[i])
    requires FieldTyped(fs[i], b)
    requires FieldTyped(fs[i], t) && FieldUniqueNames(fs[i], t) && FieldNamed(fs[i], t)
    ensures FieldSame(fs[i], Sec(ReplayFields(fs, b, path, DiffFields(fs, b, t, path, path))), t)
    decreases fs[i], 1
  {
    var f := fs[i];
    ReadBack(fs, b, t, path, i);
    var body := ReplayFields(fs, b, path, DiffFields(fs, b, t, path, path));
    match f.kind
    case Param => ParamReplay(f, b, t, path, body);
    case Nested(s) => SectionReplay(f, s, b, t, path);
    case Many(uk, s) =>
      ItemsReplay(f, uk, s, b, t, path);
      assert ListOf(Sec(body), f.key) == ReplayField(f, b, path, DiffField(f, b, t, path, path)).0.items;
      SameLists(f, uk, s, Sec(body), t);
  }

  lemma ParamReplay(f: Field, b: Node, t: Node, path: Path, body: map<string, Node>)
    requires f.kind.Param? && f.key != "Sequence" && !Switches(f, b, t)
    requires var (v, key) := ReplayField(f, b, path, DiffField(f, b, t, path, path));
             && key in body && body[key] == v
             && (f.key == "Script" ==> OnlyForm(body, key))
    ensures ReadParam(f.key, Sec(body)) == ReadParam(f.key, t)
  {
    assert ReplayField(f, b, path, DiffField(f, b, t, path, path)) == ReadParam(f.key, t);
  }

  /** A nested section that is replayed, or that comes or goes. */
  lemma {:induction false} SectionReplay(f: Field, s: Schema, b: Node, t: Node, path: Path)
    requires f.kind == Nested(s) && GoodField(f) && FieldScriptsLead(f)
    requires FieldTyped(f, b) && FieldTyped(f, t) && FieldUniqueNames(f, t) && FieldNamed(f, t)
    ensures var x := ReplayField(f, b, path, DiffField(f, b, t, path, path)).0;
            && (f.policy != Ignored ==> (Truthy(x) <==> Truthy(Entry(t, f.key))))
            && Same(s, x, Entry(t, f.key))
    decreases f, 0
  {
    var bv, tv := Entry(b, f.key), Entry(t, f.key);
    var cs := DiffField(f, b, t, path, path);
    var x := ReplayField(f, b, path, cs).0;
    var oneSided := !Traversed(f, bv, tv) && (Truthy(bv) || Truthy(tv));
    assert cs == DiffNested(f, s, b, t, path, path);
    if oneSided {
      assert cs == [Change(path, f.key, OrDash(bv), OrDash(tv), f.policy, false)];
      if Truthy(tv) {
        SameRefl(s, tv);
      } else {
        BothAbsent(s, x, tv, path);
      }
    } else {
      BelowSection(f, s, b, t, path);
      if Truthy(bv) || f.policy == Ignored {
        if NoScript(s) {
          ReplaySame(s, bv, tv, path + [f.key]);
        } else {
          ScriptReplay(s, bv, tv, path, f.key);
        }
        if Truthy(bv) {
          ReplayTruthy(s, bv, tv, path, f.key);
        }
      } else {
        BothAbsent(s, x, tv, path);
      }
    }
  }

  /** A section that is compared is not recorded as a whole. */
  lemma BelowSection(f: Field, s: Schema, b: Node, t: Node, path: Path)
    requires f.kind == Nested(s) && GoodField(f) && FieldScriptsLead(f)
    requires Traversed(f, Entry(b, f.key), Entry(t, f.key)) || (!Truthy(Entry(b, f.key)) && !Truthy(Entry(t, f.key)))
    ensures !ComesOrGoes(DiffField(f, b, t, path, path), path)
    ensures DiffField(f, b, t, path, path) == Diff(s, Entry(b, f.key), Entry(t, f.key), path + [f.key])
  {
    var bv, tv := Entry(b, f.key), Entry(t, f.key);
    var cs := DiffField(f, b, t, path, path);
    if !Traversed(f, bv, tv) {
      BothAbsent(s, bv, tv, path + [f.key]);
    }
    assert cs == DiffNested(f, s, b, t, path, path);
    if cs != [] {
      if NoScript(s) {
        SectionPaths(s, bv, tv, path + [f.key], cs[0]);
      } else {
        FirstOfScript(s, bv, tv, path, f.key);
      }
    }
  }

  lemma FieldsTruthy(fs: seq<Field>, b: Node, path: Path, cs: seq<Change>)
    requires b.Sec? && Truthy(b)
    ensures ReplayFields(fs, b, path, cs) != map[]
  {
    if fs != [] {
      var key := ReplayField(fs[0], b, path, cs[..Leading(fs[0], path, cs)]).1;
      assert key in ReplayFields(fs, b, path, cs);
    }
  }

  lemma ReplayTruthy(s: Schema, b: Node, t: Node, path: Path, key: string)
    requires GoodKeys(s) && ScriptsLead(s) && b.Sec? && Truthy(b)
    ensures Truthy(Replay(s, b, path + [key], Diff(s, b, t, path + [key])))
  {
    hide ReplayFields, Diff;
    var cs := Diff(s, b, t, path + [key]);
    FieldsTruthy(s.fields, b, path + [key], cs);
    if !NoScript(s) && cs != [] {
      FirstOfScript(s, b, t, path, key);
      var tk := ReadParam("Script", t).1;
      assert Switches(s.fields[0], b, t) ==> tk in cs[0].newValue.body;
    }
  }

  /** A section with a script that keeps its form: all parameters at its own path. */
  lemma KeptForm(s: Schema, b: Node, t: Node, path: Path, key: string)
    requires GoodKeys(s) && ScriptsLead(s) && !NoScript(s) && !Switches(s.fields[0], b, t)
    ensures InSection(s.fields, b, t)
    ensures Replay(s, b, path + [key], Diff(s, b, t, path + [key]))
            == Sec(ReplayFields(s.fields, b, path + [key], DiffFields(s.fields, b, t, path + [key], path + [key])))
  {
    hide GoodField, ReplayFields, DiffFields, Switches, ReadParam;
    forall i | 0 <= i < |s.fields|
      ensures !Switches(s.fields[i], b, t)
    {
      if i > 0 {
        PlainParam(s.fields[i], b, t);
      }
    }
    PathStays(s.fields, b, t, path + [key]);
    if Diff(s, b, t, path + [key]) != [] {
      FirstOfScript(s, b, t, path, key);
    }
  }

  /** A section with a script that switches form: the switch first, then the other parameters at the parent's path. */
  lemma SwitchedForm(s: Schema, b: Node, t: Node, path: Path, key: string)
    requires GoodKeys(s) && ScriptsLead(s) && !NoScript(s) && Switches(s.fields[0], b, t)
    ensures InSection(s.fields[1..], b, t)
    ensures var rest := s.fields[1..];
            var (tv, tk) := ReadParam("Script", t);
            Replay(s, b, path + [key], Diff(s, b, t, path + [key]))
            == Sec((ReplayFields(rest, b, path, DiffFields(rest, b, t, path, path)) - {"Script", "Sequence"}) + map[tk := tv])
  {
    hide GoodField, ReplayFields, DiffFields;
    var rest := s.fields[1..];
    assert forall i :: 0 <= i < |rest| ==> rest[i] == s.fields[i + 1];
    ScriptDiff(s, b, t, path, key);
    FirstOfScript(s, b, t, path, key);
    var cs := Diff(s, b, t, path + [key]);
    assert cs[1..] == DiffFields(rest, b, t, path, path);
  }

  lemma ReadSwitched(body: map<string, Node>, t: Node)
    ensures var (tv, tk) := ReadParam("Script", t);
            ReadParam("Script", Sec((body - {"Script", "Sequence"}) + map[tk := tv])) == (tv, tk)
  {
    var (tv, tk) := ReadParam("Script", t);
    assert tk in (body - {"Script", "Sequence"}) + map[tk := tv];
  }

  lemma ReadOther(body: map<string, Node>, key: string, form: map<string, Node>)
    requires key in body && key != "Script" && key != "Sequence" && form.Keys <= {"Script", "Sequence"}
    ensures ReadParam(key, Sec((body - {"Script", "Sequence"}) + form)) == ReadParam(key, Sec(body))
  {
    assert key in (body - {"Script", "Sequence"}) + form;
  }

  /** A section with a script. */
  lemma {:induction false} ScriptReplay(s: Schema, b: Node, t: Node, path: Path, key: string)
    requires GoodKeys(s) && ScriptsLead(s) && !NoScript(s) && Typed(s, b) && Accepted(s, t)
    ensures Same(s, Replay(s, b, path + [key], Diff(s, b, t, path + [key])), t)
    decreases s, 1
  {
    hide ReplayFields, DiffFields, ReplayField;
    if Switches(s.fields[0], b, t) {
      SwitchedForm(s, b, t, path, key);
    } else {
      KeptForm(s, b, t, path, key);
    }
    forall i | 0 <= i < |s.fields|
      ensures FieldSame(s.fields[i], Replay(s, b, path + [key], Diff(s, b, t, path + [key])), t)
    {
      AcceptedField(s, t, i);
      assert FieldTyped(s.fields[i], b) && GoodField(s.fields[i]) && FieldScriptsLead(s.fields[i]);
      if !Switches(s.fields[0], b, t) {
        FieldReplay(s.fields, b, t, path + [key], i);
      } else {
        var body := ReplayFields(s.fields[1..], b, path, DiffFields(s.fields[1..], b, t, path, path));
        if i == 0 {
          ReadSwitched(body, t);
        } else {
          assert s.fields[1..][i - 1] == s.fields[i] && s.fields[0].key != s.fields[i].key;
          ReadBack(s.fields[1..], b, t, path, i - 1);
          FieldKey(s.fields[i], b, t, path);
          ParamReplay(s.fields[i], b, t, path, body);
          ReadOther(body, s.fields[i].key, map[ReadParam("Script", t).1 := ReadParam("Script", t).0]);
        }
      }
    }
  }

  /** Every target item has its replayed or its added item, and every such item its target item. */
  lemma {:induction false} ItemsReplay(f: Field, uk: string, s: Schema, b: Node, t: Node, path: Path)
    requires Listed(f, uk, s, t) && FieldTyped(f, b)
    ensures var xs, ts := ReplayField(f, b, path, DiffField(f, b, t, path, path)).0.items, ListOf(t, f.key);
            && (forall i :: 0 <= i < |ts| ==> Counterpart(uk, s, xs, ts[i]))
            && (forall x :: x in xs ==> Origin(uk, s, x, ts))
    decreases f, 0, 2
  {
    var bs, ts, cs := ListOf(b, f.key), ListOf(t, f.key), DiffField(f, b, t, path, path);
    var stay, added := ReplayItems(f, uk, s, bs, 0, path, cs), AddedItems(path, cs);
    assert ReplayField(f, b, path, cs).0 == Items(stay + added);
    hide Same, Counterpart, Origin, Listed, DiffField, ReplayItems, AddedItems;
    forall i | 0 <= i < |ts|
      ensures Counterpart(uk, s, stay + added, ts[i])
    {
      TargetItemReplayed(f, uk, s, b, t, path, i);
    }
    forall x | x in stay + added
      ensures Origin(uk, s, x, ts)
    {
      if x in stay {
        StayOrigin(f, uk, s, b, t, path, x);
      } else {
        AddedOrigin(f, uk, s, b, t, path, x);
      }
    }
  }

  /** The item that is replayed for base item `j` means the same as the target item that was compared with it. */
  lemma {:induction false} ItemReplay(f: Field, uk: string, s: Schema, b: Node, t: Node, path: Path, i: nat, j: nat)
    requires Listed(f, uk, s, t) && FieldTyped(f, b)
    requires i < |ListOf(t, f.key)| && j < |ListOf(b, f.key)|
    requires MatchOf(ListOf(b, f.key), uk, ListOf(t, f.key)[i]) == j
    ensures SameItem(uk, s, Replayed(f, uk, s, ListOf(b, f.key)[j], path, DiffField(f, b, t, path, path)),
                     ListOf(t, f.key)[i])
    decreases f, 0, 0
  {
    var bi, ti := ListOf(b, f.key)[j], ListOf(t, f.key)[i];
    var path' := ItemsPath(f, uk, bi, path);
    PartOfList(f, uk, s, b, t, path, i, j);
    ReplaySame(s, Sec(bi.body), Sec(ti.body), path');
    WholeSection(s, Sec(bi.body), Sec(ti.body), path');
    KeepsName(s.fields, Sec(bi.body), Sec(ti.body), path', uk);
  }

  /** A replay does not change the update key of an item that both sides call the same. */
  lemma {:induction false} KeepsName(fs: seq<Field>, b: Node, t: Node, path: Path, uk: string)
    requires b.Sec? && Entry(b, uk) == Entry(t, uk) && IsText(Entry(b, uk)) && t.Sec?
    requires uk != "Script" && uk != "Sequence" && InSection(fs, b, t)
    requires forall i :: 0 <= i < |fs| && fs[i].key == uk ==> fs[i].kind.Param?
    ensures Get(ReplayFields(fs, b, path, DiffFields(fs, b, t, path, path)), uk) == Entry(b, uk)
    decreases |fs|
  {
    hide InSection, ReplayField, DiffField, DiffFields, Leading;
    if fs != [] {
      var f := fs[0];
      FieldsSplit(fs, b, t, path);
      TailInSection(fs, b, t);
      assert forall i :: 0 <= i < |fs[1..]| ==> fs[1..][i] == fs[i + 1];
      KeepsName(fs[1..], b, t, path, uk);
      SectionKeys(fs, b, t);
      FieldKey(f, b, t, path);
      if f.key == uk {
        NameReplayed(f, b, t, path);
      }
    }
  }

  lemma NameReplayed(f: Field, b: Node, t: Node, path: Path)
    requires f.kind.Param? && f.key != "Script" && b.Sec? && t.Sec? && f.key in b.body && Entry(b, f.key) == Entry(t, f.key)
    requires Entry(b, f.key) != NONE
    ensures ReplayField(f, b, path, DiffField(f, b, t, path, path)) == (Entry(b, f.key), f.key)
  {
    assert f.key in t.body;
  }

  lemma {:induction false} StayOrigin(f: Field, uk: string, s: Schema, b: Node, t: Node, path: Path, x: Item)
    requires Listed(f, uk, s, t) && FieldTyped(f, b)
    requires x in ReplayItems(f, uk, s, ListOf(b, f.key), 0, path, DiffField(f, b, t, path, path))
    ensures Origin(uk, s, x, ListOf(t, f.key))
    decreases f, 0, 1
  {
    var bs, ts, cs := ListOf(b, f.key), ListOf(t, f.key), DiffField(f, b, t, path, path);
    assert f.kind == Many(uk, s);
    hide Same, DiffField, Listed, Stays, Replayed;
    InReplayItems(f, uk, s, bs, 0, path, cs, x);
    var j :| 0 <= j < |bs| && Stays(uk, bs, j, path, cs) && x == Replayed(f, uk, s, bs[j], path, cs);
    StaysIffKept(f, uk, s, b, t, path, j);
    var i :| 0 <= i < |ts| && MatchOf(bs, uk, ts[i]) == j;
    ItemReplay(f, uk, s, b, t, path, i, j);
  }

  lemma AddedOrigin(f: Field, uk: string, s: Schema, b: Node, t: Node, path: Path, x: Item)
    requires Listed(f, uk, s, t) && x in AddedItems(path, DiffField(f, b, t, path, path))
    ensures Origin(uk, s, x, ListOf(t, f.key))
  {
    var cs := DiffField(f, b, t, path, path);
    InAddedItems(path, cs, x);
    var c :| c in cs && AddsItem(c, path) && x == Item(0, c.newValue.body);
    var i := AddsTarget(f, uk, s, b, t, path, c);
    SameAsAdded(f, uk, s, t, x, i);
  }

  lemma SameAsAdded(f: Field, uk: string, s: Schema, t: Node, x: Item, i: nat)
    requires f.kind == Many(uk, s) && FieldUniqueNames(f, t)
    requires i < |ListOf(t, f.key)| && x.body == ListOf(t, f.key)[i].body
    ensures SameItem(uk, s, x, ListOf(t, f.key)[i])
  {
    var ts := ListOf(t, f.key);
    assert UniqueNames(s, Sec(ts[i].body));
    SameRefl(s, Sec(ts[i].body));
  }

  lemma {:induction false} TargetItemReplayed(f: Field, uk: string, s: Schema, b: Node, t: Node, path: Path, i: nat)
    requires Listed(f, uk, s, t) && FieldTyped(f, b) && i < |ListOf(t, f.key)|
    ensures var cs := DiffField(f, b, t, path, path);
            Counterpart(uk, s, ReplayItems(f, uk, s, ListOf(b, f.key), 0, path, cs) + AddedItems(path, cs),
                        ListOf(t, f.key)[i])
    decreases f, 0, 1
  {
    var bs, ts, cs := ListOf(b, f.key), ListOf(t, f.key), DiffField(f, b, t, path, path);
    var stay, added := ReplayItems(f, uk, s, bs, 0, path, cs), AddedItems(path, cs);
    var j := MatchOf(bs, uk, ts[i]);
    if j < |bs| {
      hide Same, Stays, Replayed, DiffField, Listed, ReplayItems, AddedItems, SameItem;
      var x := Replayed(f, uk, s, bs[j], path, cs);
      assert Kept(bs, ts, uk, j);
      StaysIffKept(f, uk, s, b, t, path, j);
      InReplayItems(f, uk, s, bs, 0, path, cs, x);
      ItemReplay(f, uk, s, b, t, path, i, j);
      assert x in stay + added;
    } else {
      var c, x := Added(path, f, ts[i]), Item(0, ts[i].body);
      AdditionRecorded(f, uk, s, b, t, path, i);
      hide Same, DiffField, ReplayItems, AddedItems, SameItem;
      InAddedItems(path, cs, x);
      SameAsAdded(f, uk, s, t, x, i);
      assert x in stay + added;
    }
  }

  lemma AdditionRecorded(f: Field, uk: string, s: Schema, b: Node, t: Node, path: Path, i: nat)
    requires f.kind == Many(uk, s) && i < |ListOf(t, f.key)|
    requires MatchOf(ListOf(b, f.key), uk, ListOf(t, f.key)[i]) == |ListOf(b, f.key)|
    ensures Added(path, f, ListOf(t, f.key)[i]) in DiffField(f, b, t, path, path)
  {
    var bs, ts := ListOf(b, f.key), ListOf(t, f.key);
    var c := Added(path, f, ts[i]);
    assert c in DiffItem(f, uk, s, bs, ts[i], path, path);
    InItems(f, uk, s, bs, ts, path, path, c);
  }
}

/** When no two recorded changes have the same address, and which items the changes of one list are about. */
module Addresses {
  import opened Values
  import opened Schema
  import opened ConfigDiff
  import opened DiffShape
  import opened Raising
  import opened Meaning
  import opened Scripts

  /** Two changes that cannot be told apart, or two values recorded for one parameter or section. */
  ghost predicate Clash(c: Change, d: Change) {
    c == d || (c.path == d.path && c.key == d.key && !(c.isList && d.isList))
  }

  ghost predicate Distinct(cs: seq<Change>) {
    forall i, j :: 0 <= i < j < |cs| ==> !Clash(cs[i], cs[j])
  }

  ghost predicate Apart(cs: seq<Change>, ds: seq<Change>) {
    forall c, d :: c in cs && d in ds ==> !Clash(c, d)
  }

  lemma DistinctAppend(cs: seq<Change>, ds: seq<Change>)
    ensures Distinct(cs + ds) <==> Distinct(cs) && Distinct(ds) && Apart(cs, ds)
  {
    hide Clash;
    var all := cs + ds;
    assert forall i :: 0 <= i < |cs| ==> all[i] == cs[i];
    assert forall j :: 0 <= j < |ds| ==> all[|cs| + j] == ds[j];
    if Distinct(cs) && Distinct(ds) && Apart(cs, ds) {
      forall i, j | 0 <= i < j < |all|
        ensures !Clash(all[i], all[j])
      {
        if i < |cs| <= j {
          assert all[i] in cs && all[j] in ds;
        } else if i >= |cs| {
          assert all[i] == ds[i - |cs|] && all[j] == ds[j - |cs|];
        }
      }
    }
    if Distinct(all) {
      forall c, d | c in cs && d in ds
        ensures !Clash(c, d)
      {
        var i :| 0 <= i < |cs| && cs[i] == c;
        var j :| 0 <= j < |ds| && ds[j] == d;
        assert !Clash(all[i], all[|cs| + j]);
      }
      forall i, j | 0 <= i < j < |ds|
        ensures !Clash(ds[i], ds[j])
      {
        assert !Clash(all[|cs| + i], all[|cs| + j]);
      }
    }
  }

  // ------------------------------------------------------------ what is recorded twice

  /** The custom action is compared and switches form. */
  ghost predicate SwitchesForm(f: Field, b: Node, t: Node) {
    && f.kind.Nested? && !NoScript(f.kind.section)
    && Traversed(f, Entry(b, f.key), Entry(t, f.key))
    && Switches(f.kind.section.fields[0], Entry(b, f.key), Entry(t, f.key))
  }

  /** Parameter `k` beside the script differs. */
  ghost predicate Differs(f: Field, k: nat, b: Node, t: Node)
    requires f.kind.Nested? && 0 < k < |f.kind.section.fields|
  {
    var key := f.kind.section.fields[k].key;
    ReadParam(key, Entry(b, f.key)).0 != ReadParam(key, Entry(t, f.key)).0
  }

  /** Two custom actions of one section switch form, and a parameter that both have differs in both. */
  ghost predicate Crossed(f: Field, g: Field, b: Node, t: Node) {
    && SwitchesForm(f, b, t) && SwitchesForm(g, b, t)
    && exists k, l :: 0 < k < |f.kind.section.fields| && 0 < l < |g.kind.section.fields|
         && f.kind.section.fields[k].key == g.kind.section.fields[l].key && Differs(f, k, b, t) && Differs(g, l, b, t)
  }

  /** Two equal items of a list are both dropped. */
  ghost predicate DropsTwice(uk: string, bs: seq<Item>, ts: seq<Item>) {
    exists i, k :: 0 <= i < k < |bs| && bs[i].body == bs[k].body && !Kept(bs, ts, uk, i) && !Kept(bs, ts, uk, k)
  }

  /** Somewhere in what is compared, two custom actions are crossed or two equal items dropped. */
  ghost predicate Twice(s: Schema, b: Node, t: Node)
    decreases s, 1
  {
    || (exists i, j :: 0 <= i < j < |s.fields| && Crossed(s.fields[i], s.fields[j], b, t))
    || exists i :: 0 <= i < |s.fields| && FieldTwice(s.fields[i], b, t)
  }

  ghost predicate FieldTwice(f: Field, b: Node, t: Node)
    decreases f, 0
  {
    match f.kind
    case Param => false
    case Nested(s) =>
      Traversed(f, Entry(b, f.key), Entry(t, f.key)) && NoScript(s) && Twice(s, Entry(b, f.key), Entry(t, f.key))
    case Many(uk, s) =>
      var bs, ts := ListOf(b, f.key), ListOf(t, f.key);
      || DropsTwice(uk, bs, ts)
      || exists i :: 0 <= i < |ts| && MatchOf(bs, uk, ts[i]) < |bs|
           && Twice(s, Sec(bs[MatchOf(bs, uk, ts[i])].body), Sec(ts[i].body))
  }

  // ------------------------------------------------------------ two fields of one section

  ghost predicate Sound(f: Field) { GoodField(f) && FieldScriptsLead(f) }

  /** A change of a custom action at the path around it, under the name of a parameter: the action switches form, and the
      parameter differs. */
  lemma LooseChange(f: Field, b: Node, t: Node, path: Path, c: Change) returns (k: nat)
    requires Sound(f) && c in DiffField(f, b, t, path, path) && c.path == path && MovesUp(f, c.key) && !MovesUp(f, f.key)
    ensures SwitchesForm(f, b, t) && 0 < k < |f.kind.section.fields| && f.kind.section.fields[k].key == c.key
    ensures Differs(f, k, b, t)
  {
    var s := f.kind.section;
    var bv, tv := Entry(b, f.key), Entry(t, f.key);
    assert c.key != f.key;
    NestedDiff(f, s, b, t, path);
    ScriptDiff(s, bv, tv, path, f.key);
    var fin := if Switches(s.fields[0], bv, tv) then path else path + [f.key];
    var rest := s.fields[1..];
    assert forall i :: 0 <= i < |rest| ==> rest[i] == s.fields[i + 1];
    hide Diff, DiffField, DiffNested, DiffParam, DiffFields, MovesUp;
    KeyOfScript(s.fields[0], bv, tv, path, f.key, fin, c);
    assert c in DiffFields(rest, bv, tv, fin, fin);
    k := ParamChange(rest, bv, tv, fin, c);
    k := k + 1;
  }

  lemma NestedDiff(f: Field, s: Schema, b: Node, t: Node, path: Path)
    requires f.kind == Nested(s)
    ensures DiffField(f, b, t, path, path)
            == if Traversed(f, Entry(b, f.key), Entry(t, f.key)) then Diff(s, Entry(b, f.key), Entry(t, f.key), path + [f.key])
               else DiffField(f, b, t, path, path)
    ensures !Traversed(f, Entry(b, f.key), Entry(t, f.key)) ==>
              forall c :: c in DiffField(f, b, t, path, path) ==> c.key == f.key
  {
    hide Diff;
  }

  /** A change of parameters that do not switch is of one that differs. */
  lemma ParamChange(fs: seq<Field>, b: Node, t: Node, path: Path, c: Change) returns (i: nat)
    requires forall k :: 0 <= k < |fs| ==> fs[k].kind.Param? && fs[k].key != "Script" && !Switches(fs[k], b, t)
    requires c in DiffFields(fs, b, t, path, path)
    ensures i < |fs| && c.path == path && c.key == fs[i].key && ReadParam(c.key, b).0 != ReadParam(c.key, t).0
  {
    FieldsOfDiff(fs, b, t, path, c);
    i :| 0 <= i < |fs| && c in DiffField(fs[i], b, t, path, path);
  }

  /** The other way round: it records the parameter at the path around it. */
  lemma LooseRecorded(f: Field, b: Node, t: Node, path: Path, k: nat) returns (c: Change)
    requires Sound(f) && SwitchesForm(f, b, t) && 0 < k < |f.kind.section.fields| && Differs(f, k, b, t)
    ensures c in DiffField(f, b, t, path, path) && c.path == path && c.key == f.kind.section.fields[k].key && !c.isList
  {
    var s := f.kind.section;
    var bv, tv := Entry(b, f.key), Entry(t, f.key);
    ScriptDiff(s, bv, tv, path, f.key);
    var rest, g := s.fields[1..], s.fields[k];
    assert rest[k - 1] == g && g.key != s.fields[0].key;
    c := Change(path, g.key, ReadParam(g.key, bv).0, ReadParam(g.key, tv).0, g.policy, false);
    assert c in DiffField(rest[k - 1], bv, tv, path, path);
    FieldsOfDiff(rest, bv, tv, path, c);
    assert DiffField(f, b, t, path, path) == DiffNested(f, s, b, t, path, path);
  }

  lemma ApartIffNotCrossed(f: Field, g: Field, b: Node, t: Node, path: Path)
    requires Sound(f) && Sound(g) && f.key != g.key && !Switches(f, b, t) && !Switches(g, b, t)
    requires !MovesUp(f, f.key) && !MovesUp(f, g.key) && !MovesUp(g, f.key) && !MovesUp(g, g.key)
    requires f.key != "Script" && g.key != "Script"
    ensures Apart(DiffField(f, b, t, path, path), DiffField(g, b, t, path, path)) <==> !Crossed(f, g, b, t)
  {
    hide DiffField, Differs, SwitchesForm, Sound;
    if Crossed(f, g, b, t) {
      CrossedClash(f, g, b, t, path);
    } else {
      forall c, d | c in DiffField(f, b, t, path, path) && d in DiffField(g, b, t, path, path)
        ensures !Clash(c, d)
      {
        if Clash(c, d) {
          ClashCrosses(f, g, b, t, path, c, d);
        }
      }
    }
  }

  lemma CrossedClash(f: Field, g: Field, b: Node, t: Node, path: Path)
    requires Sound(f) && Sound(g) && Crossed(f, g, b, t)
    ensures !Apart(DiffField(f, b, t, path, path), DiffField(g, b, t, path, path))
  {
    var k, l :| 0 < k < |f.kind.section.fields| && 0 < l < |g.kind.section.fields|
      && f.kind.section.fields[k].key == g.kind.section.fields[l].key && Differs(f, k, b, t) && Differs(g, l, b, t);
    hide DiffField, Differs, SwitchesForm, Sound;
    var c := LooseRecorded(f, b, t, path, k);
    var d := LooseRecorded(g, b, t, path, l);
    assert Clash(c, d);
  }

  lemma ClashCrosses(f: Field, g: Field, b: Node, t: Node, path: Path, c: Change, d: Change)
    requires Sound(f) && Sound(g) && f.key != g.key && !Switches(f, b, t) && !Switches(g, b, t)
    requires !MovesUp(f, f.key) && !MovesUp(f, g.key) && !MovesUp(g, f.key) && !MovesUp(g, g.key)
    requires f.key != "Script" && g.key != "Script"
    requires c in DiffField(f, b, t, path, path) && d in DiffField(g, b, t, path, path) && Clash(c, d)
    ensures Crossed(f, g, b, t)
  {
    hide DiffField, Differs, SwitchesForm, Sound;
    BothLoose(f, g, b, t, path, c, d);
    var k := LooseChange(f, b, t, path, c);
    var l := LooseChange(g, b, t, path, d);
  }

  lemma BothLoose(f: Field, g: Field, b: Node, t: Node, path: Path, c: Change, d: Change)
    requires Sound(f) && Sound(g) && f.key != g.key && !Switches(f, b, t) && !Switches(g, b, t)
    requires !MovesUp(f, g.key) && !MovesUp(g, f.key) && f.key != "Script" && g.key != "Script"
    requires c in DiffField(f, b, t, path, path) && d in DiffField(g, b, t, path, path)
    requires c.path == d.path && c.key == d.key
    ensures c.path == path && MovesUp(f, c.key) && MovesUp(g, d.key)
  {
    FieldOwns(f, b, t, path, c);
    FieldOwns(g, b, t, path, d);
    hide DiffField, FieldScriptsLead, MovesUp, GoodField, Switches;
    assert Below(f, path, d) <==> Below(f, path, c);
    if Below(f, path, c) && Below(g, path, c) {
      BelowUnique(f, g, path, c);
    }
  }

  // ------------------------------------------------------------ the theorem

  /** For every base and every target whose lists repeat no name: a parameter or section is recorded at most once at one
      path and key, and no change twice, if and only if no two custom actions are crossed and no two equal items dropped. */
  lemma {:induction false} AddressesDistinctIff(s: Schema, b: Node, t: Node, path: Path)
    requires GoodKeys(s) && ScriptsLead(s) && NoScript(s) && Accepted(s, t)
    ensures Distinct(Diff(s, b, t, path)) <==> !Twice(s, b, t)
    decreases s, 1
  {
    PathStays(s.fields, b, t, path);
    PlainSection(s, b, t);
    hide PlainFields, DiffFields, Distinct, Crossed, FieldTwice;
    FieldsDistinct(s.fields, b, t, path);
  }

  lemma PlainSection(s: Schema, b: Node, t: Node)
    requires GoodKeys(s) && ScriptsLead(s) && NoScript(s) && Accepted(s, t)
    ensures PlainFields(s.fields, b, t)
  {
    hide GoodField, FieldScriptsLead, MovesUp, Accepted;
    forall i | 0 <= i < |s.fields|
      ensures PlainField(s.fields, s.fields[i], b, t)
    {
      AcceptedField(s, t, i);
    }
  }

  ghost predicate ListAccepted(f: Field, t: Node) { FieldTyped(f, t) && FieldUniqueNames(f, t) && FieldNamed(f, t) }

  ghost predicate PlainFields(fs: seq<Field>, b: Node, t: Node) {
    && (forall i, j :: 0 <= i < j < |fs| ==> fs[i].key != fs[j].key)
    && forall i :: 0 <= i < |fs| ==> PlainField(fs, fs[i], b, t)
  }

  ghost predicate PlainField(fs: seq<Field>, f: Field, b: Node, t: Node) {
    Sound(f) && KeysApart(fs, f) && ListAccepted(f, t) && f.key != "Script" && !Switches(f, b, t)
  }

  lemma PlainTail(fs: seq<Field>, b: Node, t: Node)
    requires fs != [] && PlainFields(fs, b, t)
    ensures PlainFields(fs[1..], b, t)
  {
    hide Sound, ListAccepted, Switches, MovesUp;
    assert forall i :: 0 <= i < |fs[1..]| ==> fs[1..][i] == fs[i + 1];
    assert forall i :: 0 <= i < |fs| ==> PlainField(fs, fs[i], b, t);
  }

  lemma {:induction false} FieldsDistinct(fs: seq<Field>, b: Node, t: Node, path: Path)
    requires PlainFields(fs, b, t)
    ensures Distinct(DiffFields(fs, b, t, path, path)) <==>
            && (forall i, j :: 0 <= i < j < |fs| ==> !Crossed(fs[i], fs[j], b, t))
            && (forall i :: 0 <= i < |fs| ==> !FieldTwice(fs[i], b, t))
    decreases fs, 0
  {
    hide DiffField, Crossed, FieldTwice, Distinct, Apart, Sound, ListAccepted, Switches, MovesUp;
    if fs == [] {
      NoChanges();
    } else {
      var f, rest := fs[0], fs[1..];
      var cs, ds := DiffField(f, b, t, path, path), DiffFields(rest, b, t, path, path);
      assert PlainField(fs, f, b, t);
      PlainTail(fs, b, t);
      FieldDistinct(f, b, t, path);
      FieldsDistinct(rest, b, t, path);
      ApartFromRest(fs, b, t, path);
      DistinctAppend(cs, ds);
      assert forall i :: 0 <= i < |rest| ==> rest[i] == fs[i + 1];
      assert forall i :: 0 < i < |fs| ==> fs[i] == rest[i - 1];
      assert Step(f, b, t, path) == path && DiffFields(fs, b, t, path, path) == cs + ds;
    }
  }

  lemma NoChanges()
    ensures Distinct([])
  {
  }

  lemma ApartFromRest(fs: seq<Field>, b: Node, t: Node, path: Path)
    requires fs != [] && PlainFields(fs, b, t)
    ensures Apart(DiffField(fs[0], b, t, path, path), DiffFields(fs[1..], b, t, path, path))
            <==> forall j :: 0 < j < |fs| ==> !Crossed(fs[0], fs[j], b, t)
  {
    hide DiffField, Crossed, Clash, Sound, ListAccepted, Switches, MovesUp;
    var f, rest := fs[0], fs[1..];
    var cs, ds := DiffField(f, b, t, path, path), DiffFields(rest, b, t, path, path);
    PlainTail(fs, b, t);
    assert PlainField(fs, f, b, t);
    forall j | 0 < j < |fs|
      ensures Apart(cs, DiffField(fs[j], b, t, path, path)) <==> !Crossed(f, fs[j], b, t)
    {
      assert PlainField(fs, fs[j], b, t);
      ApartIffNotCrossed(f, fs[j], b, t, path);
    }
    forall d
      ensures d in ds <==> exists j :: 0 < j < |fs| && d in DiffField(fs[j], b, t, path, path)
    {
      assert forall i :: 0 <= i < |rest| ==> rest[i] == fs[i + 1] && PlainField(rest, rest[i], b, t);
      FieldsOfDiff(rest, b, t, path, d);
      assert forall i :: 0 < i < |fs| ==> fs[i] == rest[i - 1];
    }
  }

  lemma {:induction false} FieldDistinct(f: Field, b: Node, t: Node, path: Path)
    requires Sound(f) && ListAccepted(f, t) && !MovesUp(f, f.key) && !Switches(f, b, t)
    ensures Distinct(DiffField(f, b, t, path, path)) <==> !FieldTwice(f, b, t)
    decreases f, 2
  {
    match f.kind
    case Param =>
    case Nested(s) =>
      if Traversed(f, Entry(b, f.key), Entry(t, f.key)) {
        if NoScript(s) {
          AddressesDistinctIff(s, Entry(b, f.key), Entry(t, f.key), path + [f.key]);
        } else {
          ScriptDistinct(f, s, Entry(b, f.key), Entry(t, f.key), path);
        }
      }
    case Many(uk, s) =>
      ListDistinct(f, uk, s, b, t, path);
  }

  /** One custom action records nothing twice. */
  lemma ScriptDistinct(f: Field, s: Schema, b: Node, t: Node, path: Path)
    requires f.kind == Nested(s) && Sound(f) && !NoScript(s) && !MovesUp(f, f.key)
    ensures Distinct(Diff(s, b, t, path + [f.key]))
  {
    assert GoodKeys(s) && ScriptsLead(s);
    hide GoodField, DiffFields, DiffParam, Clash;
    ScriptDiff(s, b, t, path, f.key);
    var fin := if Switches(s.fields[0], b, t) then path else path + [f.key];
    var rest := s.fields[1..];
    assert forall i :: 0 <= i < |rest| ==> rest[i] == s.fields[i + 1];
    var cs, ds := DiffParam(s.fields[0], b, t, path + [f.key], fin), DiffFields(rest, b, t, fin, fin);
    ParamsDistinct(rest, b, t, fin);
    OneParam(s.fields[0], b, t, path, f.key, fin);
    forall c, d | c in cs && d in ds
      ensures !Clash(c, d)
    {
      ParamPaths(rest, b, t, fin, d);
      KeyOfScript(s.fields[0], b, t, path, f.key, fin, c);
      SequenceIsNoKey(s);
      var i :| 0 <= i < |rest| && rest[i].key == d.key;
      assert s.fields[i + 1].key == d.key && s.fields[0].key != s.fields[i + 1].key;
      NotSameKey(c, d);
    }
    DistinctAppend(cs, ds);
  }

  lemma NotSameKey(c: Change, d: Change)
    requires c.key != d.key
    ensures !Clash(c, d)
  {
  }

  lemma SequenceIsNoKey(s: Schema)
    requires GoodKeys(s)
    ensures forall i :: 0 <= i < |s.fields| ==> s.fields[i].key != "Sequence"
  {
    forall i | 0 <= i < |s.fields|
      ensures s.fields[i].key != "Sequence"
    {
      assert GoodField(s.fields[i]);
    }
  }

  lemma OneParam(f: Field, b: Node, t: Node, path: Path, key: string, fin: Path)
    ensures Distinct(DiffParam(f, b, t, path + [key], fin))
  {
  }

  lemma KeyOfScript(f: Field, b: Node, t: Node, path: Path, key: string, fin: Path, c: Change)
    requires f.kind.Param? && f.key == "Script"
    ensures c in DiffParam(f, b, t, path + [key], fin) ==>
            c.path == fin &&
            if Switches(f, b, t) then c.key == key else c.key == "Script" || c.key == "Sequence"
  {
  }

  lemma {:induction false} ParamsDistinct(fs: seq<Field>, b: Node, t: Node, path: Path)
    requires forall i, j :: 0 <= i < j < |fs| ==> fs[i].key != fs[j].key
    requires forall i :: 0 <= i < |fs| ==> fs[i].kind.Param? && fs[i].key != "Script" && !Switches(fs[i], b, t)
    ensures Distinct(DiffFields(fs, b, t, path, path))
    decreases |fs|
  {
    if fs != [] {
      var cs, ds := DiffField(fs[0], b, t, path, path), DiffFields(fs[1..], b, t, path, path);
      ParamsDistinct(fs[1..], b, t, path);
      assert forall i :: 0 <= i < |fs[1..]| ==> fs[1..][i] == fs[i + 1];
      forall c, d | c in cs && d in ds
        ensures !Clash(c, d)
      {
        ParamPaths(fs[1..], b, t, path, d);
        assert c.key == fs[0].key;
      }
      DistinctAppend(cs, ds);
    }
  }

  // ------------------------------------------------------------ lists

  lemma {:induction false} ListDistinct(f: Field, uk: string, s: Schema, b: Node, t: Node, path: Path)
    requires Listed(f, uk, s, t)
    ensures Distinct(DiffField(f, b, t, path, path)) <==> !FieldTwice(f, b, t)
    decreases f, 1
  {
    var bs, ts := ListOf(b, f.key), ListOf(t, f.key);
    var cs, ds := DiffItems(f, uk, s, bs, ts, path, path), DiffRemoved(f, uk, bs, ts, 0, path);
    assert DiffField(f, b, t, path, path) == cs + ds;
    hide Listed, DiffItem, DiffItems, DiffRemoved, Kept, Distinct, Twice, DropsTwice;
    ItemsDistinct(f, uk, s, bs, t, path, 0);
    assert ts[0..] == ts;
    RemovedDistinct(f, uk, bs, ts, 0, path);
    DropsTwiceFrom(uk, bs, ts);
    forall c, d | c in cs && d in ds
      ensures !Clash(c, d)
    {
      InItems(f, uk, s, bs, ts, path, path, c);
      InRemoved(f, uk, bs, ts, 0, path, d);
      var i :| 0 <= i < |ts| && c in DiffItem(f, uk, s, bs, ts[i], path, path);
      ItemChange(f, uk, s, bs, t, path, i, c);
    }
    DistinctAppend(cs, ds);
  }

  lemma ItemChangesApart(f: Field, uk: string, s: Schema, bs: seq<Item>, t: Node, path: Path, i: nat, k: nat, c: Change,
                         d: Change)
    requires Listed(f, uk, s, t) && i < k < |ListOf(t, f.key)|
    requires c in DiffItem(f, uk, s, bs, ListOf(t, f.key)[i], path, path)
    requires d in DiffItem(f, uk, s, bs, ListOf(t, f.key)[k], path, path)
    ensures !Clash(c, d)
  {
    var ts := ListOf(t, f.key);
    ItemChange(f, uk, s, bs, t, path, i, c);
    ItemChange(f, uk, s, bs, t, path, k, d);
    assert Get(ts[i].body, uk) != Get(ts[k].body, uk);
    hide DiffItem, Listed, MatchOf;
    if ItemsPath(f, uk, ts[i], path) <= c.path && ItemsPath(f, uk, ts[k], path) <= d.path && c.path == d.path {
      OtherItem(f, uk, s, t, path, i, k, c);
    }
  }

  lemma {:induction false} ItemsDistinct(f: Field, uk: string, s: Schema, bs: seq<Item>, t: Node, path: Path, n: nat)
    requires Listed(f, uk, s, t) && n <= |ListOf(t, f.key)|
    ensures var ts := ListOf(t, f.key);
            Distinct(DiffItems(f, uk, s, bs, ts[n..], path, path)) <==>
            forall i :: n <= i < |ts| && MatchOf(bs, uk, ts[i]) < |bs| ==>
              !Twice(s, Sec(bs[MatchOf(bs, uk, ts[i])].body), Sec(ts[i].body))
    decreases f, 0, 1, |ListOf(t, f.key)| - n
  {
    var ts := ListOf(t, f.key);
    assert f.kind == Many(uk, s);
    hide Listed, DiffItem, Clash, Distinct, Twice, MatchOf;
    if n == |ts| {
      NoChanges();
    } else {
      assert ts[n..][0] == ts[n] && ts[n..][1..] == ts[n + 1..];
      var cs, ds := DiffItem(f, uk, s, bs, ts[n], path, path), DiffItems(f, uk, s, bs, ts[n + 1..], path, path);
      ItemsDistinct(f, uk, s, bs, t, path, n + 1);
      ItemDistinct(f, uk, s, bs, t, path, n);
      forall c, d | c in cs && d in ds
        ensures !Clash(c, d)
      {
        InItems(f, uk, s, bs, ts[n + 1..], path, path, d);
        var k :| 0 <= k < |ts[n + 1..]| && d in DiffItem(f, uk, s, bs, ts[n + 1..][k], path, path);
        ItemChangesApart(f, uk, s, bs, t, path, n, n + 1 + k, c, d);
      }
      DistinctAppend(cs, ds);
    }
  }

  lemma {:induction false} ItemDistinct(f: Field, uk: string, s: Schema, bs: seq<Item>, t: Node, path: Path, i: nat)
    requires Listed(f, uk, s, t) && i < |ListOf(t, f.key)|
    ensures var ti := ListOf(t, f.key)[i];
            var j := MatchOf(bs, uk, ti);
            Distinct(DiffItem(f, uk, s, bs, ti, path, path)) <==> (j < |bs| ==> !Twice(s, Sec(bs[j].body), Sec(ti.body)))
    decreases f, 0, 0, 0
  {
    var ti := ListOf(t, f.key)[i];
    var j := MatchOf(bs, uk, ti);
    if j < |bs| {
      AddressesDistinctIff(s, Sec(bs[j].body), Sec(ti.body), path + [Segment(f.key, Get(ti.body, uk))]);
    }
  }

  ghost predicate DropsTwiceAfter(uk: string, bs: seq<Item>, ts: seq<Item>, j: nat) {
    exists i, k :: j <= i < k < |bs| && bs[i].body == bs[k].body && !Kept(bs, ts, uk, i) && !Kept(bs, ts, uk, k)
  }

  lemma DropsTwiceFrom(uk: string, bs: seq<Item>, ts: seq<Item>)
    ensures DropsTwice(uk, bs, ts) <==> DropsTwiceAfter(uk, bs, ts, 0)
  {
  }

  lemma {:induction false} RemovedDistinct(f: Field, uk: string, bs: seq<Item>, ts: seq<Item>, j: nat, path: Path)
    requires j <= |bs|
    ensures Distinct(DiffRemoved(f, uk, bs, ts, j, path)) <==> !DropsTwiceAfter(uk, bs, ts, j)
    decreases |bs| - j
  {
    hide Kept, Distinct, Clash;
    if j == |bs| {
      NoChanges();
    } else {
      RemovedDistinct(f, uk, bs, ts, j + 1, path);
      var cs := if Kept(bs, ts, uk, j) then [] else [RemovedItem(path, f, bs[j])];
      var ds := DiffRemoved(f, uk, bs, ts, j + 1, path);
      FirstDropped(f, uk, bs, ts, j, path, cs, ds);
      OneChange(cs);
      DistinctAppend(cs, ds);
    }
  }

  lemma OneChange(cs: seq<Change>)
    requires |cs| <= 1
    ensures Distinct(cs)
  {
  }

  lemma FirstDropped(f: Field, uk: string, bs: seq<Item>, ts: seq<Item>, j: nat, path: Path, cs: seq<Change>,
                     ds: seq<Change>)
    requires j < |bs| && cs == if Kept(bs, ts, uk, j) then [] else [RemovedItem(path, f, bs[j])]
    requires ds == DiffRemoved(f, uk, bs, ts, j + 1, path)
    ensures Apart(cs, ds) <==>
            !(!Kept(bs, ts, uk, j)
              && exists k :: j + 1 <= k < |bs| && bs[j].body == bs[k].body && !Kept(bs, ts, uk, k))
  {
    hide Kept, DiffRemoved;
    forall d
      ensures d in ds <==> exists k :: j + 1 <= k < |bs| && !Kept(bs, ts, uk, k) && d == RemovedItem(path, f, bs[k])
    {
      InRemoved(f, uk, bs, ts, j + 1, path, d);
    }
    if !Kept(bs, ts, uk, j) {
      var c := RemovedItem(path, f, bs[j]);
      assert c in cs;
      if k :| j + 1 <= k < |bs| && bs[j].body == bs[k].body && !Kept(bs, ts, uk, k) {
        assert RemovedItem(path, f, bs[k]) in ds && Clash(c, RemovedItem(path, f, bs[k]));
      }
    }
  }

  /** The update-key value of the item that a list change adds or removes. */
  function ItemName(c: Change, updateKey: string): Node {
    Entry(if c.newValue == NONE then c.oldValue else c.newValue, updateKey)
  }

  /** A change recorded at the list itself adds a target item that no base item matches, or removes a base item that no
      target item matches. */
  lemma ListChange(f: Field, uk: string, s: Schema, b: Node, t: Node, path: Path, c: Change)
    requires Listed(f, uk, s, t) && c in DiffField(f, b, t, path, path) && c.path == path
    ensures var (bs, ts) := (ListOf(b, f.key), ListOf(t, f.key));
            || (exists i :: 0 <= i < |ts| && c == Added(path, f, ts[i]) && MatchOf(bs, uk, ts[i]) == |bs|)
            || (exists k :: 0 <= k < |bs| && c == RemovedItem(path, f, bs[k]) && !Kept(bs, ts, uk, k))
  {
    var bs, ts := ListOf(b, f.key), ListOf(t, f.key);
    assert c in DiffItems(f, uk, s, bs, ts, path, path) + DiffRemoved(f, uk, bs, ts, 0, path);
    hide DiffItems, DiffRemoved, DiffField, Listed, DiffItem;
    InItems(f, uk, s, bs, ts, path, path, c);
    InRemoved(f, uk, bs, ts, 0, path, c);
    if i :| 0 <= i < |ts| && c in DiffItem(f, uk, s, bs, ts[i], path, path) {
      ItemChange(f, uk, s, bs, t, path, i, c);
    }
  }

  /** On a base that repeats no name either, two different changes of one list are about items with different names. */
  lemma ListItemsApart(f: Field, uk: string, s: Schema, b: Node, t: Node, path: Path, c: Change, d: Change)
    requires Listed(f, uk, s, t) && FieldUniqueNames(f, b) && FieldNamed(f, b)
    requires c in DiffField(f, b, t, path, path) && d in DiffField(f, b, t, path, path)
    requires c.path == path && d.path == path && c != d
    ensures ItemName(c, uk) != ItemName(d, uk)
  {
    hide DiffField;
    var bs, ts := ListOf(b, f.key), ListOf(t, f.key);
    ListChange(f, uk, s, b, t, path, c);
    ListChange(f, uk, s, b, t, path, d);
    forall i, k | 0 <= i < |ts| && 0 <= k < |bs| && MatchOf(bs, uk, ts[i]) == |bs|
      ensures Get(ts[i].body, uk) != Get(bs[k].body, uk)
    {
      assert IsText(Get(bs[k].body, uk)) && uk in bs[k].body;
    }
  }
}

/** When two configurations mean the same, and which configurations the results on changes are about. */
module Meaning {
  import opened Values
  import opened Schema
  import opened ConfigDiff
  import opened DiffShape
  import opened Raising

  /** Two configurations mean the same under the schema: equal parameters, the same sections present unless the
      presence is ignored, and the same list items up to their order. */
  ghost predicate Same(s: Schema, x: Node, t: Node)
    decreases s, 1
  {
    forall i :: 0 <= i < |s.fields| ==> FieldSame(s.fields[i], x, t)
  }

  ghost predicate FieldSame(f: Field, x: Node, t: Node)
    decreases f, 0
  {
    match f.kind
    case Param => ReadParam(f.key, x) == ReadParam(f.key, t)
    case Nested(s) =>
      && (f.policy != Ignored ==> (Truthy(Entry(x, f.key)) <==> Truthy(Entry(t, f.key))))
      && Same(s, Entry(x, f.key), Entry(t, f.key))
    case Many(uk, s) =>
      var xs, ts := ListOf(x, f.key), ListOf(t, f.key);
      && (forall i :: 0 <= i < |ts| ==>
            var j := FirstMatch(xs, uk, Get(ts[i].body, uk));
            j < |xs| && Same(s, Sec(xs[j].body), Sec(ts[i].body)))
      && (forall j :: 0 <= j < |xs| ==>
            var i := FirstMatch(ts, uk, Get(xs[j].body, uk));
            i < |ts| && Same(s, Sec(xs[j].body), Sec(ts[i].body)))
  }

  /** Every list item has a text as its update-key value. */
  ghost predicate Named(s: Schema, n: Node)
    decreases s, 1
  {
    forall i :: 0 <= i < |s.fields| ==> FieldNamed(s.fields[i], n)
  }

  ghost predicate FieldNamed(f: Field, n: Node)
    decreases f, 0
  {
    match f.kind
    case Param => true
    case Nested(s) => Named(s, Entry(n, f.key))
    case Many(uk, s) =>
      forall j :: 0 <= j < |ListOf(n, f.key)| ==>
        && IsText(Get(ListOf(n, f.key)[j].body, uk))
        && Named(s, Sec(ListOf(n, f.key)[j].body))
  }

  predicate IsText(n: Node) { n.Leaf? && n.v.Str? }

  /** Sections and lists are what the schema expects, and every item of every list has a name of its own, in text. The
      schema does not ask for the latter: two `S3Access` entries may name one bucket. */
  ghost predicate Accepted(s: Schema, n: Node) {
    Typed(s, n) && UniqueNames(s, n) && Named(s, n)
  }

  lemma AcceptedField(s: Schema, n: Node, i: nat)
    requires Accepted(s, n) && i < |s.fields|
    ensures FieldTyped(s.fields[i], n) && FieldUniqueNames(s.fields[i], n) && FieldNamed(s.fields[i], n)
  {
  }

  lemma {:induction false} SameRefl(s: Schema, t: Node)
    requires UniqueNames(s, t)
    ensures Same(s, t, t)
    decreases s
  {
    forall i | 0 <= i < |s.fields|
      ensures FieldSame(s.fields[i], t, t)
    {
      var f := s.fields[i];
      assert FieldUniqueNames(f, t);
      match f.kind
      case Param =>
      case Nested(s') => SameRefl(s', Entry(t, f.key));
      case Many(uk, s') =>
        var ts := ListOf(t, f.key);
        forall j | 0 <= j < |ts|
          ensures FirstMatch(ts, uk, Get(ts[j].body, uk)) == j
          ensures Same(s', Sec(ts[j].body), Sec(ts[j].body))
        {
          SameRefl(s', Sec(ts[j].body));
        }
    }
  }

  /** Two absent sections mean the same and differ in nothing. */
  lemma {:induction false} BothAbsent(s: Schema, x: Node, t: Node, path: Path)
    requires !Truthy(x) && !Truthy(t)
    ensures Same(s, x, t)
    ensures Diff(s, x, t, path) == []
    decreases s
  {
    forall i | 0 <= i < |s.fields|
      ensures FieldSame(s.fields[i], x, t) && !Switches(s.fields[i], x, t)
      ensures DiffField(s.fields[i], x, t, path, path) == []
    {
      var f := s.fields[i];
      assert Entry(x, f.key) == NONE && Entry(t, f.key) == NONE;
      match f.kind
      case Param =>
      case Nested(s') => BothAbsent(s', NONE, NONE, path + [f.key]);
      case Many(uk, s') =>
    }
    if Diff(s, x, t, path) != [] {
      FieldsOfDiff(s.fields, x, t, path, Diff(s, x, t, path)[0]);
      assert false;
    }
  }

  /** Two configurations that mean the same as a third mean the same. */
  lemma {:induction false} SameJoin(s: Schema, x: Node, t: Node, u: Node)
    requires Same(s, x, t) && Same(s, x, u)
    ensures Same(s, t, u)
    decreases s, 0
  {
    forall i | 0 <= i < |s.fields|
      ensures FieldSame(s.fields[i], t, u)
    {
      var f := s.fields[i];
      assert FieldSame(f, x, t) && FieldSame(f, x, u);
      match f.kind
      case Param =>
      case Nested(s') => SameJoin(s', Entry(x, f.key), Entry(t, f.key), Entry(u, f.key));
      case Many(uk, s') => ListsJoin(f, uk, s', x, t, u);
    }
  }

  /** The list item is compared with the first of its name on the other side, which means the same. */
  ghost predicate Matched(uk: string, s: Schema, xs: seq<Item>, t: Item) {
    var j := FirstMatch(xs, uk, Get(t.body, uk));
    j < |xs| && Same(s, Sec(xs[j].body), Sec(t.body))
  }

  ghost predicate MatchedBack(uk: string, s: Schema, x: Item, ts: seq<Item>) {
    var i := FirstMatch(ts, uk, Get(x.body, uk));
    i < |ts| && Same(s, Sec(x.body), Sec(ts[i].body))
  }

  lemma ListSame(f: Field, uk: string, s: Schema, x: Node, t: Node)
    requires f.kind == Many(uk, s)
    ensures FieldSame(f, x, t) <==>
            && (forall i :: 0 <= i < |ListOf(t, f.key)| ==> Matched(uk, s, ListOf(x, f.key), ListOf(t, f.key)[i]))
            && (forall j :: 0 <= j < |ListOf(x, f.key)| ==> MatchedBack(uk, s, ListOf(x, f.key)[j], ListOf(t, f.key)))
  {
    hide Same, FirstMatch;
  }

  lemma {:induction false} ListsJoin(f: Field, uk: string, s: Schema, x: Node, t: Node, u: Node)
    requires f.kind == Many(uk, s) && FieldSame(f, x, t) && FieldSame(f, x, u)
    ensures FieldSame(f, t, u)
    decreases s, 2
  {
    hide Matched, MatchedBack, FieldSame;
    var xs, ts, us := ListOf(x, f.key), ListOf(t, f.key), ListOf(u, f.key);
    ListSame(f, uk, s, x, t);
    ListSame(f, uk, s, x, u);
    forall i | 0 <= i < |us|
      ensures Matched(uk, s, ts, us[i])
    {
      var j := MatchIndex(uk, s, xs, us[i]);
      ItemJoin(uk, s, xs[j], ts, us[i]);
    }
    forall k | 0 <= k < |ts|
      ensures MatchedBack(uk, s, ts[k], us)
    {
      var j := MatchIndex(uk, s, xs, ts[k]);
      ItemJoinBack(uk, s, xs[j], ts[k], us);
    }
    ListSame(f, uk, s, t, u);
  }

  lemma MatchIndex(uk: string, s: Schema, xs: seq<Item>, t: Item) returns (j: nat)
    requires Matched(uk, s, xs, t)
    ensures j < |xs| && Get(xs[j].body, uk) == Get(t.body, uk) && Same(s, Sec(xs[j].body), Sec(t.body))
  {
    j := FirstMatch(xs, uk, Get(t.body, uk));
  }

  lemma {:induction false} ItemJoin(uk: string, s: Schema, x: Item, ts: seq<Item>, u: Item)
    requires MatchedBack(uk, s, x, ts) && Get(x.body, uk) == Get(u.body, uk) && Same(s, Sec(x.body), Sec(u.body))
    ensures Matched(uk, s, ts, u)
    decreases s, 1, 0
  {
    var k := FirstMatch(ts, uk, Get(x.body, uk));
    SameJoin(s, Sec(x.body), Sec(ts[k].body), Sec(u.body));
  }

  lemma {:induction false} ItemJoinBack(uk: string, s: Schema, x: Item, t: Item, us: seq<Item>)
    requires MatchedBack(uk, s, x, us) && Get(x.body, uk) == Get(t.body, uk) && Same(s, Sec(x.body), Sec(t.body))
    ensures MatchedBack(uk, s, t, us)
    decreases s, 1, 0
  {
    var i := FirstMatch(us, uk, Get(x.body, uk));
    SameJoin(s, Sec(x.body), Sec(t.body), Sec(us[i].body));
  }

  // ------------------------------------------------------------ lists that mean the same

  ghost predicate SameItem(uk: string, s: Schema, x: Item, t: Item) {
    Get(x.body, uk) == Get(t.body, uk) && Same(s, Sec(x.body), Sec(t.body))
  }

  ghost predicate Counterpart(uk: string, s: Schema, xs: seq<Item>, t: Item) {
    exists x :: x in xs && SameItem(uk, s, x, t)
  }

  ghost predicate Origin(uk: string, s: Schema, x: Item, ts: seq<Item>) {
    exists i :: 0 <= i < |ts| && SameItem(uk, s, x, ts[i])
  }

  lemma CounterpartMatches(uk: string, s: Schema, xs: seq<Item>, ts: seq<Item>, i: nat)
    requires i < |ts| && UniqueItemNames(ts, uk)
    requires Counterpart(uk, s, xs, ts[i]) && forall x :: x in xs ==> Origin(uk, s, x, ts)
    ensures var j := FirstMatch(xs, uk, Get(ts[i].body, uk)); j < |xs| && SameItem(uk, s, xs[j], ts[i])
  {
    hide Same;
    var x :| x in xs && SameItem(uk, s, x, ts[i]);
    var j := FirstMatch(xs, uk, Get(ts[i].body, uk));
    assert Get(x.body, uk) == Get(ts[i].body, uk);
    assert j < |xs| && xs[j] in xs;
    assert Origin(uk, s, xs[j], ts);
    var k :| 0 <= k < |ts| && SameItem(uk, s, xs[j], ts[k]);
    assert k == i;
  }

  lemma OriginMatches(uk: string, s: Schema, x: Item, ts: seq<Item>)
    requires UniqueItemNames(ts, uk) && Origin(uk, s, x, ts)
    ensures var i := FirstMatch(ts, uk, Get(x.body, uk)); i < |ts| && SameItem(uk, s, x, ts[i])
  {
    hide Same;
    var i :| 0 <= i < |ts| && SameItem(uk, s, x, ts[i]);
    assert FirstMatch(ts, uk, Get(x.body, uk)) == i;
  }

  /** Every item having a counterpart on the other side is what `Same` asks of a list. */
  lemma SameLists(f: Field, uk: string, s: Schema, x: Node, t: Node)
    requires f.kind == Many(uk, s)
    requires UniqueItemNames(ListOf(t, f.key), uk)
    requires var xs, ts := ListOf(x, f.key), ListOf(t, f.key);
             && (forall i :: 0 <= i < |ts| ==> Counterpart(uk, s, xs, ts[i]))
             && (forall y :: y in xs ==> Origin(uk, s, y, ts))
    ensures FieldSame(f, x, t)
  {
    hide Same, Counterpart, Origin;
    var xs, ts := ListOf(x, f.key), ListOf(t, f.key);
    forall j | 0 <= j < |xs|
      ensures var i := FirstMatch(ts, uk, Get(xs[j].body, uk)); i < |ts| && SameItem(uk, s, xs[j], ts[i])
    {
      assert xs[j] in xs;
      OriginMatches(uk, s, xs[j], ts);
    }
    forall i | 0 <= i < |ts|
      ensures var j := FirstMatch(xs, uk, Get(ts[i].body, uk)); j < |xs| && SameItem(uk, s, xs[j], ts[i])
    {
      CounterpartMatches(uk, s, xs, ts, i);
    }
  }
}

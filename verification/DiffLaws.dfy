/** Laws of the recorded difference: when it is empty, what the opposite comparison records, and that no two changes
    have the same address. */
module DiffLaws {
  import opened Values
  import opened Schema
  import opened ConfigDiff
  import opened Raising
  import opened Meaning
  import opened Sums

  // ------------------------------------------------------------ empty exactly when nothing differs

  /** Nowhere in the lists that the schema reads do two items have one update-key value, and none is empty. */
  ghost predicate NamesApart(s: Schema, b: Node)
    decreases s, 1
  {
    forall i :: 0 <= i < |s.fields| ==> FieldNamesApart(s.fields[i], b)
  }

  ghost predicate FieldNamesApart(f: Field, b: Node)
    decreases f, 0
  {
    match f.kind
    case Param => true
    case Nested(s) => NamesApart(s, Entry(b, f.key))
    case Many(uk, s) =>
      var bs := ListOf(b, f.key);
      && UniqueItemNames(bs, uk)
      && forall j :: 0 <= j < |bs| ==> bs[j].body != map[] && NamesApart(s, Sec(bs[j].body))
  }

  /** For all configurations: nothing is recorded if and only if they mean the same and the base gives no two items of a
      list one name. */
  lemma {:induction false} EmptyIffSame(s: Schema, b: Node, t: Node, path: Path)
    ensures Diff(s, b, t, path) == [] <==> Same(s, b, t) && NamesApart(s, b)
    decreases s, 1
  {
    EmptyFieldsIffSame(s.fields, b, t, path, FinalPath(s.fields, b, t, path));
  }

  /** An unchanged configuration records nothing if and only if it gives no two items of a list one name. */
  lemma {:induction false} UnchangedIffNamesApart(s: Schema, b: Node, path: Path)
    ensures Diff(s, b, b, path) == [] <==> NamesApart(s, b)
  {
    EmptyIffSame(s, b, b, path);
    if NamesApart(s, b) {
      ApartUnique(s, b);
      SameRefl(s, b);
    }
  }

  lemma {:induction false} ApartUnique(s: Schema, b: Node)
    requires NamesApart(s, b)
    ensures UniqueNames(s, b)
    decreases s
  {
    forall i | 0 <= i < |s.fields|
      ensures FieldUniqueNames(s.fields[i], b)
    {
      var f := s.fields[i];
      assert FieldNamesApart(f, b);
      match f.kind
      case Param =>
      case Nested(s') => ApartUnique(s', Entry(b, f.key));
      case Many(uk, s') =>
        forall j | 0 <= j < |ListOf(b, f.key)|
          ensures UniqueNames(s', Sec(ListOf(b, f.key)[j].body))
        {
          ApartUnique(s', Sec(ListOf(b, f.key)[j].body));
        }
    }
  }

  /** Different names that are text are apart. */
  lemma {:induction false} UniqueApart(s: Schema, b: Node)
    requires UniqueNames(s, b) && Named(s, b)
    ensures NamesApart(s, b)
    decreases s
  {
    forall i | 0 <= i < |s.fields|
      ensures FieldNamesApart(s.fields[i], b)
    {
      var f := s.fields[i];
      assert FieldUniqueNames(f, b) && FieldNamed(f, b);
      match f.kind
      case Param =>
      case Nested(s') => UniqueApart(s', Entry(b, f.key));
      case Many(uk, s') =>
        forall j | 0 <= j < |ListOf(b, f.key)|
          ensures ListOf(b, f.key)[j].body != map[] && NamesApart(s', Sec(ListOf(b, f.key)[j].body))
        {
          assert uk in ListOf(b, f.key)[j].body;
          UniqueApart(s', Sec(ListOf(b, f.key)[j].body));
        }
    }
  }

  ghost predicate AcceptedAt(f: Field, n: Node) {
    FieldTyped(f, n) && FieldUniqueNames(f, n) && FieldNamed(f, n)
  }

  lemma {:induction false} EmptyFieldsIffSame(fs: seq<Field>, b: Node, t: Node, cur: Path, fin: Path)
    ensures DiffFields(fs, b, t, cur, fin) == [] <==>
            forall i :: 0 <= i < |fs| ==> FieldSame(fs[i], b, t) && FieldNamesApart(fs[i], b)
    decreases fs, 0
  {
    hide DiffField, FieldSame, FieldNamesApart;
    if fs != [] {
      EmptyFieldIffSame(fs[0], b, t, cur, fin);
      EmptyFieldsIffSame(fs[1..], b, t, Step(fs[0], b, t, cur), fin);
      assert forall i :: 0 < i < |fs| ==> fs[i] == fs[1..][i - 1];
      assert forall i :: 0 <= i < |fs[1..]| ==> fs[1..][i] == fs[i + 1];
    }
  }

  lemma {:induction false} EmptyFieldIffSame(f: Field, b: Node, t: Node, cur: Path, fin: Path)
    ensures DiffField(f, b, t, cur, fin) == [] <==> FieldSame(f, b, t) && FieldNamesApart(f, b)
    decreases f, 2
  {
    match f.kind
    case Param =>
    case Nested(s) =>
      var bv, tv := Entry(b, f.key), Entry(t, f.key);
      if !Truthy(bv) && !Truthy(tv) {
        BothAbsent(s, bv, tv, cur);
        AbsentApart(s, bv);
      } else {
        EmptyIffSame(s, bv, tv, cur + [f.key]);
      }
    case Many(uk, s) =>
      EmptyListIffSame(f, uk, s, b, t, cur, fin);
  }

  lemma {:induction false} AbsentApart(s: Schema, b: Node)
    requires !Truthy(b)
    ensures NamesApart(s, b)
    decreases s
  {
    forall i | 0 <= i < |s.fields|
      ensures FieldNamesApart(s.fields[i], b)
    {
      var f := s.fields[i];
      if f.kind.Nested? {
        AbsentApart(f.kind.section, Entry(b, f.key));
      }
    }
  }

  /** Items pair up by name, and each pair means the same. */
  ghost predicate Paired(uk: string, s: Schema, xs: seq<Item>, ts: seq<Item>) {
    && (forall i :: 0 <= i < |ts| ==>
          var j := FirstMatch(xs, uk, Get(ts[i].body, uk));
          j < |xs| && Same(s, Sec(xs[j].body), Sec(ts[i].body)))
    && (forall j :: 0 <= j < |xs| ==>
          var i := FirstMatch(ts, uk, Get(xs[j].body, uk));
          i < |ts| && Same(s, Sec(xs[j].body), Sec(ts[i].body)))
  }

  ghost predicate ItemsApart(uk: string, s: Schema, bs: seq<Item>) {
    UniqueItemNames(bs, uk) && forall j :: 0 <= j < |bs| ==> bs[j].body != map[] && NamesApart(s, Sec(bs[j].body))
  }

  lemma {:induction false} EmptyListIffSame(f: Field, uk: string, s: Schema, b: Node, t: Node, cur: Path, fin: Path)
    requires f.kind == Many(uk, s)
    ensures DiffField(f, b, t, cur, fin) == [] <==> FieldSame(f, b, t) && FieldNamesApart(f, b)
    decreases f, 1
  {
    assert FieldNamesApart(f, b) <==> ItemsApart(uk, s, ListOf(b, f.key));
    hide Same, Diff, DiffItem, DiffItems, DiffRemoved, FieldSame, DiffField, Paired, FieldNamesApart, ItemsApart;
    var bs, ts := ListOf(b, f.key), ListOf(t, f.key);
    ListParts(f, uk, s, b, t, cur, fin);
    EmptyItems(f, uk, s, bs, ts, cur, fin);
    EmptyRemoved(f, uk, bs, ts, 0, fin);
    if DiffField(f, b, t, cur, fin) == [] {
      EmptyListSame(f, uk, s, bs, ts, cur, fin);
    }
    if FieldSame(f, b, t) && FieldNamesApart(f, b) {
      SameListEmpty(f, uk, s, bs, ts, cur, fin);
    }
  }

  lemma ListParts(f: Field, uk: string, s: Schema, b: Node, t: Node, cur: Path, fin: Path)
    requires f.kind == Many(uk, s)
    ensures FieldSame(f, b, t) <==> Paired(uk, s, ListOf(b, f.key), ListOf(t, f.key))
    ensures DiffField(f, b, t, cur, fin) == [] <==>
            && DiffItems(f, uk, s, ListOf(b, f.key), ListOf(t, f.key), cur, fin) == []
            && DiffRemoved(f, uk, ListOf(b, f.key), ListOf(t, f.key), 0, fin) == []
  {
    ListPairs(f, uk, s, b, t);
    var cs := DiffItems(f, uk, s, ListOf(b, f.key), ListOf(t, f.key), cur, fin);
    var ds := DiffRemoved(f, uk, ListOf(b, f.key), ListOf(t, f.key), 0, fin);
    assert DiffField(f, b, t, cur, fin) == cs + ds;
    hide DiffItems, DiffRemoved, DiffField, FieldSame, Paired, ListOf;
    assert |cs + ds| == |cs| + |ds|;
  }

  lemma ListPairs(f: Field, uk: string, s: Schema, b: Node, t: Node)
    requires f.kind == Many(uk, s)
    ensures FieldSame(f, b, t) <==> Paired(uk, s, ListOf(b, f.key), ListOf(t, f.key))
  {
    hide Same, FirstMatch, ListOf;
  }

  /** If no item differs and none is dropped, each base item is the first of its name. */
  lemma KeptApart(uk: string, bs: seq<Item>, ts: seq<Item>)
    requires forall k :: 0 <= k < |bs| ==> Kept(bs, ts, uk, k)
    ensures UniqueItemNames(bs, uk) && forall k :: 0 <= k < |bs| ==> bs[k].body != map[]
  {
    forall k | 0 <= k < |bs|
      ensures FirstMatch(bs, uk, Get(bs[k].body, uk)) == k && bs[k].body != map[]
    {
      assert Kept(bs, ts, uk, k);
      var i :| 0 <= i < |ts| && MatchOf(bs, uk, ts[i]) == k;
    }
  }

  lemma {:induction false} EmptyListSame(f: Field, uk: string, s: Schema, bs: seq<Item>, ts: seq<Item>, cur: Path,
                                         fin: Path)
    requires f.kind == Many(uk, s)
    requires forall i :: 0 <= i < |ts| ==> DiffItem(f, uk, s, bs, ts[i], cur, fin) == []
    requires forall k :: 0 <= k < |bs| ==> Kept(bs, ts, uk, k)
    ensures Paired(uk, s, bs, ts) && ItemsApart(uk, s, bs)
    decreases f, 0, 1
  {
    hide Same, Diff, DiffItem, NamesApart;
    KeptApart(uk, bs, ts);
    forall i | 0 <= i < |ts|
      ensures var j := MatchOf(bs, uk, ts[i]);
              && j < |bs| && FirstMatch(bs, uk, Get(ts[i].body, uk)) == j
              && Same(s, Sec(bs[j].body), Sec(ts[i].body)) && NamesApart(s, Sec(bs[j].body))
    {
      EmptyItemIffSame(f, uk, s, bs, ts[i], cur, fin);
    }
    forall j | 0 <= j < |bs|
      ensures var i := FirstMatch(ts, uk, Get(bs[j].body, uk)); i < |ts| && Same(s, Sec(bs[j].body), Sec(ts[i].body))
      ensures NamesApart(s, Sec(bs[j].body))
    {
      assert Kept(bs, ts, uk, j);
      var i :| 0 <= i < |ts| && MatchOf(bs, uk, ts[i]) == j;
      var m := FirstMatch(ts, uk, Get(bs[j].body, uk));
      assert m <= i && MatchOf(bs, uk, ts[m]) == j;
    }
  }

  lemma {:induction false} SameListEmpty(f: Field, uk: string, s: Schema, bs: seq<Item>, ts: seq<Item>, cur: Path,
                                         fin: Path)
    requires f.kind == Many(uk, s) && Paired(uk, s, bs, ts) && ItemsApart(uk, s, bs)
    ensures forall i :: 0 <= i < |ts| ==> DiffItem(f, uk, s, bs, ts[i], cur, fin) == []
    ensures forall k :: 0 <= k < |bs| ==> Kept(bs, ts, uk, k)
    decreases f, 0, 1
  {
    hide Same, Diff, DiffItem, NamesApart;
    forall i | 0 <= i < |ts|
      ensures DiffItem(f, uk, s, bs, ts[i], cur, fin) == []
    {
      EmptyItemIffSame(f, uk, s, bs, ts[i], cur, fin);
    }
    forall j | 0 <= j < |bs|
      ensures Kept(bs, ts, uk, j)
    {
      var i := FirstMatch(ts, uk, Get(bs[j].body, uk));
      assert FirstMatch(bs, uk, Get(ts[i].body, uk)) == j;
    }
  }

  lemma {:induction false} EmptyItemIffSame(f: Field, uk: string, s: Schema, bs: seq<Item>, t: Item, cur: Path, fin: Path)
    requires f.kind == Many(uk, s)
    ensures var j := MatchOf(bs, uk, t);
            DiffItem(f, uk, s, bs, t, cur, fin) == [] <==>
            j < |bs| && Same(s, Sec(bs[j].body), Sec(t.body)) && NamesApart(s, Sec(bs[j].body))
    decreases f, 0, 0
  {
    var j := MatchOf(bs, uk, t);
    if j < |bs| {
      EmptyIffSame(s, Sec(bs[j].body), Sec(t.body), cur + [Segment(f.key, Get(t.body, uk))]);
    }
  }

  lemma NamesMatch(f: Field, uk: string, s: Schema, b: Node, t: Node, i: nat, j: nat)
    requires f.kind == Many(uk, s) && AcceptedAt(f, b) && AcceptedAt(f, t)
    requires i < |ListOf(t, f.key)| && j < |ListOf(b, f.key)|
    requires Get(ListOf(b, f.key)[j].body, uk) == Get(ListOf(t, f.key)[i].body, uk)
    ensures var bs, ts := ListOf(b, f.key), ListOf(t, f.key);
            && FirstMatch(bs, uk, Get(ts[i].body, uk)) == j && MatchOf(bs, uk, ts[i]) == j
            && FirstMatch(ts, uk, Get(bs[j].body, uk)) == i
            && Accepted(s, Sec(bs[j].body)) && Accepted(s, Sec(ts[i].body))
  {
    var bs, ts := ListOf(b, f.key), ListOf(t, f.key);
    assert IsText(Get(bs[j].body, uk)) && uk in bs[j].body;
  }

  lemma {:induction false} EmptyItems(f: Field, uk: string, s: Schema, bs: seq<Item>, ts: seq<Item>, cur: Path, fin: Path)
    requires f.kind == Many(uk, s)
    ensures DiffItems(f, uk, s, bs, ts, cur, fin) == [] <==>
            forall i :: 0 <= i < |ts| ==> DiffItem(f, uk, s, bs, ts[i], cur, fin) == []
    decreases |ts|
  {
    if ts != [] {
      EmptyItems(f, uk, s, bs, ts[1..], cur, fin);
      assert forall i :: 0 < i < |ts| ==> ts[i] == ts[1..][i - 1];
      assert forall i :: 0 <= i < |ts[1..]| ==> ts[1..][i] == ts[i + 1];
    }
  }

  lemma {:induction false} EmptyRemoved(f: Field, uk: string, bs: seq<Item>, ts: seq<Item>, j: nat, fin: Path)
    requires j <= |bs|
    ensures DiffRemoved(f, uk, bs, ts, j, fin) == [] <==> forall k :: j <= k < |bs| ==> Kept(bs, ts, uk, k)
    decreases |bs| - j
  {
    if j < |bs| {
      EmptyRemoved(f, uk, bs, ts, j + 1, fin);
    }
  }

  // ------------------------------------------------------------ the opposite comparison

  function Swap(c: Change): Change { c.(oldValue := c.newValue, newValue := c.oldValue) }

  /** In every list that is compared, matching works in both directions: of the items that the other side has too, no
      two share a name. */
  ghost predicate PairsUp(s: Schema, b: Node, t: Node)
    decreases s, 1
  {
    forall i :: 0 <= i < |s.fields| ==> FieldPairsUp(s.fields[i], b, t)
  }

  ghost predicate FieldPairsUp(f: Field, b: Node, t: Node)
    decreases f, 1
  {
    match f.kind
    case Param => true
    case Nested(s) =>
      Traversed(f, Entry(b, f.key), Entry(t, f.key)) ==> PairsUp(s, Entry(b, f.key), Entry(t, f.key))
    case Many(uk, s) =>
      && Mutual(ListOf(b, f.key), ListOf(t, f.key), uk)
      && forall i :: 0 <= i < |ListOf(t, f.key)| ==> ItemPairsUp(f, uk, s, ListOf(b, f.key), ListOf(t, f.key)[i])
  }

  ghost predicate ItemPairsUp(f: Field, uk: string, s: Schema, bs: seq<Item>, t: Item)
    requires f.kind == Many(uk, s)
    decreases f, 0
  {
    var j := MatchOf(bs, uk, t);
    j < |bs| ==> PairsUp(s, Sec(bs[j].body), Sec(t.body))
  }

  ghost predicate Mutual(bs: seq<Item>, ts: seq<Item>, uk: string) {
    forall i, j :: 0 <= i < |ts| && 0 <= j < |bs| ==> (MatchOf(bs, uk, ts[i]) == j <==> MatchOf(ts, uk, bs[j]) == i)
  }

  /** Names of their own make the lists pair up. */
  lemma {:induction false} AcceptedPairsUp(s: Schema, b: Node, t: Node)
    requires Accepted(s, b) && Accepted(s, t)
    ensures PairsUp(s, b, t)
    decreases s, 1
  {
    forall i | 0 <= i < |s.fields|
      ensures FieldPairsUp(s.fields[i], b, t)
    {
      var f := s.fields[i];
      AcceptedField(s, b, i);
      AcceptedField(s, t, i);
      match f.kind
      case Param =>
      case Nested(s') => AcceptedPairsUp(s', Entry(b, f.key), Entry(t, f.key));
      case Many(uk, s') => AcceptedListPairsUp(f, uk, s', b, t);
    }
  }

  lemma {:induction false} AcceptedListPairsUp(f: Field, uk: string, s: Schema, b: Node, t: Node)
    requires f.kind == Many(uk, s) && AcceptedAt(f, b) && AcceptedAt(f, t)
    ensures FieldPairsUp(f, b, t)
    decreases f, 0
  {
    hide AcceptedAt, PairsUp, Accepted;
    var bs, ts := ListOf(b, f.key), ListOf(t, f.key);
    forall i, j | 0 <= i < |ts| && 0 <= j < |bs|
      ensures MatchOf(bs, uk, ts[i]) == j <==> MatchOf(ts, uk, bs[j]) == i
      ensures MatchOf(bs, uk, ts[i]) == j ==> PairsUp(s, Sec(bs[j].body), Sec(ts[i].body))
    {
      if Get(ts[i].body, uk) == Get(bs[j].body, uk) {
        NamesMatch(f, uk, s, b, t, i, j);
        NamesMatch(f, uk, s, t, b, j, i);
        AcceptedPairsUp(s, Sec(bs[j].body), Sec(ts[i].body));
      }
    }
  }

  lemma {:induction false} FinalPathSymmetric(fs: seq<Field>, b: Node, t: Node, cur: Path)
    ensures FinalPath(fs, b, t, cur) == FinalPath(fs, t, b, cur)
    decreases |fs|
  {
    if fs != [] {
      FinalPathSymmetric(fs[1..], b, t, Step(fs[0], b, t, cur));
    }
  }

  /** How often a change is recorded in a part of the comparison. */
  ghost function Count(cs: seq<Change>, c: Change): nat { multiset(cs)[c] }

  lemma CountAppend(cs: seq<Change>, ds: seq<Change>, c: Change)
    ensures Count(cs + ds, c) == Count(cs, c) + Count(ds, c)
  {
  }

  lemma CountOne(d: Change, c: Change)
    ensures Count([d], c) == (if c == d then 1 else 0) && Count([], c) == 0
  {
  }

  /** Comparing in the opposite direction records each change as often, with old and new swapped; also when custom actions
      move between their forms. */
  lemma {:induction false} OppositeSwapsMultiset(s: Schema, b: Node, t: Node, path: Path, c: Change)
    requires PairsUp(s, b, t)
    ensures Count(Diff(s, b, t, path), c) == Count(Diff(s, t, b, path), Swap(c))
    decreases s, 1
  {
    FinalPathSymmetric(s.fields, b, t, path);
    OppositeFields(s.fields, b, t, path, FinalPath(s.fields, b, t, path), c);
  }

  /** In particular, a change is recorded if and only if the opposite comparison records it swapped. */
  lemma OppositeSwaps(s: Schema, b: Node, t: Node, path: Path, c: Change)
    requires PairsUp(s, b, t)
    ensures c in Diff(s, b, t, path) <==> Swap(c) in Diff(s, t, b, path)
  {
    hide Diff, PairsUp;
    OppositeSwapsMultiset(s, b, t, path, c);
  }

  lemma {:induction false} OppositeFields(fs: seq<Field>, b: Node, t: Node, cur: Path, fin: Path, c: Change)
    requires forall i :: 0 <= i < |fs| ==> FieldPairsUp(fs[i], b, t)
    ensures Count(DiffFields(fs, b, t, cur, fin), c) == Count(DiffFields(fs, t, b, cur, fin), Swap(c))
    decreases fs, 0
  {
    hide DiffField, FieldPairsUp, Count;
    if fs == [] {
      CountOne(c, c);
      CountOne(c, Swap(c));
    } else {
      var cur' := Step(fs[0], b, t, cur);
      OppositeField(fs[0], b, t, cur, fin, c);
      OppositeFields(fs[1..], b, t, cur', fin, c);
      CountAppend(DiffField(fs[0], b, t, cur, fin), DiffFields(fs[1..], b, t, cur', fin), c);
      CountAppend(DiffField(fs[0], t, b, cur, fin), DiffFields(fs[1..], t, b, cur', fin), Swap(c));
    }
  }

  lemma {:induction false} OppositeField(f: Field, b: Node, t: Node, cur: Path, fin: Path, c: Change)
    requires FieldPairsUp(f, b, t)
    ensures Count(DiffField(f, b, t, cur, fin), c) == Count(DiffField(f, t, b, cur, fin), Swap(c))
    decreases f, 2
  {
    hide Count;
    match f.kind
    case Param => OppositeParam(f, b, t, cur, fin, c);
    case Nested(s) =>
      var bv, tv := Entry(b, f.key), Entry(t, f.key);
      if Traversed(f, bv, tv) {
        OppositeSwapsMultiset(s, bv, tv, cur + [f.key], c);
      } else {
        OppositePresence(f, s, b, t, cur, fin, c);
      }
    case Many(uk, s) =>
      OppositeList(f, uk, s, b, t, cur, fin, c);
  }

  lemma OppositeParam(f: Field, b: Node, t: Node, cur: Path, fin: Path, c: Change)
    requires f.kind.Param?
    ensures Count(DiffParam(f, b, t, cur, fin), c) == Count(DiffParam(f, t, b, cur, fin), Swap(c))
  {
    var cs, ds := DiffParam(f, b, t, cur, fin), DiffParam(f, t, b, cur, fin);
    CountOne(c, c);
    CountOne(c, Swap(c));
    if cs != [] {
      assert |cs| == 1 && ds == [Swap(cs[0])];
      CountOne(cs[0], c);
      CountOne(Swap(cs[0]), Swap(c));
    }
  }

  lemma OppositePresence(f: Field, s: Schema, b: Node, t: Node, cur: Path, fin: Path, c: Change)
    requires f.kind == Nested(s) && !Traversed(f, Entry(b, f.key), Entry(t, f.key))
    ensures Count(DiffNested(f, s, b, t, cur, fin), c) == Count(DiffNested(f, s, t, b, cur, fin), Swap(c))
  {
    var bv, tv := Entry(b, f.key), Entry(t, f.key);
    var d := Change(fin, f.key, OrDash(bv), OrDash(tv), f.policy, false);
    CountOne(d, c);
    CountOne(Swap(d), Swap(c));
    CountOne(c, Swap(c));
  }

  // The counts of a list: what target item `i` differs in from base item `j` if they are compared, and whether item `k`
  // is recorded as added or removed.

  ghost function PairCount(f: Field, uk: string, s: Schema, bs: seq<Item>, ts: seq<Item>, cur: Path, c: Change, i: nat,
                           j: nat): nat {
    if i < |ts| && j < |bs| && MatchOf(bs, uk, ts[i]) == j then
      Count(Diff(s, Sec(bs[j].body), Sec(ts[i].body), cur + [Segment(f.key, Get(ts[i].body, uk))]), c)
    else 0
  }

  ghost function PairRow(f: Field, uk: string, s: Schema, bs: seq<Item>, ts: seq<Item>, cur: Path, c: Change, i: nat)
    : nat
  {
    SumOf(0, |bs|, j => PairCount(f, uk, s, bs, ts, cur, c, i, j))
  }

  ghost function AddedCount(f: Field, uk: string, bs: seq<Item>, ts: seq<Item>, fin: Path, c: Change, i: nat): nat {
    if i < |ts| && MatchOf(bs, uk, ts[i]) == |bs| && c == Added(fin, f, ts[i]) then 1 else 0
  }

  ghost function RemovedCount(f: Field, uk: string, bs: seq<Item>, ts: seq<Item>, fin: Path, c: Change, k: nat): nat {
    if k < |bs| && !Kept(bs, ts, uk, k) && c == RemovedItem(fin, f, bs[k]) then 1 else 0
  }

  lemma ItemCount(f: Field, uk: string, s: Schema, bs: seq<Item>, ts: seq<Item>, cur: Path, fin: Path, c: Change, i: nat)
    requires f.kind == Many(uk, s) && i < |ts|
    ensures Count(DiffItem(f, uk, s, bs, ts[i], cur, fin), c)
            == PairRow(f, uk, s, bs, ts, cur, c, i) + AddedCount(f, uk, bs, ts, fin, c, i)
  {
    hide Diff, Count;
    var g: nat -> nat := j => PairCount(f, uk, s, bs, ts, cur, c, i, j);
    var m := MatchOf(bs, uk, ts[i]);
    OneTerm(0, |bs|, g, m);
    if m == |bs| {
      CountOne(Added(fin, f, ts[i]), c);
    }
  }

  lemma {:induction false} ItemsCount(f: Field, uk: string, s: Schema, bs: seq<Item>, ts: seq<Item>, cur: Path, fin: Path,
                                      c: Change, k: nat)
    requires f.kind == Many(uk, s) && k <= |ts|
    ensures Count(DiffItems(f, uk, s, bs, ts[k..], cur, fin), c)
            == SumOf(k, |ts|, i => PairRow(f, uk, s, bs, ts, cur, c, i))
               + SumOf(k, |ts|, i => AddedCount(f, uk, bs, ts, fin, c, i))
    decreases |ts| - k
  {
    hide DiffItem, Count, PairRow, AddedCount;
    if k == |ts| {
      CountOne(c, c);
      assert ts[k..] == [];
    } else {
      assert ts[k..][0] == ts[k] && ts[k..][1..] == ts[k + 1..];
      ItemCount(f, uk, s, bs, ts, cur, fin, c, k);
      ItemsCount(f, uk, s, bs, ts, cur, fin, c, k + 1);
      CountAppend(DiffItem(f, uk, s, bs, ts[k], cur, fin), DiffItems(f, uk, s, bs, ts[k + 1..], cur, fin), c);
    }
  }

  lemma {:induction false} RemovalsCount(f: Field, uk: string, bs: seq<Item>, ts: seq<Item>, fin: Path, c: Change, k: nat)
    requires k <= |bs|
    ensures Count(DiffRemoved(f, uk, bs, ts, k, fin), c)
            == SumOf(k, |bs|, i => RemovedCount(f, uk, bs, ts, fin, c, i))
    decreases |bs| - k
  {
    hide Count, Kept;
    if k == |bs| {
      CountOne(c, c);
    } else {
      RemovalsCount(f, uk, bs, ts, fin, c, k + 1);
      var here := if Kept(bs, ts, uk, k) then [] else [RemovedItem(fin, f, bs[k])];
      CountAppend(here, DiffRemoved(f, uk, bs, ts, k + 1, fin), c);
      CountOne(RemovedItem(fin, f, bs[k]), c);
    }
  }

  /** What is added in one direction is removed in the other. */
  lemma AddedIsRemoved(f: Field, uk: string, bs: seq<Item>, ts: seq<Item>, fin: Path, c: Change, i: nat)
    requires Mutual(bs, ts, uk)
    ensures AddedCount(f, uk, bs, ts, fin, c, i) == RemovedCount(f, uk, ts, bs, fin, Swap(c), i)
  {
    if i < |ts| {
      var j := MatchOf(bs, uk, ts[i]);
      assert j < |bs| ==> MatchOf(ts, uk, bs[j]) == i;
      assert Kept(ts, bs, uk, i) <==> j < |bs|;
    }
  }

  lemma {:induction false} PairCountSwaps(f: Field, uk: string, s: Schema, b: Node, t: Node, cur: Path, c: Change, i: nat,
                                          j: nat)
    requires f.kind == Many(uk, s) && FieldPairsUp(f, b, t)
    ensures PairCount(f, uk, s, ListOf(b, f.key), ListOf(t, f.key), cur, c, i, j)
            == PairCount(f, uk, s, ListOf(t, f.key), ListOf(b, f.key), cur, Swap(c), j, i)
    decreases f, 0
  {
    var bs, ts := ListOf(b, f.key), ListOf(t, f.key);
    if i < |ts| && j < |bs| && MatchOf(bs, uk, ts[i]) == j {
      assert ItemPairsUp(f, uk, s, bs, ts[i]);
      OppositeSwapsMultiset(s, Sec(bs[j].body), Sec(ts[i].body), cur + [Segment(f.key, Get(ts[i].body, uk))], c);
    }
  }

  lemma {:induction false} OppositeList(f: Field, uk: string, s: Schema, b: Node, t: Node, cur: Path, fin: Path,
                                        c: Change)
    requires f.kind == Many(uk, s) && FieldPairsUp(f, b, t)
    ensures Count(DiffField(f, b, t, cur, fin), c) == Count(DiffField(f, t, b, cur, fin), Swap(c))
    decreases f, 1
  {
    var bs, ts, d := ListOf(b, f.key), ListOf(t, f.key), Swap(c);
    assert Mutual(bs, ts, uk) && Mutual(ts, bs, uk);
    ListCount(f, uk, s, b, t, cur, fin, c);
    ListCount(f, uk, s, t, b, cur, fin, d);
    forall i: nat, j: nat
      ensures PairCount(f, uk, s, bs, ts, cur, c, i, j) == PairCount(f, uk, s, ts, bs, cur, d, j, i)
    {
      PairCountSwaps(f, uk, s, b, t, cur, c, i, j);
    }
    forall k: nat
      ensures AddedCount(f, uk, bs, ts, fin, c, k) == RemovedCount(f, uk, ts, bs, fin, d, k)
      ensures AddedCount(f, uk, ts, bs, fin, d, k) == RemovedCount(f, uk, bs, ts, fin, c, k)
    {
      AddedIsRemoved(f, uk, bs, ts, fin, c, k);
      AddedIsRemoved(f, uk, ts, bs, fin, d, k);
    }
    hide PairCount, AddedCount, RemovedCount, Count, DiffField, Mutual, FieldPairsUp;
    Exchange(|ts|, |bs|, (i, j) => PairCount(f, uk, s, bs, ts, cur, c, i, j),
             (j, i) => PairCount(f, uk, s, ts, bs, cur, d, j, i));
    SameTerms(0, |ts|, i => AddedCount(f, uk, bs, ts, fin, c, i), i => RemovedCount(f, uk, ts, bs, fin, d, i));
    SameTerms(0, |bs|, i => AddedCount(f, uk, ts, bs, fin, d, i), i => RemovedCount(f, uk, bs, ts, fin, c, i));
  }

  lemma ListCount(f: Field, uk: string, s: Schema, b: Node, t: Node, cur: Path, fin: Path, c: Change)
    requires f.kind == Many(uk, s)
    ensures var bs, ts := ListOf(b, f.key), ListOf(t, f.key);
            Count(DiffField(f, b, t, cur, fin), c)
            == SumOfSums(|ts|, |bs|, (i, j) => PairCount(f, uk, s, bs, ts, cur, c, i, j))
               + SumOf(0, |ts|, i => AddedCount(f, uk, bs, ts, fin, c, i))
               + SumOf(0, |bs|, i => RemovedCount(f, uk, bs, ts, fin, c, i))
  {
    var bs, ts := ListOf(b, f.key), ListOf(t, f.key);
    assert ts[0..] == ts;
    ItemsCount(f, uk, s, bs, ts, cur, fin, c, 0);
    RemovalsCount(f, uk, bs, ts, fin, c, 0);
    CountAppend(DiffItems(f, uk, s, bs, ts, cur, fin), DiffRemoved(f, uk, bs, ts, 0, fin), c);
    var g: (nat, nat) -> nat := (i, j) => PairCount(f, uk, s, bs, ts, cur, c, i, j);
    hide PairCount, AddedCount, RemovedCount, Count, DiffItems, DiffRemoved, DiffField;
    forall i: nat
      ensures PairRow(f, uk, s, bs, ts, cur, c, i) == SumOf(0, |bs|, j => g(i, j))
    {
      SameTerms(0, |bs|, j => PairCount(f, uk, s, bs, ts, cur, c, i, j), j => g(i, j));
    }
    hide PairRow;
    RowsOf(|ts|, |bs|, g, i => PairRow(f, uk, s, bs, ts, cur, c, i));
  }

  /** A sum of rows is the double sum. */
  lemma RowsOf(n: nat, m: nat, g: (nat, nat) -> nat, row: nat -> nat)
    requires forall i: nat :: row(i) == SumOf(0, m, j => g(i, j))
    ensures SumOf(0, n, row) == SumOfSums(n, m, g)
  {
    SameTerms(0, n, row, i => SumOf(0, m, j => g(i, j)));
  }
}

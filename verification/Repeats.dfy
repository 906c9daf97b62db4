/** The base configurations on which no target makes the comparison overlook a removal: those in which no object occurs at
    two places of the lists that the schema reads. */
module Repeats {
  import opened Values
  import opened Schema
  import opened ConfigDiff
  import opened DiffShape
  import opened DiffLaws
  import opened MarkedDiff
  import opened Raising
  import opened Meaning
  import opened Sharing

  /** The objects in the lists that the schema reads below a section, a field or an item. */
  ghost function SectionIds(s: Schema, b: Node): set<nat>
    decreases s, 1
  {
    set i, id | 0 <= i < |s.fields| && id in FieldIds(s.fields[i], b) :: id
  }

  ghost function FieldIds(f: Field, b: Node): set<nat>
    decreases f, 1
  {
    match f.kind
    case Param => {}
    case Nested(s) => SectionIds(s, Entry(b, f.key))
    case Many(uk, s) => set j, id | 0 <= j < |ListOf(b, f.key)| && id in ItemIds(f, s, ListOf(b, f.key)[j]) :: id
  }

  ghost function ItemIds(f: Field, s: Schema, it: Item): set<nat>
    requires f.kind.Many? && f.kind.item == s
    decreases f, 0
  {
    {it.id} + SectionIds(s, Sec(it.body))
  }

  /** No object occurs below two fields of a section or below two items of a list. */
  ghost predicate Unrepeated(s: Schema, b: Node)
    decreases s, 1
  {
    && (forall i :: 0 <= i < |s.fields| ==> FieldUnrepeated(s.fields[i], b))
    && (forall i, j :: 0 <= i < j < |s.fields| ==> FieldIds(s.fields[i], b) !! FieldIds(s.fields[j], b))
  }

  ghost predicate FieldUnrepeated(f: Field, b: Node)
    decreases f, 0
  {
    match f.kind
    case Param => true
    case Nested(s) => Unrepeated(s, Entry(b, f.key))
    case Many(uk, s) =>
      var bs := ListOf(b, f.key);
      && (forall j :: 0 <= j < |bs| ==> Unrepeated(s, Sec(bs[j].body)))
      && (forall i, j :: 0 <= i < j < |bs| ==> ItemIds(f, s, bs[i]) !! ItemIds(f, s, bs[j]))
  }

  // ------------------------------------------------------------ events and marks

  lemma {:induction false} MarksGrow(es: seq<Event>, marks: set<nat>, id: nat)
    ensures marks <= MarksAfter(es, marks)
    ensures id in MarksAfter(es, marks) <==> id in marks || Compared(id) in es
    decreases |es|
  {
    if es != [] {
      MarksGrow(es[1..], if es[0].Compared? then marks + {es[0].id} else marks, id);
    }
  }

  lemma {:induction false} OverlooksMore(es: seq<Event>, marks: set<nat>, more: set<nat>)
    requires marks <= more && Overlooks(es, marks)
    ensures Overlooks(es, more)
    decreases |es|
  {
    match es[0]
    case Compared(id) => OverlooksMore(es[1..], marks + {id}, more + {id});
    case Dropped(id) =>
      if id !in marks {
        OverlooksMore(es[1..], marks, more);
      }
  }

  lemma {:induction false} DroppedMarked(es: seq<Event>, marks: set<nat>, id: nat)
    requires id in marks && Dropped(id) in es
    ensures Overlooks(es, marks)
    decreases |es|
  {
    if es[0] != Dropped(id) {
      DroppedMarked(es[1..], if es[0].Compared? then marks + {es[0].id} else marks, id);
    }
  }

  // ------------------------------------------------------------ no object twice: nothing is overlooked

  /** Nothing is overlooked, and only objects of the given part get marked. */
  ghost predicate Clean(es: seq<Event>, ids: set<nat>, marks: set<nat>) {
    !Overlooks(es, marks) && MarksAfter(es, marks) <= marks + ids
  }

  lemma CleanTogether(es: seq<Event>, gs: seq<Event>, ids: set<nat>, others: set<nat>, marks: set<nat>)
    requires Clean(es, ids, marks) && Clean(gs, others, MarksAfter(es, marks))
    ensures Clean(es + gs, ids + others, marks)
  {
    hide Overlooks, MarksAfter;
    OneAfterTheOther(es, gs, marks);
  }

  lemma {:induction false} SectionClean(s: Schema, b: Node, t: Node, marks: set<nat>)
    requires UniqueNames(s, t) && Unrepeated(s, b) && SectionIds(s, b) !! marks
    ensures Clean(Events(s, b, t), SectionIds(s, b), marks)
    decreases s, 1
  {
    assert forall i :: 0 <= i < |s.fields| ==> FieldIds(s.fields[i], b) <= SectionIds(s, b);
    FieldsClean(s, 0, b, t, marks);
    assert s.fields[0..] == s.fields;
  }

  /** The fields from position `n` on; the marks hold nothing of them. */
  lemma {:induction false} FieldsClean(s: Schema, n: nat, b: Node, t: Node, marks: set<nat>)
    requires n <= |s.fields| && UniqueNames(s, t) && Unrepeated(s, b)
    requires forall i :: n <= i < |s.fields| ==> FieldIds(s.fields[i], b) !! marks
    ensures Clean(EventsOfFields(s.fields[n..], b, t), SectionIds(s, b), marks)
    decreases s, 0, |s.fields| - n
  {
    hide Overlooks, MarksAfter, EventsOfField, FieldIds;
    if n < |s.fields| {
      var f, rest := s.fields[n], s.fields[n + 1..];
      assert s.fields[n..][0] == f && s.fields[n..][1..] == rest;
      FieldClean(f, b, t, marks);
      var marks' := MarksAfter(EventsOfField(f, b, t), marks);
      FieldsClean(s, n + 1, b, t, marks');
      CleanTogether(EventsOfField(f, b, t), EventsOfFields(rest, b, t), FieldIds(f, b), SectionIds(s, b), marks);
      assert FieldIds(f, b) <= SectionIds(s, b);
      assert FieldIds(f, b) + SectionIds(s, b) == SectionIds(s, b);
    } else {
      NothingClean(SectionIds(s, b), marks);
      assert s.fields[n..] == [];
    }
  }

  lemma NothingClean(ids: set<nat>, marks: set<nat>)
    ensures Clean([], ids, marks)
  {
  }

  lemma {:induction false} FieldClean(f: Field, b: Node, t: Node, marks: set<nat>)
    requires FieldUniqueNames(f, t) && FieldUnrepeated(f, b) && FieldIds(f, b) !! marks
    ensures Clean(EventsOfField(f, b, t), FieldIds(f, b), marks)
    decreases f, 2
  {
    match f.kind
    case Param =>
    case Nested(s) => SectionClean(s, Entry(b, f.key), Entry(t, f.key), marks);
    case Many(uk, s) =>
      var bs, ts := ListOf(b, f.key), ListOf(t, f.key);
      var es := EventsOfItems(f, uk, s, bs, ts);
      assert ts[0..] == ts;
      KeptIdsAll(f, uk, s, b, ts);
      ItemsClean(f, uk, s, bs, ts, 0, marks, marks);
      RestClean(f, uk, s, b, ts, 0, marks, MarksAfter(es, marks));
      hide Overlooks, MarksAfter, EventsOfItems, EventsOfRest;
      OneAfterTheOther(es, EventsOfRest(uk, bs, ts, 0), marks);
  }

  /** The objects of the items that the first `n` target items are compared with. */
  ghost function KeptIds(f: Field, uk: string, s: Schema, bs: seq<Item>, ts: seq<Item>, n: nat): set<nat>
    requires f.kind.Many? && f.kind.item == s && n <= |ts|
  {
    set j, id | 0 <= j < |bs| && Kept(bs, ts[..n], uk, j) && id in ItemIds(f, s, bs[j]) :: id
  }

  lemma KeptIdsAll(f: Field, uk: string, s: Schema, b: Node, ts: seq<Item>)
    requires f.kind == Many(uk, s)
    ensures KeptIds(f, uk, s, ListOf(b, f.key), ts, |ts|) <= FieldIds(f, b)
  {
  }

  lemma KeptIdsStep(f: Field, uk: string, s: Schema, bs: seq<Item>, ts: seq<Item>, n: nat)
    requires f.kind.Many? && f.kind.item == s && n < |ts|
    ensures KeptIds(f, uk, s, bs, ts, n) <= KeptIds(f, uk, s, bs, ts, n + 1)
    ensures var j := MatchOf(bs, uk, ts[n]); j < |bs| ==> ItemIds(f, s, bs[j]) <= KeptIds(f, uk, s, bs, ts, n + 1)
  {
    forall k | 0 <= k < |bs| && Kept(bs, ts[..n], uk, k)
      ensures Kept(bs, ts[..n + 1], uk, k)
    {
      var i :| 0 <= i < n && MatchOf(bs, uk, ts[..n][i]) == k;
      assert ts[..n + 1][i] == ts[..n][i];
    }
    var j := MatchOf(bs, uk, ts[n]);
    if j < |bs| {
      assert ts[..n + 1][n] == ts[n];
      assert Kept(bs, ts[..n + 1], uk, j);
    }
  }

  ghost predicate ListUnrepeated(f: Field, s: Schema, bs: seq<Item>)
    requires f.kind.Many? && f.kind.item == s
  {
    && (forall j :: 0 <= j < |bs| ==> Unrepeated(s, Sec(bs[j].body)))
    && (forall i, j :: 0 <= i < j < |bs| ==> ItemIds(f, s, bs[i]) !! ItemIds(f, s, bs[j]))
  }

  lemma {:induction false} ItemsClean(f: Field, uk: string, s: Schema, bs: seq<Item>, ts: seq<Item>, n: nat,
                                      before: set<nat>, marks: set<nat>)
    requires f.kind == Many(uk, s) && n <= |ts| && UniqueItemNames(ts, uk) && ListUnrepeated(f, s, bs)
    requires forall j :: 0 <= j < |ts| ==> UniqueNames(s, Sec(ts[j].body))
    requires forall j :: 0 <= j < |bs| ==> ItemIds(f, s, bs[j]) !! before
    requires marks <= before + KeptIds(f, uk, s, bs, ts, n)
    ensures !Overlooks(EventsOfItems(f, uk, s, bs, ts[n..]), marks)
    ensures MarksAfter(EventsOfItems(f, uk, s, bs, ts[n..]), marks) <= before + KeptIds(f, uk, s, bs, ts, |ts|)
    decreases f, 1, |ts| - n
  {
    hide KeptIds, ItemIds, EventsOfItem, Overlooks, MarksAfter, UniqueNames;
    if n < |ts| {
      var es, gs := EventsOfItem(f, uk, s, bs, ts[n]), EventsOfItems(f, uk, s, bs, ts[n + 1..]);
      assert ts[n..][0] == ts[n] && ts[n..][1..] == ts[n + 1..];
      KeptIdsStep(f, uk, s, bs, ts, n);
      ItemClean(f, uk, s, bs, ts, n, before, marks);
      ItemsClean(f, uk, s, bs, ts, n + 1, before, MarksAfter(es, marks));
      OneAfterTheOther(es, gs, marks);
    } else {
      NothingClean({}, marks);
      assert ts[n..] == [];
    }
  }

  lemma {:induction false} ItemClean(f: Field, uk: string, s: Schema, bs: seq<Item>, ts: seq<Item>, n: nat,
                                     before: set<nat>, marks: set<nat>)
    requires f.kind == Many(uk, s) && n < |ts| && UniqueItemNames(ts, uk) && ListUnrepeated(f, s, bs)
    requires UniqueNames(s, Sec(ts[n].body))
    requires forall j :: 0 <= j < |bs| ==> ItemIds(f, s, bs[j]) !! before
    requires marks <= before + KeptIds(f, uk, s, bs, ts, n)
    ensures !Overlooks(EventsOfItem(f, uk, s, bs, ts[n]), marks)
    ensures MarksAfter(EventsOfItem(f, uk, s, bs, ts[n]), marks) <= before + KeptIds(f, uk, s, bs, ts, n + 1)
    decreases f, 0
  {
    KeptIdsStep(f, uk, s, bs, ts, n);
    var j := MatchOf(bs, uk, ts[n]);
    if j < |bs| {
      ItemFresh(f, uk, s, bs, ts, n, j);
      var body, es := Sec(bs[j].body), Events(s, Sec(bs[j].body), Sec(ts[n].body));
      assert SectionIds(s, body) <= ItemIds(f, s, bs[j]);
      SectionClean(s, body, Sec(ts[n].body), marks);
      hide KeptIds, SectionIds, Events, ListUnrepeated, Unrepeated;
      OneAfterTheOther(es, [Compared(bs[j].id)], marks);
      JustCompared(bs[j].id, MarksAfter(es, marks));
    }
  }

  /** The base item of target item `n` was not compared with an earlier one, so none of its objects is marked yet. */
  lemma ItemFresh(f: Field, uk: string, s: Schema, bs: seq<Item>, ts: seq<Item>, n: nat, j: nat)
    requires f.kind == Many(uk, s) && n < |ts| && j < |bs| && MatchOf(bs, uk, ts[n]) == j
    requires ListUnrepeated(f, s, bs) && UniqueItemNames(ts, uk)
    ensures ItemIds(f, s, bs[j]) !! KeptIds(f, uk, s, bs, ts, n)
  {
    hide ItemIds;
    forall k | 0 <= k < |bs| && Kept(bs, ts[..n], uk, k)
      ensures ItemIds(f, s, bs[j]) !! ItemIds(f, s, bs[k])
    {
      var i :| 0 <= i < n && MatchOf(bs, uk, ts[..n][i]) == k;
      assert ts[..n][i] == ts[i];
      assert Get(ts[i].body, uk) != Get(ts[n].body, uk);
      assert j != k;
    }
  }

  /** The items that no target item is compared with are not marked. */
  lemma {:induction false} RestClean(f: Field, uk: string, s: Schema, b: Node, ts: seq<Item>, j: nat, before: set<nat>,
                                     marks: set<nat>)
    requires f.kind == Many(uk, s) && j <= |ListOf(b, f.key)| && FieldUnrepeated(f, b) && FieldIds(f, b) !! before
    requires marks <= before + KeptIds(f, uk, s, ListOf(b, f.key), ts, |ts|)
    ensures !Overlooks(EventsOfRest(uk, ListOf(b, f.key), ts, j), marks)
    ensures MarksAfter(EventsOfRest(uk, ListOf(b, f.key), ts, j), marks) == marks
    decreases |ListOf(b, f.key)| - j
  {
    var bs := ListOf(b, f.key);
    if j < |bs| {
      RestClean(f, uk, s, b, ts, j + 1, before, marks);
      var rest := EventsOfRest(uk, bs, ts, j + 1);
      if !Kept(bs, ts, uk, j) {
        DroppedFresh(f, uk, s, b, ts, j);
        assert ([Dropped(bs[j].id)] + rest)[1..] == rest;
      } else {
        assert [] + rest == rest;
      }
    }
  }

  lemma DroppedFresh(f: Field, uk: string, s: Schema, b: Node, ts: seq<Item>, j: nat)
    requires f.kind == Many(uk, s) && j < |ListOf(b, f.key)| && FieldUnrepeated(f, b)
    requires !Kept(ListOf(b, f.key), ts, uk, j)
    ensures ListOf(b, f.key)[j].id in FieldIds(f, b)
    ensures ListOf(b, f.key)[j].id !in KeptIds(f, uk, s, ListOf(b, f.key), ts, |ts|)
  {
    var bs := ListOf(b, f.key);
    var id := bs[j].id;
    assert ts[..|ts|] == ts;
    assert id in ItemIds(f, s, bs[j]);
    hide ItemIds;
    forall k | 0 <= k < |bs| && Kept(bs, ts, uk, k)
      ensures id !in ItemIds(f, s, bs[k])
    {
      assert k != j;
      assert ItemIds(f, s, bs[k]) !! ItemIds(f, s, bs[j]);
    }
  }

  // ------------------------------------------------------------ an object twice: some target makes it overlooked

  /** The target is the base but for the value of one section or list, and nowhere lacks a section that holds a list. */
  ghost predicate Edited(s: Schema, b: Node, t: Node) {
    && !OneSidedList(s, b, t)
    && b.Sec? && t.Sec? && b.body.Keys == t.body.Keys
    && exists i :: 0 <= i < |s.fields| && !s.fields[i].kind.Param? && s.fields[i].key in b.body
                   && t.body == b.body[s.fields[i].key := t.body[s.fields[i].key]]
  }

  function With(b: Node, key: string, v: Node): Node
    requires b.Sec?
  {
    Sec(b.body[key := v])
  }

  /** Comparing a section with itself compares every object in it. */
  lemma {:induction false} AllCompared(s: Schema, b: Node, id: nat)
    requires Accepted(s, b) && id in SectionIds(s, b)
    ensures Compared(id) in Events(s, b, b)
    decreases s, 1
  {
    var i :| 0 <= i < |s.fields| && id in FieldIds(s.fields[i], b);
    AcceptedField(s, b, i);
    FieldCompared(s.fields[i], b, id);
    InFields(s.fields, b, b, i, Compared(id));
  }

  /** Nothing is one-sided between a section and itself. */
  lemma {:induction false} NotOneSided(s: Schema, b: Node)
    requires Accepted(s, b) && b.Sec?
    ensures !OneSidedList(s, b, b)
    decreases s
  {
    forall i | 0 <= i < |s.fields|
      ensures !FieldOneSided(s.fields[i], b, b)
    {
      AcceptedField(s, b, i);
      FieldNotOneSided(s.fields[i], b);
    }
  }

  lemma {:induction false} FieldNotOneSided(f: Field, b: Node)
    requires AcceptedAt(f, b) && b.Sec?
    ensures !FieldOneSided(f, b, b)
    decreases f
  {
    match f.kind
    case Param =>
    case Nested(s) =>
      if Truthy(Entry(b, f.key)) {
        NotOneSided(s, Entry(b, f.key));
      }
    case Many(uk, s) =>
      forall i | 0 <= i < |ListOf(b, f.key)|
        ensures !ItemOneSided(f, uk, s, ListOf(b, f.key), ListOf(b, f.key)[i])
      {
        ItemNotOneSided(f, uk, s, b, i);
      }
  }

  lemma {:induction false} ItemNotOneSided(f: Field, uk: string, s: Schema, b: Node, i: nat)
    requires f.kind == Many(uk, s) && AcceptedAt(f, b) && i < |ListOf(b, f.key)|
    ensures !ItemOneSided(f, uk, s, ListOf(b, f.key), ListOf(b, f.key)[i])
    decreases f, 0
  {
    NamesMatch(f, uk, s, b, b, i, i);
    NotOneSided(s, Sec(ListOf(b, f.key)[i].body));
  }

  lemma {:induction false} FieldCompared(f: Field, b: Node, id: nat)
    requires AcceptedAt(f, b) && id in FieldIds(f, b)
    ensures Compared(id) in EventsOfField(f, b, b)
    decreases f, 1
  {
    match f.kind
    case Nested(s) =>
      IdsNeedSection(s, Entry(b, f.key), id);
      AllCompared(s, Entry(b, f.key), id);
    case Many(uk, s) =>
      var bs := ListOf(b, f.key);
      var j :| 0 <= j < |bs| && id in ItemIds(f, s, bs[j]);
      ItemCompared(f, uk, s, b, j, bs[j], id);
      InItemEvents(f, uk, s, bs, bs, j, Compared(id));
  }

  /** Ids come from a section that is there. */
  lemma {:induction false} IdsNeedSection(s: Schema, b: Node, id: nat)
    requires id in SectionIds(s, b)
    ensures b.Sec? && b.body != map[]
    decreases s
  {
    var i :| 0 <= i < |s.fields| && id in FieldIds(s.fields[i], b);
    var f := s.fields[i];
    match f.kind
    case Nested(s') => IdsNeedSection(s', Entry(b, f.key), id);
    case Many(_, _) =>
  }

  lemma {:induction false} InFields(fs: seq<Field>, b: Node, t: Node, i: nat, e: Event)
    requires i < |fs| && e in EventsOfField(fs[i], b, t)
    ensures e in EventsOfFields(fs, b, t)
    decreases |fs|
  {
    hide EventsOfField;
    if i > 0 {
      assert fs[i] == fs[1..][i - 1];
      InFields(fs[1..], b, t, i - 1, e);
    }
  }

  lemma {:induction false} InItemEvents(f: Field, uk: string, s: Schema, bs: seq<Item>, ts: seq<Item>, i: nat, e: Event)
    requires f.kind == Many(uk, s) && i < |ts| && e in EventsOfItem(f, uk, s, bs, ts[i])
    ensures e in EventsOfItems(f, uk, s, bs, ts)
    decreases |ts|
  {
    hide EventsOfItem;
    if i > 0 {
      assert ts[i] == ts[1..][i - 1];
      InItemEvents(f, uk, s, bs, ts[1..], i - 1, e);
    }
  }

  /** A target item that is the base item compares every object of it. */
  lemma {:induction false} ItemCompared(f: Field, uk: string, s: Schema, b: Node, j: nat, t: Item, id: nat)
    requires f.kind == Many(uk, s) && AcceptedAt(f, b) && j < |ListOf(b, f.key)| && t == ListOf(b, f.key)[j]
    requires id in ItemIds(f, s, t)
    ensures Compared(id) in EventsOfItem(f, uk, s, ListOf(b, f.key), t)
    decreases f, 0
  {
    NamesMatch(f, uk, s, b, b, j, j);
    if id != t.id {
      AllCompared(s, Sec(t.body), id);
    }
  }

  /** For every object there is a target that drops it. */
  lemma {:induction false} DropIt(s: Schema, b: Node, id: nat) returns (t: Node)
    requires GoodKeys(s) && Accepted(s, b) && id in SectionIds(s, b)
    ensures Accepted(s, t) && Dropped(id) in Events(s, b, t) && Edited(s, b, t)
    decreases s, 1
  {
    IdsNeedSection(s, b, id);
    var i :| 0 <= i < |s.fields| && id in FieldIds(s.fields[i], b);
    var f := s.fields[i];
    AcceptedField(s, b, i);
    assert GoodField(f);
    var v := DropInField(f, b, id);
    t := With(b, f.key, v);
    EditAccepted(s, b, i, v);
    InFields(s.fields, b, t, i, Dropped(id));
  }

  /** Changing the value of one field to an accepted one keeps the section accepted. */
  lemma EditAccepted(s: Schema, b: Node, i: nat, v: Node)
    requires GoodKeys(s) && Accepted(s, b) && b.Sec? && i < |s.fields| && !s.fields[i].kind.Param?
    requires s.fields[i].key in b.body && AcceptedAt(s.fields[i], With(b, s.fields[i].key, v))
    requires !FieldOneSided(s.fields[i], b, With(b, s.fields[i].key, v))
    ensures Accepted(s, With(b, s.fields[i].key, v)) && Edited(s, b, With(b, s.fields[i].key, v))
  {
    var t := With(b, s.fields[i].key, v);
    forall k | 0 <= k < |s.fields|
      ensures FieldTyped(s.fields[k], t) && FieldUniqueNames(s.fields[k], t) && FieldNamed(s.fields[k], t)
      ensures !FieldOneSided(s.fields[k], b, t)
    {
      if k != i {
        AcceptedField(s, b, k);
        assert s.fields[k].key != s.fields[i].key;
        SameEntry(s.fields[k], b, t);
        FieldNotOneSided(s.fields[k], b);
      }
    }
  }

  /** What is accepted of a field, and what happens in it, depends on the field's own value only. */
  lemma SameEntry(f: Field, b: Node, t: Node)
    requires b.Sec? && t.Sec? && (f.key in b.body <==> f.key in t.body)
    requires f.key in b.body ==> b.body[f.key] == t.body[f.key]
    ensures AcceptedAt(f, b) <==> AcceptedAt(f, t)
    ensures forall x :: EventsOfField(f, x, b) == EventsOfField(f, x, t)
    ensures forall x :: FieldOneSided(f, x, b) <==> FieldOneSided(f, x, t)
  {
    assert Entry(b, f.key) == Entry(t, f.key) && ListOf(b, f.key) == ListOf(t, f.key);
  }

  lemma {:induction false} DropInField(f: Field, b: Node, id: nat) returns (v: Node)
    requires GoodField(f) && AcceptedAt(f, b) && b.Sec? && id in FieldIds(f, b)
    ensures f.key in b.body && AcceptedAt(f, With(b, f.key, v))
    ensures Dropped(id) in EventsOfField(f, b, With(b, f.key, v)) && !FieldOneSided(f, b, With(b, f.key, v))
    decreases f, 1
  {
    match f.kind
    case Nested(s) =>
      IdsNeedSection(s, Entry(b, f.key), id);
      v := DropIt(s, Entry(b, f.key), id);
      assert Entry(With(b, f.key, v), f.key) == v;
    case Many(uk, s) =>
      var bs := ListOf(b, f.key);
      var j :| 0 <= j < |bs| && id in ItemIds(f, s, bs[j]);
      if id == bs[j].id {
        v := Items([]);
        assert ListOf(With(b, f.key, v), f.key) == [];
        AllDropped(uk, bs, 0, j);
      } else {
        var it := DropInItem(f, uk, s, b, j, id);
        v := Items([it]);
        var t := With(b, f.key, v);
        assert ListOf(t, f.key) == [it];
        InItemEvents(f, uk, s, bs, [it], 0, Dropped(id));
      }
  }

  /** Without target items all base items are dropped. */
  lemma {:induction false} AllDropped(uk: string, bs: seq<Item>, k: nat, j: nat)
    requires k <= j < |bs|
    ensures Dropped(bs[j].id) in EventsOfRest(uk, bs, [], k)
    decreases |bs| - k
  {
    assert !Kept(bs, [], uk, k);
    if k < j {
      AllDropped(uk, bs, k + 1, j);
    }
  }

  /** A target item that drops an object below a base item, under the same name. */
  lemma {:induction false} DropInItem(f: Field, uk: string, s: Schema, b: Node, j: nat, id: nat) returns (it: Item)
    requires f.kind == Many(uk, s) && GoodField(f) && AcceptedAt(f, b) && j < |ListOf(b, f.key)|
    requires id in SectionIds(s, Sec(ListOf(b, f.key)[j].body))
    ensures Accepted(s, Sec(it.body)) && Get(it.body, uk) == Get(ListOf(b, f.key)[j].body, uk)
    ensures Dropped(id) in EventsOfItem(f, uk, s, ListOf(b, f.key), it)
    ensures !ItemOneSided(f, uk, s, ListOf(b, f.key), it)
    decreases f, 0
  {
    var bs := ListOf(b, f.key);
    NamesMatch(f, uk, s, b, b, j, j);
    var t := DropIt(s, Sec(bs[j].body), id);
    it := Item(bs[j].id, t.body);
    NameKept(f, uk, s, Sec(bs[j].body), t);
    assert t == Sec(it.body);
  }

  /** An edit does not change the name. */
  lemma NameKept(f: Field, uk: string, s: Schema, b: Node, t: Node)
    requires f.kind == Many(uk, s) && GoodField(f) && Edited(s, b, t)
    ensures Get(t.body, uk) == Get(b.body, uk)
  {
    var i :| 0 <= i < |s.fields| && !s.fields[i].kind.Param? && s.fields[i].key in b.body
             && t.body == b.body[s.fields[i].key := t.body[s.fields[i].key]];
    assert s.fields[i].key != uk;
  }

  /** An object that is compared in one part and dropped in a later one is overlooked. */
  lemma {:induction false} AcrossFields(fs: seq<Field>, b: Node, t: Node, i: nat, j: nat, id: nat, marks: set<nat>)
    requires i < j < |fs| && Compared(id) in EventsOfField(fs[i], b, t) && Dropped(id) in EventsOfField(fs[j], b, t)
    ensures Overlooks(EventsOfFields(fs, b, t), marks)
    decreases |fs|
  {
    hide EventsOfField, Overlooks, MarksAfter;
    var es, gs := EventsOfField(fs[0], b, t), EventsOfFields(fs[1..], b, t);
    OneAfterTheOther(es, gs, marks);
    assert fs[j] == fs[1..][j - 1];
    if i == 0 {
      MarksGrow(es, marks, id);
      InFields(fs[1..], b, t, j - 1, Dropped(id));
      DroppedMarked(gs, MarksAfter(es, marks), id);
    } else {
      assert fs[i] == fs[1..][i - 1];
      AcrossFields(fs[1..], b, t, i - 1, j - 1, id, MarksAfter(es, marks));
    }
  }

  lemma {:induction false} InsideField(fs: seq<Field>, b: Node, t: Node, i: nat, marks: set<nat>)
    requires i < |fs| && Overlooks(EventsOfField(fs[i], b, t), {})
    ensures Overlooks(EventsOfFields(fs, b, t), marks)
    decreases |fs|
  {
    hide EventsOfField, Overlooks, MarksAfter;
    var es, gs := EventsOfField(fs[0], b, t), EventsOfFields(fs[1..], b, t);
    OneAfterTheOther(es, gs, marks);
    if i == 0 {
      OverlooksMore(es, {}, marks);
    } else {
      assert fs[i] == fs[1..][i - 1];
      InsideField(fs[1..], b, t, i - 1, MarksAfter(es, marks));
    }
  }

  /** If an object occurs twice, some accepted target makes the comparison overlook its removal. */
  lemma {:induction false} Overlooked(s: Schema, b: Node) returns (t: Node)
    requires GoodKeys(s) && Accepted(s, b) && !Unrepeated(s, b)
    ensures Accepted(s, t) && Overlooks(Events(s, b, t), {}) && Edited(s, b, t)
    decreases s, 1
  {
    if i :| 0 <= i < |s.fields| && !FieldUnrepeated(s.fields[i], b) {
      var f := s.fields[i];
      AcceptedField(s, b, i);
      assert GoodField(f);
      var v := OverlookedInField(f, b);
      t := With(b, f.key, v);
      EditAccepted(s, b, i, v);
      InsideField(s.fields, b, t, i, {});
    } else {
      t := DroppedAcross(s, b);
    }
  }

  lemma {:induction false} DroppedAcross(s: Schema, b: Node) returns (t: Node)
    requires GoodKeys(s) && Accepted(s, b)
    requires exists i, j :: 0 <= i < j < |s.fields| && !(FieldIds(s.fields[i], b) !! FieldIds(s.fields[j], b))
    ensures Accepted(s, t) && Overlooks(Events(s, b, t), {}) && Edited(s, b, t)
  {
    var i, j :| 0 <= i < j < |s.fields| && !(FieldIds(s.fields[i], b) !! FieldIds(s.fields[j], b));
    var f, g := s.fields[i], s.fields[j];
    var id :| id in FieldIds(f, b) && id in FieldIds(g, b);
    AcceptedField(s, b, i);
    AcceptedField(s, b, j);
    assert GoodField(g) && f.key != g.key;
    assert id in SectionIds(s, b);
    IdsNeedSection(s, b, id);
    var v := DropInField(g, b, id);
    t := With(b, g.key, v);
    EditAccepted(s, b, j, v);
    FieldCompared(f, b, id);
    SameEntry(f, b, t);
    AcrossFields(s.fields, b, t, i, j, id, {});
  }

  lemma {:induction false} OverlookedInField(f: Field, b: Node) returns (v: Node)
    requires GoodField(f) && AcceptedAt(f, b) && !FieldUnrepeated(f, b)
    ensures b.Sec? && f.key in b.body && AcceptedAt(f, With(b, f.key, v)) && !FieldOneSided(f, b, With(b, f.key, v))
    ensures Overlooks(EventsOfField(f, b, With(b, f.key, v)), {})
    decreases f, 1
  {
    match f.kind
    case Nested(s) =>
      v := Overlooked(s, Entry(b, f.key));
      assert Entry(With(b, f.key, v), f.key) == v;
    case Many(uk, s) =>
      var bs := ListOf(b, f.key);
      if j :| 0 <= j < |bs| && !Unrepeated(s, Sec(bs[j].body)) {
        NamesMatch(f, uk, s, b, b, j, j);
        var t := Overlooked(s, Sec(bs[j].body));
        var it := Item(bs[j].id, t.body);
        NameKept(f, uk, s, Sec(bs[j].body), t);
        assert t == Sec(it.body);
        v := Items([it]);
        OverlookedItem(f, uk, s, b, j, it);
      } else {
        var i, j :| 0 <= i < j < |bs| && !(ItemIds(f, s, bs[i]) !! ItemIds(f, s, bs[j]));
        var id :| id in ItemIds(f, s, bs[i]) && id in ItemIds(f, s, bs[j]);
        v := DroppedBeside(f, uk, s, b, i, j, id);
      }
  }

  lemma {:induction false} OverlookedItem(f: Field, uk: string, s: Schema, b: Node, j: nat, it: Item)
    requires f.kind == Many(uk, s) && AcceptedAt(f, b) && j < |ListOf(b, f.key)| && b.Sec?
    requires Accepted(s, Sec(it.body)) && Get(it.body, uk) == Get(ListOf(b, f.key)[j].body, uk)
    requires Overlooks(Events(s, Sec(ListOf(b, f.key)[j].body), Sec(it.body)), {})
    requires !OneSidedList(s, Sec(ListOf(b, f.key)[j].body), Sec(it.body))
    ensures AcceptedAt(f, With(b, f.key, Items([it]))) && !FieldOneSided(f, b, With(b, f.key, Items([it])))
    ensures Overlooks(EventsOfField(f, b, With(b, f.key, Items([it]))), {})
  {
    var bs, t := ListOf(b, f.key), With(b, f.key, Items([it]));
    assert ListOf(t, f.key) == [it];
    NamesMatch(f, uk, s, b, b, j, j);
    var es := Events(s, Sec(bs[j].body), Sec(it.body));
    assert [it][1..] == [];
    assert EventsOfItems(f, uk, s, bs, [it]) == es + [Compared(bs[j].id)] + [];
    hide Events, Overlooks, MarksAfter, EventsOfRest;
    OneAfterTheOther(es, [Compared(bs[j].id)], {});
    assert es + [Compared(bs[j].id)] + [] == es + [Compared(bs[j].id)];
    OneAfterTheOther(es + [Compared(bs[j].id)], EventsOfRest(uk, bs, [it], 0), {});
  }

  /** Two items share an object: keep the first and drop the object from the second. */
  lemma {:induction false} DroppedBeside(f: Field, uk: string, s: Schema, b: Node, i: nat, j: nat, id: nat)
    returns (v: Node)
    requires f.kind == Many(uk, s) && GoodField(f) && AcceptedAt(f, b) && i < j < |ListOf(b, f.key)|
    requires id in ItemIds(f, s, ListOf(b, f.key)[i]) && id in ItemIds(f, s, ListOf(b, f.key)[j])
    ensures b.Sec? && f.key in b.body && AcceptedAt(f, With(b, f.key, v)) && !FieldOneSided(f, b, With(b, f.key, v))
    ensures Overlooks(EventsOfField(f, b, With(b, f.key, v)), {})
    decreases f, 0
  {
    var bs := ListOf(b, f.key);
    NamesMatch(f, uk, s, b, b, i, i);
    NamesMatch(f, uk, s, b, b, j, j);
    ItemCompared(f, uk, s, b, i, bs[i], id);
    if id == bs[j].id {
      var ts := [bs[i]];
      v := Items(ts);
      ItemNotOneSided(f, uk, s, b, i);
      OthersDropped(f, uk, s, b, i, j, 0);
      KeptAndDropped(f, uk, s, bs, ts, id);
      assert ListOf(With(b, f.key, v), f.key) == ts;
    } else {
      var it := DropInItem(f, uk, s, b, j, id);
      var ts := [bs[i], it];
      v := Items(ts);
      ItemNotOneSided(f, uk, s, b, i);
      assert Get(bs[i].body, uk) != Get(it.body, uk);
      KeptThenDropped(f, uk, s, bs, ts, id);
      assert ListOf(With(b, f.key, v), f.key) == ts;
    }
  }

  lemma {:induction false} OthersDropped(f: Field, uk: string, s: Schema, b: Node, i: nat, j: nat, k: nat)
    requires f.kind == Many(uk, s) && AcceptedAt(f, b) && i < j < |ListOf(b, f.key)| && k <= j
    ensures Dropped(ListOf(b, f.key)[j].id) in EventsOfRest(uk, ListOf(b, f.key), [ListOf(b, f.key)[i]], k)
    decreases j - k
  {
    var bs := ListOf(b, f.key);
    if k < j {
      OthersDropped(f, uk, s, b, i, j, k + 1);
    } else {
      NamesMatch(f, uk, s, b, b, i, i);
      assert !Kept(bs, [bs[i]], uk, j);
    }
  }

  lemma KeptAndDropped(f: Field, uk: string, s: Schema, bs: seq<Item>, ts: seq<Item>, id: nat)
    requires f.kind == Many(uk, s) && ts != [] && Compared(id) in EventsOfItem(f, uk, s, bs, ts[0])
    requires Dropped(id) in EventsOfRest(uk, bs, ts, 0)
    ensures Overlooks(EventsOfItems(f, uk, s, bs, ts) + EventsOfRest(uk, bs, ts, 0), {})
  {
    InItemEvents(f, uk, s, bs, ts, 0, Compared(id));
    var es, gs := EventsOfItems(f, uk, s, bs, ts), EventsOfRest(uk, bs, ts, 0);
    hide EventsOfItems, EventsOfRest, Overlooks, MarksAfter;
    OneAfterTheOther(es, gs, {});
    MarksGrow(es, {}, id);
    DroppedMarked(gs, MarksAfter(es, {}), id);
  }

  lemma KeptThenDropped(f: Field, uk: string, s: Schema, bs: seq<Item>, ts: seq<Item>, id: nat)
    requires f.kind == Many(uk, s) && |ts| == 2 && Compared(id) in EventsOfItem(f, uk, s, bs, ts[0])
    requires Dropped(id) in EventsOfItem(f, uk, s, bs, ts[1])
    ensures Overlooks(EventsOfItems(f, uk, s, bs, ts) + EventsOfRest(uk, bs, ts, 0), {})
  {
    var es, gs := EventsOfItem(f, uk, s, bs, ts[0]), EventsOfItems(f, uk, s, bs, ts[1..]);
    InItemEvents(f, uk, s, bs, ts[1..], 0, Dropped(id));
    assert EventsOfItems(f, uk, s, bs, ts) == es + gs;
    hide EventsOfItem, EventsOfItems, EventsOfRest, Overlooks, MarksAfter;
    MarksGrow(es, {}, id);
    DroppedMarked(gs, MarksAfter(es, {}), id);
    OneAfterTheOther(es, gs, {});
    OneAfterTheOther(es + gs, EventsOfRest(uk, bs, ts, 0), {});
  }

  // ------------------------------------------------------------ the theorems

  /** For an accepted base: the comparison with every accepted target, if it returns, records exactly the intended changes
      if and only if no object occurs at two places of the base. */
  lemma {:induction false} NeverOverlooksIff(s: Schema, b: Node, path: Path)
    requires GoodKeys(s) && PopSafe(s.fields, path) && Accepted(s, b)
    ensures (forall t :: Accepted(s, t) && WalkSection(s, b, t, path, {}).Walked? ==>
                           WalkSection(s, b, t, path, {}).changes == Diff(s, b, t, path))
            <==> Unrepeated(s, b)
  {
    hide WalkSection, Diff, Accepted, Overlooks;
    if Unrepeated(s, b) {
      forall t | Accepted(s, t) && WalkSection(s, b, t, path, {}).Walked?
        ensures WalkSection(s, b, t, path, {}).changes == Diff(s, b, t, path)
      {
        AcceptedNames(s, t);
        UnsharedRecordsIntended(s, b, t, path);
      }
    } else {
      var t := Overlooked(s, b);
      EditedReturns(s, b, t, path);
      RecordsIntendedIff(s, b, t, path, {});
      assert Accepted(s, t) && WalkSection(s, b, t, path, {}).changes != Diff(s, b, t, path);
    }
  }

  lemma AcceptedNames(s: Schema, t: Node)
    requires Accepted(s, t)
    ensures UniqueNames(s, t)
  {
  }

  /** The comparison with an edited target returns. */
  lemma EditedReturns(s: Schema, b: Node, t: Node, path: Path)
    requires GoodKeys(s) && PopSafe(s.fields, path) && Accepted(s, b) && Accepted(s, t) && Edited(s, b, t)
    ensures WalkSection(s, b, t, path, {}).Walked?
  {
    GoodKeysDistinct(s);
    RaisesIffOneSidedList(s, b, t, path, {});
  }

  /** On a base in which no object occurs twice, and a target whose lists name no item twice, the traversal records exactly
      the intended changes. */
  lemma UnsharedRecordsIntended(s: Schema, b: Node, t: Node, path: Path)
    requires Unrepeated(s, b) && UniqueNames(s, t) && WalkSection(s, b, t, path, {}).Walked?
    ensures WalkSection(s, b, t, path, {}).changes == Diff(s, b, t, path)
  {
    SectionClean(s, b, t, {});
    RecordsIntendedIff(s, b, t, path, {});
  }
}

/** When the marks hide a removal: exactly when an object that was compared at one place is dropped at a later one. */
module Sharing {
  import opened Values
  import opened Schema
  import opened ConfigDiff
  import opened MarkedDiff

  /** What happens to the objects of base list items, in the order of the comparison: an item is compared with a target
      item, or no target item is compared with it. */
  datatype Event = Compared(id: nat) | Dropped(id: nat)

  function Events(s: Schema, b: Node, t: Node): seq<Event>
    decreases s, 1
  {
    EventsOfFields(s.fields, b, t)
  }

  function EventsOfFields(fs: seq<Field>, b: Node, t: Node): seq<Event>
    decreases fs, 0
  {
    if fs == [] then [] else EventsOfField(fs[0], b, t) + EventsOfFields(fs[1..], b, t)
  }

  function EventsOfField(f: Field, b: Node, t: Node): seq<Event>
    decreases f, 2
  {
    match f.kind
    case Param => []
    case Nested(s) =>
      if Traversed(f, Entry(b, f.key), Entry(t, f.key)) then Events(s, Entry(b, f.key), Entry(t, f.key)) else []
    case Many(uk, s) =>
      EventsOfItems(f, uk, s, ListOf(b, f.key), ListOf(t, f.key))
      + EventsOfRest(uk, ListOf(b, f.key), ListOf(t, f.key), 0)
  }

  function EventsOfItems(f: Field, uk: string, s: Schema, bs: seq<Item>, ts: seq<Item>): seq<Event>
    requires f.kind == Many(uk, s)
    decreases f, 1, |ts|
  {
    if ts == [] then [] else EventsOfItem(f, uk, s, bs, ts[0]) + EventsOfItems(f, uk, s, bs, ts[1..])
  }

  function EventsOfItem(f: Field, uk: string, s: Schema, bs: seq<Item>, t: Item): seq<Event>
    requires f.kind == Many(uk, s)
    decreases f, 0
  {
    var j := MatchOf(bs, uk, t);
    if j < |bs| then Events(s, Sec(bs[j].body), Sec(t.body)) + [Compared(bs[j].id)] else []
  }

  function EventsOfRest(uk: string, bs: seq<Item>, ts: seq<Item>, j: nat): seq<Event>
    requires j <= |bs|
    decreases |bs| - j
  {
    if j == |bs| then []
    else (if Kept(bs, ts, uk, j) then [] else [Dropped(bs[j].id)]) + EventsOfRest(uk, bs, ts, j + 1)
  }

  /** An object is dropped that was compared before, or was marked at the start. */
  predicate Overlooks(es: seq<Event>, marks: set<nat>) {
    es != [] &&
    match es[0]
    case Compared(id) => Overlooks(es[1..], marks + {id})
    case Dropped(id) => id in marks || Overlooks(es[1..], marks)
  }

  function MarksAfter(es: seq<Event>, marks: set<nat>): set<nat> {
    if es == [] then marks
    else if es[0].Compared? then MarksAfter(es[1..], marks + {es[0].id})
    else MarksAfter(es[1..], marks)
  }

  lemma {:induction false} OneAfterTheOther(es: seq<Event>, gs: seq<Event>, marks: set<nat>)
    ensures Overlooks(es + gs, marks) <==> Overlooks(es, marks) || Overlooks(gs, MarksAfter(es, marks))
    ensures MarksAfter(es + gs, marks) == MarksAfter(gs, MarksAfter(es, marks))
    decreases |es|
  {
    if es == [] {
      assert es + gs == gs;
    } else {
      assert (es + gs)[1..] == es[1..] + gs;
      OneAfterTheOther(es[1..], gs, if es[0].Compared? then marks + {es[0].id} else marks);
    }
  }

  /** In terms of the places: one event drops what an earlier one compared. */
  lemma {:induction false} OverlooksIff(es: seq<Event>, marks: set<nat>)
    ensures Overlooks(es, marks) <==>
            exists j :: 0 <= j < |es| && es[j].Dropped?
                        && (es[j].id in marks || exists i :: 0 <= i < j && es[i] == Compared(es[j].id))
    decreases |es|
  {
    if es != [] {
      var rest := es[1..];
      OverlooksIff(rest, if es[0].Compared? then marks + {es[0].id} else marks);
      assert forall j :: 0 <= j < |rest| ==> rest[j] == es[j + 1];
      if j :| 0 <= j < |es| && es[j].Dropped?
              && (es[j].id in marks || exists i :: 0 <= i < j && es[i] == Compared(es[j].id)) {
        if j > 0 {
          assert rest[j - 1] == es[j];
          if es[j].id !in marks {
            var i :| 0 <= i < j && es[i] == Compared(es[j].id);
            assert i > 0 ==> rest[i - 1] == Compared(rest[j - 1].id);
          }
        }
      }
      if Overlooks(rest, if es[0].Compared? then marks + {es[0].id} else marks) {
        OverlooksLater(es, marks);
      }
    }
  }

  lemma OverlooksLater(es: seq<Event>, marks: set<nat>)
    requires es != []
    requires var marks' := if es[0].Compared? then marks + {es[0].id} else marks;
             exists j :: 0 <= j < |es[1..]| && es[1..][j].Dropped?
                         && (es[1..][j].id in marks'
                             || exists i :: 0 <= i < j && es[1..][i] == Compared(es[1..][j].id))
    ensures exists j :: 0 <= j < |es| && es[j].Dropped?
                        && (es[j].id in marks || exists i :: 0 <= i < j && es[i] == Compared(es[j].id))
  {
    var marks' := if es[0].Compared? then marks + {es[0].id} else marks;
    var j :| 0 <= j < |es[1..]| && es[1..][j].Dropped?
             && (es[1..][j].id in marks' || exists i :: 0 <= i < j && es[1..][i] == Compared(es[1..][j].id));
    assert es[j + 1] == es[1..][j];
    if es[j + 1].id !in marks && es[0] != Compared(es[j + 1].id) {
      var i :| 0 <= i < j && es[1..][i] == Compared(es[1..][j].id);
      assert es[i + 1] == Compared(es[j + 1].id);
    }
  }

  // ------------------------------------------------------------ the exact condition

  /** The traversal marked what the events compared, and recorded the intended changes exactly if no event overlooks. */
  ghost predicate Exact(w: Walk, intended: seq<Change>, es: seq<Event>, marks: set<nat>) {
    w.Walked? ==>
      && w.marks == MarksAfter(es, marks)
      && (w.changes == intended <==> !Overlooks(es, marks))
      && |w.changes| <= |intended|
      && (|w.changes| == |intended| ==> w.changes == intended)
  }

  /** Two traversals one after the other. */
  lemma ExactTogether(v: Walk, w: Walk, cs: seq<Change>, ds: seq<Change>, es: seq<Event>, gs: seq<Event>, marks: set<nat>)
    requires v.Walked? && Exact(v, cs, es, marks) && Exact(w, ds, gs, v.marks)
    ensures Exact(w.After(v.changes), cs + ds, es + gs, marks)
  {
    hide Overlooks, MarksAfter;
    OneAfterTheOther(es, gs, marks);
    if w.Walked? && v.changes + w.changes == cs + ds {
      assert |v.changes + w.changes| == |v.changes| + |w.changes| && |cs + ds| == |cs| + |ds|;
    }
  }

  lemma NothingExact(cs: seq<Change>, marks: set<nat>)
    ensures Exact(Walked(cs, marks), cs, [], marks)
  {
  }

  /** Whatever configurations are compared: a traversal that returns records exactly the intended changes if and only if
      no object is dropped after it was compared or marked. */
  lemma {:induction false} RecordsIntendedIff(s: Schema, b: Node, t: Node, path: Path, marks: set<nat>)
    ensures Exact(WalkSection(s, b, t, path, marks), Diff(s, b, t, path), Events(s, b, t), marks)
    decreases s, 1
  {
    FieldsExact(s.fields, b, t, path, FinalPath(s.fields, b, t, path), marks);
  }

  lemma {:induction false} FieldsExact(fs: seq<Field>, b: Node, t: Node, cur: Path, fin: Path, marks: set<nat>)
    ensures Exact(WalkFields(fs, b, t, cur, fin, marks), DiffFields(fs, b, t, cur, fin), EventsOfFields(fs, b, t), marks)
    decreases fs, 0
  {
    hide Exact, WalkField, DiffField, EventsOfField;
    if fs == [] {
      NothingExact([], marks);
    } else {
      FieldExact(fs[0], b, t, cur, fin, marks);
      var v, cur' := WalkField(fs[0], b, t, cur, fin, marks), Step(fs[0], b, t, cur);
      if v.Walked? {
        FieldsExact(fs[1..], b, t, cur', fin, v.marks);
        ExactTogether(v, WalkFields(fs[1..], b, t, cur', fin, v.marks), DiffField(fs[0], b, t, cur, fin),
                      DiffFields(fs[1..], b, t, cur', fin), EventsOfField(fs[0], b, t), EventsOfFields(fs[1..], b, t),
                      marks);
      } else {
        RaisedExact(DiffFields(fs, b, t, cur, fin), EventsOfFields(fs, b, t), marks);
      }
    }
  }

  lemma RaisedExact(cs: seq<Change>, es: seq<Event>, marks: set<nat>)
    ensures Exact(Raised, cs, es, marks)
  {
  }

  lemma {:induction false} FieldExact(f: Field, b: Node, t: Node, cur: Path, fin: Path, marks: set<nat>)
    ensures Exact(WalkField(f, b, t, cur, fin, marks), DiffField(f, b, t, cur, fin), EventsOfField(f, b, t), marks)
    decreases f, 3
  {
    match f.kind
    case Param =>
    case Nested(s) =>
      RecordsIntendedIff(s, Entry(b, f.key), Entry(t, f.key), cur + [f.key], marks);
    case Many(uk, s) =>
      ListExact(f, uk, s, b, t, cur, fin, marks);
  }

  lemma {:induction false} ListExact(f: Field, uk: string, s: Schema, b: Node, t: Node, cur: Path, fin: Path,
                                     marks: set<nat>)
    requires f.kind == Many(uk, s)
    ensures Exact(WalkMany(f, uk, s, b, t, cur, fin, marks), DiffField(f, b, t, cur, fin), EventsOfField(f, b, t), marks)
    decreases f, 2
  {
    var bs, ts := ListOf(b, f.key), ListOf(t, f.key);
    var cs, ds := DiffItems(f, uk, s, bs, ts, cur, fin), DiffRemoved(f, uk, bs, ts, 0, fin);
    var es, gs := EventsOfItems(f, uk, s, bs, ts), EventsOfRest(uk, bs, ts, 0);
    assert DiffField(f, b, t, cur, fin) == cs + ds && EventsOfField(f, b, t) == es + gs;
    var v := WalkItems(f, uk, s, bs, ts, cur, fin, marks);
    hide Exact, WalkItems, WalkRemoved, DiffItems, DiffRemoved, EventsOfItems, EventsOfRest, DiffField, EventsOfField;
    if ListsRaise(b, t, f.key) || v.Raised? {
      RaisedExact(cs + ds, es + gs, marks);
    } else {
      ItemsExact(f, uk, s, bs, ts, cur, fin, marks);
      ItemsLackOnlyRemovals(f, uk, s, bs, ts, cur, fin, marks);
      RestExact(f, uk, bs, ts, 0, fin, v.marks);
      ExactTogether(v, WalkRemoved(f, bs, 0, fin, v.marks), cs, ds, es, gs, marks);
    }
  }

  lemma {:induction false} ItemsExact(f: Field, uk: string, s: Schema, bs: seq<Item>, ts: seq<Item>, cur: Path, fin: Path,
                                      marks: set<nat>)
    requires f.kind == Many(uk, s)
    ensures Exact(WalkItems(f, uk, s, bs, ts, cur, fin, marks), DiffItems(f, uk, s, bs, ts, cur, fin),
                  EventsOfItems(f, uk, s, bs, ts), marks)
    decreases f, 1, |ts|
  {
    hide Exact, WalkItem, DiffItem, EventsOfItem;
    if ts == [] {
      NothingExact([], marks);
    } else {
      var v, rest := WalkItem(f, uk, s, bs, ts[0], cur, fin, marks), ts[1..];
      ItemExact(f, uk, s, bs, ts[0], cur, fin, marks);
      if v.Walked? {
        ItemsExact(f, uk, s, bs, rest, cur, fin, v.marks);
        ExactTogether(v, WalkItems(f, uk, s, bs, rest, cur, fin, v.marks), DiffItem(f, uk, s, bs, ts[0], cur, fin),
                      DiffItems(f, uk, s, bs, rest, cur, fin), EventsOfItem(f, uk, s, bs, ts[0]),
                      EventsOfItems(f, uk, s, bs, rest), marks);
      } else {
        RaisedExact(DiffItems(f, uk, s, bs, ts, cur, fin), EventsOfItems(f, uk, s, bs, ts), marks);
      }
    }
  }

  lemma {:induction false} ItemExact(f: Field, uk: string, s: Schema, bs: seq<Item>, t: Item, cur: Path, fin: Path,
                                     marks: set<nat>)
    requires f.kind == Many(uk, s)
    ensures Exact(WalkItem(f, uk, s, bs, t, cur, fin, marks), DiffItem(f, uk, s, bs, t, cur, fin),
                  EventsOfItem(f, uk, s, bs, t), marks)
    decreases f, 0
  {
    var j := MatchOf(bs, uk, t);
    if j < |bs| {
      var (b, path) := (Sec(bs[j].body), cur + [Segment(f.key, Get(t.body, uk))]);
      RecordsIntendedIff(s, b, Sec(t.body), path, marks);
      hide WalkSection, Diff, Events;
      OneAfterTheOther(Events(s, b, Sec(t.body)), [Compared(bs[j].id)], marks);
      JustCompared(bs[j].id, MarksAfter(Events(s, b, Sec(t.body)), marks));
    }
  }

  lemma JustCompared(id: nat, marks: set<nat>)
    ensures !Overlooks([Compared(id)], marks) && MarksAfter([Compared(id)], marks) == marks + {id}
  {
    assert [Compared(id)][1..] == [];
  }

  lemma {:induction false} RestExact(f: Field, uk: string, bs: seq<Item>, ts: seq<Item>, j: nat, fin: Path,
                                     marks: set<nat>)
    requires j <= |bs|
    requires forall k :: 0 <= k < |bs| && Kept(bs, ts, uk, k) ==> bs[k].id in marks
    ensures Exact(WalkRemoved(f, bs, j, fin, marks), DiffRemoved(f, uk, bs, ts, j, fin), EventsOfRest(uk, bs, ts, j), marks)
    decreases |bs| - j
  {
    if j == |bs| {
      NothingExact([], marks);
    } else {
      RestExact(f, uk, bs, ts, j + 1, fin, marks);
      OneRestExact(f, uk, bs, ts, j, fin, marks);
      var here := if bs[j].id !in marks then [RemovedItem(fin, f, bs[j])] else [];
      hide Exact, Kept;
      ExactTogether(Walked(here, marks), WalkRemoved(f, bs, j + 1, fin, marks),
                    if Kept(bs, ts, uk, j) then [] else [RemovedItem(fin, f, bs[j])],
                    DiffRemoved(f, uk, bs, ts, j + 1, fin),
                    if Kept(bs, ts, uk, j) then [] else [Dropped(bs[j].id)], EventsOfRest(uk, bs, ts, j + 1), marks);
    }
  }

  lemma OneRestExact(f: Field, uk: string, bs: seq<Item>, ts: seq<Item>, j: nat, fin: Path, marks: set<nat>)
    requires j < |bs| && (Kept(bs, ts, uk, j) ==> bs[j].id in marks)
    ensures Exact(Walked(if bs[j].id !in marks then [RemovedItem(fin, f, bs[j])] else [], marks),
                  if Kept(bs, ts, uk, j) then [] else [RemovedItem(fin, f, bs[j])],
                  if Kept(bs, ts, uk, j) then [] else [Dropped(bs[j].id)], marks)
  {
    assert [Dropped(bs[j].id)][1..] == [];
  }
}

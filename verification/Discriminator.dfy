/** Finding the class that a discriminator value stands for: a depth-first search over a class graph that may have
    cycles, with one list of visited classes that all calls append to. */
module Discriminator {
  import opened Values

  type ClassId = nat

  /** A model class: its discriminator, if it has one, maps a property name to a mapping from values to classes. */
  datatype Model =
    Model(discriminator: Option<map<string, map<string, ClassId>>>, oneOf: seq<ClassId>, anyOf: seq<ClassId>,
          allOf: seq<ClassId>)

  /** The known model classes; other ids stand for types without a `discriminator` attribute. */
  type Graph = map<ClassId, Model>

  predicate Searchable(g: Graph, c: ClassId) { c in g && g[c].discriminator.Some? }

  function Possible(g: Graph, c: ClassId): seq<ClassId>
    requires c in g
  {
    g[c].oneOf + g[c].anyOf + g[c].allOf
  }

  /** What the discriminator of the class itself says about the value. */
  function Mapped(g: Graph, c: ClassId, name: string, value: string): Option<ClassId>
    requires Searchable(g, c)
  {
    var mappings := g[c].discriminator.value;
    if name in mappings && value in mappings[name] then Some(mappings[name][value]) else None
  }

  function Unvisited(g: Graph, visited: seq<ClassId>): set<ClassId> { set c | c in g && c !in visited }

  lemma FewerUnvisited(g: Graph, v: seq<ClassId>, w: seq<ClassId>)
    requires v <= w
    ensures |Unvisited(g, w)| <= |Unvisited(g, v)|
    ensures forall c :: c in g && c in w && c !in v ==> |Unvisited(g, w)| < |Unvisited(g, v)|
  {
    SubsetSize(Unvisited(g, w), Unvisited(g, v));
    forall c | c in g && c in w && c !in v
      ensures |Unvisited(g, w)| < |Unvisited(g, v)|
    {
      SubsetSize(Unvisited(g, w), Unvisited(g, v) - {c});
    }
  }

  lemma {:induction false} SubsetSize<T>(a: set<T>, b: set<T>)
    requires a <= b
    ensures |a| <= |b|
    decreases a
  {
    if a != {} {
      var x :| x in a;
      SubsetSize(a - {x}, b - {x});
    }
  }

  /** `get_discriminator_class`: the class found, and the visited list afterwards. */
  function Search(g: Graph, c: ClassId, name: string, value: string, visited: seq<ClassId>)
    : (found: (Option<ClassId>, seq<ClassId>))
    requires Searchable(g, c)
    ensures visited <= found.1
    decreases |Unvisited(g, visited)|, 1, 0
  {
    if c in visited then (None, visited)
    else if Mapped(g, c, name, value).Some? then (Mapped(g, c, name, value), visited + [c])
    else
      assert (visited + [c])[|visited|] == c;
      FewerUnvisited(g, visited, visited + [c]);
      SearchAny(g, Possible(g, c), name, value, visited + [c])
  }

  /** The loop over the possible classes: the first class found by any of them. */
  function SearchAny(g: Graph, cs: seq<ClassId>, name: string, value: string, visited: seq<ClassId>)
    : (found: (Option<ClassId>, seq<ClassId>))
    ensures visited <= found.1
    decreases |Unvisited(g, visited)|, 2, |cs|
  {
    if cs == [] then (None, visited)
    else if !Searchable(g, cs[0]) then SearchAny(g, cs[1..], name, value, visited)
    else
      var (first, visited') := Search(g, cs[0], name, value, visited);
      if first.Some? then (first, visited')
      else
        FewerUnvisited(g, visited, visited');
        SearchAny(g, cs[1..], name, value, visited')
  }

  // ------------------------------------------------------------ what the search finds

  /** One step of a way: the second class is an alternative or an ancestor of the first. */
  predicate Follows(g: Graph, c: ClassId, d: ClassId) {
    c in g && (d in g[c].oneOf || d in g[c].anyOf || d in g[c].allOf)
  }

  /** The discriminator of the class says which class the value stands for. */
  predicate Names(g: Graph, c: ClassId, name: string, value: string, used: ClassId) {
    && c in g && g[c].discriminator.Some?
    && var mappings := g[c].discriminator.value;
       name in mappings && value in mappings[name] && mappings[name][value] == used
  }

  /** A way from class to class through classes that have a discriminator and are not in the list. */
  ghost predicate FreshPath(g: Graph, path: seq<ClassId>, visited: seq<ClassId>) {
    && path != []
    && (forall i :: 0 <= i < |path| ==> path[i] in g && g[path[i]].discriminator.Some? && path[i] !in visited)
    && (forall i :: 0 <= i < |path| - 1 ==> Follows(g, path[i], path[i + 1]))
  }

  /** The class at the end of a fresh path from `c` names `used`. */
  ghost predicate LeadsTo(g: Graph, c: ClassId, name: string, value: string, visited: seq<ClassId>, path: seq<ClassId>,
                          used: ClassId)
  {
    FreshPath(g, path, visited) && path[0] == c && Names(g, path[|path| - 1], name, value, used)
  }

  /** The fields of the class hold exactly the classes that follow it. */
  lemma PossibleFollows(g: Graph, c: ClassId)
    requires c in g
    ensures forall d: ClassId :: d in Possible(g, c) <==> Follows(g, c, d)
  {
  }

  lemma MappedNames(g: Graph, c: ClassId, name: string, value: string)
    requires Searchable(g, c)
    ensures forall used: ClassId :: Names(g, c, name, value, used) <==> Mapped(g, c, name, value) == Some(used)
  {
  }

  /** Classes visited by a search that found nothing map nothing, and all their possible classes were visited. */
  ghost predicate Exhausted(g: Graph, name: string, value: string, before: seq<ClassId>, after: seq<ClassId>) {
    forall c :: c in after && c !in before ==>
      && Searchable(g, c) && Mapped(g, c, name, value).None?
      && forall d :: d in Possible(g, c) && Searchable(g, d) ==> d in after
  }

  lemma {:induction false} NothingFoundExhausts(g: Graph, c: ClassId, name: string, value: string, visited: seq<ClassId>)
    requires Searchable(g, c) && Search(g, c, name, value, visited).0.None?
    ensures c in Search(g, c, name, value, visited).1
    ensures Exhausted(g, name, value, visited, Search(g, c, name, value, visited).1)
    decreases |Unvisited(g, visited)|, 1, 0
  {
    if c !in visited {
      assert (visited + [c])[|visited|] == c;
      FewerUnvisited(g, visited, visited + [c]);
      NothingFoundInAny(g, Possible(g, c), name, value, visited + [c]);
    }
  }

  lemma {:induction false} NothingFoundInAny(g: Graph, cs: seq<ClassId>, name: string, value: string,
                                             visited: seq<ClassId>)
    requires SearchAny(g, cs, name, value, visited).0.None?
    ensures forall i :: 0 <= i < |cs| && Searchable(g, cs[i]) ==> cs[i] in SearchAny(g, cs, name, value, visited).1
    ensures Exhausted(g, name, value, visited, SearchAny(g, cs, name, value, visited).1)
    decreases |Unvisited(g, visited)|, 2, |cs|
  {
    if cs != [] {
      var visited' := visited;
      if Searchable(g, cs[0]) {
        NothingFoundExhausts(g, cs[0], name, value, visited);
        visited' := Search(g, cs[0], name, value, visited).1;
        FewerUnvisited(g, visited, visited');
      }
      NothingFoundInAny(g, cs[1..], name, value, visited');
      assert forall i :: 0 < i < |cs| ==> cs[i] == cs[1..][i - 1];
    }
  }

  lemma {:induction false} FoundIsMapped(g: Graph, c: ClassId, name: string, value: string, visited: seq<ClassId>)
    returns (path: seq<ClassId>)
    requires Searchable(g, c) && Search(g, c, name, value, visited).0.Some?
    ensures LeadsTo(g, c, name, value, visited, path, Search(g, c, name, value, visited).0.value)
    decreases |Unvisited(g, visited)|, 1, 0
  {
    MappedNames(g, c, name, value);
    PossibleFollows(g, c);
    if Mapped(g, c, name, value).Some? {
      path := [c];
    } else {
      assert (visited + [c])[|visited|] == c;
      FewerUnvisited(g, visited, visited + [c]);
      path := FoundInAny(g, Possible(g, c), name, value, visited + [c]);
      assert forall i :: 0 < i < |[c] + path| ==> ([c] + path)[i] == path[i - 1];
      path := [c] + path;
    }
  }

  lemma {:induction false} FoundInAny(g: Graph, cs: seq<ClassId>, name: string, value: string, visited: seq<ClassId>)
    returns (path: seq<ClassId>)
    requires SearchAny(g, cs, name, value, visited).0.Some?
    ensures path != [] && path[0] in cs
    ensures LeadsTo(g, path[0], name, value, visited, path, SearchAny(g, cs, name, value, visited).0.value)
    decreases |Unvisited(g, visited)|, 2, |cs|
  {
    if !Searchable(g, cs[0]) {
      path := FoundInAny(g, cs[1..], name, value, visited);
    } else if Search(g, cs[0], name, value, visited).0.Some? {
      path := FoundIsMapped(g, cs[0], name, value, visited);
    } else {
      var visited' := Search(g, cs[0], name, value, visited).1;
      FewerUnvisited(g, visited, visited');
      path := FoundInAny(g, cs[1..], name, value, visited');
    }
  }

  /** Every class on a fresh path from a searched class is visited by a search that finds nothing. */
  lemma {:induction false} FreshPathVisited(g: Graph, name: string, value: string, before: seq<ClassId>,
                                            after: seq<ClassId>, path: seq<ClassId>, n: nat)
    requires Exhausted(g, name, value, before, after) && FreshPath(g, path, before) && path[0] in after
    requires n < |path|
    ensures path[n] in after
    decreases n
  {
    if n > 0 {
      FreshPathVisited(g, name, value, before, after, path, n - 1);
      assert Follows(g, path[n - 1], path[n - 1 + 1]);
      PossibleFollows(g, path[n - 1]);
    }
  }

  /** The search finds a class if and only if some way through unvisited classes leads to one that names a class for the
      value, and what it returns is named by such a class; the shared visited list hides nothing. */
  lemma {:induction false} FindsIffReachable(g: Graph, c: ClassId, name: string, value: string, visited: seq<ClassId>)
    requires Searchable(g, c)
    ensures var found := Search(g, c, name, value, visited).0;
            && (found.Some? <==> exists path, used :: LeadsTo(g, c, name, value, visited, path, used))
            && (found.Some? ==> exists path :: LeadsTo(g, c, name, value, visited, path, found.value))
  {
    if Search(g, c, name, value, visited).0.Some? {
      var path := FoundIsMapped(g, c, name, value, visited);
    } else {
      NothingFoundExhausts(g, c, name, value, visited);
      var after := Search(g, c, name, value, visited).1;
      forall path, used
        ensures !LeadsTo(g, c, name, value, visited, path, used)
      {
        if FreshPath(g, path, visited) && path[0] == c {
          FreshPathVisited(g, name, value, visited, after, path, |path| - 1);
          MappedNames(g, path[|path| - 1], name, value);
        }
      }
    }
  }

  // ------------------------------------------------------------ which of several it finds

  /** Some way from the class that avoids the list leads to a class that names one. */
  ghost predicate Leads(g: Graph, c: ClassId, name: string, value: string, visited: seq<ClassId>) {
    exists path, used :: LeadsTo(g, c, name, value, visited, path, used)
  }

  /** What `w` has beyond `v` is of no use: these classes name nothing and lead nowhere else. */
  ghost predicate Useless(g: Graph, name: string, value: string, v: seq<ClassId>, w: seq<ClassId>) {
    (forall c :: c in v ==> c in w) && Exhausted(g, name, value, v, w)
  }

  /** Useless classes in the list make no difference to what is found. */
  lemma {:induction false} SameFound(g: Graph, c: ClassId, name: string, value: string, v: seq<ClassId>, w: seq<ClassId>)
    requires Searchable(g, c) && Useless(g, name, value, v, w)
    ensures Search(g, c, name, value, v).0 == Search(g, c, name, value, w).0
    ensures Search(g, c, name, value, v).0.None? ==>
              Useless(g, name, value, Search(g, c, name, value, v).1, Search(g, c, name, value, w).1)
    decreases |Unvisited(g, v)|, 1, 0
  {
    if c !in v {
      assert (v + [c])[|v|] == c;
      FewerUnvisited(g, v, v + [c]);
      var w' := if c in w then w else w + [c];
      assert c in w';
      SameFoundInAny(g, Possible(g, c), name, value, v + [c], w');
      if c in w {
        AllVisited(g, Possible(g, c), name, value, w);
      }
    }
  }

  lemma {:induction false} AllVisited(g: Graph, cs: seq<ClassId>, name: string, value: string, w: seq<ClassId>)
    requires forall i :: 0 <= i < |cs| && Searchable(g, cs[i]) ==> cs[i] in w
    ensures SearchAny(g, cs, name, value, w) == (None, w)
    decreases |cs|
  {
    if cs != [] {
      AllVisited(g, cs[1..], name, value, w);
    }
  }

  lemma {:induction false} SameFoundInAny(g: Graph, cs: seq<ClassId>, name: string, value: string, v: seq<ClassId>,
                                          w: seq<ClassId>)
    requires Useless(g, name, value, v, w)
    ensures SearchAny(g, cs, name, value, v).0 == SearchAny(g, cs, name, value, w).0
    ensures SearchAny(g, cs, name, value, v).0.None? ==>
              Useless(g, name, value, SearchAny(g, cs, name, value, v).1, SearchAny(g, cs, name, value, w).1)
    decreases |Unvisited(g, v)|, 2, |cs|
  {
    if cs != [] {
      if !Searchable(g, cs[0]) {
        SameFoundInAny(g, cs[1..], name, value, v, w);
      } else {
        SameFound(g, cs[0], name, value, v, w);
        var v' := Search(g, cs[0], name, value, v).1;
        FewerUnvisited(g, v, v');
        if Search(g, cs[0], name, value, v).0.None? {
          SameFoundInAny(g, cs[1..], name, value, v', Search(g, cs[0], name, value, w).1);
        }
      }
    }
  }

  /** The classes that follow a class, in the order in which they are tried: `oneOf`, `anyOf`, `allOf`. */
  function Next(m: Model, i: nat): ClassId
    requires i < |m.oneOf| + |m.anyOf| + |m.allOf|
  {
    if i < |m.oneOf| then m.oneOf[i]
    else if i < |m.oneOf| + |m.anyOf| then m.anyOf[i - |m.oneOf|]
    else m.allOf[i - |m.oneOf| - |m.anyOf|]
  }

  function Degree(m: Model): nat { |m.oneOf| + |m.anyOf| + |m.allOf| }

  /** A following class that has a discriminator and leads somewhere. */
  ghost predicate Promising(g: Graph, c: ClassId, i: nat, name: string, value: string, visited: seq<ClassId>)
    requires c in g && i < Degree(g[c])
  {
    Searchable(g, Next(g[c], i)) && Leads(g, Next(g[c], i), name, value, visited)
  }

  ghost predicate FirstPromising(g: Graph, c: ClassId, i: nat, name: string, value: string, visited: seq<ClassId>) {
    && c in g && i < Degree(g[c]) && Promising(g, c, i, name, value, visited)
    && forall j: nat :: j < i ==> !Promising(g, c, j, name, value, visited)
  }

  ghost predicate NamesNone(g: Graph, c: ClassId, name: string, value: string) {
    forall used: ClassId :: !Names(g, c, name, value, used)
  }

  /** Which class is found: none for a visited class; what the class names itself, if it names one; and else what is found
      from the first class that follows it and leads somewhere, by a search that knows nothing of the ones tried before. */
  lemma {:induction false} FindsFirst(g: Graph, c: ClassId, name: string, value: string, visited: seq<ClassId>)
    requires Searchable(g, c)
    ensures c in visited ==> Search(g, c, name, value, visited).0.None?
    ensures forall used: ClassId :: c !in visited && Names(g, c, name, value, used) ==>
                                      Search(g, c, name, value, visited).0 == Some(used)
    ensures forall i: nat ::
              c !in visited && NamesNone(g, c, name, value) && FirstPromising(g, c, i, name, value, visited + [c]) ==>
                Search(g, c, name, value, visited).0 == Search(g, Next(g[c], i), name, value, visited + [c]).0
  {
    MappedNames(g, c, name, value);
    if c !in visited && Mapped(g, c, name, value).None? {
      var cs := Possible(g, c);
      assert |cs| == Degree(g[c]) && forall i :: 0 <= i < |cs| ==> cs[i] == Next(g[c], i);
      hide Search, SearchAny, Leads, Possible, Next;
      assert Search(g, c, name, value, visited).0 == SearchAny(g, cs, name, value, visited + [c]).0 by {
        SearchesAny(g, c, name, value, visited);
      }
      forall i: nat | FirstPromising(g, c, i, name, value, visited + [c])
        ensures SearchAny(g, cs, name, value, visited + [c]).0 == Search(g, cs[i], name, value, visited + [c]).0
      {
        UselessItself(g, name, value, visited + [c]);
        forall j | 0 <= j < i && Searchable(g, cs[j])
          ensures !Leads(g, cs[j], name, value, visited + [c])
        {
          assert !Promising(g, c, j, name, value, visited + [c]);
        }
        FirstLeads(g, cs, name, value, visited + [c], visited + [c], i);
      }
    }
  }

  lemma SearchesAny(g: Graph, c: ClassId, name: string, value: string, visited: seq<ClassId>)
    requires Searchable(g, c) && c !in visited && Mapped(g, c, name, value).None?
    ensures Search(g, c, name, value, visited) == SearchAny(g, Possible(g, c), name, value, visited + [c])
  {
  }

  lemma UselessItself(g: Graph, name: string, value: string, v: seq<ClassId>)
    ensures Useless(g, name, value, v, v)
  {
  }

  /** Going through classes that lead nowhere, the list gets longer by useless classes. */
  lemma {:induction false} FirstLeads(g: Graph, cs: seq<ClassId>, name: string, value: string, v: seq<ClassId>,
                                      w: seq<ClassId>, i: nat)
    requires i < |cs| && Searchable(g, cs[i]) && Leads(g, cs[i], name, value, v) && Useless(g, name, value, v, w)
    requires forall j :: 0 <= j < i && Searchable(g, cs[j]) ==> !Leads(g, cs[j], name, value, v)
    ensures SearchAny(g, cs, name, value, w).0 == Search(g, cs[i], name, value, v).0
    decreases i
  {
    hide Leads, Useless;
    if i == 0 {
      SameFound(g, cs[0], name, value, v, w);
      FindsIfLeads(g, cs[0], name, value, v);
    } else {
      assert cs[1..][i - 1] == cs[i] && forall j :: 0 <= j < i - 1 ==> cs[1..][j] == cs[j + 1];
      if Searchable(g, cs[0]) {
        FindsIfLeads(g, cs[0], name, value, v);
        SameFound(g, cs[0], name, value, v, w);
        var w' := Search(g, cs[0], name, value, w).1;
        NothingFoundExhausts(g, cs[0], name, value, w);
        UselessLonger(g, name, value, v, w, w');
        FirstLeads(g, cs[1..], name, value, v, w', i - 1);
      } else {
        FirstLeads(g, cs[1..], name, value, v, w, i - 1);
      }
    }
  }

  lemma FindsIfLeads(g: Graph, c: ClassId, name: string, value: string, visited: seq<ClassId>)
    requires Searchable(g, c)
    ensures Search(g, c, name, value, visited).0.Some? <==> Leads(g, c, name, value, visited)
  {
    FindsIffReachable(g, c, name, value, visited);
  }

  lemma UselessLonger(g: Graph, name: string, value: string, v: seq<ClassId>, w: seq<ClassId>, w': seq<ClassId>)
    requires Useless(g, name, value, v, w) && w <= w' && Exhausted(g, name, value, w, w')
    ensures Useless(g, name, value, v, w')
  {
  }

  // ------------------------------------------------------------ the recursion as it runs

  /** The list that all calls share. */
  class VisitedList {
    var classes: seq<ClassId>

    constructor ()
      ensures classes == []
    {
      classes := [];
    }
  }

  /** `get_discriminator_class`. Its callers pass classes that have a discriminator. */
  method GetDiscriminatorClass(g: Graph, modelClass: ClassId, name: string, value: string, visited: VisitedList)
    returns (used: Option<ClassId>)
    requires Searchable(g, modelClass)
    modifies visited
    ensures (used, visited.classes) == Search(g, modelClass, name, value, old(visited.classes))
    decreases |Unvisited(g, visited.classes)|
  {
    if modelClass in visited.classes {
      return None;
    }
    ghost var before := visited.classes;
    visited.classes := visited.classes + [modelClass];
    assert visited.classes[|before|] == modelClass;
    used := None;
    var mappings := g[modelClass].discriminator.value;
    if name in mappings && value in mappings[name] {
      used := Some(mappings[name][value]);
    }
    if used == None {
      var possible := Possible(g, modelClass);
      ghost var total := SearchAny(g, possible, name, value, visited.classes);
      assert possible[0..] == possible;
      for i := 0 to |possible|
        invariant before + [modelClass] <= visited.classes
        invariant total == SearchAny(g, possible[i..], name, value, visited.classes)
        invariant used == None
      {
        assert possible[i..][0] == possible[i] && possible[i..][1..] == possible[i + 1..];
        if Searchable(g, possible[i]) {
          FewerUnvisited(g, before, visited.classes);
          used := GetDiscriminatorClass(g, possible[i], name, value, visited);
          if used != None {
            return;
          }
        }
      }
    }
  }

  /** A lookup with a new list finds what any way through the class graph leads to. */
  method Resolve(g: Graph, modelClass: ClassId, name: string, value: string) returns (used: Option<ClassId>)
    requires Searchable(g, modelClass)
    ensures used.Some? <==> exists path, found :: LeadsTo(g, modelClass, name, value, [], path, found)
    ensures used.Some? ==> exists path :: LeadsTo(g, modelClass, name, value, [], path, used.value)
  {
    var visited := new VisitedList();
    used := GetDiscriminatorClass(g, modelClass, name, value, visited);
    FindsIffReachable(g, modelClass, name, value, []);
  }
}

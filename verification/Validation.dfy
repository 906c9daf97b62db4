/** Validating a resource and everything below it: nested resources first, then the resource's own validators; the results
    of asynchronous validators are awaited at the top. */
module Validation {
  import opened Values

  datatype Level = INFO | WARNING | ERROR

  /** A reported failure, with the type of the validator that reports it. */
  datatype Failure = Failure(message: string, level: Level, validator: string)

  /** What running a validator does. */
  datatype Outcome = Reports(failures: seq<Failure>) | Raises(message: string)

  /** A registered validator with its arguments. */
  datatype Validator = Validator(kind: string, isAsync: bool, outcome: Outcome)

  datatype Suppressor = AllValidators | Types(kinds: set<string>)

  predicate Suppressed(v: Validator, suppressors: seq<Suppressor>) {
    exists i :: 0 <= i < |suppressors| && (suppressors[i].AllValidators? || v.kind in suppressors[i].kinds)
  }

  /** What a synchronous validator adds to the failures: an exception becomes an error. */
  function SyncFailures(v: Validator): seq<Failure> {
    match v.outcome
    case Reports(failures) => failures
    case Raises(message) => [Failure(message, ERROR, v.kind)]
  }

  /** The failures of the synchronous validators in a list, in order. */
  function SyncOf(vs: seq<Validator>, suppressors: seq<Suppressor>): seq<Failure> {
    if vs == [] then []
    else (if vs[0].isAsync || Suppressed(vs[0], suppressors) then [] else SyncFailures(vs[0]))
         + SyncOf(vs[1..], suppressors)
  }

  /** The asynchronous validators that are started, in order. */
  function AsyncOf(vs: seq<Validator>, suppressors: seq<Suppressor>): seq<Validator> {
    if vs == [] then []
    else (if vs[0].isAsync && !Suppressed(vs[0], suppressors) then [vs[0]] else []) + AsyncOf(vs[1..], suppressors)
  }

  /** The results of the awaited validators; nothing when one of them raises. */
  function Awaited(futures: seq<Validator>): Option<seq<Failure>> {
    if futures == [] then Some([])
    else if futures[0].outcome.Raises? then None
    else
      match Awaited(futures[1..])
      case None => None
      case Some(rest) => Some(futures[0].outcome.failures + rest)
  }

  predicate EndsWith(vs: seq<Validator>, last: seq<Validator>) {
    |last| <= |vs| && vs[|vs| - |last|..] == last
  }

  /** A resource: the resources it holds, and what validation collects. Nothing below a resource leads back to it, but
      two resources may hold the same one. */
  class Resource {
    const nested: seq<Resource>
    const registered: seq<Validator>
    ghost const height: nat
    var failures: seq<Failure>
    var futures: seq<Validator>

    ghost predicate Acyclic()
      decreases height
    {
      forall i :: 0 <= i < |nested| ==> nested[i].height < height && nested[i].Acyclic()
    }

    /** The resource and everything below it. */
    ghost function Tree(): set<Resource>
      requires Acyclic()
      ensures this in Tree() && forall r :: r in Tree() ==> r.height <= height
      decreases height
    {
      {this} + set i, r | 0 <= i < |nested| && r in nested[i].Tree() :: r
    }

    /** The validators of the tree in post-order. */
    ghost function PostOrder(): seq<Validator>
      requires Acyclic()
      decreases height, |nested| + 1
    {
      PostOrderOf(|nested|) + registered
    }

    ghost function PostOrderOf(n: nat): seq<Validator>
      requires Acyclic() && n <= |nested|
      decreases height, n
    {
      if n == 0 then [] else PostOrderOf(n - 1) + nested[n - 1].PostOrder()
    }

    /** The validator is registered on a resource of the tree. */
    ghost predicate Registers(v: Validator)
      requires Acyclic()
    {
      exists r :: r in Tree() && v in r.registered
    }

    lemma InTree(v: Validator)
      requires Acyclic()
      ensures Registers(v) <==> v in registered || exists i :: 0 <= i < |nested| && nested[i].Registers(v)
    {
      if Registers(v) && v !in registered {
        var r :| r in Tree() && v in r.registered;
        var i :| 0 <= i < |nested| && r in nested[i].Tree();
        assert nested[i].Registers(v);
      }
      if i :| 0 <= i < |nested| && nested[i].Registers(v) {
        var r :| r in nested[i].Tree() && v in r.registered;
        assert r in Tree();
      }
    }

    /** The validators that run are exactly those registered on a resource of the tree. */
    lemma {:induction false} AllOfTree(v: Validator)
      requires Acyclic()
      ensures v in PostOrder() <==> Registers(v)
      decreases height, |nested| + 1
    {
      AllOfNested(|nested|, v);
      InTree(v);
    }

    lemma {:induction false} AllOfNested(n: nat, v: Validator)
      requires Acyclic() && n <= |nested|
      ensures v in PostOrderOf(n) <==> exists i :: 0 <= i < n && nested[i].Registers(v)
      decreases height, n
    {
      hide Registers;
      if n > 0 {
        AllOfNested(n - 1, v);
        nested[n - 1].AllOfTree(v);
      }
    }

    /** Nested resources come first, one right after the other, and the resource's own validators last. */
    lemma {:induction false} OwnComeLast(i: nat) returns (before: seq<Validator>, after: seq<Validator>)
      requires Acyclic() && i < |nested|
      ensures EndsWith(PostOrder(), registered)
      ensures PostOrder() == before + nested[i].PostOrder() + after && EndsWith(after, registered)
      ensures if i == 0 then before == [] else EndsWith(before, nested[i - 1].PostOrder())
      ensures i == |nested| - 1 ==> after == registered
    {
      var rest := NestedBetween(i, |nested|);
      before, after := PostOrderOf(i), rest + registered;
    }

    lemma {:induction false} NestedBetween(i: nat, n: nat) returns (rest: seq<Validator>)
      requires Acyclic() && i < n <= |nested|
      ensures PostOrderOf(n) == PostOrderOf(i) + nested[i].PostOrder() + rest
      ensures n == i + 1 ==> rest == []
      decreases n
    {
      rest := [];
      if n > i + 1 {
        var before := NestedBetween(i, n - 1);
        rest := before + nested[n - 1].PostOrder();
      }
    }

    constructor (nested: seq<Resource>, registered: seq<Validator>, ghost height: nat)
      requires forall i :: 0 <= i < |nested| ==> nested[i].Acyclic() && nested[i].height < height
      ensures Acyclic() && this.nested == nested && this.registered == registered
    {
      this.nested, this.registered, this.height := nested, registered, height;
      failures, futures := [], [];
    }

    /** `validate` as called for a nested resource. */
    method ValidateNested(suppressors: seq<Suppressor>) returns (fails: seq<Failure>, started: seq<Validator>)
      requires Acyclic()
      modifies Tree()
      ensures fails == SyncOf(PostOrder(), suppressors) && started == AsyncOf(PostOrder(), suppressors)
      decreases height, 2
    {
      Collect(suppressors);
      fails, started := failures, futures;
      futures := [];
    }

    /** `validate` as called from outside; nothing is returned when awaiting raises. */
    method Validate(suppressors: seq<Suppressor>) returns (result: Option<seq<Failure>>)
      requires Acyclic()
      modifies Tree()
      ensures result == Run(PostOrder(), suppressors)
      decreases height, 2
    {
      Collect(suppressors);
      var awaited := Awaited(futures);
      if awaited.None? {
        return None;
      }
      failures := failures + awaited.value;
      result := Some(failures);
      futures := [];
    }

    /** The nested resources and the resource's own validators: what both calls share. */
    method Collect(suppressors: seq<Suppressor>)
      requires Acyclic()
      modifies Tree()
      ensures failures == SyncOf(PostOrder(), suppressors) && futures == AsyncOf(PostOrder(), suppressors)
      decreases height, 1
    {
      hide SyncOf, AsyncOf;
      failures, futures := [], [];
      NoValidator(suppressors);
      for i := 0 to |nested|
        invariant failures == SyncOf(PostOrderOf(i), suppressors)
        invariant futures == AsyncOf(PostOrderOf(i), suppressors)
      {
        assert forall r :: r in nested[i].Tree() ==> r in Tree();
        assert this !in nested[i].Tree();
        var fails, started := nested[i].ValidateNested(suppressors);
        Appended(PostOrderOf(i), nested[i].PostOrder(), suppressors);
        futures := futures + started;
        failures := failures + fails;
      }
      ValidateSelf(suppressors);
      Appended(PostOrderOf(|nested|), registered, suppressors);
    }

    /** `_validate_self`. */
    method ValidateSelf(suppressors: seq<Suppressor>)
      modifies this
      ensures failures == old(failures) + SyncOf(registered, suppressors)
      ensures futures == old(futures) + AsyncOf(registered, suppressors)
    {
      hide SyncOf, AsyncOf, Suppressed;
      NoValidator(suppressors);
      assert registered[..0] == [];
      for i := 0 to |registered|
        invariant failures == old(failures) + SyncOf(registered[..i], suppressors)
        invariant futures == old(futures) + AsyncOf(registered[..i], suppressors)
      {
        var v := registered[i];
        assert registered[..i + 1] == registered[..i] + [v];
        Appended(registered[..i], [v], suppressors);
        OneValidator(v, suppressors);
        if v.isAsync {
          if !Suppressed(v, suppressors) {
            futures := futures + [v];
          }
        } else if !Suppressed(v, suppressors) {
          failures := failures + SyncFailures(v);
        }
      }
      assert registered[..|registered|] == registered;
    }
  }

  lemma NoValidator(suppressors: seq<Suppressor>)
    ensures SyncOf([], suppressors) == [] && AsyncOf([], suppressors) == []
  {
  }

  lemma Appended(vs: seq<Validator>, ws: seq<Validator>, suppressors: seq<Suppressor>)
    ensures SyncOf(vs + ws, suppressors) == SyncOf(vs, suppressors) + SyncOf(ws, suppressors)
    ensures AsyncOf(vs + ws, suppressors) == AsyncOf(vs, suppressors) + AsyncOf(ws, suppressors)
  {
    hide SyncOf, AsyncOf;
    SyncAppended(vs, ws, suppressors);
    AsyncAppended(vs, ws, suppressors);
  }

  lemma {:induction false} SyncAppended(vs: seq<Validator>, ws: seq<Validator>, suppressors: seq<Suppressor>)
    ensures SyncOf(vs + ws, suppressors) == SyncOf(vs, suppressors) + SyncOf(ws, suppressors)
    decreases |vs|
  {
    hide Suppressed, SyncFailures;
    if vs == [] {
      assert vs + ws == ws;
    } else {
      assert (vs + ws)[1..] == vs[1..] + ws;
      SyncAppended(vs[1..], ws, suppressors);
    }
  }

  lemma {:induction false} AsyncAppended(vs: seq<Validator>, ws: seq<Validator>, suppressors: seq<Suppressor>)
    ensures AsyncOf(vs + ws, suppressors) == AsyncOf(vs, suppressors) + AsyncOf(ws, suppressors)
    decreases |vs|
  {
    hide Suppressed;
    if vs == [] {
      assert vs + ws == ws;
    } else {
      assert (vs + ws)[1..] == vs[1..] + ws;
      AsyncAppended(vs[1..], ws, suppressors);
    }
  }

  lemma OneValidator(v: Validator, suppressors: seq<Suppressor>)
    ensures SyncOf([v], suppressors) == if v.isAsync || Suppressed(v, suppressors) then [] else SyncFailures(v)
    ensures AsyncOf([v], suppressors) == if v.isAsync && !Suppressed(v, suppressors) then [v] else []
  {
    assert SyncOf([v][1..], suppressors) == [] && AsyncOf([v][1..], suppressors) == [];
  }

  // ------------------------------------------------------------ what a top-level validation returns

  /** The synchronous failures followed by the asynchronous ones. */
  function Run(vs: seq<Validator>, suppressors: seq<Suppressor>): Option<seq<Failure>> {
    match Awaited(AsyncOf(vs, suppressors))
    case None => None
    case Some(results) => Some(SyncOf(vs, suppressors) + results)
  }

  /** Validators report under their own type. */
  ghost predicate ReportOwnType(vs: seq<Validator>) {
    forall i :: 0 <= i < |vs| && vs[i].outcome.Reports? ==>
      forall k :: 0 <= k < |vs[i].outcome.failures| ==> vs[i].outcome.failures[k].validator == vs[i].kind
  }

  /** The failures that validators of other types reported. */
  function Without(failures: seq<Failure>, kinds: set<string>): seq<Failure> {
    if failures == [] then []
    else (if failures[0].validator in kinds then [] else [failures[0]]) + Without(failures[1..], kinds)
  }

  lemma {:induction false} WithoutAppended(a: seq<Failure>, b: seq<Failure>, kinds: set<string>)
    ensures Without(a + b, kinds) == Without(a, kinds) + Without(b, kinds)
    decreases |a|
  {
    if a == [] {
      assert a + b == b;
    } else {
      assert (a + b)[1..] == a[1..] + b;
      WithoutAppended(a[1..], b, kinds);
    }
  }

  lemma {:induction false} WithoutOneType(failures: seq<Failure>, kind: string, kinds: set<string>)
    requires forall k :: 0 <= k < |failures| ==> failures[k].validator == kind
    ensures Without(failures, kinds) == if kind in kinds then [] else failures
    decreases |failures|
  {
    if failures != [] {
      WithoutOneType(failures[1..], kind, kinds);
    }
  }

  lemma SuppressedByType(v: Validator, kinds: set<string>)
    ensures Suppressed(v, [Types(kinds)]) <==> v.kind in kinds
    ensures !Suppressed(v, [])
  {
    assert [Types(kinds)][0] == Types(kinds);
  }

  lemma {:induction false} SyncSuppressed(vs: seq<Validator>, kinds: set<string>)
    requires ReportOwnType(vs)
    ensures SyncOf(vs, [Types(kinds)]) == Without(SyncOf(vs, []), kinds)
    decreases |vs|
  {
    if vs != [] {
      assert forall i :: 0 <= i < |vs[1..]| ==> vs[1..][i] == vs[i + 1];
      SyncSuppressed(vs[1..], kinds);
      SuppressedByType(vs[0], kinds);
      hide Suppressed, Without;
      var own := if vs[0].isAsync then [] else SyncFailures(vs[0]);
      WithoutOneType(own, vs[0].kind, kinds);
      WithoutAppended(own, SyncOf(vs[1..], []), kinds);
    }
  }

  lemma {:induction false} AsyncSuppressed(vs: seq<Validator>, kinds: set<string>)
    requires ReportOwnType(vs) && Awaited(AsyncOf(vs, [])).Some?
    ensures Awaited(AsyncOf(vs, [Types(kinds)])) == Some(Without(Awaited(AsyncOf(vs, [])).value, kinds))
    decreases |vs|
  {
    if vs != [] {
      var v, rest, kept := vs[0], AsyncOf(vs[1..], []), AsyncOf(vs[1..], [Types(kinds)]);
      assert forall i :: 0 <= i < |vs[1..]| ==> vs[1..][i] == vs[i + 1];
      SuppressedByType(v, kinds);
      AsyncFirst(vs, []);
      AsyncFirst(vs, [Types(kinds)]);
      hide AsyncOf, Suppressed;
      if v.isAsync {
        AwaitedFirst(v, rest);
        AwaitedFirst(v, kept);
        AsyncSuppressed(vs[1..], kinds);
        WithoutOneType(v.outcome.failures, v.kind, kinds);
        WithoutAppended(v.outcome.failures, Awaited(rest).value, kinds);
        assert [] + Without(Awaited(rest).value, kinds) == Without(Awaited(rest).value, kinds);
      } else {
        AsyncSuppressed(vs[1..], kinds);
      }
    }
  }

  lemma AsyncFirst(vs: seq<Validator>, suppressors: seq<Suppressor>)
    requires vs != []
    ensures AsyncOf(vs, suppressors)
            == if vs[0].isAsync && !Suppressed(vs[0], suppressors) then [vs[0]] + AsyncOf(vs[1..], suppressors)
               else AsyncOf(vs[1..], suppressors)
  {
  }

  lemma AwaitedFirst(v: Validator, rest: seq<Validator>)
    ensures Awaited([v] + rest).Some? <==> v.outcome.Reports? && Awaited(rest).Some?
    ensures Awaited([v] + rest).Some? ==> Awaited([v] + rest).value == v.outcome.failures + Awaited(rest).value
  {
    assert ([v] + rest)[1..] == rest;
  }

  /** Suppressing types of validators leaves exactly the failures that the others report in the unsuppressed run, in the
      same order. */
  lemma {:induction false} SuppressionFilters(vs: seq<Validator>, kinds: set<string>)
    requires ReportOwnType(vs) && Run(vs, []).Some?
    ensures Run(vs, [Types(kinds)]) == Some(Without(Run(vs, []).value, kinds))
  {
    SyncSuppressed(vs, kinds);
    AsyncSuppressed(vs, kinds);
    WithoutAppended(SyncOf(vs, []), Awaited(AsyncOf(vs, [])).value, kinds);
  }

  /** A validation returns if and only if no asynchronous validator that is not suppressed raises; one that is synchronous
      cannot make it raise. */
  lemma {:induction false} ReturnsIff(vs: seq<Validator>, suppressors: seq<Suppressor>)
    ensures Run(vs, suppressors).Some? <==>
            forall i :: 0 <= i < |vs| && vs[i].isAsync && !Suppressed(vs[i], suppressors) ==> vs[i].outcome.Reports?
    decreases |vs|
  {
    if vs != [] {
      ReturnsIff(vs[1..], suppressors);
      assert forall i :: 0 <= i < |vs[1..]| ==> vs[1..][i] == vs[i + 1];
      assert forall i :: 0 < i < |vs| ==> vs[i] == vs[1..][i - 1];
      AsyncFirst(vs, suppressors);
      AwaitedFirst(vs[0], AsyncOf(vs[1..], suppressors));
    }
  }

  // ------------------------------------------------------------ what is reported, by whom and in which order

  /** Suppressed by a suppressor of everything, or by one that lists the type. */
  ghost predicate Silenced(v: Validator, suppressors: seq<Suppressor>) {
    exists x :: x in suppressors && (x == AllValidators || (x.Types? && v.kind in x.kinds))
  }

  /** What one validator adds to the result: what it reports, or an error for its exception. */
  ghost predicate Adds(v: Validator, part: seq<Failure>) {
    match v.outcome
    case Reports(failures) => part == failures
    case Raises(message) => !v.isAsync && part == [Failure(message, ERROR, v.kind)]
  }

  function Concat(parts: seq<seq<Failure>>): seq<Failure> {
    if parts == [] then [] else parts[0] + Concat(parts[1..])
  }

  /** The places of all validators of one kind that are not silenced, in order. */
  ghost predicate PlacesOf(places: seq<int>, vs: seq<Validator>, suppressors: seq<Suppressor>, isAsync: bool) {
    && (forall i, j :: 0 <= i < j < |places| ==> places[i] < places[j])
    && (forall k :: 0 <= k < |places| ==> 0 <= places[k] < |vs|)
    && forall i :: 0 <= i < |vs| ==> (i in places <==> vs[i].isAsync == isAsync && !Silenced(vs[i], suppressors))
  }

  /** One part for each place, what the validator there adds. */
  ghost predicate PartsAt(parts: seq<seq<Failure>>, places: seq<int>, vs: seq<Validator>) {
    && |parts| == |places|
    && forall k :: 0 <= k < |places| ==> 0 <= places[k] < |vs| && Adds(vs[places[k]], parts[k])
  }

  lemma SilencedIff(v: Validator, suppressors: seq<Suppressor>)
    ensures Suppressed(v, suppressors) <==> Silenced(v, suppressors)
  {
    if Suppressed(v, suppressors) {
      var i :| 0 <= i < |suppressors| && (suppressors[i].AllValidators? || v.kind in suppressors[i].kinds);
      assert suppressors[i] in suppressors;
    }
  }

  /** Places one further on. */
  lemma Later(rest: seq<int>) returns (later: seq<int>)
    requires forall i, j :: 0 <= i < j < |rest| ==> rest[i] < rest[j]
    ensures |later| == |rest| && (forall k :: 0 <= k < |rest| ==> later[k] == rest[k] + 1)
    ensures forall i, j :: 0 <= i < j < |later| ==> later[i] < later[j]
    ensures forall i :: i in later <==> i - 1 in rest
  {
    later := seq(|rest|, k requires 0 <= k < |rest| => rest[k] + 1);
    forall i | i - 1 in rest
      ensures i in later
    {
      var k :| 0 <= k < |rest| && rest[k] == i - 1;
      assert later[k] == i;
    }
  }

  lemma ZeroFirst(later: seq<int>)
    requires forall i, j :: 0 <= i < j < |later| ==> later[i] < later[j]
    requires forall k :: 0 <= k < |later| ==> 0 < later[k]
    ensures var all := [0] + later;
            && (forall i, j :: 0 <= i < j < |all| ==> all[i] < all[j])
            && (forall k :: 0 <= k < |later| ==> all[k + 1] == later[k]) && forall i :: i in all <==> i == 0 || i in later
  {
  }

  /** The same places one further on, behind place zero if the first validator has the kind and is not silenced. */
  lemma NextPlaces(rest: seq<int>, vs: seq<Validator>, suppressors: seq<Suppressor>, isAsync: bool)
    returns (places: seq<int>)
    requires vs != [] && PlacesOf(rest, vs[1..], suppressors, isAsync)
    ensures PlacesOf(places, vs, suppressors, isAsync)
    ensures |places| == |rest| + if vs[0].isAsync == isAsync && !Silenced(vs[0], suppressors) then 1 else 0
    ensures var n := |places| - |rest|;
            (n == 1 ==> places[0] == 0) && forall k :: 0 <= k < |rest| ==> places[k + n] == rest[k] + 1
  {
    hide Silenced;
    var later := Later(rest);
    if vs[0].isAsync == isAsync && !Silenced(vs[0], suppressors) {
      ZeroFirst(later);
      places := [0] + later;
    } else {
      places := later;
    }
    forall i | 0 <= i < |vs|
      ensures i in places <==> vs[i].isAsync == isAsync && !Silenced(vs[i], suppressors)
    {
      if i > 0 {
        assert vs[i] == vs[1..][i - 1];
      }
    }
  }

  lemma NextParts(part: seq<Failure>, parts: seq<seq<Failure>>, rest: seq<int>, places: seq<int>, vs: seq<Validator>)
    requires vs != [] && PartsAt(parts, rest, vs[1..]) && Adds(vs[0], part)
    requires |places| == |rest| + 1 && places[0] == 0 && forall k :: 0 <= k < |rest| ==> places[k + 1] == rest[k] + 1
    ensures PartsAt([part] + parts, places, vs) && Concat([part] + parts) == part + Concat(parts)
  {
    hide Adds;
    assert ([part] + parts)[1..] == parts;
    assert forall i :: 0 < i < |vs| ==> vs[i] == vs[1..][i - 1];
    forall k | 0 <= k < |places|
      ensures 0 <= places[k] < |vs| && Adds(vs[places[k]], ([part] + parts)[k])
    {
      if k > 0 {
        assert places[k] == rest[k - 1] + 1;
      }
    }
  }

  lemma SameParts(parts: seq<seq<Failure>>, rest: seq<int>, places: seq<int>, vs: seq<Validator>)
    requires vs != [] && PartsAt(parts, rest, vs[1..])
    requires |places| == |rest| && forall k :: 0 <= k < |rest| ==> places[k] == rest[k] + 1
    ensures PartsAt(parts, places, vs)
  {
    hide Adds;
    assert forall i :: 0 < i < |vs| ==> vs[i] == vs[1..][i - 1];
  }

  /** The synchronous part of the result. */
  lemma {:induction false} SyncExact(vs: seq<Validator>, suppressors: seq<Suppressor>)
    returns (places: seq<int>, parts: seq<seq<Failure>>)
    ensures PlacesOf(places, vs, suppressors, false) && PartsAt(parts, places, vs)
    ensures SyncOf(vs, suppressors) == Concat(parts)
    decreases |vs|
  {
    places, parts := [], [];
    if vs != [] {
      SilencedIff(vs[0], suppressors);
      var restPlaces, restParts := SyncExact(vs[1..], suppressors);
      places := NextPlaces(restPlaces, vs, suppressors, false);
      hide Silenced, Suppressed, PlacesOf, PartsAt;
      if !vs[0].isAsync && !Silenced(vs[0], suppressors) {
        var part := SyncFailures(vs[0]);
        NextParts(part, restParts, restPlaces, places, vs);
        parts := [part] + restParts;
      } else {
        SameParts(restParts, restPlaces, places, vs);
        parts := restParts;
      }
    }
  }

  /** The asynchronous part, if awaiting does not raise. */
  lemma {:induction false} AsyncExact(vs: seq<Validator>, suppressors: seq<Suppressor>)
    returns (places: seq<int>, parts: seq<seq<Failure>>)
    requires Awaited(AsyncOf(vs, suppressors)).Some?
    ensures PlacesOf(places, vs, suppressors, true) && PartsAt(parts, places, vs)
    ensures Awaited(AsyncOf(vs, suppressors)).value == Concat(parts)
    decreases |vs|
  {
    places, parts := [], [];
    if vs != [] {
      SilencedIff(vs[0], suppressors);
      AsyncFirst(vs, suppressors);
      AwaitedFirst(vs[0], AsyncOf(vs[1..], suppressors));
      var restPlaces, restParts := AsyncExact(vs[1..], suppressors);
      places := NextPlaces(restPlaces, vs, suppressors, true);
      hide Silenced, Suppressed, PlacesOf, PartsAt, Awaited, AsyncOf;
      if vs[0].isAsync && !Silenced(vs[0], suppressors) {
        var part := vs[0].outcome.failures;
        NextParts(part, restParts, restPlaces, places, vs);
        parts := [part] + restParts;
      } else {
        SameParts(restParts, restPlaces, places, vs);
        parts := restParts;
      }
    }
  }

  /** A validation that returns gives, one after the other, what each synchronous validator that is not silenced adds, and
      then what each asynchronous one adds, both in the order of the validators: what it reports, and for a synchronous one
      that raises an error with its message and type. */
  lemma {:induction false} RunExact(vs: seq<Validator>, suppressors: seq<Suppressor>)
    requires Run(vs, suppressors).Some?
    ensures exists sync, syncParts, async, asyncParts ::
              && PlacesOf(sync, vs, suppressors, false) && PartsAt(syncParts, sync, vs)
              && PlacesOf(async, vs, suppressors, true) && PartsAt(asyncParts, async, vs)
              && Run(vs, suppressors) == Some(Concat(syncParts) + Concat(asyncParts))
  {
    hide PlacesOf, PartsAt, Concat;
    var sync, syncParts := SyncExact(vs, suppressors);
    var async, asyncParts := AsyncExact(vs, suppressors);
    assert Run(vs, suppressors) == Some(Concat(syncParts) + Concat(asyncParts));
  }

  lemma {:induction false} InConcat(parts: seq<seq<Failure>>, f: Failure)
    ensures f in Concat(parts) <==> exists k :: 0 <= k < |parts| && f in parts[k]
    decreases |parts|
  {
    if parts != [] {
      InConcat(parts[1..], f);
      assert forall k :: 0 < k < |parts| ==> parts[k] == parts[1..][k - 1];
      assert forall k :: 0 <= k < |parts[1..]| ==> parts[1..][k] == parts[k + 1];
    }
  }

  /** The validator reports the failure, or it is synchronous and raises and the failure is the error for it. */
  ghost predicate IsFrom(f: Failure, v: Validator) {
    match v.outcome
    case Reports(failures) => f in failures
    case Raises(message) => !v.isAsync && f == Failure(message, ERROR, v.kind)
  }

  /** So a failure is in the result if and only if it is from a validator that is not silenced. */
  lemma {:induction false} ReportedIff(vs: seq<Validator>, suppressors: seq<Suppressor>, f: Failure)
    requires Run(vs, suppressors).Some?
    ensures f in Run(vs, suppressors).value <==>
            exists i :: 0 <= i < |vs| && !Silenced(vs[i], suppressors) && IsFrom(f, vs[i])
  {
    RunExact(vs, suppressors);
    hide Run, Silenced, Concat;
    var sync, syncParts, async, asyncParts :|
      && PlacesOf(sync, vs, suppressors, false) && PartsAt(syncParts, sync, vs)
      && PlacesOf(async, vs, suppressors, true) && PartsAt(asyncParts, async, vs)
      && Run(vs, suppressors) == Some(Concat(syncParts) + Concat(asyncParts));
    InConcat(syncParts, f);
    InConcat(asyncParts, f);
    PartsFrom(vs, suppressors, f, false, sync, syncParts);
    PartsFrom(vs, suppressors, f, true, async, asyncParts);
  }

  lemma PartsFrom(vs: seq<Validator>, suppressors: seq<Suppressor>, f: Failure, isAsync: bool, places: seq<int>,
                  parts: seq<seq<Failure>>)
    requires PlacesOf(places, vs, suppressors, isAsync) && PartsAt(parts, places, vs)
    ensures (exists k :: 0 <= k < |parts| && f in parts[k]) <==>
            exists i :: 0 <= i < |vs| && vs[i].isAsync == isAsync && !Silenced(vs[i], suppressors) && IsFrom(f, vs[i])
  {
    hide Silenced;
    if k :| 0 <= k < |parts| && f in parts[k] {
      assert places[k] in places && IsFrom(f, vs[places[k]]);
    }
    if i :| 0 <= i < |vs| && vs[i].isAsync == isAsync && !Silenced(vs[i], suppressors) && IsFrom(f, vs[i]) {
      var k :| 0 <= k < |places| && places[k] == i;
      assert f in parts[k];
    }
  }

  /** Suppressing everything leaves nothing. */
  lemma {:induction false} AllSuppressed(vs: seq<Validator>, suppressors: seq<Suppressor>)
    requires AllValidators in suppressors
    ensures SyncOf(vs, suppressors) == [] && AsyncOf(vs, suppressors) == [] && Run(vs, suppressors) == Some([])
    decreases |vs|
  {
    if vs != [] {
      AllSuppressed(vs[1..], suppressors);
      var i :| 0 <= i < |suppressors| && suppressors[i] == AllValidators;
      assert Suppressed(vs[0], suppressors);
    }
    var nothing: seq<Failure> := [];
    assert Awaited([]) == Some(nothing) && nothing + nothing == nothing;
  }

  /** Validating twice gives the same result, also with resources that are held more than once. */
  method ValidateTwice(r: Resource, suppressors: seq<Suppressor>)
    returns (first: Option<seq<Failure>>, second: Option<seq<Failure>>)
    requires r.Acyclic()
    modifies r.Tree()
    ensures first == second == Run(r.PostOrder(), suppressors)
  {
    first := r.Validate(suppressors);
    second := r.Validate(suppressors);
  }
}

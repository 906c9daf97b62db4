/** Laws of the whole check: less running never turns an allowed patch into a refused one, and what the kept answer
    about login nodes does to the check. */
module PolicyLaws {
  import opened Values
  import opened Schema
  import opened UpdatePolicy
  import DictionaryDiff
  import PolicyConditions

  /** In `g` no more is running than in `f`; all else is the same. */
  ghost predicate NoMoreRunning(f: Fleet, g: Fleet) {
    && (g.capacity ==> f.capacity)
    && (g.login ==> f.login)
    && f.pools.Keys == g.pools.Keys
    && (forall p :: p in g.pools && g.pools[p] ==> f.pools[p])
    && f.headStopped == g.headStopped && f.isolated == g.isolated
  }

  /** The kept answers: both or neither side has one, and a running answer in the smaller state was one before. */
  predicate CachesAgree(inF: Option<bool>, inG: Option<bool>) {
    inF.Some? == inG.Some? && (inG == Some(true) ==> inF == Some(true))
  }

  /** A patch that may be applied still may be applied when fewer compute or login nodes are running. */
  lemma {:induction false} AllowedIsMonotone(patch: Patch, parsers: Parsers, f: Fleet, g: Fleet)
    requires NoMoreRunning(f, g) && Allowed(patch, f, parsers)
    ensures Allowed(patch, g, parsers)
  {
    CheckAllMonotone(patch.changes, patch, parsers, f, g, None, None);
  }

  ghost predicate Passes(changes: seq<Change>, patch: Patch, fleet: Fleet, parsers: Parsers, cache: Option<bool>) {
    var report := CheckAll(changes, patch, fleet, parsers, cache);
    report.Some? && report.value.allowed
  }

  lemma {:induction false} CheckAllMonotone(changes: seq<Change>, patch: Patch, parsers: Parsers, f: Fleet, g: Fleet,
                                            inF: Option<bool>, inG: Option<bool>)
    requires NoMoreRunning(f, g) && CachesAgree(inF, inG)
    requires Passes(changes, patch, f, parsers, inF)
    ensures Passes(changes, patch, g, parsers, inG)
    decreases |changes|
  {
    if changes != [] {
      CheckMonotone(changes[0], patch, parsers, f, g, inF, inG);
      var (_, inF') := Check(changes[0], patch, f, parsers, inF);
      var (_, inG') := Check(changes[0], patch, g, parsers, inG);
      CheckAllMonotone(changes[1..], patch, parsers, f, g, inF', inG');
    }
  }

  lemma CheckMonotone(c: Change, patch: Patch, parsers: Parsers, f: Fleet, g: Fleet, inF: Option<bool>,
                      inG: Option<bool>)
    requires NoMoreRunning(f, g) && CachesAgree(inF, inG)
    requires Check(c, patch, f, parsers, inF).0 == Some(SUCCEEDED)
    ensures Check(c, patch, g, parsers, inG).0 == Some(SUCCEEDED)
    ensures CachesAgree(Check(c, patch, f, parsers, inF).1, Check(c, patch, g, parsers, inG).1)
  {
    if c.policy == SharedStorageUpdate {
      SharedStorageMonotone(c, patch, f, g, inF, inG);
    } else if AsksLogin(c.policy) {
      LoginCheckMonotone(c, patch, parsers, f, g, inF, inG);
    } else {
      FleetChecksMonotone(c, patch, parsers, f, g);
      hide QueueUpdateStrategyCheck, ResizeCheck, ManagedPlacementGroupCheck, ManagedFsxCheck, StopOnRemoveCheck,
        ExtraChefCheck, SharedStorageCheck, IfLoginStopped, PoolName;
    }
  }

  predicate AsksLogin(p: Policy) {
    p in {LoginNodesPools, LoginNodesStop, LoginNodesPoolStop, ComputeAndLoginNodesStop}
  }

  lemma LoginCheckMonotone(c: Change, patch: Patch, parsers: Parsers, f: Fleet, g: Fleet, inF: Option<bool>,
                           inG: Option<bool>)
    requires NoMoreRunning(f, g) && CachesAgree(inF, inG) && AsksLogin(c.policy)
    requires Check(c, patch, f, parsers, inF).0 == Some(SUCCEEDED)
    ensures Check(c, patch, g, parsers, inG).0 == Some(SUCCEEDED)
    ensures CachesAgree(Check(c, patch, f, parsers, inF).1, Check(c, patch, g, parsers, inG).1)
  {
    hide QueueUpdateStrategyCheck, ResizeCheck, ManagedPlacementGroupCheck, ManagedFsxCheck, StopOnRemoveCheck,
      ExtraChefCheck, SharedStorageCheck, PoolName;
  }

  lemma FleetChecksMonotone(c: Change, patch: Patch, parsers: Parsers, f: Fleet, g: Fleet)
    requires NoMoreRunning(f, g)
    ensures QueueUpdateStrategyCheck(c, patch, f) == Allow ==> QueueUpdateStrategyCheck(c, patch, g) == Allow
    ensures ResizeCheck(c, patch, f, parsers) == Allow ==> ResizeCheck(c, patch, g, parsers) == Allow
    ensures ManagedPlacementGroupCheck(c, patch, f) == Allow ==> ManagedPlacementGroupCheck(c, patch, g) == Allow
    ensures ManagedFsxCheck(c, patch, f) == Allow ==> ManagedFsxCheck(c, patch, g) == Allow
    ensures StopOnRemoveCheck(c, f) == Allow ==> StopOnRemoveCheck(c, g) == Allow
  {
    hide StrategySet, StrategyTerminate, IsManagedDeletion, ManagedFsxNames, MaxCountCheck, MinCountCheck, AllMembers;
  }

  lemma SharedStorageMonotone(c: Change, patch: Patch, f: Fleet, g: Fleet, inF: Option<bool>, inG: Option<bool>)
    requires NoMoreRunning(f, g) && CachesAgree(inF, inG)
    requires SharedStorageCheck(c, patch, f, inF).verdict == Allow
    ensures SharedStorageCheck(c, patch, g, inG).verdict == Allow
    ensures CachesAgree(SharedStorageCheck(c, patch, f, inF).cache, SharedStorageCheck(c, patch, g, inG).cache)
  {
    hide StrategySet, LiveUpdate, HomeChange;
  }

  // ------------------------------------------------------------ extra chef attributes and mount directories

  /** The paths that may change. */
  const UPDATABLE: set<string> := { "cluster.slurm.reconfigure_timeout", "cluster.cluster_readiness_check_enabled",
                                    "cluster.cluster_readiness_check_ignore_failure" }

  /** An accepted change of the extra chef attributes leaves every scalar as it is, adds none and removes none, unless an
      updatable path covers it. */
  lemma ExtraChefKeepsScalars(c: Change, parsers: Parsers, ks: seq<string>)
    requires ExtraChefCheck(c, parsers) == Allow
    requires forall n :: 0 < n <= |ks| ==> DictionaryDiff.Dotted("", ks[..n]) !in UPDATABLE
    requires var before, after := PolicyConditions.Parsed(c.oldValue, parsers), PolicyConditions.Parsed(c.newValue, parsers);
             || (DictionaryDiff.At(before, ks).Some? && !DictionaryDiff.At(before, ks).value.Obj?)
             || (DictionaryDiff.At(after, ks).Some? && !DictionaryDiff.At(after, ks).value.Obj?)
    ensures DictionaryDiff.At(PolicyConditions.Parsed(c.oldValue, parsers), ks)
            == DictionaryDiff.At(PolicyConditions.Parsed(c.newValue, parsers), ks)
  {
    PolicyConditions.ParsedIs(c.oldValue, parsers);
    PolicyConditions.ParsedIs(c.newValue, parsers);
    assert UPDATABLE == EXTRA_CHEF_UPDATABLE;
    hide EXTRA_CHEF_UPDATABLE, UPDATABLE, Attributes, PolicyConditions.Parsed;
    var before, after := PolicyConditions.Parsed(c.oldValue, parsers), PolicyConditions.Parsed(c.newValue, parsers);
    if DictionaryDiff.At(before, ks).Some? && !DictionaryDiff.At(before, ks).value.Obj? {
      DictionaryDiff.UncoveredScalarsUnchanged(before, after, EXTRA_CHEF_UPDATABLE, ks);
    } else {
      DictionaryDiff.DiffSymmetric(before, after);
      DictionaryDiff.UncoveredScalarsUnchanged(after, before, EXTRA_CHEF_UPDATABLE, ks);
    }
  }

  /** A changed mount directory is a text, which the shared-storage checker reads as a dictionary once nodes are running:
      the check succeeds if and only if neither compute nor, by the answer that is kept or given, login nodes are running,
      and raises otherwise. */
  lemma MountDirRaisesIffRunning(c: Change, patch: Patch, fleet: Fleet, parsers: Parsers, cache: Option<bool>)
    requires c.policy == SharedStorageUpdate && c.key == "MountDir"
    requires if c.newValue != NONE then c.newValue.Leaf? else c.oldValue.Leaf?
    ensures Check(c, patch, fleet, parsers, cache).0
            == if fleet.capacity || LoginRunning(fleet, "", cache) == Some(true) then None else Some(SUCCEEDED)
  {
    hide StrategySet;
    assert HomeChange(c) == Some(false) && LiveUpdate(c) == None;
  }

  // ------------------------------------------------------------ login nodes

  /** Which login nodes the checker of the change asks about: those of a pool, or all for the empty name; nothing when it
      decides or raises before it asks. */
  function Question(c: Change, fleet: Fleet): Option<string> {
    match c.policy
    case SharedStorageUpdate => if HomeChange(c) == Some(false) then Some("") else None
    case LoginNodesPools => Some("")
    case LoginNodesStop => Some("")
    case LoginNodesPoolStop => PoolName(c.path)
    case ComputeAndLoginNodesStop => if fleet.capacity then None else Some("")
    case _ => None
  }

  /** Whether the login nodes that the change is about are running; nothing when none are asked about or the pool is not
      known. */
  function Answer(c: Change, fleet: Fleet): Option<bool> {
    if Question(c, fleet).None? then None else LoginRunning(fleet, Question(c, fleet).value, None)
  }

  /** The answer that the check keeps: that of the first change that gets one. */
  function FirstAnswer(changes: seq<Change>, fleet: Fleet): Option<bool> {
    if changes == [] then None
    else if Answer(changes[0], fleet).Some? then Answer(changes[0], fleet)
    else FirstAnswer(changes[1..], fleet)
  }

  /** The change passes when `answer` is kept, or, when none is, with its own. */
  ghost predicate PassesWith(c: Change, patch: Patch, fleet: Fleet, parsers: Parsers, answer: Option<bool>) {
    Check(c, patch, fleet, parsers, answer).0 == Some(SUCCEEDED)
  }

  /** The change may be applied only while the login nodes it is about are stopped: it is not the addition of a pool, and
      not that of storage that running nodes can mount. */
  predicate NeedsStopped(c: Change, fleet: Fleet) {
    Question(c, fleet).Some?
    && match c.policy
       case SharedStorageUpdate => LiveUpdate(c) != Some(true)
       case LoginNodesPools => !(c.isList && c.key == "Pools" && c.oldValue == NONE && c.newValue != NONE)
       case _ => true
  }

  /** What one change does with the kept answer, and the kept answer with it. */
  lemma OneChange(c: Change, patch: Patch, fleet: Fleet, parsers: Parsers, cache: Option<bool>)
    ensures Check(c, patch, fleet, parsers, cache).1 == if cache.Some? then cache else Answer(c, fleet)
    ensures PassesWith(c, patch, fleet, parsers, None) == PassesWith(c, patch, fleet, parsers, Answer(c, fleet))
    ensures Answer(c, fleet).None? ==>
              PassesWith(c, patch, fleet, parsers, cache) == PassesWith(c, patch, fleet, parsers, None)
  {
    hide QueueUpdateStrategyCheck, ResizeCheck, ManagedPlacementGroupCheck, ManagedFsxCheck, StopOnRemoveCheck,
      ExtraChefCheck, PoolName, HomeChange, LiveUpdate, StrategySet;
  }

  /** A running answer stops what needs stopped nodes, and nothing else. */
  lemma RunningAnswer(c: Change, patch: Patch, fleet: Fleet, parsers: Parsers)
    ensures PassesWith(c, patch, fleet, parsers, Some(true))
            <==> PassesWith(c, patch, fleet, parsers, Some(false)) && !NeedsStopped(c, fleet)
  {
    hide QueueUpdateStrategyCheck, ResizeCheck, ManagedPlacementGroupCheck, ManagedFsxCheck, StopOnRemoveCheck,
      ExtraChefCheck, PoolName, HomeChange, LiveUpdate, StrategySet;
  }

  /** A list of changes passes if and only if each of them passes with the answer of the first that gets one, whichever
      login nodes it is about itself. */
  lemma {:induction false} PassesIffEachWithFirst(changes: seq<Change>, patch: Patch, fleet: Fleet, parsers: Parsers,
                                                  cache: Option<bool>)
    ensures var answer := if cache.Some? then cache else FirstAnswer(changes, fleet);
            Passes(changes, patch, fleet, parsers, cache)
            <==> forall i :: 0 <= i < |changes| ==> PassesWith(changes[i], patch, fleet, parsers, answer)
    decreases |changes|
  {
    hide Check, Answer;
    if changes != [] {
      var (c, rest) := (changes[0], changes[1..]);
      var answer := if cache.Some? then cache else FirstAnswer(changes, fleet);
      OneChange(c, patch, fleet, parsers, cache);
      OneChange(c, patch, fleet, parsers, answer);
      PassesIffEachWithFirst(rest, patch, fleet, parsers, Check(c, patch, fleet, parsers, cache).1);
      assert forall i :: 0 < i < |changes| ==> changes[i] == rest[i - 1];
      assert forall i :: 0 <= i < |rest| ==> rest[i] == changes[i + 1];
      assert PassesWith(c, patch, fleet, parsers, cache) == PassesWith(c, patch, fleet, parsers, answer);
    }
  }

  /** Nothing but login nodes stands in the way of the patch. */
  ghost predicate LoginDecides(patch: Patch, fleet: Fleet, parsers: Parsers) {
    forall i :: 0 <= i < |patch.changes| ==> PassesWith(patch.changes[i], patch, fleet, parsers, Some(false))
  }

  /** Every change passes on the state of the login nodes that it is about itself. */
  ghost predicate EachPassesAlone(patch: Patch, fleet: Fleet, parsers: Parsers) {
    forall i :: 0 <= i < |patch.changes| ==> PassesWith(patch.changes[i], patch, fleet, parsers, None)
  }

  ghost predicate SomeNeedsStopped(changes: seq<Change>, fleet: Fleet) {
    exists i :: 0 <= i < |changes| && NeedsStopped(changes[i], fleet)
  }

  /** A change needs nodes stopped that are running. */
  ghost predicate SomeIsRunning(changes: seq<Change>, fleet: Fleet) {
    exists i :: 0 <= i < |changes| && NeedsStopped(changes[i], fleet) && Answer(changes[i], fleet) == Some(true)
  }

  /** Every patch: it is allowed if and only if nothing else stands in its way and, when the first answer about login
      nodes is that they are running, no change needs any stopped. */
  lemma AllowedIff(patch: Patch, fleet: Fleet, parsers: Parsers)
    ensures Allowed(patch, fleet, parsers)
            <==> LoginDecides(patch, fleet, parsers)
                 && !(FirstAnswer(patch.changes, fleet) == Some(true) && SomeNeedsStopped(patch.changes, fleet))
  {
    hide Check, Answer, NeedsStopped, PassesWith, CheckAll;
    var cs, answer := patch.changes, FirstAnswer(patch.changes, fleet);
    PassesIffEachWithFirst(cs, patch, fleet, parsers, None);
    assert Allowed(patch, fleet, parsers) == Passes(cs, patch, fleet, parsers, None);
    forall i | 0 <= i < |cs|
      ensures PassesWith(cs[i], patch, fleet, parsers, answer)
              <==> PassesWith(cs[i], patch, fleet, parsers, Some(false))
                   && !(answer == Some(true) && NeedsStopped(cs[i], fleet))
    {
      RunningAnswer(cs[i], patch, fleet, parsers);
      NoAnswer(cs, fleet, i);
      OneChange(cs[i], patch, fleet, parsers, Some(false));
      if answer.Some? {
        assert answer == if answer.value then Some(true) else Some(false);
      }
    }
  }

  lemma {:induction false} NoAnswer(changes: seq<Change>, fleet: Fleet, i: nat)
    requires i < |changes|
    ensures FirstAnswer(changes, fleet).None? ==> Answer(changes[i], fleet).None?
  {
    hide Answer;
    if i > 0 {
      NoAnswer(changes[1..], fleet, i - 1);
    }
  }

  /** Each change is right on its own if and only if nothing else stands in the way and none needs nodes stopped that are
      running. */
  lemma EachPassesAloneIff(patch: Patch, fleet: Fleet, parsers: Parsers)
    ensures EachPassesAlone(patch, fleet, parsers)
            <==> LoginDecides(patch, fleet, parsers) && !SomeIsRunning(patch.changes, fleet)
  {
    hide Check, NeedsStopped, PassesWith, Question;
    var cs := patch.changes;
    forall i | 0 <= i < |cs|
      ensures PassesWith(cs[i], patch, fleet, parsers, None)
              <==> PassesWith(cs[i], patch, fleet, parsers, Some(false))
                   && !(Answer(cs[i], fleet) == Some(true) && NeedsStopped(cs[i], fleet))
    {
      RunningAnswer(cs[i], patch, fleet, parsers);
      OneChange(cs[i], patch, fleet, parsers, Some(false));
    }
  }

  /** When the kept answer misleads the check, for every patch: it allows what must wait if and only if nothing else
      stands in the way, the first answer is not that nodes are running, and a change needs nodes stopped that are; it
      refuses what could be applied if and only if the first answer is that nodes are running, a change needs nodes
      stopped, and no such change is about running ones. */
  lemma LoginCheckWrongIff(patch: Patch, fleet: Fleet, parsers: Parsers)
    ensures Allowed(patch, fleet, parsers) && !EachPassesAlone(patch, fleet, parsers)
            <==> LoginDecides(patch, fleet, parsers)
                 && FirstAnswer(patch.changes, fleet) != Some(true) && SomeIsRunning(patch.changes, fleet)
    ensures !Allowed(patch, fleet, parsers) && EachPassesAlone(patch, fleet, parsers)
            <==> LoginDecides(patch, fleet, parsers)
                 && FirstAnswer(patch.changes, fleet) == Some(true) && SomeNeedsStopped(patch.changes, fleet)
                 && !SomeIsRunning(patch.changes, fleet)
  {
    hide Check, Answer, NeedsStopped, PassesWith, CheckAll;
    AllowedIff(patch, fleet, parsers);
    EachPassesAloneIff(patch, fleet, parsers);
  }

  // ------------------------------------------------------------ what the check returns and reports

  /** The answer about login nodes that is kept when change `i` is checked. */
  function KeptAt(changes: seq<Change>, fleet: Fleet, kept: Option<bool>, i: int): Option<bool>
    requires 0 <= i <= |changes|
  {
    if kept.Some? then kept else FirstAnswer(changes[..i], fleet)
  }

  /** The result for change `i`, nothing when its check raises. */
  function ResultAt(changes: seq<Change>, patch: Patch, fleet: Fleet, parsers: Parsers, kept: Option<bool>, i: int)
    : Option<CheckResult>
    requires 0 <= i < |changes|
  {
    Check(changes[i], patch, fleet, parsers, KeptAt(changes, fleet, kept, i)).0
  }

  /** Only what succeeds and is ignored anyway is not reported. */
  predicate Shown(c: Change, result: CheckResult) {
    result == SUCCEEDED ==> c.policy != Ignored && c.policy != ReadOnlyResourceBucket
  }

  ghost predicate Increasing(places: seq<int>) { forall i, j :: 0 <= i < j < |places| ==> places[i] < places[j] }

  /** The rows are for the changes from index `lo` on at these places, in order, each with its result. */
  ghost predicate RowsFrom(rows: seq<Row>, places: seq<int>, changes: seq<Change>, patch: Patch, fleet: Fleet,
                           parsers: Parsers, kept: Option<bool>, lo: int)
  {
    && 0 <= lo && |rows| == |places| && Increasing(places)
    && (forall k :: 0 <= k < |places| ==>
          lo <= places[k] < |changes| && RowFor(rows[k], places[k], changes, patch, fleet, parsers, kept))
    && AllShown(places, changes, patch, fleet, parsers, kept, lo)
  }

  ghost predicate RowFor(row: Row, i: int, changes: seq<Change>, patch: Patch, fleet: Fleet, parsers: Parsers,
                         kept: Option<bool>)
    requires 0 <= i < |changes|
  {
    row.change == changes[i] && ResultAt(changes, patch, fleet, parsers, kept, i) == Some(row.result)
  }

  ghost predicate AllShown(places: seq<int>, changes: seq<Change>, patch: Patch, fleet: Fleet, parsers: Parsers,
                           kept: Option<bool>, lo: int)
    requires 0 <= lo
  {
    forall i :: lo <= i < |changes| && ResultAt(changes, patch, fleet, parsers, kept, i).Some? ==>
      (i in places <==> Shown(changes[i], ResultAt(changes, patch, fleet, parsers, kept, i).value))
  }

  lemma FirstShown(places: seq<int>, all: seq<int>, changes: seq<Change>, patch: Patch, fleet: Fleet, parsers: Parsers,
                   kept: Option<bool>)
    requires changes != [] && AllShown(places, changes, patch, fleet, parsers, kept, 1)
    requires forall i :: i > 0 ==> (i in all <==> i in places)
    requires ResultAt(changes, patch, fleet, parsers, kept, 0).Some? ==>
               (0 in all <==> Shown(changes[0], ResultAt(changes, patch, fleet, parsers, kept, 0).value))
    ensures AllShown(all, changes, patch, fleet, parsers, kept, 0)
  {
    hide ResultAt, Shown;
  }

  lemma {:induction false} KeptLater(changes: seq<Change>, patch: Patch, fleet: Fleet, parsers: Parsers,
                                     kept: Option<bool>, i: int)
    requires changes != [] && 0 <= i <= |changes[1..]|
    ensures KeptAt(changes, fleet, kept, i + 1)
            == KeptAt(changes[1..], fleet, Check(changes[0], patch, fleet, parsers, kept).1, i)
  {
    OneChange(changes[0], patch, fleet, parsers, kept);
    hide Check, Answer;
    assert changes[..i + 1][0] == changes[0] && changes[..i + 1][1..] == changes[1..][..i];
  }

  lemma {:induction false} ResultLater(changes: seq<Change>, patch: Patch, fleet: Fleet, parsers: Parsers,
                                       kept: Option<bool>)
    requires changes != []
    ensures var kept' := Check(changes[0], patch, fleet, parsers, kept).1;
            && ResultAt(changes, patch, fleet, parsers, kept, 0) == Check(changes[0], patch, fleet, parsers, kept).0
            && forall i :: 0 < i < |changes| ==>
                 ResultAt(changes, patch, fleet, parsers, kept, i)
                 == ResultAt(changes[1..], patch, fleet, parsers, kept', i - 1)
  {
    hide Check, FirstAnswer;
    assert FirstAnswer(changes[..0], fleet) == None by { NoChanges(changes, fleet); }
    forall i | 0 < i < |changes|
      ensures ResultAt(changes, patch, fleet, parsers, kept, i)
              == ResultAt(changes[1..], patch, fleet, parsers, Check(changes[0], patch, fleet, parsers, kept).1, i - 1)
    {
      KeptLater(changes, patch, fleet, parsers, kept, i - 1);
    }
  }

  lemma NoChanges(changes: seq<Change>, fleet: Fleet)
    ensures FirstAnswer(changes[..0], fleet) == None
  {
    assert changes[..0] == [];
  }

  lemma NextPlaces(places: seq<int>) returns (later: seq<int>)
    requires Increasing(places)
    ensures |later| == |places| && (forall k :: 0 <= k < |places| ==> later[k] == places[k] + 1)
    ensures Increasing(later) && forall i :: i in later <==> i - 1 in places
  {
    later := seq(|places|, k requires 0 <= k < |places| => places[k] + 1);
    forall i | i - 1 in places
      ensures i in later
    {
      var k :| 0 <= k < |places| && places[k] == i - 1;
      assert later[k] == i;
    }
  }

  /** Rows of the rest of the changes, one place further on. */
  lemma RowsOfRest(rows: seq<Row>, places: seq<int>, changes: seq<Change>, patch: Patch, fleet: Fleet, parsers: Parsers,
                   kept: Option<bool>) returns (later: seq<int>)
    requires changes != []
    requires RowsFrom(rows, places, changes[1..], patch, fleet, parsers,
                      Check(changes[0], patch, fleet, parsers, kept).1, 0)
    ensures RowsFrom(rows, later, changes, patch, fleet, parsers, kept, 1)
  {
    ResultLater(changes, patch, fleet, parsers, kept);
    hide Check, ResultAt, Shown;
    later := NextPlaces(places);
    hide Increasing;
    assert forall i :: 0 <= i < |changes[1..]| ==> changes[1..][i] == changes[i + 1];
  }

  lemma ZeroFirst(places: seq<int>)
    requires Increasing(places) && forall k :: 0 <= k < |places| ==> 1 <= places[k]
    ensures Increasing([0] + places) && forall i :: i in [0] + places <==> i == 0 || i in places
  {
    assert forall k :: 0 < k <= |places| ==> ([0] + places)[k] == places[k - 1];
  }

  /** And the row of the first change before them, if it is shown. */
  lemma RowOfFirst(rows: seq<Row>, places: seq<int>, changes: seq<Change>, patch: Patch, fleet: Fleet, parsers: Parsers,
                   kept: Option<bool>, result: CheckResult) returns (all: seq<int>)
    requires changes != [] && ResultAt(changes, patch, fleet, parsers, kept, 0) == Some(result)
    requires RowsFrom(rows, places, changes, patch, fleet, parsers, kept, 1)
    ensures RowsFrom(Reported(changes[0], result) + rows, all, changes, patch, fleet, parsers, kept, 0)
  {
    hide ResultAt, AllShown;
    if Shown(changes[0], result) {
      all := [0] + places;
      assert Reported(changes[0], result) == [Row(changes[0], result)];
      assert RowFor(Row(changes[0], result), 0, changes, patch, fleet, parsers, kept);
      ZeroFirst(places);
      FirstShown(places, all, changes, patch, fleet, parsers, kept);
      hide Reported, Shown, Increasing, RowFor;
      var shown := [Row(changes[0], result)] + rows;
      forall k | 0 <= k < |all|
        ensures 0 <= all[k] < |changes| && RowFor(shown[k], all[k], changes, patch, fleet, parsers, kept)
      {
        if k > 0 {
          assert all[k] == places[k - 1] && shown[k] == rows[k - 1];
        }
      }
    } else {
      all := places;
      FirstShown(places, all, changes, patch, fleet, parsers, kept);
      assert Reported(changes[0], result) == [] && [] + rows == rows;
    }
  }

  /** Every list of changes: the check raises if and only if that of some change does; otherwise it allows the patch if and
      only if every change succeeds, and reports exactly the shown changes, in order and each with its result. */
  lemma {:induction false} ReportExact(changes: seq<Change>, patch: Patch, fleet: Fleet, parsers: Parsers,
                                       kept: Option<bool>)
    ensures var report := CheckAll(changes, patch, fleet, parsers, kept);
            && (report.Some? <==>
                  forall i :: 0 <= i < |changes| ==> ResultAt(changes, patch, fleet, parsers, kept, i).Some?)
            && (report.Some? ==>
                  (report.value.allowed <==>
                     forall i :: 0 <= i < |changes| ==>
                       ResultAt(changes, patch, fleet, parsers, kept, i) == Some(SUCCEEDED))
                  && exists places :: RowsFrom(report.value.rows, places, changes, patch, fleet, parsers, kept, 0))
    decreases |changes|
  {
    hide Check, ResultAt, RowsFrom, Reported;
    if changes == [] {
      NoRows(patch, fleet, parsers, kept);
    } else {
      var (result, kept') := Check(changes[0], patch, fleet, parsers, kept);
      ResultLater(changes, patch, fleet, parsers, kept);
      ReportExact(changes[1..], patch, fleet, parsers, kept');
      var rest := CheckAll(changes[1..], patch, fleet, parsers, kept');
      assert forall i :: 0 <= i < |changes[1..]| ==>
               ResultAt(changes[1..], patch, fleet, parsers, kept', i) == ResultAt(changes, patch, fleet, parsers, kept, i + 1);
      if result.Some? && rest.Some? {
        var places :| RowsFrom(rest.value.rows, places, changes[1..], patch, fleet, parsers, kept', 0);
        var later := RowsOfRest(rest.value.rows, places, changes, patch, fleet, parsers, kept);
        var all := RowOfFirst(rest.value.rows, later, changes, patch, fleet, parsers, kept, result.value);
      }
    }
  }

  lemma NoRows(patch: Patch, fleet: Fleet, parsers: Parsers, kept: Option<bool>)
    ensures RowsFrom([], [], [], patch, fleet, parsers, kept, 0)
  {
  }
}

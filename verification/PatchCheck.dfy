/** `ConfigPatch.check` as it runs: one change after the other against a cluster object that keeps its first answer about
    login nodes. */
module PatchCheck {
  import opened Values
  import opened Schema
  import opened UpdatePolicy

  /** The cluster a patch is checked against. Its state does not change during the check; what is asked about login
      nodes is remembered. */
  class Cluster {
    const fleet: Fleet
    var loginAnswer: Option<bool>

    constructor (fleet: Fleet)
      ensures this.fleet == fleet && loginAnswer == None
    {
      this.fleet := fleet;
      loginAnswer := None;
    }

    /** `has_running_login_nodes`; nothing is returned when the lookup of the pool raises. */
    method HasRunningLoginNodes(pool: string) returns (running: Option<bool>)
      modifies this
      ensures running == LoginRunning(fleet, pool, old(loginAnswer))
      ensures loginAnswer == if running.Some? then running else old(loginAnswer)
    {
      if pool != "" && pool !in fleet.pools {
        return None;
      }
      var found := if pool == "" then fleet.login else fleet.pools[pool];
      if loginAnswer.None? {
        loginAnswer := Some(found);
      }
      running := loginAnswer;
    }

    /** `condition_checker_shared_storage_update_policy`. */
    method CheckSharedStorage(c: Change, patch: Patch) returns (verdict: Verdict)
      modifies this
      ensures Checked(verdict, loginAnswer) == SharedStorageCheck(c, patch, fleet, old(loginAnswer))
    {
      hide HomeChange, LiveUpdate, StrategySet, LoginRunning;
      var home := HomeChange(c);
      if home != Some(false) {
        return if home.None? then Raise else Refuse;
      }
      var running := HasRunningLoginNodes("");
      var live := LiveUpdate(c);
      if running.None? {
        return Raise;
      }
      if running.value && live != Some(true) {
        return if live.None? then Raise else Refuse;
      }
      if !fleet.capacity {
        return Allow;
      }
      verdict := if live.None? then Raise else if live.value then Allow else StrategySet(patch.target);
    }

    /** The condition checker of the change's policy. */
    method CheckCondition(c: Change, patch: Patch, parsers: Parsers) returns (verdict: Verdict)
      requires HasChecker(c.policy)
      modifies this
      ensures Checked(verdict, loginAnswer) == Condition(c.policy, c, patch, fleet, parsers, old(loginAnswer))
    {
      hide LoginRunning, PoolName, ExtraChefCheck, QueueUpdateStrategyCheck, ResizeCheck, ManagedPlacementGroupCheck,
        SharedStorageCheck, StopOnRemoveCheck, ManagedFsxCheck;
      if c.policy == SharedStorageUpdate {
        verdict := CheckSharedStorage(c, patch);
      } else if c.policy in {LoginNodesPools, LoginNodesStop, LoginNodesPoolStop, ComputeAndLoginNodesStop} {
        if c.policy == ComputeAndLoginNodesStop && fleet.capacity {
          return Refuse;
        }
        var pool := if c.policy == LoginNodesPoolStop then PoolName(c.path) else Some("");
        if pool.None? {
          return Raise;
        }
        var running := HasRunningLoginNodes(pool.value);
        var added := c.isList && c.key == "Pools" && c.oldValue == NONE && c.newValue != NONE;
        verdict := if running.None? then Raise
                   else Decide(!running.value || (c.policy == LoginNodesPools && added));
      } else {
        verdict := Condition(c.policy, c, patch, fleet, parsers, loginAnswer).verdict;
      }
    }
  }

  /** What checking the changes from index `i` on returns, added to what was reported before. */
  ghost predicate Remaining(total: Option<Report>, patch: Patch, fleet: Fleet, parsers: Parsers, i: nat,
                            cache: Option<bool>, allowed: bool, rows: seq<Row>)
  {
    && i <= |patch.changes|
    && match CheckAll(patch.changes[i..], patch, fleet, parsers, cache)
       case None => total.None?
       case Some(rest) => total == Some(Report(allowed && rest.allowed, rows + rest.rows))
  }

  lemma RemainingStep(total: Option<Report>, patch: Patch, fleet: Fleet, parsers: Parsers, i: nat, cache: Option<bool>,
                      allowed: bool, rows: seq<Row>)
    requires i < |patch.changes| && Remaining(total, patch, fleet, parsers, i, cache, allowed, rows)
    ensures var (result, cache') := Check(patch.changes[i], patch, fleet, parsers, cache);
            if result.None? then total.None?
            else Remaining(total, patch, fleet, parsers, i + 1, cache', allowed && result.value == SUCCEEDED,
                           rows + Reported(patch.changes[i], result.value))
  {
    hide Check, Reported;
    assert patch.changes[i..][0] == patch.changes[i] && patch.changes[i..][1..] == patch.changes[i + 1..];
    var (result, cache') := Check(patch.changes[i], patch, fleet, parsers, cache);
    var rest := CheckAll(patch.changes[i + 1..], patch, fleet, parsers, cache');
    if result.Some? && rest.Some? {
      var reported := Reported(patch.changes[i], result.value);
      assert rows + (reported + rest.value.rows) == (rows + reported) + rest.value.rows;
    }
  }

  /** `ConfigPatch.check`: the verdict and the rows of the report, or nothing when a checker raises. */
  method CheckPatch(patch: Patch, cluster: Cluster, parsers: Parsers) returns (report: Option<Report>)
    modifies cluster
    ensures report == CheckAll(patch.changes, patch, cluster.fleet, parsers, old(cluster.loginAnswer))
  {
    hide Check, Remaining, Condition, CheckAll;
    var rows: seq<Row>, allowed := [], true;
    ghost var total := CheckAll(patch.changes, patch, cluster.fleet, parsers, cluster.loginAnswer);
    var i := 0;
    RemainingStart(patch, cluster.fleet, parsers, cluster.loginAnswer);
    while i < |patch.changes|
      invariant i <= |patch.changes|
      invariant Remaining(total, patch, cluster.fleet, parsers, i, cluster.loginAnswer, allowed, rows)
    {
      var c := patch.changes[i];
      RemainingStep(total, patch, cluster.fleet, parsers, i, cluster.loginAnswer, allowed, rows);
      var result := FAILED;
      ghost var before := cluster.loginAnswer;
      if HasChecker(c.policy) {
        var verdict := cluster.CheckCondition(c, patch, parsers);
        CheckedBy(c, patch, cluster.fleet, parsers, before);
        if verdict == Raise {
          return None;
        }
        result := if verdict == Allow then SUCCEEDED else ACTION_NEEDED;
      } else {
        NotChecked(c, patch, cluster.fleet, parsers, before);
      }
      assert Check(c, patch, cluster.fleet, parsers, before) == (Some(result), cluster.loginAnswer);
      if result != SUCCEEDED {
        allowed := false;
      }
      if result != SUCCEEDED || (c.policy != Ignored && c.policy != ReadOnlyResourceBucket) {
        rows := rows + [Row(c, result)];
      } else {
        assert rows + [] == rows;
      }
      i := i + 1;
    }
    RemainingEnd(total, patch, cluster.fleet, parsers, cluster.loginAnswer, allowed, rows);
    report := Some(Report(allowed, rows));
  }

  lemma RemainingStart(patch: Patch, fleet: Fleet, parsers: Parsers, cache: Option<bool>)
    ensures Remaining(CheckAll(patch.changes, patch, fleet, parsers, cache), patch, fleet, parsers, 0, cache, true, [])
  {
    hide CheckAll;
    assert patch.changes[0..] == patch.changes;
    var all := CheckAll(patch.changes, patch, fleet, parsers, cache);
    assert all.Some? ==> [] + all.value.rows == all.value.rows;
  }

  lemma RemainingEnd(total: Option<Report>, patch: Patch, fleet: Fleet, parsers: Parsers, cache: Option<bool>,
                     allowed: bool, rows: seq<Row>)
    requires Remaining(total, patch, fleet, parsers, |patch.changes|, cache, allowed, rows)
    ensures total == Some(Report(allowed, rows))
  {
    assert rows + [] == rows;
  }

  lemma CheckedBy(c: Change, patch: Patch, fleet: Fleet, parsers: Parsers, cache: Option<bool>)
    requires HasChecker(c.policy)
    ensures var checked := Condition(c.policy, c, patch, fleet, parsers, cache);
            Check(c, patch, fleet, parsers, cache)
            == (match checked.verdict
                case Allow => (Some(SUCCEEDED), checked.cache)
                case Refuse => (Some(ACTION_NEEDED), checked.cache)
                case Raise => (None, checked.cache))
  {
    hide Condition;
  }

  lemma NotChecked(c: Change, patch: Patch, fleet: Fleet, parsers: Parsers, cache: Option<bool>)
    requires !HasChecker(c.policy)
    ensures Check(c, patch, fleet, parsers, cache) == (Some(FAILED), cache)
  {
  }
}

/** `AsyncUtils.async_timeout_cache`: the future of a call is given to every later call with the same key until its time
    is over. */
module TimeoutCache {

  /** A call of the decorated method: the object it is called on, the rest of the arguments, and the clock. The object is
      not part of the cache key. */
  datatype Call = Call(self: nat, key: string, now: real)

  /** The future that a call started, with the end of its time. */
  datatype Entry = Entry(started: Call, expires: real)

  type Table = map<string, Entry>

  predicate Starts(table: Table, c: Call) { c.key !in table || table[c.key].expires < c.now }

  function After(table: Table, c: Call, timeout: real): Table {
    if Starts(table, c) then table[c.key := Entry(c, c.now + timeout)] else table
  }

  /** The table after calls in the order of the clock. */
  function TableAfter(calls: seq<Call>, timeout: real): Table {
    if calls == [] then map[] else After(TableAfter(calls[..|calls| - 1], timeout), calls[|calls| - 1], timeout)
  }

  /** The call whose future the last call awaits. */
  function Awaited(calls: seq<Call>, timeout: real): Call
    requires calls != []
  {
    TableAfter(calls, timeout)[calls[|calls| - 1].key].started
  }

  /** The times at which the function was started for a key. */
  function StartTimes(calls: seq<Call>, key: string, timeout: real): seq<real> {
    if calls == [] then []
    else
      var (before, c) := (calls[..|calls| - 1], calls[|calls| - 1]);
      StartTimes(before, key, timeout) + if c.key == key && Starts(TableAfter(before, timeout), c) then [c.now] else []
  }

  ghost predicate InOrder(calls: seq<Call>) { forall i, j :: 0 <= i < j < |calls| ==> calls[i].now <= calls[j].now }

  /** Each start comes after the time of the one before is over. */
  ghost predicate Apart(times: seq<real>, timeout: real) {
    forall i :: 0 < i < |times| ==> times[i - 1] + timeout < times[i]
  }

  /** What the table knows of a key is the last start for it. */
  ghost predicate Known(table: Table, key: string, times: seq<real>, calls: seq<Call>, timeout: real) {
    && (key in table <==> times != [])
    && (key in table ==>
          && table[key].started in calls && table[key].started.key == key
          && table[key].started.now == times[|times| - 1]
          && table[key].expires == table[key].started.now + timeout)
    && Apart(times, timeout)
    && (times != [] ==> calls != [] && calls[0].now <= times[0] && times[|times| - 1] <= calls[|calls| - 1].now)
  }

  lemma KnownStep(table: Table, key: string, times: seq<real>, calls: seq<Call>, c: Call, timeout: real)
    requires Known(table, key, times, calls, timeout) && InOrder(calls + [c])
    ensures Known(After(table, c, timeout), key, times + if c.key == key && Starts(table, c) then [c.now] else [],
                  calls + [c], timeout)
  {
    assert (calls + [c])[|calls|] == c && forall i :: 0 <= i < |calls| ==> (calls + [c])[i] == calls[i];
    if c.key == key && Starts(table, c) {
      var more := times + [c.now];
      assert forall i :: 0 < i < |more| ==> more[i - 1] + timeout < more[i];
    } else {
      assert times + [] == times;
    }
  }

  lemma {:induction false} TableKnowsLastStart(calls: seq<Call>, key: string, timeout: real)
    requires InOrder(calls)
    ensures Known(TableAfter(calls, timeout), key, StartTimes(calls, key, timeout), calls, timeout)
    decreases |calls|
  {
    if calls != [] {
      var (before, c) := (calls[..|calls| - 1], calls[|calls| - 1]);
      assert before + [c] == calls;
      TableKnowsLastStart(before, key, timeout);
      KnownStep(TableAfter(before, timeout), key, StartTimes(before, key, timeout), before, c, timeout);
    }
  }

  /** A call starts the function if and only if the time of every earlier start for its key is over. */
  lemma {:induction false} StartsIff(calls: seq<Call>, timeout: real)
    requires InOrder(calls) && calls != [] && timeout >= 0.0
    ensures var (before, c) := (calls[..|calls| - 1], calls[|calls| - 1]);
            var times := StartTimes(before, c.key, timeout);
            && (|StartTimes(calls, c.key, timeout)| == |times| + 1 <==>
                  forall i :: 0 <= i < |times| ==> times[i] + timeout < c.now)
            && (|StartTimes(calls, c.key, timeout)| == |times| + 1 ==> Awaited(calls, timeout) == c)
  {
    var (before, c) := (calls[..|calls| - 1], calls[|calls| - 1]);
    var times := StartTimes(before, c.key, timeout);
    LastCall(calls, timeout);
    hide TableAfter, StartTimes, Awaited;
    TableKnowsLastStart(before, c.key, timeout);
    if times != [] && times[|times| - 1] + timeout < c.now {
      forall i | 0 <= i < |times|
        ensures times[i] + timeout < c.now
      {
        TimesGrow(times, timeout, i);
      }
    }
  }

  lemma LastCall(calls: seq<Call>, timeout: real)
    requires calls != []
    ensures var (before, c) := (calls[..|calls| - 1], calls[|calls| - 1]);
            var starts := Starts(TableAfter(before, timeout), c);
            && StartTimes(calls, c.key, timeout) == StartTimes(before, c.key, timeout) + (if starts then [c.now] else [])
            && (starts ==> Awaited(calls, timeout) == c)
  {
  }

  /** Starts never come before the one they follow. */
  lemma {:induction false} TimesGrow(times: seq<real>, timeout: real, i: nat)
    requires Apart(times, timeout) && i < |times| && timeout >= 0.0
    ensures times[i] <= times[|times| - 1]
    decreases |times| - i
  {
    if i < |times| - 1 {
      TimesGrow(times, timeout, i + 1);
    }
  }

  /** A call awaits a future for its own key that was started no earlier than `timeout` before. */
  lemma {:induction false} AwaitedIsFresh(calls: seq<Call>, timeout: real)
    requires InOrder(calls) && calls != [] && timeout >= 0.0
    ensures var (c, awaited) := (calls[|calls| - 1], Awaited(calls, timeout));
            awaited in calls && awaited.key == c.key && awaited.now <= c.now <= awaited.now + timeout
  {
    var (before, c) := (calls[..|calls| - 1], calls[|calls| - 1]);
    TableKnowsLastStart(before, c.key, timeout);
    TableKnowsLastStart(calls, c.key, timeout);
  }

  lemma {:induction false} SpanOfTimes(times: seq<real>, timeout: real)
    requires times != [] && Apart(times, timeout)
    ensures (|times| - 1) as real * timeout <= times[|times| - 1] - times[0]
    decreases |times|
  {
    if |times| > 1 {
      var before := times[..|times| - 1];
      SpanOfTimes(before, timeout);
      assert (|times| - 1) as real * timeout == (|before| - 1) as real * timeout + timeout;
    }
  }

  ghost predicate Rare(n: nat, timeout: real, elapsed: real) { n >= 1 ==> (n - 1) as real * timeout <= elapsed }

  lemma TimesAreRare(times: seq<real>, timeout: real, elapsed: real)
    requires times != [] ==> Apart(times, timeout) && times[|times| - 1] - times[0] <= elapsed
    ensures Rare(|times|, timeout, elapsed)
  {
    if times != [] {
      SpanOfTimes(times, timeout);
    }
  }

  /** n starts for one key take at least n - 1 timeouts of the time between the first call and the last. */
  lemma {:induction false} StartsAreRare(calls: seq<Call>, key: string, timeout: real)
    requires InOrder(calls) && calls != []
    ensures Rare(|StartTimes(calls, key, timeout)|, timeout, calls[|calls| - 1].now - calls[0].now)
  {
    TableKnowsLastStart(calls, key, timeout);
    hide TableAfter, StartTimes, Rare;
    TimesAreRare(StartTimes(calls, key, timeout), timeout, calls[|calls| - 1].now - calls[0].now);
  }

  /** The decorated method. */
  class AsyncTimeoutCache {
    const timeout: real
    var table: Table
    ghost var calls: seq<Call>

    ghost predicate Valid()
      reads this
    {
      table == TableAfter(calls, timeout)
    }

    constructor (timeout: real)
      ensures Valid() && this.timeout == timeout && calls == []
    {
      this.timeout := timeout;
      table, calls := map[], [];
    }

    /** The start of the future that the call awaits. */
    method Await(c: Call) returns (started: Call)
      requires Valid()
      modifies this
      ensures Valid() && calls == old(calls) + [c]
      ensures started == Awaited(calls, timeout)
    {
      calls := calls + [c];
      assert calls[..|calls| - 1] == old(calls);
      if c.key !in table || table[c.key].expires < c.now {
        table := table[c.key := Entry(c, c.now + timeout)];
      }
      started := table[c.key].started;
    }
  }
}

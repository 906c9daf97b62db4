/** `Cache.cached` as threads run it: a lock around the table of mutexes, one mutex per key around lookup, call and
    store. Each action is one thing a thread does without interruption, so a sequence of actions is an interleaving. */
module ThreadedCache {
  import opened Values

  type Key = string
  type Value = int
  type Thread = nat
  type Mutex = nat

  /** How a call ends: with a value, because the function raised, or because the key is not in the cache any more. */
  datatype Outcome = Gave(value: Value) | FunctionRaised | KeyMissing

  /** Where a thread stands in the wrapper. */
  datatype Pc =
    | Idle
    | WantTable(k: Key)
    | InTable(k: Key)
    | MustCreate(k: Key)
    | LeaveTable(k: Key)
    | FetchMutex(k: Key)
    | WantMutex(k: Key, m: Mutex)
    | AskEnabled(k: Key, m: Mutex)
    | AskCached(k: Key, m: Mutex)
    | ReadCache(k: Key, m: Mutex)
    | Running(k: Key, m: Mutex)
    | AskStore(k: Key, m: Mutex, v: Value)
    | Store(k: Key, m: Mutex, v: Value)
    | Leave(k: Key, m: Mutex, result: Outcome)

  predicate HoldsTable(pc: Pc) { pc.InTable? || pc.MustCreate? || pc.LeaveTable? }

  predicate HoldsMutex(pc: Pc) {
    pc.AskEnabled? || pc.AskCached? || pc.ReadCache? || pc.Running? || pc.AskStore? || pc.Store? || pc.Leave?
  }

  /** What happened since the caches were last cleared. */
  datatype Event =
    | Ran(k: Key, v: Value)
    | Returned(t: Thread, k: Key, v: Value)
    | Failed(t: Thread, k: Key)
    | KeyError(t: Thread, k: Key)

  datatype State =
    State(table: Option<Thread>, mutexes: map<Key, Mutex>, owner: seq<Option<Thread>>, cache: map<Key, Value>,
          enabled: bool, pc: map<Thread, Pc>, events: seq<Event>)

  datatype Action = Call(t: Thread, k: Key) | Go(t: Thread, outcome: Option<Value>) | Clear | SetEnabled(b: bool)

  predicate Initial(s: State) {
    && s.table == None && s.mutexes == map[] && s.owner == [] && s.cache == map[] && s.events == []
    && forall t :: t in s.pc ==> s.pc[t] == Idle
  }

  /** The thread is not blocked: it waits for no lock that is taken. */
  predicate CanGo(s: State, t: Thread) {
    && t in s.pc && s.pc[t] != Idle
    && (s.pc[t].WantTable? ==> s.table == None)
    && (s.pc[t].FetchMutex? ==> s.pc[t].k in s.mutexes)
    && (s.pc[t].WantMutex? ==> s.pc[t].m < |s.owner| && s.owner[s.pc[t].m] == None)
  }

  predicate Possible(s: State, a: Action) {
    match a
    case Call(t, _) => t in s.pc && s.pc[t] == Idle
    case Go(t, _) => CanGo(s, t)
    case Clear => true
    case SetEnabled(_) => true
  }

  /** Where the thread stands after its next step; `outcome` is what the function returns, or nothing if it raises. */
  function NextPc(s: State, t: Thread, outcome: Option<Value>): Pc
    requires CanGo(s, t)
  {
    match s.pc[t]
    case Idle => Idle
    case WantTable(k) => InTable(k)
    case InTable(k) => if k in s.mutexes then LeaveTable(k) else MustCreate(k)
    case MustCreate(k) => LeaveTable(k)
    case LeaveTable(k) => FetchMutex(k)
    case FetchMutex(k) => WantMutex(k, s.mutexes[k])
    case WantMutex(k, m) => AskEnabled(k, m)
    case AskEnabled(k, m) => if s.enabled then AskCached(k, m) else Running(k, m)
    case AskCached(k, m) => if k in s.cache then ReadCache(k, m) else Running(k, m)
    case ReadCache(k, m) => if k in s.cache then AskStore(k, m, s.cache[k]) else Leave(k, m, KeyMissing)
    case Running(k, m) => if outcome.Some? then AskStore(k, m, outcome.value) else Leave(k, m, FunctionRaised)
    case AskStore(k, m, v) => if s.enabled then Store(k, m, v) else Leave(k, m, Gave(v))
    case Store(k, m, v) => Leave(k, m, Gave(v))
    case Leave(_, _, _) => Idle
  }

  function NextEvents(s: State, t: Thread, outcome: Option<Value>): seq<Event>
    requires CanGo(s, t)
  {
    match s.pc[t]
    case Running(k, _) => if outcome.Some? then s.events + [Ran(k, outcome.value)] else s.events
    case Leave(k, _, Gave(v)) => s.events + [Returned(t, k, v)]
    case Leave(k, _, FunctionRaised) => s.events + [Failed(t, k)]
    case Leave(k, _, KeyMissing) => s.events + [KeyError(t, k)]
    case _ => s.events
  }

  /** One step of a thread: what it does to the table lock, the mutexes and the cache. */
  function Advance(s: State, t: Thread, outcome: Option<Value>): State
    requires CanGo(s, t)
  {
    var pc := s.pc[t];
    State(
      if pc.WantTable? then Some(t) else if pc.LeaveTable? then None else s.table,
      if pc.MustCreate? then s.mutexes[pc.k := |s.owner|] else s.mutexes,
      if pc.MustCreate? then s.owner + [None]
      else if pc.WantMutex? then s.owner[pc.m := Some(t)]
      else if pc.Leave? && pc.m < |s.owner| then s.owner[pc.m := None]
      else s.owner,
      if pc.Store? then s.cache[pc.k := pc.v] else s.cache,
      s.enabled,
      s.pc[t := NextPc(s, t, outcome)],
      NextEvents(s, t, outcome))
  }

  function Apply(s: State, a: Action): State
    requires Possible(s, a)
  {
    match a
    case Call(t, k) => s.(pc := s.pc[t := WantTable(k)])
    case Go(t, outcome) => Advance(s, t, outcome)
    case Clear => s.(cache := map[], events := [])
    case SetEnabled(b) => s.(enabled := b)
  }

  /** The actions happen one after the other from `s` and lead to `s'`. */
  ghost predicate Leads(s: State, actions: seq<Action>, s': State)
    decreases |actions|
  {
    if actions == [] then s == s'
    else Possible(s, actions[0]) && Leads(Apply(s, actions[0]), actions[1..], s')
  }

  // ------------------------------------------------------------ locks

  /** Who holds which lock, and that a key has one mutex for good. */
  ghost predicate Locks(s: State) {
    TableLock(s) && OneMutexPerKey(s) && (forall t :: t in s.pc ==> PcLocks(s, t)) && Owners(s)
  }

  ghost predicate TableLock(s: State) {
    && (forall t :: t in s.pc && HoldsTable(s.pc[t]) ==> s.table == Some(t))
    && (s.table.Some? ==> s.table.value in s.pc && HoldsTable(s.pc[s.table.value]))
  }

  ghost predicate OneMutexPerKey(s: State) {
    && (forall k :: k in s.mutexes ==> s.mutexes[k] < |s.owner|)
    && (forall k, l :: k in s.mutexes && l in s.mutexes && s.mutexes[k] == s.mutexes[l] ==> k == l)
  }

  ghost predicate Owners(s: State) {
    forall m :: 0 <= m < |s.owner| && s.owner[m].Some? ==> Holder(s, m, s.owner[m].value)
  }

  ghost predicate Holder(s: State, m: Mutex, t: Thread) {
    t in s.pc && HoldsMutex(s.pc[t]) && s.pc[t].m == m
  }

  ghost predicate PcLocks(s: State, t: Thread)
    requires t in s.pc
  {
    var pc := s.pc[t];
    && (pc.MustCreate? ==> pc.k !in s.mutexes)
    && (pc.LeaveTable? || pc.FetchMutex? ==> pc.k in s.mutexes)
    && (pc.WantMutex? || HoldsMutex(pc) ==> pc.k in s.mutexes && s.mutexes[pc.k] == pc.m)
    && (HoldsMutex(pc) ==> pc.m < |s.owner| && s.owner[pc.m] == Some(t))
  }

  lemma TableLockStep(s: State, t: Thread, outcome: Option<Value>)
    requires TableLock(s) && CanGo(s, t)
    ensures TableLock(Advance(s, t, outcome))
  {
  }

  lemma OneMutexStep(s: State, t: Thread, outcome: Option<Value>)
    requires OneMutexPerKey(s) && CanGo(s, t)
    ensures OneMutexPerKey(Advance(s, t, outcome))
  {
  }

  /** The other threads: only the holder of the table lock creates mutexes, and only their holders release them. */
  lemma PcLocksStep(s: State, t: Thread, outcome: Option<Value>, u: Thread)
    requires Locks(s) && CanGo(s, t) && u in s.pc
    ensures PcLocks(Advance(s, t, outcome), u)
  {
    assert PcLocks(s, t) && PcLocks(s, u);
  }

  lemma OwnersStep(s: State, t: Thread, outcome: Option<Value>)
    requires Locks(s) && CanGo(s, t)
    ensures Owners(Advance(s, t, outcome))
  {
    hide TableLock;
    var s' := Advance(s, t, outcome);
    assert PcLocks(s, t);
    forall m | 0 <= m < |s'.owner| && s'.owner[m].Some?
      ensures Holder(s', m, s'.owner[m].value)
    {
      if m < |s.owner| && s.owner[m].Some? {
        assert Holder(s, m, s.owner[m].value);
      }
    }
  }

  lemma LocksStep(s: State, a: Action)
    requires Locks(s) && Possible(s, a)
    ensures Locks(Apply(s, a))
  {
    if a.Go? {
      hide TableLock, OneMutexPerKey, Owners, PcLocks, NextPc, NextEvents;
      TableLockStep(s, a.t, a.outcome);
      OneMutexStep(s, a.t, a.outcome);
      OwnersStep(s, a.t, a.outcome);
      forall u | u in s.pc
        ensures PcLocks(Advance(s, a.t, a.outcome), u)
      {
        PcLocksStep(s, a.t, a.outcome, u);
      }
    } else {
      assert forall u :: u in s.pc ==> PcLocks(s, u);
      assert forall m :: 0 <= m < |s.owner| && s.owner[m].Some? ==> Holder(s, m, s.owner[m].value);
    }
  }

  lemma {:induction false} LocksAlways(s: State, actions: seq<Action>, s': State)
    requires Locks(s) && Leads(s, actions, s')
    ensures Locks(s')
    decreases |actions|
  {
    if actions != [] {
      LocksStep(s, actions[0]);
      LocksAlways(Apply(s, actions[0]), actions[1..], s');
    }
  }

  /** In every interleaving, whatever is cleared or switched, no two threads run the function for one key. */
  lemma OneRunPerKey(s: State, actions: seq<Action>, s': State, t: Thread, u: Thread)
    requires Initial(s) && Leads(s, actions, s')
    requires t in s'.pc && u in s'.pc && s'.pc[t].Running? && s'.pc[u].Running? && s'.pc[t].k == s'.pc[u].k
    ensures t == u
  {
    LocksAlways(s, actions, s');
    assert PcLocks(s', t) && PcLocks(s', u);
  }

  /** In every interleaving, whoever holds the table lock can go on, so no one waits for a mutex with it, and as long as
      some call is under way some thread can go on. */
  lemma NoDeadlock(s: State, actions: seq<Action>, s': State)
    requires Initial(s) && Leads(s, actions, s')
    ensures s'.table.Some? ==> CanGo(s', s'.table.value)
    ensures (exists t :: t in s'.pc && s'.pc[t] != Idle) ==> exists t :: CanGo(s', t)
  {
    LocksAlways(s, actions, s');
    if s'.table.Some? {
      assert CanGo(s', s'.table.value);
    } else if t :| t in s'.pc && s'.pc[t] != Idle {
      assert PcLocks(s', t);
      if s'.pc[t].WantMutex? && s'.owner[s'.pc[t].m].Some? {
        assert Holder(s', s'.pc[t].m, s'.owner[s'.pc[t].m].value);
        assert CanGo(s', s'.owner[s'.pc[t].m].value);
      } else {
        assert CanGo(s', t);
      }
    }
  }

  // ------------------------------------------------------------ the cache is transparent

  /** The function gives `f(k)` whenever it returns. */
  ghost predicate Answers(f: Key -> Value, s: State, a: Action)
    requires Possible(s, a)
  {
    a.Go? && s.pc[a.t].Running? && a.outcome.Some? ==> a.outcome.value == f(s.pc[a.t].k)
  }

  ghost predicate LeadsAnswering(f: Key -> Value, s: State, actions: seq<Action>, s': State)
    decreases |actions|
  {
    if actions == [] then s == s'
    else
      && Possible(s, actions[0]) && Answers(f, s, actions[0])
      && LeadsAnswering(f, Apply(s, actions[0]), actions[1..], s')
  }

  ghost predicate Truthful(f: Key -> Value, s: State) {
    && (forall k :: k in s.cache ==> s.cache[k] == f(k))
    && (forall t :: t in s.pc ==> PcTruthful(f, s.pc[t]))
    && (forall i :: 0 <= i < |s.events| && s.events[i].Returned? ==> s.events[i].v == f(s.events[i].k))
  }

  ghost predicate PcTruthful(f: Key -> Value, pc: Pc) {
    && (pc.AskStore? || pc.Store? ==> pc.v == f(pc.k))
    && (pc.Leave? && pc.result.Gave? ==> pc.result.value == f(pc.k))
  }

  lemma TruthfulStep(f: Key -> Value, s: State, a: Action)
    requires Truthful(f, s) && Possible(s, a) && Answers(f, s, a)
    ensures Truthful(f, Apply(s, a))
  {
    if a.Go? {
      assert PcTruthful(f, s.pc[a.t]);
    }
  }

  /** In every interleaving, also with the caches cleared or switched off in the middle of calls, every call that returns
      gives what the function gives. */
  lemma {:induction false} ReturnsTheFunction(f: Key -> Value, s: State, actions: seq<Action>, s': State)
    requires Truthful(f, s) && LeadsAnswering(f, s, actions, s')
    ensures Truthful(f, s')
    decreases |actions|
  {
    hide Truthful, Apply, Possible, Answers;
    if actions != [] {
      TruthfulStep(f, s, actions[0]);
      ReturnsTheFunction(f, Apply(s, actions[0]), actions[1..], s');
    }
  }

  // ------------------------------------------------------------ how calls end

  /** What happens to a thread: the function it runs ends, it reads the cache, or its call ends. Clearing the caches does not
      make it forgotten. */
  datatype Happening =
    | FunctionEnded(t: Thread, k: Key, outcome: Outcome)
    | CacheRead(t: Thread, k: Key, outcome: Outcome)
    | CallEnded(t: Thread, k: Key, outcome: Outcome)

  function Happens(s: State, a: Action): seq<Happening>
    requires Possible(s, a)
  {
    if !a.Go? then []
    else
      match s.pc[a.t]
      case Running(k, _) => [FunctionEnded(a.t, k, if a.outcome.Some? then Gave(a.outcome.value) else FunctionRaised)]
      case ReadCache(k, _) => [CacheRead(a.t, k, if k in s.cache then Gave(s.cache[k]) else KeyMissing)]
      case Leave(k, _, outcome) => [CallEnded(a.t, k, outcome)]
      case _ => []
  }

  ghost function History(s: State, actions: seq<Action>): seq<Happening>
    decreases |actions|
  {
    if actions == [] || !Possible(s, actions[0]) then []
    else Happens(s, actions[0]) + History(Apply(s, actions[0]), actions[1..])
  }

  /** The thread's call for the key is going to end this way. */
  predicate Ending(s: State, t: Thread, k: Key, outcome: Outcome) {
    t in s.pc && EndingPc(s.pc[t], k, outcome)
  }

  predicate EndingPc(pc: Pc, k: Key, outcome: Outcome) {
    match pc
    case AskStore(l, _, v) => l == k && outcome == Gave(v)
    case Store(l, _, v) => l == k && outcome == Gave(v)
    case Leave(l, _, result) => l == k && outcome == result
    case _ => false
  }

  function Pending(s: State, t: Thread, k: Key, outcome: Outcome): nat { if Ending(s, t, k, outcome) then 1 else 0 }

  function Times(history: seq<Happening>, h: Happening): nat { multiset(history)[h] }

  lemma OwnStep(s: State, t: Thread, outcome: Option<Value>, k: Key, o: Outcome)
    requires CanGo(s, t)
    ensures var now := Happens(s, Go(t, outcome));
            Times(now, FunctionEnded(t, k, o)) + Times(now, CacheRead(t, k, o)) + Pending(s, t, k, o)
            == Times(now, CallEnded(t, k, o)) + Pending(Advance(s, t, outcome), t, k, o)
  {
    var now := Happens(s, Go(t, outcome));
    var pc' := NextPc(s, t, outcome);
    assert Advance(s, t, outcome).pc[t] == pc';
    assert Pending(Advance(s, t, outcome), t, k, o) == if EndingPc(pc', k, o) then 1 else 0;
    assert Pending(s, t, k, o) == if EndingPc(s.pc[t], k, o) then 1 else 0;
    hide Advance, NextEvents, Times;
    if now != [] {
      OneTime(now[0], FunctionEnded(t, k, o));
      OneTime(now[0], CacheRead(t, k, o));
      OneTime(now[0], CallEnded(t, k, o));
      assert now == [now[0]];
    } else {
      NoTime(FunctionEnded(t, k, o));
      NoTime(CacheRead(t, k, o));
      NoTime(CallEnded(t, k, o));
    }
  }

  lemma OneTime(h: Happening, x: Happening)
    ensures Times([h], x) == if h == x then 1 else 0
  {
  }

  lemma NoTime(x: Happening)
    ensures Times([], x) == 0
  {
  }

  lemma OthersStep(s: State, u: Thread, outcome: Option<Value>, t: Thread, k: Key, o: Outcome)
    requires CanGo(s, u) && u != t
    ensures forall h :: h in Happens(s, Go(u, outcome)) ==> h.t == u
    ensures Pending(s, t, k, o) == Pending(Advance(s, u, outcome), t, k, o)
  {
    hide NextPc;
  }

  lemma EndingStep(s: State, a: Action, t: Thread, k: Key, o: Outcome)
    requires Possible(s, a)
    ensures var now := Happens(s, a);
            Times(now, FunctionEnded(t, k, o)) + Times(now, CacheRead(t, k, o)) + Pending(s, t, k, o)
            == Times(now, CallEnded(t, k, o)) + Pending(Apply(s, a), t, k, o)
  {
    if a.Go? {
      hide Happens, Pending, Advance, CanGo;
      assert Apply(s, a) == Advance(s, a.t, a.outcome);
      if a.t == t {
        OwnStep(s, t, a.outcome, k, o);
      } else {
        OthersStep(s, a.t, a.outcome, t, k, o);
      }
    }
  }

  /** In every interleaving, whatever is cleared or switched: for each thread, key and outcome, as many calls end with it as
      runs of the function by this thread or reads of the cache gave it, but for a call that was going to end with it before
      or still is. So a call returns exactly what it ran or read, and raises exactly when its function did, or the key was
      missing. */
  lemma {:induction false} EndsAsItWent(s: State, actions: seq<Action>, s': State, t: Thread, k: Key, o: Outcome)
    requires Leads(s, actions, s')
    ensures var history := History(s, actions);
            Times(history, FunctionEnded(t, k, o)) + Times(history, CacheRead(t, k, o)) + Pending(s, t, k, o)
            == Times(history, CallEnded(t, k, o)) + Pending(s', t, k, o)
    decreases |actions|
  {
    hide Pending, Happens, Apply, Possible;
    if actions != [] {
      EndingStep(s, actions[0], t, k, o);
      EndsAsItWent(Apply(s, actions[0]), actions[1..], s', t, k, o);
      var first, rest := Happens(s, actions[0]), History(Apply(s, actions[0]), actions[1..]);
      assert History(s, actions) == first + rest;
      assert multiset(first + rest) == multiset(first) + multiset(rest);
    }
  }

  // ------------------------------------------------------------ the cache switched off

  /** Nothing is cached, and no thread takes the cache for switched on. */
  ghost predicate Off(s: State) {
    && !s.enabled && s.cache == map[]
    && forall t :: t in s.pc ==> !s.pc[t].AskCached? && !s.pc[t].ReadCache? && !s.pc[t].Store?
  }

  lemma OffStays(s: State, a: Action)
    requires Off(s) && Possible(s, a) && !(a.SetEnabled? && a.b)
    ensures Off(Apply(s, a)) && forall h :: h in Happens(s, a) ==> !h.CacheRead?
  {
  }

  lemma {:induction false} OffHistory(s: State, actions: seq<Action>, s': State)
    requires Off(s) && Leads(s, actions, s')
    requires forall i :: 0 <= i < |actions| ==> !(actions[i].SetEnabled? && actions[i].b)
    ensures Off(s') && forall h :: h in History(s, actions) ==> !h.CacheRead?
    decreases |actions|
  {
    hide Off, Happens, Apply, Possible;
    if actions != [] {
      OffStays(s, actions[0]);
      OffHistory(Apply(s, actions[0]), actions[1..], s');
    }
  }

  /** With the cache switched off from the start, in every interleaving that does not switch it on: nothing is ever cached or
      read, and every call runs the function itself: what the calls of a thread ended with are the outcomes of its own runs,
      one for one. */
  lemma OffRunsEveryCall(s: State, actions: seq<Action>, s': State)
    requires Initial(s) && !s.enabled && Leads(s, actions, s')
    requires forall i :: 0 <= i < |actions| ==> !(actions[i].SetEnabled? && actions[i].b)
    ensures s'.cache == map[] && forall h :: h in History(s, actions) ==> !h.CacheRead?
    ensures forall t, k, o ::
              Times(History(s, actions), FunctionEnded(t, k, o))
              == Times(History(s, actions), CallEnded(t, k, o)) + Pending(s', t, k, o)
  {
    hide Leads, History, Pending;
    OffHistory(s, actions, s');
    forall t, k, o
      ensures Times(History(s, actions), FunctionEnded(t, k, o))
              == Times(History(s, actions), CallEnded(t, k, o)) + Pending(s', t, k, o)
    {
      NothingPending(s, t, k, o);
      EndsAsItWent(s, actions, s', t, k, o);
      assert CacheRead(t, k, o) !in History(s, actions);
    }
  }

  lemma NothingPending(s: State, t: Thread, k: Key, o: Outcome)
    requires Initial(s)
    ensures Pending(s, t, k, o) == 0
  {
  }

  // ------------------------------------------------------------ one run per key and epoch

  /** The thread has a result in hand, or is about to read one. */
  predicate InHand(pc: Pc) { pc.ReadCache? || pc.AskStore? || pc.Store? || (pc.Leave? && pc.result.Gave?) }

  ghost predicate Quiescent(s: State) { forall t :: t in s.pc ==> !InHand(s.pc[t]) }

  /** Caching stays on and caches are cleared only while no thread has a result in hand. */
  ghost predicate LeadsCalmly(s: State, actions: seq<Action>, s': State)
    decreases |actions|
  {
    if actions == [] then s == s'
    else
      && Possible(s, actions[0]) && Calm(s, actions[0])
      && LeadsCalmly(Apply(s, actions[0]), actions[1..], s')
  }

  ghost predicate Calm(s: State, a: Action) {
    (a.SetEnabled? ==> a.b) && (a.Clear? ==> Quiescent(s))
  }

  /** A run whose result is on its way into the cache. */
  predicate OnItsWay(pc: Pc, k: Key, v: Value) {
    (pc.AskStore? || pc.Store?) && pc.k == k && pc.v == v
  }

  ghost predicate Once(s: State) {
    && s.enabled && Locks(s)
    && (forall k :: k in s.cache ==> Ran(k, s.cache[k]) in s.events)
    && (forall i, j :: 0 <= i < j < |s.events| && s.events[i].Ran? && s.events[j].Ran? ==> s.events[i].k != s.events[j].k)
    && (forall k, v :: Ran(k, v) in s.events ==> (k in s.cache && s.cache[k] == v) || exists t :: Carries(s, t, k, v))
    && (forall t :: t in s.pc ==> PcOnce(s, s.pc[t]))
    && !Stray(s)
  }

  /** A call returned a value that no run since the last clearing produced, or raised though the function did not. */
  ghost predicate Stray(s: State) {
    || (exists t, k, v :: Returned(t, k, v) in s.events && Ran(k, v) !in s.events)
    || (exists t, k :: KeyError(t, k) in s.events)
  }

  ghost predicate Carries(s: State, t: Thread, k: Key, v: Value) { t in s.pc && OnItsWay(s.pc[t], k, v) }

  ghost predicate PcOnce(s: State, pc: Pc) {
    && (pc.ReadCache? ==> pc.k in s.cache)
    && (pc.Running? ==> pc.k !in s.cache)
    && (pc.AskStore? || pc.Store? ==> Ran(pc.k, pc.v) in s.events)
    && (pc.Leave? && pc.result.Gave? ==> Ran(pc.k, pc.result.value) in s.events)
    && (pc.Leave? ==> !pc.result.KeyMissing?)
  }

  /** While a thread holds the mutex of a key, no other thread carries a result for it. */
  lemma OnlyHolderCarries(s: State, t: Thread, u: Thread, k: Key, v: Value)
    requires Locks(s) && t in s.pc && HoldsMutex(s.pc[t]) && s.pc[t].k == k && Carries(s, u, k, v)
    ensures t == u
  {
    assert PcLocks(s, t) && PcLocks(s, u);
  }

  lemma NewRunIsFirst(s: State, t: Thread, v: Value)
    requires Once(s) && t in s.pc && s.pc[t].Running?
    ensures Ran(s.pc[t].k, v) !in s.events
  {
    assert PcOnce(s, s.pc[t]);
    if Ran(s.pc[t].k, v) in s.events {
      var u :| Carries(s, u, s.pc[t].k, v);
      OnlyHolderCarries(s, t, u, s.pc[t].k, v);
    }
  }

  lemma SameRun(s: State, k: Key, v: Value, w: Value)
    requires Once(s) && Ran(k, v) in s.events && Ran(k, w) in s.events
    ensures v == w
  {
    var i :| 0 <= i < |s.events| && s.events[i] == Ran(k, v);
    var j :| 0 <= j < |s.events| && s.events[j] == Ran(k, w);
    assert i == j;
  }

  /** The threads: a stored result belongs to a run, and no one runs what is cached. */
  lemma PcOnceStep(s: State, t: Thread, outcome: Option<Value>, u: Thread)
    requires Once(s) && CanGo(s, t) && u in s.pc
    ensures PcOnce(Advance(s, t, outcome), Advance(s, t, outcome).pc[u])
  {
    assert PcOnce(s, s.pc[t]) && PcOnce(s, s.pc[u]);
    assert PcLocks(s, t) && PcLocks(s, u);
  }

  lemma CacheOnceStep(s: State, t: Thread, outcome: Option<Value>)
    requires Once(s) && CanGo(s, t)
    ensures var s' := Advance(s, t, outcome);
            && (forall k :: k in s'.cache ==> Ran(k, s'.cache[k]) in s'.events)
            && !Stray(s')
  {
    hide Locks;
    assert PcOnce(s, s.pc[t]);
  }

  lemma EventsOnceStep(s: State, t: Thread, outcome: Option<Value>)
    requires Once(s) && CanGo(s, t)
    ensures var es := Advance(s, t, outcome).events;
            forall i, j :: 0 <= i < j < |es| && es[i].Ran? && es[j].Ran? ==> es[i].k != es[j].k
  {
    hide Locks, NextPc;
    if s.pc[t].Running? {
      forall v
        ensures Ran(s.pc[t].k, v) !in s.events
      {
        NewRunIsFirst(s, t, v);
      }
      assert forall i :: 0 <= i < |s.events| && s.events[i].Ran? ==> Ran(s.events[i].k, s.events[i].v) in s.events;
    }
  }

  /** Every run is in the cache or on its way. */
  lemma RunOnceStep(s: State, t: Thread, outcome: Option<Value>, k: Key, v: Value)
    requires Once(s) && CanGo(s, t) && Ran(k, v) in Advance(s, t, outcome).events
    ensures var s' := Advance(s, t, outcome);
            (k in s'.cache && s'.cache[k] == v) || exists u :: Carries(s', u, k, v)
  {
    var s' := Advance(s, t, outcome);
    assert PcOnce(s, s.pc[t]);
    if Ran(k, v) !in s.events {
      assert Carries(s', t, k, v);
    } else if s.pc[t].Store? && s.pc[t].k == k {
      SameRun(s, k, v, s.pc[t].v);
    } else if !(k in s.cache && s.cache[k] == v) {
      var u :| Carries(s, u, k, v);
      assert Carries(s', u, k, v);
    }
  }

  lemma OnceStep(s: State, a: Action)
    requires Once(s) && Possible(s, a) && Calm(s, a)
    ensures Once(Apply(s, a))
  {
    LocksStep(s, a);
    if a.Go? {
      hide Locks, PcOnce, Carries, CanGo, NextPc, NextEvents;
      CacheOnceStep(s, a.t, a.outcome);
      EventsOnceStep(s, a.t, a.outcome);
      forall u | u in s.pc
        ensures PcOnce(Advance(s, a.t, a.outcome), Advance(s, a.t, a.outcome).pc[u])
      {
        PcOnceStep(s, a.t, a.outcome, u);
      }
      forall k, v | Ran(k, v) in Advance(s, a.t, a.outcome).events
        ensures var s' := Advance(s, a.t, a.outcome);
                (k in s'.cache && s'.cache[k] == v) || exists u :: Carries(s', u, k, v)
      {
        RunOnceStep(s, a.t, a.outcome, k, v);
      }
    } else {
      QuietOnceStep(s, a);
    }
  }

  lemma QuietOnceStep(s: State, a: Action)
    requires Once(s) && Possible(s, a) && Calm(s, a) && !a.Go? && Locks(Apply(s, a))
    ensures Once(Apply(s, a))
  {
    hide Locks;
    var s' := Apply(s, a);
    forall k, v | Ran(k, v) in s'.events && !(k in s'.cache && s'.cache[k] == v)
      ensures exists u :: Carries(s', u, k, v)
    {
      var u :| Carries(s, u, k, v);
      assert Carries(s', u, k, v);
    }
  }

  lemma {:induction false} OnceAlways(s: State, actions: seq<Action>, s': State)
    requires Once(s) && LeadsCalmly(s, actions, s')
    ensures Once(s')
    decreases |actions|
  {
    hide Once, Apply, Possible, Calm;
    if actions != [] {
      OnceStep(s, actions[0]);
      OnceAlways(Apply(s, actions[0]), actions[1..], s');
    }
  }

  /** With caching on and the caches cleared only while no thread has a result in hand, the function returns at most once
      per key since the last clearing, every call that returned since then gave the result of that run, and no call
      raised unless the function did. */
  lemma AtMostOneRun(s: State, actions: seq<Action>, s': State)
    requires Initial(s) && s.enabled && LeadsCalmly(s, actions, s')
    ensures forall i, j :: 0 <= i < j < |s'.events| && s'.events[i].Ran? && s'.events[j].Ran? ==>
              s'.events[i].k != s'.events[j].k
    ensures forall t, k, v :: Returned(t, k, v) in s'.events ==> Ran(k, v) in s'.events
    ensures forall t, k :: KeyError(t, k) !in s'.events
  {
    OnceAlways(s, actions, s');
  }

  // ------------------------------------------------------------ clearing while a call is under way

  /** Clearing the caches in the middle of calls: some calm continuation ends with a stray result if and only if some
      thread has a result in hand. */
  lemma ClearIsHarmlessIff(s: State)
    requires Once(s)
    ensures (exists actions, s' :: LeadsCalmly(Apply(s, Clear), actions, s') && Stray(s')) <==> !Quiescent(s)
  {
    hide Once, Stray, Apply;
    var cleared := Apply(s, Clear);
    if Quiescent(s) {
      OnceStep(s, Clear);
      forall actions, s' | LeadsCalmly(cleared, actions, s')
        ensures !Stray(s')
      {
        OnceAlways(cleared, actions, s');
        OnceNotStray(s');
      }
    } else {
      var t :| t in s.pc && InHand(s.pc[t]);
      OnceEnabled(s);
      Cleared(s);
      var actions, s' := LeavesStray(cleared, t);
      assert LeadsCalmly(cleared, actions, s') && Stray(s');
    }
  }

  lemma OnceNotStray(s: State)
    requires Once(s)
    ensures !Stray(s)
  {
  }

  lemma OnceEnabled(s: State)
    requires Once(s)
    ensures s.enabled
  {
  }

  lemma Cleared(s: State)
    ensures Apply(s, Clear) == s.(cache := map[], events := [])
  {
  }

  /** After the clearing, a thread that has a result in hand leaves with it. */
  lemma {:induction false} LeavesStray(s: State, t: Thread) returns (actions: seq<Action>, s': State)
    requires t in s.pc && s.enabled && s.events == [] && (s.pc[t].ReadCache? ==> s.pc[t].k !in s.cache)
    requires InHand(s.pc[t]) || (s.pc[t].Leave? && s.pc[t].result.KeyMissing?)
    ensures LeadsCalmly(s, actions, s') && Stray(s')
    decreases match s.pc[t] case AskStore(_, _, _) => 2 case Leave(_, _, _) => 0 case _ => 1
  {
    var next := Advance(s, t, None);
    var rest;
    if s.pc[t].Leave? {
      rest, s' := [], next;
      assert s'.events == [if s.pc[t].result.Gave? then Returned(t, s.pc[t].k, s.pc[t].result.value)
                           else KeyError(t, s.pc[t].k)];
    } else {
      rest, s' := LeavesStray(next, t);
    }
    actions := [Go(t, None)] + rest;
    assert actions[0] == Go(t, None) && actions[1..] == rest;
  }

  /** Whenever the caches are cleared between the end of a run and its store, the thread goes on to leave a value in the
      cleared cache that no run since produced. */
  lemma ClearedTooEarly(s: State, t: Thread)
    requires Once(s) && t in s.pc && s.pc[t].AskStore?
    ensures var (k, v) := (s.pc[t].k, s.pc[t].v);
            exists s' :: Leads(s, [Clear, Go(t, None), Go(t, None)], s')
                         && k in s'.cache && s'.cache[k] == v && Ran(k, v) !in s'.events
  {
    assert s.enabled;
    hide Once;
    var s' := ThreeSteps(s, Clear, Go(t, None), Go(t, None));
  }

  /** Whenever they are cleared between the test and the read of the cache, the call raises. */
  lemma ClearedBeforeRead(s: State, t: Thread)
    requires Once(s) && t in s.pc && s.pc[t].ReadCache?
    ensures exists s' :: Leads(s, [Clear, Go(t, None), Go(t, None)], s') && s'.events == [KeyError(t, s.pc[t].k)]
  {
    hide Once;
    var s' := ThreeSteps(s, Clear, Go(t, None), Go(t, None));
  }

  /** A value that was read is stored again: cleared in between, the caches end up with the old value. */
  lemma ClearedAfterRead(s: State, t: Thread)
    requires Once(s) && t in s.pc && s.pc[t].ReadCache?
    ensures var k := s.pc[t].k;
            && k in s.cache
            && exists s' :: Leads(Apply(s, Go(t, None)), [Clear, Go(t, None), Go(t, None)], s')
                            && k in s'.cache && s'.cache[k] == s.cache[k] && s'.events == []
  {
    assert s.enabled && PcOnce(s, s.pc[t]);
    hide Once;
    var s' := ThreeSteps(Apply(s, Go(t, None)), Clear, Go(t, None), Go(t, None));
  }

  lemma ThreeSteps(s: State, a: Action, b: Action, c: Action) returns (s': State)
    requires Possible(s, a) && Possible(Apply(s, a), b) && Possible(Apply(Apply(s, a), b), c)
    ensures s' == Apply(Apply(Apply(s, a), b), c) && Leads(s, [a, b, c], s')
  {
    hide Apply, Possible;
    s' := Apply(Apply(Apply(s, a), b), c);
    assert [a, b, c][1..] == [b, c] && [b, c][1..] == [c] && [c][1..] == [];
    assert Leads(Apply(Apply(s, a), b), [c], s');
    assert Leads(Apply(s, a), [b, c], s');
  }
}

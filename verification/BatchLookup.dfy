/** Looking up records by id through a cache that asks the backend only for the ids it does not have: the shape shared by
    the subnet, security group, capacity reservation and file system lookups. */
module BatchLookup {
  import opened Values

  type Id = string

  datatype Record = Record(id: Id, data: string)

  /** What the backend answers to a request: nothing when it raises. */
  type Backend = seq<Id> -> Option<seq<Record>>

  type Cache = map<Id, Record>

  /** The cached records of the ids, and the ids without one, in the order of the request. */
  function Hits(cache: Cache, ids: seq<Id>): seq<Record> {
    if ids == [] then [] else (if ids[0] in cache then [cache[ids[0]]] else []) + Hits(cache, ids[1..])
  }

  function Missed(cache: Cache, ids: seq<Id>): seq<Id> {
    if ids == [] then [] else (if ids[0] in cache then [] else [ids[0]]) + Missed(cache, ids[1..])
  }

  function Store(cache: Cache, records: seq<Record>): Cache {
    if records == [] then cache
    else Store(cache, records[..|records| - 1])[records[|records| - 1].id := records[|records| - 1]]
  }

  /** The cache and all ids asked for so far. */
  datatype State = State(cache: Cache, asked: seq<Id>)

  /** One lookup: the records, or nothing when the backend raises. */
  function Describe(s: State, ids: seq<Id>, backend: Backend): (State, Option<seq<Record>>) {
    var missed := Missed(s.cache, ids);
    if missed == [] then (s, Some(Hits(s.cache, ids)))
    else
      match backend(missed)
      case None => (s.(asked := s.asked + missed), None)
      case Some(response) =>
        (State(Store(s.cache, response), s.asked + missed), Some(Hits(s.cache, ids) + response))
  }

  // ------------------------------------------------------------ a backend that does not change

  predicate Distinct<T(==)>(s: seq<T>) { forall i, j :: 0 <= i < j < |s| ==> s[i] != s[j] }

  /** The records are those of the ids, each once, in any order. */
  ghost predicate RecordsOf(records: seq<Record>, known: Cache, ids: seq<Id>) {
    && (forall i, j :: 0 <= i < j < |records| ==> records[i].id != records[j].id)
    && (forall i :: 0 <= i < |records| ==> records[i].id in ids && records[i].id in known
                                           && known[records[i].id] == records[i])
    && (forall id :: id in ids ==> exists i :: 0 <= i < |records| && records[i].id == id)
  }

  /** The backend knows these records: it gives each requested one once, also if it is asked for it twice, and raises if
      an id is unknown. */
  ghost predicate Answers(backend: Backend, known: Cache) {
    forall ids: seq<Id> ::
      if forall i :: 0 <= i < |ids| ==> ids[i] in known then
        backend(ids).Some? && RecordsOf(backend(ids).value, known, ids)
      else backend(ids).None?
  }

  /** The record of every id, as often as it occurs. */
  function Wanted(known: Cache, ids: seq<Id>): multiset<Record>
    requires forall i :: 0 <= i < |ids| ==> ids[i] in known
  {
    if ids == [] then multiset{} else multiset{known[ids[0]]} + Wanted(known, ids[1..])
  }

  /** Cached records are the backend's, and what is cached was asked for. */
  ghost predicate Agrees(s: State, known: Cache) {
    && (forall id :: id in s.cache ==> id in known && s.cache[id] == known[id])
    && (forall id :: id in known ==> known[id].id == id)
  }

  lemma FirstId(cache: Cache, ids: seq<Id>)
    requires ids != []
    ensures ids[0] in cache ==>
              Hits(cache, ids) == [cache[ids[0]]] + Hits(cache, ids[1..]) && Missed(cache, ids) == Missed(cache, ids[1..])
    ensures ids[0] !in cache ==>
              Hits(cache, ids) == Hits(cache, ids[1..]) && Missed(cache, ids) == [ids[0]] + Missed(cache, ids[1..])
  {
  }

  lemma WantedFirst(known: Cache, id: Id, ids: seq<Id>)
    requires id in known && forall i :: 0 <= i < |ids| ==> ids[i] in known
    ensures forall i :: 0 <= i < |[id] + ids| ==> ([id] + ids)[i] in known
    ensures Wanted(known, [id] + ids) == multiset{known[id]} + Wanted(known, ids)
  {
    assert ([id] + ids)[1..] == ids;
  }

  /** The wanted records are the cached ones and those of the missed ids. */
  ghost predicate Splits(cache: Cache, known: Cache, ids: seq<Id>)
    requires forall i :: 0 <= i < |ids| ==> ids[i] in known
  {
    && (forall i :: 0 <= i < |Missed(cache, ids)| ==> Missed(cache, ids)[i] in known)
    && Wanted(known, ids) == multiset(Hits(cache, ids)) + Wanted(known, Missed(cache, ids))
  }

  lemma SplitHit(cache: Cache, known: Cache, id: Id, ids: seq<Id>)
    requires forall i :: 0 <= i < |ids| ==> ids[i] in known
    requires id in cache && id in known && cache[id] == known[id] && Splits(cache, known, ids)
    ensures forall i :: 0 <= i < |[id] + ids| ==> ([id] + ids)[i] in known
    ensures Splits(cache, known, [id] + ids)
  {
    assert ([id] + ids)[1..] == ids;
    FirstId(cache, [id] + ids);
    WantedFirst(known, id, ids);
    hide Hits, Missed, Wanted;
    assert multiset([cache[id]] + Hits(cache, ids)) == multiset{cache[id]} + multiset(Hits(cache, ids));
  }

  lemma SplitMiss(cache: Cache, known: Cache, id: Id, ids: seq<Id>)
    requires forall i :: 0 <= i < |ids| ==> ids[i] in known
    requires id !in cache && id in known && Splits(cache, known, ids)
    ensures forall i :: 0 <= i < |[id] + ids| ==> ([id] + ids)[i] in known
    ensures Splits(cache, known, [id] + ids)
  {
    assert ([id] + ids)[1..] == ids;
    FirstId(cache, [id] + ids);
    WantedFirst(known, id, ids);
    hide Hits, Missed, Wanted;
    WantedFirst(known, id, Missed(cache, ids));
  }

  lemma {:induction false} Split(cache: Cache, known: Cache, ids: seq<Id>)
    requires forall i :: 0 <= i < |ids| ==> ids[i] in known
    requires forall id :: id in cache ==> id in known && cache[id] == known[id]
    ensures Splits(cache, known, ids)
    decreases |ids|
  {
    if ids != [] {
      Split(cache, known, ids[1..]);
      hide Splits;
      assert [ids[0]] + ids[1..] == ids;
      if ids[0] in cache {
        SplitHit(cache, known, ids[0], ids[1..]);
      } else {
        SplitMiss(cache, known, ids[0], ids[1..]);
      }
    }
  }

  lemma {:induction false} MissedElements(cache: Cache, ids: seq<Id>)
    ensures forall id :: id in Missed(cache, ids) <==> id in ids && id !in cache
    ensures Distinct(ids) ==> Distinct(Missed(cache, ids))
    decreases |ids|
  {
    if ids != [] {
      MissedElements(cache, ids[1..]);
      assert forall i :: 0 < i < |ids| ==> ids[i] == ids[1..][i - 1];
      assert forall i :: 0 <= i < |ids[1..]| ==> ids[1..][i] == ids[i + 1];
    }
  }

  /** How often a record is wanted: as often as its id occurs. */
  lemma {:induction false} WantedCount(known: Cache, ids: seq<Id>, r: Record)
    requires forall i :: 0 <= i < |ids| ==> ids[i] in known
    requires forall id :: id in known ==> known[id].id == id
    ensures Wanted(known, ids)[r] == if r.id in known && known[r.id] == r then multiset(ids)[r.id] else 0
    decreases |ids|
  {
    if ids != [] {
      WantedCount(known, ids[1..], r);
      assert ids == [ids[0]] + ids[1..];
    }
  }

  lemma {:induction false} DistinctCount<T>(s: seq<T>, x: T)
    ensures multiset(s)[x] >= 1 <==> x in s
    ensures Distinct(s) ==> multiset(s)[x] <= 1
    decreases |s|
  {
    if s != [] {
      assert s == [s[0]] + s[1..];
      assert forall i :: 0 <= i < |s[1..]| ==> s[1..][i] == s[i + 1];
      DistinctCount(s[1..], x);
    }
  }

  /** A sequence in which everything occurs once has no duplicates. */
  lemma {:induction false} CountDistinct<T>(s: seq<T>)
    requires forall x :: x in s ==> multiset(s)[x] == 1
    ensures Distinct(s)
    decreases |s|
  {
    if s != [] {
      var rest := s[1..];
      assert s == [s[0]] + rest;
      DistinctCount(rest, s[0]);
      assert multiset(s)[s[0]] == 1 + multiset(rest)[s[0]];
      forall x | x in rest
        ensures multiset(rest)[x] == 1
      {
        assert x in s && x != s[0];
      }
      CountDistinct(rest);
      assert forall i :: 0 < i < |s| ==> s[i] == rest[i - 1];
    }
  }

  /** The response holds the wanted records as often as wanted if and only if no id was requested twice. */
  lemma ResponseIsWanted(known: Cache, ids: seq<Id>, response: seq<Record>)
    requires forall i :: 0 <= i < |ids| ==> ids[i] in known
    requires forall id :: id in known ==> known[id].id == id
    requires RecordsOf(response, known, ids)
    ensures multiset(response) == Wanted(known, ids) <==> Distinct(ids)
  {
    forall r
      ensures multiset(response)[r] == if r.id in ids && known[r.id] == r then 1 else 0
    {
      DistinctCount(response, r);
    }
    if Distinct(ids) {
      forall r
        ensures multiset(response)[r] == Wanted(known, ids)[r]
      {
        WantedCount(known, ids, r);
        DistinctCount(ids, r.id);
      }
    }
    if multiset(response) == Wanted(known, ids) {
      forall id | id in ids
        ensures multiset(ids)[id] == 1
      {
        WantedCount(known, ids, known[id]);
      }
      CountDistinct(ids);
    }
  }

  lemma {:induction false} StoreAgrees(cache: Cache, known: Cache, records: seq<Record>)
    requires forall id :: id in cache ==> id in known && cache[id] == known[id]
    requires forall i :: 0 <= i < |records| ==> records[i].id in known && known[records[i].id] == records[i]
    ensures forall id :: id in Store(cache, records) <==>
              id in cache || exists i :: 0 <= i < |records| && records[i].id == id
    ensures forall id :: id in Store(cache, records) ==> id in known && Store(cache, records)[id] == known[id]
    decreases |records|
  {
    if records != [] {
      var before := records[..|records| - 1];
      assert forall i :: 0 <= i < |before| ==> before[i] == records[i];
      StoreAgrees(cache, known, before);
    }
  }

  /** Agreement with the backend is kept, and when all ids are known the lookup returns and afterwards has them cached. */
  lemma DescribeAgrees(s: State, ids: seq<Id>, backend: Backend, known: Cache)
    requires Agrees(s, known) && Answers(backend, known)
    ensures Agrees(Describe(s, ids, backend).0, known)
    ensures (forall i :: 0 <= i < |ids| ==> ids[i] in known) <==> Describe(s, ids, backend).1.Some?
    ensures Describe(s, ids, backend).1.Some? ==>
              forall id :: id in Describe(s, ids, backend).0.cache <==> id in s.cache || id in ids
  {
    MissedElements(s.cache, ids);
    var missed := Missed(s.cache, ids);
    assert (forall i :: 0 <= i < |missed| ==> missed[i] in known) <==> (forall i :: 0 <= i < |ids| ==> ids[i] in known) by {
      assert forall id :: id in missed ==> id in ids;
      assert forall i :: 0 <= i < |ids| ==> ids[i] in s.cache || ids[i] in missed;
    }
    if missed != [] && backend(missed).Some? {
      StoreAgrees(s.cache, known, backend(missed).value);
    }
  }

  /** When all ids are known, the lookup returns the record of every id as often as the id occurs if and only if no id
      that was not cached occurs twice. */
  lemma {:induction false} LookupExactIff(s: State, ids: seq<Id>, backend: Backend, known: Cache)
    requires Agrees(s, known) && Answers(backend, known)
    requires forall i :: 0 <= i < |ids| ==> ids[i] in known
    ensures Describe(s, ids, backend).1.Some?
    ensures multiset(Describe(s, ids, backend).1.value) == Wanted(known, ids) <==> Distinct(Missed(s.cache, ids))
  {
    DescribeAgrees(s, ids, backend, known);
    Split(s.cache, known, ids);
    var missed := Missed(s.cache, ids);
    var hits := Hits(s.cache, ids);
    if missed == [] {
      assert Wanted(known, missed) == multiset{};
    } else {
      assert RecordsOf(backend(missed).value, known, missed);
      var response := backend(missed).value;
      ResponseIsWanted(known, missed, response);
      assert Describe(s, ids, backend).1 == Some(hits + response);
      hide Wanted, Distinct, Describe, Hits, Missed, RecordsOf, Answers;
      SameRest(multiset(hits), multiset(response), Wanted(known, missed));
      assert multiset(hits + response) == multiset(hits) + multiset(response);
    }
  }

  lemma SameRest<T>(a: multiset<T>, b: multiset<T>, c: multiset<T>)
    ensures a + b == a + c <==> b == c
  {
    assert b == (a + b) - a && c == (a + c) - a;
  }

  // ------------------------------------------------------------ a run of lookups

  function Run(s: State, calls: seq<seq<Id>>, backend: Backend): State
    decreases |calls|
  {
    if calls == [] then s else Run(Describe(s, calls[0], backend).0, calls[1..], backend)
  }

  /** Every id asked for so far was asked for once and is cached. */
  ghost predicate AskedOnce(s: State) { Distinct(s.asked) && forall id :: id in s.asked ==> id in s.cache }

  lemma AskedOnceStep(s: State, ids: seq<Id>, backend: Backend, known: Cache)
    requires Agrees(s, known) && Answers(backend, known) && AskedOnce(s)
    requires Distinct(ids) && forall i :: 0 <= i < |ids| ==> ids[i] in known
    ensures AskedOnce(Describe(s, ids, backend).0)
  {
    MissedElements(s.cache, ids);
    DescribeAgrees(s, ids, backend, known);
  }

  /** Over every run of lookups of known, duplicate-free ids, the backend is asked for each id at most once, and the next
      such lookup returns exactly the backend's records. */
  lemma {:induction false} RunAgrees(s: State, calls: seq<seq<Id>>, next: seq<Id>, backend: Backend, known: Cache)
    requires Agrees(s, known) && Answers(backend, known) && AskedOnce(s)
    requires forall k :: 0 <= k < |calls| ==> Distinct(calls[k]) && forall id :: id in calls[k] ==> id in known
    requires Distinct(next) && forall i :: 0 <= i < |next| ==> next[i] in known
    ensures var s' := Run(s, calls, backend);
            && Distinct(s'.asked)
            && Describe(s', next, backend).1.Some?
            && multiset(Describe(s', next, backend).1.value) == Wanted(known, next)
    decreases |calls|
  {
    hide Describe, Agrees, Answers, AskedOnce;
    if calls == [] {
      assert Distinct(s.asked) by {
        AskedIsDistinct(s);
      }
      MissedElements(s.cache, next);
      LookupExactIff(s, next, backend, known);
    } else {
      assert forall i :: 0 <= i < |calls[0]| ==> calls[0][i] in calls[0];
      DescribeAgrees(s, calls[0], backend, known);
      AskedOnceStep(s, calls[0], backend, known);
      assert forall k :: 0 <= k < |calls[1..]| ==> calls[1..][k] == calls[k + 1];
      RunAgrees(Describe(s, calls[0], backend).0, calls[1..], next, backend, known);
    }
  }

  lemma AskedIsDistinct(s: State)
    requires AskedOnce(s)
    ensures Distinct(s.asked)
  {
  }

  // ------------------------------------------------------------ the lookup as it runs

  class Client {
    var cache: Cache
    ghost var asked: seq<Id>

    constructor ()
      ensures cache == map[] && asked == []
    {
      cache, asked := map[], [];
    }

    /** The `describe_*` lookups. */
    method DescribeById(ids: seq<Id>, backend: Backend) returns (records: Option<seq<Record>>)
      modifies this
      ensures (State(cache, asked), records) == Describe(State(old(cache), old(asked)), ids, backend)
    {
      var result: seq<Record>, missed: seq<Id> := [], [];
      for i := 0 to |ids|
        invariant result + Hits(cache, ids[i..]) == Hits(cache, ids)
        invariant missed + Missed(cache, ids[i..]) == Missed(cache, ids)
      {
        assert ids[i..][0] == ids[i] && ids[i..][1..] == ids[i + 1..];
        if ids[i] in cache {
          result := result + [cache[ids[i]]];
        } else {
          missed := missed + [ids[i]];
        }
      }
      assert result == Hits(cache, ids) && missed == Missed(cache, ids);
      if missed != [] {
        asked := asked + missed;
        var response := backend(missed);
        if response.None? {
          return None;
        }
        ghost var before, hits := cache, result;
        assert response.value[..0] == [];
        for i := 0 to |response.value|
          invariant cache == Store(before, response.value[..i])
          invariant result == hits + response.value[..i]
          invariant asked == old(asked) + missed
        {
          assert response.value[..i + 1][..i] == response.value[..i];
          cache := cache[response.value[i].id := response.value[i]];
          result := result + [response.value[i]];
        }
        assert response.value[..|response.value|] == response.value;
      }
      records := Some(result);
    }
  }
}

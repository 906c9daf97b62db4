/** Grouping items into batches of bounded total size. */
module Batching {

  function Sum<T>(items: seq<T>, size: T -> int): int {
    if items == [] then 0 else size(items[0]) + Sum(items[1..], size)
  }

  function Concat<T>(batches: seq<seq<T>>): seq<T> {
    if batches == [] then [] else batches[0] + Concat(batches[1..])
  }

  lemma {:induction false} SumAppend<T>(a: seq<T>, b: seq<T>, size: T -> int)
    ensures Sum(a + b, size) == Sum(a, size) + Sum(b, size)
    decreases |a|
  {
    if a == [] {
      assert a + b == b;
    } else {
      assert (a + b)[1..] == a[1..] + b;
      SumAppend(a[1..], b, size);
    }
  }

  lemma {:induction false} ConcatAppend<T>(a: seq<seq<T>>, b: seq<seq<T>>)
    ensures Concat(a + b) == Concat(a) + Concat(b)
    decreases |a|
  {
    if a == [] {
      assert a + b == b;
    } else {
      assert (a + b)[1..] == a[1..] + b;
      ConcatAppend(a[1..], b);
    }
  }

  /** Every batch is within the limit, and none could have taken the first item of the next one. */
  ghost predicate Greedy<T(!new)>(batches: seq<seq<T>>, size: T -> int, limit: int) {
    && (forall i :: 0 <= i < |batches| ==> Sum(batches[i], size) <= limit)
    && (forall i :: 0 < i < |batches| ==>
          batches[i] != [] && Sum(batches[i - 1], size) + size(batches[i][0]) > limit)
  }

  /** The batches split the items, greedily. */
  ghost predicate Grouped<T(!new)>(batches: seq<seq<T>>, items: seq<T>, size: T -> int, limit: int) {
    && Concat(batches) == items && Greedy(batches, size, limit)
    && (items != [] ==> batches != [] && batches[0] != [])
  }

  lemma SumOne<T>(item: T, size: T -> int)
    ensures Sum([item], size) == size(item)
  {
    assert Sum([item], size) == size(item) + Sum([item][1..], size);
  }

  /** The next item opens a new batch. */
  lemma Opens<T(!new)>(batches: seq<seq<T>>, last: seq<T>, items: seq<T>, i: nat, size: T -> int, limit: int)
    requires i < |items| && last != [] && Grouped(batches + [last], items[..i], size, limit)
    requires size(items[i]) <= limit && Sum(last, size) + size(items[i]) > limit
    ensures Grouped(batches + [last] + [[items[i]]], items[..i + 1], size, limit)
  {
    var before, after := batches + [last], batches + [last] + [[items[i]]];
    SumOne(items[i], size);
    ConcatAppend(before, [[items[i]]]);
    assert Concat([[items[i]]]) == [items[i]];
    assert items[..i + 1] == items[..i] + [items[i]];
    assert before[0] != [] by {
      assert Concat(before) == before[0] + Concat(before[1..]);
    }
    hide Concat, Sum;
    assert forall k :: 0 <= k < |before| ==> after[k] == before[k];
  }

  /** The next item goes into the last batch. */
  lemma Extends<T(!new)>(batches: seq<seq<T>>, last: seq<T>, items: seq<T>, i: nat, size: T -> int, limit: int)
    requires i < |items| && (i == 0 ==> last == [] && batches == [])
    requires i > 0 ==> last != [] && Grouped(batches + [last], items[..i], size, limit)
    requires Sum(last, size) + size(items[i]) <= limit
    ensures Grouped(batches + [last + [items[i]]], items[..i + 1], size, limit)
    ensures Sum(last + [items[i]], size) == Sum(last, size) + size(items[i])
  {
    var item := items[i];
    var before, after := batches + [last], batches + [last + [item]];
    SumOne(item, size);
    SumAppend(last, [item], size);
    ConcatAppend(batches, [last]);
    ConcatAppend(batches, [last + [item]]);
    assert Concat([last]) == last && Concat([last + [item]]) == last + [item];
    assert Concat(after) == Concat(batches) + (last + [item]) == (Concat(batches) + last) + [item];
    assert items[..i + 1] == items[..i] + [item];
    assert i == 0 ==> Concat(batches) + last == [];
    hide Concat, Sum;
    assert forall k :: 0 <= k < |batches| ==> after[k] == before[k];
    forall k | 0 < k < |after|
      ensures after[k] != [] && Sum(after[k - 1], size) + size(after[k][0]) > limit
    {
      assert after[k - 1] == before[k - 1] && after[k][0] == before[k][0];
    }
  }

  /** What was handed out before an oversized item is a beginning of the items before it. */
  lemma HandedOut<T(!new)>(batches: seq<seq<T>>, last: seq<T>, items: seq<T>, size: T -> int, limit: int)
    requires Grouped(batches + [last], items, size, limit)
    ensures Concat(batches) <= items && Greedy(batches, size, limit)
  {
    ConcatAppend(batches, [last]);
    hide Sum, Concat;
    assert forall k :: 0 <= k < |batches| ==> batches[k] == (batches + [last])[k];
  }

  /** `batch_by_property_callback`, as the batches handed out and whether an oversized item made it raise. */
  method BatchByPropertyCallback<T(!new)>(items: seq<T>, size: T -> int, limit: int)
    returns (batches: seq<seq<T>>, raised: bool)
    ensures raised <==> Sum(items, size) >= limit && exists i :: 0 <= i < |items| && size(items[i]) > limit
    ensures !raised ==> Grouped(batches, items, size, limit)
    ensures raised ==> Greedy(batches, size, limit)
                       && exists i :: 0 <= i < |items| && size(items[i]) > limit && Concat(batches) <= items[..i]
  {
    hide Grouped, Greedy, Concat;
    var total := SumOf(items, size);
    if total < limit {
      OneBatch(items, size, limit);
      return [items], false;
    }
    var batchTotal, current: seq<T> := 0, [];
    batches := [];
    NoBatch<T>(size, limit);
    for i := 0 to |items|
      invariant forall k :: 0 <= k < i ==> size(items[k]) <= limit
      invariant i == 0 ==> current == [] && batches == [] && batchTotal == 0
      invariant 0 < i < |items| ==>
                  && current != [] && batchTotal == Sum(current, size)
                  && Grouped(batches + [current], items[..i], size, limit)
      invariant i == |items| ==> Grouped(batches, items, size, limit)
    {
      var item := items[i];
      var value := size(item);
      if value > limit {
        if i > 0 {
          HandedOut(batches, current, items[..i], size, limit);
        }
        assert Concat(batches) <= items[..i] by {
          NoBatch<T>(size, limit);
        }
        return batches, true;
      }
      if batchTotal + value > limit {
        Opens(batches, current, items, i, size, limit);
        SumOne(item, size);
        batches := batches + [current];
        batchTotal, current := value, [item];
      } else {
        Extends(batches, current, items, i, size, limit);
        batchTotal, current := batchTotal + value, current + [item];
      }
      if i == |items| - 1 {
        assert items[..i + 1] == items;
        batches := batches + [current];
      }
    }
    raised := false;
  }

  lemma OneBatch<T(!new)>(items: seq<T>, size: T -> int, limit: int)
    requires Sum(items, size) <= limit
    ensures Grouped([items], items, size, limit)
  {
    assert Concat([items]) == items + Concat([items][1..]);
  }

  lemma NoBatch<T(!new)>(size: T -> int, limit: int)
    ensures Grouped([], [], size, limit) && Greedy<T>([], size, limit) && Concat<T>([]) == []
  {
  }

  method SumOf<T>(items: seq<T>, size: T -> int) returns (total: int)
    ensures total == Sum(items, size)
  {
    total := 0;
    for i := 0 to |items|
      invariant total == Sum(items[..i], size)
    {
      assert items[..i + 1] == items[..i] + [items[i]];
      SumAppend(items[..i], [items[i]], size);
      assert Sum([items[i]], size) == size(items[i]) + Sum([items[i]][1..], size);
      total := total + size(items[i]);
    }
    assert items[..|items|] == items;
  }

  // ------------------------------------------------------------ no split does with fewer batches

  ghost predicate NonNegative<T(!new)>(size: T -> int) { forall t :: size(t) >= 0 }

  lemma {:induction false} SumNonNegative<T(!new)>(items: seq<T>, size: T -> int)
    requires NonNegative(size)
    ensures Sum(items, size) >= 0
    decreases |items|
  {
    if items != [] {
      SumNonNegative(items[1..], size);
    }
  }

  /** A part of a sequence sums to no more than the whole. */
  lemma PartSum<T(!new)>(items: seq<T>, lo: nat, hi: nat, size: T -> int)
    requires NonNegative(size) && lo <= hi <= |items|
    ensures Sum(items[lo..hi], size) <= Sum(items, size)
  {
    assert items == items[..lo] + items[lo..hi] + items[hi..];
    SumAppend(items[..lo] + items[lo..hi], items[hi..], size);
    SumAppend(items[..lo], items[lo..hi], size);
    SumNonNegative(items[..lo], size);
    SumNonNegative(items[hi..], size);
  }

  /** Greedy batches of the end of a sequence are no more than the batches of any split of the whole sequence. */
  lemma {:induction false} StaysAhead<T(!new)>(batches: seq<seq<T>>, others: seq<seq<T>>, size: T -> int, limit: int)
    requires NonNegative(size) && Greedy(batches, size, limit)
    requires batches != [] ==> batches[0] != []
    requires forall i :: 0 <= i < |others| ==> Sum(others[i], size) <= limit
    requires |Concat(batches)| <= |Concat(others)|
    requires Concat(others)[|Concat(others)| - |Concat(batches)|..] == Concat(batches)
    ensures |batches| <= |others|
    decreases |batches|
  {
    if batches != [] {
      var first, rest, late := batches[0], Concat(batches[1..]), Concat(others[1..]);
      CatchesUp(batches, others, size, limit);
      assert late[|late| - |rest|..] == Concat(others)[|Concat(others)| - |rest|..] == Concat(batches)[|first|..] == rest;
      StaysAhead(batches[1..], others[1..], size, limit);
    }
  }

  /** The first of the other batches cannot hold the first greedy batch and an item of the second. */
  lemma CatchesUp<T(!new)>(batches: seq<seq<T>>, others: seq<seq<T>>, size: T -> int, limit: int)
    requires NonNegative(size) && Greedy(batches, size, limit) && batches != [] && others != []
    requires Sum(others[0], size) <= limit
    requires |Concat(batches)| <= |Concat(others)|
    requires Concat(others)[|Concat(others)| - |Concat(batches)|..] == Concat(batches)
    ensures |Concat(batches[1..])| <= |Concat(others[1..])|
  {
    var first, rest, late := batches[0], Concat(batches[1..]), Concat(others[1..]);
    var skipped := |Concat(others)| - |Concat(batches)|;
    if |rest| > |late| {
      var next := batches[1][0];
      assert batches[1..][0] == batches[1] && rest[0] == next;
      var hi := skipped + |first| + 1;
      assert others[0][skipped..hi] == Concat(others)[skipped..hi] == Concat(batches)[..|first| + 1] == first + [next];
      SumAppend(first, [next], size);
      SumOne(next, size);
      PartSum(others[0], skipped, hi, size);
      assert false;
    }
  }

  /** For sizes that are not negative, no order-preserving split of a non-empty list of items into batches within the
      limit has fewer batches. */
  lemma {:induction false} FewestBatches<T(!new)>(items: seq<T>, batches: seq<seq<T>>, others: seq<seq<T>>,
                                                  size: T -> int, limit: int)
    requires NonNegative(size) && items != [] && Grouped(batches, items, size, limit)
    requires Concat(others) == items && forall i :: 0 <= i < |others| ==> Sum(others[i], size) <= limit
    ensures |batches| <= |others|
  {
    StaysAhead(batches, others, size, limit);
  }

  // ------------------------------------------------------------ how full the batches are

  /** Two neighbouring batches exceed the limit together, so m batches need a total beyond floor(m / 2) limits. */
  lemma {:induction false} HalfFull<T(!new)>(batches: seq<seq<T>>, size: T -> int, limit: int)
    requires NonNegative(size) && Greedy(batches, size, limit)
    ensures Sum(Concat(batches), size) >= (|batches| / 2) * (limit + 1)
    decreases |batches|
  {
    SumNonNegative(Concat(batches), size);
    if |batches| >= 2 {
      var rest := batches[2..];
      HalfFull(rest, size, limit);
      assert Concat(batches) == batches[0] + (batches[1] + Concat(rest)) by {
        assert batches[1..][1..] == rest;
      }
      SumAppend(batches[0], batches[1] + Concat(rest), size);
      SumAppend(batches[1], Concat(rest), size);
      SumNonNegative(batches[1][1..], size);
      assert Sum(batches[0], size) + Sum(batches[1], size) >= limit + 1;
      hide Sum, Concat, Greedy, NonNegative;
      TwoMore(|rest|, limit + 1);
    }
  }

  lemma TwoMore(n: nat, limit: int)
    ensures ((n + 2) / 2) * limit == (n / 2) * limit + limit
  {
    assert (n + 2) / 2 == n / 2 + 1;
  }

  lemma TotalExceedsHalf<T(!new)>(batches: seq<seq<T>>, size: T -> int, limit: int)
    requires NonNegative(size) && Greedy(batches, size, limit) && |batches| >= 2
    ensures (|batches| / 2) * limit < Sum(Concat(batches), size)
  {
    HalfFull(batches, size, limit);
    hide Sum, Concat, Greedy;
    OneMore(|batches| / 2, limit);
  }

  lemma OneMore(a: int, b: int)
    ensures a * (b + 1) == a * b + a
  {
  }
}

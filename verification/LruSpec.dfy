/**
 The elastic LRU cache as a policy on its list of keys, most recent first, and what it guarantees
 over whole runs in comparison with strict LRU caches.
 */
module LruSpec {
  import opened Sequences

  function Min(a: nat, b: nat): nat { if a <= b then a else b }

  function Max(a: int, b: int): int { if a <= b then b else a }

  // ---- one access ----

  function Without<K(==)>(keys: seq<K>, k: K): seq<K> {
    if keys == [] then []
    else Without(keys[..|keys| - 1], k) + if keys[|keys| - 1] == k then [] else [keys[|keys| - 1]]
  }

  // A full cache is cut back to its maximal size, but only once it has used up its elasticity.
  function Pruned<K>(keys: seq<K>, maxSize: nat, elasticity: nat): seq<K> {
    if maxSize == 0 || |keys| < maxSize + elasticity then keys else FirstOf(keys, maxSize)
  }

  function Touch<K(==)>(keys: seq<K>, k: K, maxSize: nat, elasticity: nat): seq<K> {
    if k in keys then [k] + Without(keys, k) else Pruned([k] + keys, maxSize, elasticity)
  }

  // ---- runs from the empty cache ----

  function RunOf<K(==)>(accesses: seq<K>, maxSize: nat, elasticity: nat): seq<K> {
    if accesses == [] then []
    else Touch(RunOf(accesses[..|accesses| - 1], maxSize, elasticity), accesses[|accesses| - 1], maxSize, elasticity)
  }

  // All keys accessed so far, by most recent use.
  function Recency<K(==)>(accesses: seq<K>): seq<K> {
    if accesses == [] then []
    else [accesses[|accesses| - 1]] + Without(Recency(accesses[..|accesses| - 1]), accesses[|accesses| - 1])
  }

  // A strict LRU cache drops the least recent key as soon as it exceeds its capacity.
  function StrictRun<K(==)>(accesses: seq<K>, capacity: nat): seq<K> {
    if accesses == [] then []
    else StrictTouch(StrictRun(accesses[..|accesses| - 1], capacity), accesses[|accesses| - 1], capacity)
  }

  function StrictTouch<K(==)>(keys: seq<K>, k: K, capacity: nat): seq<K> {
    FirstOf([k] + Without(keys, k), capacity)
  }

  function FirstOf<K>(keys: seq<K>, n: nat): seq<K> {
    keys[..Min(n, |keys|)]
  }

  // ---- removing a key ----

  lemma {:induction false} WithoutConcat<K>(a: seq<K>, b: seq<K>, k: K)
    ensures Without(a + b, k) == Without(a, k) + Without(b, k)
  {
    if b == [] {
      assert a + b == a;
    } else {
      assert (a + b)[..|a + b| - 1] == a + b[..|b| - 1];
      WithoutConcat(a, b[..|b| - 1], k);
    }
  }

  lemma {:induction false} WithoutAbsent<K>(a: seq<K>, k: K)
    requires k !in a
    ensures Without(a, k) == a
  {
    if a != [] {
      assert a == a[..|a| - 1] + [a[|a| - 1]];
      WithoutAbsent(a[..|a| - 1], k);
    }
  }

  lemma {:induction false} WithoutFacts<K(!new)>(a: seq<K>, k: K)
    requires NoDuplicates(a)
    ensures NoDuplicates(Without(a, k))
    ensures forall x :: x in Without(a, k) <==> x in a && x != k
    ensures |Without(a, k)| == if k in a then |a| - 1 else |a|
  {
    if a != [] {
      var init, last := a[..|a| - 1], a[|a| - 1];
      assert a == init + [last];
      assert last !in init;
      WithoutFacts(init, k);
    }
  }

  lemma WithoutItself<K>(k: K)
    ensures Without([k], k) == []
  {
    assert [k][..0] == [];
  }

  lemma WithoutBetween<K>(before: seq<K>, k: K, after: seq<K>)
    requires k !in before && k !in after
    ensures Without(before + [k] + after, k) == before + after
  {
    hide Without;
    WithoutConcat(before + [k], after, k);
    WithoutConcat(before, [k], k);
    WithoutAbsent(before, k);
    WithoutAbsent(after, k);
    WithoutItself(k);
  }

  // Removing a key from a list keeps its prefixes prefixes.
  lemma {:induction false} WithoutPrefix<K(!new)>(a: seq<K>, n: nat, k: K)
    requires NoDuplicates(a) && n <= |a|
    ensures Without(a[..n], k) <= Without(a, k)
  {
    assert a == a[..n] + a[n..];
    WithoutConcat(a[..n], a[n..], k);
  }

  lemma {:induction false} RecencyFacts<K(!new)>(accesses: seq<K>)
    ensures NoDuplicates(Recency(accesses))
    ensures forall k :: k in Recency(accesses) <==> k in accesses
  {
    if accesses != [] {
      var init, last := accesses[..|accesses| - 1], accesses[|accesses| - 1];
      assert accesses == init + [last];
      RecencyFacts(init);
      WithoutFacts(Recency(init), last);
      NoDuplicatesConcat([last], Without(Recency(init), last));
    }
  }

  /**
   The recency order is by last use: whatever stands earlier has a use after which nothing that stands
   later is used.
   */
  lemma {:induction false} RecencyIsByLastUse<K(!new)>(accesses: seq<K>, i: nat, j: nat) returns (p: nat)
    requires i < j < |Recency(accesses)|
    ensures p < |accesses| && accesses[p] == Recency(accesses)[i] && Recency(accesses)[j] !in accesses[p..]
  {
    var init, last := accesses[..|accesses| - 1], accesses[|accesses| - 1];
    var before, order := Recency(init), Recency(accesses);
    RecencyFacts(accesses);
    RecencyFacts(init);
    assert order[0] == last && order[i] != order[j];
    if i == 0 {
      p := |accesses| - 1;
      assert accesses[p..] == [last];
    } else {
      WithoutKeepsOrder(before, last, i - 1, j - 1);
      var i', j' := PositionsBefore(before, last, i - 1, j - 1);
      p := RecencyIsByLastUse(init, i', j');
      assert accesses[p..] == init[p..] + [last];
      assert order[j] != order[0];
    }
  }

  lemma WithoutKeepsOrder<K(!new)>(a: seq<K>, k: K, i: nat, j: nat)
    requires i < j < |Without(a, k)|
    ensures Without(a, k)[i] != k && Without(a, k)[j] != k
  {
    WithoutDrops(a, k);
    assert Without(a, k)[i] in Without(a, k) && Without(a, k)[j] in Without(a, k);
  }

  lemma {:induction false} WithoutDrops<K(!new)>(a: seq<K>, k: K)
    ensures k !in Without(a, k)
  {
    if a != [] {
      WithoutDrops(a[..|a| - 1], k);
    }
  }

  // Where two keys of the shortened list stood before, in the same order.
  lemma {:induction false} PositionsBefore<K(!new)>(a: seq<K>, k: K, i: nat, j: nat) returns (i': nat, j': nat)
    requires i < j < |Without(a, k)|
    ensures i' < j' < |a| && a[i'] == Without(a, k)[i] && a[j'] == Without(a, k)[j]
  {
    var init, last := a[..|a| - 1], a[|a| - 1];
    if j < |Without(init, k)| {
      i', j' := PositionsBefore(init, k, i, j);
    } else {
      j' := |a| - 1;
      i' := PositionBefore(init, k, i);
    }
  }

  lemma {:induction false} PositionBefore<K(!new)>(a: seq<K>, k: K, i: nat) returns (i': nat)
    requires i < |Without(a, k)|
    ensures i' < |a| && a[i'] == Without(a, k)[i]
  {
    var init := a[..|a| - 1];
    if i < |Without(init, k)| {
      i' := PositionBefore(init, k, i);
    } else {
      i' := |a| - 1;
    }
  }

  /**
   One access, case by case: a hit moves its key to the front and leaves the order of the others; a
   miss puts it in front and, only when the cache then holds its maximal size and the elasticity,
   keeps just the most recent ones.
   */
  lemma AccessExactly<K(!new)>(before: seq<K>, k: K, after: seq<K>, maxSize: nat, elasticity: nat)
    requires k !in before && k !in after
    ensures Touch(before + [k] + after, k, maxSize, elasticity) == [k] + before + after
    ensures maxSize == 0 || |before| + 1 < maxSize + elasticity ==> Touch(before, k, maxSize, elasticity) == [k] + before
    ensures maxSize > 0 && maxSize + elasticity <= |before| + 1 && maxSize <= |before| + 1 ==>
      Touch(before, k, maxSize, elasticity) == [k] + before[..maxSize - 1]
    ensures k in before + [k] + after
  {
    WithoutBetween(before, k, after);
    hide Without;
    assert (before + [k] + after)[|before|] == k;
    assert [k] + (before + after) == [k] + before + after;
    if maxSize > 0 && maxSize <= |before| + 1 {
      assert ([k] + before)[..maxSize] == [k] + before[..maxSize - 1];
    }
  }

  // ---- the elastic cache against the recency order ----

  /** The list is always a prefix of the recency order, and its length stays within two bounds. */
  lemma {:induction false} RunIsRecencyPrefix<K(!new)>(accesses: seq<K>, maxSize: nat, elasticity: nat)
    ensures RunOf(accesses, maxSize, elasticity) <= Recency(accesses)
    ensures WithinBounds(|RunOf(accesses, maxSize, elasticity)|, |Recency(accesses)|, maxSize, elasticity)
  {
    if accesses != [] {
      var init, k := accesses[..|accesses| - 1], accesses[|accesses| - 1];
      RunIsRecencyPrefix(init, maxSize, elasticity);
      RecencyFacts(init);
      TouchKeepsPrefix(RunOf(init, maxSize, elasticity), Recency(init), k, maxSize, elasticity);
      TouchKeepsBounds(RunOf(init, maxSize, elasticity), Recency(init), k, maxSize, elasticity);
      hide Touch, Without, NoDuplicates;
    }
  }

  lemma TouchKeepsPrefix<K(!new)>(keys: seq<K>, recency: seq<K>, k: K, maxSize: nat, elasticity: nat)
    requires NoDuplicates(recency) && keys <= recency
    ensures Touch(keys, k, maxSize, elasticity) <= [k] + Without(recency, k)
  {
    assert keys == recency[..|keys|];
    WithoutPrefix(recency, |keys|, k);
    if k !in keys {
      WithoutAbsent(keys, k);
    }
    hide Without, NoDuplicates;
  }

  // How many keys there are after an access, given whether the key was there before.
  function SizeAfter(size: nat, hit: bool, maxSize: nat, elasticity: nat): nat {
    if hit then size
    else if maxSize == 0 || size + 1 < maxSize + elasticity then size + 1
    else Min(maxSize, size + 1)
  }

  lemma TouchLength<K(!new)>(keys: seq<K>, k: K, maxSize: nat, elasticity: nat)
    requires NoDuplicates(keys)
    ensures |Touch(keys, k, maxSize, elasticity)| == SizeAfter(|keys|, k in keys, maxSize, elasticity)
  {
    WithoutFacts(keys, k);
    hide Without, NoDuplicates;
  }

  ghost predicate WithinBounds(size: nat, all: nat, maxSize: nat, elasticity: nat) {
    if maxSize == 0 then size == all
    else Min(maxSize, all) <= size <= Max(maxSize, maxSize + elasticity - 1)
  }

  lemma SizeStaysWithinBounds(size: nat, all: nat, hit: bool, seen: bool, maxSize: nat, elasticity: nat)
    requires WithinBounds(size, all, maxSize, elasticity)
    requires size <= all && (hit ==> seen && 0 < size) && (size == all ==> hit == seen)
    ensures WithinBounds(SizeAfter(size, hit, maxSize, elasticity), if seen then all else all + 1, maxSize, elasticity)
  {
  }

  lemma TouchKeepsBounds<K(!new)>(keys: seq<K>, recency: seq<K>, k: K, maxSize: nat, elasticity: nat)
    requires NoDuplicates(recency) && keys <= recency
    requires WithinBounds(|keys|, |recency|, maxSize, elasticity)
    ensures WithinBounds(|Touch(keys, k, maxSize, elasticity)|, 1 + |Without(recency, k)|, maxSize, elasticity)
  {
    hide Without, Touch, WithinBounds, SizeAfter;
    var n := |keys|;
    assert keys == recency[..n];
    TouchLength(keys, k, maxSize, elasticity);
    WithoutFacts(recency, k);
    hide NoDuplicates;
    SizeStaysWithinBounds(n, |recency|, k in keys, k in recency, maxSize, elasticity);
  }

  lemma FirstOfPrefix<K>(a: seq<K>, b: seq<K>, n: nat)
    requires n <= |a|
    ensures FirstOf(a + b, n) == FirstOf(a, n)
  {
  }

  // Keys that a strict cache has dropped cannot come back into its capacity by an access.
  lemma StrictTouchForgets<K(!new)>(kept: seq<K>, dropped: seq<K>, k: K)
    requires NoDuplicates(kept)
    ensures FirstOf([k] + Without(kept + dropped, k), |kept|) == FirstOf([k] + Without(kept, k), |kept|)
  {
    WithoutFacts(kept, k);
    WithoutConcat(kept, dropped, k);
    hide Without, NoDuplicates, FirstOf;
    assert [k] + (Without(kept, k) + Without(dropped, k)) == ([k] + Without(kept, k)) + Without(dropped, k);
    FirstOfPrefix([k] + Without(kept, k), Without(dropped, k), |kept|);
  }

  lemma StrictTouchIsPrefix<K(!new)>(recency: seq<K>, k: K, capacity: nat)
    requires NoDuplicates(recency)
    ensures StrictTouch(FirstOf(recency, capacity), k, capacity) == FirstOf([k] + Without(recency, k), capacity)
  {
    hide Without;
    var kept, dropped := FirstOf(recency, capacity), recency[Min(capacity, |recency|)..];
    assert recency == kept + dropped;
    if capacity < |recency| {
      StrictTouchForgets(kept, dropped, k);
    } else {
      assert kept == recency;
    }
  }

  /** A strict cache of any capacity holds exactly that many of the most recent keys. */
  lemma {:induction false} StrictIsRecencyPrefix<K(!new)>(accesses: seq<K>, capacity: nat)
    ensures StrictRun(accesses, capacity) == FirstOf(Recency(accesses), capacity)
  {
    if accesses != [] {
      var init, k := accesses[..|accesses| - 1], accesses[|accesses| - 1];
      StrictIsRecencyPrefix(init, capacity);
      RecencyFacts(init);
      StrictTouchIsPrefix(Recency(init), k, capacity);
    }
  }

  /**
   Every hit of a strict cache of the maximal size is a hit here, and every hit here is a hit of a
   strict cache that is larger by the elasticity less one.
   */
  lemma HitsBetweenStrictCaches<K(!new)>(accesses: seq<K>, k: K, maxSize: nat, elasticity: nat)
    requires maxSize > 0
    ensures k in StrictRun(accesses, maxSize) ==> k in RunOf(accesses, maxSize, elasticity)
    ensures k in RunOf(accesses, maxSize, elasticity) ==> k in StrictRun(accesses, Max(maxSize, maxSize + elasticity - 1))
  {
    RunIsRecencyPrefix(accesses, maxSize, elasticity);
    StrictIsRecencyPrefix(accesses, maxSize);
    StrictIsRecencyPrefix(accesses, Max(maxSize, maxSize + elasticity - 1));
  }

  // ---- amortized pruning ----

  datatype Counters = Counters(misses: nat, evictions: nat, firings: nat)

  function Count<K(==)>(accesses: seq<K>, maxSize: nat, elasticity: nat): Counters {
    if accesses == [] then Counters(0, 0, 0)
    else
      var init, k := accesses[..|accesses| - 1], accesses[|accesses| - 1];
      Counted(Count(init, maxSize, elasticity), RunOf(init, maxSize, elasticity), k, maxSize, elasticity)
  }

  function Counted<K(==)>(before: Counters, keys: seq<K>, k: K, maxSize: nat, elasticity: nat): Counters {
    if k in keys then before
    else
      var removed := |keys| + 1 - |Touch(keys, k, maxSize, elasticity)|;
      if removed <= 0 then before.(misses := before.misses + 1)
      else Counters(before.misses + 1, before.evictions + removed, before.firings + 1)
  }

  ghost predicate Balanced(counters: Counters, size: nat, maxSize: nat, elasticity: nat) {
    && counters.evictions + size == counters.misses
    && (maxSize > 0 && elasticity > 0 ==> counters.evictions == counters.firings * elasticity)
  }

  lemma AccessKeepsBalance<K(!new)>(before: Counters, keys: seq<K>, k: K, maxSize: nat, elasticity: nat)
    requires NoDuplicates(keys)
    requires maxSize > 0 ==> |keys| <= Max(maxSize, maxSize + elasticity - 1)
    requires Balanced(before, |keys|, maxSize, elasticity)
    ensures Balanced(Counted(before, keys, k, maxSize, elasticity), |Touch(keys, k, maxSize, elasticity)|, maxSize, elasticity)
  {
    TouchLength(keys, k, maxSize, elasticity);
    hide Touch, NoDuplicates;
    assert (before.firings + 1) * elasticity == before.firings * elasticity + elasticity;
  }

  /**
   Evicted and present entries add up to the misses, and each pruning that fires removes exactly
   `elasticity` entries, so that prunings are amortized over the misses.
   */
  lemma {:induction false} PruningIsAmortized<K(!new)>(accesses: seq<K>, maxSize: nat, elasticity: nat)
    ensures
      var counters := Count(accesses, maxSize, elasticity);
      && counters.evictions + |RunOf(accesses, maxSize, elasticity)| == counters.misses
      && (maxSize > 0 && elasticity > 0 ==>
            counters.evictions == counters.firings * elasticity <= counters.misses)
  {
    RunIsBalanced(accesses, maxSize, elasticity);
    hide Count, RunOf;
  }

  lemma {:induction false} RunIsBalanced<K(!new)>(accesses: seq<K>, maxSize: nat, elasticity: nat)
    ensures Balanced(Count(accesses, maxSize, elasticity), |RunOf(accesses, maxSize, elasticity)|, maxSize, elasticity)
  {
    if accesses != [] {
      var init, k := accesses[..|accesses| - 1], accesses[|accesses| - 1];
      var keys := RunOf(init, maxSize, elasticity);
      RunIsBalanced(init, maxSize, elasticity);
      assert NoDuplicates(keys) by {
        RunIsRecencyPrefix(init, maxSize, elasticity);
        RecencyFacts(init);
        assert keys == Recency(init)[..|keys|];
      }
      RunIsRecencyPrefix(init, maxSize, elasticity);
      AccessKeepsBalance(Count(init, maxSize, elasticity), keys, k, maxSize, elasticity);
      hide Touch, Counted, Balanced, NoDuplicates;
    }
  }
}

/**
 The elastic LRU cache itself: a hash map into a doubly linked list of nodes, both updated in
 place. Every public operation is stated in terms of the list of keys, most recent first.
 */
module LruCache {
  import opened Wrappers
  import opened Sequences
  import opened LruSpec

  class ListNode<K, V> {
    const key: K
    const value: V
    var prev: ListNode?<K, V>
    var next: ListNode?<K, V>

    constructor (key: K, value: V)
      ensures this.key == key && this.value == value && prev == null && next == null
    {
      this.key, this.value, prev, next := key, value, null, null;
    }
  }

  function KeysOf<K, V>(nodes: seq<ListNode<K, V>>): (keys: seq<K>)
    ensures |keys| == |nodes| && forall i :: 0 <= i < |nodes| ==> keys[i] == nodes[i].key
  {
    if nodes == [] then [] else [nodes[0].key] + KeysOf(nodes[1..])
  }

  ghost function Before<K, V>(nodes: seq<ListNode<K, V>>, i: nat): ListNode?<K, V>
    requires i < |nodes|
  {
    if i == 0 then null else nodes[i - 1]
  }

  ghost function After<K, V>(nodes: seq<ListNode<K, V>>, i: nat): ListNode?<K, V>
    requires i < |nodes|
  {
    if i == |nodes| - 1 then null else nodes[i + 1]
  }

  // ---- the map against the list ----

  // Map and list hold the same entries, each under its own key, so no key has two of them.
  ghost predicate Indexes<K, V>(cache: map<K, ListNode<K, V>>, nodes: seq<ListNode<K, V>>) {
    && (forall n :: n in nodes ==> n.key in cache && cache[n.key] == n)
    && (forall k :: k in cache ==> cache[k] in nodes && cache[k].key == k)
  }

  lemma {:induction false} IndexedKeys<K(!new), V>(cache: map<K, ListNode<K, V>>, nodes: seq<ListNode<K, V>>)
    requires Indexes(cache, nodes) && NoDuplicates(nodes)
    ensures NoDuplicates(KeysOf(nodes)) && |cache| == |nodes|
    ensures forall k :: k in cache <==> k in KeysOf(nodes)
  {
    var keys := KeysOf(nodes);
    forall i, j | 0 <= i < j < |nodes| ensures keys[i] != keys[j] {
      assert nodes[i] in nodes && nodes[j] in nodes;
    }
    forall k | k in cache ensures k in keys {
      var i :| 0 <= i < |nodes| && nodes[i] == cache[k];
      assert keys[i] == k;
    }
    forall k | k in keys ensures k in cache {
      var i :| 0 <= i < |nodes| && keys[i] == k;
      assert nodes[i] in nodes;
    }
    DistinctSize(keys, cache.Keys);
  }

  lemma IndexedSize<K(!new), V>(cache: map<K, ListNode<K, V>>, nodes: seq<ListNode<K, V>>)
    requires Indexes(cache, nodes) && NoDuplicates(nodes)
    ensures |cache| == |nodes|
  {
    IndexedKeys(cache, nodes);
  }

  lemma IndexInsert<K, V>(cache: map<K, ListNode<K, V>>, nodes: seq<ListNode<K, V>>, n: ListNode<K, V>)
    requires Indexes(cache, nodes) && n.key !in cache
    ensures Indexes(cache[n.key := n], [n] + nodes)
  {
  }

  lemma IndexEvict<K, V>(cache: map<K, ListNode<K, V>>, nodes: seq<ListNode<K, V>>)
    requires Indexes(cache, nodes) && NoDuplicates(nodes) && nodes != []
    ensures Indexes(cache - {nodes[|nodes| - 1].key}, nodes[..|nodes| - 1])
  {
    var init, last := nodes[..|nodes| - 1], nodes[|nodes| - 1];
    assert nodes == init + [last];
    assert last !in init && last in nodes;
  }

  lemma IndexMoveToFront<K, V>(cache: map<K, ListNode<K, V>>, before: seq<ListNode<K, V>>, n: ListNode<K, V>, after: seq<ListNode<K, V>>)
    requires Indexes(cache, before + [n] + after)
    ensures Indexes(cache, [n] + (before + after))
  {
    assert forall x :: x in before + [n] + after <==> x in [n] + (before + after);
  }

  lemma KeysOfConcat<K, V>(a: seq<ListNode<K, V>>, b: seq<ListNode<K, V>>)
    ensures KeysOf(a + b) == KeysOf(a) + KeysOf(b)
  {
  }

  lemma KeyOccursOnce<K>(left: seq<K>, k: K, right: seq<K>)
    requires NoDuplicates(left + [k] + right)
    ensures k !in left && k !in right
  {
    var keys := left + [k] + right;
    assert keys[|left|] == k;
    assert forall i :: 0 <= i < |left| ==> keys[i] == left[i];
    assert forall i :: 0 <= i < |right| ==> keys[|left| + 1 + i] == right[i];
  }

  lemma KeysOfPruned<K, V>(nodes: seq<ListNode<K, V>>, maxSize: nat, elasticity: nat)
    ensures KeysOf(Pruned(nodes, maxSize, elasticity)) == Pruned(KeysOf(nodes), maxSize, elasticity)
  {
  }

  // Moving a node to the front is what a hit does to the keys.
  lemma MoveToFrontIsTouch<K(!new), V>(before: seq<ListNode<K, V>>, n: ListNode<K, V>, after: seq<ListNode<K, V>>,
                                       maxSize: nat, elasticity: nat)
    requires NoDuplicates(KeysOf(before + [n] + after))
    ensures KeysOf([n] + (before + after)) == Touch(KeysOf(before + [n] + after), n.key, maxSize, elasticity)
  {
    var keys, left, right := KeysOf(before + [n] + after), KeysOf(before), KeysOf(after);
    assert keys == left + [n.key] + right by {
      KeysOfConcat(before + [n], after);
      KeysOfConcat(before, [n]);
    }
    assert KeysOf([n] + (before + after)) == [n.key] + (left + right) by {
      KeysOfConcat([n], before + after);
      KeysOfConcat(before, after);
    }
    hide KeysOf;
    KeyOccursOnce(left, n.key, right);
    WithoutBetween(left, n.key, right);
  }

  // Putting a new node in front and pruning is what a miss does to the keys, and the node survives.
  lemma InsertIsTouch<K(!new), V>(n: ListNode<K, V>, rest: seq<ListNode<K, V>>, pruned: seq<ListNode<K, V>>, maxSize: nat, elasticity: nat)
    requires n.key !in KeysOf(rest) && pruned == Pruned([n] + rest, maxSize, elasticity)
    ensures KeysOf(pruned) == Touch(KeysOf(rest), n.key, maxSize, elasticity)
    ensures pruned != [] && pruned[0] == n && pruned <= [n] + rest
  {
    assert KeysOf([n] + rest) == [n.key] + KeysOf(rest);
    KeysOfPruned([n] + rest, maxSize, elasticity);
  }

  lemma RunExtends<K>(history: seq<K>, k: K, maxSize: nat, elasticity: nat)
    ensures RunOf(history + [k], maxSize, elasticity) == Touch(RunOf(history, maxSize, elasticity), k, maxSize, elasticity)
  {
    assert (history + [k])[..|history|] == history;
  }

  // ---- the list after unlinking one node ----

  lemma UnlinkedNeighbours<K, V>(nodes: seq<ListNode<K, V>>, i: nat, j: nat)
    requires i < |nodes| && j < |nodes| - 1
    ensures
      var rest, j' := nodes[..i] + nodes[i + 1..], if j < i then j else j + 1;
      && rest[j] == nodes[j']
      && Before(rest, j) == (if j == i then Before(nodes, i) else Before(nodes, j'))
      && After(rest, j) == (if j + 1 == i then After(nodes, i) else After(nodes, j'))
  {
  }

  class SyncedLRUCache<K(==,!new), V> {
    const maxSize: nat
    const elasticity: nat
    // What constructing the value for a key yields; `None` is a constructor that throws.
    const build: K -> Option<V>
    var cache: map<K, ListNode<K, V>>
    var head: ListNode?<K, V>
    var tail: ListNode?<K, V>
    ghost var nodes: seq<ListNode<K, V>>
    // The keys accessed successfully since the cache was last empty.
    ghost var history: seq<K>

    ghost predicate Linked()
      reads this`head, this`tail, this`nodes, nodes
    {
      NoDuplicates(nodes) && Forward(nodes) && Backward(nodes)
    }

    // From the head, `next` leads through exactly these nodes.
    ghost predicate Forward(chain: seq<ListNode<K, V>>)
      reads this`head, chain`next
    {
      && head == (if chain == [] then null else chain[0])
      && (forall i {:trigger chain[i].next} :: 0 <= i < |chain| ==> chain[i].next == After(chain, i))
    }

    // From the tail, `prev` leads back through exactly these nodes.
    ghost predicate Backward(chain: seq<ListNode<K, V>>)
      reads this`tail, chain`prev
    {
      && tail == (if chain == [] then null else chain[|chain| - 1])
      && (forall i {:trigger chain[i].prev} :: 0 <= i < |chain| ==> chain[i].prev == Before(chain, i))
    }

    ghost predicate Built()
      reads this`nodes
    {
      forall n :: n in nodes ==> build(n.key) == Some(n.value)
    }

    ghost predicate Valid()
      reads this, nodes
    {
      && Linked()
      && Indexes(cache, nodes)
      && Built()
      && Keys() == RunOf(history, maxSize, elasticity)
    }

    ghost function Keys(): seq<K>
      reads this`nodes
    {
      KeysOf(nodes)
    }

    constructor (maxSize: nat, elasticity: nat, build: K -> Option<V>)
      ensures Valid() && Keys() == [] && history == []
      ensures this.maxSize == maxSize && this.elasticity == elasticity && this.build == build
    {
      this.maxSize, this.elasticity, this.build := maxSize, elasticity, build;
      cache, head, tail, nodes, history := map[], null, null, [], [];
    }

    method Size() returns (size: nat)
      requires Valid()
      ensures size == |Keys()|
    {
      IndexedKeys(cache, nodes);
      size := |cache|;
    }

    method Clear()
      requires Valid()
      modifies this
      ensures Valid() && Keys() == [] && history == [] && cache == map[]
    {
      cache, head, tail, nodes, history := map[], null, null, [], [];
    }

    // ---- list surgery ----

    method LinkFront(n: ListNode<K, V>)
      requires Linked() && n !in nodes && n.prev == null && n.next == null
      modifies this`head, this`tail, this`nodes, n, nodes
      ensures Linked() && nodes == [n] + old(nodes)
    {
      n.next := head;
      if head == null {
        tail := n;
      } else {
        head.prev := n;
      }
      head := n;
      nodes := [n] + nodes;
      forall i | 0 <= i < |nodes| ensures nodes[i].prev == Before(nodes, i) && nodes[i].next == After(nodes, i) {
        if i > 0 {
          assert nodes[i] == old(nodes)[i - 1];
          assert old(nodes[i - 1].prev) == Before(old(nodes), i - 1) && old(nodes[i - 1].next) == After(old(nodes), i - 1);
        }
      }
    }

    method BypassForward(n: ListNode<K, V>, ghost i: nat)
      requires NoDuplicates(nodes) && Forward(nodes) && i < |nodes| && nodes[i] == n
      requires n.prev == Before(nodes, i)
      modifies this`head, nodes`next
      ensures Forward(nodes[..i] + nodes[i + 1..])
      ensures n.next == old(n.next)
    {
      ghost var rest := nodes[..i] + nodes[i + 1..];
      if n.prev == null {
        head := n.next;
      } else {
        n.prev.next := n.next;
      }
      forall j | 0 <= j < |rest| ensures rest[j].next == After(rest, j) {
        UnlinkedNeighbours(nodes, i, j);
        var j' := if j < i then j else j + 1;
        assert old(nodes[j'].next) == After(nodes, j');
      }
    }

    method BypassBackward(n: ListNode<K, V>, ghost i: nat)
      requires NoDuplicates(nodes) && Backward(nodes) && i < |nodes| && nodes[i] == n
      requires n.next == After(nodes, i)
      modifies this`tail, nodes`prev
      ensures Backward(nodes[..i] + nodes[i + 1..])
      ensures n.prev == old(n.prev)
    {
      ghost var rest := nodes[..i] + nodes[i + 1..];
      if n.next == null {
        tail := n.prev;
      } else {
        n.next.prev := n.prev;
      }
      forall j | 0 <= j < |rest| ensures rest[j].prev == Before(rest, j) {
        UnlinkedNeighbours(nodes, i, j);
        var j' := if j < i then j else j + 1;
        assert old(nodes[j'].prev) == Before(nodes, j');
      }
    }

    method Unlink(n: ListNode<K, V>, ghost i: nat)
      requires Linked() && i < |nodes| && nodes[i] == n
      modifies this`head, this`tail, this`nodes, nodes
      ensures Linked() && nodes == old(nodes[..i] + nodes[i + 1..])
      ensures n.prev == null && n.next == null && n !in nodes
    {
      ghost var rest := nodes[..i] + nodes[i + 1..];
      assert nodes[i].prev == Before(nodes, i) && nodes[i].next == After(nodes, i);
      assert NoDuplicates(rest) && n !in rest;
      hide Forward, Backward, NoDuplicates;
      BypassForward(n, i);
      BypassBackward(n, i);
      n.prev, n.next := null, null;
      nodes := rest;
    }

    lemma LinkedIsDistinct()
      requires Linked()
      ensures NoDuplicates(nodes)
    {
    }

    lemma SizesAgree()
      requires Linked() && Indexes(cache, nodes)
      ensures |cache| == |nodes|
    {
      IndexedSize(cache, nodes);
    }

    lemma FindIsRight(key: K)
      requires Linked() && Indexes(cache, nodes)
      ensures key in cache <==> key in Keys()
      ensures key in cache ==> cache[key] in nodes && cache[key].key == key
    {
      IndexedKeys(cache, nodes);
    }

    // ---- pruning ----

    method EvictBack()
      requires Linked() && Indexes(cache, nodes) && nodes != []
      modifies this`cache, this`head, this`tail, this`nodes, nodes
      ensures Linked() && Indexes(cache, nodes) && nodes == old(nodes[..|nodes| - 1])
    {
      IndexEvict(cache, nodes);
      cache := cache - {tail.key};
      hide Indexes;
      Unlink(tail, |nodes| - 1);
      assert nodes == old(nodes[..|nodes| - 1]);
    }

    method Prune() returns (count: nat)
      requires Linked() && Indexes(cache, nodes)
      modifies this`cache, this`head, this`tail, this`nodes, nodes
      ensures Linked() && Indexes(cache, nodes)
      ensures nodes == Pruned(old(nodes), maxSize, elasticity)
      ensures count == |old(nodes)| - |nodes|
    {
      hide Linked, Indexes, KeysOf, NoDuplicates;
      SizesAgree();
      count := 0;
      if maxSize == 0 || |cache| < maxSize + elasticity {
        return;
      }
      ghost var all := nodes;
      while |cache| > maxSize
        invariant Linked() && Indexes(cache, nodes) && |cache| == |nodes|
        invariant count <= |all| && nodes == all[..|all| - count]
        invariant count > 0 ==> |nodes| >= maxSize
        modifies this`cache, this`head, this`tail, this`nodes, all
      {
        EvictBack();
        SizesAgree();
        count := count + 1;
      }
    }

    // ---- access ----

    lemma FrontIsHead(n: ListNode<K, V>)
      requires Linked() && Indexes(cache, nodes) && nodes != [] && nodes[0] == n
      ensures n.key in cache && cache[n.key] == head == n
    {
    }

    method InsertFront(n: ListNode<K, V>)
      requires Linked() && Indexes(cache, nodes) && n.key !in cache && n.prev == null && n.next == null
      modifies this`cache, this`head, this`tail, this`nodes, n, nodes
      ensures Linked() && Indexes(cache, nodes) && nodes == [n] + old(nodes)
    {
      LinkFront(n);
      IndexInsert(cache, old(nodes), n);
      cache := cache[n.key := n];
    }

    method MoveToFront(n: ListNode<K, V>, ghost i: nat)
      requires Linked() && Indexes(cache, nodes) && i < |nodes| && nodes[i] == n
      modifies this`head, this`tail, this`nodes, nodes
      ensures Linked() && Indexes(cache, nodes) && nodes == [n] + old(nodes[..i] + nodes[i + 1..])
    {
      assert nodes == nodes[..i] + [n] + nodes[i + 1..];
      IndexMoveToFront(cache, nodes[..i], n, nodes[i + 1..]);
      Unlink(n, i);
      LinkFront(n);
    }

    method Insert(n: ListNode<K, V>)
      requires Linked() && Indexes(cache, nodes) && n.key !in Keys() && n.key !in cache && n.prev == null && n.next == null
      modifies this`cache, this`head, this`tail, this`nodes, n, nodes
      ensures Linked() && Indexes(cache, nodes) && nodes <= [n] + old(nodes)
      ensures n.key in cache && cache[n.key] == head == n
      ensures Keys() == Touch(old(Keys()), n.key, maxSize, elasticity)
    {
      hide Linked, Indexes, KeysOf, Touch, Pruned;
      InsertFront(n);
      var _ := Prune();
      InsertIsTouch(n, old(nodes), nodes, maxSize, elasticity);
      FrontIsHead(n);
    }

    method Refresh(n: ListNode<K, V>)
      requires Linked() && Indexes(cache, nodes) && n in nodes
      modifies this`head, this`tail, this`nodes, nodes
      ensures Linked() && Indexes(cache, nodes) 
      ensures n.key in cache && cache[n.key] == head == n
      ensures forall x :: x in nodes ==> x in old(nodes)
      ensures Keys() == Touch(old(Keys()), n.key, maxSize, elasticity)
    {
      ghost var i :| 0 <= i < |nodes| && nodes[i] == n;
      assert nodes == nodes[..i] + [n] + nodes[i + 1..];
      LinkedIsDistinct();
      IndexedKeys(cache, nodes);
      hide Linked, Indexes, KeysOf, Touch;
      MoveToFrontIsTouch(nodes[..i], n, nodes[i + 1..], maxSize, elasticity);
      MoveToFront(n, i);
      FrontIsHead(n);
    }

    /**
     The value is the one built from the key. A construction that throws leaves no trace; any other
     access brings the key to the front, where pruning does not reach it.
     */
    method Access(key: K) returns (value: Option<V>)
      requires Valid()
      modifies this, nodes
      ensures Valid()
      ensures value == build(key)
      ensures value.Some? ==>
        && Keys() == Touch(old(Keys()), key, maxSize, elasticity)
        && history == old(history) + [key]
        && key in cache && head == cache[key]
      ensures value.None? ==> unchanged(this) && forall n :: n in nodes ==> unchanged(n)
    {
      hide Linked, Indexes, Keys, KeysOf, Touch, RunOf, NoDuplicates;
      FindIsRight(key);
      RunExtends(history, key, maxSize, elasticity);
      if key !in cache {
        var built := build(key);
        if built == None {
          return None;
        }
        var n := new ListNode(key, built.value);
        Insert(n);
        value := Some(n.value);
      } else {
        var n := cache[key];
        Refresh(n);
        value := Some(n.value);
      }
      history := history + [key];
    }

    /**
     What holds of the cache at any time: the keys are the most recently used ones, in that order; a
     strict LRU cache of the maximal size would hold no key that is missing here; and a full cache is
     larger than the maximal size by less than the elasticity.
     */
    lemma HoldsMostRecentKeys(key: K)
      requires Valid() && maxSize > 0
      ensures Keys() <= Recency(history)
      ensures key in StrictRun(history, maxSize) ==> key in cache
      ensures key in cache ==> key in StrictRun(history, Max(maxSize, maxSize + elasticity - 1))
      ensures Min(maxSize, |Recency(history)|) <= |cache| <= Max(maxSize, maxSize + elasticity - 1)
    {
      hide Linked, Indexes, Touch, RunOf, StrictRun, Recency;
      FindIsRight(key);
      SizesAgree();
      RunIsRecencyPrefix(history, maxSize, elasticity);
      HitsBetweenStrictCaches(history, key, maxSize, elasticity);
    }

  }
}

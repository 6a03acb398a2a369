/** benchmarks/lru_cache.c: a doubly linked list between two sentinels, with an index array. */
module LruCache {
  import R = RecencyList

  const KEYS := 10000

  class Node {
    var key: int
    var val: int
    var prev: Node?
    var next: Node?

    constructor (key: int, val: int)
      ensures this.key == key && this.val == val && prev == null && next == null
    {
      this.key, this.val, prev, next := key, val, null, null;
    }
  }

  lemma MovedAt(ns: seq<Node>, i: nat, moved: seq<Node>)
    requires 0 < i < |ns| - 1
    requires moved == [ns[0], ns[i]] + (ns[..i] + ns[i + 1..])[1..]
    ensures |moved| == |ns| && moved[0] == ns[0] && moved[1] == ns[i]
    ensures forall j :: 1 < j < |ns| ==> moved[j] == ns[if j <= i then j - 1 else j]
    ensures forall n :: n in moved <==> n in ns
  {
    forall n | n in ns
      ensures n in moved
    {
      var k :| 0 <= k < |ns| && ns[k] == n;
      var at := if k == 0 then 0 else if k == i then 1 else if k < i then k + 1 else k;
      assert moved[at] == n;
    }
  }

  class LRUCache {
    const capacity: int
    var count: int
    const head: Node
    const tail: Node
    const index: array<Node?>
    ghost var nodes: seq<Node>

    /** The nodes from the head sentinel to the tail sentinel, linked both ways. */
    ghost predicate Linked()
      reads this`nodes, nodes
    {
      && |nodes| >= 2 && nodes[0] == head && nodes[|nodes| - 1] == tail
      && (forall i, j :: 0 <= i < j < |nodes| ==> nodes[i] != nodes[j])
      && (forall i :: 0 <= i < |nodes| - 1 ==> nodes[i].next == nodes[i + 1])
      && (forall i :: 0 < i < |nodes| ==> nodes[i].prev == nodes[i - 1])
    }

    /** The index array holds the node of each listed key, and nothing else. */
    ghost predicate Indexed()
      reads this`nodes, nodes, index
    {
      && index.Length == KEYS
      && (forall i :: 0 < i < |nodes| - 1 ==> 0 <= nodes[i].key < KEYS && index[nodes[i].key] == nodes[i])
      && forall k :: 0 <= k < KEYS && index[k] != null ==>
           index[k] in nodes && index[k] != head && index[k] != tail && index[k].key == k
    }

    ghost predicate Sound()
      reads this, nodes, index
    {
      |nodes| >= 2 && Linked() && Indexed() && count == |nodes| - 2
    }

    ghost predicate Valid()
      reads this, nodes, index
      ensures Valid() ==> |nodes| >= 2
    {
      Sound() && count <= if capacity < 0 then 0 else capacity
    }

    /** The entries between the sentinels. */
    ghost function Entries(): (l: seq<R.Entry>)
      reads this`nodes, nodes
      requires |nodes| >= 2
      ensures |l| == |nodes| - 2
    {
      var ns := nodes;
      seq(|ns| - 2, i requires 0 <= i < |ns| - 2 reads ns => R.Entry(ns[i + 1].key, ns[i + 1].val))
    }

    constructor (capacity: int)
      ensures Valid() && Entries() == [] && this.capacity == capacity
      ensures fresh(index) && forall i :: 0 <= i < |nodes| ==> fresh(nodes[i])
    {
      this.capacity, count := capacity, 0;
      var h := new Node(0, 0);
      var t := new Node(0, 0);
      h.next := t;
      t.prev := h;
      head, tail := h, t;
      index := new Node?[KEYS](_ => null);
      nodes := [h, t];
    }

    /** Unlinks the node at place `i`; its own links are left as they were. */
    method RemoveNode(node: Node, ghost i: nat)
      requires Linked() && 0 < i < |nodes| - 1 && nodes[i] == node
      modifies {nodes[i - 1]}`next, {nodes[i + 1]}`prev, this`nodes
      ensures Linked() && nodes == old(nodes)[..i] + old(nodes)[i + 1..]
    {
      node.prev.next := node.next;
      node.next.prev := node.prev;
      nodes := nodes[..i] + nodes[i + 1..];
    }

    method AddToHead(node: Node)
      requires Linked() && node !in nodes
      modifies node`prev, node`next, {nodes[0]}`next, {nodes[1]}`prev, this`nodes
      ensures Linked() && nodes == [old(nodes)[0], node] + old(nodes)[1..]
    {
      node.prev := head;
      node.next := head.next;
      head.next.prev := node;
      head.next := node;
      nodes := [nodes[0], node] + nodes[1..];
    }

    lemma Located(key: int) returns (i: nat)
      requires Valid() && 0 <= key < KEYS
      ensures R.DistinctKeys(Entries()) && index.Length == KEYS
      ensures index[key] == null <==> !R.Listed(Entries(), key)
      ensures index[key] != null ==>
        0 < i < |nodes| - 1 && nodes[i] == index[key] && nodes[i].key == key && R.Find(Entries(), key) == i - 1
    {
      var l := Entries();
      forall a, b | 0 <= a < b < |l|
        ensures l[a].key != l[b].key
      {
        assert index[nodes[a + 1].key] == nodes[a + 1] && index[nodes[b + 1].key] == nodes[b + 1];
      }
      i := R.Find(l, key) + 1;
      if index[key] != null {
        var j :| 0 <= j < |nodes| && nodes[j] == index[key];
        assert l[j - 1].key == key;
      } else {
        assert forall a :: 0 <= a < |l| ==> l[a].key == nodes[a + 1].key && index[l[a].key] == nodes[a + 1];
      }
    }

    /** Where each node lies after the node at place `i` of `ns` has moved to the front. */
    ghost predicate Fronted(ns: seq<Node>, i: nat)
      reads this`nodes
      requires i < |ns|
    {
      && |nodes| == |ns| >= 3 && nodes[0] == ns[0] && nodes[1] == ns[i]
      && (forall j :: 1 < j < |ns| ==> nodes[j] == ns[if j <= i then j - 1 else j])
      && (forall n :: n in nodes ==> n in ns) && forall n :: n in ns ==> n in nodes
    }

    method Relink(node: Node, ghost i: nat)
      requires Linked() && 0 < i < |nodes| - 1 && nodes[i] == node
      modifies this`nodes, (set n | n in nodes)`next, (set n | n in nodes)`prev
      ensures Linked() && Fronted(old(nodes), i)
    {
      hide LRUCache.Linked;
      ghost var ns := nodes;
      Places();
      RemoveNode(node, i);
      AddToHead(node);
      MovedAt(ns, i, nodes);
    }

    /** Moves the node at place `i` to the front of the list. */
    method Promote(node: Node, ghost i: nat)
      requires Valid() && 0 < i < |nodes| - 1 && nodes[i] == node
      modifies this`nodes, nodes
      ensures Valid() && (forall i :: 0 <= i < |nodes| ==> nodes[i] in old(nodes))
      ensures forall n :: n in nodes ==> n.key == old(n.key) && n.val == old(n.val)
      ensures Entries() == [old(Entries())[i - 1]] + R.Without(old(Entries()), i - 1)
    {
      hide LRUCache.Linked;
      Places();
      Relink(node, i);
    }

    /** The nodes of a sound list, by place. */
    lemma Places()
      requires Linked()
      ensures nodes[0] == head && nodes[|nodes| - 1] == tail && head != tail
      ensures forall i, j :: 0 <= i < |nodes| && 0 <= j < |nodes| && i != j ==> nodes[i] != nodes[j]
    {
    }

    method Update(node: Node, val: int, ghost i: nat)
      requires Valid() && 0 < i < |nodes| - 1 && nodes[i] == node
      modifies node`val
      ensures Valid() && Entries() == old(Entries())[i - 1 := R.Entry(node.key, val)]
    {
      Places();
      node.val := val;
    }

    method Get(key: int) returns (val: int)
      requires Valid() && 0 <= key < KEYS
      modifies this`nodes, nodes
      ensures Valid() && (forall i :: 0 <= i < |nodes| ==> nodes[i] in old(nodes))
      ensures (val, Entries()) == R.Get(old(Entries()), key)
    {
      ghost var i := Located(key);
      var node := index[key];
      if node != null {
        Promote(node, i);
        return node.val;
      }
      return -1;
    }

    method AddNew(key: int, val: int)
      requires Sound() && 0 <= key < KEYS && index[key] == null
      modifies this`nodes, this`count, nodes, index
      ensures Sound() && (forall i :: 0 <= i < |nodes| ==> nodes[i] in old(nodes) || fresh(nodes[i]))
      ensures |nodes| == |old(nodes)| + 1 && Entries() == [R.Entry(key, val)] + old(Entries())
    {
      hide LRUCache.Linked;
      Places();
      var node := new Node(key, val);
      index[key] := node;
      AddToHead(node);
      assert nodes == [old(nodes)[0], node] + old(nodes)[1..];
      assert forall i :: 1 < i < |nodes| ==> nodes[i] == old(nodes)[i - 1];
      assert Entries() == [R.Entry(key, val)] + old(Entries());
      hide LRUCache.Entries;
      count := count + 1;
    }

    method EvictLast()
      requires Sound() && |nodes| > 2
      modifies this`nodes, this`count, nodes, index
      ensures Sound() && (forall i :: 0 <= i < |nodes| ==> nodes[i] in old(nodes))
      ensures |nodes| == |old(nodes)| - 1 && Entries() == old(Entries())[..|old(nodes)| - 3]
    {
      assert nodes[|nodes| - 1].prev == nodes[|nodes| - 2];
      hide LRUCache.Linked, R.Find, R.DistinctKeys;
      Places();
      var lru := tail.prev;
      RemoveNode(lru, |nodes| - 2);
      assert forall i :: 0 < i < |nodes| - 1 ==> nodes[i] == old(nodes)[i];
      assert Entries() == old(Entries())[..|old(nodes)| - 3];
      hide LRUCache.Entries;
      index[lru.key] := null;
      count := count - 1;
    }

    method Put(key: int, val: int)
      requires Valid() && 0 <= key < KEYS
      modifies this`nodes, this`count, nodes, index
      ensures Valid() && (forall i :: 0 <= i < |nodes| ==> nodes[i] in old(nodes) || fresh(nodes[i]))
      ensures Entries() == R.Put(old(Entries()), key, val, capacity)
    {
      hide LRUCache.Linked, LRUCache.Indexed, LRUCache.Entries, R.Find, R.DistinctKeys;
      ghost var i := Located(key);
      var node := index[key];
      if node != null {
        Update(node, val, i);
        Promote(node, i);
      } else {
        AddNew(key, val);
        if count > capacity {
          EvictLast();
        }
      }
    }
  }

  method Call(cache: LRUCache, op: R.Op) returns (answer: seq<int>)
    requires cache.Valid() && 0 <= op.key < KEYS
    modifies cache`nodes, cache`count, cache.nodes, cache.index
    ensures cache.Valid()
    ensures forall i :: 0 <= i < |cache.nodes| ==> cache.nodes[i] in old(cache.nodes) || fresh(cache.nodes[i])
    ensures cache.Entries() == R.Apply(old(cache.Entries()), op, cache.capacity)
    ensures answer == if op.Lookup? then [R.Get(old(cache.Entries()), op.key).0] else []
  {
    hide LRUCache.Valid, LRUCache.Entries;
    match op {
      case Lookup(k) =>
        var v := cache.Get(k);
        answer := [v];
      case Store(k, v) =>
        cache.Put(k, v);
        answer := [];
    }
  }

  /** Any run of in-range calls from an empty cache, of any capacity, answers as the list does: each lookup by
      the last store of its key, if the key is still listed, and by -1 otherwise. */
  method Session(capacity: int, ops: seq<R.Op>) returns (answers: seq<int>)
    requires forall i :: 0 <= i < |ops| ==> 0 <= ops[i].key < KEYS
    ensures answers == R.Answers([], ops, capacity)
    ensures R.AnsweredByStores(ops, answers, capacity)
  {
    hide LRUCache.Valid, LRUCache.Entries, R.Get, R.Apply, R.AnsweredByStores, R.Expected, R.Final;
    var cache := new LRUCache(capacity);
    answers := [];
    R.NoAnswers(capacity);
    R.FinalOfNone(capacity);
    var i := 0;
    while i < |ops|
      invariant 0 <= i <= |ops| && cache.Valid() && cache.capacity == capacity
      invariant fresh(cache) && fresh(cache.index) && forall i :: 0 <= i < |cache.nodes| ==> fresh(cache.nodes[i])
      invariant cache.Entries() == R.Final(ops[..i], capacity)
      invariant R.AnsweredByStores(ops[..i], answers, capacity)
      invariant R.Answers([], ops, capacity) == answers + R.Answers(cache.Entries(), ops[i..], capacity)
    {
      assert ops[i..][0] == ops[i] && ops[i..][1..] == ops[i + 1..];
      assert ops[..i + 1] == ops[..i] + [ops[i]];
      R.GetIsExpected(ops[..i], ops[i].key, capacity);
      R.FinalOfMore(ops[..i], ops[i], capacity);
      var answer := Call(cache, ops[i]);
      R.MoreAnswers(ops[..i], ops[i], answers, answer, capacity);
      answers := answers + answer;
      i := i + 1;
    }
    assert ops[..i] == ops;
  }
}

// LRUMap of html/xterm.js: a doubly linked list threaded through the nodes of a
// key map, with a pool of preallocated nodes. The class refines a sequence of
// entries with distinct keys, least recently used first.

module LruMap {
  import opened Common

  // ---- the abstract recency sequence ---------------------------------------

  datatype Entry<V> = Entry(key: int, value: V)

  /** The position of a key, or the length if it is absent. */
  function Find<V>(es: seq<Entry<V>>, key: int): (i: nat)
    ensures i <= |es|
    ensures i < |es| ==> es[i].key == key
    ensures forall j :: 0 <= j < i ==> es[j].key != key
  {
    if |es| == 0 || es[0].key == key then 0 else 1 + Find(es[1..], key)
  }

  function Without<T>(s: seq<T>, i: nat): seq<T>
    requires i < |s|
  {
    s[..i] + s[i + 1..]
  }

  function Got<V>(es: seq<Entry<V>>, key: int): seq<Entry<V>> {
    var i := Find(es, key);
    if i < |es| then Without(es, i) + [es[i]] else es
  }

  function Put<V>(es: seq<Entry<V>>, capacity: nat, key: int, value: V): seq<Entry<V>>
    requires capacity > 0
  {
    var i := Find(es, key);
    var rest := if i < |es| then Without(es, i) else if |es| >= capacity then es[1..] else es;
    rest + [Entry(key, value)]
  }

  ghost predicate DistinctKeys<V>(es: seq<Entry<V>>) {
    forall i, j :: 0 <= i < j < |es| ==> es[i].key != es[j].key
  }

  // ---- the nodes and the map -----------------------------------------------

  class Node<V> {
    var prev: Node?<V>
    var next: Node?<V>
    var key: int
    var value: V

    constructor (key: int, value: V)
      ensures this.key == key && this.value == value && prev == null && next == null
    {
      this.key, this.value := key, value;
      prev, next := null, null;
    }
  }

  // What the class keeps about references alone, without reading the nodes.

  /** The map leads from each key in use to its node, and from no other key. */
  ghost predicate Mapped<V>(m: map<int, Node<V>>, order: seq<Node<V>>, es: seq<Entry<V>>) {
    && |order| == |es|
    && (forall i :: 0 <= i < |es| ==> es[i].key in m && m[es[i].key] == order[i])
    && (forall k :: k in m ==> Find(es, k) < |es|)
  }

  lemma MappedAt<V>(m: map<int, Node<V>>, order: seq<Node<V>>, es: seq<Entry<V>>, key: int)
    requires Mapped(m, order, es) && key in m
    ensures Find(es, key) < |es| && order[Find(es, key)] == m[key]
  {
  }

  /** Pooled nodes are distinct and not in use. */
  ghost predicate Apart<V>(pool: seq<Node<V>>, order: seq<Node<V>>) {
    && Distinct(pool)
    && forall i, j :: 0 <= i < |pool| && 0 <= j < |order| ==> pool[i] != order[j]
  }

  function ToEnd<T>(s: seq<T>, k: nat): seq<T>
    requires k < |s|
  {
    Without(s, k) + [s[k]]
  }

  lemma FindIs<V>(es: seq<Entry<V>>, k: nat, key: int)
    requires DistinctKeys(es) && k < |es| && es[k].key == key
    ensures Find(es, key) == k
  {
  }

  lemma ToEndAt<T>(s: seq<T>, k: nat)
    requires k < |s|
    ensures |ToEnd(s, k)| == |s|
    ensures forall i :: 0 <= i < |s| ==>
              ToEnd(s, k)[i] == if i < k then s[i] else if i < |s| - 1 then s[i + 1] else s[k]
  {
  }

  lemma MoveKeepsDistinct<V>(es: seq<Entry<V>>, k: nat)
    requires DistinctKeys(es) && k < |es|
    ensures DistinctKeys(ToEnd(es, k))
  {
    ToEndAt(es, k);
    hide ToEnd;
  }

  lemma MoveKeepsMap<V>(m: map<int, Node<V>>, order: seq<Node<V>>, es: seq<Entry<V>>, k: nat)
    requires Mapped(m, order, es) && DistinctKeys(es) && k < |es|
    ensures Mapped(m, ToEnd(order, k), ToEnd(es, k)) && DistinctKeys(ToEnd(es, k))
  {
    MoveKeepsDistinct(es, k);
    ToEndAt(order, k);
    ToEndAt(es, k);
    hide ToEnd, Find, DistinctKeys;
    var es', order' := ToEnd(es, k), ToEnd(order, k);
    forall i | 0 <= i < |es'| ensures es'[i].key in m && m[es'[i].key] == order'[i] {
      var j := if i < k then i else if i < |es| - 1 then i + 1 else k;
      assert es'[i] == es[j] && order'[i] == order[j];
    }
    forall key | key in m ensures Find(es', key) < |es| {
      var i := Find(es, key);
      assert es'[if i < k then i else if i == k then |es| - 1 else i - 1].key == key;
    }
  }

  lemma MoveKeepsApart<V>(pool: seq<Node<V>>, order: seq<Node<V>>, k: nat)
    requires Apart(pool, order) && k < |order|
    ensures Apart(pool, ToEnd(order, k))
  {
    ToEndAt(order, k);
  }

  lemma JoinKeepsApart<V>(pool: seq<Node<V>>, order: seq<Node<V>>, n: Node<V>)
    requires Apart(pool, order) && n !in pool
    ensures Apart(pool, order + [n])
  {
  }

  /** The entry at the end takes a new key. */
  lemma RekeyKeepsMap<V>(m: map<int, Node<V>>, m': map<int, Node<V>>,
                         order: seq<Node<V>>, es: seq<Entry<V>>, e: Entry<V>)
    requires Mapped(m, order, es) && DistinctKeys(es) && |es| > 0 && e.key !in m
    requires m' == (m - {es[|es| - 1].key})[e.key := order[|es| - 1]]
    ensures Mapped(m', order, es[|es| - 1 := e]) && DistinctKeys(es[|es| - 1 := e])
  {
    var es' := es[|es| - 1 := e];
    forall key | key in m' ensures Find(es', key) < |es| {
      var i := if key == e.key then |es| - 1 else Find(es, key);
      assert es'[i].key == key;
    }
  }

  /** set on a present key, or at capacity, moves one entry to the end and
      rewrites it. */
  lemma PutByRewrite<V>(es: seq<Entry<V>>, capacity: nat, key: int, value: V)
    requires 0 < capacity && |es| > 0 && (Find(es, key) < |es| || |es| >= capacity)
    ensures var k := if Find(es, key) < |es| then Find(es, key) else 0;
            ToEnd(es, k)[|es| - 1 := Entry(key, value)] == Put(es, capacity, key, value)
  {
  }

  lemma InsertKeeps<V>(m: map<int, Node<V>>, order: seq<Node<V>>, es: seq<Entry<V>>, e: Entry<V>, n: Node<V>)
    requires Mapped(m, order, es) && DistinctKeys(es) && e.key !in m
    ensures Mapped(m[e.key := n], order + [n], es + [e]) && DistinctKeys(es + [e])
  {
    forall key | key in m[e.key := n] ensures Find(es + [e], key) < |es + [e]| {
      if key == e.key {
        assert (es + [e])[|es|].key == key;
      } else {
        var i := Find(es, key);
        assert (es + [e])[i].key == key;
      }
    }
  }

  class LruMap<V(0)> {
    const capacity: nat
    var map_: map<int, Node<V>>
    var head: Node?<V>
    var tail: Node?<V>
    var nodePool: seq<Node<V>>
    var size: nat
    ghost var order: seq<Node<V>>  // the linked nodes, least recently used first
    ghost var entries: seq<Entry<V>>  // their keys and values

    /** The list structure: `order` is what the links spell out. */
    ghost predicate Links()
      reads this, order
    {
      && Distinct(order)
      && head == (if |order| == 0 then null else order[0])
      && tail == (if |order| == 0 then null else order[|order| - 1])
      && (forall i {:trigger order[i].prev} :: 0 <= i < |order| ==>
            order[i].prev == if i == 0 then null else order[i - 1])
      && (forall i {:trigger order[i].next} :: 0 <= i < |order| ==>
            order[i].next == if i == |order| - 1 then null else order[i + 1])
    }

    /** `entries` is what the nodes hold. */
    ghost predicate Holds()
      reads this, order
    {
      && |entries| == |order|
      && forall i {:trigger order[i]} :: 0 <= i < |order| ==>
           order[i].key == entries[i].key && order[i].value == entries[i].value
    }

    ghost predicate Valid()
      reads this, order
      ensures Valid() ==> 0 < capacity && |entries| <= capacity && DistinctKeys(entries)
    {
      && capacity > 0
      && Links() && Holds()
      && DistinctKeys(entries) && Mapped(map_, order, entries) && Apart(nodePool, order)
      && size == |order| <= capacity
    }

    constructor (capacity: nat)
      requires capacity > 0
      ensures Valid() && entries == [] && this.capacity == capacity && nodePool == []
    {
      this.capacity := capacity;
      map_, head, tail, nodePool, size := map[], null, null, [], 0;
      order, entries := [], [];
    }

    method Prealloc(count: nat, filler: V)
      requires Valid()
      modifies this`nodePool
      ensures Valid() && |nodePool| == old(|nodePool|) + count && old(nodePool) <= nodePool
      ensures forall i :: old(|nodePool|) <= i < |nodePool| ==> fresh(nodePool[i])
    {
      hide DistinctKeys, Mapped;
      var r := 0;
      while r < count
        invariant 0 <= r <= count && |nodePool| == old(|nodePool|) + r
        invariant Apart(nodePool, order) && old(nodePool) <= nodePool
        invariant forall i :: old(|nodePool|) <= i < |nodePool| ==> fresh(nodePool[i])
      {
        var n := new Node(0, filler);
        nodePool := nodePool + [n];
        r := r + 1;
      }
    }

    /** Takes the node at position k out of the list; its own links dangle. */
    method UnlinkNode(n: Node<V>, ghost k: nat)
      requires Links() && k < |order| && order[k] == n
      modifies this`head, this`tail, this`order, order
      ensures order == Without(old(order), k) && Links()
      ensures forall m :: m in old(order) ==> m.key == old(m.key) && m.value == old(m.value)
    {
      var p, x := n.prev, n.next;
      if n == head {
        head := x;
      }
      if n == tail {
        tail := p;
      }
      if p != null {
        p.next := x;
      }
      if x != null {
        x.prev := p;
      }
      order := Without(order, k);
    }

    method AppendNode(n: Node<V>)
      requires Links() && n !in order
      modifies this`head, this`tail, this`order, order, n
      ensures order == old(order) + [n] && Links()
      ensures forall m :: m in order ==> m.key == old(m.key) && m.value == old(m.value)
    {
      var t := tail;
      if t != null {
        t.next := n;
      }
      n.prev := t;
      n.next := null;
      tail := n;
      if head == null {
        head := n;
      }
      order := order + [n];
    }

    method Relink(n: Node<V>, ghost k: nat)
      requires Links() && Holds() && k < |order| && order[k] == n
      modifies this`head, this`tail, this`order, this`entries, order
      ensures Links() && Holds()
      ensures order == ToEnd(old(order), k) && entries == ToEnd(old(entries), k)
    {
      hide DistinctKeys, Mapped, Apart, Find;
      ToEndAt(order, k);
      ToEndAt(entries, k);
      UnlinkNode(n, k);
      AppendNode(n);
      entries := ToEnd(entries, k);
      hide ToEnd, Without;
    }

    /** Unlink then append: a used node goes to the recent end of the list. */
    method MoveToEnd(n: Node<V>, ghost k: nat)
      requires Valid() && k < |order| && order[k] == n
      modifies this`head, this`tail, this`order, this`entries, order
      ensures Valid() && order == ToEnd(old(order), k) && entries == ToEnd(old(entries), k)
    {
      MoveKeepsMap(map_, order, entries, k);
      MoveKeepsApart(nodePool, order, k);
      hide DistinctKeys, Mapped, Apart, ToEnd;
      Relink(n, k);
    }

    method Get(key: int) returns (r: Option<V>)
      requires Valid()
      modifies this`head, this`tail, this`order, this`entries, order
      ensures Valid() && (r == None ==> order == old(order))
      ensures forall n :: n in order ==> n in old(order)
      ensures entries == Got(old(entries), key)
      ensures var es, i := old(entries), Find(old(entries), key);
              r == if i < |es| then Some(es[i].value) else None
    {
      if key in map_ {
        var t := map_[key];
        ghost var k := Find(entries, key);
        MoveToEnd(t, k);
        r := Some(t.value);
      } else {
        r := None;
      }
    }

    method PeekValue(key: int) returns (r: Option<V>)
      requires Valid()
      ensures var es, i := entries, Find(entries, key);
              r == if i < |es| then Some(es[i].value) else None
    {
      if key in map_ {
        r := Some(map_[key].value);
        assert order[Find(entries, key)] == map_[key];
      } else {
        r := None;
      }
    }

    method Peek() returns (r: Option<V>)
      requires Valid()
      ensures r == if |entries| == 0 then None else Some(entries[0].value)
    {
      if head == null {
        r := None;
      } else {
        r := Some(head.value);
        assert head == order[0];
      }
    }

    method Set(key: int, value: V)
      requires Valid()
      modifies this, order, nodePool
      ensures Valid() && nodePool <= old(nodePool)
      ensures entries == Put(old(entries), capacity, key, value)
    {
      if key in map_ {
        Replace(key, value);
      } else if size >= capacity {
        Evict(key, value);
      } else {
        Insert(key, value);
      }
    }

    // The three branches of set.

    method Replace(key: int, value: V)
      requires Valid() && key in map_
      modifies this`head, this`tail, this`order, this`entries, order
      ensures Valid()
      ensures entries == Put(old(entries), capacity, key, value)
    {
      hide DistinctKeys, Apart, Mapped, Put, Find, Links;
      var r := map_[key];
      ghost var k := Find(entries, key);
      MappedAt(map_, order, entries, key);
      PutByRewrite(entries, capacity, key, value);
      MoveToEnd(r, k);
      SetValue(r, value);
    }

    method Evict(key: int, value: V)
      requires Valid() && key !in map_ && size >= capacity
      modifies this`head, this`tail, this`order, this`entries, this`map_, order
      ensures Valid()
      ensures entries == Put(old(entries), capacity, key, value)
    {
      PutByRewrite(entries, capacity, key, value);
      hide DistinctKeys, Apart, Find;
      var r := head;
      MoveToEnd(r, 0);
      Rekey(r, key, value);
    }

    method Insert(key: int, value: V)
      requires Valid() && key !in map_ && size < capacity
      modifies this, order, nodePool
      ensures Valid() && nodePool <= old(nodePool)
      ensures entries == Put(old(entries), capacity, key, value)
    {
      var r := TakeNode(key, value);
      Join(r);
    }

    /** The most recent node takes another value. */
    method SetValue(r: Node<V>, value: V)
      requires Valid() && |order| > 0 && order[|order| - 1] == r
      modifies this`entries, r`key, r`value
      ensures Valid()
      ensures entries == old(entries)[|entries| - 1 := Entry(old(entries)[|entries| - 1].key, value)]
    {
      Rewrite(r, r.key, value);
    }

    /** The most recent node serves another key. */
    method Rekey(r: Node<V>, key: int, value: V)
      requires Valid() && |order| > 0 && order[|order| - 1] == r && key !in map_
      modifies this`map_, this`entries, r`key, r`value
      ensures Valid()
      ensures entries == old(entries)[|entries| - 1 := Entry(key, value)]
    {
      hide DistinctKeys, Mapped, Apart;
      ghost var m, es := map_, entries;
      assert r.key == es[|es| - 1].key;
      map_ := map_ - {r.key};
      map_ := map_[key := r];
      RekeyKeepsMap(m, map_, order, es, Entry(key, value));
      Rewrite(r, key, value);
    }

    method Rewrite(r: Node<V>, key: int, value: V)
      requires Links() && Holds() && |order| > 0 && order[|order| - 1] == r
      modifies this`entries, r`key, r`value
      ensures Links() && Holds()
      ensures entries == old(entries)[|entries| - 1 := Entry(key, value)]
    {
      r.key := key;
      r.value := value;
      entries := entries[|entries| - 1 := Entry(key, value)];
    }

    /** A node outside the list joins it with the key and value it holds. */
    method Join(r: Node<V>)
      requires Valid() && size < capacity && r.key !in map_ && r !in order && r !in nodePool
      modifies this`head, this`tail, this`order, this`entries, this`map_, this`size, order, r
      ensures Valid() && entries == old(entries) + [Entry(old(r.key), old(r.value))]
    {
      hide DistinctKeys, Mapped, Apart, Find;
      InsertKeeps(map_, order, entries, Entry(r.key, r.value), r);
      JoinKeepsApart(nodePool, order, r);
      map_ := map_[r.key := r];
      size := size + 1;
      entries := entries + [Entry(r.key, r.value)];
      AppendNode(r);
    }

    /** A node from the pool if there is one, otherwise a new one. */
    method TakeNode(key: int, value: V) returns (r: Node<V>)
      requires Valid()
      modifies this`nodePool, nodePool
      ensures Valid() && nodePool <= old(nodePool)
      ensures r !in order && r !in nodePool && r.key == key && r.value == value
      ensures r in old(nodePool) || fresh(r)
    {
      hide DistinctKeys, Mapped;
      if |nodePool| > 0 {
        r := nodePool[|nodePool| - 1];
        nodePool := nodePool[..|nodePool| - 1];
        r.key := key;
        r.value := value;
      } else {
        r := new Node(key, value);
      }
    }
  }

  // ---- what the recency sequence means -------------------------------------

  lemma PutIsDistinctAndBounded<V>(es: seq<Entry<V>>, capacity: nat, key: int, value: V)
    requires capacity > 0 && DistinctKeys(es) && |es| <= capacity
    ensures DistinctKeys(Put(es, capacity, key, value)) && |Put(es, capacity, key, value)| <= capacity
    ensures DistinctKeys(Got(es, key)) && |Got(es, key)| == |es|
  {
    hide Find;
    var put, k := Put(es, capacity, key, value), Find(es, key);
    var rest := put[..|put| - 1];
    if k < |es| {
      assert rest == Without(es, k);
      assert forall i :: 0 <= i < |rest| ==> rest[i] == es[if i < k then i else i + 1];
    } else {
      assert rest == if |es| >= capacity then es[1..] else es;
    }
    assert forall i :: 0 <= i < |rest| ==> rest[i].key != key && put[i] == rest[i];
  }

  /** set makes its key the most recent one, changes no other value, and drops
      an entry only when a new key arrives at capacity: the least recent. */
  lemma PutMeaning<V>(es: seq<Entry<V>>, capacity: nat, key: int, value: V, other: int)
    requires capacity > 0 && DistinctKeys(es) && |es| <= capacity
    ensures var put := Put(es, capacity, key, value);
            && Find(put, key) == |put| - 1 && put[|put| - 1].value == value
            && (other != key && Find(es, other) < |es|
                && !(Find(es, key) == |es| == capacity && Find(es, other) == 0)
                ==> Find(put, other) < |put| && put[Find(put, other)] == es[Find(es, other)])
            && (Find(es, key) == |es| == capacity && Find(es, other) == 0 && other != key
                ==> Find(put, other) == |put|)
  {
    hide Find;
    var put := Put(es, capacity, key, value);
    PutIsDistinctAndBounded(es, capacity, key, value);
    FindIs(put, |put| - 1, key);
    var i, j := Find(es, other), Find(es, key);
    if other != key && i < |es| {
      if j < |es| {
        FindIs(put, if i < j then i else i - 1, other);
      } else if |es| < capacity {
        FindIs(put, i, other);
      } else if i > 0 {
        FindIs(put, i - 1, other);
      } else {
        forall k | 0 <= k < |put| ensures put[k].key != other {
        }
      }
    }
  }

  // ---- LRU against its definition ------------------------------------------

  /** The keys of a trace of uses, each at its last use, oldest first. */
  function LastUses(trace: seq<int>): (keys: seq<int>)
  {
    if |trace| == 0 then []
    else Removed(LastUses(trace[..|trace| - 1]), trace[|trace| - 1]) + [trace[|trace| - 1]]
  }

  function Removed(keys: seq<int>, key: int): seq<int> {
    if |keys| == 0 then []
    else if keys[0] == key then Removed(keys[1..], key)
    else [keys[0]] + Removed(keys[1..], key)
  }

  function LastOf(keys: seq<int>, n: nat): seq<int> {
    if |keys| <= n then keys else keys[|keys| - n..]
  }

  /** One use of a key as the atlas makes it: a get, and a set if that misses.
      Only the keys are followed here. */
  function Used(keys: seq<int>, capacity: nat, key: int): seq<int>
    requires capacity > 0
  {
    if key in keys then Removed(keys, key) + [key]
    else if |keys| >= capacity then keys[1..] + [key]
    else keys + [key]
  }

  function UsedAll(capacity: nat, trace: seq<int>): seq<int>
    requires capacity > 0
  {
    if |trace| == 0 then []
    else Used(UsedAll(capacity, trace[..|trace| - 1]), capacity, trace[|trace| - 1])
  }

  function Keys<V>(es: seq<Entry<V>>): (ks: seq<int>)
    ensures |ks| == |es| && forall i :: 0 <= i < |es| ==> ks[i] == es[i].key
  {
    seq(|es|, i requires 0 <= i < |es| => es[i].key)
  }

  lemma {:induction false} RemovedAbsent(keys: seq<int>, key: int)
    requires key !in keys
    ensures Removed(keys, key) == keys
  {
    if |keys| > 0 {
      RemovedAbsent(keys[1..], key);
    }
  }

  lemma {:induction false} RemovedAt(keys: seq<int>, k: nat)
    requires Distinct(keys) && k < |keys|
    ensures Removed(keys, keys[k]) == Without(keys, k)
  {
    if k == 0 {
      assert keys[0] !in keys[1..];
      RemovedAbsent(keys[1..], keys[0]);
    } else {
      RemovedAt(keys[1..], k - 1);
      assert keys[1..][k - 1] == keys[k] && keys[0] != keys[k];
      assert Without(keys, k) == [keys[0]] + Without(keys[1..], k - 1);
    }
  }

  lemma {:induction false} LastUsesDistinct(trace: seq<int>)
    ensures Distinct(LastUses(trace))
    ensures forall key :: key in LastUses(trace) <==> key in trace
  {
    if |trace| > 0 {
      var front, key := trace[..|trace| - 1], trace[|trace| - 1];
      LastUsesDistinct(front);
      assert trace == front + [key];
      var keys := LastUses(front);
      if key in keys {
        var k :| 0 <= k < |keys| && keys[k] == key;
        RemovedAt(keys, k);
        assert forall x :: x in keys ==> x in keys[..k] || x == keys[k] || x in keys[k + 1..];
      } else {
        RemovedAbsent(keys, key);
      }
    }
  }

  lemma WithoutInSuffix<T>(s: seq<T>, cut: nat, k: nat)
    requires cut <= k < |s|
    ensures Without(s[cut..], k - cut) == Without(s, k)[cut..]
  {
  }

  lemma WithoutBeforeSuffix<T>(s: seq<T>, cut: nat, k: nat)
    requires k < cut < |s|
    ensures s[cut..][1..] == Without(s, k)[cut..]
  {
  }

  lemma UseOfOldKey(keys: seq<int>, capacity: nat, k: nat)
    requires capacity > 0 && Distinct(keys) && k < |keys|
    ensures Used(LastOf(keys, capacity), capacity, keys[k]) == LastOf(Without(keys, k) + [keys[k]], capacity)
  {
    var cut := if |keys| <= capacity then 0 else |keys| - capacity;
    var cached := keys[cut..];
    assert LastOf(keys, capacity) == cached;
    assert LastOf(Without(keys, k) + [keys[k]], capacity) == Without(keys, k)[cut..] + [keys[k]];
    if cut <= k {
      assert cached[k - cut] == keys[k];
      RemovedAt(cached, k - cut);
      WithoutInSuffix(keys, cut, k);
    } else {
      assert keys[k] !in cached;
      WithoutBeforeSuffix(keys, cut, k);
    }
  }

  /** Using a key keeps the cache the most recent part of the full history. */
  lemma UseKeepsLastUses(keys: seq<int>, capacity: nat, key: int)
    requires capacity > 0 && Distinct(keys)
    ensures Used(LastOf(keys, capacity), capacity, key) == LastOf(Removed(keys, key) + [key], capacity)
  {
    if key in keys {
      var k :| 0 <= k < |keys| && keys[k] == key;
      RemovedAt(keys, k);
      UseOfOldKey(keys, capacity, k);
    } else {
      RemovedAbsent(keys, key);
      assert key !in LastOf(keys, capacity);
    }
  }

  /** After any trace of uses the cache holds exactly the `capacity` most
      recently used keys, in order of their last use. */
  lemma {:induction false} LruHoldsTheLastUses(capacity: nat, trace: seq<int>)
    requires capacity > 0
    ensures UsedAll(capacity, trace) == LastOf(LastUses(trace), capacity)
  {
    if |trace| > 0 {
      var front := trace[..|trace| - 1];
      LruHoldsTheLastUses(capacity, front);
      LastUsesDistinct(front);
      UseKeepsLastUses(LastUses(front), capacity, trace[|trace| - 1]);
    }
  }

  lemma KeysOfSnoc<V>(es: seq<Entry<V>>, e: Entry<V>)
    ensures Keys(es + [e]) == Keys(es) + [e.key]
  {
  }

  lemma KeysOfWithout<V>(es: seq<Entry<V>>, k: nat)
    requires k < |es|
    ensures Keys(Without(es, k)) == Without(Keys(es), k)
  {
  }

  lemma KeysOfRest<V>(es: seq<Entry<V>>)
    requires |es| > 0
    ensures Keys(es[1..]) == Keys(es)[1..]
  {
  }

  /** The keys of the entries follow `Used` under a get and, if it misses, a set. */
  lemma UseOnEntries<V>(es: seq<Entry<V>>, capacity: nat, key: int, value: V)
    requires capacity > 0 && DistinctKeys(es) && |es| <= capacity
    ensures var after := if Find(es, key) < |es| then Got(es, key) else Put(es, capacity, key, value);
            Keys(after) == Used(Keys(es), capacity, key)
  {
    hide Find, Removed, Without;
    var k, keys := Find(es, key), Keys(es);
    if k < |es| {
      assert keys[k] == key && Distinct(keys);
      RemovedAt(keys, k);
      KeysOfWithout(es, k);
      KeysOfSnoc(Without(es, k), es[k]);
    } else {
      assert key !in keys;
      KeysOfSnoc(es, Entry(key, value));
      if |es| >= capacity {
        KeysOfRest(es);
        KeysOfSnoc(es[1..], Entry(key, value));
      }
    }
  }

  /** A cache holding the last uses of a history still does after one more use. */
  lemma UseExtendsHistory<V>(es: seq<Entry<V>>, capacity: nat, history: seq<int>, key: int, value: V)
    requires capacity > 0 && DistinctKeys(es) && |es| <= capacity
    requires Keys(es) == LastOf(LastUses(history), capacity)
    ensures var after := if Find(es, key) < |es| then Got(es, key) else Put(es, capacity, key, value);
            Keys(after) == LastOf(LastUses(history + [key]), capacity)
  {
    UseOnEntries(es, capacity, key, value);
    LastUsesDistinct(history);
    UseKeepsLastUses(LastUses(history), capacity, key);
    assert (history + [key])[..|history|] == history;
  }
}

/** The chained hash table (src/utils/hash/HashTable.h), proved against a map. */
module ChainedTable {
  const INITIAL_BUCKET_COUNT: nat := 2048

  class Bucket<K(==), V> {
    var next: Bucket?<K, V>
    const hashValue: nat
    const key: K
    var value: V

    constructor (key: K, hashValue: nat, value: V)
      ensures this.key == key && this.hashValue == hashValue && this.value == value && next == null
    {
      this.key, this.hashValue, this.value, next := key, hashValue, value, null;
    }
  }

  /** The nodes of the chain from head on. */
  ghost predicate Linked<K, V>(head: Bucket?<K, V>, chain: seq<Bucket<K, V>>)
    reads chain
  {
    if chain == [] then head == null else head == chain[0] && Linked(chain[0].next, chain[1..])
  }

  /** Nodes with different keys, hashed right for bucket b of a table of the given size. */
  ghost predicate Hashed<K, V>(chain: seq<Bucket<K, V>>, b: nat, size: nat, hash: K -> nat)
    requires size > 0
  {
    && (forall i :: 0 <= i < |chain| ==> chain[i].hashValue == hash(chain[i].key) && chain[i].hashValue % size == b)
    && (forall i, j :: 0 <= i < j < |chain| ==> chain[i].key != chain[j].key)
  }

  /** The chain of bucket b, made of some of the nodes. */
  ghost predicate ChainOk<K, V>(head: Bucket?<K, V>, chain: seq<Bucket<K, V>>, b: nat, size: nat, nodes: set<Bucket<K, V>>, hash: K -> nat)
    requires size > 0
    reads nodes
  {
    (forall i :: 0 <= i < |chain| ==> chain[i] in nodes) && Linked(head, chain) && Hashed(chain, b, size, hash)
  }

  /** The chains hold exactly the given nodes, each in the bucket of its hash. */
  ghost predicate Chained<K, V>(buckets: seq<Bucket?<K, V>>, chains: seq<seq<Bucket<K, V>>>, nodes: set<Bucket<K, V>>, hash: K -> nat)
    reads nodes
  {
    && |buckets| == |chains| > 0
    && (forall c :: 0 <= c < |chains| ==> ChainOk(buckets[c], chains[c], c, |chains|, nodes, hash))
    && (forall n :: n in nodes ==> n in chains[n.hashValue % |chains|])
  }

  ghost predicate HasKey<K, V>(nodes: set<Bucket<K, V>>, k: K) {
    exists n :: n in nodes && n.key == k
  }

  /** The entries of the nodes. */
  ghost predicate Holds<K(!new), V>(nodes: set<Bucket<K, V>>, content: map<K, V>)
    reads set n | n in nodes :: n`value
  {
    && (forall n :: n in nodes ==> n.key in content && content[n.key] == n.value)
    && (forall k :: k in content ==> HasKey(nodes, k))
    && |nodes| == |content|
  }

  /** What a lookup in the nodes says about the map. */
  lemma LookupIsMap<K(!new), V>(nodes: set<Bucket<K, V>>, content: map<K, V>, k: K, r: Bucket?<K, V>)
    requires Holds(nodes, content)
    requires if r == null then !HasKey(nodes, k) else r in nodes && r.key == k
    ensures r == null <==> k !in content
    ensures r != null ==> r.value == content[k]
  {
  }

  lemma NoNode<K, V>(nodes: set<Bucket<K, V>>, k: K)
    requires !HasKey(nodes, k)
    ensures forall n :: n in nodes ==> n.key != k
  {
  }

  lemma HoldsMore<K(!new), V>(nodes: set<Bucket<K, V>>, content: map<K, V>, n: Bucket<K, V>)
    requires Holds(nodes, content) && n.key !in content && n !in nodes
    ensures Holds(nodes + {n}, content[n.key := n.value])
  {
    hide HasKey;
    var all, more := nodes + {n}, content[n.key := n.value];
    assert |all| == |nodes| + 1;
    MapLonger(content, n.key, n.value);
    forall k: K | k in more ensures HasKey(all, k) { KeyMore(nodes, n, k); }
    forall m | m in all ensures m.key in more && more[m.key] == m.value {
      if m != n { assert m in nodes; }
    }
  }

  lemma MapLonger<K, V>(content: map<K, V>, k: K, v: V)
    requires k !in content
    ensures |content[k := v]| == |content| + 1
  {
    assert content[k := v].Keys == content.Keys + {k};
  }

  lemma KeyMore<K, V>(nodes: set<Bucket<K, V>>, n: Bucket<K, V>, k: K)
    ensures HasKey(nodes + {n}, k) <==> HasKey(nodes, k) || k == n.key
  {
    var all := nodes + {n};
    assert n in all;
    if HasKey(nodes, k) {
      var m :| m in nodes && m.key == k;
      assert m in all;
    }
  }

  /** A chain with a node put in front. */
  lemma PutInFront<K, V>(node: Bucket<K, V>, chain: seq<Bucket<K, V>>)
    requires Linked(node.next, chain)
    ensures Linked(node, [node] + chain)
  {
    assert ([node] + chain)[1..] == chain;
  }

  class HashTable<K(==, !new), V> {
    const hash: K -> nat
    var buckets: seq<Bucket?<K, V>>
    var uniqueKeys: nat

    ghost var chains: seq<seq<Bucket<K, V>>>
    ghost var nodes: set<Bucket<K, V>>

    ghost predicate Valid()
      reads this, nodes
    {
      Chained(buckets, chains, nodes, hash) && uniqueKeys == |nodes|
    }

    constructor (hash: K -> nat, numberOfBuckets: nat)
      ensures Valid() && this.hash == hash && Holds(nodes, map[]) && nodes == {}
    {
      this.hash := hash;
      var n := if numberOfBuckets == 0 then INITIAL_BUCKET_COUNT else numberOfBuckets;
      buckets := seq(n, _ => null);
      chains := seq(n, _ => []);
      nodes := {};
      uniqueKeys := 0;
    }

    /** The node of a key, null if there is none. */
    method Find(k: K) returns (r: Bucket?<K, V>)
      requires Valid()
      ensures if r == null then !HasKey(nodes, k) else r in nodes && r.key == k
    {
      var b := hash(k) % |buckets|;
      ghost var chain := chains[b];
      var current := buckets[b];
      ghost var j := 0;
      assert chain[0..] == chain;
      assert ChainOk(current, chain, b, |chains|, nodes, hash);
      while current != null
        invariant 0 <= j <= |chain| && Linked(current, chain[j..])
        invariant forall i :: 0 <= i < j ==> chain[i].key != k
        decreases |chain| - j
      {
        assert chain[j..][0] == chain[j] && chain[j..][1..] == chain[j + 1..];
        if current.key == k {
          return current;
        }
        current := current.next;
        j := j + 1;
      }
      assert chain[j..] == [];
      forall n | n in nodes ensures n.key != k {
        assert n in chains[n.hashValue % |chains|];
        NodeHash(buckets, chains, nodes, hash, n);
      }
      r := null;
    }

    /** The node of a key; a new one with the initial value when there is none. */
    method FindOrAdd(k: K, initialValue: V, ghost content: map<K, V>) returns (r: Bucket<K, V>)
      requires Valid() && Holds(nodes, content)
      modifies this, nodes
      ensures Valid() && r in nodes && r.key == k && fresh(nodes - old(nodes))
      ensures Holds(nodes, if k in content then content else content[k := initialValue])
    {
      hide Chained, Holds, HasKey;
      var found := Find(k);
      LookupIsMap(nodes, content, k, found);
      if found != null {
        return found;
      }
      Optimize();
      r := Add(k, initialValue, content);
    }

    /** The end of Find for a new key. */
    method Add(k: K, initialValue: V, ghost content: map<K, V>) returns (r: Bucket<K, V>)
      requires Valid() && Holds(nodes, content) && k !in content && !HasKey(nodes, k)
      modifies this`buckets, this`chains, this`nodes, this`uniqueKeys
      ensures Valid() && r.key == k && fresh(r) && nodes == old(nodes) + {r}
      ensures Holds(nodes, content[k := initialValue])
    {
      hide Chained, Holds, HasKey;
      NoNode(nodes, k);
      r := new Bucket(k, hash(k), initialValue);
      buckets, chains := LinkFirst(r, buckets, chains, nodes, hash);
      HoldsMore(nodes, content, r);
      nodes := nodes + {r};
      uniqueKeys := uniqueKeys + 1;
    }

    /** Grows the table to at least one and a half times its keys, relinking every node. */
    method Optimize()
      requires Valid()
      modifies this`buckets, this`chains, set n | n in nodes :: n`next
      ensures Valid() && 2 * |buckets| + 1 >= 3 * uniqueKeys
      ensures forall n :: n in nodes ==> n.value == old(n.value)
    {
      hide ChainOk, Chained;
      OldChains(buckets, chains, nodes, hash);
      var desiredSize := uniqueKeys * 3 / 2;
      if desiredSize <= |buckets| {
        return;
      }
      var newSize := |buckets|;
      while newSize < desiredSize
        invariant newSize > 0
      {
        newSize := newSize * 2;
      }
      KeysDiffer(buckets, chains, nodes, hash);
      var newBuckets: seq<Bucket?<K, V>> := seq(newSize, _ => null);
      ghost var newChains: seq<seq<Bucket<K, V>>>, left := seq(newSize, _ => []), nodes;
      EmptyTable(newBuckets, newChains, hash);
      assert nodes - left == {};
      for i := 0 to |buckets|
        invariant buckets == old(buckets) && chains == old(chains)
        invariant Chained(newBuckets, newChains, nodes - left, hash) && |newBuckets| == newSize && left <= nodes
        invariant forall c :: i <= c < |chains| ==> ChainOk(buckets[c], chains[c], c, |chains|, left, hash)
        invariant forall n :: n in left ==> i <= n.hashValue % |chains| && n in chains[n.hashValue % |chains|]
      {
        newBuckets, newChains, left := MoveChain(i, newBuckets, newChains, left);
      }
      assert left == {};
      assert nodes - left == nodes;
      buckets, chains := newBuckets, newChains;
    }

    /** The inner loop: moves one chain, node by node, into the new buckets. */
    method MoveChain(i: nat, newBuckets0: seq<Bucket?<K, V>>, ghost newChains0: seq<seq<Bucket<K, V>>>, ghost left0: set<Bucket<K, V>>)
      returns (newBuckets: seq<Bucket?<K, V>>, ghost newChains: seq<seq<Bucket<K, V>>>, ghost left: set<Bucket<K, V>>)
      requires |buckets| == |chains| && i < |buckets| && left0 <= nodes
      requires Chained(newBuckets0, newChains0, nodes - left0, hash)
      requires forall c :: i <= c < |chains| ==> ChainOk(buckets[c], chains[c], c, |chains|, left0, hash)
      requires forall n :: n in left0 ==> i <= n.hashValue % |chains| && n in chains[n.hashValue % |chains|]
      requires forall n, m :: n in nodes && m in nodes && n.key == m.key ==> n == m
      modifies set n | n in nodes :: n`next
      ensures Chained(newBuckets, newChains, nodes - left, hash) && |newBuckets| == |newBuckets0| && left <= left0
      ensures forall c :: i < c < |chains| ==> ChainOk(buckets[c], chains[c], c, |chains|, left, hash)
      ensures forall n :: n in left ==> i < n.hashValue % |chains| && n in chains[n.hashValue % |chains|]
    {
      hide ChainOk, Chained;
      newBuckets, newChains, left := newBuckets0, newChains0, left0;
      var current := buckets[i];
      ghost var rest := chains[i];
      while current != null
        invariant left <= left0 && |newBuckets| == |newBuckets0| && Chained(newBuckets, newChains, nodes - left, hash)
        invariant ChainOk(current, rest, i, |chains|, left, hash)
        invariant forall c :: i < c < |chains| ==> ChainOk(buckets[c], chains[c], c, |chains|, left, hash)
        invariant forall n :: n in left ==> i <= n.hashValue % |chains| && n in (if n.hashValue % |chains| == i then rest else chains[n.hashValue % |chains|])
        decreases |rest|
      {
        ChainFirst(current, rest, i, |chains|, left, hash);
        var nextBucket := current.next;
        forall c | i < c < |chains| ensures ChainOk(buckets[c], chains[c], c, |chains|, left - {current}, hash) {
          ChainWithout(buckets[c], chains[c], c, |chains|, left, hash, current);
        }
        forall n | n in left - {current} && n.hashValue % |chains| == i ensures n in rest[1..] {
          assert n in rest && rest == [rest[0]] + rest[1..];
        }
        ghost var moved := nodes - left;
        newBuckets, newChains := LinkFirst(current, newBuckets, newChains, moved, hash);
        assert moved + {current} == nodes - (left - {current});
        left := left - {current};
        rest := rest[1..];
        current := nextBucket;
      }
      ChainEmpty(rest, i, |chains|, left, hash);
    }

    /** A place of the iterator: node j of chain b, or the end. */
    ghost predicate Place(b: nat, j: nat, node: Bucket?<K, V>)
      requires Valid()
      reads this, nodes
    {
      if node == null then b == |chains| && j == 0
      else b < |chains| && j < |chains[b]| && node == chains[b][j] && Linked(node, chains[b][j..])
    }

    /** Chain c, place i comes before chain b, place j. */
    ghost predicate Before(c: nat, i: nat, b: nat, j: nat) {
      c < b || (c == b && i < j)
    }

    /** begin(): the first node of the first chain that has one. */
    method Begin() returns (b: nat, node: Bucket?<K, V>)
      requires Valid()
      ensures Place(b, 0, node)
      ensures forall c, i :: 0 <= c < |chains| && 0 <= i < |chains[c]| ==> !Before(c, i, b, 0)
    {
      b, node := SkipEmpty(0);
    }

    /** The first chain from a bucket on that is not empty. */
    method SkipEmpty(from: nat) returns (b: nat, node: Bucket?<K, V>)
      requires Valid() && from <= |buckets|
      ensures from <= b && Place(b, 0, node)
      ensures forall c :: from <= c < b && c < |chains| ==> chains[c] == []
    {
      b := from;
      while b < |buckets|
        invariant from <= b <= |buckets| && forall c :: from <= c < b ==> chains[c] == []
      {
        assert ChainOk(buckets[b], chains[b], b, |chains|, nodes, hash);
        if buckets[b] != null {
          assert chains[b][0..] == chains[b];
          return b, buckets[b];
        }
        b := b + 1;
      }
      node := null;
    }

    /** The place in its chain that follows place j, where node is: one further, or the first of another
        chain. */
    ghost function After(node: Bucket<K, V>, j: nat): nat
      reads node
    {
      if node.next != null then j + 1 else 0
    }

    /** operator++: the next node of the chain, or the first one of the next chain that has one. Nothing
        lies between. */
    method Next(b: nat, node: Bucket<K, V>, ghost j: nat) returns (b': nat, node': Bucket?<K, V>)
      requires Valid() && Place(b, j, node)
      ensures Place(b', After(node, j), node')
      ensures forall c, i :: 0 <= c < |chains| && 0 <= i < |chains[c]| ==>
                (Before(c, i, b', After(node, j)) <==> Before(c, i, b, j) || (c == b && i == j))
    {
      hide Linked, ChainOk;
      LinkedStep(node, chains[b], j);
      if node.next != null {
        return b, node.next;
      }
      b', node' := SkipEmpty(b + 1);
    }

    /** Visited are exactly the nodes before a place. */
    ghost predicate Seen(visited: seq<Bucket<K, V>>, b: nat, j: nat)
      reads this
    {
      forall c, i :: 0 <= c < |chains| && 0 <= i < |chains[c]| ==> (chains[c][i] in visited <==> Before(c, i, b, j))
    }

    /** A loop from begin to end visits every node, and every key once. */
    method Visit() returns (visited: seq<Bucket<K, V>>)
      requires Valid()
      ensures forall n :: n in nodes <==> n in visited
      ensures forall i, j :: 0 <= i < j < |visited| ==> visited[i].key != visited[j].key
    {
      hide Chained, Seen, HashTable.Place;
      KeysDiffer(buckets, chains, nodes, hash);
      visited := [];
      var b, node := Begin();
      SeenNothing(b);
      ghost var j := 0;
      ghost var left := nodes;
      while node != null
        invariant Place(b, j, node) && Seen(visited, b, j)
        invariant left <= nodes && forall n :: n in nodes ==> (n in visited <==> n !in left)
        invariant forall n :: n in visited ==> n in nodes
        invariant forall i, k :: 0 <= i < k < |visited| ==> visited[i].key != visited[k].key
        decreases |left|
      {
        var current := node;
        SeenOne(visited, b, j, current);
        b, node := NextSeen(b, current, j, visited);
        j := After(current, j);
        visited := visited + [current];
        left := left - {current};
      }
      SeenAll(visited, b, j);
    }

    lemma SeenNothing(b: nat)
      requires forall c, i :: 0 <= c < |chains| && 0 <= i < |chains[c]| ==> !Before(c, i, b, 0)
      ensures Seen([], b, 0)
    {
    }

    lemma SeenOne(visited: seq<Bucket<K, V>>, b: nat, j: nat, node: Bucket<K, V>)
      requires Valid() && Place(b, j, node) && Seen(visited, b, j)
      ensures b < |chains| && j < |chains[b]| && node == chains[b][j] && node in nodes && node !in visited
    {
      hide Linked;
      assert ChainOk(buckets[b], chains[b], b, |chains|, nodes, hash);
    }

    lemma SeenAll(visited: seq<Bucket<K, V>>, b: nat, j: nat)
      requires Valid() && Place(b, j, null) && Seen(visited, b, j)
      ensures forall n :: n in nodes ==> n in visited
    {
      hide ChainOk;
      forall n | n in nodes ensures n in visited {
        var c := n.hashValue % |chains|;
        var i :| 0 <= i < |chains[c]| && chains[c][i] == n;
        assert Before(c, i, b, j);
      }
    }

    method NextSeen(b: nat, node: Bucket<K, V>, ghost j: nat, ghost visited: seq<Bucket<K, V>>)
      returns (b': nat, node': Bucket?<K, V>)
      requires Valid() && Place(b, j, node) && Seen(visited, b, j)
      ensures Place(b', After(node, j), node') && Seen(visited + [node], b', After(node, j))
    {
      hide Chained, HashTable.Place;
      SeenOne(visited, b, j, node);
      b', node' := Next(b, node, j);
      ghost var j' := After(node, j);
      forall c, i | 0 <= c < |chains| && 0 <= i < |chains[c]|
        ensures chains[c][i] in visited + [node] <==> Before(c, i, b', j') {
        if chains[c][i] == node { PlaceUnique(buckets, chains, nodes, hash, c, i, b, j); }
      }
    }
  }

  lemma LinkedStep<K, V>(node: Bucket<K, V>, chain: seq<Bucket<K, V>>, j: nat)
    requires j < |chain| && Linked(node, chain[j..])
    ensures node == chain[j] && Linked(node.next, chain[j + 1..])
    ensures node.next != null ==> j + 1 < |chain| && node.next == chain[j + 1]
    ensures node.next == null ==> j + 1 == |chain|
  {
    assert chain[j..][1..] == chain[j + 1..];
    if j + 1 < |chain| { assert chain[j + 1..][0] == chain[j + 1]; }
  }

  lemma PlaceUnique<K, V>(buckets: seq<Bucket?<K, V>>, chains: seq<seq<Bucket<K, V>>>, nodes: set<Bucket<K, V>>, hash: K -> nat,
                          c: nat, i: nat, b: nat, j: nat)
    requires Chained(buckets, chains, nodes, hash) && c < |chains| && i < |chains[c]| && b < |chains| && j < |chains[b]|
    requires chains[c][i] == chains[b][j]
    ensures c == b && i == j
  {
    hide Linked;
    assert ChainOk(buckets[c], chains[c], c, |chains|, nodes, hash) && ChainOk(buckets[b], chains[b], b, |chains|, nodes, hash);
    assert c == b;
    assert !(i < j) && !(j < i);
  }

  lemma EmptyTable<K, V>(buckets: seq<Bucket?<K, V>>, chains: seq<seq<Bucket<K, V>>>, hash: K -> nat)
    requires |buckets| == |chains| > 0 && forall c :: 0 <= c < |chains| ==> buckets[c] == null && chains[c] == []
    ensures Chained(buckets, chains, {}, hash)
  {
  }

  lemma OldChains<K, V>(buckets: seq<Bucket?<K, V>>, chains: seq<seq<Bucket<K, V>>>, nodes: set<Bucket<K, V>>, hash: K -> nat)
    requires Chained(buckets, chains, nodes, hash)
    ensures |buckets| == |chains| > 0
    ensures forall c :: 0 <= c < |chains| ==> ChainOk(buckets[c], chains[c], c, |chains|, nodes, hash)
    ensures forall n :: n in nodes ==> n in chains[n.hashValue % |chains|]
  {
    hide ChainOk;
  }

  lemma KeysDiffer<K, V>(buckets: seq<Bucket?<K, V>>, chains: seq<seq<Bucket<K, V>>>, nodes: set<Bucket<K, V>>, hash: K -> nat)
    requires Chained(buckets, chains, nodes, hash)
    ensures forall n, m :: n in nodes && m in nodes && n.key == m.key ==> n == m
  {
    forall n, m | n in nodes && m in nodes && n.key == m.key ensures n == m {
      NodeHash(buckets, chains, nodes, hash, n);
      NodeHash(buckets, chains, nodes, hash, m);
      SameKey(chains[hash(n.key) % |chains|], hash(n.key) % |chains|, |chains|, hash, n, m);
    }
  }

  lemma SameKey<K, V>(chain: seq<Bucket<K, V>>, b: nat, size: nat, hash: K -> nat, n: Bucket<K, V>, m: Bucket<K, V>)
    requires size > 0 && Hashed(chain, b, size, hash) && n in chain && m in chain && n.key == m.key
    ensures n == m
  {
    var i, j :| 0 <= i < |chain| && chain[i] == n && 0 <= j < |chain| && chain[j] == m;
    assert !(i < j) && !(j < i);
  }

  /** The first node of a chain, and the chain behind it. */
  lemma ChainFirst<K, V>(head: Bucket<K, V>, chain: seq<Bucket<K, V>>, b: nat, size: nat, nodes: set<Bucket<K, V>>, hash: K -> nat)
    requires size > 0 && ChainOk(head, chain, b, size, nodes, hash)
    ensures chain != [] && head == chain[0] && head in nodes && head.hashValue == hash(head.key) && head.hashValue % size == b
    ensures ChainOk(head.next, chain[1..], b, size, nodes - {head}, hash)
  {
  }

  lemma ChainWithout<K, V>(head: Bucket?<K, V>, chain: seq<Bucket<K, V>>, c: nat, size: nat, nodes: set<Bucket<K, V>>, hash: K -> nat, node: Bucket<K, V>)
    requires size > 0 && ChainOk(head, chain, c, size, nodes, hash) && node.hashValue % size != c
    ensures ChainOk(head, chain, c, size, nodes - {node}, hash)
  {
  }

  lemma ChainEmpty<K, V>(chain: seq<Bucket<K, V>>, b: nat, size: nat, nodes: set<Bucket<K, V>>, hash: K -> nat)
    requires size > 0 && ChainOk(null, chain, b, size, nodes, hash)
    ensures chain == []
  {
  }

  /** Puts a node that is not there yet in front of its bucket's chain. */
  method LinkFirst<K, V>(node: Bucket<K, V>, buckets: seq<Bucket?<K, V>>, ghost chains: seq<seq<Bucket<K, V>>>,
                         ghost nodes: set<Bucket<K, V>>, ghost hash: K -> nat)
    returns (newBuckets: seq<Bucket?<K, V>>, ghost newChains: seq<seq<Bucket<K, V>>>)
    requires Chained(buckets, chains, nodes, hash)
    requires node !in nodes && node.hashValue == hash(node.key) && forall n :: n in nodes ==> n.key != node.key
    modifies node`next
    ensures Chained(newBuckets, newChains, nodes + {node}, hash) && |newBuckets| == |buckets|
  {
    hide ChainOk;
    var b := node.hashValue % |buckets|;
    node.next := buckets[b];
    newBuckets := buckets[b := node];
    newChains := chains[b := [node] + chains[b]];
    forall c | 0 <= c < |newChains| ensures ChainOk(newBuckets[c], newChains[c], c, |newChains|, nodes + {node}, hash) {
      assert ChainOk(buckets[c], chains[c], c, |chains|, nodes, hash);
      if c == b {
        ChainLonger(node, chains[b], b, |chains|, nodes, hash);
      } else {
        ChainWider(buckets[c], chains[c], c, |chains|, nodes, hash, node);
      }
    }
    forall n | n in nodes + {node} ensures n in newChains[n.hashValue % |newChains|] {
      if n != node {
        var i :| 0 <= i < |chains[n.hashValue % |chains|]| && chains[n.hashValue % |chains|][i] == n;
      }
    }
  }

  lemma ChainLonger<K, V>(node: Bucket<K, V>, chain: seq<Bucket<K, V>>, b: nat, size: nat, nodes: set<Bucket<K, V>>, hash: K -> nat)
    requires size > 0 && ChainOk(node.next, chain, b, size, nodes, hash)
    requires node !in nodes && node.hashValue == hash(node.key) && node.hashValue % size == b
    requires forall n :: n in nodes ==> n.key != node.key
    ensures ChainOk(node, [node] + chain, b, size, nodes + {node}, hash)
  {
    PutInFront(node, chain);
  }

  lemma ChainWider<K, V>(head: Bucket?<K, V>, chain: seq<Bucket<K, V>>, b: nat, size: nat, nodes: set<Bucket<K, V>>, hash: K -> nat, node: Bucket<K, V>)
    requires size > 0 && ChainOk(head, chain, b, size, nodes, hash)
    ensures ChainOk(head, chain, b, size, nodes + {node}, hash)
  {
  }

  lemma NodeHash<K, V>(buckets: seq<Bucket?<K, V>>, chains: seq<seq<Bucket<K, V>>>, nodes: set<Bucket<K, V>>, hash: K -> nat, n: Bucket<K, V>)
    requires Chained(buckets, chains, nodes, hash) && n in nodes
    ensures n.hashValue == hash(n.key) && n in chains[hash(n.key) % |chains|]
  {
    var b := n.hashValue % |chains|;
    var i :| 0 <= i < |chains[b]| && chains[b][i] == n;
    assert Hashed(chains[b], b, |chains|, hash);
  }
}

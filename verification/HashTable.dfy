/** The chained hash table: an array of buckets, each the head of a linked list of nodes,
    doubled in place by splitting every list in two. */
module HashTable {
  import opened Bits
  import opened HashMask
  import opened KeyedMap
  import opened Wrappers

  class Node<K, V> {
    const key: K
    const hashv: nat
    var value: V
    var next: Node?<K, V>
    ghost var slot: nat  // the bucket whose list the node is on

    constructor (key: K, hashv: nat, value: V, ghost slot: nat)
      ensures this.key == key && this.hashv == hashv && this.value == value && next == null && this.slot == slot
    {
      this.key, this.hashv, this.value, next, this.slot := key, hashv, value, null, slot;
    }
  }

  function Nth<K, V>(c: seq<Node<K, V>>, i: nat): (n: Node?<K, V>) {
    if i < |c| then c[i] else null
  }

  ghost predicate Distinct<K, V>(c: seq<Node<K, V>>) {
    forall i, j :: 0 <= i < j < |c| ==> c[i] != c[j]
  }

  /** c is the list that starts at head. */
  ghost predicate List<K, V>(head: Node?<K, V>, c: seq<Node<K, V>>)
    reads c`next
  {
    && head == Nth(c, 0)
    && Distinct(c)
    && forall i {:trigger c[i].next} :: 0 <= i < |c| ==> c[i].next == Nth(c, i + 1)
  }

  /** s is the set of all nodes on the lists, and each node knows which list it is on. */
  ghost predicate Placed<K, V>(chains: seq<seq<Node<K, V>>>, s: set<Node<K, V>>)
    reads s`slot
  {
    && (forall b, i :: 0 <= b < |chains| && 0 <= i < |chains[b]| ==> chains[b][i] in s && chains[b][i].slot == b)
    && (forall n :: n in s ==> n.slot < |chains| && n in chains[n.slot])
  }

  lemma PlacedWithout<K, V>(chains: seq<seq<Node<K, V>>>, s: set<Node<K, V>>, bucket: nat, i: nat)
    requires Placed(chains, s) && bucket < |chains| && i < |chains[bucket]| && Distinct(chains[bucket])
    ensures var c := chains[bucket];
            Placed(chains[bucket := c[..i] + c[i + 1..]], s - {c[i]})
  {
    var c := chains[bucket];
    var c' := c[..i] + c[i + 1..];
    assert forall n :: n in c ==> n == c[i] || n in c';
    assert forall j :: 0 <= j < |c'| ==> c'[j] in c && c'[j] != c[i] by {
      assert forall j :: 0 <= j < |c'| ==> c'[j] == if j < i then c[j] else c[j + 1];
    }
  }

  lemma PlacedWith<K, V>(chains: seq<seq<Node<K, V>>>, s: set<Node<K, V>>, bucket: nat, c: seq<Node<K, V>>, n: Node<K, V>)
    requires Placed(chains, s) && bucket < |chains| && n !in s && n.slot == bucket
    requires c == [n] + chains[bucket] || c == chains[bucket] + [n]
    ensures Placed(chains[bucket := c], s + {n})
  {
    assert n in c && forall m :: m in chains[bucket] ==> m in c;
    assert forall m :: m in c ==> m == n || m in chains[bucket];
  }

  /** A node of one list is on no other, and what is on no list is on none. */
  lemma Elsewhere<K, V>(chains: seq<seq<Node<K, V>>>, s: set<Node<K, V>>, bucket: nat, n: Node?<K, V>)
    requires Placed(chains, s) && bucket < |chains| && (n == null || n in chains[bucket] || n !in s)
    ensures forall b {:trigger chains[b]} :: 0 <= b < |chains| && b != bucket ==> n == null || n !in chains[b]
    ensures n != null && n !in s ==> n !in chains[bucket]
    ensures forall m :: m in chains[bucket] ==> m in s
  {
  }

  /** `hashv & (size - 1)` */
  function Bucket(hashv: nat, size: nat): (b: nat)
    requires size > 0
  {
    And(hashv, size - 1)
  }

  /** One node for each of a set of keys, no two of them equivalent. */
  ghost predicate KeysCarried<K, V>(hash: K -> nat, s: set<Node<K, V>>, keys: set<K>) {
    && (forall n :: n in s ==> n.hashv == hash(n.key) && n.key in keys)
    && (forall n, m :: n in s && m in s && n != m ==> n.key != m.key)
    && (forall k :: k in keys ==> exists n :: n in s && n.key == k)
  }

  lemma KeysWith<K, V>(hash: K -> nat, s: set<Node<K, V>>, keys: set<K>, n: Node<K, V>)
    requires KeysCarried(hash, s, keys) && n !in s && n.key !in keys && n.hashv == hash(n.key)
    ensures KeysCarried(hash, s + {n}, keys + {n.key})
  {
    forall k | k in keys + {n.key}
      ensures exists m :: m in s + {n} && m.key == k
    {
      if k == n.key {
        assert n in s + {n};
      } else {
        var m :| m in s && m.key == k;
        assert m in s + {n};
      }
    }
  }

  lemma KeysWithout<K, V>(hash: K -> nat, s: set<Node<K, V>>, keys: set<K>, n: Node<K, V>)
    requires KeysCarried(hash, s, keys) && n in s
    ensures KeysCarried(hash, s - {n}, keys - {n.key})
  {
    forall k | k in keys - {n.key}
      ensures exists m :: m in s - {n} && m.key == k
    {
      var m :| m in s && m.key == k;
      assert m in s - {n};
    }
  }

  /** The nodes of s hold their values of m and are in their buckets. */
  ghost predicate Fits<K, V>(s: set<Node<K, V>>, m: map<K, V>, size: nat)
    requires size > 0
    reads s`value, s`slot
  {
    forall n :: n in s ==> n.key in m && m[n.key] == n.value && n.slot == Bucket(n.hashv, size)
  }

  lemma BucketInTable(hashv: nat, log: nat)
    ensures Bucket(hashv, Pow2(log)) < Pow2(log)
  {
    MaskKeepsLowDigits(hashv, log);
  }

  class Table<K(!new), V> {
    const hashFunc: K -> nat
    const comp: (K, K) -> bool
    var size: nat
    var num: nat
    var nodes: array<Node?<K, V>>
    ghost var log: nat                       // size == 2^log
    ghost var chains: seq<seq<Node<K, V>>>   // the list of each bucket
    ghost var all: set<Node<K, V>>
    ghost var contents: map<K, V>

    /** The lists are the ones the pointers describe, and s is what is on them. */
    ghost predicate Linked(s: set<Node<K, V>>)
      reads this`chains, this`nodes, nodes, s`slot, s`next
    {
      && nodes.Length == |chains|
      && Placed(chains, s)
      && (forall b {:trigger chains[b]} :: 0 <= b < |chains| ==> List(nodes[b], chains[b]))
    }

    /** The nodes carry exactly the contents, each with its key's hash value. */
    ghost predicate Carried()
      reads this`contents, this`all, all`value
    {
      KeysCarried(hashFunc, all, contents.Keys) && forall n :: n in all ==> contents[n.key] == n.value
    }

    /** Every node is on the list its hash value selects. */
    ghost predicate Homed()
      requires size > 0
      reads this`size, this`all, all`slot
    {
      forall n :: n in all ==> n.slot == Bucket(n.hashv, size)
    }

    /** All of the invariant but the bound that makes an insertion resize. */
    ghost predicate Sound()
      reads this, nodes, all
    {
      && Compatible(hashFunc, comp)
      && size == Pow2(log) == nodes.Length > 0
      && Linked(all) && Carried() && Homed()
      && Keyed(comp, contents)
      && |contents| <= num
    }

    ghost predicate Valid()
      reads this, nodes, all
    {
      Sound() && num < size
    }

    constructor (hashFunc: K -> nat, comp: (K, K) -> bool)
      requires Compatible(hashFunc, comp)
      ensures Valid() && fresh(nodes) && all == {}
      ensures this.hashFunc == hashFunc && this.comp == comp
      ensures contents == map[] && size == 256 && num == 0
    {
      this.hashFunc, this.comp := hashFunc, comp;
      size, num := 256, 0;
      nodes := new Node?<K, V>[256](_ => null);
      log, chains, all, contents := 8, seq(256, _ => []), {}, map[];
      assert Pow2(8) == 256;
    }

    /** The slot a key's node is in or would be put in: the link after `prev` (or the bucket
        head), and what it points to. */
    method LookupNode(key: K) returns (hashv: nat, bucket: nat, prev: Node?<K, V>, node: Node?<K, V>, ghost i: nat)
      requires Valid()
      ensures hashv == hashFunc(key) && bucket == Bucket(hashv, size) < |chains|
      ensures i <= |chains[bucket]| && node == if i < |chains[bucket]| then chains[bucket][i] else null
      ensures prev == if i == 0 then null else chains[bucket][i - 1]
      ensures node != null ==> comp(node.key, key) && node.key == StoredKeyOf(key)
      ensures node == null ==> !Holds(comp, contents, key)
      ensures node != null ==> Holds(comp, contents, key)
    {
      hide Compatible, Keyed, Holds, Bucket, Pow2, StoredKeyOf, Carried, Homed;
      hashv := hashFunc(key);
      bucket := Bucket(hashv, size);
      BucketInTable(hashv, log);
      ghost var c := chains[bucket];
      prev, node, i := null, nodes[bucket], 0;
      while node != null && !comp(node.key, key)
        invariant i <= |c| && node == Nth(c, i)
        invariant prev == if i == 0 then null else c[i - 1]
        invariant forall j :: 0 <= j < i ==> !comp(c[j].key, key)
        decreases |c| - i
      {
        prev, node, i := node, node.next, i + 1;
      }
      if node == null {
        NotOnList(key, bucket);
      } else {
        FoundOnList(key, node);
      }
    }

    lemma FoundOnList(key: K, node: Node<K, V>)
      requires Valid() && node in all && comp(node.key, key)
      ensures Holds(comp, contents, key) && node.key == StoredKeyOf(key)
    {
      StoredKeyUnique(hashFunc, comp, contents, key, node.key);
    }

    ghost function StoredKeyOf(key: K): K
      reads this
    {
      if Holds(comp, contents, key) then StoredKey(comp, contents, key) else key
    }

    /** A key whose own list has no equivalent is nowhere. */
    lemma NotOnList(key: K, bucket: nat)
      requires Valid() && bucket == Bucket(hashFunc(key), size) < |chains|
      requires forall j :: 0 <= j < |chains[bucket]| ==> !comp(chains[bucket][j].key, key)
      ensures !Holds(comp, contents, key)
    {
      forall k | k in contents
        ensures !comp(k, key)
      {
        var n :| n in all && n.key == k;
        Equivalence(hashFunc, comp, k, key, k);
        assert n in chains[n.slot];
      }
    }

    method Lookup(key: K) returns (r: Option<V>)
      requires Valid()
      ensures r == Get(comp, contents, key)
    {
      var _, _, _, node, _ := LookupNode(key);
      r := if node != null then Some(node.value) else None;
    }

    method HasKey(key: K) returns (r: bool)
      requires Valid()
      ensures r <==> Holds(comp, contents, key)
    {
      var _, _, _, node, _ := LookupNode(key);
      r := node != null;
    }

    /** Take a node out of its list: `*slot = node->next`. */
    method Unlink(bucket: nat, prev: Node?<K, V>, node: Node<K, V>, ghost i: nat, ghost s: set<Node<K, V>>)
      requires Linked(s) && bucket < |chains| && i < |chains[bucket]| && node == chains[bucket][i]
      requires prev == if i == 0 then null else chains[bucket][i - 1]
      modifies this`chains, nodes, s`next
      ensures Linked(s - {node}) && |chains| == old(|chains|)
      ensures chains[bucket] == old(chains[bucket])[..i] + old(chains[bucket])[i + 1..]
      ensures forall b :: 0 <= b < |chains| && b != bucket ==> chains[b] == old(chains[b])
    {
      hide Placed;
      ghost var cs, c := chains, chains[bucket];
      assert List(nodes[bucket], c);
      PlacedWithout(cs, s, bucket, i);
      assert prev != null ==> prev in c;
      Elsewhere(chains, s, bucket, prev);
      if prev != null {
        prev.next := node.next;
      } else {
        nodes[bucket] := node.next;
      }
      ghost var c' := c[..i] + c[i + 1..];
      chains := chains[bucket := c'];
      forall b | 0 <= b < |chains|
        ensures List(nodes[b], chains[b])
      {
        if b == bucket {
          assert forall j :: 0 <= j < |c'| ==> c'[j] == if j < i then c[j] else c[j + 1];
        } else {
          assert old(List(nodes[b], cs[b]));
        }
      }
    }

    /** Put a node at the front of a list. */
    method Push(bucket: nat, node: Node<K, V>, ghost s: set<Node<K, V>>)
      requires Linked(s) && bucket < |chains| && node !in s
      modifies this`chains, nodes, node`next, node`slot
      ensures Linked(s + {node}) && |chains| == old(|chains|) && node.slot == bucket
      ensures chains[bucket] == [node] + old(chains[bucket])
      ensures forall b :: 0 <= b < |chains| && b != bucket ==> chains[b] == old(chains[b])
    {
      hide Placed;
      ghost var cs, c := chains, chains[bucket];
      assert List(nodes[bucket], c);
      Elsewhere(chains, s, bucket, node);
      node.next := nodes[bucket];
      nodes[bucket] := node;
      node.slot := bucket;
      ghost var c' := [node] + c;
      chains := chains[bucket := c'];
      PlacedWith(cs, s, bucket, c', node);
      forall b | 0 <= b < |chains|
        ensures List(nodes[b], chains[b])
      {
        if b == bucket {
          assert forall j :: 0 <= j < |c'| ==> c'[j] == if j == 0 then node else c[j - 1];
        } else {
          assert old(List(nodes[b], cs[b]));
        }
      }
    }

    /** Put a node into the empty slot at the end of a list. */
    method Append(bucket: nat, prev: Node?<K, V>, node: Node<K, V>, ghost s: set<Node<K, V>>)
      requires Linked(s) && bucket < |chains| && node !in s && node.next == null && node.slot == bucket
      requires prev == if chains[bucket] == [] then null else chains[bucket][|chains[bucket]| - 1]
      modifies this`chains, nodes, s`next
      ensures Linked(s + {node}) && |chains| == old(|chains|)
    {
      hide Placed;
      ghost var cs, c := chains, chains[bucket];
      assert List(nodes[bucket], c);
      assert prev != null ==> prev in c;
      Elsewhere(chains, s, bucket, prev);
      Elsewhere(chains, s, bucket, node);
      if prev != null {
        prev.next := node;
      } else {
        nodes[bucket] := node;
      }
      ghost var c' := c + [node];
      chains := chains[bucket := c'];
      PlacedWith(cs, s, bucket, c', node);
      forall b | 0 <= b < |chains|
        ensures List(nodes[b], chains[b])
      {
        if b == bucket {
          assert forall j :: 0 <= j < |c'| ==> c'[j] == if j == |c| then node else c[j];
        } else {
          assert old(List(nodes[b], cs[b]));
        }
      }
    }

    /** Halfway through a doubling from orig buckets: lists below x are done, later ones still
        hold the nodes that belong orig buckets further up. */
    ghost predicate Pending(x: nat, orig: nat)
      requires size > 0
      reads this`size, this`all, all`slot
    {
      forall n :: n in all ==>
        n.slot == Bucket(n.hashv, size) || (x <= n.slot < orig && Bucket(n.hashv, size) == n.slot + orig)
    }

    /** Move a node that belongs orig buckets further up to the front of the list there. */
    method Move(x: nat, orig: nat, prev: Node?<K, V>, node: Node<K, V>, ghost i: nat)
      requires Linked(all) && 0 < size == |chains| && x < orig && x + orig < size && Pending(x, orig)
      requires i < |chains[x]| && node == chains[x][i] && Bucket(node.hashv, size) != x
      requires prev == if i == 0 then null else chains[x][i - 1]
      modifies this`chains, nodes, all`next, node`slot
      ensures Linked(all) && |chains| == size && Pending(x, orig)
      ensures chains[x] == old(chains[x])[..i] + old(chains[x])[i + 1..]
    {
      hide Linked, Bucket;
      OnList(x, i);
      Unlink(x, prev, node, i, all);
      Push(x + orig, node, all - {node});
      assert all - {node} + {node} == all;
    }

    /** Move the nodes of list x that belong to list x + orig there. */
    method Split(x: nat, orig: nat)
      requires Linked(all) && 0 < size == |chains| && x < orig && x + orig < size && Pending(x, orig)
      modifies this`chains, nodes, all`next, all`slot
      ensures Linked(all) && |chains| == size && Pending(x + 1, orig)
    {
      hide Bucket, Linked, Pending;
      OnList(x, 0);
      var prev, entry := null, nodes[x];
      ghost var i := 0;
      while entry != null
        invariant Linked(all) && |chains| == size == nodes.Length && Pending(x, orig)
        invariant i <= |chains[x]| && entry == Nth(chains[x], i)
        invariant prev == if i == 0 then null else chains[x][i - 1]
        invariant forall j :: 0 <= j < i ==> Bucket(chains[x][j].hashv, size) == x
        decreases |chains[x]| - i
      {
        OnList(x, i);
        if Bucket(entry.hashv, size) != x {
          Move(x, orig, prev, entry, i);
        } else {
          prev, i := entry, i + 1;
        }
        OnList(x, i);
        entry := if prev != null then prev.next else nodes[x];
      }
      ListDone(x, orig);
    }

    lemma OnList(b: nat, i: nat)
      requires Linked(all) && b < |chains| && i <= |chains[b]|
      ensures |chains| == nodes.Length && (i == 0 ==> nodes[b] == Nth(chains[b], i))
      ensures i > 0 ==> chains[b][i - 1].next == Nth(chains[b], i)
      ensures i < |chains[b]| ==> chains[b][i] in all && chains[b][i].slot == b
    {
      assert List(nodes[b], chains[b]);
    }

    lemma ListDone(x: nat, orig: nat)
      requires Linked(all) && 0 < size && x < |chains| && Pending(x, orig)
      requires forall j :: 0 <= j < |chains[x]| ==> Bucket(chains[x][j].hashv, size) == x
      ensures Pending(x + 1, orig)
    {
      hide Bucket;
      forall n | n in all && n.slot == x
        ensures Bucket(n.hashv, size) == x
      {
        assert n in chains[x];
      }
    }

    /** Empty lists added at the end leave the others as they were. */
    lemma GrownLists(newNodes: array<Node?<K, V>>, newChains: seq<seq<Node<K, V>>>, orig: nat)
      requires Linked(all) && |chains| == orig && newNodes.Length == 2 * orig
      requires newChains == chains + seq(orig, _ => [])
      requires forall b :: 0 <= b < orig ==> newNodes[b] == nodes[b]
      requires forall b :: orig <= b < 2 * orig ==> newNodes[b] == null
      ensures Placed(newChains, all)
      ensures forall b {:trigger newChains[b]} :: 0 <= b < 2 * orig ==> List(newNodes[b], newChains[b])
    {
      assert forall b :: 0 <= b < 2 * orig ==> newChains[b] == if b < orig then chains[b] else [];
      forall b | 0 <= b < 2 * orig
        ensures List(newNodes[b], newChains[b])
      {
        hide Placed;
        if b < orig {
          assert List(nodes[b], chains[b]);
        }
      }
    }

    lemma GrownHomes(orig: nat)
      requires orig == size == Pow2(log) && Homed()
      ensures forall n :: n in all ==>
        n.slot == Bucket(n.hashv, 2 * orig) || (n.slot < orig && Bucket(n.hashv, 2 * orig) == n.slot + orig)
    {
      forall n | n in all
        ensures n.slot == Bucket(n.hashv, 2 * orig) || (n.slot < orig && Bucket(n.hashv, 2 * orig) == n.slot + orig)
      {
        DoubledMask(n.hashv, log);
      }
    }

    /** The first half of a doubling: a larger array, the old buckets in its lower part. */
    method Grow()
      requires Sound()
      modifies this`size, this`nodes, this`log, this`chains
      ensures fresh(nodes) && size == 2 * old(size) == |chains| == nodes.Length == Pow2(log)
      ensures Linked(all) && Pending(0, old(size))
    {
      hide Compatible, Keyed, Carried, List, Placed, Bucket;
      var orig, newNodes := size, new Node?<K, V>[2 * size](_ => null);
      forall b | 0 <= b < orig {
        newNodes[b] := nodes[b];
      }
      GrownLists(newNodes, chains + seq(orig, _ => []), orig);
      GrownHomes(orig);
      nodes, size := newNodes, 2 * size;
      log, chains := log + 1, chains + seq(orig, _ => []);
    }

    /** A whole doubling. */
    method Double()
      requires Sound()
      modifies this`size, this`nodes, this`log, this`chains, nodes, all`next, all`slot
      ensures Sound() && fresh(nodes) && size == 2 * old(size)
    {
      hide Linked, Carried, Compatible, Keyed, Pow2, Bucket;
      var orig := size;
      Grow();
      var x := 0;
      while x < orig
        invariant x <= orig && size == 2 * orig == |chains| == nodes.Length == Pow2(log) && fresh(nodes)
        invariant Linked(all) && Pending(x, orig)
      {
        Split(x, orig);
        x := x + 1;
      }
    }

    /** Double the table unless there is room for one more. */
    method Resize()
      requires Sound() && num <= size
      modifies this`size, this`nodes, this`log, this`chains, nodes, all`next, all`slot
      ensures Valid() && (nodes == old(nodes) || fresh(nodes))
      ensures size == if old(size) > num then old(size) else 2 * old(size)
    {
      if size > num {
        return;
      }
      Double();
    }

    /** The branch of an insertion that finds a node. */
    method Overwrite(key: K, node: Node<K, V>, value: V)
      requires Valid() && node in all && Holds(comp, contents, key) && node.key == StoredKeyOf(key)
      modifies this`num, this`contents, node`value
      ensures Sound() && contents == Put(comp, old(contents), key, value) && num == old(num) + 1
    {
      hide Compatible, Keyed, Holds, Linked, KeysCarried, Bucket, Pow2;
      PutKeyed(hashFunc, comp, contents, key, value);
      ghost var put := Put(comp, contents, key, value);
      assert put == contents[node.key := value] && put.Keys == contents.Keys;
      DistinctKeys(node);
      node.value := value;
      contents := put;
      num := num + 1;
    }

    method AddNode(key: K, hashv: nat, bucket: nat, prev: Node?<K, V>, value: V, ghost keys: set<K>)
      returns (n: Node<K, V>)
      requires Linked(all) && bucket < |chains|
      requires KeysCarried(hashFunc, all, keys) && hashv == hashFunc(key) && key !in keys
      requires prev == if chains[bucket] == [] then null else chains[bucket][|chains[bucket]| - 1]
      modifies this`chains, this`all, nodes, all`next
      ensures Linked(all) && |chains| == old(|chains|) && fresh(n) && all == old(all) + {n}
      ensures KeysCarried(hashFunc, all, keys + {key})
      ensures n.key == key && n.hashv == hashv && n.value == value && n.slot == bucket
    {
      hide Linked, KeysCarried;
      n := new Node(key, hashv, value, bucket);
      KeysWith(hashFunc, all, keys, n);
      Append(bucket, prev, n, all);
      all := all + {n};
    }

    /** The branch that fills the empty slot at the end of a list. */
    method Add(key: K, hashv: nat, bucket: nat, prev: Node?<K, V>, value: V)
      requires Valid() && !Holds(comp, contents, key) && hashv == hashFunc(key)
      requires bucket == Bucket(hashv, size) < |chains|
      requires prev == if chains[bucket] == [] then null else chains[bucket][|chains[bucket]| - 1]
      modifies this`num, this`contents, this`chains, this`all, nodes, all`next
      ensures Sound() && contents == Put(comp, old(contents), key, value) && num == old(num) + 1
      ensures fresh(all - old(all))
    {
      hide *;
      ghost var nodesBefore, keysBefore := all, contents.Keys;
      NewKeyPut(key, value);
      contents := Put(comp, contents, key, value);
      num := num + 1;
      var n := AddNode(key, hashv, bucket, prev, value, keysBefore);
      SoundWith(nodesBefore, n);
    }

    lemma SoundWith(s: set<Node<K, V>>, n: Node<K, V>)
      requires Compatible(hashFunc, comp) && Keyed(comp, contents) && |contents| <= num
      requires size == Pow2(log) == nodes.Length > 0 && Linked(all)
      requires KeysCarried(hashFunc, all, contents.Keys) && all == s + {n}
      requires Fits(s, contents, size)
      requires n.key in contents && contents[n.key] == n.value && n.slot == Bucket(n.hashv, size)
      ensures Sound()
    {
    }

    lemma NewKeyPut(key: K, value: V)
      requires Valid() && !Holds(comp, contents, key)
      ensures var put := Put(comp, contents, key, value);
              && Keyed(comp, put) && |put| == |contents| + 1 && key !in contents
              && put.Keys == contents.Keys + {key} && put[key] == value
              && Fits(all, put, size)
              && |put| <= num + 1
      ensures Compatible(hashFunc, comp) && Linked(all) && KeysCarried(hashFunc, all, contents.Keys)
      ensures size == Pow2(log) == nodes.Length == |chains| > 0
    {
      hide Compatible, Keyed;
      PutKeyed(hashFunc, comp, contents, key, value);
      PutSize(hashFunc, comp, contents, key, value);
      Equivalence(hashFunc, comp, key, key, key);
    }

    /** Overwrites, too, count towards the size at which the table doubles. */
    method Insert(key: K, value: V)
      requires Valid()
      modifies this, nodes, all
      ensures Valid() && (nodes == old(nodes) || fresh(nodes)) && fresh(all - old(all))
      ensures contents == Put(comp, old(contents), key, value)
      ensures num == old(num) + 1
      ensures size == if old(size) > num then old(size) else 2 * old(size)
    {
      hide Sound, Holds, Put, Bucket;
      var hashv, bucket, prev, node, i := LookupNode(key);
      NodesAtSlot(bucket, i);
      if node != null {
        Overwrite(key, node, value);
      } else {
        Add(key, hashv, bucket, prev, value);
      }
      Resize();
    }

    lemma NodesAtSlot(bucket: nat, i: nat)
      requires Valid() && bucket < |chains| && i <= |chains[bucket]|
      ensures i < |chains[bucket]| ==> chains[bucket][i] in all
    {
    }

    lemma DistinctKeys(node: Node<K, V>)
      requires Valid() && node in all
      ensures node.key in contents
      ensures forall n :: n in all && n != node ==> n.key != node.key
    {
    }

    method DropNode(bucket: nat, prev: Node?<K, V>, node: Node<K, V>, ghost i: nat, ghost keys: set<K>)
      requires Linked(all) && bucket < |chains| && i < |chains[bucket]| && node == chains[bucket][i]
      requires prev == if i == 0 then null else chains[bucket][i - 1]
      requires KeysCarried(hashFunc, all, keys) && node in all
      modifies this`chains, this`all, nodes, all`next
      ensures Linked(all) && |chains| == old(|chains|) && all == old(all) - {node}
      ensures KeysCarried(hashFunc, all, keys - {node.key})
    {
      hide Linked, KeysCarried;
      KeysWithout(hashFunc, all, keys, node);
      Unlink(bucket, prev, node, i, all);
      all := all - {node};
    }

    /** The branch of a removal that finds a node. */
    method RemoveFound(key: K, bucket: nat, prev: Node?<K, V>, node: Node<K, V>, ghost i: nat) returns (value: V)
      requires Valid() && Holds(comp, contents, key) && node.key == StoredKeyOf(key)
      requires bucket < |chains| && i < |chains[bucket]| && node == chains[bucket][i]
      requires prev == if i == 0 then null else chains[bucket][i - 1]
      modifies this`num, this`chains, this`all, this`contents, nodes, all`next
      ensures Valid() && all <= old(all)
      ensures contents == Delete(comp, old(contents), key) && Get(comp, old(contents), key) == Some(value)
      ensures num == old(num) - 1
    {
      hide *;
      HeldDelete(key, node, bucket, i);
      ghost var rest, d := all - {node}, Delete(comp, contents, key);
      value := node.value;
      DropNode(bucket, prev, node, i, contents.Keys);
      contents := d;
      num := num - 1;
      SoundWithout(rest);
    }

    method Remove(key: K) returns (r: Option<V>)
      requires Valid()
      modifies this`num, this`chains, this`all, this`contents, nodes, all`next
      ensures Valid() && all <= old(all)
      ensures contents == Delete(comp, old(contents), key) && r == Get(comp, old(contents), key)
      ensures num == old(num) - (if r == None then 0 else 1)
    {
      hide *;
      var _, bucket, prev, node, i := LookupNode(key);
      if node != null {
        var value := RemoveFound(key, bucket, prev, node, i);
        r := Some(value);
      } else {
        NothingToDelete(key);
        r := None;
      }
    }

    lemma NothingToDelete(key: K)
      requires !Holds(comp, contents, key)
      ensures Delete(comp, contents, key) == contents && Get(comp, contents, key) == None
    {
    }

    lemma HeldDelete(key: K, node: Node<K, V>, bucket: nat, i: nat)
      requires Valid() && Holds(comp, contents, key) && node.key == StoredKeyOf(key)
      requires bucket < |chains| && i < |chains[bucket]| && node == chains[bucket][i]
      ensures node in all && Get(comp, contents, key) == Some(node.value)
      ensures Compatible(hashFunc, comp) && Linked(all) && KeysCarried(hashFunc, all, contents.Keys)
      ensures size == Pow2(log) == nodes.Length == |chains| > num > 0
      ensures var d := Delete(comp, contents, key);
              && Keyed(comp, d) && |d| <= num - 1 && d.Keys == contents.Keys - {node.key}
              && Fits(all - {node}, d, size)
    {
      hide Compatible, Keyed;
      NodesAtSlot(bucket, i);
      DeleteLaws(hashFunc, comp, contents, key, key);
      DistinctKeys(node);
    }

    lemma SoundWithout(s: set<Node<K, V>>)
      requires Compatible(hashFunc, comp) && Keyed(comp, contents) && |contents| <= num < size
      requires size == Pow2(log) == nodes.Length > 0 && Linked(all)
      requires KeysCarried(hashFunc, all, contents.Keys) && all == s
      requires Fits(s, contents, size)
      ensures Valid()
    {
    }

    /** No two nodes have equivalent keys, and each is in the bucket its key's hash selects. */
    lemma OneNodePerKey(n: Node<K, V>, m: Node<K, V>)
      requires Valid() && n in all && m in all
      ensures comp(n.key, m.key) ==> n == m
      ensures n in chains[And(hashFunc(n.key), size - 1)]
    {
      hide Compatible;
      assert n.key in contents && m.key in contents;
    }
  }

  // ----- whole runs

  datatype Op<K, V> = InsertOp(key: K, value: V) | LookupOp(key: K) | HasKeyOp(key: K) | RemoveOp(key: K)

  datatype Answer<V> = Done | Value(v: Option<V>) | Present(b: bool)

  ghost function StepContents<K, V>(comp: (K, K) -> bool, m: map<K, V>, op: Op<K, V>): map<K, V> {
    match op
    case InsertOp(k, v) => Put(comp, m, k, v)
    case RemoveOp(k) => Delete(comp, m, k)
    case _ => m
  }

  ghost function StepAnswer<K, V>(comp: (K, K) -> bool, m: map<K, V>, op: Op<K, V>): Answer<V> {
    match op
    case InsertOp(_, _) => Done
    case LookupOp(k) => Value(Get(comp, m, k))
    case HasKeyOp(k) => Present(Get(comp, m, k) != None)
    case RemoveOp(k) => Value(Get(comp, m, k))
  }

  ghost function RunContents<K, V>(comp: (K, K) -> bool, m: map<K, V>, ops: seq<Op<K, V>>): map<K, V>
    decreases |ops|
  {
    if ops == [] then m else StepContents(comp, RunContents(comp, m, ops[..|ops| - 1]), ops[|ops| - 1])
  }

  /** A run over a fresh table answers every operation as the finite map would. */
  method Run<K(!new), V>(hash: K -> nat, comp: (K, K) -> bool, ops: seq<Op<K, V>>)
    returns (table: Table<K, V>, answers: seq<Answer<V>>)
    requires Compatible(hash, comp)
    ensures table.Valid() && table.comp == comp && table.hashFunc == hash
    ensures table.contents == RunContents(comp, map[], ops)
    ensures |answers| == |ops|
    ensures forall i :: 0 <= i < |ops| ==> answers[i] == StepAnswer(comp, RunContents(comp, map[], ops[..i]), ops[i])
  {
    RunNothing(comp, map[], ops);
    hide *;
    table := new Table(hash, comp);
    answers := [];
    var i := 0;
    while i < |ops|
      invariant i <= |ops| && |answers| == i
      invariant table.Valid() && table.comp == comp && table.hashFunc == hash
      invariant fresh(table) && fresh(table.nodes) && fresh(table.all)
      invariant table.contents == RunContents(comp, map[], ops[..i])
      invariant forall j :: 0 <= j < i ==> answers[j] == StepAnswer(comp, RunContents(comp, map[], ops[..j]), ops[j])
    {
      RunSnoc(comp, map[], ops, i);
      var answer := Perform(table, ops[i]);
      answers, i := answers + [answer], i + 1;
    }
    assert ops[..i] == ops;
  }

  lemma RunNothing<K, V>(comp: (K, K) -> bool, m: map<K, V>, ops: seq<Op<K, V>>)
    ensures RunContents(comp, m, ops[..0]) == m
  {
  }

  lemma RunSnoc<K, V>(comp: (K, K) -> bool, m: map<K, V>, ops: seq<Op<K, V>>, i: nat)
    requires i < |ops|
    ensures RunContents(comp, m, ops[..i + 1]) == StepContents(comp, RunContents(comp, m, ops[..i]), ops[i])
  {
    assert ops[..i + 1][..i] == ops[..i];
  }

  lemma StepMeaning<K, V>(comp: (K, K) -> bool, m: map<K, V>, op: Op<K, V>)
    ensures StepContents(comp, m, op)
         == match op case InsertOp(k, v) => Put(comp, m, k, v) case RemoveOp(k) => Delete(comp, m, k) case _ => m
    ensures StepAnswer(comp, m, op)
         == match op
            case InsertOp(_, _) => Done
            case HasKeyOp(k) => Present(Holds(comp, m, k))
            case _ => Value(Get(comp, m, op.key))
  {
  }

  method Perform<K(!new), V>(table: Table<K, V>, op: Op<K, V>) returns (answer: Answer<V>)
    requires table.Valid()
    modifies table, table.nodes, table.all
    ensures table.Valid() && (table.nodes == old(table.nodes) || fresh(table.nodes))
    ensures fresh(table.all - old(table.all))
    ensures table.contents == StepContents(table.comp, old(table.contents), op)
    ensures answer == StepAnswer(table.comp, old(table.contents), op)
  {
    StepMeaning(table.comp, table.contents, op);
    hide *;
    answer := Done;
    match op {
      case InsertOp(k, v) =>
        table.Insert(k, v);
      case LookupOp(k) =>
        var v := table.Lookup(k);
        answer := Value(v);
      case HasKeyOp(k) =>
        var b := table.HasKey(k);
        answer := Present(b);
      case RemoveOp(k) =>
        var v := table.Remove(k);
        answer := Value(v);
    }
  }
}

/** Finite maps whose keys are told apart by a caller's comparison function. At most one of
    several equivalent keys is stored; all of them find its value. */
module KeyedMap {
  import opened Wrappers

  /** What a table demands of its two callbacks. */
  ghost predicate Compatible<K(!new)>(hash: K -> nat, comp: (K, K) -> bool) {
    && (forall a :: comp(a, a))
    && (forall a, b :: comp(a, b) ==> comp(b, a) && hash(a) == hash(b))
    && (forall a, b, c :: comp(a, b) && comp(b, c) ==> comp(a, c))
  }

  lemma Equivalence<K(!new)>(hash: K -> nat, comp: (K, K) -> bool, a: K, b: K, c: K)
    requires Compatible(hash, comp)
    ensures comp(a, a)
    ensures comp(a, b) ==> comp(b, a) && hash(a) == hash(b)
    ensures comp(a, b) && comp(b, c) ==> comp(a, c)
    ensures comp(a, b) && comp(c, b) ==> comp(a, c)
  {
  }

  ghost predicate Keyed<K, V>(comp: (K, K) -> bool, m: map<K, V>) {
    forall a, b :: a in m && b in m && comp(a, b) ==> a == b
  }

  ghost predicate Holds<K, V>(comp: (K, K) -> bool, m: map<K, V>, key: K) {
    exists k :: k in m && comp(k, key)
  }

  ghost function StoredKey<K, V>(comp: (K, K) -> bool, m: map<K, V>, key: K): (k: K)
    requires Holds(comp, m, key)
    ensures k in m && comp(k, key)
  {
    var k :| k in m && comp(k, key); k
  }

  ghost function Get<K, V>(comp: (K, K) -> bool, m: map<K, V>, key: K): Option<V> {
    if Holds(comp, m, key) then Some(m[StoredKey(comp, m, key)]) else None
  }

  /** An overwrite keeps the key that is already stored. */
  ghost function Put<K, V>(comp: (K, K) -> bool, m: map<K, V>, key: K, value: V): map<K, V> {
    if Holds(comp, m, key) then m[StoredKey(comp, m, key) := value] else m[key := value]
  }

  ghost function Delete<K, V>(comp: (K, K) -> bool, m: map<K, V>, key: K): map<K, V> {
    if Holds(comp, m, key) then m - {StoredKey(comp, m, key)} else m
  }

  lemma StoredKeyUnique<K(!new), V>(hash: K -> nat, comp: (K, K) -> bool, m: map<K, V>, key: K, k: K)
    requires Compatible(hash, comp) && Keyed(comp, m)
    requires k in m && comp(k, key)
    ensures Holds(comp, m, key) && StoredKey(comp, m, key) == k
  {
    var k' := StoredKey(comp, m, key);
    Equivalence(hash, comp, k', key, k);
  }

  /** Equivalent keys find the same value. */
  lemma GetEquivalent<K(!new), V>(hash: K -> nat, comp: (K, K) -> bool, m: map<K, V>, a: K, b: K)
    requires Compatible(hash, comp) && Keyed(comp, m) && comp(a, b)
    ensures Get(comp, m, a) == Get(comp, m, b)
  {
  }

  lemma NewKey<K(!new), V>(hash: K -> nat, comp: (K, K) -> bool, m: map<K, V>, key: K, value: V)
    requires Compatible(hash, comp) && Keyed(comp, m) && !Holds(comp, m, key)
    ensures Keyed(comp, m[key := value])
  {
    hide Compatible, Holds;
    var p := m[key := value];
    forall a, b | a in p && b in p && comp(a, b)
      ensures a == b
    {
      Equivalence(hash, comp, a, b, a);
      if a != key && b == key {
        NotHeld(comp, m, key, a);
      } else if a == key && b != key {
        NotHeld(comp, m, key, b);
      }
    }
  }

  lemma NotHeld<K, V>(comp: (K, K) -> bool, m: map<K, V>, key: K, k: K)
    requires !Holds(comp, m, key) && k in m
    ensures !comp(k, key)
  {
  }

  lemma PutKeyed<K(!new), V>(hash: K -> nat, comp: (K, K) -> bool, m: map<K, V>, key: K, value: V)
    requires Compatible(hash, comp) && Keyed(comp, m)
    ensures Keyed(comp, Put(comp, m, key, value))
  {
    if !Holds(comp, m, key) {
      NewKey(hash, comp, m, key, value);
    }
  }

  /** Only a new key makes the map larger. */
  lemma PutSize<K(!new), V>(hash: K -> nat, comp: (K, K) -> bool, m: map<K, V>, key: K, value: V)
    requires Compatible(hash, comp)
    ensures |Put(comp, m, key, value)| == |m| + (if Get(comp, m, key) == None then 1 else 0)
  {
  }

  /** Put and Delete are what a map's store and remove should be, modulo the comparison. */
  lemma PutGet<K(!new), V>(hash: K -> nat, comp: (K, K) -> bool, m: map<K, V>, key: K, value: V, other: K)
    requires Compatible(hash, comp) && Keyed(comp, m)
    ensures Get(comp, Put(comp, m, key, value), other)
         == if comp(key, other) then Some(value) else Get(comp, m, other)
  {
  }

  lemma DeleteLaws<K(!new), V>(hash: K -> nat, comp: (K, K) -> bool, m: map<K, V>, key: K, other: K)
    requires Compatible(hash, comp) && Keyed(comp, m)
    ensures var d := Delete(comp, m, key);
            && Keyed(comp, d)
            && |d| == |m| - (if Get(comp, m, key) == None then 0 else 1)
            && Get(comp, d, other) == if comp(key, other) then None else Get(comp, m, other)
  {
  }
}

/** Putting the nodes of one level in another order keeps every invariant. */
module HdfSorted {
  import opened HdfDir
  import opened HdfLaws
  import opened HdfNodes

  /** The children of n were put in the order perm. */
  twostate predicate Resorted(at: Nodes, new n: Hdf, perm: seq<nat>)
    reads at.Values, n, n.kids
  {
    && n in at.Values && Permutation(perm, |old(n.kids)|)
    && n.kids == Permuted(old(n.kids), perm) && Level(n)
    && (n.kids != [] ==> n.lastChild == n.kids[|n.kids| - 1])
    && n.hash == old(n.hash)
    && Elsewhere(at, n)
  }

  twostate lemma NestedSorted(at: Nodes, new n: Hdf, new perm: seq<nat>)
    requires Named(at) && old(Nested(at)) && Resorted(at, n, perm)
    ensures Nested(at)
  {
    forall p | p in at
      ensures Nest(at, at[p])
    {
      assert old(Nest(at, at[p]));
      if at[p] == n {
        forall j | 0 <= j < |n.kids|
          ensures Child(at, n.path, n.kids[j].name) == n.kids[j]
        {
          assert n.kids[j] == old(n.kids)[perm[j]];
        }
      }
    }
  }

  twostate lemma LevelsSorted(at: Nodes, new n: Hdf, new perm: seq<nat>)
    requires Named(at) && n in at.Values && old(Levels(at) && Apart(at, n)) && Resorted(at, n, perm)
    ensures Levels(at)
  {
    LevelsElsewhere(at, n);
    NodeAt(at, n);
    PermutedSame(old(n.kids), perm);
    assert old(forall k :: k in n.kids ==> k in at.Values);
  }

  twostate lemma CachedSorted(at: Nodes, new n: Hdf, new perm: seq<nat>, new dead: set<Hdf>)
    requires Named(at) && old(allocated(dead)) && old(Cached(at, dead)) && Resorted(at, n, perm)
    ensures Cached(at, dead)
  {
    PermutedSame(old(n.kids), perm);
  }

  twostate lemma EndedSorted(at: Nodes, new n: Hdf, new perm: seq<nat>)
    requires old(Ended(at)) && Resorted(at, n, perm)
    ensures Ended(at)
  {
    hide Permutation, Permuted, Level;
  }

  twostate lemma IndexedSorted(at: Nodes, new n: Hdf, new perm: seq<nat>)
    requires old(Indexed(at, null)) && Resorted(at, n, perm)
    ensures Indexed(at, null)
  {
    forall p | p in at
      ensures Index(at, at[p])
    {
      assert old(Index(at, at[p]));
    }
  }

  lemma NamesPermuted(kids: seq<Hdf>, perm: seq<nat>)
    requires Permutation(perm, |kids|)
    ensures NamesOf(Permuted(kids, perm)) == Permuted(NamesOf(kids), perm)
  {
  }

  twostate lemma ViewSorted(at: Nodes, new n: Hdf, new perm: seq<nat>)
    requires Named(at) && Resorted(at, n, perm)
    ensures var d := old(ViewOf(at));
            && n.path in d && Permutation(perm, |d[n.path].kids|)
            && ViewOf(at) == Reorder(d, n.path, Permuted(d[n.path].kids, perm))
  {
    NodeAt(at, n);
    NamesPermuted(old(n.kids), perm);
    var d, e := old(ViewOf(at)), ViewOf(at);
    assert d[n.path] == old(EntryOf(n));
    forall p | p in e
      ensures e[p] == Reorder(d, n.path, Permuted(d[n.path].kids, perm))[p]
    {
      if p != n.path {
        assert EntryOf(at[p]) == old(EntryOf(at[p]));
      }
    }
  }

  twostate lemma AllSorted(at: Nodes, new n: Hdf, new perm: seq<nat>, new dead: set<Hdf>)
    requires n in at.Values && old(allocated(dead)) && Named(at) && old(Shape(at, dead, null) && Apart(at, n))
    requires Resorted(at, n, perm) && old(WellFormed(ViewOf(at)))
    requires forall m :: m in dead ==> m.next == old(m.next)
    ensures Shape(at, dead, null) && WellFormed(ViewOf(at))
    ensures var d := old(ViewOf(at));
            && n.path in d && Permutation(perm, |d[n.path].kids|)
            && ViewOf(at) == Reorder(d, n.path, Permuted(d[n.path].kids, perm))
  {
    assert Detached(at, dead);
    hide Resorted, Apart, Named, Nested, Levels, Indexed, Ended, Cached, WellFormed, ViewOf;
    NestedSorted(at, n, perm);
    LevelsSorted(at, n, perm);
    CachedSorted(at, n, perm, dead);
    EndedSorted(at, n, perm);
    IndexedSorted(at, n, perm);
    ViewSorted(at, n, perm);
    ReorderWellFormed(old(ViewOf(at)), n.path, perm);
  }

  /** What a sort finds before it starts. */
  lemma LevelReady(at: Nodes, dead: set<Hdf>, n: Hdf)
    requires WellFormed(ViewOf(at)) && Named(at) && Nested(at) && Levels(at) && Detached(at, dead)
    requires n in at.Values
    ensures Level(n) && Distinct(n.kids) && Alive(at, dead, n.kids)
    ensures n.child == null <==> n.kids == []
  {
    hide Nested, WellFormed;
    NodeAt(at, n);
    KidFacts(at, n);
    DistinctFacts(at, n);
  }

  /** Sorting a node without children changes nothing. */
  lemma SortNothing(at: Nodes, n: Hdf, perm: seq<nat>)
    requires Named(at) && n in at.Values && Permutation(perm, |n.kids|)
    ensures n.kids == [] ==>
      && n.path in ViewOf(at) && Permutation(perm, |ViewOf(at)[n.path].kids|)
      && ViewOf(at) == Reorder(ViewOf(at), n.path, Permuted(ViewOf(at)[n.path].kids, perm))
  {
    NodeAt(at, n);
    if n.kids == [] {
      var d := ViewOf(at);
      assert d[n.path] == EntryOf(n);
      assert Permuted(d[n.path].kids, perm) == [];
      assert d[n.path := d[n.path]] == d;
    }
  }
}

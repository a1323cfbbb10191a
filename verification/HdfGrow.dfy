/** Appending a node to a level keeps every invariant but the index of that level. */
module HdfGrow {
  import opened Wrappers
  import opened HdfNames
  import opened HdfDir
  import opened HdfNodes

  /** hp is new and was hung behind the last child of n. */
  twostate predicate Grown(at0: Nodes, new at1: Nodes, new n: Hdf, new hp: Hdf)
    reads at0.Values, hp, n, n.kids
  {
    && n in at0.Values && hp !in at0.Values
    && hp.path == n.path + [hp.name] && hp.path !in at0 && at1 == at0[hp.path := hp]
    && n.kids == old(n.kids) + [hp] && Level(n) && n.lastChild == hp
    && hp.kids == [] && hp.child == null && hp.hash == None && hp.lastHs == null
    && Elsewhere(at0, n)
  }

  lemma AtGrown(at0: Nodes, at1: Nodes, n: Hdf, hp: Hdf, p: Path)
    requires Named(at0) && n in at0.Values && hp !in at0.Values && p in at1
    requires hp.path == n.path + [hp.name] && hp.path !in at0 && at1 == at0[hp.path := hp]
    ensures n.path in at0 && at0[n.path] == n && n.path != hp.path && at1[n.path] == n
    ensures at1[p] == hp <==> p == hp.path
    ensures p != hp.path ==> p in at0 && at1[p] == at0[p]
    ensures p in at0 && p != n.path ==> at0[p] != n
  {
    NodeAt(at0, n);
    assert |hp.path| == |n.path| + 1;
  }

  lemma ValuesGrown(at0: Nodes, p: Path, hp: Hdf)
    requires p !in at0
    ensures at0[p := hp].Values == at0.Values + {hp}
  {
    var at1 := at0[p := hp];
    forall q | q in at0
      ensures at0[q] in at1.Values
    {
      assert at1[q] == at0[q];
    }
    assert at1[p] == hp;
  }

  twostate lemma NestedGrown(at0: Nodes, new at1: Nodes, new n: Hdf, new hp: Hdf)
    requires Named(at0) && old(Nested(at0)) && Grown(at0, at1, n, hp)
    ensures Named(at1) && Nested(at1)
  {
    KidPath(n.path, hp.name);
    forall p | p in at1
      ensures at1[p].path == p && (p != [] ==> at1[p].name == Last(p)) && Nest(at1, at1[p])
    {
      AtGrown(at0, at1, n, hp, p);
      if p != hp.path {
        assert old(Nest(at0, at0[p]));
      }
    }
  }

  twostate lemma LevelsGrown(at0: Nodes, new at1: Nodes, new n: Hdf, new hp: Hdf)
    requires Named(at0) && n in at0.Values && old(Levels(at0) && Apart(at0, n)) && Grown(at0, at1, n, hp)
    ensures Levels(at1)
  {
    ValuesGrown(at0, hp.path, hp);
    hide Elsewhere;
    LevelsElsewhere(at0, n);
    forall p | p in at1
      ensures (forall k :: k in at1[p].kids ==> k in at1.Values) && Level(at1[p])
    {
      AtGrown(at0, at1, n, hp, p);
      if p != hp.path && p != n.path {
      } else {
        assert old(forall k :: k in n.kids ==> k in at0.Values);
      }
    }
  }

  twostate lemma EndedGrown(at0: Nodes, new at1: Nodes, new n: Hdf, new hp: Hdf)
    requires Named(at0) && old(Ended(at0)) && Grown(at0, at1, n, hp)
    ensures Ended(at1)
  {
    forall p | p in at1 && at1[p].kids != []
      ensures at1[p].lastChild == at1[p].kids[|at1[p].kids| - 1]
    {
      AtGrown(at0, at1, n, hp, p);
    }
  }

  twostate lemma CachedGrown(at0: Nodes, new at1: Nodes, new n: Hdf, new hp: Hdf, new dead: set<Hdf>)
    requires Named(at0) && old(allocated(dead)) && old(Cached(at0, dead)) && Grown(at0, at1, n, hp)
    ensures Cached(at1, dead)
  {
    forall p | p in at1 && at1[p].lastHs != null
      ensures at1[p].lastHs in at1[p].kids || at1[p].lastHs in dead
    {
      AtGrown(at0, at1, n, hp, p);
    }
  }

  twostate lemma IndexedGrown(at0: Nodes, new at1: Nodes, new n: Hdf, new hp: Hdf)
    requires Named(at0) && old(Indexed(at0, null)) && Grown(at0, at1, n, hp)
    ensures Indexed(at1, n)
  {
    KidPath(n.path, hp.name);
    forall p | p in at1 && at1[p] != n
      ensures Index(at1, at1[p])
    {
      AtGrown(at0, at1, n, hp, p);
      if p != hp.path {
        assert old(Index(at0, at0[p]));
        forall c
          ensures Child(at1, p, c) == Child(at0, p, c)
        {
          KidPath(p, c);
        }
      }
    }
  }

  twostate lemma EntryGrown(at0: Nodes, new at1: Nodes, new n: Hdf, new hp: Hdf, new p: Path)
    requires Named(at0) && Grown(at0, at1, n, hp) && p in at1
    ensures p == hp.path ==> EntryOf(at1[p]) == Entry(hp.value, hp.link, [])
    ensures p == n.path ==> EntryOf(at1[p]) == old(EntryOf(n)).(kids := old(EntryOf(n)).kids + [hp.name])
    ensures p != hp.path && p != n.path ==> p in at0 && EntryOf(at1[p]) == old(EntryOf(at0[p]))
    ensures n.path in at0 && at0[n.path] == n
  {
    AtGrown(at0, at1, n, hp, p);
    if p == n.path {
      NamesSnoc(old(n.kids), hp);
    } else if p == hp.path {
      assert NamesOf([]) == [];
    }
  }

  twostate lemma ViewGrown(at0: Nodes, new at1: Nodes, new n: Hdf, new hp: Hdf)
    requires Named(at0) && Grown(at0, at1, n, hp)
    ensures n.path in at0 && ViewOf(at1) == AddKid(old(ViewOf(at0)), n.path, hp.name, hp.value, hp.link)
  {
    NodeAt(at0, n);
    assert hp.path == n.path + [hp.name] && at1 == at0[hp.path := hp];
    var d, e := old(ViewOf(at0)), ViewOf(at1);
    var f := AddKid(d, n.path, hp.name, hp.value, hp.link);
    AddKidLookup(d, n.path, hp.name, hp.value, hp.link);
    assert e.Keys == f.Keys;
    hide AddKid, ViewOf, EntryOf, Grown, Named;
    forall p | p in e
      ensures e[p] == f[p]
    {
      EntryGrown(at0, at1, n, hp, p);
    }
  }

  lemma NamesSnoc(kids: seq<Hdf>, hp: Hdf)
    ensures NamesOf(kids + [hp]) == NamesOf(kids) + [hp.name]
  {
  }

  twostate lemma DetachedGrown(at0: Nodes, new at1: Nodes, new n: Hdf, new hp: Hdf, new dead: set<Hdf>)
    requires old(allocated(dead)) && old(Detached(at0, dead)) && Grown(at0, at1, n, hp)
    requires hp !in dead && forall m :: m in dead ==> m.next == old(m.next)
    ensures Detached(at1, dead)
  {
    ValuesGrown(at0, hp.path, hp);
  }

  twostate lemma ShapeGrown(at0: Nodes, new at1: Nodes, new n: Hdf, new hp: Hdf, new dead: set<Hdf>)
    requires n in at0.Values && old(allocated(dead)) && old(Shape(at0, dead, null) && Apart(at0, n))
    requires Grown(at0, at1, n, hp)
    requires hp !in dead && forall m :: m in dead ==> m.next == old(m.next)
    ensures Shape(at1, dead, n)
  {
    hide Named, Nested, Levels, Indexed, Ended, Cached, Detached, Apart, Grown;
    NestedGrown(at0, at1, n, hp);
    LevelsGrown(at0, at1, n, hp);
    EndedGrown(at0, at1, n, hp);
    CachedGrown(at0, at1, n, hp, dead);
    IndexedGrown(at0, at1, n, hp);
    DetachedGrown(at0, at1, n, hp, dead);
  }

  twostate lemma TopGrown(at0: Nodes, new at1: Nodes, new n: Hdf, new hp: Hdf)
    requires [] in at0 && Grown(at0, at1, n, hp)
    ensures [] in at1 && at1[[]] == at0[[]]
  {
  }

  twostate lemma GrownFacts(at0: Nodes, new at1: Nodes, new n: Hdf, new hp: Hdf)
    requires Grown(at0, at1, n, hp)
    ensures n in at1.Values && hp in at1.Values && hp.path == n.path + [hp.name] && at1 == at0[hp.path := hp]
  {
    ValuesGrown(at0, hp.path, hp);
  }
}

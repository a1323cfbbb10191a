/** Taking a node and all below it out of its level keeps every invariant. */
module HdfShrink {
  import opened Wrappers
  import opened HdfNames
  import opened HdfDir
  import opened HdfLaws
  import opened HdfNodes

  function Cut(kids: seq<Hdf>, i: nat): (r: seq<Hdf>)
    requires i < |kids|
    ensures |r| == |kids| - 1
    ensures forall j {:trigger r[j]} :: 0 <= j < |r| ==> r[j] == if j < i then kids[j] else kids[j + 1]
    ensures forall k :: k in r ==> k in kids
  {
    kids[..i] + kids[i + 1..]
  }

  /** No other node has the name of the one at i. */
  ghost predicate NameApart(kids: seq<Hdf>, i: nat)
    requires i < |kids|
  {
    forall j {:trigger kids[j]} :: 0 <= j < |kids| && j != i ==> kids[j].name != kids[i].name
  }

  lemma CutKeeps(kids: seq<Hdf>, i: nat)
    requires i < |kids| && Distinct(kids)
    ensures kids[i] !in Cut(kids, i)
    ensures forall k :: k in kids && k != kids[i] ==> k in Cut(kids, i)
  {
    forall k | k in kids && k != kids[i]
      ensures k in Cut(kids, i)
    {
      var j :| 0 <= j < |kids| && kids[j] == k;
      assert Cut(kids, i)[if j < i then j else j - 1] == k;
    }
  }

  /** The nodes that are not at q or below it. */
  ghost function Outside(at: Nodes, q: Path): (r: Nodes)
    ensures forall p {:trigger p in r} :: p in r <==> p in at && !(q <= p)
    ensures forall p {:trigger r[p]} :: p in r ==> r[p] == at[p]
  {
    map p | p in at && !(q <= p) :: at[p]
  }

  /** What a removal of q leaves, whether there is such a node or not. */
  ghost function NodesLeft(at: Nodes, q: Path): (r: Nodes) {
    if q in at then Outside(at, q) else at
  }

  lemma NodesLeftFacts(at: Nodes, q: Path)
    ensures NodesLeft(at, q) == if q in at then Outside(at, q) else at
  {
  }

  /** hp, the child of n at i, was unhooked with all that is below it. */
  twostate predicate Shrunk(at0: Nodes, new at1: Nodes, new n: Hdf, new hp: Hdf, i: nat)
    reads at0.Values, hp, n, n.kids
  {
    && n in at0.Values && hp in at0.Values && hp.path == n.path + [hp.name]
    && i < |old(n.kids)| && old(n.kids)[i] == hp && old(Distinct(n.kids))
    && at1 == Outside(at0, hp.path)
    && n.kids == Cut(old(n.kids), i) && Level(n)
    && (n.kids != [] ==> n.lastChild == n.kids[|n.kids| - 1])
    && hp.next == null
    && Elsewhere(at0, n)
  }

  lemma AtShrunk(at0: Nodes, n: Hdf, hp: Hdf, p: Path)
    requires Named(at0) && n in at0.Values && hp in at0.Values && hp.path == n.path + [hp.name]
    ensures var at1 := Outside(at0, hp.path);
            && n.path in at1 && at1[n.path] == n
            && (p in at1 ==> p in at0 && at1[p] == at0[p] && at0[p] != hp && at0[p].path == p)
            && (p in at1 ==> forall c {:trigger Child(at1, p, c)} ::
                  Child(at1, p, c) == if p == n.path && c == hp.name then null else Child(at0, p, c))
            && hp.path in at0 && at0[hp.path] == hp
  {
    NodeAt(at0, n);
    NodeAt(at0, hp);
    assert !(hp.path <= n.path) by {
      assert |hp.path| == |n.path| + 1;
    }
    var at1 := Outside(at0, hp.path);
    if p in at1 {
      forall c
        ensures Child(at1, p, c) == if p == n.path && c == hp.name then null else Child(at0, p, c)
      {
        KidPath(p, c);
        KidPath(n.path, hp.name);
        PrefixOfParent(hp.path, p + [c]);
      }
    }
  }

  lemma ValuesShrunk(at0: Nodes, q: Path, k: Hdf)
    requires Named(at0)
    ensures k in Outside(at0, q).Values <==> k in at0.Values && !(q <= k.path)
  {
    if k in at0.Values {
      NodeAt(at0, k);
      if !(q <= k.path) {
        assert Outside(at0, q)[k.path] == k;
      }
    }
  }

  twostate lemma NestedShrunk(at0: Nodes, new at1: Nodes, new n: Hdf, new hp: Hdf, new i: nat)
    requires Named(at0) && old(Nested(at0)) && Shrunk(at0, at1, n, hp, i)
    ensures Named(at1) && Nested(at1)
  {
    forall p | p in at1
      ensures Nest(at1, at1[p])
    {
      AtShrunk(at0, n, hp, p);
      assert old(Nest(at0, at0[p]));
      if p == n.path {
        CutKeeps(old(n.kids), i);
      }
      forall j | 0 <= j < |at1[p].kids|
        ensures Child(at1, p, at1[p].kids[j].name) == at1[p].kids[j]
      {
        var k := at1[p].kids[j];
        assert k in old(at0[p].kids);
        assert Child(at0, p, k.name) == k;
      }
    }
  }

  twostate lemma LevelsShrunk(at0: Nodes, new at1: Nodes, new n: Hdf, new hp: Hdf, new i: nat)
    requires Named(at0) && n in at0.Values && old(Nested(at0) && Levels(at0) && Apart(at0, n)) && Shrunk(at0, at1, n, hp, i)
    ensures Levels(at1)
  {
    LevelsElsewhere(at0, n);
    NestedShrunk(at0, at1, n, hp, i);
    forall p | p in at1
      ensures (forall k :: k in at1[p].kids ==> k in at1.Values) && Level(at1[p])
    {
      AtShrunk(at0, n, hp, p);
      hide Shrunk, Levels, Level, Nested, Elsewhere;
      KidFacts(at1, at1[p]);
    }
  }

  twostate lemma EndedShrunk(at0: Nodes, new at1: Nodes, new n: Hdf, new hp: Hdf, new i: nat)
    requires Named(at0) && old(Ended(at0)) && Shrunk(at0, at1, n, hp, i)
    ensures Ended(at1)
  {
    forall p | p in at1 && at1[p].kids != []
      ensures at1[p].lastChild == at1[p].kids[|at1[p].kids| - 1]
    {
      AtShrunk(at0, n, hp, p);
    }
  }

  twostate lemma CachedShrunk(at0: Nodes, new at1: Nodes, new n: Hdf, new hp: Hdf, new i: nat, new dead: set<Hdf>)
    requires Named(at0) && old(allocated(dead)) && old(Cached(at0, dead)) && Shrunk(at0, at1, n, hp, i)
    ensures Cached(at1, dead + {hp})
  {
    CutKeeps(old(n.kids), i);
    forall p | p in at1 && at1[p].lastHs != null
      ensures at1[p].lastHs in at1[p].kids || at1[p].lastHs in dead + {hp}
    {
      AtShrunk(at0, n, hp, p);
    }
  }

  twostate lemma IndexedShrunk(at0: Nodes, new at1: Nodes, new n: Hdf, new hp: Hdf, new i: nat)
    requires Named(at0) && old(Indexed(at0, null)) && Shrunk(at0, at1, n, hp, i)
    requires n.hash == match old(n.hash) case None => None case Some(h) => Some(h - {hp.name})
    ensures Indexed(at1, null)
  {
    forall p | p in at1
      ensures Index(at1, at1[p])
    {
      AtShrunk(at0, n, hp, p);
      assert old(Index(at0, at0[p]));
    }
  }

  twostate lemma DetachedShrunk(at0: Nodes, new at1: Nodes, new n: Hdf, new hp: Hdf, new i: nat, new dead: set<Hdf>)
    requires Named(at0) && old(allocated(dead)) && old(Detached(at0, dead)) && Shrunk(at0, at1, n, hp, i)
    requires forall m :: m in dead ==> m.next == old(m.next)
    ensures Detached(at1, dead + {hp})
  {
    forall m | m in dead + {hp}
      ensures m.next == null && m !in at1.Values
    {
      ValuesShrunk(at0, hp.path, m);
    }
  }

  twostate lemma ShapeShrunk(at0: Nodes, new at1: Nodes, new n: Hdf, new hp: Hdf, new i: nat, new dead: set<Hdf>)
    requires n in at0.Values && old(allocated(dead)) && old(Shape(at0, dead, null) && Apart(at0, n))
    requires Shrunk(at0, at1, n, hp, i)
    requires n.hash == match old(n.hash) case None => None case Some(h) => Some(h - {hp.name})
    requires forall m :: m in dead ==> m.next == old(m.next)
    ensures Shape(at1, dead + {hp}, null)
  {
    hide Named, Nested, Levels, Indexed, Ended, Cached, Detached, Apart, Shrunk;
    NestedShrunk(at0, at1, n, hp, i);
    LevelsShrunk(at0, at1, n, hp, i);
    EndedShrunk(at0, at1, n, hp, i);
    CachedShrunk(at0, at1, n, hp, i, dead);
    IndexedShrunk(at0, at1, n, hp, i);
    DetachedShrunk(at0, at1, n, hp, i, dead);
  }

  lemma {:induction false} NamesCut(kids: seq<Hdf>, i: nat)
    requires i < |kids| && NameApart(kids, i)
    ensures NamesOf(Cut(kids, i)) == Without(NamesOf(kids), kids[i].name)
    decreases |kids|
  {
    var names := NamesOf(kids);
    assert names[1..] == NamesOf(kids[1..]);
    if i == 0 {
      assert Cut(kids, 0) == kids[1..];
    } else {
      assert kids[1..][i - 1] == kids[i];
      NamesCut(kids[1..], i - 1);
      assert Cut(kids, i) == [kids[0]] + Cut(kids[1..], i - 1);
      assert NamesOf(Cut(kids, i)) == [kids[0].name] + NamesOf(Cut(kids[1..], i - 1));
    }
  }

  twostate lemma EntryShrunk(at0: Nodes, new at1: Nodes, new n: Hdf, new hp: Hdf, new i: nat, new p: Path)
    requires Named(at0) && Shrunk(at0, at1, n, hp, i) && p in at1
    requires i < |old(n.kids)| && NameApart(old(n.kids), i)
    ensures p in at0 && n.path == Parent(hp.path) && hp.name == Last(hp.path)
    ensures EntryOf(at1[p]) ==
      if p == n.path then old(EntryOf(at0[p])).(kids := Without(old(EntryOf(at0[p])).kids, hp.name)) else old(EntryOf(at0[p]))
  {
    AtShrunk(at0, n, hp, p);
    KidPath(n.path, hp.name);
    if p == n.path {
      NamesCut(old(n.kids), i);
    }
  }

  twostate lemma PathShrunk(at0: Nodes, new at1: Nodes, new n: Hdf, new hp: Hdf, new i: nat, new p: Path)
    requires Named(at0) && Shrunk(at0, at1, n, hp, i) && hp.path != []
    requires i < |old(n.kids)| && NameApart(old(n.kids), i)
    ensures p in ViewOf(at1) <==> p in Prune(old(ViewOf(at0)), hp.path)
    ensures p in ViewOf(at1) ==> ViewOf(at1)[p] == Prune(old(ViewOf(at0)), hp.path)[p]
  {
    assert at1 == Outside(at0, hp.path);
    hide Prune, ViewOf, EntryOf, Shrunk, Named, Without, NamesOf;
    PruneLookup(old(ViewOf(at0)), hp.path, p);
    if p in at1 {
      EntryShrunk(at0, at1, n, hp, i, p);
    }
  }

  twostate lemma ViewShrunk(at0: Nodes, new at1: Nodes, new n: Hdf, new hp: Hdf, new i: nat)
    requires Named(at0) && Shrunk(at0, at1, n, hp, i)
    requires i < |old(n.kids)| && NameApart(old(n.kids), i)
    ensures hp.path != [] && ViewOf(at1) == Prune(old(ViewOf(at0)), hp.path)
  {
    assert hp.path != [] by {
      KidPath(n.path, hp.name);
    }
    hide Prune, ViewOf, Shrunk, Named;
    forall p
      ensures p in ViewOf(at1) <==> p in Prune(old(ViewOf(at0)), hp.path)
      ensures p in ViewOf(at1) ==> ViewOf(at1)[p] == Prune(old(ViewOf(at0)), hp.path)[p]
    {
      PathShrunk(at0, at1, n, hp, i, p);
    }
  }

  twostate lemma TopShrunk(at0: Nodes, new at1: Nodes, new n: Hdf, new hp: Hdf, new i: nat)
    requires [] in at0 && Shrunk(at0, at1, n, hp, i)
    ensures at1 == Outside(at0, hp.path) && [] in at1 && at1[[]] == at0[[]]
  {
    KidPath(n.path, hp.name);
    assert !(hp.path <= []);
  }

  /** The node hp, the child of n at i, in a dataset where everything is in order. */
  ghost predicate Removable(at: Nodes, dead: set<Hdf>, n: Hdf, hp: Hdf, i: nat)
    reads at.Values, n, n.kids, dead`next
  {
    && n in at.Values && hp in at.Values && i < |n.kids| && n.kids[i] == hp && KidOf(n, hp)
    && Alive(at, dead, n.kids) && Level(n) && Distinct(n.kids) && Apart(at, n) && NameApart(n.kids, i)
    && n.lastChild == n.kids[|n.kids| - 1]
    && Named(at) && WellFormed(ViewOf(at)) && Shape(at, dead, null) && [] in at && hp.path in at
  }

  /** It was unhooked, and taken out of the index of its level. */
  twostate predicate Unhooked(at0: Nodes, new at1: Nodes, new n: Hdf, new hp: Hdf, new i: nat, new dead: set<Hdf>)
    requires old(allocated(dead))
    reads at0.Values, hp, n, n.kids, dead`next
  {
    && Shrunk(at0, at1, n, hp, i)
    && n.hash == (match old(n.hash) case None => None case Some(h) => Some(h - {hp.name}))
    && forall m :: m in dead ==> m.next == old(m.next)
  }

  twostate lemma AllShrunk(at0: Nodes, new at1: Nodes, new n: Hdf, new hp: Hdf, new i: nat, new dead: set<Hdf>)
    requires old(allocated(dead) && allocated(n) && allocated(hp)) && old(Removable(at0, dead, n, hp, i)) && Unhooked(at0, at1, n, hp, i, dead)
    ensures Shape(at1, dead + {hp}, null)
    ensures ViewOf(at1) == Removed(old(ViewOf(at0)), hp.path) && WellFormed(ViewOf(at1))
    ensures at1 == Outside(at0, hp.path) && [] in at1 && at1[[]] == at0[[]]
  {
    hide Shape, Shrunk, NameApart, Apart, Named, Prune, WellFormed, ViewOf;
    ViewShrunk(at0, at1, n, hp, i);
    ShapeShrunk(at0, at1, n, hp, i, dead);
    TopShrunk(at0, at1, n, hp, i);
    PruneWellFormed(old(ViewOf(at0)), hp.path);
  }
}

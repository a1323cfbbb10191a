/** The nodes of a dataset: sibling lists, the index of a large level, the one-entry search cache
    and the last-child pointer, and how they stand for the map of paths to entries. */
module HdfNodes {
  import opened Wrappers
  import opened HdfNames
  import opened HdfDir

  class Hdf {
    const name: string
    ghost const path: Path
    var value: Option<string>
    var link: bool
    var next: Hdf?
    var child: Hdf?
    var lastHp: Hdf?
    var lastHs: Hdf?
    var hash: Option<map<string, Hdf>>  // the level's index, once it has grown
    var lastChild: Hdf?
    ghost var kids: seq<Hdf>

    constructor (name: string, value: Option<string>, link: bool, ghost path: Path)
      ensures this.name == name && this.path == path && this.value == value && this.link == link
      ensures next == null && child == null && lastHp == null && lastHs == null
      ensures hash == None && lastChild == null && kids == []
    {
      this.name, this.path, this.value, this.link := name, path, value, link;
      next, child, lastHp, lastHs, hash, lastChild, kids := null, null, null, null, None, null, [];
    }
  }

  type Nodes = map<Path, Hdf>

  function Nth(c: seq<Hdf>, i: nat): (n: Hdf?) {
    if i < |c| then c[i] else null
  }

  /** The child of the node at p called c, if there is one. */
  ghost function Child(at: Nodes, p: Path, c: string): (n: Hdf?) {
    if p + [c] in at then at[p + [c]] else null
  }

  ghost function AtPath(at: Nodes, p: Path): (n: Hdf?) {
    if p in at then at[p] else null
  }

  /** No removed node is among the kids, and they are all in the dataset. */
  ghost predicate Alive(at: Nodes, dead: set<Hdf>, kids: seq<Hdf>) {
    forall k :: k in kids ==> k in at.Values && k !in dead
  }

  /** The path of k is that of a child of n. */
  ghost predicate KidOf(n: Hdf, k: Hdf) {
    k.path == n.path + [k.name]
  }

  lemma InValues(at: Nodes, p: Path)
    requires p in at
    ensures at[p] in at.Values
  {
  }

  lemma ChildNone(at: Nodes, p: Path, c: string)
    requires Child(at, p, c) == null
    ensures p + [c] !in at
  {
  }

  lemma ChildSome(at: Nodes, p: Path, c: string)
    requires Child(at, p, c) != null
    ensures p + [c] in at && at[p + [c]] == Child(at, p, c)
  {
  }

  ghost function NamesOf(kids: seq<Hdf>): (names: seq<string>)
    ensures |names| == |kids|
    ensures forall i {:trigger names[i]} :: 0 <= i < |kids| ==> names[i] == kids[i].name
  {
    seq(|kids|, i requires 0 <= i < |kids| => kids[i].name)
  }

  /** What the nodes mean. */
  ghost function ViewOf(at: Nodes): (d: Dir)
    reads at.Values`value, at.Values`link, at.Values`kids
    ensures d.Keys == at.Keys
    ensures forall p {:trigger d[p]} {:trigger at[p]} :: p in at ==> d[p] == EntryOf(at[p])
  {
    map p | p in at :: EntryOf(at[p])
  }

  ghost function EntryOf(n: Hdf): (e: Entry)
    reads n`value, n`link, n`kids
  {
    Entry(n.value, n.link, NamesOf(n.kids))
  }

  /** Nodes are found under their own paths. */
  ghost predicate Named(at: Nodes) {
    forall p {:trigger at[p]} :: p in at ==> at[p].path == p && (p != [] ==> at[p].name == Last(p))
  }

  /** A node's children are the nodes one component further. */
  ghost predicate Nested(at: Nodes)
    reads at.Values`kids
  {
    forall p {:trigger at[p]} :: p in at ==> Nest(at, at[p])
  }

  ghost predicate Nest(at: Nodes, n: Hdf)
    reads n`kids
  {
    forall i {:trigger n.kids[i]} :: 0 <= i < |n.kids| ==>
      n.path + [n.kids[i].name] in at && at[n.path + [n.kids[i].name]] == n.kids[i]
  }

  /** The sibling pointers spell out the children. */
  ghost predicate Level(n: Hdf)
    reads n`child, n`kids, n.kids`next
  {
    && n.child == Nth(n.kids, 0)
    && forall i {:trigger n.kids[i].next} :: 0 <= i < |n.kids| ==> n.kids[i].next == Nth(n.kids, i + 1)
  }

  ghost predicate Levels(at: Nodes)
    reads at.Values`child, at.Values`kids, at.Values`next
  {
    forall p {:trigger at[p]} :: p in at ==> (forall k :: k in at[p].kids ==> k in at.Values) && Level(at[p])
  }

  ghost predicate Distinct(kids: seq<Hdf>) {
    forall i, j {:trigger kids[i], kids[j]} :: 0 <= i < j < |kids| ==> kids[i] != kids[j]
  }

  /** An index holds exactly the children that exist. */
  ghost predicate Index(at: Nodes, n: Hdf)
    reads n`hash
  {
    n.hash.Some? ==> IndexOf(at, n, n.hash.value)
  }

  /** The map h is an index of the level of n. */
  ghost predicate IndexOf(at: Nodes, n: Hdf, h: map<string, Hdf>) {
    forall c {:trigger Child(at, n.path, c)} {:trigger c in h} ::
      Child(at, n.path, c) == if c in h then h[c] else null
  }

  /** Every level but perhaps that of `but` has a correct index. */
  ghost predicate Indexed(at: Nodes, but: Hdf?)
    reads at.Values`hash
  {
    forall p {:trigger at[p]} :: p in at && at[p] != but ==> Index(at, at[p])
  }

  /** On a level that is not empty the last-child pointer is right. */
  ghost predicate Ended(at: Nodes)
    reads at.Values`lastChild, at.Values`kids
  {
    forall p {:trigger at[p]} :: p in at && at[p].kids != [] ==> at[p].lastChild == at[p].kids[|at[p].kids| - 1]
  }

  /** A cached predecessor is still a child, or was removed and has no successor. */
  ghost predicate Cached(at: Nodes, dead: set<Hdf>)
    reads at.Values`lastHs, at.Values`kids
  {
    forall p {:trigger at[p]} :: p in at && at[p].lastHs != null ==> at[p].lastHs in at[p].kids || at[p].lastHs in dead
  }

  ghost predicate Detached(at: Nodes, dead: set<Hdf>)
    reads dead`next
  {
    forall n :: n in dead ==> n.next == null && n !in at.Values
  }

  /** Every pointer of the nodes but those of the caches is in order, and every index but
      perhaps that of one level. */
  ghost predicate Pointers(at: Nodes, dead: set<Hdf>, but: Hdf?)
    reads at.Values`child, at.Values`kids, at.Values`next, at.Values`hash, at.Values`lastChild, dead`next
  {
    Named(at) && Nested(at) && Levels(at) && Indexed(at, but) && Ended(at) && Detached(at, dead)
  }

  ghost predicate Shape(at: Nodes, dead: set<Hdf>, but: Hdf?)
    reads at.Values`child, at.Values`kids, at.Values`next, at.Values`hash, at.Values`lastChild, at.Values`lastHs, dead`next
  {
    Pointers(at, dead, but) && Cached(at, dead)
  }

  lemma ShapePieces(at: Nodes, dead: set<Hdf>, but: Hdf?)
    requires Shape(at, dead, but)
    ensures Named(at) && Nested(at) && Levels(at) && Indexed(at, but) && Ended(at) && Cached(at, dead) && Detached(at, dead)
  {
  }

  lemma ShapeParts(at: Nodes, dead: set<Hdf>, but: Hdf?)
    requires Shape(at, dead, but)
    ensures Pointers(at, dead, but) && Cached(at, dead)
  {
  }

  lemma ShapeOf(at: Nodes, dead: set<Hdf>, but: Hdf?)
    requires Pointers(at, dead, but) && Cached(at, dead)
    ensures Shape(at, dead, but)
  {
  }

  twostate lemma CachedSaved(at: Nodes, new n: Hdf, new dead: set<Hdf>)
    requires old(allocated(dead)) && old(Cached(at, dead)) && (n.lastHs != null ==> n.lastHs in n.kids)
    requires forall m :: m in at.Values ==> m.kids == old(m.kids) && (m != n ==> m.lastHs == old(m.lastHs))
    ensures Cached(at, dead)
  {
  }

  // ----- reading a node off the invariants

  lemma NodeAt(at: Nodes, n: Hdf)
    requires Named(at) && n in at.Values
    ensures n.path in at && at[n.path] == n
  {
    var q :| q in at && at[q] == n;
  }

  lemma KidFacts(at: Nodes, n: Hdf)
    requires Named(at) && Nested(at) && n in at.Values
    ensures forall i {:trigger n.kids[i]} :: 0 <= i < |n.kids| ==>
      && n.kids[i] in at.Values && n.kids[i] == Child(at, n.path, n.kids[i].name)
      && n.kids[i].path == n.path + [n.kids[i].name]
  {
    NodeAt(at, n);
    assert at[n.path] == n;
  }

  lemma ChildFacts(at: Nodes, n: Hdf, c: string)
    requires WellFormed(ViewOf(at)) && Named(at) && Nested(at) && n in at.Values && Child(at, n.path, c) != null
    ensures Child(at, n.path, c) in n.kids && Child(at, n.path, c).name == c && Child(at, n.path, c) in at.Values
  {
    NodeAt(at, n);
    KidPath(n.path, c);
    assert InPlace(ViewOf(at), n.path + [c]);
    KidFacts(at, n);
    assert ViewOf(at)[n.path] == EntryOf(n);
    hide Nested, WellFormed, ViewOf;
    var i :| 0 <= i < |n.kids| && ViewOf(at)[n.path].kids[i] == c;
    assert n.kids[i].name == c;
  }

  lemma DistinctFacts(at: Nodes, n: Hdf)
    requires WellFormed(ViewOf(at)) && Named(at) && n in at.Values
    ensures forall i, j {:trigger n.kids[i], n.kids[j]} :: 0 <= i < j < |n.kids| ==>
      n.kids[i].name != n.kids[j].name && n.kids[i] != n.kids[j]
  {
    NodeAt(at, n);
    var names := ViewOf(at)[n.path].kids;
    assert names == NamesOf(n.kids) by {
      assert ViewOf(at)[n.path] == EntryOf(n);
    }
    assert NoDuplicates(names);
    hide WellFormed, ViewOf, Named;
    assert forall i {:trigger n.kids[i]} :: 0 <= i < |n.kids| ==> n.kids[i].name == names[i];
  }

  lemma LevelFacts(at: Nodes, n: Hdf)
    requires Named(at) && Levels(at) && Ended(at) && n in at.Values
    ensures Level(n)
    ensures n.kids != [] ==> n.lastChild == n.kids[|n.kids| - 1]
  {
    NodeAt(at, n);
    assert at[n.path] == n;
    hide Level;
  }

  lemma IndexFacts(at: Nodes, but: Hdf?, n: Hdf)
    requires Named(at) && Indexed(at, but) && n in at.Values && n.hash.Some? && n != but
    ensures IndexOf(at, n, n.hash.value)
  {
    NodeAt(at, n);
    assert at[n.path] == n;
  }

  lemma CacheFacts(at: Nodes, dead: set<Hdf>, n: Hdf)
    requires Named(at) && Cached(at, dead) && Detached(at, dead) && n in at.Values
    ensures n.lastHs != null ==> n.lastHs in n.kids || (n.lastHs in dead && n.lastHs.next == null)
  {
    NodeAt(at, n);
    assert at[n.path] == n;
  }

  // ----- what a change of one level leaves alone

  /** Only the level of n was rewritten. */
  twostate predicate Elsewhere(at0: Nodes, new n: Hdf)
    reads at0.Values
  {
    && n in at0.Values
    && (forall m {:trigger m.kids} :: m in at0.Values && m != n ==>
         m.kids == old(m.kids) && m.child == old(m.child) && m.lastChild == old(m.lastChild))
    && (forall m {:trigger m.next} :: m in at0.Values && m !in old(n.kids) ==> m.next == old(m.next))
    && (forall m {:trigger m.lastHs} {:trigger m.hash} :: m in at0.Values ==>
         && m.lastHs == old(m.lastHs) && (m != n ==> m.hash == old(m.hash)))
    && (forall m {:trigger m.value} {:trigger m.link} :: m in at0.Values ==> m.value == old(m.value) && m.link == old(m.link))
  }

  /** The level of n shares no node with any other. */
  ghost predicate Apart(at: Nodes, n: Hdf)
    reads at.Values`kids, n`kids
  {
    forall m, k {:trigger k in m.kids} :: m in at.Values && m != n && k in m.kids ==> k in at.Values && k !in n.kids
  }

  lemma LevelsApart(at: Nodes, n: Hdf)
    requires Named(at) && Nested(at) && n in at.Values
    ensures Apart(at, n)
  {
    NodeAt(at, n);
    KidFacts(at, n);
    forall m, k | m in at.Values && m != n && k in m.kids
      ensures k in at.Values && k !in n.kids
    {
      NodeAt(at, m);
      KidFacts(at, m);
      hide Named, Nested;
      KidPath(m.path, k.name);
      KidPath(n.path, k.name);
    }
  }

  /** Every other level is as it was. */
  twostate lemma LevelsElsewhere(at0: Nodes, new n: Hdf)
    requires Named(at0) && n in at0.Values && old(Levels(at0) && Apart(at0, n))
    requires Elsewhere(at0, n)
    ensures forall p {:trigger at0[p]} :: p in at0 && at0[p] != n ==>
      at0[p].kids == old(at0[p].kids) && Level(at0[p]) && forall k :: k in at0[p].kids ==> k in at0.Values
  {
    forall p | p in at0 && at0[p] != n
      ensures at0[p].kids == old(at0[p].kids) && Level(at0[p]) && forall k :: k in at0[p].kids ==> k in at0.Values
    {
      assert old(Level(at0[p]));
      hide Levels;
      assert forall k :: k in at0[p].kids ==> k.next == old(k.next);
    }
  }

  /** Only the value and the link mark of n changed. */
  twostate lemma ViewOverwritten(at: Nodes, new n: Hdf)
    requires n.path in at && at[n.path] == n && Named(at)
    requires forall m :: m in at.Values ==> m.kids == old(m.kids)
    requires forall m :: m in at.Values && m != n ==> m.value == old(m.value) && m.link == old(m.link)
    ensures ViewOf(at) == SetEntry(old(ViewOf(at)), n.path, n.value, n.link)
  {
    var d, e := old(ViewOf(at)), ViewOf(at);
    forall p | p in e
      ensures e[p] == SetEntry(d, n.path, n.value, n.link)[p]
    {
      if p != n.path {
        assert EntryOf(at[p]) == old(EntryOf(at[p]));
      }
    }
  }

  // ----- nodes stay where they are

  ghost predicate Kept(at0: Nodes, at1: Nodes) {
    forall p {:trigger at1[p]} {:trigger p in at1} :: p in at0 ==> p in at1 && at1[p] == at0[p]
  }

  lemma KeptSame(at: Nodes)
    ensures Kept(at, at)
  {
  }

  lemma KeptMore(at0: Nodes, p: Path, n: Hdf)
    requires p !in at0
    ensures Kept(at0, at0[p := n])
  {
  }

  lemma KeptThrough(at0: Nodes, at1: Nodes, at2: Nodes)
    requires Kept(at0, at1) && Kept(at1, at2)
    ensures Kept(at0, at2)
  {
  }
}

/** The dataset: sets, walks and gets over its nodes, against the map they stand for. */
module HdfTree {
  import opened Wrappers
  import opened HdfNames
  import opened HdfDir
  import opened HdfNodes
  import opened HdfGrow
  import opened HdfLinks
  import opened HdfSets
  import opened HdfPending
  import opened HdfWalk
  import opened HdfLaws
  import opened HdfShrink
  import opened HdfSorted

  const FORCE_HASH_AT := 10

  /** Facts about one node that hold in every valid dataset. */
  lemma NodeFacts(at: Nodes, dead: set<Hdf>, but: Hdf?, n: Hdf, c: string)
    requires WellFormed(ViewOf(at)) && Shape(at, dead, but) && n in at.Values
    ensures n.path in at && at[n.path] == n && Level(n)
    ensures forall i {:trigger n.kids[i]} :: 0 <= i < |n.kids| ==>
      && n.kids[i] in at.Values && n.kids[i] == Child(at, n.path, n.kids[i].name)
      && n.kids[i].path == n.path + [n.kids[i].name]
    ensures Child(at, n.path, c) != null ==>
      Child(at, n.path, c) in n.kids && Child(at, n.path, c).name == c && Child(at, n.path, c) in at.Values
    ensures forall i, j {:trigger n.kids[i], n.kids[j]} :: 0 <= i < j < |n.kids| ==>
      n.kids[i].name != n.kids[j].name && n.kids[i] != n.kids[j]
    ensures n.hash.Some? && n != but ==> Child(at, n.path, c) == if c in n.hash.value then n.hash.value[c] else null
    ensures n.kids != [] ==> n.lastChild == n.kids[|n.kids| - 1]
  {
    hide *;
    ShapePieces(at, dead, but);
    NodeAt(at, n);
    KidFacts(at, n);
    DistinctFacts(at, n);
    LevelFacts(at, n);
    if n.hash.Some? && n != but {
      IndexFacts(at, but, n);
      IndexLookup(at, n, n.hash.value, c);
    }
    if Child(at, n.path, c) != null {
      ChildFacts(at, n, c);
    }
  }

  lemma IndexLookup(at: Nodes, n: Hdf, h: map<string, Hdf>, c: string)
    requires IndexOf(at, n, h)
    ensures Child(at, n.path, c) == if c in h then h[c] else null
  {
  }

  /** A map filled from a level's list is its index. */
  lemma IndexBuilt(at: Nodes, dead: set<Hdf>, n: Hdf, h: map<string, Hdf>)
    requires WellFormed(ViewOf(at)) && Shape(at, dead, n) && n in at.Values && Filled(n, h, |n.kids|)
    ensures IndexOf(at, n, h)
  {
    forall c
      ensures Child(at, n.path, c) == if c in h then h[c] else null
    {
      hide Shape, WellFormed, ViewOf, Child;
      NodeFacts(at, dead, n, n, c);
    }
  }

  /** The map h holds the first i children under their names. */
  ghost predicate Filled(n: Hdf, h: map<string, Hdf>, i: nat)
    reads n`kids
  {
    && i <= |n.kids|
    && (forall j {:trigger n.kids[j]} :: 0 <= j < i ==> n.kids[j].name in h && h[n.kids[j].name] == n.kids[j])
    && (forall c {:trigger h[c]} :: c in h ==> h[c].name == c && h[c] in n.kids)
  }

  lemma IndexInserted(at0: Nodes, at1: Nodes, n: Hdf, h: map<string, Hdf>, hp: Hdf)
    requires hp.path == n.path + [hp.name] && at1 == at0[hp.path := hp] && IndexOf(at0, n, h)
    ensures IndexOf(at1, n, h[hp.name := hp])
  {
    forall c
      ensures Child(at1, n.path, c) == if c == hp.name then hp else Child(at0, n.path, c)
    {
      KidPath(n.path, c);
      KidPath(n.path, hp.name);
    }
  }

  lemma IndexedAll(at: Nodes, n: Hdf)
    requires Indexed(at, n) && Index(at, n)
    ensures Indexed(at, null)
  {
    hide Index;
  }

  lemma NewShape(n: Hdf)
    requires n.path == [] && n.value == None && !n.link && n.next == null && n.child == null
    requires n.lastHs == null && n.hash == None && n.kids == []
    ensures WellFormed(NEW_DIR) && ViewOf(map[[] := n]) == NEW_DIR && Shape(map[[] := n], {}, null)
  {
    NewWellFormed();
    assert EntryOf(n) == Entry(None, false, []);
  }

  class Dataset {
    const top: Hdf
    ghost var at: Nodes
    ghost var dead: set<Hdf>  // removed nodes a cache may still point to

    ghost predicate Valid()
      reads this, at.Values, dead
    {
      WellFormed(ViewOf(at)) && [] in at && at[[]] == top && Shape(at, dead, null)
    }

    constructor ()
      ensures Valid() && fresh(top) && at == map[[] := top] && dead == {} && ViewOf(at) == NEW_DIR
    {
      top := new Hdf("", None, false, []);
      at, dead := map[[] := top], {};
      new;
      hide Shape, WellFormed, ViewOf;
      NewShape(top);
    }

    lemma Node(n: Hdf, c: string)
      requires Valid() && n in at.Values
      ensures n.path in at && at[n.path] == n && Level(n)
      ensures forall i {:trigger n.kids[i]} :: 0 <= i < |n.kids| ==>
        && n.kids[i] in at.Values && n.kids[i] == Child(at, n.path, n.kids[i].name)
        && n.kids[i].path == n.path + [n.kids[i].name]
      ensures Child(at, n.path, c) != null ==>
        Child(at, n.path, c) in n.kids && Child(at, n.path, c).name == c && Child(at, n.path, c) in at.Values
      ensures forall i, j {:trigger n.kids[i], n.kids[j]} :: 0 <= i < j < |n.kids| ==>
        n.kids[i].name != n.kids[j].name && n.kids[i] != n.kids[j]
      ensures n.hash.Some? ==> Child(at, n.path, c) == if c in n.hash.value then n.hash.value[c] else null
      ensures n.kids != [] ==> n.lastChild == n.kids[|n.kids| - 1]
      ensures n.lastHs != null ==> n.lastHs in n.kids || (n.lastHs in dead && n.lastHs.next == null)
    {
      hide *;
      Pieces();
      ShapePieces(at, dead, null);
      NodeFacts(at, dead, null, n, c);
      CacheFacts(at, dead, n);
    }

    /** Walk a level's list for a name: the node, the one before it, and how many were passed. */
    method SearchList(n: Hdf, c: string) returns (hp: Hdf?, hs: Hdf?, count: nat)
      requires Valid() && n in at.Values
      ensures hp == Child(at, n.path, c)
      ensures count <= |n.kids| && (hp == null ==> count == |n.kids|) && (hp != null ==> count < |n.kids| && n.kids[count] == hp)
      ensures hs == if count == 0 then null else n.kids[count - 1]
    {
      hide Shape, WellFormed, ViewOf, Child, Dataset.Valid;
      Node(n, c);
      hp, hs, count := n.child, null, 0;
      while hp != null && hp.name != c
        invariant count <= |n.kids| && hp == Nth(n.kids, count)
        invariant hs == if count == 0 then null else n.kids[count - 1]
        invariant forall i {:trigger n.kids[i]} :: 0 <= i < count ==> n.kids[i].name != c
        decreases |n.kids| - count
      {
        assert n.kids[count] == hp;
        hs, hp, count := hp, hp.next, count + 1;
      }
    }

    /** The cache test, when it passes on a node of the right name, finds what the list has. */
    lemma CacheHit(n: Hdf, hs: Hdf?, hp: Hdf)
      requires Valid() && n in at.Values && hs == n.lastHs
      requires (hs == null && hp == n.child) || (hs != null && hs.next == hp)
      ensures hp == Child(at, n.path, hp.name) && hp in n.kids
    {
      hide Shape, WellFormed, ViewOf, Child, Dataset.Valid;
      Node(n, hp.name);
      if hs != null {
        assert hs in n.kids;
        var i :| 0 <= i < |n.kids| && n.kids[i] == hs;
        assert n.kids[i].next == Nth(n.kids, i + 1);
      }
    }

    method SetCache(n: Hdf, hp: Hdf, hs: Hdf?)
      requires Pointers(at, dead, null) && Cached(at, dead) && n in at.Values && (hs != null ==> hs in n.kids)
      modifies n`lastHp, n`lastHs
      ensures Pointers(at, dead, null) && Cached(at, dead)
    {
      hide *;
      n.lastHp := hp;
      n.lastHs := hs;
      CachedSaved(at, n, dead);
    }

    /** Save in the cache what was found. */
    method SaveInCache(n: Hdf, hp: Hdf, hs: Hdf?)
      requires Valid() && n in at.Values && (hs != null ==> hs in n.kids)
      modifies n`lastHp, n`lastHs
      ensures Valid() && ViewOf(at) == old(ViewOf(at))
    {
      hide *;
      Pieces();
      ShapeParts(at, dead, null);
      SetCache(n, hp, hs);
      ShapeOf(at, dead, null);
      Whole();
    }

    lemma Pieces()
      requires Valid()
      ensures Named(at) && WellFormed(ViewOf(at)) && [] in at && at[[]] == top && Shape(at, dead, null)
      ensures ViewOf(at).Keys == at.Keys
    {
    }

    lemma Whole()
      requires WellFormed(ViewOf(at)) && [] in at && at[[]] == top && Shape(at, dead, null)
      ensures Valid()
    {
    }

    /** The search of a set: cache, then index or list. Where nothing is found, the node after
        which a new one goes, and how many were passed. */
    method FindForSet(n: Hdf, c: string) returns (hp: Hdf?, hs: Hdf?, count: nat)
      requires Valid() && n in at.Values
      modifies n`lastHp, n`lastHs
      ensures Valid() && ViewOf(at) == old(ViewOf(at))
      ensures hp == Child(at, n.path, c)
      ensures hp == null && n.kids != [] ==> hs == n.kids[|n.kids| - 1]
      ensures hp == null ==> count == if n.hash.Some? then 0 else |n.kids|
    {
      hide Shape, WellFormed, ViewOf, Child, Level, Dataset.Valid;
      count := 0;
      hp, hs := n.lastHp, n.lastHs;
      if (hs == null && hp == n.child) || (hs != null && hs.next == hp) {
        if hp != null && hp.name == c {
          CacheHit(n, hs, hp);
          return;
        }
      }
      Node(n, c);
      if n.hash.Some? {
        hp := if c in n.hash.value then n.hash.value[c] else null;
        hs := n.lastChild;
      } else {
        hp, hs, count := SearchList(n, c);
      }
      if hp != null {
        assert hp in n.kids;
        SaveInCache(n, hp, hs);
      }
    }

    /** The search of a walk: index or list. */
    method FindChild(n: Hdf, c: string) returns (hp: Hdf?)
      requires Valid() && n in at.Values
      ensures hp == Child(at, n.path, c)
    {
      hide *;
      if n.hash.Some? {
        Node(n, c);
        hp := if c in n.hash.value then n.hash.value[c] else null;
        assert Child(at, n.path, c) == hp;
      } else {
        var r, _, _ := SearchList(n, c);
        hp := r;
      }
    }

    /** Hang hp behind the last child of n. */
    method LinkLast(n: Hdf, hs: Hdf?, hp: Hdf)
      requires Level(n) && hp.next == null && hp !in n.kids
      requires Distinct(n.kids)
      requires n.kids != [] ==> hs == n.kids[|n.kids| - 1]
      modifies n`child, n`kids, n`lastChild, n.kids`next
      ensures n.kids == old(n.kids) + [hp] && Level(n) && n.lastChild == hp && hp.next == null
    {
      if n.child == null {
        n.child := hp;
      } else {
        hs.next := hp;
      }
      n.lastChild := hp;
      n.kids := n.kids + [hp];
    }

    lemma BeforeAppend(n: Hdf, c: string)
      requires Valid() && n in at.Values && Child(at, n.path, c) == null
      ensures n.path in at && n.path + [c] !in at && Level(n) && Distinct(n.kids)
      ensures n.path in ViewOf(at) && n.path + [c] !in ViewOf(at)
      ensures Named(at) && Shape(at, dead, null)
      ensures forall m :: m in dead ==> m !in n.kids
      ensures WellFormed(ViewOf(at)) && [] in at && at[[]] == top && Apart(at, n)
    {
      ChildNone(at, n.path, c);
      LevelsApart(at, n);
      Node(n, c);
      hide Nested, Levels, Indexed, Ended, Cached, WellFormed, Level, Child, Apart;
    }

    /** Make a node for the component c and hang it behind the last child of n. */
    method HangNew(n: Hdf, hs: Hdf?, c: string, value: Option<string>, link: bool, ghost q: Path) returns (hp: Hdf)
      requires n in at.Values && Level(n) && Distinct(n.kids)
      requires n.kids != [] ==> hs == n.kids[|n.kids| - 1]
      modifies n`child, n`kids, n`lastChild, n.kids`next
      ensures fresh(hp) && hp.name == c && hp.value == value && hp.link == link && hp.path == q
      ensures hp.kids == [] && hp.child == null && hp.hash == None && hp.lastHs == null && hp.next == null
      ensures n.kids == old(n.kids) + [hp] && Level(n) && n.lastChild == hp
      ensures Elsewhere(at, n) && n.hash == old(n.hash)
    {
      hide Level, Distinct;
      hp := new Hdf(c, value, link, q);
      LinkLast(n, hs, hp);
    }

    method Hang(n: Hdf, hs: Hdf?, c: string, value: Option<string>, link: bool) returns (hp: Hdf)
      requires n in at.Values && n.path + [c] !in at && Level(n) && Distinct(n.kids)
      requires n.kids != [] ==> hs == n.kids[|n.kids| - 1]
      modifies this`at, n`child, n`kids, n`lastChild, n.kids`next
      ensures fresh(hp) && hp.name == c && hp.value == value && hp.link == link
      ensures Grown(old(at), at, n, hp) && n.hash == old(n.hash)
    {
      hide Level, Distinct, Elsewhere;
      hp := HangNew(n, hs, c, value, link, n.path + [c]);
      at := at[n.path + [c] := hp];
    }

    /** Make the node a set found missing, at the end of its level. */
    method Append(n: Hdf, hs: Hdf?, c: string, value: Option<string>, link: bool) returns (hp: Hdf)
      requires Valid() && n in at.Values && Child(at, n.path, c) == null
      requires GoodName(c) && (link ==> value.Some?)
      requires n.kids != [] ==> hs == n.kids[|n.kids| - 1]
      modifies this`at, n`child, n`kids, n`lastChild, n.kids`next
      ensures fresh(hp) && Grown(old(at), at, n, hp) && hp.name == c && n.hash == old(n.hash)
      ensures WellFormed(ViewOf(at)) && [] in at && at[[]] == top && Shape(at, dead, n)
      ensures n.path in old(at) && ViewOf(at) == AddKid(old(ViewOf(at)), n.path, c, value, link)
    {
      hide *;
      ghost var at0 := at;
      BeforeAppend(n, c);
      AddKidWellFormed(ViewOf(at), n.path, c, value, link);
      hp := Hang(n, hs, c, value, link);
      ShapeGrown(at0, at, n, hp, dead);
      ViewGrown(at0, at, n, hp);
      TopGrown(at0, at, n, hp);
    }

    /** `_hdf_hash_level`: index the level from its list. */
    method HashLevel(n: Hdf)
      requires WellFormed(ViewOf(at)) && [] in at && at[[]] == top && Shape(at, dead, n) && n in at.Values
      modifies n`hash
      ensures Valid() && ViewOf(at) == old(ViewOf(at))
    {
      hide Shape, WellFormed, ViewOf, Child, Dataset.Valid, IndexOf;
      NodeFacts(at, dead, n, n, "");
      var h: map<string, Hdf> := map[];
      var child := n.child;
      ghost var i := 0;
      while child != null
        invariant i <= |n.kids| && child == Nth(n.kids, i)
        invariant Filled(n, h, i)
        decreases |n.kids| - i
      {
        assert child == n.kids[i];
        h := h[child.name := child];
        child, i := child.next, i + 1;
      }
      IndexBuilt(at, dead, n, h);
      SetIndex(n, h);
    }

    method SetIndex(n: Hdf, h: map<string, Hdf>)
      requires WellFormed(ViewOf(at)) && [] in at && at[[]] == top && Shape(at, dead, n) && n in at.Values
      requires IndexOf(at, n, h)
      modifies n`hash
      ensures Valid() && ViewOf(at) == old(ViewOf(at))
    {
      hide Named, Nested, Levels, Ended, Cached, Detached, WellFormed, ViewOf, IndexOf;
      n.hash := Some(h);
      assert Indexed(at, n);
      IndexedAll(at, n);
    }

    lemma NodeIndex(n: Hdf)
      requires Valid() && n in at.Values && n.hash.Some?
      ensures IndexOf(at, n, n.hash.value)
    {
      IndexFacts(at, null, n);
    }

    lemma NoIndex(n: Hdf)
      requires WellFormed(ViewOf(at)) && [] in at && at[[]] == top && Shape(at, dead, n) && n.hash == None
      ensures Valid()
    {
      IndexedAll(at, n);
    }

    /** Make the node a set found missing, and keep or build the index of its level. */
    method AddChild(n: Hdf, hs: Hdf?, count: nat, c: string, value: Option<string>, link: bool) returns (hp: Hdf)
      requires Valid() && n in at.Values && Child(at, n.path, c) == null
      requires GoodName(c) && (link ==> value.Some?)
      requires n.kids != [] ==> hs == n.kids[|n.kids| - 1]
      modifies this`at, n`child, n`kids, n`lastChild, n.kids`next, n`hash
      ensures fresh(hp) && hp.name == c && hp.path == n.path + [c] && at == old(at)[n.path + [c] := hp]
      ensures Valid() && n.path in old(at) && ViewOf(at) == AddKid(old(ViewOf(at)), n.path, c, value, link)
    {
      hide *;
      ghost var at0 := at;
      if n.hash.Some? {
        NodeIndex(n);
      }
      hp := Append(n, hs, c, value, link);
      GrownFacts(at0, at, n, hp);
      if count > FORCE_HASH_AT && n.hash == None {
        HashLevel(n);
      } else if n.hash != None {
        IndexInserted(at0, at, n, n.hash.value, hp);
        SetIndex(n, n.hash.value[hp.name := hp]);
      } else {
        NoIndex(n);
      }
    }

    /** Give an existing node its value. */
    method Overwrite(n: Hdf, value: Option<string>, link: bool)
      requires Valid() && n in at.Values && (link ==> value.Some? && n.path != [])
      modifies n`value, n`link
      ensures Valid() && n.path in at && at[n.path] == n
      ensures ViewOf(at) == SetEntry(old(ViewOf(at)), n.path, value, link)
    {
      hide *;
      Node(n, "");
      Pieces();
      SetEntryWellFormed(ViewOf(at), n.path, value, link);
      n.value := value;
      n.link := link;
      ViewOverwritten(at, n);
      Whole();
    }

    lemma TopInside()
      requires Valid()
      ensures top in at.Values && top.path == [] && [] in at && at[[]] == top
    {
    }

    /** One round of a set's loop: find the child c of n, or make it. */
    method FindOrMake(n: Hdf, c: string, value: Option<string>, link: bool) returns (hp: Hdf, found: bool)
      requires Valid() && n in at.Values && GoodName(c) && (link ==> value.Some?)
      modifies this`at, at.Values
      ensures Valid() && hp in at.Values && hp.path == n.path + [c] && n.path in old(at)
      ensures dead == old(dead) && top in at.Values
      ensures hp.path in at && at[hp.path] == hp && Kept(old(at), at) && fresh(at.Values - old(at.Values))
      ensures found <==> n.path + [c] in old(at)
      ensures found ==> at == old(at) && ViewOf(at) == old(ViewOf(at))
      ensures !found ==> ViewOf(at) == AddKid(old(ViewOf(at)), n.path, c, value, link)
    {
      hide *;
      Node(n, c);
      var r, hs, count := FindForSet(n, c);
      if r == null {
        ChildNone(at, n.path, c);
        ghost var at0 := at;
        hp := AddChild(n, hs, count, c, value, link);
        found := false;
        ValuesGrown(at0, hp.path, hp);
        KeptMore(at0, hp.path, hp);
      } else {
        ChildSome(at, n.path, c);
        hp, found := r, true;
        KeptSame(at);
      }
      TopInside();
    }

    lemma LinkFact(n: Hdf)
      requires Valid() && n in at.Values
      ensures n.path in at && at[n.path] == n && ViewOf(at)[n.path].link == n.link && ViewOf(at)[n.path].value == n.value
      ensures n.link ==> n.path != [] && n.value.Some?
    {
      NodeAt(at, n);
      assert ViewOf(at)[n.path] == EntryOf(n);
    }

    /** A set at the child it found: store there, or go on below, or report a link on the way. */
    method SetFound(hp: Hdf, name: string, n: nat, d: nat, value: Option<string>, link: bool, ghost p: Path,
                    ghost d0: Dir, ghost rank: Rank, ghost base: Path, ghost bound: nat, ghost o: Outcome, ghost cost: nat)
      returns (again: bool)
      requires n < d <= |name| && d == Dot(name, n) && (link ==> value.Some?) && hp.path == p + [name[n..d]]
      requires Valid() && hp in at.Values
      requires Based(d0, base)
      requires Pending(d0, ViewOf(at), rank, base, p, Components(name, n), value, link, bound, o, cost)
      modifies hp`value, hp`link
      ensures Valid() && again == (d < |name| && hp.link)
      ensures d == |name| ==> hp.path in at && at[hp.path] == hp && o == Stored(ViewOf(at), hp.path)
      ensures !again && d < |name| ==>
        Pending(d0, ViewOf(at), rank, base, hp.path, Components(name, d + 1), value, link, bound, o, cost)
      ensures again ==> ViewOf(at) == d0 && hp.value.Some?
      ensures again ==>
        var pasted := Components(Paste(hp.value.value, name, d), 0);
        && Started(d0, rank, base, pasted, bound) && o == SetFrom(d0, rank, base, pasted, value, link, bound)
        && WayCost(d0, rank, base, base, pasted, bound) < cost
    {
      hide *;
      Pieces();
      LinkFact(hp);
      NameFound(d0, ViewOf(at), rank, base, p, name, n, d, hp.path, value, link, bound, o, cost);
      if d == |name| {
        Overwrite(hp, value, link);
        again := false;
      } else {
        again := hp.link;
      }
    }

    /** One round of a set's loop: one component of the name. */
    method SetComponent(hn: Hdf, name: string, n: nat, d: nat, value: Option<string>, link: bool,
                        ghost d0: Dir, ghost rank: Rank, ghost base: Path, ghost bound: nat, ghost o: Outcome, ghost cost: nat)
      returns (hp: Hdf, again: bool)
      requires n < d <= |name| && d == Dot(name, n) && (link ==> value.Some?)
      requires Valid() && hn in at.Values
      requires Based(d0, base)
      requires Pending(d0, ViewOf(at), rank, base, hn.path, Components(name, n), value, link, bound, o, cost)
      modifies this`at, at.Values
      ensures Valid() && hp in at.Values && dead == old(dead) && Kept(old(at), at) && fresh(at.Values - old(at.Values))
      ensures !again && d == |name| ==> hp.path in at && at[hp.path] == hp && o == Stored(ViewOf(at), hp.path)
      ensures !again && d < |name| ==>
        Pending(d0, ViewOf(at), rank, base, hp.path, Components(name, d + 1), value, link, bound, o, cost)
      ensures again ==> d < |name| && at == old(at) && ViewOf(at) == d0 && hp.value.Some?
      ensures again ==>
        var pasted := Components(Paste(hp.value.value, name, d), 0);
        && Started(d0, rank, base, pasted, bound) && o == SetFrom(d0, rank, base, pasted, value, link, bound)
        && WayCost(d0, rank, base, base, pasted, bound) < cost
    {
      hide *;
      var last := d == |name|;
      ghost var here := ViewOf(at);
      Pieces();
      GoodPart(name, n);
      var found;
      hp, found := FindOrMake(hn, name[n..d], if last then value else None, last && link);
      if found {
        again := SetFound(hp, name, n, d, value, link, hn.path, d0, rank, base, bound, o, cost);
      } else {
        NameMissing(d0, here, ViewOf(at), rank, base, hn.path, name, n, d, hp.path, value, link, bound, o, cost);
        again := false;
      }
    }

    /** `_set_value` of a name that is not empty. */
    method SetBelow(hdf: Hdf, name: string, value: Option<string>, link: bool, ghost rank: Rank, ghost bound: nat)
      returns (ok: bool, node: Hdf?)
      requires Valid() && hdf in at.Values && Started(ViewOf(at), rank, hdf.path, Components(name, 0), bound) && name != ""
      requires link ==> value.Some?
      modifies this`at, at.Values
      ensures Valid() && dead == old(dead) && Kept(old(at), at) && fresh(at.Values - old(at.Values))
      ensures var o := SetFrom(old(ViewOf(at)), rank, hdf.path, Components(name, 0), value, link, bound);
              && ViewOf(at) == o.d && (ok <==> o.Stored?)
              && (ok ==> o.at in at && node == at[o.at])
      decreases WayCost(ViewOf(at), rank, hdf.path, hdf.path, Components(name, 0), bound)
    {
      hide *;
      ghost var d0, base, comps, at0 := ViewOf(at), hdf.path, Components(name, 0), at;
      ghost var o := SetFrom(d0, rank, base, comps, value, link, bound);
      ghost var cost := WayCost(d0, rank, base, base, comps, bound);
      StartedBased(d0, rank, base, comps, bound);
      PendingStart(d0, rank, base, comps, value, link, bound);
      KeptSame(at);
      var n, d, hn := 0, Dot(name, 0), hdf;
      while n < d
        invariant n <= d <= |name| && d == Dot(name, n)
        invariant Valid() && dead == old(dead) && hn in at.Values && Kept(at0, at) && fresh(at.Values - old(at.Values))
        invariant Pending(d0, ViewOf(at), rank, base, hn.path, Components(name, n), value, link, bound, o, cost)
        decreases |name| - n
      {
        label Before:
        var hp, again := SetComponent(hn, name, n, d, value, link, d0, rank, base, bound, o, cost);
        KeptThrough(at0, old@Before(at), at);
        if again {
          ok, node := SetBelow(hdf, Paste(hp.value.value, name, d), value, link, rank, bound);
          KeptThrough(at0, old@Before(at), at);
          return;
        }
        if d == |name| {
          return true, hp;
        }
        hn, n := hp, d + 1;
        d := Dot(name, n);
      }
      EmptyPart(name, n);
      PendingEmpty(d0, ViewOf(at), rank, base, hn.path, Components(name, n), value, link, bound, o, cost);
      return false, null;
    }

    /** `_set_value` */
    method SetValue(hdf: Hdf, name: string, value: Option<string>, link: bool, ghost rank: Rank, ghost bound: nat)
      returns (ok: bool, node: Hdf?)
      requires Valid() && hdf in at.Values && Ready(ViewOf(at), rank, hdf.path, name, bound)
      requires link || (name == "" && hdf.link) ==> value.Some?
      modifies this`at, at.Values
      ensures Valid() && dead == old(dead) && Kept(old(at), at) && fresh(at.Values - old(at.Values))
      ensures var o := SetOutcome(old(ViewOf(at)), rank, hdf.path, name, value, link, bound);
              && ViewOf(at) == o.d && (ok <==> o.Stored?)
              && (ok ==> o.at in at && node == at[o.at])
    {
      hide Shape, ViewOf, Components, SetFrom, Dataset.Valid, SetEntry, Kept, Way, WellFormed;
      if name == "" {
        LinkFact(hdf);
        KeptSame(at);
        Overwrite(hdf, value, hdf.link);
        return true, hdf;
      }
      ok, node := SetBelow(hdf, name, value, link, rank, bound);
    }

    // ----- walks

    /** How a walk starts: at the node itself, or where its link leads. */
    lemma WalkBegin(hdf: Hdf, name: string, rank: Rank, bound: nat)
      requires Valid() && hdf in at.Values && hdf.path in ViewOf(at)
      requires WalkFine(ViewOf(at), rank, hdf.path, name, bound)
      ensures var d, g := ViewOf(at), WalkEnd(ViewOf(at), rank, hdf.path, name, bound);
              && (name == "" ==> AtPath(at, g) == hdf)
              && (name != "" && !hdf.link ==> Walking(d, rank, hdf.path, name, 0, bound, g))
              && (name != "" && hdf.link ==>
                    && LinkReady(d, rank, hdf.path, bound)
                    && var t := LinkTarget(d, rank, hdf.path);
                       if AtPath(at, t) != null then Walking(d, rank, t, name, 0, bound, g) else AtPath(at, g) == null)
    {
      LinkFact(hdf);
      Pieces();
      assert name == "" ==> WalkEnd(ViewOf(at), rank, hdf.path, name, bound) == hdf.path;
      hide Dataset.Valid, WellFormed, Shape, ViewOf, Walking, LinkReady, LinkTarget, WalkFine, WalkEnd;
      if name != "" {
        WalkStart(ViewOf(at), rank, hdf.path, name, bound);
      }
    }

    /** One round of a walk's loop, on the nodes. */
    lemma WalkRound(parent: Hdf, hp: Hdf?, name: string, n: nat, rank: Rank, bound: nat, g: Path)
      requires Valid() && parent in at.Values && n <= |name|
      requires Walking(ViewOf(at), rank, parent.path, name, n, bound, g)
      requires hp == Child(at, parent.path, Part(name, n))
      ensures var d, last := ViewOf(at), Dot(name, n) == |name|;
              && (hp == null ==> AtPath(at, g) == null)
              && (hp != null ==> hp in at.Values)
              && (hp != null && !hp.link ==>
                    if last then AtPath(at, g) == hp else Walking(d, rank, hp.path, name, Dot(name, n) + 1, bound, g))
              && (hp != null && hp.link ==>
                    && LinkReady(d, rank, hp.path, bound)
                    && var t := LinkTarget(d, rank, hp.path);
                       if last then g == t
                       else if AtPath(at, t) != null then Walking(d, rank, t, name, Dot(name, n) + 1, bound, g)
                       else AtPath(at, g) == null)
    {
      var q := parent.path + [name[n..Dot(name, n)]];
      if hp != null {
        ChildSome(at, parent.path, Part(name, n));
        InValues(at, q);
        NodeAt(at, hp);
        LinkFact(hp);
      } else {
        ChildNone(at, parent.path, Part(name, n));
      }
      Pieces();
      hide Dataset.Valid, WellFormed, Shape, ViewOf, Walking, LinkReady, LinkTarget, Dot, Child;
      WalkStep(ViewOf(at), rank, parent.path, name, n, bound, g, q);
    }

    /** `_walk_hdf` */
    method Walk(hdf: Hdf, name: string, ghost rank: Rank, ghost bound: nat) returns (node: Hdf?)
      requires Valid() && hdf in at.Values && hdf.path in ViewOf(at)
      requires WalkFine(ViewOf(at), rank, hdf.path, name, bound)
      ensures node == AtPath(at, WalkEnd(ViewOf(at), rank, hdf.path, name, bound))
      decreases bound, 2
    {
      hide *;
      WalkBegin(hdf, name, rank, bound);
      ghost var g := WalkEnd(ViewOf(at), rank, hdf.path, name, bound);
      if name == "" {
        return hdf;
      }
      var parent := hdf;
      if hdf.link {
        var t := FollowLink(hdf, rank, bound);
        if t == null {
          return null;
        }
        parent := t;
      }
      node := WalkBelow(parent, name, rank, bound, g);
    }

    /** The loop of a walk. */
    method WalkBelow(start: Hdf, name: string, ghost rank: Rank, ghost bound: nat, ghost g: Path) returns (node: Hdf?)
      requires Valid() && start in at.Values
      requires Walking(ViewOf(at), rank, start.path, name, 0, bound, g)
      ensures node == AtPath(at, g)
      decreases bound, 1
    {
      hide *;
      var parent, n, s := start, 0, Dot(name, 0);
      while true
        invariant n <= |name| && s == Dot(name, n) && parent in at.Values
        invariant Walking(ViewOf(at), rank, parent.path, name, n, bound, g)
        decreases |name| - n
      {
        var hp := FindChild(parent, Part(name, n));
        WalkRound(parent, hp, name, n, rank, bound, g);
        if hp == null {
          return null;
        }
        if hp.link {
          var t := FollowLink(hp, rank, bound);
          if s == |name| || t == null {
            return t;
          }
          parent := t;
        } else {
          if s == |name| {
            return hp;
          }
          parent := hp;
        }
        n := s + 1;
        s := Dot(name, n);
      }
    }

    lemma LinkName(hp: Hdf, rank: Rank, bound: nat)
      requires Valid() && hp in at.Values && LinkReady(ViewOf(at), rank, hp.path, bound)
      ensures hp.value.Some? && rank(hp.path) < bound && top in at.Values && top.path in ViewOf(at)
      ensures hp.path in ViewOf(at) && [] in ViewOf(at) && ViewOf(at)[hp.path].value.Some?
      ensures WalkFine(ViewOf(at), rank, top.path, hp.value.value, rank(hp.path))
      ensures LinkTarget(ViewOf(at), rank, hp.path) == WalkEnd(ViewOf(at), rank, top.path, hp.value.value, rank(hp.path))
    {
      LinkFact(hp);
      TopInside();
    }

    lemma NodeAtPath(g: Path)
      requires Valid() && AtPath(at, g) != null
      ensures AtPath(at, g) in at.Values && AtPath(at, g).path == g
    {
      InValues(at, g);
    }

    method FollowLink(hp: Hdf, ghost rank: Rank, ghost bound: nat) returns (node: Hdf?)
      requires Valid() && hp in at.Values && LinkReady(ViewOf(at), rank, hp.path, bound)
      ensures node == AtPath(at, LinkTarget(ViewOf(at), rank, hp.path))
      ensures node != null ==> node in at.Values && node.path == LinkTarget(ViewOf(at), rank, hp.path)
      decreases bound, 0
    {
      hide *;
      LinkName(hp, rank, bound);
      node := Walk(top, hp.value.value, rank, rank(hp.path));
      if node != null {
        NodeAtPath(LinkTarget(ViewOf(at), rank, hp.path));
      }
    }

    /** `hdf_get_value` */
    method GetValue(hdf: Hdf, name: string, default: string, ghost rank: Rank, ghost bound: nat) returns (value: string)
      requires Valid() && hdf in at.Values && hdf.path in ViewOf(at)
      requires WalkFine(ViewOf(at), rank, hdf.path, name, bound)
      ensures var d, g := ViewOf(at), WalkEnd(ViewOf(at), rank, hdf.path, name, bound);
              value == if g in d && d[g].value.Some? then d[g].value.value else default
    {
      hide *;
      var node := Walk(hdf, name, rank, bound);
      NodeValue(WalkEnd(ViewOf(at), rank, hdf.path, name, bound));
      if node != null && node.value.Some? {
        return node.value.value;
      }
      return default;
    }

    lemma NodeValue(g: Path)
      requires Valid()
      ensures AtPath(at, g) != null <==> g in ViewOf(at)
      ensures AtPath(at, g) != null ==> ViewOf(at)[g].value == AtPath(at, g).value
    {
    }

    // ----- removals

    /** Take hp, the child of lp behind ln, out of the list. */
    static method UnhookPointers(lp: Hdf, ln: Hdf?, hp: Hdf, ghost i: nat)
      requires Level(lp) && Distinct(lp.kids) && i < |lp.kids| && lp.kids[i] == hp
      requires ln == if i == 0 then null else lp.kids[i - 1]
      requires lp.lastChild == lp.kids[|lp.kids| - 1]
      modifies lp`child, lp`kids, lp`lastChild, lp.kids`next
      ensures lp.kids == Cut(old(lp.kids), i) && Level(lp) && hp.next == null
      ensures lp.kids != [] ==> lp.lastChild == lp.kids[|lp.kids| - 1]
    {
      assert hp.next == Nth(lp.kids, i + 1);
      if ln != null {
        ln.next := hp.next;
        if hp == lp.lastChild {
          lp.lastChild := ln;
        }
        hp.next := null;
      } else {
        lp.child := hp.next;
        hp.next := null;
      }
      lp.kids := Cut(lp.kids, i);
    }

    /** Take hp out of the list and the index of its level. */
    method UnhookIndexed(lp: Hdf, ln: Hdf?, hp: Hdf, ghost i: nat)
      requires lp in at.Values && Level(lp) && Distinct(lp.kids) && i < |lp.kids| && lp.kids[i] == hp
      requires ln == if i == 0 then null else lp.kids[i - 1]
      requires lp.lastChild == lp.kids[|lp.kids| - 1]
      modifies lp`child, lp`kids, lp`lastChild, lp`hash, lp.kids`next
      ensures lp.kids == Cut(old(lp.kids), i) && Level(lp) && hp.next == null
      ensures lp.kids != [] ==> lp.lastChild == lp.kids[|lp.kids| - 1]
      ensures lp.hash == match old(lp.hash) case None => None case Some(h) => Some(h - {hp.name})
      ensures Elsewhere(at, lp)
    {
      hide Level, Distinct, Cut;
      if lp.hash.Some? {
        lp.hash := Some(lp.hash.value - {hp.name});
      }
      UnhookPointers(lp, ln, hp, i);
    }

    /** Unhook hp, and forget it and what is below it. */
    method Unhook(lp: Hdf, ln: Hdf?, hp: Hdf, ghost i: nat)
      requires Removable(at, dead, lp, hp, i)
      requires ln == if i == 0 then null else lp.kids[i - 1]
      modifies this`at, this`dead, at.Values
      ensures dead == old(dead) + {hp} && Unhooked(old(at), at, lp, hp, i, old(dead))
    {
      hide Level, Distinct, Cut, Outside, Elsewhere, Apart, NameApart, Shape, WellFormed, Named, ViewOf;
      UnhookIndexed(lp, ln, hp, i);
      at, dead := Outside(at, hp.path), dead + {hp};
    }

    lemma BeforeUnhook(lp: Hdf, hp: Hdf, i: nat)
      requires Valid() && lp in at.Values && i < |lp.kids| && lp.kids[i] == hp
      ensures Removable(at, dead, lp, hp, i) && [] in at && at[[]] == top
    {
      hide Dataset.Valid, Level, Distinct, Apart, NameApart, Shape, WellFormed, Named, ViewOf, Alive, Nested;
      Pieces();
      ShapePieces(at, dead, null);
      LevelsApart(at, lp);
      LevelParts(lp, i);
    }

    lemma LevelParts(n: Hdf, i: nat)
      requires Valid() && n in at.Values && i < |n.kids|
      ensures Level(n) && Distinct(n.kids) && NameApart(n.kids, i) && n.lastChild == n.kids[|n.kids| - 1]
      ensures n.kids[i] in at.Values && KidOf(n, n.kids[i]) && n.kids[i].path in at
      ensures Alive(at, dead, n.kids)
    {
      hide Nested, Levels, Indexed, Ended, Cached, WellFormed, Level, Child, Named;
      Node(n, n.kids[i].name);
      NodeAt(at, n.kids[i]);
    }

    /** Remove the node hp from the level of lp. */
    method RemoveChild(lp: Hdf, ln: Hdf?, hp: Hdf, ghost i: nat)
      requires Valid() && lp in at.Values
      requires i < |lp.kids| && lp.kids[i] == hp && ln == if i == 0 then null else lp.kids[i - 1]
      modifies this`at, this`dead, at.Values
      ensures Valid() && at == Outside(old(at), hp.path)
      ensures ViewOf(at) == Removed(old(ViewOf(at)), hp.path)
    {
      hide *;
      ghost var at0, dead0 := at, dead;
      BeforeUnhook(lp, hp, i);
      Unhook(lp, ln, hp, i);
      AllShrunk(at0, at, lp, hp, i, dead0);
      Whole();
    }

    /** One round of a removal's search. */
    lemma RemoveRound(lp: Hdf, hp: Hdf?, name: string, n: nat, q: Path)
      requires Valid() && lp in at.Values && n <= |name| && hp == Child(at, lp.path, Part(name, n))
      requires Below(lp.path, Components(name, n)) == q
      ensures hp == null ==> q !in ViewOf(at)
      ensures hp != null ==> hp in at.Values && hp.path in ViewOf(at)
      ensures hp != null ==> if Dot(name, n) == |name| then hp.path == q else Below(hp.path, Components(name, Dot(name, n) + 1)) == q
    {
      Pieces();
      hide Components, Dot, Dataset.Valid, WellFormed, Shape, ViewOf, Below, Child, Part;
      BelowStep(lp.path, name, n);
      if hp == null {
        ChildNone(at, lp.path, Part(name, n));
        NothingBelow(ViewOf(at), lp.path + [Part(name, n)], q);
      } else {
        ChildSome(at, lp.path, Part(name, n));
        InValues(at, lp.path + [Part(name, n)]);
        NodeAt(at, hp);
        LinkFact(hp);
      }
    }

    /** The search of a removal, along the sibling lists: the node, its parent, and the node before it. */
    method FindForRemove(hdf: Hdf, name: string, ghost q: Path) returns (lp: Hdf, ln: Hdf?, hp: Hdf?, ghost i: nat)
      requires Valid() && hdf in at.Values && q == Below(hdf.path, Components(name, 0))
      ensures hp == null ==> q !in ViewOf(at)
      ensures hp != null ==> lp in at.Values && i < |lp.kids| && lp.kids[i] == hp && hp.path == q && q in ViewOf(at)
      ensures hp != null ==> ln == if i == 0 then null else lp.kids[i - 1]
    {
      hide *;
      lp := hdf;
      var n, s := 0, Dot(name, 0);
      while true
        invariant n <= |name| && s == Dot(name, n) && lp in at.Values
        invariant Below(lp.path, Components(name, n)) == q
        decreases |name| - n
      {
        var count;
        hp, ln, count := SearchList(lp, Part(name, n));
        i := count;
        RemoveRound(lp, hp, name, n, q);
        if hp == null || s == |name| {
          return;
        }
        lp, n := hp, s + 1;
        s := Dot(name, n);
      }
    }

    /** `hdf_remove_tree`: links are not followed. */
    method RemoveTree(hdf: Hdf, name: string)
      requires Valid() && hdf in at.Values
      modifies this`at, this`dead, at.Values
      ensures Valid() && ViewOf(at) == Removed(old(ViewOf(at)), Below(hdf.path, Components(name, 0)))
      ensures at == NodesLeft(old(at), Below(hdf.path, Components(name, 0)))
    {
      hide *;
      ghost var q := Below(hdf.path, Components(name, 0));
      Pieces();
      NodesLeftFacts(at, q);
      var lp, ln, hp, i := FindForRemove(hdf, name, q);
      if hp == null {
        RemovedNothing(ViewOf(at), q);
      } else {
        RemoveChild(lp, ln, hp, i);
      }
    }

    // ----- sorts

    /** The loop that loads a level into a list. */
    method LoadLevel(h: Hdf) returns (level: seq<Hdf>)
      requires Level(h)
      ensures level == h.kids
    {
      var p := h.child;
      level := [];
      while p != null
        invariant |level| <= |h.kids| && level == h.kids[..|level|] && p == Nth(h.kids, |level|)
        decreases |h.kids| - |level|
      {
        level := level + [p];
        p := p.next;
      }
    }

    /** The loop that strings the sorted list back into the level. */
    method Relink(h: Hdf, level: seq<Hdf>)
      requires level != [] && Distinct(level) && (|level| == 1 ==> level[0].next == null)
      modifies h`child, h`lastChild, h`kids, level`next
      ensures h.kids == level && Level(h) && h.lastChild == level[|level| - 1]
    {
      var c := level[0];
      h.child := c;
      for x := 1 to |level|
        invariant h.child == level[0] && c == level[x - 1] && (x > 1 || |level| == 1 ==> c.next == null)
        invariant forall j {:trigger level[j].next} :: 0 <= j < x - 1 ==> level[j].next == level[j + 1]
      {
        var p := level[x];
        c.next := p;
        p.next := null;
        c := p;
      }
      h.lastChild := c;
      h.kids := level;
      assert forall j {:trigger level[j].next} :: 0 <= j < |level| ==> level[j].next == Nth(level, j + 1);
    }

    lemma SortedFacts(h: Hdf, perm: seq<nat>)
      requires Level(h) && Distinct(h.kids) && Permutation(perm, |h.kids|) && h.kids != []
      ensures var level := Permuted(h.kids, perm);
              && level != [] && Distinct(level) && (|level| == 1 ==> level[0].next == null)
              && forall k :: k in level ==> k in h.kids
    {
      var level := Permuted(h.kids, perm);
      forall i, j | 0 <= i < j < |level|
        ensures level[i] != level[j]
      {
        var a, b := perm[i], perm[j];
        assert a != b && h.kids[a] != h.kids[b];
      }
    }

    /** Put the level of h in the order perm. */
    method SortLevel(h: Hdf, perm: seq<nat>)
      requires h in at.Values && Level(h) && Distinct(h.kids) && Alive(at, dead, h.kids) && h.kids != []
      requires Permutation(perm, |h.kids|)
      modifies at.Values
      ensures Resorted(at, h, perm)
      ensures forall m :: m in dead ==> m.next == old(m.next)
    {
      hide Permuted;
      var level := LoadLevel(h);
      level := Permuted(level, perm);
      SortedFacts(h, perm);
      Relink(h, level);
    }

    /** `hdf_sort_obj`, with the order its comparison picks. */
    method SortObj(h: Hdf, perm: seq<nat>)
      requires Valid() && h in at.Values && Permutation(perm, |h.kids|)
      modifies at.Values
      ensures Valid() && at == old(at) && dead == old(dead) && h.path in old(ViewOf(at))
      ensures var kids := old(ViewOf(at))[h.path].kids;
              Permutation(perm, |kids|) && ViewOf(at) == Reorder(old(ViewOf(at)), h.path, Permuted(kids, perm))
    {
      hide *;
      BeforeSort(h, perm);
      if h.child != null {
        SortLevel(h, perm);
        AllSorted(at, h, perm, dead);
        Whole();
      }
    }

    lemma BeforeSort(h: Hdf, perm: seq<nat>)
      requires Valid() && h in at.Values && Permutation(perm, |h.kids|)
      ensures Level(h) && Distinct(h.kids) && Alive(at, dead, h.kids) && Apart(at, h)
      ensures Named(at) && WellFormed(ViewOf(at)) && Shape(at, dead, null) && [] in at && at[[]] == top
      ensures h.child == null <==> h.kids == []
      ensures h.kids == [] ==>
        && h.path in ViewOf(at) && Permutation(perm, |ViewOf(at)[h.path].kids|)
        && ViewOf(at) == Reorder(ViewOf(at), h.path, Permuted(ViewOf(at)[h.path].kids, perm))
    {
      hide *;
      Pieces();
      ShapePieces(at, dead, null);
      LevelsApart(at, h);
      LevelReady(at, dead, h);
      SortNothing(at, h, perm);
    }
  }
}

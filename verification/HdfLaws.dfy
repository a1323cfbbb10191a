/** What sets, removals and sorts do to a dataset, path by path. */
module HdfLaws {
  import opened Wrappers
  import opened HdfNames
  import opened HdfDir
  import opened HdfLinks
  import opened HdfSets

  // ----- set

  /** The entries of a dataset after a plain set of q. */
  lemma PlainLookup(d: Dir, q: Path, value: Option<string>, link: bool, r: Path)
    requires WellFormed(d)
    ensures var e := Plain(d, q, value, link);
            var next := if r < q && r + [q[|r|]] !in d then [q[|r|]] else [];
            && (r in e <==> r in d || r <= q)
            && (r in e ==>
                  && e[r].kids == (if r in d then d[r].kids else []) + next
                  && e[r].value == (if r == q then value else if r in d then d[r].value else None)
                  && e[r].link == (if r == q then link else r in d && d[r].link))
  {
    TouchLookup(d, q, r);
    TouchLookup(d, q, q);
  }

  /** Without links a name addresses exactly the path it spells. */
  lemma LinkFreeResolve(d: Dir, rank: Rank, root: Path, p: Path, comps: Path, bound: nat)
    requires NoLinks(d)
    ensures Ranked(d, rank, root, bound) && Direct(d, p, comps)
    ensures Resolve(d, rank, root, p, comps, bound) == p + comps
  {
    DirectResolve(d, rank, root, p, comps, bound);
  }

  /** On a link-free dataset a set of a proper name stores the value where a get finds it, keeps
      the value of every other existing path, and creates the missing nodes on the way,
      value-less, each at the end of its level. */
  lemma SetThenGet(d: Dir, rank: Rank, p: Path, comps: Path, value: Option<string>, bound: nat, r: Path)
    requires WellFormed(d) && NoLinks(d) && p in d && comps != [] && GoodPath(comps)
    ensures Way(d, rank, p, p, comps, bound)
    ensures var o, q := SetAt(d, rank, p, p, comps, value, false, bound), p + comps;
            && o == Stored(Plain(d, q, value, false), q)
            && WellFormed(o.d) && NoLinks(o.d)
            && Resolve(o.d, rank, [], p, comps, bound) == q && q in o.d && o.d[q].value == value
            && (r in d && r != q ==> r in o.d && o.d[r].value == d[r].value)
            && (r in o.d && r !in d ==> r <= q && (r != q ==> o.d[r] == Entry(None, false, [q[|r|]])))
  {
    var q := p + comps;
    LinkFreeResolve(d, rank, p, p, comps, bound);
    SetReadsBackDirect(d, rank, p, comps, value, bound, rank, bound);
    SetSound(d, rank, p, comps, value, false, bound);
    LinkFreeSet(d, q, value);
    PlainLookup(d, q, value, false, q);
    PlainLookup(d, q, value, false, r);
    if r < q && r !in d && r + [q[|r|]] in d {
      NothingBelow(d, r, r + [q[|r|]]);
      assert false;
    }
  }

  lemma LinkFreeSet(d: Dir, q: Path, value: Option<string>)
    requires WellFormed(d) && NoLinks(d)
    ensures NoLinks(Plain(d, q, value, false))
  {
    var e := Plain(d, q, value, false);
    forall r | r in e
      ensures !e[r].link
    {
      PlainLookup(d, q, value, false, r);
    }
  }

  // ----- remove

  function Without(names: seq<string>, c: string): (r: seq<string>)
    ensures forall k :: k in r ==> k in names
    ensures forall k :: k in names && k != c ==> k in r
  {
    if names == [] then []
    else if names[0] == c then names[1..]
    else [names[0]] + Without(names[1..], c)
  }

  lemma {:induction false} WithoutNoDuplicates(names: seq<string>, c: string)
    requires NoDuplicates(names)
    ensures NoDuplicates(Without(names, c)) && c !in Without(names, c)
  {
    if names != [] {
      assert NoDuplicates(names[1..]) && names[0] !in names[1..];
      WithoutNoDuplicates(names[1..], c);
    }
  }

  /** The dataset without q and all that is below it. */
  function Prune(d: Dir, q: Path): (e: Dir)
    requires q != []
  {
    map r | r in d && !(q <= r) ::
      if r == Parent(q) then d[r].(kids := Without(d[r].kids, Last(q))) else d[r]
  }

  lemma PrefixOfParent(q: Path, r: Path)
    requires r != []
    ensures q <= r <==> q == r || q <= Parent(r)
    ensures Parent(r) + [Last(r)] == r
  {
  }

  lemma PruneLookup(d: Dir, q: Path, r: Path)
    requires q != []
    ensures r in Prune(d, q) <==> r in d && !(q <= r)
    ensures r in Prune(d, q) ==>
      Prune(d, q)[r] == (if r == Parent(q) then d[r].(kids := Without(d[r].kids, Last(q))) else d[r])
  {
  }

  lemma PruneKid(d: Dir, q: Path, p: Path, c: string)
    requires WellFormed(d) && q in d && q != []
    requires p in Prune(d, q) && c in Prune(d, q)[p].kids
    ensures p + [c] in Prune(d, q)
  {
    PruneLookup(d, q, p);
    PruneLookup(d, q, p + [c]);
    hide Prune, NoDuplicates, InPlace;
    KidPath(p, c);
    WithoutNoDuplicates(d[p].kids, Last(q));
    assert c in d[p].kids;
    PrefixOfParent(q, p + [c]);
    PrefixOfParent(q, q);
  }

  lemma PrunePlace(d: Dir, q: Path, r: Path)
    requires WellFormed(d) && q in d && q != [] && r in Prune(d, q)
    ensures InPlace(Prune(d, q), r)
  {
    assert InPlace(d, r);
    PruneLookup(d, q, r);
    if r != [] {
      PrefixOfParent(q, r);
      PrefixOfParent(q, q);
      PruneLookup(d, q, Parent(r));
      hide Prune, NoDuplicates, GoodName, WellFormed;
    }
  }

  lemma PruneWellFormed(d: Dir, q: Path)
    requires WellFormed(d) && q in d && q != []
    ensures WellFormed(Prune(d, q))
  {
    hide InPlace;
    var e := Prune(d, q);
    forall p, c | p in e && c in e[p].kids
      ensures p + [c] in e
    {
      PruneKid(d, q, p, c);
    }
    forall r | r in e
      ensures InPlace(e, r)
    {
      PrunePlace(d, q, r);
    }
    forall p | p in e
      ensures NoDuplicates(e[p].kids) && (e[p].link ==> e[p].value.Some?)
    {
      WithoutNoDuplicates(d[p].kids, Last(q));
    }
    assert [] in e && !e[[]].link;
  }

  /** What a removal of q does, whether there is such a path or not. */
  function Removed(d: Dir, q: Path): (e: Dir) {
    if q in d && q != [] then Prune(d, q) else d
  }

  lemma RemovedNothing(d: Dir, q: Path)
    requires q !in d
    ensures Removed(d, q) == d
  {
  }

  lemma RemovedWellFormed(d: Dir, q: Path)
    requires WellFormed(d)
    ensures WellFormed(Removed(d, q)) && PartOf(Removed(d, q), d)
  {
    if q in d && q != [] {
      PruneWellFormed(d, q);
    }
  }

  /** With links, too: what a walk finds after a removal is what it found before, and links stay
      ranked. */
  lemma RemoveKeepsWalks(d: Dir, rank: Rank, q: Path, p: Path, comps: Path, bound: nat)
    requires WellFormed(d) && Ranked(d, rank, [], bound) && p in Removed(d, q)
    ensures var e := Removed(d, q);
            && WellFormed(e) && Ranked(e, rank, [], bound)
            && var g := Resolve(e, rank, [], p, comps, bound);
               g in e ==> g == Resolve(d, rank, [], p, comps, bound) && e[g].value == d[g].value
  {
    RemovedWellFormed(d, q);
    TopThere(Removed(d, q));
    hide WellFormed, Removed, Fine;
    PartKeepsRanks(d, Removed(d, q), rank, [], bound);
    RankedFine(d, rank, [], p, comps, bound);
    FinePart(d, Removed(d, q), rank, [], p, comps, bound);
  }

  /** On a link-free dataset, after a removal of q a name finds nothing exactly if it found
      nothing before or q is part of its way, and else finds what it found before. A later set of
      q makes it anew, without what was below it and as the last of its level, whose other names
      keep their order. */
  lemma RemoveThenGet(d: Dir, rank: Rank, q: Path, p: Path, comps: Path, value: Option<string>, bound: nat)
    requires WellFormed(d) && NoLinks(d) && q in d && q != [] && p in d
    ensures var e, g := Removed(d, q), Resolve(d, rank, [], p, comps, bound);
            && WellFormed(e) && NoLinks(e) && Ranked(e, rank, [], bound)
            && Resolve(e, rank, [], p, comps, bound) == g
            && (g in e <==> g in d && !(q <= p + comps))
            && (g in e ==> e[g].value == d[g].value)
            && Way(e, rank, [], [], q, bound)
    ensures var o := SetAt(Removed(d, q), rank, [], [], q, value, false, bound);
            && o.Stored? && o.at == q && q in o.d && o.d[q] == Entry(value, false, [])
            && Parent(q) in o.d && Parent(q) in d
            && o.d[Parent(q)].kids == Without(d[Parent(q)].kids, Last(q)) + [Last(q)]
            && (p + comps in o.d <==> p + comps == q || (p + comps in d && !(q <= p + comps)))
  {
    var e := Removed(d, q);
    RemovedWellFormed(d, q);
    LinkFreeResolve(d, rank, [], p, comps, bound);
    LinkFreeResolve(e, rank, [], p, comps, bound);
    PruneLookup(d, q, p + comps);
    PruneLookup(d, q, Parent(q));
    WayGood(d, q);
    SetThenGet(e, rank, [], q, value, bound, p + comps);
    assert [] + q == q;
    SetAgain(d, q, value, p + comps);
  }

  /** The names on the way to a node are proper. */
  lemma {:induction false} WayGood(d: Dir, q: Path)
    requires WellFormed(d) && q in d
    ensures GoodPath(q) && (q != [] ==> Parent(q) in d)
    decreases |q|
  {
    if q != [] {
      assert InPlace(d, q);
      WayGood(d, Parent(q));
    }
  }

  lemma SetAgain(d: Dir, q: Path, value: Option<string>, r: Path)
    requires WellFormed(d) && q in d && q != [] && WellFormed(Removed(d, q))
    ensures var f := Plain(Removed(d, q), q, value, false);
            && q in f && f[q] == Entry(value, false, [])
            && Parent(q) in f && Parent(q) in d
            && f[Parent(q)].kids == Without(d[Parent(q)].kids, Last(q)) + [Last(q)]
            && (r in f <==> r == q || (r in d && !(q <= r)))
  {
    hide WellFormed, Removed, Plain, Without, GoodPath;
    var e, p := Removed(d, q), Parent(q);
    WayGood(d, q);
    ParentFacts(q, r);
    RemovedLookup(d, q, p);
    RemovedLookup(d, q, q);
    RemovedLookup(d, q, r);
    PlainLookup(e, q, value, false, q);
    PlainLookup(e, q, value, false, p);
    PlainLookup(e, q, value, false, r);
    if r < q {
      PrefixesExist(d, p, r);
    }
  }

  lemma ParentFacts(q: Path, r: Path)
    requires q != []
    ensures Parent(q) < q && q[|Parent(q)|] == Last(q) && Parent(q) + [Last(q)] == q
    ensures r < q <==> r <= Parent(q)
  {
    assert Parent(q) + [Last(q)] == q;
  }

  lemma RemovedLookup(d: Dir, q: Path, r: Path)
    requires q in d && q != []
    ensures var e := Removed(d, q);
            && (r in e <==> r in d && !(q <= r))
            && (r in e ==> e[r] == (if r == Parent(q) then d[r].(kids := Without(d[r].kids, Last(q))) else d[r]))
  {
    PruneLookup(d, q, r);
  }

  // ----- sort

  /** Every index below n, once: the order a comparison puts n elements in. */
  ghost predicate Permutation(perm: seq<nat>, n: nat) {
    && |perm| == n
    && (forall j {:trigger perm[j]} :: 0 <= j < n ==> perm[j] < n)
    && (forall i, j {:trigger perm[i], perm[j]} :: 0 <= i < j < n ==> perm[i] != perm[j])
    && (forall i {:trigger i in perm} :: 0 <= i < n ==> i in perm)
  }

  function Permuted<T>(s: seq<T>, perm: seq<nat>): (r: seq<T>)
    requires forall j :: 0 <= j < |perm| ==> perm[j] < |s|
    ensures |r| == |perm|
    ensures forall j {:trigger r[j]} :: 0 <= j < |r| ==> r[j] == s[perm[j]]
  {
    seq(|perm|, j requires 0 <= j < |perm| => s[perm[j]])
  }

  lemma PermutedSame<T>(s: seq<T>, perm: seq<nat>)
    requires Permutation(perm, |s|)
    ensures forall x :: x in Permuted(s, perm) <==> x in s
  {
    forall x | x in s
      ensures x in Permuted(s, perm)
    {
      var i :| 0 <= i < |s| && s[i] == x;
      assert i in perm;
      var j :| 0 <= j < |perm| && perm[j] == i;
      assert Permuted(s, perm)[j] == x;
    }
  }

  function Reorder(d: Dir, p: Path, kids: seq<string>): (e: Dir)
    requires p in d
  {
    d[p := d[p].(kids := kids)]
  }

  /** A sort of one level keeps every path, with its value and its own children. */
  lemma ReorderWellFormed(d: Dir, p: Path, perm: seq<nat>)
    requires WellFormed(d) && p in d && Permutation(perm, |d[p].kids|)
    ensures WellFormed(Reorder(d, p, Permuted(d[p].kids, perm)))
  {
    var kids := Permuted(d[p].kids, perm);
    var e := Reorder(d, p, kids);
    PermutedSame(d[p].kids, perm);
    assert NoDuplicates(kids) by {
      assert NoDuplicates(d[p].kids);
      forall i, j | 0 <= i < j < |kids|
        ensures kids[i] != kids[j]
      {
        assert perm[i] != perm[j];
      }
    }
    hide Permutation, Permuted;
    forall r | r in e
      ensures InPlace(e, r)
    {
      assert InPlace(d, r);
    }
  }

  /** A sort changes what no walk finds, and links stay ranked. */
  lemma ReorderKeepsWalks(d: Dir, rank: Rank, p: Path, perm: seq<nat>, from: Path, comps: Path, bound: nat)
    requires WellFormed(d) && Ranked(d, rank, [], bound) && p in d && Permutation(perm, |d[p].kids|) && from in d
    ensures var e := Reorder(d, p, Permuted(d[p].kids, perm));
            && WellFormed(e) && Ranked(e, rank, [], bound)
            && Resolve(e, rank, [], from, comps, bound) == Resolve(d, rank, [], from, comps, bound)
            && forall r :: r in e <==> r in d && e[r].value == d[r].value
  {
    var e := Reorder(d, p, Permuted(d[p].kids, perm));
    ReorderWellFormed(d, p, perm);
    TopThere(d);
    PartKeepsRanks(d, e, rank, [], bound);
    SameWalks(d, e, rank, [], from, comps, bound);
  }

  lemma {:induction false} SameWalks(d: Dir, e: Dir, rank: Rank, root: Path, p: Path, comps: Path, bound: nat)
    requires d.Keys == e.Keys && PartOf(e, d)
    ensures Resolve(e, rank, root, p, comps, bound) == Resolve(d, rank, root, p, comps, bound)
    decreases bound, |comps|
  {
    if comps != [] {
      var q, rest := p + [comps[0]], comps[1..];
      if q in d && !d[q].link {
        SameWalks(d, e, rank, root, q, rest, bound);
      } else if q in d && d[q].value.Some? && rank(q) < bound {
        var v := Steps(d[q].value.value);
        SameWalks(d, e, rank, root, root, v, rank(q));
        SameWalks(d, e, rank, root, Resolve(d, rank, root, root, v, rank(q)), rest, bound);
      }
    }
  }
}

/** Where a walk ends, the start included, and what its loop keeps. */
module HdfWalk {
  import opened HdfNames
  import opened HdfDir
  import opened HdfLinks

  /** The path a walk of a name below p leads to, found or not. A start that is a link is
      followed, unless the name is empty. */
  function WalkEnd(d: Dir, rank: Rank, p: Path, name: string, bound: nat): (g: Path)
    requires p in d
  {
    if name == "" then p
    else if !d[p].link then Resolve(d, rank, [], p, Components(name, 0), bound)
    else if d[p].value.None? || rank(p) >= bound then p + Components(name, 0)
    else
      var t := Resolve(d, rank, [], [], Steps(d[p].value.value), rank(p));
      if t in d then Resolve(d, rank, [], t, Components(name, 0), bound) else t + Components(name, 0)
  }

  /** The walk meets only links below the bound. */
  ghost predicate WalkFine(d: Dir, rank: Rank, p: Path, name: string, bound: nat)
    requires p in d
  {
    name != "" ==>
      if d[p].link then
        && d[p].value.Some? && rank(p) < bound && Fine(d, rank, [], [], Steps(d[p].value.value), rank(p))
        && var t := Resolve(d, rank, [], [], Steps(d[p].value.value), rank(p));
           t in d ==> Fine(d, rank, [], t, Components(name, 0), bound)
      else Fine(d, rank, [], p, Components(name, 0), bound)
  }

  lemma RankedWalkFine(d: Dir, rank: Rank, p: Path, name: string, bound: nat)
    requires Ranked(d, rank, [], bound) && p in d
    ensures WalkFine(d, rank, p, name, bound)
  {
    RankedFine(d, rank, [], p, Components(name, 0), bound);
    if d[p].link {
      RankedFine(d, rank, [], Resolve(d, rank, [], [], Steps(d[p].value.value), rank(p)), Components(name, 0), bound);
    }
  }

  /** The loop of a walk stands at p with the name from n on still to go, towards g. */
  ghost predicate Walking(d: Dir, rank: Rank, p: Path, name: string, n: nat, bound: nat, g: Path)
    requires n <= |name|
  {
    p in d && Fine(d, rank, [], p, Components(name, n), bound) && Resolve(d, rank, [], p, Components(name, n), bound) == g
  }

  lemma WalkStart(d: Dir, rank: Rank, p: Path, name: string, bound: nat)
    requires WellFormed(d) && p in d && WalkFine(d, rank, p, name, bound) && name != ""
    ensures !d[p].link ==> Walking(d, rank, p, name, 0, bound, WalkEnd(d, rank, p, name, bound))
    ensures d[p].link ==>
      && LinkReady(d, rank, p, bound)
      && var t := LinkTarget(d, rank, p);
         if t in d then Walking(d, rank, t, name, 0, bound, WalkEnd(d, rank, p, name, bound))
         else WalkEnd(d, rank, p, name, bound) !in d
  {
    if d[p].link {
      TopLink(d, rank, p, bound);
      var t := LinkTarget(d, rank, p);
      if t !in d {
        NothingBelow(d, t, t + Components(name, 0));
      }
    }
  }

  /** A link at p that a walk with this bound may follow. */
  ghost predicate LinkReady(d: Dir, rank: Rank, p: Path, bound: nat)
  {
    && p in d && [] in d && d[p].value.Some? && rank(p) < bound
    && WalkFine(d, rank, [], d[p].value.value, rank(p))
  }

  function LinkTarget(d: Dir, rank: Rank, p: Path): (t: Path)
    requires p in d && [] in d && d[p].value.Some?
  {
    WalkEnd(d, rank, [], d[p].value.value, rank(p))
  }

  lemma TopLink(d: Dir, rank: Rank, p: Path, bound: nat)
    requires WellFormed(d) && p in d && d[p].link && d[p].value.Some? && rank(p) < bound
    requires Fine(d, rank, [], [], Steps(d[p].value.value), rank(p))
    ensures LinkReady(d, rank, p, bound)
    ensures LinkTarget(d, rank, p) == Resolve(d, rank, [], [], Steps(d[p].value.value), rank(p))
  {
  }

  /** One component of a walk. */
  lemma ResolveStep(d: Dir, rank: Rank, p: Path, comps: Path, bound: nat)
    requires WellFormed(d) && comps != [] && Fine(d, rank, [], p, comps, bound)
    ensures var q, rest, g := p + [comps[0]], comps[1..], Resolve(d, rank, [], p, comps, bound);
            && (q !in d ==> g !in d)
            && (q in d && !d[q].link ==> Fine(d, rank, [], q, rest, bound) && g == Resolve(d, rank, [], q, rest, bound))
            && (q in d && d[q].link ==>
                  && LinkReady(d, rank, q, bound)
                  && var t := LinkTarget(d, rank, q);
                     && (t in d ==> Fine(d, rank, [], t, rest, bound) && g == Resolve(d, rank, [], t, rest, bound))
                     && (t !in d ==> g == t + rest && g !in d))
  {
    var q, rest := p + [comps[0]], comps[1..];
    if q !in d {
      NothingBelow(d, q, q + rest);
    } else if d[q].link {
      TopLink(d, rank, q, bound);
      if LinkTarget(d, rank, q) !in d {
        NothingBelow(d, LinkTarget(d, rank, q), LinkTarget(d, rank, q) + rest);
      }
    }
  }

  lemma ResolveNothing(d: Dir, rank: Rank, p: Path, comps: Path, bound: nat)
    requires comps == []
    ensures Resolve(d, rank, [], p, comps, bound) == p && p + comps == p
  {
  }

  /** One round of a walk's loop. */
  lemma WalkStep(d: Dir, rank: Rank, p: Path, name: string, n: nat, bound: nat, g: Path, q: Path)
    requires n <= |name| && WellFormed(d) && Walking(d, rank, p, name, n, bound, g) && q == p + [name[n..Dot(name, n)]]
    ensures q !in d ==> g !in d
    ensures q in d && !d[q].link ==>
      if Dot(name, n) == |name| then g == q else Walking(d, rank, q, name, Dot(name, n) + 1, bound, g)
    ensures q in d && d[q].link ==>
      && LinkReady(d, rank, q, bound)
      && var t := LinkTarget(d, rank, q);
         if Dot(name, n) == |name| then g == t
         else if t in d then Walking(d, rank, t, name, Dot(name, n) + 1, bound, g)
         else g !in d
  {
    hide Components, Dot, WellFormed, Resolve, Fine, LinkTarget;
    ComponentsParts(name, n);
    ResolveStep(d, rank, p, Components(name, n), bound);
    if Dot(name, n) == |name| {
      ResolveNothing(d, rank, q, Components(name, n)[1..], bound);
      if q in d && d[q].link {
        ResolveNothing(d, rank, LinkTarget(d, rank, q), Components(name, n)[1..], bound);
      }
    }
  }
}

/** Walking through symbolic links, and where sets will start over. A link's value is a name to start over with, from
    the root: for a walk that is the top of the dataset, for a set the node it started at. Links
    are ranked when resolving one meets only links of lower rank; `bound` is above the rank of
    every link that may be met. */
module HdfLinks {
  import opened Wrappers
  import opened HdfNames
  import opened HdfDir

  type Rank = Path -> nat

  /** The path a walk from p along comps ends at, every link followed. Where the tree ends the
      remaining components are simply appended, so the walk succeeds iff the result exists. */
  function Resolve(d: Dir, rank: Rank, root: Path, p: Path, comps: Path, bound: nat): (g: Path)
    ensures root <= p ==> root <= g
    decreases bound, |comps|
  {
    if comps == [] then p
    else
      var q, rest := p + [comps[0]], comps[1..];
      if q !in d then q + rest
      else if !d[q].link then Resolve(d, rank, root, q, rest, bound)
      else if d[q].value.None? || rank(q) >= bound then q + rest
      else
        var t := Resolve(d, rank, root, root, Steps(d[q].value.value), rank(q));
        if t in d then Resolve(d, rank, root, t, rest, bound) else t + rest
  }

  /** The walk meets only links below the bound. */
  ghost predicate Fine(d: Dir, rank: Rank, root: Path, p: Path, comps: Path, bound: nat)
    decreases bound, |comps|
  {
    comps != [] ==>
      var q, rest := p + [comps[0]], comps[1..];
      q in d ==>
        if d[q].link then
          && d[q].value.Some? && rank(q) < bound
          && var v := Steps(d[q].value.value);
             && Fine(d, rank, root, root, v, rank(q))
             && var t := Resolve(d, rank, root, root, v, rank(q));
                t in d ==> Fine(d, rank, root, t, rest, bound)
        else Fine(d, rank, root, q, rest, bound)
  }

  ghost predicate Ranked(d: Dir, rank: Rank, root: Path, bound: nat) {
    forall q {:trigger d[q].link} :: q in d && root <= q && d[q].link ==> RankedAt(d, rank, root, bound, q)
  }

  ghost predicate RankedAt(d: Dir, rank: Rank, root: Path, bound: nat, q: Path)
    requires q in d
  {
    d[q].value.Some? && rank(q) < bound && Fine(d, rank, root, root, Steps(d[q].value.value), rank(q))
  }

  ghost predicate NoLinks(d: Dir) {
    forall q :: q in d ==> !d[q].link
  }

  lemma {:induction false} RankedFine(d: Dir, rank: Rank, root: Path, p: Path, comps: Path, bound: nat)
    requires Ranked(d, rank, root, bound) && root <= p
    ensures Fine(d, rank, root, p, comps, bound)
    decreases |comps|
  {
    if comps != [] {
      var q, rest := p + [comps[0]], comps[1..];
      if q in d {
        if d[q].link {
          RankedFine(d, rank, root, Resolve(d, rank, root, root, Steps(d[q].value.value), rank(q)), rest, bound);
        } else {
          RankedFine(d, rank, root, q, rest, bound);
        }
      }
    }
  }

  /** A larger bound changes nothing. */
  lemma {:induction false} LargerBound(d: Dir, rank: Rank, root: Path, p: Path, comps: Path, low: nat, high: nat)
    requires Fine(d, rank, root, p, comps, low) && low <= high
    ensures Fine(d, rank, root, p, comps, high)
    ensures Resolve(d, rank, root, p, comps, high) == Resolve(d, rank, root, p, comps, low)
    ensures Cost(d, rank, root, p, comps, high) == Cost(d, rank, root, p, comps, low)
    decreases |comps|
  {
    if comps != [] {
      var q, rest := p + [comps[0]], comps[1..];
      if q in d {
        if d[q].link {
          var t := Resolve(d, rank, root, root, Steps(d[q].value.value), rank(q));
          if t in d {
            LargerBound(d, rank, root, t, rest, low, high);
          }
        } else {
          LargerBound(d, rank, root, q, rest, low, high);
        }
      }
    }
  }

  /** How many existing nodes a walk looks at, links followed: what a set that restarts at
      each link still has ahead of it. */
  function Cost(d: Dir, rank: Rank, root: Path, p: Path, comps: Path, bound: nat): (n: nat)
    decreases bound, |comps|
  {
    if comps == [] then 0
    else
      var q, rest := p + [comps[0]], comps[1..];
      if q !in d then 0
      else if !d[q].link then 1 + Cost(d, rank, root, q, rest, bound)
      else if d[q].value.None? || rank(q) >= bound then 1
      else
        var v := Steps(d[q].value.value);
        var t := Resolve(d, rank, root, root, v, rank(q));
        1 + Cost(d, rank, root, root, v, rank(q)) + (if t in d then Cost(d, rank, root, t, rest, bound) else 0)
  }

  /** A walk can be interrupted anywhere. */
  lemma {:induction false} ResolveConcat(d: Dir, rank: Rank, root: Path, p: Path, a: Path, b: Path, bound: nat)
    requires WellFormed(d) && p in d && Fine(d, rank, root, p, a + b, bound)
    ensures Fine(d, rank, root, p, a, bound)
    ensures var t := Resolve(d, rank, root, p, a, bound);
            && Resolve(d, rank, root, p, a + b, bound) == (if t in d then Resolve(d, rank, root, t, b, bound) else t + b)
            && Cost(d, rank, root, p, a + b, bound)
               == Cost(d, rank, root, p, a, bound) + (if t in d then Cost(d, rank, root, t, b, bound) else 0)
    decreases |a|
  {
    hide WellFormed;
    if a == [] {
      assert a + b == b;
    } else {
      var q, rest := p + [a[0]], a[1..];
      assert (a + b)[0] == a[0] && (a + b)[1..] == rest + b;
      if q !in d {
        NothingBelow(d, q, q + rest);
        assert q + (rest + b) == q + rest + b;
      } else if !d[q].link {
        ResolveConcat(d, rank, root, q, rest, b, bound);
      } else {
        var t := Resolve(d, rank, root, root, Steps(d[q].value.value), rank(q));
        if t in d {
          ResolveConcat(d, rank, root, t, rest, b, bound);
        } else {
          NothingBelow(d, t, t + rest);
          assert t + (rest + b) == t + rest + b;
        }
      }
    }
  }

  lemma {:induction false} FineConcat(d: Dir, rank: Rank, root: Path, p: Path, a: Path, b: Path, bound: nat)
    requires WellFormed(d) && p in d && Fine(d, rank, root, p, a, bound)
    requires var t := Resolve(d, rank, root, p, a, bound); t in d ==> Fine(d, rank, root, t, b, bound)
    ensures Fine(d, rank, root, p, a + b, bound)
    decreases |a|
  {
    hide WellFormed;
    if a == [] {
      assert a + b == b;
    } else {
      var q, rest := p + [a[0]], a[1..];
      assert (a + b)[0] == a[0] && (a + b)[1..] == rest + b;
      if q in d && !d[q].link {
        FineConcat(d, rank, root, q, rest, b, bound);
      } else if q in d {
        var t := Resolve(d, rank, root, root, Steps(d[q].value.value), rank(q));
        if t in d {
          FineConcat(d, rank, root, t, rest, b, bound);
        }
      }
    }
  }

  /** After a set meets a link it starts over from its root, on the link's value with the rest of
      the name pasted on: that ends where the walk would, and leaves strictly less to look at. */
  lemma RestartAtLink(d: Dir, rank: Rank, root: Path, p: Path, a: Path, bound: nat)
    requires WellFormed(d) && root in d && a != [] && Fine(d, rank, root, p, a, bound)
    requires var q := p + [a[0]]; q in d && d[q].link && d[q].value.value != ""
    ensures var pasted := Components(d[p + [a[0]]].value.value, 0) + a[1..];
            && Fine(d, rank, root, root, pasted, bound)
            && Resolve(d, rank, root, root, pasted, bound) == Resolve(d, rank, root, p, a, bound)
            && Cost(d, rank, root, root, pasted, bound) < Cost(d, rank, root, p, a, bound)
  {
    hide WellFormed;
    var q, rest := p + [a[0]], a[1..];
    var v := Components(d[q].value.value, 0);
    LargerBound(d, rank, root, root, v, rank(q), bound);
    FineConcat(d, rank, root, root, v, rest, bound);
    ResolveConcat(d, rank, root, root, v, rest, bound);
  }

  // ----- datasets that grow

  ghost predicate Comparable(a: Path, b: Path) {
    a <= b || b <= a
  }

  /** e extends d: links are as they were, and what is new is not a link and lies on the way to
      g or beyond it. */
  ghost predicate ExtendsTowards(d: Dir, e: Dir, g: Path) {
    && (forall q :: q in d ==> q in e && e[q].link == d[q].link && (d[q].link ==> e[q].value == d[q].value))
    && (forall q :: q in e && q !in d ==> !e[q].link && Comparable(q, g))
  }

  /** Beyond the end of the old tree there are no links to follow. */
  lemma {:induction false} GrownBeyond(d: Dir, e: Dir, rank: Rank, root: Path, p: Path, comps: Path, bound: nat, g: Path)
    requires WellFormed(d) && p !in d && ExtendsTowards(d, e, g)
    ensures Fine(e, rank, root, p, comps, bound) && Resolve(e, rank, root, p, comps, bound) == p + comps
    decreases |comps|
  {
    if comps != [] {
      var q, rest := p + [comps[0]], comps[1..];
      NothingBelow(d, p, q);
      assert q + rest == p + comps;
      if q in e {
        GrownBeyond(d, e, rank, root, q, rest, bound, g);
      }
    }
  }

  /** Wherever the dataset grows, a walk ends where it ended, and meets no new link. */
  lemma {:induction false} ResolveGrown(d: Dir, e: Dir, rank: Rank, root: Path, p: Path, comps: Path, bound: nat, g: Path)
    requires WellFormed(d) && root in d && p in d && Fine(d, rank, root, p, comps, bound) && ExtendsTowards(d, e, g)
    ensures Fine(e, rank, root, p, comps, bound)
    ensures Resolve(e, rank, root, p, comps, bound) == Resolve(d, rank, root, p, comps, bound)
    decreases bound, |comps|
  {
    hide WellFormed;
    if comps != [] {
      var q, rest := p + [comps[0]], comps[1..];
      if q !in d {
        GrownBeyond(d, e, rank, root, q, rest, bound, g);
      } else if !d[q].link {
        ResolveGrown(d, e, rank, root, q, rest, bound, g);
      } else {
        var v := Steps(d[q].value.value);
        var t := Resolve(d, rank, root, root, v, rank(q));
        ResolveGrown(d, e, rank, root, root, v, rank(q), g);
        if t in d {
          ResolveGrown(d, e, rank, root, t, rest, bound, g);
        } else {
          GrownBeyond(d, e, rank, root, t, rest, bound, g);
        }
      }
    }
  }

  lemma LinkWas(d: Dir, e: Dir, g: Path, q: Path)
    requires ExtendsTowards(d, e, g) && q in e && e[q].link
    ensures q in d && d[q].link && e[q].value == d[q].value
  {
  }

  /** Ranked links stay ranked, for walks and sets from any root, while the dataset grows. */
  lemma RanksExtend(d: Dir, e: Dir, rank: Rank, root: Path, bound: nat, g: Path)
    requires WellFormed(d) && root in d && ExtendsTowards(d, e, g) && Ranked(d, rank, root, bound)
    ensures Ranked(e, rank, root, bound)
  {
    hide Fine, ExtendsTowards, WellFormed;
    forall q | q in e && root <= q && e[q].link
      ensures RankedAt(e, rank, root, bound, q)
    {
      LinkWas(d, e, g, q);
      assert d[q].link;
      ResolveGrown(d, e, rank, root, root, Steps(d[q].value.value), rank(q), g);
    }
  }

  // ----- datasets that shrink

  /** e is part of d: what is left is as it was, children aside. */
  ghost predicate PartOf(e: Dir, d: Dir) {
    forall r :: r in e ==> r in d && e[r].link == d[r].link && e[r].value == d[r].value
  }

  /** Where nodes are taken away a walk still meets only ranked links, and what it finds is what it
      found before. */
  lemma {:induction false} FinePart(d: Dir, e: Dir, rank: Rank, root: Path, p: Path, comps: Path, bound: nat)
    requires WellFormed(e) && PartOf(e, d) && root in e && p in e && Fine(d, rank, root, p, comps, bound)
    ensures Fine(e, rank, root, p, comps, bound)
    ensures Resolve(e, rank, root, p, comps, bound) in e ==>
      Resolve(e, rank, root, p, comps, bound) == Resolve(d, rank, root, p, comps, bound)
    decreases bound, |comps|
  {
    hide WellFormed;
    if comps != [] {
      var q, rest := p + [comps[0]], comps[1..];
      if q !in e {
        NothingBelow(e, q, Resolve(e, rank, root, p, comps, bound));
      } else if !d[q].link {
        FinePart(d, e, rank, root, q, rest, bound);
      } else {
        var v := Steps(d[q].value.value);
        FinePart(d, e, rank, root, root, v, rank(q));
        var t := Resolve(e, rank, root, root, v, rank(q));
        if t in e {
          FinePart(d, e, rank, root, t, rest, bound);
        } else {
          NothingBelow(e, t, t + rest);
        }
      }
    }
  }

  /** Removals and sorts keep links ranked. */
  lemma PartKeepsRanks(d: Dir, e: Dir, rank: Rank, root: Path, bound: nat)
    requires WellFormed(d) && WellFormed(e) && PartOf(e, d) && Ranked(d, rank, root, bound)
    ensures Ranked(e, rank, root, bound)
  {
    hide Fine, WellFormed;
    forall q | q in e && root <= q && e[q].link
      ensures RankedAt(e, rank, root, bound, q)
    {
      PrefixesExist(e, q, root);
      assert d[q].link;
      FinePart(d, e, rank, root, root, Steps(d[q].value.value), rank(q));
    }
  }

  // ----- names that meet no link

  /** No node strictly below p on the way along a is a link. */
  ghost predicate Direct(d: Dir, p: Path, a: Path) {
    forall n {:trigger a[..n]} :: 0 < n <= |a| && p + a[..n] in d ==> !d[p + a[..n]].link
  }

  /** Where no link is met, it does not matter where links would start over. */
  lemma DirectTail(d: Dir, p: Path, a: Path)
    requires Direct(d, p, a) && a != []
    ensures Direct(d, p + [a[0]], a[1..])
    ensures p + [a[0]] in d ==> !d[p + [a[0]]].link
  {
    var q, rest := p + [a[0]], a[1..];
    assert a[..1] == [a[0]];
    forall n | 0 < n <= |rest| && q + rest[..n] in d
      ensures !d[q + rest[..n]].link
    {
      assert a[..n + 1] == [a[0]] + rest[..n];
      assert p + a[..n + 1] == q + rest[..n];
    }
  }

  lemma {:induction false} DirectResolve(d: Dir, rank: Rank, root: Path, p: Path, a: Path, bound: nat)
    requires Direct(d, p, a)
    ensures Fine(d, rank, root, p, a, bound) && Resolve(d, rank, root, p, a, bound) == p + a
    decreases |a|
  {
    if a == [] {
      assert p + a == p;
    } else {
      var q, rest := p + [a[0]], a[1..];
      assert q + rest == p + a;
      if q in d {
        DirectTail(d, p, a);
        DirectResolve(d, rank, root, q, rest, bound);
      }
    }
  }
}

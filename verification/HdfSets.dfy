/** Setting through symbolic links: a set that meets one starts over at its root, with the link's
    value in place of the name so far. */
module HdfSets {
  import opened Wrappers
  import opened HdfNames
  import opened HdfDir
  import opened HdfLinks

  /** The links before the last component are ranked, so a set will reach it. */
  ghost predicate Way(d: Dir, rank: Rank, base: Path, p: Path, comps: Path, bound: nat) {
    comps != [] && Fine(d, rank, base, p, Parent(comps), bound)
  }

  /** What a set still has to look at. */
  function WayCost(d: Dir, rank: Rank, base: Path, p: Path, comps: Path, bound: nat): (n: nat) {
    if comps == [] then 0 else Cost(d, rank, base, p, Parent(comps), bound)
  }

  /** One component of a set's way. */
  lemma WayStep(d: Dir, rank: Rank, base: Path, p: Path, comps: Path, bound: nat)
    requires WellFormed(d) && base in d && Way(d, rank, base, p, comps, bound) && |comps| > 1 && p + [comps[0]] in d
    ensures var q, rest := p + [comps[0]], comps[1..];
            && (!d[q].link ==>
                  && Way(d, rank, base, q, rest, bound)
                  && WayCost(d, rank, base, q, rest, bound) < WayCost(d, rank, base, p, comps, bound))
            && (d[q].link ==> d[q].value.Some?)
            && (d[q].link && d[q].value.value != "" ==>
                  var pasted := Components(d[q].value.value, 0) + rest;
                  && Way(d, rank, base, base, pasted, bound)
                  && WayCost(d, rank, base, base, pasted, bound) < WayCost(d, rank, base, p, comps, bound))
  {
    hide WellFormed;
    var q, rest, init := p + [comps[0]], comps[1..], Parent(comps);
    assert init[0] == comps[0] && init[1..] == Parent(rest);
    if d[q].link && d[q].value.value != "" {
      var v := Components(d[q].value.value, 0);
      assert Parent(v + rest) == v + Parent(rest);
      RestartAtLink(d, rank, base, p, init, bound);
    }
  }

  /** With ranked links every name is such a way. */
  lemma RankedWay(d: Dir, rank: Rank, base: Path, p: Path, comps: Path, bound: nat)
    requires Ranked(d, rank, base, bound) && base <= p && comps != []
    ensures Way(d, rank, base, p, comps, bound)
  {
    RankedFine(d, rank, base, p, Parent(comps), bound);
  }

  /** A set from node p of the dataset below base. The value of a link met on the way, with the
      rest of the name after it, is set from base again. */
  function SetAt(d: Dir, rank: Rank, base: Path, p: Path, comps: Path, value: Option<string>, link: bool, bound: nat)
    : (o: Outcome)
    requires WellFormed(d) && base in d && p in d && Way(d, rank, base, p, comps, bound)
    decreases WayCost(d, rank, base, p, comps, bound)
  {
    var q, rest := p + [comps[0]], comps[1..];
    if comps[0] == "" then Rejected(d)
    else if q !in d then Create(d, p, comps, value, link)
    else if rest == [] then Stored(SetEntry(d, q, value, link), q)
    else
      WayStep(d, rank, base, p, comps, bound);
      if !d[q].link then SetAt(d, rank, base, q, rest, value, link, bound)
      else if d[q].value.value == "" then Rejected(d)  // the pasted name starts with the dot
      else SetAt(d, rank, base, base, Components(d[q].value.value, 0) + rest, value, link, bound)
  }

  /** The node a set addresses: links are followed up to the last component, not at it. */
  function Addressed(d: Dir, rank: Rank, root: Path, p: Path, comps: Path, bound: nat): (q: Path)
    requires comps != []
  {
    Resolve(d, rank, root, p, Parent(comps), bound) + [Last(comps)]
  }

  lemma SetAtStep(d: Dir, rank: Rank, base: Path, p: Path, comps: Path, value: Option<string>, link: bool, bound: nat)
    requires WellFormed(d) && base in d && p in d && Way(d, rank, base, p, comps, bound)
    ensures var q, rest, o := p + [comps[0]], comps[1..], SetAt(d, rank, base, p, comps, value, link, bound);
            && (comps[0] == "" ==> o == Rejected(d))
            && (comps[0] != "" && q !in d ==> o == Create(d, p, comps, value, link))
            && (comps[0] != "" && q in d && rest == [] ==> o == Stored(SetEntry(d, q, value, link), q))
            && (comps[0] != "" && q in d && rest != [] && !d[q].link ==>
                  && Way(d, rank, base, q, rest, bound)
                  && o == SetAt(d, rank, base, q, rest, value, link, bound))
            && (comps[0] != "" && q in d && rest != [] && d[q].link ==>
                  && d[q].value.Some?
                  && (d[q].value.value == "" ==> o == Rejected(d))
                  && (d[q].value.value != "" ==>
                        var pasted := Components(d[q].value.value, 0) + rest;
                        && Way(d, rank, base, base, pasted, bound)
                        && o == SetAt(d, rank, base, base, pasted, value, link, bound)))
  {
    if |comps| > 1 && p + [comps[0]] in d {
      WayStep(d, rank, base, p, comps, bound);
      hide Way, WayCost, WellFormed;
    }
  }

  /** A set that is accepted does what a plain set of the addressed node does. */
  lemma {:induction false} SetLands(d: Dir, rank: Rank, base: Path, p: Path, comps: Path,
                                    value: Option<string>, link: bool, bound: nat)
    requires WellFormed(d) && base in d && p in d && Way(d, rank, base, p, comps, bound)
    requires NoDots(comps) && SetAt(d, rank, base, p, comps, value, link, bound).Stored?
    ensures var q := Addressed(d, rank, base, p, comps, bound);
            && SetAt(d, rank, base, p, comps, value, link, bound) == Stored(Plain(d, q, value, link), q)
            && WellFormed(Touch(d, q))
    decreases WayCost(d, rank, base, p, comps, bound)
  {
    assert [] in d;
    hide Plain, Addressed, Create, Resolve, Touch, Components, SetAt, WellFormed, SetEntry, Fine, Way, WayCost;
    SetAtStep(d, rank, base, p, comps, value, link, bound);
    var q, rest := p + [comps[0]], comps[1..];
    AddressedStep(d, rank, base, p, comps, bound);
    if rest != [] && q in d {
      WayStep(d, rank, base, p, comps, bound);
    }
    if q !in d {
      CreateAccepts(d, p, comps, value, link);
      CreateIsPlain(d, p, comps, value, link);
      TouchBelow(d, p, comps);
    } else if rest == [] {
      PlainExisting(d, q, value, link);
    } else if !d[q].link {
      SetLands(d, rank, base, q, rest, value, link, bound);
    } else {
      assert d[q].link;
      var v := Components(d[q].value.value, 0);
      ComponentsHaveNoDots(d[q].value.value, 0);
      SetLands(d, rank, base, base, v + rest, value, link, bound);
    }
  }

  /** Every link that a walk crosses has a value without empty components. */
  ghost predicate Clean(d: Dir, rank: Rank, root: Path, p: Path, a: Path, bound: nat)
    decreases bound, |a|
  {
    a != [] ==>
      var q, rest := p + [a[0]], a[1..];
      q in d ==>
        if d[q].link then
          && d[q].value.Some? && rank(q) < bound && "" !in Components(d[q].value.value, 0)
          && var v := Steps(d[q].value.value);
             && Clean(d, rank, root, root, v, rank(q))
             && var t := Resolve(d, rank, root, root, v, rank(q));
                t in d ==> Clean(d, rank, root, t, rest, bound)
        else Clean(d, rank, root, q, rest, bound)
  }

  lemma {:induction false} CleanBound(d: Dir, rank: Rank, root: Path, p: Path, a: Path, low: nat, high: nat)
    requires Fine(d, rank, root, p, a, low) && low <= high
    ensures Clean(d, rank, root, p, a, low) <==> Clean(d, rank, root, p, a, high)
    decreases |a|
  {
    if a != [] {
      var q, rest := p + [a[0]], a[1..];
      if q in d {
        if d[q].link {
          var t := Resolve(d, rank, root, root, Steps(d[q].value.value), rank(q));
          if t in d {
            CleanBound(d, rank, root, t, rest, low, high);
          }
        } else {
          CleanBound(d, rank, root, q, rest, low, high);
        }
      }
    }
  }

  lemma {:induction false} CleanConcat(d: Dir, rank: Rank, root: Path, p: Path, a: Path, b: Path, bound: nat)
    requires WellFormed(d) && p in d && Fine(d, rank, root, p, a + b, bound)
    ensures Clean(d, rank, root, p, a + b, bound) <==>
      && Clean(d, rank, root, p, a, bound)
      && var t := Resolve(d, rank, root, p, a, bound); t in d ==> Clean(d, rank, root, t, b, bound)
    decreases |a|
  {
    hide WellFormed;
    if a == [] {
      assert a + b == b;
    } else {
      var q, rest := p + [a[0]], a[1..];
      assert (a + b)[0] == a[0] && (a + b)[1..] == rest + b;
      if q !in d {
        NothingBelow(d, q, q + rest);
      } else if !d[q].link {
        CleanConcat(d, rank, root, q, rest, b, bound);
      } else {
        var t := Resolve(d, rank, root, root, Steps(d[q].value.value), rank(q));
        if t in d {
          CleanConcat(d, rank, root, t, rest, b, bound);
        } else {
          NothingBelow(d, t, t + rest);
        }
      }
    }
  }

  /** One component of a set's way, whose last component is not crossed. */
  lemma CleanStep(d: Dir, rank: Rank, root: Path, p: Path, comps: Path, bound: nat)
    requires WellFormed(d) && root in d && |comps| > 1 && Way(d, rank, root, p, comps, bound)
    ensures var q, rest := p + [comps[0]], comps[1..];
            && (q !in d ==> Clean(d, rank, root, p, Parent(comps), bound))
            && (q in d && !d[q].link ==>
                  (Clean(d, rank, root, p, Parent(comps), bound) <==> Clean(d, rank, root, q, Parent(rest), bound)))
            && (q in d && d[q].link ==>
                  var v := Components(d[q].value.value, 0);
                  (Clean(d, rank, root, p, Parent(comps), bound)
                   <==> "" !in v && Clean(d, rank, root, root, Parent(v + rest), bound)))
  {
    hide WellFormed;
    var q, rest, init := p + [comps[0]], comps[1..], Parent(comps);
    assert init[0] == comps[0] && init[1..] == Parent(rest);
    if q in d && d[q].link {
      var v := Components(d[q].value.value, 0);
      if "" !in v {
        EmptyName();
        assert Parent(v + rest) == v + Parent(rest);
        RestartAtLink(d, rank, root, p, init, bound);
        CleanConcat(d, rank, root, root, v, Parent(rest), bound);
        CleanBound(d, rank, root, root, v, rank(q), bound);
        LargerBound(d, rank, root, root, v, rank(q), bound);
      }
    }
  }

  /** A set is accepted exactly when its name has no empty component, and neither has the value of
      any link it crosses on the way to the last component. */
  lemma {:induction false} SetAcceptsIff(d: Dir, rank: Rank, base: Path, p: Path, comps: Path,
                                         value: Option<string>, link: bool, bound: nat)
    requires WellFormed(d) && base in d && p in d && Way(d, rank, base, p, comps, bound)
    ensures SetAt(d, rank, base, p, comps, value, link, bound).Stored?
       <==> "" !in comps && Clean(d, rank, base, p, Parent(comps), bound)
    decreases WayCost(d, rank, base, p, comps, bound)
  {
    hide Create, Resolve, Components, SetAt, WellFormed, SetEntry, Fine, WayCost;
    SetAtStep(d, rank, base, p, comps, value, link, bound);
    var q, rest := p + [comps[0]], comps[1..];
    assert comps == [comps[0]] + rest;
    if q !in d {
      CreateAccepts(d, p, comps, value, link);
      NotCrossed(d, rank, base, p, comps, bound);
    } else if rest == [] {
      NotCrossed(d, rank, base, p, comps, bound);
    } else {
      CleanStep(d, rank, base, p, comps, bound);
      WayStep(d, rank, base, p, comps, bound);
      hide Clean;
      if !d[q].link {
        SetAcceptsIff(d, rank, base, q, rest, value, link, bound);
      } else {
        assert d[q].link;
        EmptyName();
        var v := Components(d[q].value.value, 0);
        if d[q].value.value != "" {
          SetAcceptsIff(d, rank, base, base, v + rest, value, link, bound);
        }
      }
    }
  }

  lemma NotCrossed(d: Dir, rank: Rank, root: Path, p: Path, comps: Path, bound: nat)
    requires comps != [] && (p + [comps[0]] !in d || |comps| == 1)
    ensures Clean(d, rank, root, p, Parent(comps), bound)
  {
  }

  /** The addressed node, one component at a time. */
  lemma AddressedStep(d: Dir, rank: Rank, root: Path, p: Path, comps: Path, bound: nat)
    requires WellFormed(d) && root in d && Way(d, rank, root, p, comps, bound)
    ensures var q, rest, a := p + [comps[0]], comps[1..], Addressed(d, rank, root, p, comps, bound);
            && (rest == [] ==> a == q)
            && (q !in d ==> a == p + comps)
            && (rest != [] && q in d && !d[q].link ==> a == Addressed(d, rank, root, q, rest, bound))
            && (rest != [] && q in d && d[q].link && d[q].value.value != "" ==>
                  a == Addressed(d, rank, root, root, Components(d[q].value.value, 0) + rest, bound))
  {
    hide WellFormed;
    var q, rest, init := p + [comps[0]], comps[1..], Parent(comps);
    if rest == [] {
      assert init == [] && comps == [comps[0]];
    } else {
      assert init != [] && init[0] == comps[0] && init[1..] == Parent(rest) && Last(rest) == Last(comps);
      if q !in d {
        assert q + Parent(rest) + [Last(rest)] == p + comps;
      } else if d[q].link && d[q].value.value != "" {
        var v := Components(d[q].value.value, 0);
        assert Parent(v + rest) == v + Parent(rest) && Last(v + rest) == Last(rest);
        RestartAtLink(d, rank, root, p, init, bound);
      }
    }
  }

  lemma EmptyName()
    ensures Components("", 0) == [""]
  {
  }

  lemma {:induction false} TouchBelow(d: Dir, p: Path, comps: Path)
    requires WellFormed(d) && p in d && GoodPath(comps)
    ensures WellFormed(Touch(d, p + comps))
    decreases |comps|
  {
    assert [] in d;
    hide WellFormed, Touch;
    if comps == [] {
      assert p + comps == p;
      PlainExisting(d, p, None, false);
    } else if p + comps !in d {
      var q := p + comps;
      assert Parent(q) == p + Parent(comps) && Last(q) == Last(comps);
      TouchBelow(d, p, Parent(comps));
      TouchStepWellFormed(d, q);
    } else {
      PlainExisting(d, p + comps, None, false);
    }
  }

  lemma PlainExisting(d: Dir, q: Path, value: Option<string>, link: bool)
    requires [] in d && q in d
    ensures Touch(d, q) == d && Plain(d, q, value, link) == SetEntry(d, q, value, link)
  {
  }

  // ----- what a set keeps

  lemma PlainExtends(d: Dir, q: Path, value: Option<string>)
    requires WellFormed(d) && (q in d ==> !d[q].link)
    ensures ExtendsTowards(d, Plain(d, q, value, false), q)
  {
    var e := Plain(d, q, value, false);
    forall r
      ensures r in d ==> r in e && e[r].link == d[r].link && (d[r].link ==> e[r].value == d[r].value)
      ensures r in e && r !in d ==> !e[r].link && Comparable(r, q)
    {
      TouchLookup(d, q, r);
    }
  }

  lemma TouchExtends(d: Dir, q: Path)
    requires WellFormed(d)
    ensures ExtendsTowards(d, Touch(d, q), q)
  {
    var e := Touch(d, q);
    forall r
      ensures r in d ==> r in e && e[r].link == d[r].link && (d[r].link ==> e[r].value == d[r].value)
      ensures r in e && r !in d ==> !e[r].link && Comparable(r, q)
    {
      TouchLookup(d, q, r);
    }
  }

  /** A creation that meets an empty component has made the path up to it. */
  lemma {:induction false} CreateRejected(d: Dir, p: Path, comps: Path, value: Option<string>, link: bool) returns (g: Path)
    requires WellFormed(d) && p in d && comps != [] && NoDots(comps) && "" in comps && p + [comps[0]] !in d
    ensures p <= g && Create(d, p, comps, value, link) == Rejected(Touch(d, g)) && WellFormed(Touch(d, g))
    decreases |comps|
  {
    hide AddKid, Touch, WellFormed;
    var c, q := comps[0], p + [comps[0]];
    if c == "" {
      PlainExisting(d, p, None, false) by { TopThere(d); }
      return p;
    }
    var d1 := AddKid(d, p, c, None, false);
    assert comps == [c] + comps[1..];
    AddKidWellFormed(d, p, c, None, false);
    AddKidLookup(d, p, c, None, false);
    NothingBelow(d, q, q + [comps[1]]);
    g := CreateRejected(d1, q, comps[1..], value, link);
    TouchThrough(d, p, c, g);
  }

  /** A rejected set has made part of a path, and nothing else. */
  lemma {:induction false} SetRejected(d: Dir, rank: Rank, base: Path, p: Path, comps: Path,
                                       value: Option<string>, link: bool, bound: nat) returns (g: Path)
    requires WellFormed(d) && base in d && p in d && Way(d, rank, base, p, comps, bound)
    requires NoDots(comps) && SetAt(d, rank, base, p, comps, value, link, bound).Rejected?
    ensures SetAt(d, rank, base, p, comps, value, link, bound) == Rejected(Touch(d, g)) && WellFormed(Touch(d, g))
    decreases WayCost(d, rank, base, p, comps, bound)
  {
    assert [] in d;
    hide Create, Resolve, Components, SetAt, WellFormed, SetEntry, Fine, Touch, WayCost;
    SetAtStep(d, rank, base, p, comps, value, link, bound);
    var q, rest := p + [comps[0]], comps[1..];
    PlainExisting(d, p, None, false);
    if comps[0] == "" {
      g := p;
    } else if q !in d {
      CreateAccepts(d, p, comps, value, link);
      g := CreateRejected(d, p, comps, value, link);
    } else if rest == [] {
      assert false;
    } else if !d[q].link {
      WayStep(d, rank, base, p, comps, bound);
      g := SetRejected(d, rank, base, q, rest, value, link, bound);
    } else {
      WayStep(d, rank, base, p, comps, bound);
      if d[q].value.value == "" {
        g := p;
      } else {
        ComponentsHaveNoDots(d[q].value.value, 0);
        g := SetRejected(d, rank, base, base, Components(d[q].value.value, 0) + rest, value, link, bound);
      }
    }
  }

  /** A set, accepted or not, leaves a well-formed dataset with all that was there. */
  lemma SetSound(d: Dir, rank: Rank, p: Path, comps: Path, value: Option<string>, link: bool, bound: nat)
    requires WellFormed(d) && p in d && Way(d, rank, p, p, comps, bound) && NoDots(comps) && (link ==> value.Some?)
    ensures var o := SetAt(d, rank, p, p, comps, value, link, bound);
            WellFormed(o.d) && d.Keys <= o.d.Keys && (o.Stored? ==> o.at in o.d)
  {
    var o := SetAt(d, rank, p, p, comps, value, link, bound);
    hide SetAt, Way, Fine;
    if o.Stored? {
      SetLands(d, rank, p, p, comps, value, link, bound);
      AddressedNotTop(d, rank, p, p, comps, bound);
      hide Addressed;
      SetEntryWellFormed(Touch(d, o.at), o.at, value, link);
    } else {
      var g := SetRejected(d, rank, p, p, comps, value, link, bound);
    }
  }

  lemma AddressedNotTop(d: Dir, rank: Rank, root: Path, p: Path, comps: Path, bound: nat)
    requires comps != []
    ensures Addressed(d, rank, root, p, comps, bound) != []
  {
  }

  /** A set, accepted or not, that does not overwrite a link and makes none keeps the dataset
      well-formed and its links ranked as they were, for walks from the top and for sets from any
      node: the next one terminates too. */
  lemma SetKeepsRanks(d: Dir, rank: Rank, p: Path, comps: Path, value: Option<string>, bound: nat,
                      other: Rank, root: Path, otherBound: nat)
    requires WellFormed(d) && p in d && Way(d, rank, p, p, comps, bound) && NoDots(comps)
    requires var q := Addressed(d, rank, p, p, comps, bound); q in d ==> !d[q].link
    requires root in d && Ranked(d, other, root, otherBound)
    ensures var o := SetAt(d, rank, p, p, comps, value, false, bound);
            WellFormed(o.d) && Ranked(o.d, other, root, otherBound)
  {
    var o, q := SetAt(d, rank, p, p, comps, value, false, bound), Addressed(d, rank, p, p, comps, bound);
    SetSound(d, rank, p, comps, value, false, bound);
    hide SetAt, Addressed, Ranked, Fine, ExtendsTowards, Way, WellFormed;
    if o.Stored? {
      SetLands(d, rank, p, p, comps, value, false, bound);
      PlainExtends(d, q, value);
      RanksExtend(d, o.d, other, root, otherBound, q);
    } else {
      var g := SetRejected(d, rank, p, p, comps, value, false, bound);
      TouchExtends(d, g);
      RanksExtend(d, o.d, other, root, otherBound, g);
    }
  }

  // ----- reading back

  lemma LastStep(d: Dir, rank: Rank, root: Path, t: Path, c: string, bound: nat)
    requires t + [c] in d ==> !d[t + [c]].link
    ensures Fine(d, rank, root, t, [c], bound) && Resolve(d, rank, root, t, [c], bound) == t + [c]
  {
  }

  /** Unless it is a link, the node addressed is where a walk from the same root ends. */
  lemma ResolveAddressed(d: Dir, rank: Rank, root: Path, p: Path, comps: Path, bound: nat)
    requires WellFormed(d) && root in d && p in d && Way(d, rank, root, p, comps, bound)
    requires var q := Addressed(d, rank, root, p, comps, bound); q in d ==> !d[q].link
    ensures Fine(d, rank, root, p, comps, bound)
    ensures Resolve(d, rank, root, p, comps, bound) == Addressed(d, rank, root, p, comps, bound)
  {
    hide WellFormed, Fine, Resolve;
    var init, c := Parent(comps), Last(comps);
    assert comps == init + [c];
    LastStep(d, rank, root, Resolve(d, rank, root, p, init, bound), c, bound);
    FineConcat(d, rank, root, p, init, [c], bound);
    ResolveConcat(d, rank, root, p, init, [c], bound);
  }

  /** A name without empty components, through links without any: what a set accepts. */
  ghost predicate Proper(d: Dir, rank: Rank, p: Path, comps: Path, bound: nat) {
    comps != [] && NoDots(comps) && "" !in comps && Clean(d, rank, p, p, Parent(comps), bound)
  }

  /** A set whose name is accepted is a plain set of the node addressed. */
  lemma ProperSet(d: Dir, rank: Rank, p: Path, comps: Path, value: Option<string>, bound: nat)
    requires WellFormed(d) && p in d && Way(d, rank, p, p, comps, bound) && Proper(d, rank, p, comps, bound)
    requires var q := Addressed(d, rank, p, p, comps, bound); q in d ==> !d[q].link
    ensures var o, q := SetAt(d, rank, p, p, comps, value, false, bound), Addressed(d, rank, p, p, comps, bound);
            && o == Stored(Plain(d, q, value, false), q)
            && WellFormed(o.d) && q in o.d && o.d[q].value == value && ExtendsTowards(d, o.d, q)
  {
    var q := Addressed(d, rank, p, p, comps, bound);
    hide SetAt, Way, Fine, Clean, ExtendsTowards, Addressed;
    SetAcceptsIff(d, rank, p, p, comps, value, false, bound);
    SetLands(d, rank, p, p, comps, value, false, bound);
    SetSound(d, rank, p, comps, value, false, bound);
    PlainExtends(d, q, value);
  }

  /** Unless the node addressed is itself a link, what a set stores through any chain of links is
      found again by resolving the same name from the same root. From the top that is a walk. */
  lemma SetReadsBack(d: Dir, rank: Rank, p: Path, comps: Path, value: Option<string>, bound: nat)
    requires WellFormed(d) && p in d && Way(d, rank, p, p, comps, bound) && Proper(d, rank, p, comps, bound)
    requires var q := Addressed(d, rank, p, p, comps, bound); q in d ==> !d[q].link
    ensures var o, q := SetAt(d, rank, p, p, comps, value, false, bound), Addressed(d, rank, p, p, comps, bound);
            && o == Stored(Plain(d, q, value, false), q)
            && Resolve(o.d, rank, p, p, comps, bound) == q && q in o.d && o.d[q].value == value
  {
    var q := Addressed(d, rank, p, p, comps, bound);
    ProperSet(d, rank, p, comps, value, bound);
    ResolveAddressed(d, rank, p, p, comps, bound);
    hide SetAt, Way, Fine, Proper, ExtendsTowards, Addressed, WellFormed, Plain;
    ResolveGrown(d, Plain(d, q, value, false), rank, p, p, comps, bound, q);
  }

  /** From any node: a walk of the same name, which takes links from the top, reads the value back
      if and only if it led to the node addressed before the set. */
  lemma SetReadsBackIff(d: Dir, rank: Rank, p: Path, comps: Path, value: Option<string>, bound: nat,
                        walkRank: Rank, walkBound: nat)
    requires WellFormed(d) && p in d && Way(d, rank, p, p, comps, bound) && Proper(d, rank, p, comps, bound)
    requires var q := Addressed(d, rank, p, p, comps, bound); q in d ==> !d[q].link
    requires Fine(d, walkRank, [], p, comps, walkBound)
    ensures var o, q := SetAt(d, rank, p, p, comps, value, false, bound), Addressed(d, rank, p, p, comps, bound);
            && o == Stored(Plain(d, q, value, false), q) && o.d[q].value == value
            && (Resolve(o.d, walkRank, [], p, comps, walkBound) == q
                <==> Resolve(d, walkRank, [], p, comps, walkBound) == q)
  {
    var q := Addressed(d, rank, p, p, comps, bound);
    ProperSet(d, rank, p, comps, value, bound);
    TopThere(d);
    hide SetAt, Way, Fine, Proper, ExtendsTowards, Addressed, WellFormed, Plain;
    ResolveGrown(d, Plain(d, q, value, false), walkRank, [], p, comps, walkBound, q);
  }

  /** A name that meets no link addresses the path it spells. */
  lemma DirectAddressed(d: Dir, rank: Rank, p: Path, comps: Path, bound: nat)
    requires comps != [] && Direct(d, p, comps)
    ensures Way(d, rank, p, p, comps, bound) && Clean(d, rank, p, p, Parent(comps), bound)
    ensures Addressed(d, rank, p, p, comps, bound) == p + comps
    ensures p + comps in d ==> !d[p + comps].link
  {
    assert comps == Parent(comps) + [Last(comps)];
    assert comps[..|comps|] == comps;
    assert p + Parent(comps) + [Last(comps)] == p + comps;
    forall n | 0 < n <= |Parent(comps)| && p + Parent(comps)[..n] in d
      ensures !d[p + Parent(comps)[..n]].link
    {
      assert Parent(comps)[..n] == comps[..n];
    }
    DirectResolve(d, rank, p, p, Parent(comps), bound);
    DirectClean(d, rank, p, p, Parent(comps), bound);
  }

  lemma {:induction false} DirectClean(d: Dir, rank: Rank, root: Path, p: Path, a: Path, bound: nat)
    requires Direct(d, p, a)
    ensures Clean(d, rank, root, p, a, bound)
    decreases |a|
  {
    if a != [] && p + [a[0]] in d {
      DirectTail(d, p, a);
      DirectClean(d, rank, root, p + [a[0]], a[1..], bound);
    }
  }

  /** From any node: a name that meets no link is read back. */
  lemma SetReadsBackDirect(d: Dir, rank: Rank, p: Path, comps: Path, value: Option<string>, bound: nat,
                           walkRank: Rank, walkBound: nat)
    requires WellFormed(d) && p in d && comps != [] && NoDots(comps) && "" !in comps && Direct(d, p, comps)
    ensures Way(d, rank, p, p, comps, bound)
    ensures var o := SetAt(d, rank, p, p, comps, value, false, bound);
            && o == Stored(Plain(d, p + comps, value, false), p + comps)
            && Resolve(o.d, walkRank, [], p, comps, walkBound) == o.at && o.d[o.at].value == value
  {
    DirectAddressed(d, rank, p, comps, bound);
    DirectResolve(d, walkRank, [], p, comps, walkBound);
    hide Direct, Way, Fine, Clean, Addressed, WellFormed;
    SetReadsBackIff(d, rank, p, comps, value, bound, walkRank, walkBound);
  }

  /** Where a walk of the name leaves what is below the start, nothing is read back. */
  lemma LinkFromBelow(d: Dir, rank: Rank, p: Path, comps: Path, value: Option<string>, bound: nat,
                      walkRank: Rank, walkBound: nat)
    requires WellFormed(d) && p in d && Way(d, rank, p, p, comps, bound) && Proper(d, rank, p, comps, bound)
    requires var q := Addressed(d, rank, p, p, comps, bound); q in d ==> !d[q].link
    requires Fine(d, walkRank, [], p, comps, walkBound) && !(p <= Resolve(d, walkRank, [], p, comps, walkBound))
    ensures var o, q := SetAt(d, rank, p, p, comps, value, false, bound), Addressed(d, rank, p, p, comps, bound);
            && o == Stored(Plain(d, q, value, false), q) && p <= q && o.d[q].value == value
            && Resolve(o.d, walkRank, [], p, comps, walkBound) != q
  {
    hide Fine, Way, Clean, WellFormed, SetAt, Plain;
    SetReadsBackIff(d, rank, p, comps, value, bound, walkRank, walkBound);
  }

  /** A link whose value is the empty name is walked to the root, but no set gets through it. */
  lemma EmptyLinkValue(d: Dir, rank: Rank, p: Path, comps: Path, value: Option<string>, link: bool, bound: nat)
    requires WellFormed(d) && p in d && Way(d, rank, p, p, comps, bound) && |comps| > 1
    requires var q := p + [comps[0]]; q in d && d[q].link && d[q].value == Some("") && rank(q) < bound
    ensures SetAt(d, rank, p, p, comps, value, link, bound) == Rejected(d)
    ensures Resolve(d, rank, p, p, comps, bound) == Resolve(d, rank, p, p, comps[1..], bound)
  {
    var q, rest := p + [comps[0]], comps[1..];
    assert comps[0] != "" by {
      assert InPlace(d, q);
      KidPath(p, comps[0]);
    }
    SetAtStep(d, rank, p, p, comps, value, link, bound);
  }

  // ----- a dataset where the two disagree

  /** b with a link b.l to x. From b the name l.y, and from the link itself the name y, is set below
      b and walked to x.y. */
  lemma BelowWitness(rank: Rank, bound: nat) returns (d: Dir)
    requires rank(["b", "l"]) < bound
    ensures WellFormed(d) && ["b"] in d && !d[["b"]].link && ["b", "l"] in d && d[["b", "l"]] == Entry(Some("x"), true, [])
    ensures forall q :: q in d ==> q == [] || q == ["b"] || q == ["b", "l"]
    ensures Way(d, rank, ["b"], ["b"], ["l", "y"], bound) && Proper(d, rank, ["b"], ["l", "y"], bound)
    ensures Addressed(d, rank, ["b"], ["b"], ["l", "y"], bound) == ["b", "x", "y"]
    ensures Fine(d, rank, [], ["b"], ["l", "y"], bound)
    ensures Resolve(d, rank, [], ["b"], ["l", "y"], bound) == ["x", "y"]
  {
    d := WitnessDir();
    hide WellFormed, Way, Proper, Addressed, Fine, Resolve;
    WitnessWays(d, rank, bound);
  }

  lemma WitnessDir() returns (d: Dir)
    ensures WellFormed(d) && ["b"] in d && !d[["b"]].link && ["b", "l"] in d && d[["b", "l"]] == Entry(Some("x"), true, [])
    ensures forall q :: q in d ==> q == [] || q == ["b"] || q == ["b", "l"]
  {
    hide *;
    NewWellFormed();
    NewKeys();
    assert [] + ["b"] == ["b"] && ["b"] + ["l"] == ["b", "l"];
    var one := KidAdded(NEW_DIR, [], "b", None, false);
    d := KidAdded(one, ["b"], "l", Some("x"), true);
  }

  lemma NewKeys()
    ensures NEW_DIR.Keys == {[]}
  {
  }

  lemma KidAdded(d: Dir, p: Path, c: string, value: Option<string>, link: bool) returns (e: Dir)
    requires WellFormed(d) && p in d && p + [c] !in d && c != "" && '.' !in c && (link ==> value.Some?)
    ensures WellFormed(e) && e.Keys == d.Keys + {p + [c]} && e[p + [c]] == Entry(value, link, [])
    ensures forall r :: r in d ==> e[r].link == d[r].link
  {
    hide WellFormed;
    e := AddKid(d, p, c, value, link);
    AddKidWellFormed(d, p, c, value, link);
    AddKidLookup(d, p, c, value, link);
  }

  lemma WitnessWays(d: Dir, rank: Rank, bound: nat)
    requires forall q :: q in d ==> q == [] || q == ["b"] || q == ["b", "l"]
    requires ["b", "l"] in d && d[["b", "l"]].link && d[["b", "l"]].value == Some("x") && rank(["b", "l"]) < bound
    ensures Way(d, rank, ["b"], ["b"], ["l", "y"], bound) && Proper(d, rank, ["b"], ["l", "y"], bound)
    ensures Addressed(d, rank, ["b"], ["b"], ["l", "y"], bound) == ["b", "x", "y"]
    ensures Fine(d, rank, [], ["b"], ["l", "y"], bound)
    ensures Resolve(d, rank, [], ["b"], ["l", "y"], bound) == ["x", "y"]
  {
    OneComponent();
    hide Components, Steps;
    var low := rank(["b", "l"]);
    assert ["b"] + ["l"] == ["b", "l"] && ["l", "y"][1..] == ["y"] && Parent(["l", "y"]) == ["l"];
    assert ["b"] + ["x"] == ["b", "x"] && [] + ["x"] == ["x"];
    assert ["b", "x"] !in d && ["x"] !in d;
    assert Resolve(d, rank, ["b"], ["b"], ["x"], low) == ["b", "x"];
    assert Resolve(d, rank, [], [], ["x"], low) == ["x"];
    assert Fine(d, rank, ["b"], ["b"], ["x"], low) && Fine(d, rank, [], [], ["x"], low);
    assert Fine(d, rank, ["b"], ["b"], ["l"], bound);
    assert Resolve(d, rank, ["b"], ["b"], ["l"], bound) == ["b", "x"];
    assert Resolve(d, rank, [], ["b"], ["l", "y"], bound) == ["x"] + ["y"];
    assert Clean(d, rank, ["b"], ["b"], ["x"], low);
    assert Clean(d, rank, ["b"], ["b"], ["l"], bound);
  }

  lemma OneComponent()
    ensures Components("x", 0) == ["x"] && Steps("x") == ["x"]
  {
    assert Dot("x", 1) == 1;
    assert Dot("x", 0) == 1;
    assert "x"[0..1] == "x";
  }
}

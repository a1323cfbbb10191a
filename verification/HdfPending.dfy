/** What a set still has to do: the state of its loop, as an invariant. */
module HdfPending {
  import opened Wrappers
  import opened HdfNames
  import opened HdfDir
  import opened HdfLinks
  import opened HdfSets

  ghost predicate Based(d: Dir, base: Path) {
    WellFormed(d) && base in d
  }

  /** A set can start: the links it will cross are ranked, for names that start over at its base. */
  ghost predicate Started(d: Dir, rank: Rank, base: Path, comps: Path, bound: nat) {
    Based(d, base) && Way(d, rank, base, base, comps, bound)
  }

  ghost predicate Ready(d: Dir, rank: Rank, p: Path, name: string, bound: nat) {
    Based(d, p) && (name != "" ==> Way(d, rank, p, p, Components(name, 0), bound))
  }

  lemma StartedBased(d: Dir, rank: Rank, base: Path, comps: Path, bound: nat)
    requires Started(d, rank, base, comps, bound)
    ensures Based(d, base)
  {
  }

  /** With ranked links any name can be set. */
  lemma RankedReady(d: Dir, rank: Rank, p: Path, name: string, bound: nat)
    requires WellFormed(d) && p in d && Ranked(d, rank, p, bound)
    ensures Ready(d, rank, p, name, bound)
  {
    if name != "" {
      RankedWay(d, rank, p, p, Components(name, 0), bound);
    }
  }

  function SetFrom(d: Dir, rank: Rank, base: Path, comps: Path, value: Option<string>, link: bool, bound: nat): (o: Outcome)
    requires Started(d, rank, base, comps, bound)
  {
    SetAt(d, rank, base, base, comps, value, link, bound)
  }

  /** The outcome of a set of a name below p. The empty name stores at p itself, and leaves its
      link mark alone. */
  function SetOutcome(d: Dir, rank: Rank, p: Path, name: string, value: Option<string>, link: bool, bound: nat)
    : (o: Outcome)
    requires Ready(d, rank, p, name, bound)
  {
    if name == "" then Stored(SetEntry(d, p, value, d[p].link), p)
    else SetFrom(d, rank, p, Components(name, 0), value, link, bound)
  }

  /** Setting rest from p in d, where either nothing has been made yet, or p is new, leads from
      d0 to the outcome o. */
  ghost predicate Pending(d0: Dir, d: Dir, rank: Rank, base: Path, p: Path, rest: Path,
                          value: Option<string>, link: bool, bound: nat, o: Outcome, cost: nat)
    requires Based(d0, base)
  {
    && p in d && rest != []
    && ((d == d0 && Way(d0, rank, base, p, rest, bound) && o == SetAt(d0, rank, base, p, rest, value, link, bound)
         && WayCost(d0, rank, base, p, rest, bound) <= cost)
        || (Childless(d, p) && o == Create(d, p, rest, value, link)))
  }

  ghost predicate Childless(d: Dir, p: Path) {
    forall c {:trigger p + [c]} :: p + [c] !in d
  }

  lemma PendingStart(d: Dir, rank: Rank, p: Path, rest: Path, value: Option<string>, link: bool, bound: nat)
    requires Started(d, rank, p, rest, bound)
    ensures Pending(d, d, rank, p, p, rest, value, link, bound,
                    SetFrom(d, rank, p, rest, value, link, bound), WayCost(d, rank, p, p, rest, bound))
  {
  }

  lemma PendingEmpty(d0: Dir, d: Dir, rank: Rank, base: Path, p: Path, rest: Path,
                     value: Option<string>, link: bool, bound: nat, o: Outcome, cost: nat)
    requires Based(d0, base)
    requires Pending(d0, d, rank, base, p, rest, value, link, bound, o, cost) && rest[0] == ""
    ensures o == Rejected(d)
  {
    hide WellFormed, WayCost;
    if d == d0 && Way(d0, rank, base, p, rest, bound) && o == SetAt(d0, rank, base, p, rest, value, link, bound) {
      SetAtStep(d0, rank, base, p, rest, value, link, bound);
    }
  }

  lemma PendingMissing(d0: Dir, d: Dir, rank: Rank, base: Path, p: Path, rest: Path,
                       value: Option<string>, link: bool, bound: nat, o: Outcome, cost: nat)
    requires Based(d0, base)
    requires Pending(d0, d, rank, base, p, rest, value, link, bound, o, cost) && rest[0] != ""
    requires WellFormed(d) && p + [rest[0]] !in d
    ensures o == Create(d, p, rest, value, link)
    ensures |rest| == 1 ==> o == Stored(AddKid(d, p, rest[0], value, link), p + [rest[0]])
    ensures |rest| > 1 ==> Pending(d0, AddKid(d, p, rest[0], None, false), rank, base, p + [rest[0]], rest[1..],
                                   value, link, bound, o, cost)
  {
    if d == d0 && Way(d0, rank, base, p, rest, bound) && o == SetAt(d0, rank, base, p, rest, value, link, bound) {
      hide WellFormed, Create;
      SetAtStep(d0, rank, base, p, rest, value, link, bound);
    }
    ChildlessNew(d, p, rest[0]);
  }

  lemma ChildlessNew(d: Dir, p: Path, c: string)
    requires WellFormed(d) && p in d && p + [c] !in d
    ensures p + [c] in AddKid(d, p, c, None, false) && Childless(AddKid(d, p, c, None, false), p + [c])
  {
    var q := p + [c];
    AddKidLookup(d, p, c, None, false);
    forall k
      ensures q + [k] !in AddKid(d, p, c, None, false)
    {
      assert |q + [k]| == |q| + 1;
      NothingBelow(d, q, q + [k]);
    }
  }

  lemma PendingFound(d0: Dir, d: Dir, rank: Rank, base: Path, p: Path, rest: Path,
                     value: Option<string>, link: bool, bound: nat, o: Outcome, cost: nat)
    requires Based(d0, base)
    requires Pending(d0, d, rank, base, p, rest, value, link, bound, o, cost) && rest[0] != ""
    requires p + [rest[0]] in d
    ensures |rest| == 1 ==> o == Stored(SetEntry(d, p + [rest[0]], value, link), p + [rest[0]])
    ensures |rest| > 1 && !d[p + [rest[0]]].link ==>
      Pending(d0, d, rank, base, p + [rest[0]], rest[1..], value, link, bound, o, cost)
    ensures |rest| > 1 && d[p + [rest[0]]].link ==>
      && d == d0 && d[p + [rest[0]]].value.Some?
      && var pasted := Components(d[p + [rest[0]]].value.value, 0) + rest[1..];
         && Started(d0, rank, base, pasted, bound)
         && o == SetFrom(d0, rank, base, pasted, value, link, bound)
         && WayCost(d0, rank, base, base, pasted, bound) < cost
  {
    var q := p + [rest[0]];
    assert !Childless(d, p);
    hide WellFormed, Create, Childless, WayCost, Way;
    SetAtStep(d0, rank, base, p, rest, value, link, bound);
    assert d == d0;
    if |rest| > 1 {
      WayStep(d0, rank, base, p, rest, bound);
      if d[q].link {
        PendingLink(d0, rank, base, p, rest, value, link, bound);
      }
    }
  }

  /** A link on the way: the set starts over, also when that leads nowhere. */
  lemma PendingLink(d: Dir, rank: Rank, base: Path, p: Path, rest: Path, value: Option<string>, link: bool, bound: nat)
    requires Based(d, base) && p in d && Way(d, rank, base, p, rest, bound) && |rest| > 1 && rest[0] != ""
    requires p + [rest[0]] in d && d[p + [rest[0]]].link
    ensures d[p + [rest[0]]].value.Some?
    ensures var pasted := Components(d[p + [rest[0]]].value.value, 0) + rest[1..];
            && Started(d, rank, base, pasted, bound)
            && SetAt(d, rank, base, p, rest, value, link, bound) == SetFrom(d, rank, base, pasted, value, link, bound)
            && WayCost(d, rank, base, base, pasted, bound) < WayCost(d, rank, base, p, rest, bound)
  {
    var q := p + [rest[0]];
    WayStep(d, rank, base, p, rest, bound);
    SetAtStep(d, rank, base, p, rest, value, link, bound);
    if d[q].value.value == "" {
      EmptyName();
      var pasted := Components("", 0) + rest[1..];
      assert pasted[0] == "";
      NothingUnnamed(d, base);
      NoWay(d, rank, base, base, pasted, bound);
      SomeCost(d, rank, base, p, rest, bound);
      hide WellFormed, Way, WayCost;
      SetAtStep(d, rank, base, base, pasted, value, link, bound);
    }
  }

  lemma NothingUnnamed(d: Dir, p: Path)
    requires WellFormed(d)
    ensures p + [""] !in d
  {
    assert p + [""] in d ==> InPlace(d, p + [""]);
    KidPath(p, "");
  }

  lemma NoWay(d: Dir, rank: Rank, root: Path, p: Path, comps: Path, bound: nat)
    requires comps != [] && p + [comps[0]] !in d
    ensures Way(d, rank, root, p, comps, bound) && WayCost(d, rank, root, p, comps, bound) == 0
  {
  }

  lemma SomeCost(d: Dir, rank: Rank, root: Path, p: Path, comps: Path, bound: nat)
    requires |comps| > 1 && p + [comps[0]] in d
    ensures WayCost(d, rank, root, p, comps, bound) > 0
  {
  }

  /** A name from a position on, and the same text by itself. */
  lemma SuffixComponents(name: string, d: nat)
    requires d < |name| && name[d] == '.'
    ensures Components(name, d + 1) == Components(name[d + 1..], 0)
  {
    hide Components;
    var v, rest := name[..d], name[d + 1..];
    assert name == v + "." + rest;
    PastedTail(v, rest, 0);
  }

  /** The name a set starts over with. */
  lemma RestartName(v: string, name: string, d: nat)
    requires d < |name| && name[d] == '.'
    ensures Components(Paste(v, name, d), 0) == Components(v, 0) + Components(name, d + 1)
  {
    hide Components;
    SuffixComponents(name, d);
    assert v + name[d..] == v + "." + name[d + 1..];
    PastedComponents(v, 0, name[d + 1..]);
  }

  // ----- the same, for the component of a name between n and d

  lemma NameMissing(d0: Dir, d: Dir, e: Dir, rank: Rank, base: Path, p: Path, name: string, n: nat, dot: nat, q: Path,
                    value: Option<string>, link: bool, bound: nat, o: Outcome, cost: nat)
    requires Based(d0, base)
    requires n < dot <= |name| && dot == Dot(name, n) && q == p + [name[n..dot]]
    requires Pending(d0, d, rank, base, p, Components(name, n), value, link, bound, o, cost)
    requires WellFormed(d) && p in d && q !in d
    requires e == AddKid(d, p, name[n..dot], if dot == |name| then value else None, dot == |name| && link)
    ensures dot == |name| ==> o == Stored(e, q)
    ensures dot < |name| ==> Pending(d0, e, rank, base, q, Components(name, dot + 1), value, link, bound, o, cost)
  {
    hide Based, WellFormed, AddKid, Pending, Components, Dot;
    ComponentsParts(name, n);
    NotEmptyPart(name, n);
    PendingMissing(d0, d, rank, base, p, Components(name, n), value, link, bound, o, cost);
  }

  lemma NameFound(d0: Dir, d: Dir, rank: Rank, base: Path, p: Path, name: string, n: nat, dot: nat, q: Path,
                  value: Option<string>, link: bool, bound: nat, o: Outcome, cost: nat)
    requires Based(d0, base)
    requires n < dot <= |name| && dot == Dot(name, n) && q == p + [name[n..dot]]
    requires Pending(d0, d, rank, base, p, Components(name, n), value, link, bound, o, cost)
    requires q in d
    ensures dot == |name| ==> o == Stored(SetEntry(d, q, value, link), q)
    ensures dot < |name| && !d[q].link ==> Pending(d0, d, rank, base, q, Components(name, dot + 1), value, link, bound, o, cost)
    ensures dot < |name| && d[q].link ==>
      && d == d0 && d[q].value.Some?
      && var pasted := Components(Paste(d[q].value.value, name, dot), 0);
         && Started(d0, rank, base, pasted, bound)
         && o == SetFrom(d0, rank, base, pasted, value, link, bound)
         && WayCost(d0, rank, base, base, pasted, bound) < cost
  {
    hide WellFormed, SetEntry, Pending, Components, Dot;
    ComponentsParts(name, n);
    NotEmptyPart(name, n);
    PendingFound(d0, d, rank, base, p, Components(name, n), value, link, bound, o, cost);
    if dot < |name| && d[q].link {
      RestartName(d[q].value.value, name, dot);
    }
  }
}

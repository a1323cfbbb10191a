/** Sets and gets by name: what one stores the other finds. */
module HdfReadBack {
  import opened Wrappers
  import opened HdfNames
  import opened HdfDir
  import opened HdfLinks
  import opened HdfSets
  import opened HdfPending
  import opened HdfWalk

  /** The name has no empty component, and neither has the value of a link crossed on its way. */
  ghost predicate Settable(d: Dir, rank: Rank, p: Path, name: string, bound: nat) {
    name != "" ==> Proper(d, rank, p, Components(name, 0), bound)
  }

  /** Exactly the settable names are accepted. */
  lemma SetAccepted(d: Dir, rank: Rank, p: Path, name: string, value: Option<string>, link: bool, bound: nat)
    requires Ready(d, rank, p, name, bound)
    ensures SetOutcome(d, rank, p, name, value, link, bound).Stored? <==> Settable(d, rank, p, name, bound)
  {
    if name != "" {
      ComponentsHaveNoDots(name, 0);
      SetAcceptsIff(d, rank, p, p, Components(name, 0), value, link, bound);
    }
  }

  /** The node a set of a name addresses. */
  function Target(d: Dir, rank: Rank, p: Path, name: string, bound: nat): Path {
    if name == "" || Components(name, 0) == [] then p else Addressed(d, rank, p, p, Components(name, 0), bound)
  }

  /** From any node, itself a link or not: a walk of a settable name reads the value back if and only
      if it led to the node addressed before the set. */
  lemma SetThenWalkIff(d: Dir, rank: Rank, p: Path, name: string, value: Option<string>, bound: nat,
                       walkRank: Rank, walkBound: nat)
    requires Ready(d, rank, p, name, bound) && Settable(d, rank, p, name, bound) && name != ""
    requires var q := Target(d, rank, p, name, bound); q in d ==> !d[q].link
    requires WalkFine(d, walkRank, p, name, walkBound)
    ensures var o, q := SetOutcome(d, rank, p, name, value, false, bound), Target(d, rank, p, name, bound);
            && o == Stored(Plain(d, q, value, false), q) && q in o.d && o.d[q].value == value && p in o.d
            && (WalkEnd(o.d, walkRank, p, name, walkBound) == q <==> WalkEnd(d, walkRank, p, name, walkBound) == q)
  {
    var q := Target(d, rank, p, name, bound);
    ProperSet(d, rank, p, Components(name, 0), value, bound);
    WalkGrown(d, Plain(d, q, value, false), walkRank, p, name, walkBound, q);
  }

  /** A walk ends where it ended while the dataset grows. */
  lemma WalkGrown(d: Dir, e: Dir, rank: Rank, p: Path, name: string, bound: nat, g: Path)
    requires WellFormed(d) && p in d && ExtendsTowards(d, e, g) && WalkFine(d, rank, p, name, bound)
    ensures p in e && WalkEnd(e, rank, p, name, bound) == WalkEnd(d, rank, p, name, bound)
  {
    TopThere(d);
    hide WellFormed, Components, Steps;
    if name != "" {
      var comps := Components(name, 0);
      if d[p].link {
        var v := Steps(d[p].value.value);
        ResolveGrown(d, e, rank, [], [], v, rank(p), g);
        var t := Resolve(d, rank, [], [], v, rank(p));
        if t in d {
          ResolveGrown(d, e, rank, [], t, comps, bound, g);
        } else {
          GrownBeyond(d, e, rank, [], t, comps, bound, g);
        }
      } else {
        ResolveGrown(d, e, rank, [], p, comps, bound, g);
      }
    }
  }

  /** From the top, through any links: a settable name is stored, and a walk of the same name finds
      the value, unless the node addressed is itself a link. */
  lemma SetThenWalk(d: Dir, rank: Rank, name: string, value: Option<string>, bound: nat)
    requires Ready(d, rank, [], name, bound) && Settable(d, rank, [], name, bound)
    requires var q := Target(d, rank, [], name, bound); q in d ==> !d[q].link
    ensures var o, q := SetOutcome(d, rank, [], name, value, false, bound), Target(d, rank, [], name, bound);
            && o == Stored(Plain(d, q, value, false), q)
            && [] in o.d && WalkEnd(o.d, rank, [], name, bound) == q && q in o.d && o.d[q].value == value
  {
    if name == "" {
      PlainExisting(d, [], value, false);
    } else {
      ResolveAddressed(d, rank, [], [], Components(name, 0), bound);
      SetThenWalkIff(d, rank, [], name, value, bound, rank, bound);
    }
  }

  /** From any node that is not a link, by a name that meets no link. */
  lemma SetThenWalkDirect(d: Dir, rank: Rank, p: Path, name: string, value: Option<string>, bound: nat,
                          walkRank: Rank, walkBound: nat)
    requires WellFormed(d) && p in d && !d[p].link && name != ""
    requires "" !in Components(name, 0) && Direct(d, p, Components(name, 0))
    ensures Ready(d, rank, p, name, bound)
    ensures var o, q := SetOutcome(d, rank, p, name, value, false, bound), p + Components(name, 0);
            && o == Stored(Plain(d, q, value, false), q)
            && p in o.d && WalkEnd(o.d, walkRank, p, name, walkBound) == q && q in o.d && o.d[q].value == value
  {
    var comps := Components(name, 0);
    ComponentsHaveNoDots(name, 0);
    assert comps != [];
    DirectAddressed(d, rank, p, comps, bound);
    DirectResolve(d, walkRank, [], p, comps, walkBound);
    hide Direct, Way, Fine, Clean, Addressed, WellFormed, Components;
    SetThenWalkIff(d, rank, p, name, value, bound, walkRank, walkBound);
  }

  /** Where the walk of a name, the start's own link included, leaves what is below the start, a set
      of the name is not read back. */
  lemma SetThenWalkAway(d: Dir, rank: Rank, p: Path, name: string, value: Option<string>, bound: nat,
                        walkRank: Rank, walkBound: nat)
    requires Ready(d, rank, p, name, bound) && Settable(d, rank, p, name, bound) && name != ""
    requires var q := Target(d, rank, p, name, bound); q in d ==> !d[q].link
    requires WalkFine(d, walkRank, p, name, walkBound) && !(p <= WalkEnd(d, walkRank, p, name, walkBound))
    ensures var o, q := SetOutcome(d, rank, p, name, value, false, bound), Target(d, rank, p, name, bound);
            && o == Stored(Plain(d, q, value, false), q) && q in o.d && p in o.d
            && WalkEnd(o.d, walkRank, p, name, walkBound) != q
  {
    hide Ready, Settable, WalkFine, WalkEnd, SetOutcome, Plain;
    SetThenWalkIff(d, rank, p, name, value, bound, walkRank, walkBound);
  }

  /** Both ways of not reading back, in one dataset: from b, whose link b.l leads to x, by the name
      l.y, and from that link itself, by the name y. */
  lemma AwayWitness(rank: Rank, bound: nat, value: Option<string>) returns (d: Dir)
    requires rank(["b", "l"]) < bound
    ensures ["b"] in d && ["b", "l"] in d && d[["b", "l"]].link
    ensures Ready(d, rank, ["b"], "l.y", bound) && Ready(d, rank, ["b", "l"], "y", bound)
    ensures var o := SetOutcome(d, rank, ["b"], "l.y", value, false, bound);
            o.Stored? && ["b"] in o.d && WalkEnd(o.d, rank, ["b"], "l.y", bound) != o.at
    ensures var o := SetOutcome(d, rank, ["b", "l"], "y", value, false, bound);
            o.Stored? && ["b", "l"] in o.d && WalkEnd(o.d, rank, ["b", "l"], "y", bound) != o.at
  {
    hide *;
    d := BelowWitness(rank, bound);
    WitnessNames();
    FromNode(d, rank, bound);
    FromLink(d, rank, bound);
    assert "b"[0] != "x"[0];
    assert ["b"][0] != ["x", "y"][0] && ["b", "l"][0] != ["x", "y"][0];
    SetThenWalkAway(d, rank, ["b"], "l.y", value, bound, rank, bound);
    SetThenWalkAway(d, rank, ["b", "l"], "y", value, bound, rank, bound);
  }

  lemma FromNode(d: Dir, rank: Rank, bound: nat)
    requires WellFormed(d) && ["b"] in d && !d[["b"]].link && Components("l.y", 0) == ["l", "y"]
    requires Way(d, rank, ["b"], ["b"], ["l", "y"], bound) && Proper(d, rank, ["b"], ["l", "y"], bound)
    requires Addressed(d, rank, ["b"], ["b"], ["l", "y"], bound) == ["b", "x", "y"]
    requires Fine(d, rank, [], ["b"], ["l", "y"], bound) && Resolve(d, rank, [], ["b"], ["l", "y"], bound) == ["x", "y"]
    ensures Ready(d, rank, ["b"], "l.y", bound) && Settable(d, rank, ["b"], "l.y", bound)
    ensures Target(d, rank, ["b"], "l.y", bound) == ["b", "x", "y"]
    ensures WalkFine(d, rank, ["b"], "l.y", bound) && WalkEnd(d, rank, ["b"], "l.y", bound) == ["x", "y"]
  {
    hide WellFormed, Way, Proper, Addressed, Fine, Resolve, Components;
  }

  lemma WitnessNames()
    ensures Components("l.y", 0) == ["l", "y"] && Components("y", 0) == ["y"] && Steps("x") == ["x"]
  {
    OneComponent();
    assert Dot("y", 1) == 1 && Dot("l.y", 1) == 1 && Dot("l.y", 3) == 3;
    assert Dot("y", 0) == 1 && Dot("l.y", 0) == 1 && Dot("l.y", 2) == 3;
    assert "l.y"[0..1] == "l" && "l.y"[2..3] == "y" && "y"[0..1] == "y";
    assert Components("l.y", 2) == ["y"];
  }

  lemma FromLink(d: Dir, rank: Rank, bound: nat)
    requires WellFormed(d) && rank(["b", "l"]) < bound
    requires ["b", "l"] in d && d[["b", "l"]].link && d[["b", "l"]].value == Some("x")
    requires forall q :: q in d ==> q == [] || q == ["b"] || q == ["b", "l"]
    requires Components("y", 0) == ["y"] && Steps("x") == ["x"]
    ensures Ready(d, rank, ["b", "l"], "y", bound) && Settable(d, rank, ["b", "l"], "y", bound)
    ensures Target(d, rank, ["b", "l"], "y", bound) == ["b", "l", "y"]
    ensures WalkFine(d, rank, ["b", "l"], "y", bound) && WalkEnd(d, rank, ["b", "l"], "y", bound) == ["x", "y"]
  {
    hide Components, Steps, WellFormed;
    assert Parent(["y"]) == [] && ["b", "l"] + ["y"] == ["b", "l", "y"];
    assert [] + ["x"] == ["x"] && ["x"] !in d && ["x"] + ["y"] == ["x", "y"];
    assert Resolve(d, rank, [], [], ["x"], rank(["b", "l"])) == ["x"];
    assert Fine(d, rank, [], [], ["x"], rank(["b", "l"]));
  }
}

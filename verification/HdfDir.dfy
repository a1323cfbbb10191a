/** A dataset as a finite map from paths to entries: what its nodes mean, without the pointers. */
module HdfDir {
  import opened Wrappers
  import opened HdfNames

  datatype Entry = Entry(value: Option<string>, link: bool, kids: seq<string>)

  type Dir = map<Path, Entry>

  function Parent(q: Path): (p: Path)
    requires q != []
  {
    q[..|q| - 1]
  }

  function Last(q: Path): (c: string)
    requires q != []
  {
    q[|q| - 1]
  }

  /** The path that a name's components lead to from p, links aside. */
  function Below(p: Path, comps: Path): Path {
    p + comps
  }

  lemma BelowStep(p: Path, name: string, n: nat)
    requires n <= |name|
    ensures p + [Part(name, n)] <= Below(p, Components(name, n))
    ensures Below(p, Components(name, n)) ==
      if Dot(name, n) == |name| then p + [Part(name, n)] else Below(p + [Part(name, n)], Components(name, Dot(name, n) + 1))
  {
    ComponentsParts(name, n);
    var comps := Components(name, n);
    hide Components, Dot;
    assert comps == [comps[0]] + comps[1..];
    assert p + comps == p + [comps[0]] + comps[1..];
  }

  ghost predicate NoDuplicates(names: seq<string>) {
    forall i, j :: 0 <= i < j < |names| ==> names[i] != names[j]
  }

  ghost predicate InPlace(d: Dir, q: Path) {
    q != [] ==> GoodName(Last(q)) && Parent(q) in d && Last(q) in d[Parent(q)].kids
  }

  /** Every path but the empty one hangs off its parent, under a name no sibling has. */
  ghost predicate WellFormed(d: Dir) {
    && [] in d && !d[[]].link
    && (forall p, c :: p in d && c in d[p].kids ==> p + [c] in d)
    && (forall q {:trigger InPlace(d, q)} :: q in d ==> InPlace(d, q))
    && (forall p :: p in d ==> NoDuplicates(d[p].kids))
    && (forall p :: p in d && d[p].link ==> d[p].value.Some?)
  }

  lemma NoDuplicatesSnoc(names: seq<string>, c: string)
    requires NoDuplicates(names) && c !in names
    ensures NoDuplicates(names + [c]) && NoDuplicates([])
  {
  }

  lemma KidPath(p: Path, c: string)
    ensures p + [c] != [] && Parent(p + [c]) == p && Last(p + [c]) == c
  {
  }

  function AddKid(d: Dir, p: Path, c: string, value: Option<string>, link: bool): (d': Dir)
    requires p in d
  {
    d[p := d[p].(kids := d[p].kids + [c])][p + [c] := Entry(value, link, [])]
  }

  function SetEntry(d: Dir, q: Path, value: Option<string>, link: bool): (d': Dir)
    requires q in d
  {
    d[q := d[q].(value := value, link := link)]
  }

  lemma AddKidLookup(d: Dir, p: Path, c: string, value: Option<string>, link: bool)
    requires p in d
    ensures var d' := AddKid(d, p, c, value, link);
            && d'.Keys == d.Keys + {p + [c]}
            && d'[p + [c]] == Entry(value, link, [])
            && d'[p] == d[p].(kids := d[p].kids + [c])
            && forall r {:trigger d'[r]} :: r in d && r != p && r != p + [c] ==> d'[r] == d[r]
  {
    KidPath(p, c);
    assert |p + [c]| != |p|;
  }

  lemma AddKidWellFormed(d: Dir, p: Path, c: string, value: Option<string>, link: bool)
    requires WellFormed(d) && p in d && p + [c] !in d && GoodName(c) && (link ==> value.Some?)
    ensures WellFormed(AddKid(d, p, c, value, link))
  {
    hide NoDuplicates, GoodName, AddKid;
    var d' := AddKid(d, p, c, value, link);
    AddKidLookup(d, p, c, value, link);
    KidPath(p, c);
    assert c !in d[p].kids;
    NoDuplicatesSnoc(d[p].kids, c);
    forall r, k | r in d' && k in d'[r].kids
      ensures r + [k] in d'
    {
      if r in d {
        assert r == p && k != c ==> k in d[p].kids;
      }
    }
    forall q | q in d'
      ensures InPlace(d', q)
    {
      assert q in d ==> InPlace(d, q);
    }
    forall q | q in d'
      ensures NoDuplicates(d'[q].kids) && (d'[q].link ==> d'[q].value.Some?)
    {
      if q in d {
        assert q == p || d'[q] == d[q];
      }
    }
    assert [] in d' && !d'[[]].link;
    hide InPlace;
  }

  /** What `hdf_init` makes. */
  const NEW_DIR: Dir := map[[] := Entry(None, false, [])]

  lemma NewWellFormed()
    ensures WellFormed(NEW_DIR)
  {
  }

  lemma SetEntryWellFormed(d: Dir, q: Path, value: Option<string>, link: bool)
    requires WellFormed(d) && q in d && (link ==> value.Some? && q != [])
    ensures WellFormed(SetEntry(d, q, value, link))
  {
    var d' := SetEntry(d, q, value, link);
    forall r | r in d'
      ensures InPlace(d', r)
    {
      assert InPlace(d, r);
    }
  }

  // ----- sets on absent paths

  datatype Outcome = Stored(d: Dir, at: Path) | Rejected(d: Dir)

  /** What a set does once it has left the existing tree: one node per component, appended to
      its level, value-less but for the last; an empty component stops it. */
  function Create(d: Dir, p: Path, comps: Path, value: Option<string>, link: bool): (o: Outcome)
    requires p in d && comps != []
    decreases |comps|
  {
    if comps[0] == "" then Rejected(d)
    else if |comps| == 1 then Stored(AddKid(d, p, comps[0], value, link), p + [comps[0]])
    else Create(AddKid(d, p, comps[0], None, false), p + [comps[0]], comps[1..], value, link)
  }

  /** Make a path exist: every missing node of it, value-less, at the end of its level. */
  function Touch(d: Dir, q: Path): (d': Dir)
    requires [] in d
    ensures q in d' && forall r :: r in d ==> r in d'
    decreases |q|
  {
    if q in d then d else
      assert Parent(q) + [Last(q)] == q;
      AddKid(Touch(d, Parent(q)), Parent(q), Last(q), None, false)
  }

  /** The outcome of a set, in one formula. */
  function Plain(d: Dir, q: Path, value: Option<string>, link: bool): (d': Dir)
    requires [] in d
  {
    SetEntry(Touch(d, q), q, value, link)
  }

  /** One more missing component. */
  lemma TouchStepWellFormed(d: Dir, q: Path)
    requires [] in d && q !in d && GoodName(Last(q)) && WellFormed(Touch(d, Parent(q)))
    ensures WellFormed(Touch(d, q))
  {
    hide WellFormed;
    assert Parent(q) + [Last(q)] == q;
    TouchAbsent(d, Parent(q), q);
    AddKidWellFormed(Touch(d, Parent(q)), Parent(q), Last(q), None, false);
  }

  /** Making a path exist adds nothing beyond it. */
  lemma {:induction false} TouchAbsent(d: Dir, p: Path, q: Path)
    requires [] in d && q !in d && |q| > |p|
    ensures q !in Touch(d, p)
    decreases |p|
  {
    if p !in d {
      TouchAbsent(d, Parent(p), q);
      AddKidLookup(Touch(d, Parent(p)), Parent(p), Last(p), None, false);
      assert Parent(p) + [Last(p)] == p;
    }
  }

  /** A missing path has nothing below it. */
  lemma {:induction false} NothingBelow(d: Dir, p: Path, q: Path)
    requires WellFormed(d) && p !in d && p <= q
    ensures q !in d
    decreases |q|
  {
    if p != q && q in d {
      assert InPlace(d, q) && p <= Parent(q);
      NothingBelow(d, p, Parent(q));
      assert false;
    }
  }

  /** What an entry becomes when the path q is made to exist: existing values stay; the deepest
      existing node of q gets the next one appended; new nodes are value-less. */
  function Touched(d: Dir, q: Path, r: Path): (e: Entry)
    requires r in d || r <= q
  {
    var next := if r < q && r + [q[|r|]] !in d then [q[|r|]] else [];
    if r in d then d[r].(kids := d[r].kids + next) else Entry(None, false, next)
  }

  lemma {:induction false} TouchLookup(d: Dir, q: Path, r: Path)
    requires WellFormed(d)
    ensures r in Touch(d, q) <==> r in d || r <= q
    ensures r in d || r <= q ==> Touch(d, q)[r] == Touched(d, q, r)
    decreases |q|
  {
    hide Touch, Touched, WellFormed;
    if q in d {
      TouchExisting(d, q, r);
    } else {
      assert [] in d by {
        TopThere(d);
      }
      var p := Parent(q);
      TouchLookup(d, p, r);
      TouchLookup(d, p, p);
      TouchMissing(d, q, r);
      PrefixOfSnoc(q, r);
      if r in d || r <= q {
        TouchedStep(d, q, r);
      }
    }
  }

  lemma TopThere(d: Dir)
    requires WellFormed(d)
    ensures [] in d
  {
  }

  lemma PrefixOfSnoc(q: Path, r: Path)
    requires q != []
    ensures r <= q <==> r <= Parent(q) || r == q
  {
    assert Parent(q) + [Last(q)] == q;
  }

  lemma TouchExisting(d: Dir, q: Path, r: Path)
    requires WellFormed(d) && q in d
    ensures [] in d && Touch(d, q) == d && (r <= q ==> r in d)
    ensures r in d ==> Touched(d, q, r) == d[r]
  {
    if r <= q {
      PrefixesExist(d, q, r);
    }
    if r < q {
      PrefixesExist(d, q, r + [q[|r|]]);
    }
  }

  /** The last step of making a path exist: its parent's level gets one more name. */
  lemma TouchMissing(d: Dir, q: Path, r: Path)
    requires [] in d && q !in d
    ensures var e, f, p := Touch(d, Parent(q)), Touch(d, q), Parent(q);
            && (r in f <==> r in e || r == q)
            && f[q] == Entry(None, false, [])
            && p in f && f[p] == e[p].(kids := e[p].kids + [Last(q)])
            && (r in e && r != p && r != q ==> f[r] == e[r])
  {
    assert Parent(q) + [Last(q)] == q;
    AddKidLookup(Touch(d, Parent(q)), Parent(q), Last(q), None, false);
    hide AddKid;
  }

  /** How one more missing component changes what touching a path makes of an entry. */
  lemma TouchedStep(d: Dir, q: Path, r: Path)
    requires q != [] && q !in d && (r in d || r <= q)
    ensures Touched(d, q, q) == Entry(None, false, [])
    ensures r == Parent(q) ==> Touched(d, q, r) == Touched(d, r, r).(kids := Touched(d, r, r).kids + [Last(q)])
    ensures r != q && r != Parent(q) ==> (r in d || r <= Parent(q)) && Touched(d, q, r) == Touched(d, Parent(q), r)
  {
    var p := Parent(q);
    assert p + [Last(q)] == q;
    assert r <= q <==> r <= p || r == q;
    if r < p {
      assert q[|r|] == p[|r|];
    }
  }

  lemma {:induction false} PrefixesExist(d: Dir, q: Path, r: Path)
    requires WellFormed(d) && q in d && r <= q
    ensures r in d
    decreases |q|
  {
    if r != q {
      assert InPlace(d, q) && r <= Parent(q);
      PrefixesExist(d, Parent(q), r);
    }
  }

  /** A set below existing nodes, node by node, makes the path exist and writes its end. */
  lemma {:induction false} CreateIsPlain(d: Dir, p: Path, comps: Path, value: Option<string>, link: bool)
    requires WellFormed(d) && p in d && comps != [] && GoodPath(comps) && p + [comps[0]] !in d
    ensures Create(d, p, comps, value, link) == Stored(Plain(d, p + comps, value, link), p + comps)
    decreases |comps|
  {
    hide AddKid, Touch, WellFormed, Plain, GoodName;
    var c, q := comps[0], p + [comps[0]];
    GoodRest(comps);
    if |comps| == 1 {
      assert p + comps == q;
      CreateOne(d, p, c, value, link);
    } else {
      var d1 := AddKid(d, p, c, None, false);
      AddKidWellFormed(d, p, c, None, false);
      AddKidLookup(d, p, c, None, false);
      assert q + comps[1..] == p + comps;
      NothingBelow(d, q, q + [comps[1]]);
      assert d1.Keys == d.Keys + {q};
      CreateIsPlain(d1, q, comps[1..], value, link);
      PlainThrough(d, p, c, p + comps, value, link);
    }
  }

  lemma PlainThrough(d: Dir, p: Path, c: string, q: Path, value: Option<string>, link: bool)
    requires WellFormed(d) && p in d && p + [c] !in d && p + [c] <= q
    ensures [] in AddKid(d, p, c, None, false)
    ensures Plain(AddKid(d, p, c, None, false), q, value, link) == Plain(d, q, value, link)
  {
    TouchThrough(d, p, c, q);
  }

  /** Only an empty component stops the creation. */
  lemma {:induction false} CreateAccepts(d: Dir, p: Path, comps: Path, value: Option<string>, link: bool)
    requires p in d && comps != []
    ensures Create(d, p, comps, value, link).Stored? <==> "" !in comps
    decreases |comps|
  {
    if comps[0] != "" && |comps| > 1 {
      CreateAccepts(AddKid(d, p, comps[0], None, false), p + [comps[0]], comps[1..], value, link);
      assert comps == [comps[0]] + comps[1..];
    }
  }

  lemma GoodRest(comps: Path)
    requires comps != [] && GoodPath(comps)
    ensures GoodName(comps[0]) && comps[0] != "" && GoodPath(comps[1..])
  {
  }

  lemma CreateOne(d: Dir, p: Path, c: string, value: Option<string>, link: bool)
    requires WellFormed(d) && p in d && p + [c] !in d
    ensures Plain(d, p + [c], value, link) == AddKid(d, p, c, value, link)
  {
    var q := p + [c];
    KidPath(p, c);
    AddKidLookup(d, p, c, None, false);
    AddKidLookup(d, p, c, value, link);
    assert Touch(d, q) == AddKid(d, p, c, None, false);
    hide AddKid, Touch;
    var a, b := Plain(d, q, value, link), AddKid(d, p, c, value, link);
    assert a.Keys == b.Keys;
    assert forall r :: r in a ==> a[r] == b[r];
  }

  lemma {:induction false} TouchThrough(d: Dir, p: Path, c: string, q: Path)
    requires WellFormed(d) && p in d && p + [c] !in d && p + [c] <= q
    ensures Touch(d, q) == Touch(AddKid(d, p, c, None, false), q)
    decreases |q|
  {
    var k, d1 := p + [c], AddKid(d, p, c, None, false);
    KidPath(p, c);
    NothingBelow(d, k, q);
    AddKidLookup(d, p, c, None, false);
    if q != k {
      assert k <= Parent(q);
      TouchThrough(d, p, c, Parent(q));
    }
  }
}

/** Templates over a dataset: what `each` prints of the children of a node, and what a name shows
    after it was assigned to. */
module CsTemplates {
  import opened Wrappers
  import opened HdfNames
  import opened HdfDir
  import opened HdfLinks
  import opened HdfSets
  import opened HdfPending
  import opened HdfWalk
  import opened HdfReadBack
  import opened CsDataset
  import opened CsCaching
  import opened CsOutput
  import opened CsRounds
  import CsScope
  import CsRender
  import CsBodies

  /** The paths of the children of p, in the order of their list. */
  function KidPaths(d: Dir, p: Path): (kids: seq<Path>)
    requires p in d
    ensures |kids| == |d[p].kids| && forall i {:trigger kids[i]} :: 0 <= i < |kids| ==> kids[i] == p + [d[p].kids[i]]
  {
    seq(|d[p].kids|, i requires 0 <= i < |d[p].kids| => p + [d[p].kids[i]])
  }

  /** The values of some children of p: their own, or those their links lead to. */
  ghost function KidValues(d: Dir, rank: Rank, p: Path, names: seq<string>): string
    requires [] in d && forall c :: c in names ==> p + [c] in d && (d[p + [c]].link ==> d[p + [c]].value.Some?)
  {
    if names == [] then ""
    else
      var q := p + [names[0]];
      var g := if d[q].link then LinkTarget(d, rank, q) else q;
      OrNothing(if g in d then d[g].value else None) + KidValues(d, rank, p, names[1..])
  }

  /** In a template over a dataset, `each` with a body that shows its variable prints the values of the
      children of the node, or of the node its link leads to, in the order of their list. */
  lemma DatasetEach(rank: Rank, bound: nat, show: int -> string, num: string -> int, truth: string -> bool,
                    macros: CsScope.Macros, w: CsScope.World, name: string, x: string, p: Path, t: Path, fuel: nat)
    requires Sound(w.hdf, rank, bound) && p in w.hdf && '.' !in name
    requires (t == if w.hdf[p].link then LinkTarget(w.hdf, rank, p) else p) && t in w.hdf && |w.hdf[t].kids| <= fuel
    requires var env := DatasetEnv(rank, bound, show, num, truth);
             Alike(env, w, w) && CsScope.VarObj(env, w, x) == Some(p)
    ensures var env := DatasetEnv(rank, bound, show, num, truth);
            && KidsThere(w.hdf, t)
            && AlikeEnd(env, CsRender.RenderEach(env, macros, w, name, CsScope.Ref(x), CsScope.Show(CsScope.Ref(name), CsScope.End), fuel),
                        (Adding(w, KidValues(w.hdf, rank, t, w.hdf[t].kids)), CsScope.Fine))
  {
    hide WellFormed, Ranked, KidValues, Values, Alike, CsScope.VarObj, CsRender.RenderEach, LinkTarget;
    var env := DatasetEnv(rank, bound, show, num, truth);
    var kids := KidPaths(w.hdf, t);
    KidsAreThere(w.hdf, t);
    assert Children(env, w.hdf, p, kids);
    EachShows(env, macros, w, name, x, p, kids, fuel);
    KidValuesAre(rank, bound, show, num, truth, w.hdf, t, w.hdf[t].kids, kids);
  }

  ghost predicate KidsThere(d: Dir, p: Path) {
    && [] in d && p in d
    && forall c :: c in d[p].kids ==> p + [c] in d && (d[p + [c]].link ==> d[p + [c]].value.Some?)
  }

  lemma KidsAreThere(d: Dir, p: Path)
    requires WellFormed(d) && p in d
    ensures KidsThere(d, p)
  {
  }

  lemma {:induction false} KidValuesAre(rank: Rank, bound: nat, show: int -> string, num: string -> int, truth: string -> bool,
                                        d: Dir, p: Path, names: seq<string>, kids: seq<Path>)
    requires Sound(d, rank, bound) && KidsThere(d, p) && |kids| == |names|
    requires forall c :: c in names ==> c in d[p].kids
    requires forall i {:trigger kids[i]} :: 0 <= i < |kids| ==> kids[i] == p + [names[i]]
    ensures Values(DatasetEnv(rank, bound, show, num, truth), d, kids) == KidValues(d, rank, p, names)
    decreases |names|
  {
    hide WellFormed, Ranked, LinkTarget;
    if names != [] {
      KidValuesAre(rank, bound, show, num, truth, d, p, names[1..], kids[1..]);
    }
  }

  /** After an assignment to a name that is not local, by a name of the dataset from the top, through
      any links, the name has the value assigned; the dataset is as sound as before. */
  lemma DatasetSet(rank: Rank, bound: nat, show: int -> string, num: string -> int, truth: string -> bool,
                   w: CsScope.World, name: string, value: Option<string>)
    requires Sound(w.hdf, rank, bound) && CsScope.LookupMap(w.scope, name) == |w.scope| && name != ""
    requires Ready(w.hdf, rank, [], name, bound) && Settable(w.hdf, rank, [], name, bound)
    requires var q := Target(w.hdf, rank, [], name, bound); q in w.hdf ==> !w.hdf[q].link
    ensures var env := DatasetEnv(rank, bound, show, num, truth);
            var r := CsScope.VarSet(env, w, name, value);
            && r.1 == CsScope.Fine && r.0.scope == w.scope && r.0.out == w.out && Sound(r.0.hdf, rank, bound)
            && CsScope.VarValue(env, r.0, name) == value
  {
    hide WellFormed, Ranked, Settable, SetOutcome, Plain, CsScope.LookupMap, CsScope.VarSet, CsScope.VarValue;
    var env := DatasetEnv(rank, bound, show, num, truth);
    var d := w.hdf;
    SetThenWalk(d, rank, name, value, bound);
    CsBodies.SetTop(env, w, name, value);
    KeepsSound(d, rank, name, value, bound);
  }

  lemma KeepsSound(d: Dir, rank: Rank, name: string, value: Option<string>, bound: nat)
    requires Sound(d, rank, bound) && name != "" && Ready(d, rank, [], name, bound)
    requires var q := Target(d, rank, [], name, bound); q in d ==> !d[q].link
    ensures Sound(SetOutcome(d, rank, [], name, value, false, bound).d, rank, bound)
  {
    hide WellFormed, Ranked, Components, Way;
    ComponentsHaveNoDots(name, 0);
    SetKeepsRanks(d, rank, [], Components(name, 0), value, bound, rank, [], bound);
  }
}

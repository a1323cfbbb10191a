/** What a template asks of a dataset, answered by the dataset's own walks and sets. */
module CsDataset {
  import opened Wrappers
  import opened HdfNames
  import opened HdfDir
  import opened HdfLinks
  import opened HdfSets
  import opened HdfPending
  import opened HdfWalk
  import CsScope
  import CsRender
  import CsScopeLaws

  ghost predicate Sound(d: Dir, rank: Rank, bound: nat) {
    WellFormed(d) && Ranked(d, rank, [], bound)
  }

  /** `hdf_get_obj` */
  ghost function Obj(rank: Rank, bound: nat, d: Dir, p: Path, name: string): Option<Path> {
    if Sound(d, rank, bound) && p in d && WalkEnd(d, rank, p, name, bound) in d then
      Some(WalkEnd(d, rank, p, name, bound))
    else None
  }

  /** `hdf_obj_value`: the value of a node, or of the one its link leads to. */
  ghost function OwnValue(rank: Rank, bound: nat, d: Dir, p: Path): Option<string> {
    if !Sound(d, rank, bound) || p !in d then None
    else if !d[p].link then d[p].value
    else
      var g := LinkTarget(d, rank, p);
      if g in d then d[g].value else None
  }

  /** `hdf_get_value`, and `hdf_obj_value` for the empty name. */
  ghost function Value(rank: Rank, bound: nat, d: Dir, p: Path, name: string): Option<string> {
    if name == "" then OwnValue(rank, bound, d, p)
    else
      match Obj(rank, bound, d, p, name)
      case None => None
      case Some(g) => d[g].value
  }

  /** `hdf_set_value`, where its links are ranked. */
  ghost function Put(rank: Rank, bound: nat, d: Dir, p: Path, name: string, value: Option<string>): (Dir, bool) {
    if !Ready(d, rank, p, name, bound) then (d, false)
    else
      var o := SetOutcome(d, rank, p, name, value, false, bound);
      (o.d, o.Stored?)
  }

  /** The children met from `hdf_obj_child` on. */
  ghost function Kid(rank: Rank, bound: nat, d: Dir, p: Path, i: nat): Option<Path> {
    if !Sound(d, rank, bound) || p !in d then None
    else
      var t := if d[p].link then LinkTarget(d, rank, p) else p;
      if t in d && i < |d[t].kids| then Some(t + [d[t].kids[i]]) else None
  }

  ghost function DatasetEnv(rank: Rank, bound: nat, show: int -> string, num: string -> int, truth: string -> bool)
    : (env: CsScope.Env)
  {
    CsScope.Env(
      [],
      (d: Dir, p: Path, name: string) => Value(rank, bound, d, p, name),
      (d: Dir, p: Path, name: string) => Obj(rank, bound, d, p, name),
      (d: Dir, p: Path, name: string, value: Option<string>) => Put(rank, bound, d, p, name, value),
      (d: Dir, p: Path, i: nat) => Kid(rank, bound, d, p, i),
      show, num, truth)
  }

  /** A walk of a name that is not empty never ends at a link. */
  lemma {:induction false} ResolveNoLink(d: Dir, rank: Rank, p: Path, comps: Path, bound: nat)
    requires WellFormed(d) && p in d && Fine(d, rank, [], p, comps, bound) && (comps == [] ==> !d[p].link)
    requires Resolve(d, rank, [], p, comps, bound) in d
    ensures !d[Resolve(d, rank, [], p, comps, bound)].link
    decreases bound, |comps|
  {
    hide WellFormed;
    if comps != [] {
      var q, rest := p + [comps[0]], comps[1..];
      TopIsNoLink(d);
      if q !in d {
        NothingBelow(d, q, q + rest);
        assert false;
      } else if d[q].link {
        var v := Steps(d[q].value.value);
        var t := Resolve(d, rank, [], [], v, rank(q));
        if t in d {
          ResolveNoLink(d, rank, [], v, rank(q));
          ResolveNoLink(d, rank, t, rest, bound);
        } else {
          NothingBelow(d, t, t + rest);
          assert false;
        }
      } else {
        ResolveNoLink(d, rank, q, rest, bound);
      }
    }
  }

  lemma TopIsNoLink(d: Dir)
    requires WellFormed(d)
    ensures [] in d && !d[[]].link
  {
  }

  lemma WalkNoLink(d: Dir, rank: Rank, p: Path, name: string, bound: nat)
    requires WellFormed(d) && Ranked(d, rank, [], bound) && p in d && name != "" && WalkEnd(d, rank, p, name, bound) in d
    ensures !d[WalkEnd(d, rank, p, name, bound)].link
  {
    var comps := Components(name, 0);
    RankedWalkFine(d, rank, p, name, bound);
    TopIsNoLink(d);
    assert comps != [];
    hide WellFormed, Ranked, Components;
    if d[p].link {
      var t := Resolve(d, rank, [], [], Steps(d[p].value.value), rank(p));
      if t in d {
        ResolveNoLink(d, rank, t, comps, bound);
      } else {
        NothingBelow(d, t, t + comps);
        assert false;
      }
    } else {
      ResolveNoLink(d, rank, p, comps, bound);
    }
  }

  /** A dataset keeps the law rendering relies on: the value found under a name is the value of the
      node found under it. */
  lemma DatasetLawful(rank: Rank, bound: nat, show: int -> string, num: string -> int, truth: string -> bool)
    ensures CsScopeLaws.Lawful(DatasetEnv(rank, bound, show, num, truth))
  {
    var env := DatasetEnv(rank, bound, show, num, truth);
    forall d: Dir, p: Path, name: string
      ensures env.value(d, p, name) == match env.obj(d, p, name) case None => None case Some(q) => env.value(d, q, "")
    {
      ValueOfObj(rank, bound, d, p, name);
    }
  }

  lemma ValueOfObj(rank: Rank, bound: nat, d: Dir, p: Path, name: string)
    ensures Value(rank, bound, d, p, name)
         == match Obj(rank, bound, d, p, name) case None => None case Some(q) => Value(rank, bound, d, q, "")
  {
    hide WellFormed, Ranked;
    if Sound(d, rank, bound) && p in d && name != "" && WalkEnd(d, rank, p, name, bound) in d {
      WalkNoLink(d, rank, p, name, bound);
    }
  }

  /** So in a template over a dataset a macro's parameter that is found has the value its argument
      has for the caller. */
  lemma DatasetArgument(rank: Rank, bound: nat, show: int -> string, num: string -> int, truth: string -> bool,
                        w: CsScope.World, params: seq<string>, args: seq<CsScope.Arg>, i: nat)
    requires |params| == |args| && i < |args| && args[i].Ref?
    requires CsScopeLaws.Texts(DatasetEnv(rank, bound, show, num, truth), w.scope)
    ensures var env := DatasetEnv(rank, bound, show, num, truth);
            var binds := CsRender.BindArgs(env, w, params, args);
            && (CsScope.LookupMap(binds + w.scope, params[i]) == i <==> '.' !in params[i] && params[i] !in params[..i])
            && (CsScope.LookupMap(binds + w.scope, params[i]) == i ==>
                  CsScope.VarValue(env, CsRender.Push(w, binds), params[i]) == CsScope.VarValue(env, w, args[i].name))
  {
    DatasetLawful(rank, bound, show, num, truth);
    hide *;
    CsScopeLaws.ArgumentValue(DatasetEnv(rank, bound, show, num, truth), w, params, args, i);
  }
}

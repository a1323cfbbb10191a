/** Templates that assign to nothing leave the dataset alone, so their `each` makes one round for
    every child. */
module CsReadOnly {
  import opened Wrappers
  import opened HdfNames
  import opened HdfDir
  import opened CsScope
  import opened CsRender
  import opened CsRounds

  /** No command of the tree assigns. */
  predicate AssignsNothing(node: Node) {
    match node
    case End => true
    case Literal(_, next) => AssignsNothing(next)
    case Skip(next) => AssignsNothing(next)
    case Show(_, next) => AssignsNothing(next)
    case SetTo(_, _, _) => false
    case Branch(_, yes, no, next) => AssignsNothing(yes) && AssignsNothing(no) && AssignsNothing(next)
    case EachIn(_, _, body, next) => AssignsNothing(body) && AssignsNothing(next)
    case WithAs(_, _, body, next) => AssignsNothing(body) && AssignsNothing(next)
    case LoopOver(_, _, body, next) => AssignsNothing(body) && AssignsNothing(next)
    case Call(_, _, next) => AssignsNothing(next)
  }

  ghost predicate MacrosAssignNothing(macros: Macros) {
    forall m :: m in macros ==> AssignsNothing(macros[m].body)
  }

  /** A template without assignments leaves the dataset as it was. */
  lemma {:induction false} RenderReads(env: Env, macros: Macros, w: World, node: Node, fuel: nat)
    requires MacrosAssignNothing(macros) && AssignsNothing(node)
    ensures Render(env, macros, w, node, fuel).0.hdf == w.hdf
    decreases fuel, node, 5
  {
    hide Eval, MacrosAssignNothing;
    if !node.End? {
      EvalReads(env, macros, w, node, fuel);
      if Eval(env, macros, w, node, fuel).1 == Fine {
        RenderReads(env, macros, Eval(env, macros, w, node, fuel).0, NextOf(node), fuel);
      }
    }
  }

  lemma ArgsRead(env: Env, w: World, a: Arg)
    ensures ArgText(env, w, a).0.hdf == w.hdf && ArgNum(env, w, a).0.hdf == w.hdf && ArgTruth(env, w, a).0.hdf == w.hdf
  {
  }

  lemma {:induction false} EvalReads(env: Env, macros: Macros, w: World, node: Node, fuel: nat)
    requires !node.End? && MacrosAssignNothing(macros) && AssignsNothing(node)
    ensures Eval(env, macros, w, node, fuel).0.hdf == w.hdf
    decreases fuel, node, 4
  {
    hide ArgText, ArgTruth, ArgNum, VarObj, Render, EachFrom, Rounds, LoopRange, Iterations, BindArgs, MacrosAssignNothing;
    match node
    case Literal(_, _) =>
    case Skip(_) =>
    case Show(a, _) =>
      ArgsRead(env, w, a);
    case Branch(a, yes, no, _) =>
      ArgsRead(env, w, a);
      RenderReads(env, macros, ArgTruth(env, w, a).0, if ArgTruth(env, w, a).1 then yes else no, fuel);
    case EachIn(name, a, body, _) =>
      if a.Ref? && VarObj(env, w, a.name).Some? {
        EachFromReads(env, macros, Push(w, [NodeBind(name, None, true)]), VarObj(env, w, a.name).value, 0, body, fuel);
      }
    case WithAs(name, a, body, _) =>
      if a.Ref? && VarObj(env, w, a.name).Some? {
        RenderReads(env, macros, Push(w, [NodeBind(name, VarObj(env, w, a.name), false)]), body, fuel);
      }
    case LoopOver(name, args, body, _) =>
      RangeReads(env, w, args);
      var a := LoopRange(env, w, args);
      if a.1.Some? && Iterations(a.1.value.start, a.1.value.end, a.1.value.step) > 0 {
        var n := Iterations(a.1.value.start, a.1.value.end, a.1.value.step);
        RoundsRead(env, macros, Push(a.0, [NumBind(name)]), a.1.value.start, a.1.value.step, n, n, body, fuel);
      }
    case Call(_, _, _) =>
      CallReads(env, macros, w, node, fuel);
    case SetTo(_, _, _) =>
  }

  lemma {:induction false} CallReads(env: Env, macros: Macros, w: World, node: Node, fuel: nat)
    requires node.Call? && MacrosAssignNothing(macros)
    ensures RenderCall(env, macros, w, node, fuel).0.hdf == w.hdf
    decreases fuel, node, 3
  {
    hide Render, BindArgs;
    var macro, args := node.macro, node.args;
    if macro in macros && |args| == |macros[macro].params| && fuel > 0 {
      RenderReads(env, macros, Push(w, BindArgs(env, w, macros[macro].params, args)), macros[macro].body, fuel - 1);
    }
  }

  lemma RangeReads(env: Env, w: World, args: seq<Arg>)
    ensures LoopRange(env, w, args).0.hdf == w.hdf
  {
    hide ArgNum;
    if 1 <= |args| <= 3 {
      ArgsRead(env, w, args[0]);
      var a := ArgNum(env, w, args[0]).0;
      if |args| > 1 {
        ArgsRead(env, a, args[1]);
        if |args| > 2 {
          ArgsRead(env, ArgNum(env, a, args[1]).0, args[2]);
        }
      }
    }
  }

  lemma {:induction false} EachFromReads(env: Env, macros: Macros, w: World, p: Path, i: nat, body: Node, fuel: nat)
    requires w.scope != [] && MacrosAssignNothing(macros) && AssignsNothing(body)
    ensures EachFrom(env, macros, w, p, i, body, fuel).0.hdf == w.hdf
    decreases fuel, body, 6
  {
    hide Render, MacrosAssignNothing, AssignsNothing;
    var c := env.kid(w.hdf, p, i);
    if c.Some? && fuel > 0 {
      var v := WithTop(w, w.scope[0].(h := c));
      RenderReads(env, macros, v, body, fuel);
      var b := Render(env, macros, v, body, fuel);
      if b.1 == Fine {
        EachFromReads(env, macros, EndRound(b.0), p, i + 1, body, fuel - 1);
      }
    }
  }

  lemma {:induction false} RoundsRead(env: Env, macros: Macros, w: World, start: int, step: int, n: nat, k: nat, body: Node, fuel: nat)
    requires w.scope != [] && MacrosAssignNothing(macros) && AssignsNothing(body)
    ensures Rounds(env, macros, w, start, step, n, k, body, fuel).0.hdf == w.hdf
    decreases fuel, body, 6, k
  {
    hide Render, MacrosAssignNothing, AssignsNothing;
    if k > 0 {
      RoundsRead(env, macros, w, start, step, n, k - 1, body, fuel);
      var before := Rounds(env, macros, w, start, step, n, k - 1, body, fuel);
      if before.1 == Fine {
        RenderReads(env, macros, RoundStart(before.0, start, step, n, k - 1), body, fuel);
      }
    }
  }

  /** So `each` over a body that assigns nothing makes one round for every child. */
  lemma EachReads(env: Env, macros: Macros, w: World, p: Path, kids: seq<Path>, body: Node, fuel: nat)
    requires w.scope != [] && |kids| <= fuel && Children(env, w.hdf, p, kids)
    requires MacrosAssignNothing(macros) && AssignsNothing(body)
    ensures LeavesKids(env, macros, w, p, kids, body, fuel)
    ensures EachFrom(env, macros, w, p, 0, body, fuel) == OverKids(env, macros, w, kids, |kids|, body, fuel)
  {
    hide OverKids, EachFrom, Children, AssignsNothing;
    forall j: nat | j <= |kids|
      ensures OverKids(env, macros, w, kids, j, body, fuel).0.hdf == w.hdf
    {
      OverKidsRead(env, macros, w, kids, j, body, fuel);
    }
    EachRounds(env, macros, w, p, kids, body, fuel);
  }

  lemma {:induction false} OverKidsRead(env: Env, macros: Macros, w: World, kids: seq<Path>, j: nat, body: Node, fuel: nat)
    requires w.scope != [] && j <= |kids| <= fuel && MacrosAssignNothing(macros) && AssignsNothing(body)
    ensures OverKids(env, macros, w, kids, j, body, fuel).0.hdf == w.hdf
    decreases j
  {
    hide Render, MacrosAssignNothing, AssignsNothing;
    if j > 0 {
      OverKidsRead(env, macros, w, kids, j - 1, body, fuel);
      var before := OverKids(env, macros, w, kids, j - 1, body, fuel);
      RenderReads(env, macros, KidRound(before.0, kids[j - 1]), body, fuel - (j - 1));
    }
  }
}

/** The fuel of a rendering bounds how deep macros call each other and how many children a level is
    followed over. A rendering that ends within its fuel ends the same way with more. */
module CsFuel {
  import opened Wrappers
  import opened HdfNames
  import opened CsScope
  import opened CsRender

  /** s is the outcome r, unless r ran out of fuel. */
  predicate Same(r: (World, Status), s: (World, Status)) {
    r.1 != OutOfFuel ==> s == r
  }

  lemma {:induction false} RenderMore(env: Env, macros: Macros, w: World, node: Node, fuel: nat)
    ensures Same(Render(env, macros, w, node, fuel), Render(env, macros, w, node, fuel + 1))
    decreases fuel, node, 5
  {
    hide Eval;
    if !node.End? {
      EvalMore(env, macros, w, node, fuel);
      var e := Eval(env, macros, w, node, fuel);
      if e.1 == Fine {
        RenderMore(env, macros, e.0, NextOf(node), fuel);
      }
    }
  }

  lemma {:induction false} EvalMore(env: Env, macros: Macros, w: World, node: Node, fuel: nat)
    requires !node.End?
    ensures Same(Eval(env, macros, w, node, fuel), Eval(env, macros, w, node, fuel + 1))
    decreases fuel, node, 4
  {
    hide ArgText, ArgTruth, VarSet, Render, RenderEach, RenderWith, RenderLoop, RenderCall;
    match node
    case Branch(a, yes, no, _) =>
      var t := ArgTruth(env, w, a);
      RenderMore(env, macros, t.0, if t.1 then yes else no, fuel);
    case EachIn(name, a, body, _) =>
      EachMore(env, macros, w, name, a, body, fuel);
    case WithAs(name, a, body, _) =>
      WithMore(env, macros, w, name, a, body, fuel);
    case LoopOver(name, args, body, _) =>
      LoopMore(env, macros, w, name, args, body, fuel);
    case Call(_, _, _) =>
      CallMore(env, macros, w, node, fuel);
    case _ =>
  }

  lemma {:induction false} EachMore(env: Env, macros: Macros, w: World, name: string, a: Arg, body: Node, fuel: nat)
    ensures Same(RenderEach(env, macros, w, name, a, body, fuel), RenderEach(env, macros, w, name, a, body, fuel + 1))
    decreases fuel, body, 7
  {
    hide EachFrom;
    if a.Ref? && VarObj(env, w, a.name).Some? {
      EachFromMore(env, macros, Push(w, [NodeBind(name, None, true)]), VarObj(env, w, a.name).value, 0, body, fuel);
    }
  }

  lemma {:induction false} EachFromMore(env: Env, macros: Macros, w: World, p: Path, i: nat, body: Node, fuel: nat)
    requires w.scope != []
    ensures Same(EachFrom(env, macros, w, p, i, body, fuel), EachFrom(env, macros, w, p, i, body, fuel + 1))
    decreases fuel, body, 6
  {
    hide Render, WithTop, EndRound;
    var c := env.kid(w.hdf, p, i);
    if c.Some? && fuel > 0 {
      var v := WithTop(w, w.scope[0].(h := c));
      RenderMore(env, macros, v, body, fuel);
      var b := Render(env, macros, v, body, fuel);
      if b.1 == Fine {
        EachFromMore(env, macros, EndRound(b.0), p, i + 1, body, fuel - 1);
      }
    }
  }

  lemma {:induction false} WithMore(env: Env, macros: Macros, w: World, name: string, a: Arg, body: Node, fuel: nat)
    ensures Same(RenderWith(env, macros, w, name, a, body, fuel), RenderWith(env, macros, w, name, a, body, fuel + 1))
    decreases fuel, body, 7
  {
    hide Render;
    if a.Ref? && VarObj(env, w, a.name).Some? {
      RenderMore(env, macros, Push(w, [NodeBind(name, VarObj(env, w, a.name), false)]), body, fuel);
    }
  }

  lemma {:induction false} LoopMore(env: Env, macros: Macros, w: World, name: string, args: seq<Arg>, body: Node, fuel: nat)
    ensures Same(RenderLoop(env, macros, w, name, args, body, fuel), RenderLoop(env, macros, w, name, args, body, fuel + 1))
    decreases fuel, body, 7
  {
    hide Rounds, LoopRange, Iterations;
    var a := LoopRange(env, w, args);
    if a.1.Some? {
      var range := a.1.value;
      var n := Iterations(range.start, range.end, range.step);
      if n > 0 {
        RoundsMore(env, macros, Push(a.0, [NumBind(name)]), range.start, range.step, n, n, body, fuel);
      }
    }
  }

  lemma {:induction false} RoundsMore(env: Env, macros: Macros, w: World, start: int, step: int, n: nat, k: nat, body: Node, fuel: nat)
    requires w.scope != []
    ensures Same(Rounds(env, macros, w, start, step, n, k, body, fuel), Rounds(env, macros, w, start, step, n, k, body, fuel + 1))
    decreases fuel, body, 6, k
  {
    hide Render;
    if k > 0 {
      RoundsMore(env, macros, w, start, step, n, k - 1, body, fuel);
      var before := Rounds(env, macros, w, start, step, n, k - 1, body, fuel);
      if before.1 == Fine {
        RenderMore(env, macros, RoundStart(before.0, start, step, n, k - 1), body, fuel);
      }
    }
  }

  lemma {:induction false} CallMore(env: Env, macros: Macros, w: World, node: Node, fuel: nat)
    requires node.Call?
    ensures Same(RenderCall(env, macros, w, node, fuel), RenderCall(env, macros, w, node, fuel + 1))
    decreases fuel, node, 3
  {
    hide Render, BindArgs;
    var macro, args := node.macro, node.args;
    if macro in macros && |args| == |macros[macro].params| && !Fails(args) && fuel > 0 {
      var binds := BindArgs(env, w, macros[macro].params, args);
      RenderMore(env, macros, Push(w, binds), macros[macro].body, fuel - 1);
    }
  }

  /** All amounts of fuel that are enough give the same outcome. */
  lemma {:induction false} FuelIrrelevant(env: Env, macros: Macros, w: World, node: Node, fuel: nat, more: nat)
    requires fuel <= more && Render(env, macros, w, node, fuel).1 != OutOfFuel
    ensures Render(env, macros, w, node, more) == Render(env, macros, w, node, fuel)
    decreases more
  {
    if fuel < more {
      FuelIrrelevant(env, macros, w, node, fuel, more - 1);
      RenderMore(env, macros, w, node, more - 1);
    }
  }
}

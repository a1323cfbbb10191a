/** Asking for the text of a local number keeps that text in its binding. Nothing that is rendered
    later depends on it. */
module CsCaching {
  import opened Wrappers
  import opened HdfNames
  import opened CsScope
  import opened CsRender

  /** A number has no text kept, or its own. */
  predicate Kept(env: Env, b: Bind) {
    b.kind == NumB ==> b.s == None || (b.s == Some(env.show(b.n)) && b.alloc)
  }

  /** The same binding, but for the text a number keeps. */
  predicate AlikeBind(env: Env, a: Bind, b: Bind) {
    && Kept(env, a) && Kept(env, b)
    && (if a.kind == NumB then b == a.(s := b.s, alloc := b.alloc) else b == a)
  }

  ghost predicate AlikeScope(env: Env, a: seq<Bind>, b: seq<Bind>) {
    |a| == |b| && forall i {:trigger a[i]} {:trigger b[i]} :: 0 <= i < |a| ==> AlikeBind(env, a[i], b[i])
  }

  /** The same state, but for the texts numbers keep. */
  ghost predicate Alike(env: Env, w: World, v: World) {
    w.hdf == v.hdf && w.out == v.out && AlikeScope(env, w.scope, v.scope)
  }

  ghost predicate AlikeEnd(env: Env, r: (World, Status), s: (World, Status)) {
    r.1 == s.1 && Alike(env, r.0, s.0)
  }

  lemma AlikeThrough(env: Env, u: World, v: World, w: World)
    requires Alike(env, u, v) && Alike(env, v, w)
    ensures Alike(env, u, w)
  {
    forall i | 0 <= i < |u.scope|
      ensures AlikeBind(env, u.scope[i], w.scope[i])
    {
      assert AlikeBind(env, u.scope[i], v.scope[i]) && AlikeBind(env, v.scope[i], w.scope[i]);
    }
  }

  lemma AlikeTurned(env: Env, v: World, w: World)
    requires Alike(env, v, w)
    ensures Alike(env, w, v) && Alike(env, v, v)
  {
  }

  // ----- names and arguments

  lemma {:induction false} FindAlike(env: Env, a: seq<Bind>, b: seq<Bind>, name: string, i: nat)
    requires AlikeScope(env, a, b) && i <= |a|
    ensures Find(a, name, i) == Find(b, name, i)
    decreases |a| - i
  {
    if i < |a| {
      assert AlikeBind(env, a[i], b[i]);
      FindAlike(env, a, b, name, i + 1);
    }
  }

  lemma LookupAlike(env: Env, a: seq<Bind>, b: seq<Bind>, name: string)
    requires AlikeScope(env, a, b)
    ensures LookupMap(a, name) == LookupMap(b, name)
    ensures LookupMap(a, name) < |a| ==> AlikeBind(env, a[LookupMap(a, name)], b[LookupMap(a, name)])
  {
    FindAlike(env, a, b, HeadOf(name), 0);
  }

  /** What names mean does not depend on the texts kept. */
  lemma NamesAlike(env: Env, w: World, v: World, name: string)
    requires Alike(env, w, v)
    ensures VarValue(env, w, name) == VarValue(env, v, name) && VarObj(env, w, name) == VarObj(env, v, name)
    ensures Alike(env, Asked(env, w, name), Asked(env, v, name))
  {
    LookupAlike(env, w.scope, v.scope, name);
    hide LookupMap, HeadOf, RestOf;
  }

  lemma AskedAlike(env: Env, w: World, name: string)
    requires Alike(env, w, w)
    ensures Alike(env, w, Asked(env, w, name))
  {
    hide LookupMap;
  }

  lemma ArgsAlike(env: Env, w: World, v: World, a: Arg)
    requires Alike(env, w, v)
    ensures ArgText(env, w, a).1 == ArgText(env, v, a).1 && Alike(env, ArgText(env, w, a).0, ArgText(env, v, a).0)
    ensures ArgNum(env, w, a).1 == ArgNum(env, v, a).1 && Alike(env, ArgNum(env, w, a).0, ArgNum(env, v, a).0)
    ensures ArgTruth(env, w, a).1 == ArgTruth(env, v, a).1 && Alike(env, ArgTruth(env, w, a).0, ArgTruth(env, v, a).0)
  {
    hide VarValue, Asked, Alike;
    if a.Ref? {
      NamesAlike(env, w, v, a.name);
    }
  }

  lemma ArgsKeep(env: Env, w: World, a: Arg)
    requires Alike(env, w, w)
    ensures Alike(env, w, ArgText(env, w, a).0) && Alike(env, w, ArgNum(env, w, a).0) && Alike(env, w, ArgTruth(env, w, a).0)
  {
    hide VarValue, Asked, Alike;
    if a.Ref? {
      AskedAlike(env, w, a.name);
    }
  }

  lemma SetAlike(env: Env, w: World, v: World, name: string, value: Option<string>)
    requires Alike(env, w, v)
    ensures AlikeEnd(env, VarSet(env, w, name, value), VarSet(env, v, name, value))
  {
    LookupAlike(env, w.scope, v.scope, name);
    var k := LookupMap(w.scope, name);
    if k < |w.scope| && w.scope[k].kind != VarB {
      UpdatedAlike(env, w.scope, v.scope, k, value);
    }
    hide LookupMap, HeadOf, RestOf, AlikeScope;
  }

  lemma UpdatedAlike(env: Env, a: seq<Bind>, b: seq<Bind>, k: nat, value: Option<string>)
    requires AlikeScope(env, a, b) && k < |a|
    ensures AlikeScope(env, a[k := a[k].(kind := StrB, alloc := true, s := value)],
                       b[k := b[k].(kind := StrB, alloc := true, s := value)])
  {
    assert AlikeBind(env, a[k], b[k]);
  }

  lemma RangeAlike(env: Env, w: World, v: World, args: seq<Arg>)
    requires Alike(env, w, v)
    ensures LoopRange(env, w, args).1 == LoopRange(env, v, args).1
    ensures Alike(env, LoopRange(env, w, args).0, LoopRange(env, v, args).0)
  {
    hide ArgNum, Alike;
    if 1 <= |args| <= 3 && args[0] != Failing {
      ArgsAlike(env, w, v, args[0]);
      var a, b := ArgNum(env, w, args[0]).0, ArgNum(env, v, args[0]).0;
      if |args| > 1 && args[1] != Failing {
        ArgsAlike(env, a, b, args[1]);
        if |args| > 2 && args[2] != Failing {
          ArgsAlike(env, ArgNum(env, a, args[1]).0, ArgNum(env, b, args[1]).0, args[2]);
        }
      }
    }
  }

  lemma RangeKept(env: Env, w: World, args: seq<Arg>)
    requires Alike(env, w, w)
    ensures Alike(env, w, LoopRange(env, w, args).0)
  {
    hide ArgNum, Alike;
    if 1 <= |args| <= 3 && args[0] != Failing {
      var a := ArgNum(env, w, args[0]).0;
      ArgsKeep(env, w, args[0]);
      AlikeTurned(env, w, a);
      AlikeTurned(env, a, w);
      if |args| > 1 && args[1] != Failing {
        var b := ArgNum(env, a, args[1]).0;
        ArgsKeep(env, a, args[1]);
        AlikeTurned(env, a, b);
        AlikeTurned(env, b, a);
        AlikeThrough(env, w, a, b);
        if |args| > 2 && args[2] != Failing {
          ArgsKeep(env, b, args[2]);
          AlikeThrough(env, w, b, ArgNum(env, b, args[2]).0);
        }
      }
    }
  }

  lemma BindArgAlike(env: Env, w: World, v: World, param: string, a: Arg)
    requires Alike(env, w, v)
    ensures BindArg(env, w, param, a) == BindArg(env, v, param, a) && Kept(env, BindArg(env, w, param, a))
  {
    if a.Ref? {
      LookupAlike(env, w.scope, v.scope, a.name);
      NamesAlike(env, w, v, a.name);
      hide LookupMap, VarObj;
    }
  }

  lemma BindArgsAlike(env: Env, w: World, v: World, params: seq<string>, args: seq<Arg>)
    requires Alike(env, w, v) && |params| == |args|
    ensures BindArgs(env, w, params, args) == BindArgs(env, v, params, args)
    ensures forall b :: b in BindArgs(env, w, params, args) ==> Kept(env, b)
  {
    hide Alike, BindArg, Kept;
    forall i | 0 <= i < |params|
      ensures BindArg(env, w, params[i], args[i]) == BindArg(env, v, params[i], args[i])
      ensures Kept(env, BindArg(env, w, params[i], args[i]))
    {
      BindArgAlike(env, w, v, params[i], args[i]);
    }
  }

  // ----- putting bindings in front

  lemma PushAlike(env: Env, w: World, v: World, binds: seq<Bind>)
    requires Alike(env, w, v) && forall b :: b in binds ==> Kept(env, b)
    ensures Alike(env, Push(w, binds), Push(v, binds))
  {
  }

  lemma PopAlike(env: Env, w: World, v: World, n: nat)
    requires Alike(env, w, v) && n <= |w.scope|
    ensures Alike(env, Pop(w, n), Pop(v, n))
  {
  }

  /** The loop variable is not kept as a text between rounds. */
  ghost predicate Between(env: Env, w: World, v: World) {
    && Alike(env, w, v) && w.scope != []
    && (w.scope[0].kind == NumB ==> w.scope[0].s == None && v.scope[0].s == None)
  }

  lemma EndRoundAlike(env: Env, w: World, v: World)
    requires Alike(env, w, v) && w.scope != []
    ensures Between(env, EndRound(w), EndRound(v))
  {
    assert AlikeBind(env, w.scope[0], v.scope[0]);
    TailAlike(env, w, v, EndRound(w).scope[0], EndRound(v).scope[0]);
  }

  lemma TailAlike(env: Env, w: World, v: World, a: Bind, b: Bind)
    requires Alike(env, w, v) && w.scope != [] && AlikeBind(env, a, b)
    ensures Alike(env, WithTop(w, a), WithTop(v, b))
  {
    hide AlikeBind;
  }

  lemma RoundStartAlike(env: Env, w: World, v: World, start: int, step: int, n: nat, k: nat)
    requires Between(env, w, v)
    ensures Alike(env, RoundStart(w, start, step, n, k), RoundStart(v, start, step, n, k))
  {
    hide NthValue;
    assert AlikeBind(env, w.scope[0], v.scope[0]);
    TailAlike(env, w, v, RoundStart(w, start, step, n, k).scope[0], RoundStart(v, start, step, n, k).scope[0]);
  }

  // ----- rendering

  /** Two renderings that start alike but for the texts numbers keep end alike: the same output,
      the same dataset, the same error. */
  lemma {:induction false} RenderAlike(env: Env, macros: Macros, w: World, v: World, node: Node, fuel: nat)
    requires Alike(env, w, v)
    ensures AlikeEnd(env, Render(env, macros, w, node, fuel), Render(env, macros, v, node, fuel))
    decreases fuel, node, 5
  {
    hide Eval, Alike;
    if !node.End? {
      EvalAlike(env, macros, w, v, node, fuel);
      if Eval(env, macros, w, node, fuel).1 == Fine {
        RenderAlike(env, macros, Eval(env, macros, w, node, fuel).0, Eval(env, macros, v, node, fuel).0, NextOf(node), fuel);
      }
    }
  }

  lemma {:induction false} EvalAlike(env: Env, macros: Macros, w: World, v: World, node: Node, fuel: nat)
    requires !node.End? && Alike(env, w, v)
    ensures AlikeEnd(env, Eval(env, macros, w, node, fuel), Eval(env, macros, v, node, fuel))
    decreases fuel, node, 4
  {
    hide AlikeScope, ArgText, ArgTruth, VarSet, Render, RenderEach, RenderWith, RenderLoop, RenderCall;
    match node
    case Literal(_, _) =>
    case Skip(_) =>
    case Show(a, _) =>
      ArgsAlike(env, w, v, a);
    case SetTo(name, a, _) =>
      ArgsAlike(env, w, v, a);
      SetAlike(env, ArgText(env, w, a).0, ArgText(env, v, a).0, name, ArgText(env, w, a).1);
    case Branch(a, yes, no, _) =>
      ArgsAlike(env, w, v, a);
      RenderAlike(env, macros, ArgTruth(env, w, a).0, ArgTruth(env, v, a).0, if ArgTruth(env, w, a).1 then yes else no, fuel);
    case EachIn(name, a, body, _) =>
      EachAlike(env, macros, w, v, name, a, body, fuel);
    case WithAs(name, a, body, _) =>
      WithAlike(env, macros, w, v, name, a, body, fuel);
    case LoopOver(name, args, body, _) =>
      LoopAlike(env, macros, w, v, name, args, body, fuel);
    case Call(_, _, _) =>
      CallAlike(env, macros, w, v, node, fuel);
  }

  lemma {:induction false} EachAlike(env: Env, macros: Macros, w: World, v: World, name: string, a: Arg, body: Node, fuel: nat)
    requires Alike(env, w, v)
    ensures AlikeEnd(env, RenderEach(env, macros, w, name, a, body, fuel), RenderEach(env, macros, v, name, a, body, fuel))
    decreases fuel, body, 7
  {
    hide EachFrom, Alike, VarObj;
    if a.Ref? {
      NamesAlike(env, w, v, a.name);
      if VarObj(env, w, a.name).Some? {
        var b, p := [NodeBind(name, None, true)], VarObj(env, w, a.name).value;
        PushAlike(env, w, v, b);
        EachFromAlike(env, macros, Push(w, b), Push(v, b), p, 0, body, fuel);
        PopAlike(env, EachFrom(env, macros, Push(w, b), p, 0, body, fuel).0, EachFrom(env, macros, Push(v, b), p, 0, body, fuel).0, 1);
      }
    }
  }

  lemma {:induction false} EachFromAlike(env: Env, macros: Macros, w: World, v: World, p: Path, i: nat, body: Node, fuel: nat)
    requires Alike(env, w, v) && w.scope != []
    ensures AlikeEnd(env, EachFrom(env, macros, w, p, i, body, fuel), EachFrom(env, macros, v, p, i, body, fuel))
    decreases fuel, body, 6
  {
    hide Render, AlikeScope;
    var c := env.kid(w.hdf, p, i);
    AlikeLength(env, w.scope, v.scope);
    if c.Some? && fuel > 0 {
      TopAlike(env, w, v, c);
      var a, b := WithTop(w, w.scope[0].(h := c)), WithTop(v, v.scope[0].(h := c));
      RenderAlike(env, macros, a, b, body, fuel);
      var r, s := Render(env, macros, a, body, fuel), Render(env, macros, b, body, fuel);
      EndRoundAlike(env, r.0, s.0);
      if r.1 == Fine {
        EachFromAlike(env, macros, EndRound(r.0), EndRound(s.0), p, i + 1, body, fuel - 1);
      }
    }
  }

  lemma AlikeLength(env: Env, a: seq<Bind>, b: seq<Bind>)
    requires AlikeScope(env, a, b)
    ensures |a| == |b|
  {
  }

  lemma TopAlike(env: Env, w: World, v: World, c: Option<Path>)
    requires Alike(env, w, v) && w.scope != []
    ensures v.scope != [] && Alike(env, WithTop(w, w.scope[0].(h := c)), WithTop(v, v.scope[0].(h := c)))
  {
    assert AlikeBind(env, w.scope[0], v.scope[0]);
    TailAlike(env, w, v, w.scope[0].(h := c), v.scope[0].(h := c));
  }

  lemma {:induction false} WithAlike(env: Env, macros: Macros, w: World, v: World, name: string, a: Arg, body: Node, fuel: nat)
    requires Alike(env, w, v)
    ensures AlikeEnd(env, RenderWith(env, macros, w, name, a, body, fuel), RenderWith(env, macros, v, name, a, body, fuel))
    decreases fuel, body, 7
  {
    hide Render, Alike, VarObj;
    if a.Ref? {
      NamesAlike(env, w, v, a.name);
      if VarObj(env, w, a.name).Some? {
        var b := [NodeBind(name, VarObj(env, w, a.name), false)];
        PushAlike(env, w, v, b);
        RenderAlike(env, macros, Push(w, b), Push(v, b), body, fuel);
        PopAlike(env, Render(env, macros, Push(w, b), body, fuel).0, Render(env, macros, Push(v, b), body, fuel).0, 1);
      }
    }
  }

  lemma {:induction false} LoopAlike(env: Env, macros: Macros, w: World, v: World, name: string, args: seq<Arg>, body: Node, fuel: nat)
    requires Alike(env, w, v)
    ensures AlikeEnd(env, RenderLoop(env, macros, w, name, args, body, fuel), RenderLoop(env, macros, v, name, args, body, fuel))
    decreases fuel, body, 7
  {
    hide Rounds, LoopRange, Iterations, Alike;
    RangeAlike(env, w, v, args);
    var a, b := LoopRange(env, w, args), LoopRange(env, v, args);
    if a.1.Some? {
      var range := a.1.value;
      var n := Iterations(range.start, range.end, range.step);
      if n > 0 {
        var c, d := Push(a.0, [NumBind(name)]), Push(b.0, [NumBind(name)]);
        LoopStartAlike(env, a.0, b.0, name);
        RoundsAlike(env, macros, c, d, range.start, range.step, n, n, body, fuel);
        PopAlike(env, Rounds(env, macros, c, range.start, range.step, n, n, body, fuel).0,
                 Rounds(env, macros, d, range.start, range.step, n, n, body, fuel).0, 1);
      }
    }
  }

  lemma LoopStartAlike(env: Env, w: World, v: World, name: string)
    requires Alike(env, w, v)
    ensures Between(env, Push(w, [NumBind(name)]), Push(v, [NumBind(name)]))
  {
    PushAlike(env, w, v, [NumBind(name)]);
  }

  lemma {:induction false} RoundsAlike(env: Env, macros: Macros, w: World, v: World, start: int, step: int, n: nat, k: nat, body: Node, fuel: nat)
    requires Between(env, w, v) && v.scope != []
    ensures var r, s := Rounds(env, macros, w, start, step, n, k, body, fuel), Rounds(env, macros, v, start, step, n, k, body, fuel);
            AlikeEnd(env, r, s) && Between(env, r.0, s.0)
    decreases fuel, body, 6, k
  {
    hide Render, AlikeScope, RoundStart, EndRound;
    if k > 0 {
      RoundsAlike(env, macros, w, v, start, step, n, k - 1, body, fuel);
      var a, b := Rounds(env, macros, w, start, step, n, k - 1, body, fuel), Rounds(env, macros, v, start, step, n, k - 1, body, fuel);
      if a.1 == Fine {
        RoundStartAlike(env, a.0, b.0, start, step, n, k - 1);
        var c, d := RoundStart(a.0, start, step, n, k - 1), RoundStart(b.0, start, step, n, k - 1);
        RenderAlike(env, macros, c, d, body, fuel);
        EndRoundAlike(env, Render(env, macros, c, body, fuel).0, Render(env, macros, d, body, fuel).0);
      }
    }
  }

  lemma {:induction false} CallAlike(env: Env, macros: Macros, w: World, v: World, node: Node, fuel: nat)
    requires node.Call? && Alike(env, w, v)
    ensures AlikeEnd(env, RenderCall(env, macros, w, node, fuel), RenderCall(env, macros, v, node, fuel))
    decreases fuel, node, 3
  {
    hide Render, BindArgs, Alike, Kept;
    var macro, args := node.macro, node.args;
    if macro in macros && |args| == |macros[macro].params| && !Fails(args) && fuel > 0 {
      BindArgsAlike(env, w, v, macros[macro].params, args);
      var b := BindArgs(env, w, macros[macro].params, args);
      PushAlike(env, w, v, b);
      RenderAlike(env, macros, Push(w, b), Push(v, b), macros[macro].body, fuel - 1);
      PopAlike(env, Render(env, macros, Push(w, b), macros[macro].body, fuel - 1).0,
               Render(env, macros, Push(v, b), macros[macro].body, fuel - 1).0, |b|);
    }
  }
}

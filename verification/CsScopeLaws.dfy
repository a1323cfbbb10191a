/** What rendering keeps: the scopes it found, the meaning of macro arguments, and the numbers a
    loop binds. */
module CsScopeLaws {
  import opened Wrappers
  import opened HdfNames
  import opened CsScope
  import opened CsRender

  lemma SameScopeThrough(env: Env, a: seq<Bind>, b: seq<Bind>, c: seq<Bind>)
    requires SameScope(env, a, b) && SameScope(env, b, c)
    ensures SameScope(env, a, c)
  {
    forall i | 0 <= i < |a|
      ensures SameBind(env, a[i], c[i])
    {
      assert SameBind(env, a[i], b[i]) && SameBind(env, b[i], c[i]);
    }
  }

  lemma SameScopeSelf(env: Env, a: seq<Bind>)
    ensures SameScope(env, a, a)
  {
  }

  lemma ArgTextKeeps(env: Env, w: World, a: Arg)
    ensures SameScope(env, w.scope, ArgText(env, w, a).0.scope) && SameScope(env, w.scope, ArgNum(env, w, a).0.scope)
    ensures SameScope(env, w.scope, ArgTruth(env, w, a).0.scope)
  {
  }

  lemma VarSetKeeps(env: Env, w: World, name: string, value: Option<string>)
    ensures SameScope(env, w.scope, VarSet(env, w, name, value).0.scope)
  {
  }

  lemma RangeKeeps(env: Env, w: World, args: seq<Arg>)
    ensures SameScope(env, w.scope, LoopRange(env, w, args).0.scope)
  {
    hide ArgNum, SameScope;
    SameScopeSelf(env, w.scope);
    if 1 <= |args| <= 3 && args[0] != Failing {
      var a := ArgNum(env, w, args[0]);
      ArgTextKeeps(env, w, args[0]);
      if |args| > 1 && args[1] != Failing {
        var b := ArgNum(env, a.0, args[1]);
        ArgTextKeeps(env, a.0, args[1]);
        SameScopeThrough(env, w.scope, a.0.scope, b.0.scope);
        if |args| > 2 && args[2] != Failing {
          ArgTextKeeps(env, b.0, args[2]);
          SameScopeThrough(env, w.scope, b.0.scope, ArgNum(env, b.0, args[2]).0.scope);
        }
      }
    }
  }

  /** What is below the bindings pushed is the scope found. */
  lemma PoppedSame(env: Env, scope: seq<Bind>, binds: seq<Bind>, after: seq<Bind>)
    requires SameScope(env, binds + scope, after)
    ensures |binds| <= |after| && SameScope(env, scope, after[|binds|..])
  {
    forall i | 0 <= i < |scope|
      ensures SameBind(env, scope[i], after[|binds|..][i])
    {
      assert (binds + scope)[|binds| + i] == scope[i];
      assert after[|binds| + i] == after[|binds|..][i];
    }
  }

  /** Rendering leaves the list of local variables as it found it, whether it succeeds or not:
      the same bindings in the same order, and of them only numbers and strings may have become
      strings. */
  lemma {:induction false} RenderKeepsScope(env: Env, macros: Macros, w: World, node: Node, fuel: nat)
    ensures SameScope(env, w.scope, Render(env, macros, w, node, fuel).0.scope)
    decreases fuel, node, 5
  {
    hide SameScope, Eval;
    SameScopeSelf(env, w.scope);
    if !node.End? {
      EvalKeepsScope(env, macros, w, node, fuel);
      var e := Eval(env, macros, w, node, fuel);
      if e.1 == Fine {
        RenderKeepsScope(env, macros, e.0, NextOf(node), fuel);
        SameScopeThrough(env, w.scope, e.0.scope, Render(env, macros, e.0, NextOf(node), fuel).0.scope);
      }
    }
  }

  lemma {:induction false} EvalKeepsScope(env: Env, macros: Macros, w: World, node: Node, fuel: nat)
    requires !node.End?
    ensures SameScope(env, w.scope, Eval(env, macros, w, node, fuel).0.scope)
    decreases fuel, node, 4
  {
    hide SameScope, ArgText, ArgTruth, VarSet, Render, RenderEach, RenderWith, RenderLoop, RenderCall;
    SameScopeSelf(env, w.scope);
    match node
    case Literal(_, _) =>
    case Skip(_) =>
    case Show(a, _) =>
      ArgTextKeeps(env, w, a);
    case SetTo(name, a, _) =>
      var t := ArgText(env, w, a);
      ArgTextKeeps(env, w, a);
      VarSetKeeps(env, t.0, name, t.1);
      SameScopeThrough(env, w.scope, t.0.scope, VarSet(env, t.0, name, t.1).0.scope);
    case Branch(a, yes, no, _) =>
      var t := ArgTruth(env, w, a);
      ArgTextKeeps(env, w, a);
      var branch := if t.1 then yes else no;
      RenderKeepsScope(env, macros, t.0, branch, fuel);
      SameScopeThrough(env, w.scope, t.0.scope, Render(env, macros, t.0, branch, fuel).0.scope);
    case EachIn(name, a, body, _) =>
      EachKeepsScope(env, macros, w, name, a, body, fuel);
    case WithAs(name, a, body, _) =>
      WithKeepsScope(env, macros, w, name, a, body, fuel);
    case LoopOver(name, args, body, _) =>
      LoopKeepsScope(env, macros, w, name, args, body, fuel);
    case Call(_, _, _) =>
      CallKeepsScope(env, macros, w, node, fuel);
  }

  lemma {:induction false} EachKeepsScope(env: Env, macros: Macros, w: World, name: string, a: Arg, body: Node, fuel: nat)
    ensures SameScope(env, w.scope, RenderEach(env, macros, w, name, a, body, fuel).0.scope)
    decreases fuel, body, 7
  {
    hide EachFrom, SameScope;
    SameScopeSelf(env, w.scope);
    if a.Ref? && VarObj(env, w, a.name).Some? {
      var v := Push(w, [NodeBind(name, None, true)]);
      EachFromKeeps(env, macros, v, VarObj(env, w, a.name).value, 0, body, fuel);
      TailIs(w, NodeBind(name, None, true));
    }
  }

  lemma TailIs(w: World, b: Bind)
    ensures Push(w, [b]).scope[1..] == w.scope && Push(w, [b]).scope[0] == b
  {
  }

  /** Below the loop variable nothing is touched; the loop variable keeps its name. */
  ghost predicate SameBelow(env: Env, a: seq<Bind>, b: seq<Bind>) {
    a != [] && b != [] && SameScope(env, a[1..], b[1..]) && b[0].name == a[0].name
  }

  lemma SameBelowThrough(env: Env, a: seq<Bind>, b: seq<Bind>, c: seq<Bind>)
    requires SameBelow(env, a, b) && SameBelow(env, b, c)
    ensures SameBelow(env, a, c)
  {
    SameScopeThrough(env, a[1..], b[1..], c[1..]);
  }

  /** One round: the loop variable rebound, the body, the end of the round. */
  lemma RoundBelow(env: Env, w: World, v: World, b: World)
    requires w.scope != [] && v.scope != [] && v.scope[1..] == w.scope[1..] && v.scope[0].name == w.scope[0].name
    requires SameScope(env, v.scope, b.scope)
    ensures b.scope != [] && SameBelow(env, w.scope, EndRound(b).scope)
  {
    assert v.scope == [v.scope[0]] + v.scope[1..];
    PoppedSame(env, v.scope[1..], [v.scope[0]], b.scope);
    assert SameBind(env, v.scope[0], b.scope[0]);
  }

  lemma {:induction false} EachFromKeeps(env: Env, macros: Macros, w: World, p: Path, i: nat, body: Node, fuel: nat)
    requires w.scope != []
    ensures SameBelow(env, w.scope, EachFrom(env, macros, w, p, i, body, fuel).0.scope)
    decreases fuel, body, 6
  {
    hide Render, SameScope, SameBelow;
    SameBelowSelf(env, w.scope);
    var c := env.kid(w.hdf, p, i);
    if c.Some? && fuel > 0 {
      var v := WithTop(w, w.scope[0].(h := c));
      RenderKeepsScope(env, macros, v, body, fuel);
      var b := Render(env, macros, v, body, fuel);
      RoundBelow(env, w, v, b.0);
      if b.1 == Fine {
        var u := EndRound(b.0);
        EachFromKeeps(env, macros, u, p, i + 1, body, fuel - 1);
        SameBelowThrough(env, w.scope, u.scope, EachFrom(env, macros, u, p, i + 1, body, fuel - 1).0.scope);
      }
    }
  }

  lemma SameBelowSelf(env: Env, a: seq<Bind>)
    requires a != []
    ensures SameBelow(env, a, a)
  {
  }

  lemma {:induction false} WithKeepsScope(env: Env, macros: Macros, w: World, name: string, a: Arg, body: Node, fuel: nat)
    ensures SameScope(env, w.scope, RenderWith(env, macros, w, name, a, body, fuel).0.scope)
    decreases fuel, body, 7
  {
    hide Render, SameScope;
    SameScopeSelf(env, w.scope);
    if a.Ref? && VarObj(env, w, a.name).Some? {
      var b := NodeBind(name, VarObj(env, w, a.name), false);
      RenderKeepsScope(env, macros, Push(w, [b]), body, fuel);
      PoppedSame(env, w.scope, [b], Render(env, macros, Push(w, [b]), body, fuel).0.scope);
    }
  }

  lemma {:induction false} LoopKeepsScope(env: Env, macros: Macros, w: World, name: string, args: seq<Arg>, body: Node, fuel: nat)
    ensures SameScope(env, w.scope, RenderLoop(env, macros, w, name, args, body, fuel).0.scope)
    decreases fuel, body, 7
  {
    hide Rounds, SameScope, LoopRange, Iterations;
    RangeKeeps(env, w, args);
    var a := LoopRange(env, w, args);
    if a.1.Some? {
      var range := a.1.value;
      var n := Iterations(range.start, range.end, range.step);
      if n > 0 {
        var v := Push(a.0, [NumBind(name)]);
        RoundsKeep(env, macros, v, range.start, range.step, n, n, body, fuel);
        TailIs(a.0, NumBind(name));
        SameScopeThrough(env, w.scope, a.0.scope, Rounds(env, macros, v, range.start, range.step, n, n, body, fuel).0.scope[1..]);
      }
    }
  }

  lemma {:induction false} RoundsKeep(env: Env, macros: Macros, w: World, start: int, step: int, n: nat, k: nat, body: Node, fuel: nat)
    requires w.scope != []
    ensures SameBelow(env, w.scope, Rounds(env, macros, w, start, step, n, k, body, fuel).0.scope)
    decreases fuel, body, 6, k
  {
    hide Render, SameScope, SameBelow;
    SameBelowSelf(env, w.scope);
    if k > 0 {
      RoundsKeep(env, macros, w, start, step, n, k - 1, body, fuel);
      var before := Rounds(env, macros, w, start, step, n, k - 1, body, fuel);
      if before.1 == Fine {
        var v := RoundStart(before.0, start, step, n, k - 1);
        RenderKeepsScope(env, macros, v, body, fuel);
        var b := Render(env, macros, v, body, fuel);
        RoundBelow(env, before.0, v, b.0);
        SameBelowThrough(env, w.scope, before.0.scope, EndRound(b.0).scope);
      }
    }
  }

  lemma {:induction false} CallKeepsScope(env: Env, macros: Macros, w: World, node: Node, fuel: nat)
    requires node.Call?
    ensures SameScope(env, w.scope, RenderCall(env, macros, w, node, fuel).0.scope)
    decreases fuel, node, 3
  {
    hide Render, SameScope, BindArgs;
    SameScopeSelf(env, w.scope);
    var macro, args := node.macro, node.args;
    if macro in macros && |args| == |macros[macro].params| && !Fails(args) && fuel > 0 {
      var binds := BindArgs(env, w, macros[macro].params, args);
      RenderKeepsScope(env, macros, Push(w, binds), macros[macro].body, fuel - 1);
      PoppedSame(env, w.scope, binds, Render(env, macros, Push(w, binds), macros[macro].body, fuel - 1).0.scope);
    }
  }

  // ----- macro arguments

  /** The text a number keeps is its own. */
  ghost predicate Texts(env: Env, scope: seq<Bind>) {
    forall i :: 0 <= i < |scope| && scope[i].kind == NumB && scope[i].s.Some? ==> scope[i].s == Some(env.show(scope[i].n))
  }

  /** Rendering keeps it so. */
  lemma RenderKeepsTexts(env: Env, macros: Macros, w: World, node: Node, fuel: nat)
    requires Texts(env, w.scope)
    ensures Texts(env, Render(env, macros, w, node, fuel).0.scope)
  {
    hide Render;
    RenderKeepsScope(env, macros, w, node, fuel);
    var after := Render(env, macros, w, node, fuel).0.scope;
    forall i | 0 <= i < |after| && after[i].kind == NumB && after[i].s.Some?
      ensures after[i].s == Some(env.show(after[i].n))
    {
      assert SameBind(env, w.scope[i], after[i]);
    }
  }

  /** The value a name leads to is the value of the node it leads to. */
  ghost predicate Lawful(env: Env) {
    forall d, p, name {:trigger env.value(d, p, name)} ::
      env.value(d, p, name) == match env.obj(d, p, name) case None => None case Some(q) => env.value(d, q, "")
  }

  /** A parameter without dots is looked up in the call's own bindings. */
  lemma ParamFound(binds: seq<Bind>, scope: seq<Bind>, param: string, i: nat)
    requires i < |binds| && binds[i].name == param && '.' !in param
    requires forall j :: 0 <= j < i ==> binds[j].name != param
    ensures HeadOf(param) == param && RestOf(param) == None && LookupMap(binds + scope, param) == i
  {
    NoDot(param, 0);
    FindIs(binds + scope, param, 0, i);
  }

  lemma {:induction false} NoDot(name: string, i: nat)
    requires '.' !in name && i <= |name|
    ensures Dot(name, i) == |name|
    decreases |name| - i
  {
    if i < |name| {
      assert name[i] in name;
      NoDot(name, i + 1);
    }
  }

  lemma {:induction false} FindIs(scope: seq<Bind>, name: string, i: nat, k: nat)
    requires i <= k < |scope| && scope[k].name == name && forall j :: i <= j < k ==> scope[j].name != name
    ensures Find(scope, name, i) == k
    decreases k - i
  {
    if i < k {
      FindIs(scope, name, i + 1, k);
    }
  }

  /** A parameter is what its name finds in the macro if and only if the name has no dot and no
      earlier parameter has the name. */
  lemma ParameterFound(env: Env, w: World, params: seq<string>, args: seq<Arg>, i: nat)
    requires |params| == |args| && i < |args|
    ensures LookupMap(BindArgs(env, w, params, args) + w.scope, params[i]) == i
       <==> '.' !in params[i] && params[i] !in params[..i]
  {
    var binds := BindArgs(env, w, params, args);
    var scope := binds + w.scope;
    assert forall j :: 0 <= j < |binds| ==> scope[j].name == params[j];
    DotStops(params[i], 0);
    assert HeadOf(params[i]) == params[i][0..Dot(params[i], 0)];
    if '.' !in params[i] {
      NoDot(params[i], 0);
      assert HeadOf(params[i]) == params[i];
      hide BindArgs;
      if params[i] in params[..i] {
        var j :| 0 <= j < i && params[..i][j] == params[i];
        assert scope[j].name == params[i];
      } else {
        forall j | 0 <= j < i
          ensures scope[j].name != params[i]
        {
          assert params[..i][j] == params[j];
        }
        FindIs(scope, params[i], 0, i);
      }
    } else {
      assert HeadOf(params[i]) != params[i];
    }
  }

  /** What a parameter bound to an argument means, and what a name below it means. */
  function BoundValue(env: Env, w: World, arg: Arg, rest: Option<string>): Option<string> {
    match arg
    case Str(s) => Some(s)
    case Num(n) => Some(env.show(n))
    case Failing => None
    case Ref(name) =>
      var k := LookupMap(w.scope, name);
      if k < |w.scope| && w.scope[k].kind == NumB then Some(env.show(w.scope[k].n))
      else if k < |w.scope| && w.scope[k].kind == StrB then w.scope[k].s
      else if VarObj(env, w, name).None? then None
      else env.value(w.hdf, VarObj(env, w, name).value, if rest.Some? then rest.value else "")
  }

  /** What a name means in a macro: if the part before its dot is a parameter, what is below that
      parameter's node, or the parameter's text or number; else what it means to the caller. Whether
      the whole name is a parameter does not matter. */
  lemma NameInMacro(env: Env, w: World, params: seq<string>, args: seq<Arg>, name: string)
    requires |params| == |args|
    ensures var v := VarValue(env, Push(w, BindArgs(env, w, params, args)), name);
            && (HeadOf(name) !in params ==> v == VarValue(env, w, name))
            && (forall j :: 0 <= j < |params| && params[j] == HeadOf(name) && params[j] !in params[..j] ==>
                  v == BoundValue(env, w, args[j], RestOf(name)))
  {
    hide VarValue, HeadOf, BindArgs, BoundValue, RestOf, Push;
    if HeadOf(name) !in params {
      NotParameter(env, w, params, args, name);
    }
    forall j | 0 <= j < |params| && params[j] == HeadOf(name) && params[j] !in params[..j]
      ensures VarValue(env, Push(w, BindArgs(env, w, params, args)), name) == BoundValue(env, w, args[j], RestOf(name))
    {
      BelowParameter(env, w, params, args, j, name);
    }
  }

  lemma NotParameter(env: Env, w: World, params: seq<string>, args: seq<Arg>, name: string)
    requires |params| == |args| && HeadOf(name) !in params
    ensures VarValue(env, Push(w, BindArgs(env, w, params, args)), name) == VarValue(env, w, name)
  {
    var binds := BindArgs(env, w, params, args);
    assert forall j :: 0 <= j < |binds| ==> binds[j].name == params[j];
    FindBehind(binds, w.scope, HeadOf(name), 0);
    hide HeadOf, RestOf, BindArgs;
  }

  lemma BelowParameter(env: Env, w: World, params: seq<string>, args: seq<Arg>, j: nat, name: string)
    requires |params| == |args| && j < |args| && HeadOf(name) == params[j] && params[j] !in params[..j]
    ensures VarValue(env, Push(w, BindArgs(env, w, params, args)), name) == BoundValue(env, w, args[j], RestOf(name))
  {
    hide HeadOf, RestOf, BindArgs, Find, VarObj;
    var binds := BindArgs(env, w, params, args);
    var scope := binds + w.scope;
    assert forall k :: 0 <= k < |binds| ==> scope[k].name == params[k];
    forall k | 0 <= k < j
      ensures scope[k].name != params[j]
    {
      assert params[..j][k] == params[k];
    }
    FindIs(scope, params[j], 0, j);
    assert scope[j] == binds[j] == BindArg(env, w, params[j], args[j]);
  }

  /** Inside a macro a parameter that is found has the value its argument has for the caller:
      arguments are evaluated in the caller's scopes, not in those of the call. */
  lemma ArgumentValue(env: Env, w: World, params: seq<string>, args: seq<Arg>, i: nat)
    requires Lawful(env) && Texts(env, w.scope) && |params| == |args| && i < |args| && args[i].Ref?
    ensures var scope := BindArgs(env, w, params, args) + w.scope;
            && (LookupMap(scope, params[i]) == i <==> '.' !in params[i] && params[i] !in params[..i])
            && (LookupMap(scope, params[i]) == i ==>
                  VarValue(env, Push(w, BindArgs(env, w, params, args)), params[i]) == VarValue(env, w, args[i].name))
  {
    ParameterFound(env, w, params, args, i);
    if '.' !in params[i] && params[i] !in params[..i] {
      NoDot(params[i], 0);
      assert HeadOf(params[i]) == params[i] && RestOf(params[i]) == None;
      hide LookupMap, VarValue, HeadOf, RestOf, BindArgs;
      BelowParameter(env, w, params, args, i, params[i]);
      ArgumentMeans(env, w, args[i].name);
    }
  }

  lemma {:induction false} FindBehind(binds: seq<Bind>, scope: seq<Bind>, name: string, i: nat)
    requires i <= |binds| && forall j :: 0 <= j < |binds| ==> binds[j].name != name
    ensures Find(binds + scope, name, i) == |binds| + Find(scope, name, 0)
    decreases |binds| - i
  {
    if i == |binds| {
      FindShifted(binds, scope, name, 0);
    } else {
      FindBehind(binds, scope, name, i + 1);
    }
  }

  lemma {:induction false} FindShifted(binds: seq<Bind>, scope: seq<Bind>, name: string, i: nat)
    requires i <= |scope|
    ensures Find(binds + scope, name, |binds| + i) == |binds| + Find(scope, name, i)
    decreases |scope| - i
  {
    if i < |scope| {
      FindShifted(binds, scope, name, i + 1);
    }
  }

  /** A name passed as an argument is bound to what it means to the caller. */
  lemma ArgumentMeans(env: Env, w: World, name: string)
    requires Lawful(env) && Texts(env, w.scope)
    ensures BoundValue(env, w, Ref(name), None) == VarValue(env, w, name)
  {
    hide LookupMap, HeadOf, RestOf;
  }

  // ----- the numbers a loop binds

  /** After the rounds before it, how round k finds the loop variable. */
  lemma {:induction false} RoundVariable(env: Env, macros: Macros, w: World, name: string, start: int, step: int, n: nat, k: nat, body: Node, fuel: nat)
    requires w.scope != [] && w.scope[0] == NumBind(name) && k < n
    requires Rounds(env, macros, w, start, step, n, k, body, fuel).1 == Fine
    ensures var b := RoundStart(Rounds(env, macros, w, start, step, n, k, body, fuel).0, start, step, n, k).scope[0];
            && b.name == name && b.n == NthValue(start, step, k)
            && (b.first <==> k == 0) && (b.last <==> k == n - 1)
            && b.s == None && b.kind != VarB
    decreases k
  {
    hide Render, NthValue;
    if k > 0 {
      var before := Rounds(env, macros, w, start, step, n, k - 1, body, fuel).0;
      RoundVariable(env, macros, w, name, start, step, n, k - 1, body, fuel);
      var v := RoundStart(before, start, step, n, k - 1);
      RenderKeepsScope(env, macros, v, body, fuel);
      assert SameBind(env, v.scope[0], Render(env, macros, v, body, fuel).0.scope[0]);
    }
  }

  /** Round k of a loop shows its number, start + k * step, exactly if the loop variable is still
      a number: what a body assigns to the variable of its loop is gone in the next round, and so
      is the number. */
  lemma RoundShows(env: Env, macros: Macros, w: World, name: string, start: int, step: int, n: nat, k: nat, body: Node, fuel: nat)
    requires w.scope != [] && w.scope[0] == NumBind(name) && k < n && '.' !in name
    requires Rounds(env, macros, w, start, step, n, k, body, fuel).1 == Fine
    ensures var before := Rounds(env, macros, w, start, step, n, k, body, fuel).0;
            var v := RoundStart(before, start, step, n, k);
            && (VarValue(env, v, name) == Some(env.show(NthValue(start, step, k))) <==> before.scope[0].kind == NumB)
            && (before.scope[0].kind != NumB ==> VarValue(env, v, name) == None)
  {
    RoundVariable(env, macros, w, name, start, step, n, k, body, fuel);
    var v := RoundStart(Rounds(env, macros, w, start, step, n, k, body, fuel).0, start, step, n, k);
    hide Rounds, NthValue;
    assert v.scope == [v.scope[0]] + v.scope[1..];
    ParamFound([v.scope[0]], v.scope[1..], name, 0);
  }

  /** No command of the tree assigns to x. */
  predicate Spares(node: Node, x: string) {
    match node
    case End => true
    case Literal(_, next) => Spares(next, x)
    case Skip(next) => Spares(next, x)
    case Show(_, next) => Spares(next, x)
    case SetTo(name, _, next) => HeadOf(name) != x && Spares(next, x)
    case Branch(_, yes, no, next) => Spares(yes, x) && Spares(no, x) && Spares(next, x)
    case EachIn(_, _, body, next) => Spares(body, x) && Spares(next, x)
    case WithAs(_, _, body, next) => Spares(body, x) && Spares(next, x)
    case LoopOver(_, _, body, next) => Spares(body, x) && Spares(next, x)
    case Call(_, _, next) => Spares(next, x)
  }

  ghost predicate AllSpare(macros: Macros, x: string) {
    forall m :: m in macros ==> Spares(macros[m].body, x)
  }

  /** The bindings of x are of the kind they were. */
  ghost predicate SameKinds(a: seq<Bind>, b: seq<Bind>, x: string) {
    |a| == |b| && forall i {:trigger b[i]} :: 0 <= i < |a| ==>
      b[i].name == a[i].name && (a[i].name == x ==> b[i].kind == a[i].kind)
  }

  lemma SameKindsThrough(a: seq<Bind>, b: seq<Bind>, c: seq<Bind>, x: string)
    requires SameKinds(a, b, x) && SameKinds(b, c, x)
    ensures SameKinds(a, c, x)
  {
  }

  lemma SameKindsSelf(a: seq<Bind>, x: string)
    ensures SameKinds(a, a, x)
  {
  }

  lemma ArgKinds(env: Env, w: World, a: Arg, x: string)
    ensures SameKinds(w.scope, ArgText(env, w, a).0.scope, x) && SameKinds(w.scope, ArgNum(env, w, a).0.scope, x)
    ensures SameKinds(w.scope, ArgTruth(env, w, a).0.scope, x)
  {
  }

  lemma VarSetKinds(env: Env, w: World, name: string, value: Option<string>, x: string)
    requires HeadOf(name) != x
    ensures SameKinds(w.scope, VarSet(env, w, name, value).0.scope, x)
  {
  }

  lemma RangeKinds(env: Env, w: World, args: seq<Arg>, x: string)
    ensures SameKinds(w.scope, LoopRange(env, w, args).0.scope, x)
  {
    hide ArgNum, SameKinds;
    SameKindsSelf(w.scope, x);
    if 1 <= |args| <= 3 && args[0] != Failing {
      var a := ArgNum(env, w, args[0]);
      ArgKinds(env, w, args[0], x);
      if |args| > 1 && args[1] != Failing {
        var b := ArgNum(env, a.0, args[1]);
        ArgKinds(env, a.0, args[1], x);
        SameKindsThrough(w.scope, a.0.scope, b.0.scope, x);
        if |args| > 2 && args[2] != Failing {
          ArgKinds(env, b.0, args[2], x);
          SameKindsThrough(w.scope, b.0.scope, ArgNum(env, b.0, args[2]).0.scope, x);
        }
      }
    }
  }

  lemma PoppedKinds(scope: seq<Bind>, binds: seq<Bind>, after: seq<Bind>, x: string)
    requires SameKinds(binds + scope, after, x)
    ensures |binds| <= |after| && SameKinds(scope, after[|binds|..], x)
  {
    forall i | 0 <= i < |scope|
      ensures after[|binds|..][i].name == scope[i].name && (scope[i].name == x ==> after[|binds|..][i].kind == scope[i].kind)
    {
      assert (binds + scope)[|binds| + i] == scope[i];
      assert after[|binds| + i] == after[|binds|..][i];
    }
  }

  /** If neither a template nor any macro assigns to x, rendering leaves every x what it is. */
  lemma {:induction false} RenderKinds(env: Env, macros: Macros, w: World, node: Node, fuel: nat, x: string)
    requires AllSpare(macros, x) && Spares(node, x)
    ensures SameKinds(w.scope, Render(env, macros, w, node, fuel).0.scope, x)
    decreases fuel, node, 5
  {
    hide SameKinds, Eval, AllSpare, HeadOf;
    SameKindsSelf(w.scope, x);
    if !node.End? {
      EvalKinds(env, macros, w, node, fuel, x);
      var e := Eval(env, macros, w, node, fuel);
      if e.1 == Fine {
        RenderKinds(env, macros, e.0, NextOf(node), fuel, x);
        SameKindsThrough(w.scope, e.0.scope, Render(env, macros, e.0, NextOf(node), fuel).0.scope, x);
      }
    }
  }

  lemma {:induction false} EvalKinds(env: Env, macros: Macros, w: World, node: Node, fuel: nat, x: string)
    requires !node.End? && AllSpare(macros, x) && Spares(node, x)
    ensures SameKinds(w.scope, Eval(env, macros, w, node, fuel).0.scope, x)
    decreases fuel, node, 4
  {
    hide SameKinds, ArgText, ArgTruth, VarSet, Render, RenderEach, RenderWith, RenderLoop, RenderCall, AllSpare, HeadOf;
    SameKindsSelf(w.scope, x);
    match node
    case Literal(_, _) =>
    case Skip(_) =>
    case Show(a, _) =>
      ArgKinds(env, w, a, x);
    case SetTo(name, a, _) =>
      var t := ArgText(env, w, a);
      ArgKinds(env, w, a, x);
      VarSetKinds(env, t.0, name, t.1, x);
      SameKindsThrough(w.scope, t.0.scope, VarSet(env, t.0, name, t.1).0.scope, x);
    case Branch(a, yes, no, _) =>
      var t := ArgTruth(env, w, a);
      ArgKinds(env, w, a, x);
      var branch := if t.1 then yes else no;
      RenderKinds(env, macros, t.0, branch, fuel, x);
      SameKindsThrough(w.scope, t.0.scope, Render(env, macros, t.0, branch, fuel).0.scope, x);
    case EachIn(name, a, body, _) =>
      EachKinds(env, macros, w, name, a, body, fuel, x);
    case WithAs(name, a, body, _) =>
      WithKinds(env, macros, w, name, a, body, fuel, x);
    case LoopOver(name, args, body, _) =>
      LoopKinds(env, macros, w, name, args, body, fuel, x);
    case Call(_, _, _) =>
      CallKinds(env, macros, w, node, fuel, x);
  }

  lemma {:induction false} EachKinds(env: Env, macros: Macros, w: World, name: string, a: Arg, body: Node, fuel: nat, x: string)
    requires AllSpare(macros, x) && Spares(body, x)
    ensures SameKinds(w.scope, RenderEach(env, macros, w, name, a, body, fuel).0.scope, x)
    decreases fuel, body, 7
  {
    hide EachFrom, SameKinds, AllSpare, Spares;
    SameKindsSelf(w.scope, x);
    if a.Ref? && VarObj(env, w, a.name).Some? {
      var b := NodeBind(name, None, true);
      EachFromKinds(env, macros, Push(w, [b]), VarObj(env, w, a.name).value, 0, body, fuel, x);
      PoppedKinds(w.scope, [b], EachFrom(env, macros, Push(w, [b]), VarObj(env, w, a.name).value, 0, body, fuel).0.scope, x);
    }
  }

  lemma {:induction false} EachFromKinds(env: Env, macros: Macros, w: World, p: Path, i: nat, body: Node, fuel: nat, x: string)
    requires w.scope != [] && AllSpare(macros, x) && Spares(body, x)
    ensures SameKinds(w.scope, EachFrom(env, macros, w, p, i, body, fuel).0.scope, x)
    decreases fuel, body, 6
  {
    hide Render, SameKinds, AllSpare, Spares;
    SameKindsSelf(w.scope, x);
    var c := env.kid(w.hdf, p, i);
    if c.Some? && fuel > 0 {
      var v := WithTop(w, w.scope[0].(h := c));
      RenderKinds(env, macros, v, body, fuel, x);
      var b := Render(env, macros, v, body, fuel);
      RoundKinds(w, v, b.0, x);
      if b.1 == Fine {
        var u := EndRound(b.0);
        EachFromKinds(env, macros, u, p, i + 1, body, fuel - 1, x);
        SameKindsThrough(w.scope, u.scope, EachFrom(env, macros, u, p, i + 1, body, fuel - 1).0.scope, x);
      }
    }
  }

  lemma RoundKinds(w: World, v: World, b: World, x: string)
    requires w.scope != [] && v.scope != [] && v.scope[1..] == w.scope[1..]
    requires v.scope[0].name == w.scope[0].name && v.scope[0].kind == w.scope[0].kind && SameKinds(v.scope, b.scope, x)
    ensures b.scope != [] && SameKinds(w.scope, EndRound(b).scope, x)
  {
    var e := EndRound(b).scope;
    forall i | 0 <= i < |w.scope|
      ensures e[i].name == w.scope[i].name && (w.scope[i].name == x ==> e[i].kind == w.scope[i].kind)
    {
      if i > 0 {
        assert w.scope[i] == w.scope[1..][i - 1] == v.scope[1..][i - 1] == v.scope[i];
        assert e[i] == e[1..][i - 1] == b.scope[1..][i - 1] == b.scope[i];
      }
    }
  }

  lemma {:induction false} WithKinds(env: Env, macros: Macros, w: World, name: string, a: Arg, body: Node, fuel: nat, x: string)
    requires AllSpare(macros, x) && Spares(body, x)
    ensures SameKinds(w.scope, RenderWith(env, macros, w, name, a, body, fuel).0.scope, x)
    decreases fuel, body, 7
  {
    hide Render, SameKinds, AllSpare, Spares;
    SameKindsSelf(w.scope, x);
    if a.Ref? && VarObj(env, w, a.name).Some? {
      var b := NodeBind(name, VarObj(env, w, a.name), false);
      RenderKinds(env, macros, Push(w, [b]), body, fuel, x);
      PoppedKinds(w.scope, [b], Render(env, macros, Push(w, [b]), body, fuel).0.scope, x);
    }
  }

  lemma {:induction false} LoopKinds(env: Env, macros: Macros, w: World, name: string, args: seq<Arg>, body: Node, fuel: nat, x: string)
    requires AllSpare(macros, x) && Spares(body, x)
    ensures SameKinds(w.scope, RenderLoop(env, macros, w, name, args, body, fuel).0.scope, x)
    decreases fuel, body, 7
  {
    hide Rounds, SameKinds, LoopRange, Iterations, AllSpare, Spares;
    RangeKinds(env, w, args, x);
    var a := LoopRange(env, w, args);
    if a.1.Some? {
      var range := a.1.value;
      var n := Iterations(range.start, range.end, range.step);
      if n > 0 {
        var v := Push(a.0, [NumBind(name)]);
        var after := Rounds(env, macros, v, range.start, range.step, n, n, body, fuel).0.scope;
        RoundsKinds(env, macros, v, range.start, range.step, n, n, body, fuel, x);
        PoppedKinds(a.0.scope, [NumBind(name)], after, x);
        SameKindsThrough(w.scope, a.0.scope, after[1..], x);
      }
    }
  }

  lemma {:induction false} RoundsKinds(env: Env, macros: Macros, w: World, start: int, step: int, n: nat, k: nat, body: Node, fuel: nat, x: string)
    requires w.scope != [] && AllSpare(macros, x) && Spares(body, x)
    ensures SameKinds(w.scope, Rounds(env, macros, w, start, step, n, k, body, fuel).0.scope, x)
    decreases fuel, body, 6, k
  {
    hide Render, SameKinds, AllSpare, Spares;
    SameKindsSelf(w.scope, x);
    if k > 0 {
      RoundsKinds(env, macros, w, start, step, n, k - 1, body, fuel, x);
      var before := Rounds(env, macros, w, start, step, n, k - 1, body, fuel);
      if before.1 == Fine {
        var v := RoundStart(before.0, start, step, n, k - 1);
        RenderKinds(env, macros, v, body, fuel, x);
        var b := Render(env, macros, v, body, fuel);
        RoundKinds(before.0, v, b.0, x);
        SameKindsThrough(w.scope, before.0.scope, EndRound(b.0).scope, x);
      }
    }
  }

  lemma {:induction false} CallKinds(env: Env, macros: Macros, w: World, node: Node, fuel: nat, x: string)
    requires node.Call? && AllSpare(macros, x)
    ensures SameKinds(w.scope, RenderCall(env, macros, w, node, fuel).0.scope, x)
    decreases fuel, node, 3
  {
    hide Render, SameKinds, BindArgs;
    SameKindsSelf(w.scope, x);
    var macro, args := node.macro, node.args;
    if macro in macros && |args| == |macros[macro].params| && !Fails(args) && fuel > 0 {
      var binds := BindArgs(env, w, macros[macro].params, args);
      RenderKinds(env, macros, Push(w, binds), macros[macro].body, fuel - 1, x);
      PoppedKinds(w.scope, binds, Render(env, macros, Push(w, binds), macros[macro].body, fuel - 1).0.scope, x);
    }
  }

  /** In a loop whose variable nobody assigns to, every round shows its own number. */
  lemma LoopShowsNumbers(env: Env, macros: Macros, w: World, name: string, start: int, step: int, n: nat, k: nat, body: Node, fuel: nat)
    requires w.scope != [] && w.scope[0] == NumBind(name) && k < n && '.' !in name
    requires AllSpare(macros, name) && Spares(body, name)
    requires Rounds(env, macros, w, start, step, n, k, body, fuel).1 == Fine
    ensures var v := RoundStart(Rounds(env, macros, w, start, step, n, k, body, fuel).0, start, step, n, k);
            && VarValue(env, v, name) == Some(env.show(NthValue(start, step, k)))
            && (v.scope[0].first <==> k == 0) && (v.scope[0].last <==> k == n - 1)
  {
    RoundsKinds(env, macros, w, start, step, n, k, body, fuel, name);
    RoundShows(env, macros, w, name, start, step, n, k, body, fuel);
    RoundVariable(env, macros, w, name, start, step, n, k, body, fuel);
    assert Rounds(env, macros, w, start, step, n, k, body, fuel).0.scope[0].kind == NumB;
  }

  /** Once a round leaves the loop variable a string, no later round has a value for it: the end
      of the round frees the string, and nothing makes the variable a number again. */
  lemma {:induction false} LoopVariableLost(env: Env, macros: Macros, w: World, name: string, start: int, step: int, n: nat,
                                            k: nat, m: nat, body: Node, fuel: nat)
    requires w.scope != [] && w.scope[0] == NumBind(name) && '.' !in name && k <= m < n
    requires Rounds(env, macros, w, start, step, n, m, body, fuel).1 == Fine
    requires Rounds(env, macros, w, start, step, n, k, body, fuel).0.scope[0].kind != NumB
    ensures Rounds(env, macros, w, start, step, n, m, body, fuel).0.scope[0].kind != NumB
    ensures VarValue(env, RoundStart(Rounds(env, macros, w, start, step, n, m, body, fuel).0, start, step, n, m), name) == None
    decreases m
  {
    RoundShows(env, macros, w, name, start, step, n, m, body, fuel);
    if k < m {
      hide VarValue, Render;
      LoopVariableLost(env, macros, w, name, start, step, n, k, m - 1, body, fuel);
      var v := RoundStart(Rounds(env, macros, w, start, step, n, m - 1, body, fuel).0, start, step, n, m - 1);
      RenderKeepsScope(env, macros, v, body, fuel);
      assert SameBind(env, v.scope[0], Render(env, macros, v, body, fuel).0.scope[0]);
      RoundShows(env, macros, w, name, start, step, n, m, body, fuel);
    }
  }

  /** An assignment of a text to a local number or string makes it a string, whatever follows. */
  lemma AssignedIsString(env: Env, macros: Macros, v: World, name: string, text: string, next: Node, fuel: nat)
    requires v.scope != [] && v.scope[0].name == name && v.scope[0].kind != VarB && '.' !in name
    ensures Render(env, macros, v, SetTo(name, Str(text), next), fuel).0.scope[0].kind == StrB
  {
    assert v.scope == [v.scope[0]] + v.scope[1..];
    ParamFound([v.scope[0]], v.scope[1..], name, 0);
    var s := VarSet(env, v, name, Some(text));
    assert s.1 == Fine && s.0.scope[0].kind == StrB;
    assert Eval(env, macros, v, SetTo(name, Str(text), next), fuel) == s;
    RenderKeepsScope(env, macros, s.0, next, fuel);
    assert SameBind(env, s.0.scope[0], Render(env, macros, s.0, next, fuel).0.scope[0]);
  }

  /** So a loop whose body starts with an assignment of a text to its variable has no value for it
      in any round but the first. */
  lemma AssigningLoop(env: Env, macros: Macros, w: World, name: string, start: int, step: int, n: nat,
                      m: nat, text: string, next: Node, fuel: nat)
    requires w.scope != [] && w.scope[0] == NumBind(name) && '.' !in name && 0 < m < n
    requires Rounds(env, macros, w, start, step, n, m, SetTo(name, Str(text), next), fuel).1 == Fine
    ensures VarValue(env, RoundStart(Rounds(env, macros, w, start, step, n, m, SetTo(name, Str(text), next), fuel).0,
                                     start, step, n, m), name) == None
  {
    var body := SetTo(name, Str(text), next);
    var v := RoundStart(w, start, step, n, 0);
    AssignedIsString(env, macros, v, name, text, next, fuel);
    assert Rounds(env, macros, w, start, step, n, 0, body, fuel) == (w, Fine);
    assert Rounds(env, macros, w, start, step, n, 1, body, fuel).0 == EndRound(Render(env, macros, v, body, fuel).0);
    hide Rounds, Render, VarValue;
    LoopVariableLost(env, macros, w, name, start, step, n, 1, m, body, fuel);
  }
}

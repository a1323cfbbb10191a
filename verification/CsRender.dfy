/** Rendering, and what it keeps of the scopes. */
module CsRender {
  import opened Wrappers
  import opened HdfNames
  import opened CsScope

  /** What a rendering may do to the bindings it finds: a number or string may become a string,
      nothing else changes. */
  predicate SameBind(env: Env, a: Bind, b: Bind) {
    && b.name == a.name && b.n == a.n && b.h == a.h && b.first == a.first && b.last == a.last
    && (b.kind == a.kind || (a.kind == NumB && b.kind == StrB))
    && ((b.s == a.s && b.alloc == a.alloc) || b.alloc)
    && (a.kind == VarB ==> b == a)
    && (b.kind == NumB && b.s != a.s ==> b.s == Some(env.show(b.n)))
  }

  /** The list of scopes is as it was. */
  ghost predicate SameScope(env: Env, a: seq<Bind>, b: seq<Bind>) {
    |a| == |b| && forall i {:trigger b[i]} :: 0 <= i < |a| ==> SameBind(env, a[i], b[i])
  }

  function Push(w: World, binds: seq<Bind>): (w': World) {
    w.(scope := binds + w.scope)
  }

  function Pop(w: World, n: nat): (w': World)
    requires n <= |w.scope|
  {
    w.(scope := w.scope[n..])
  }

  /** The end of a round: the text of the loop variable is freed, and it is not the first any more. */
  function EndRound(w: World): (w': World)
    requires w.scope != []
    ensures w'.scope != [] && w'.scope[1..] == w.scope[1..]
  {
    var b := w.scope[0];
    w.(scope := [b.(s := if b.alloc then None else b.s, first := false)] + w.scope[1..])
  }

  function WithTop(w: World, b: Bind): (w': World)
    requires w.scope != []
    ensures w'.scope != [] && w'.scope[0] == b && w'.scope[1..] == w.scope[1..]
  {
    w.(scope := [b] + w.scope[1..])
  }

  function NumBind(name: string): Bind {
    Bind(name, NumB, None, 0, None, false, true, false)
  }

  function NodeBind(name: string, h: Option<Path>, first: bool): Bind {
    Bind(name, VarB, None, 0, h, false, first, false)
  }

  /** A macro's parameter, bound to the value an argument has for the caller. */
  function BindArg(env: Env, w: World, param: string, a: Arg): (b: Bind) {
    match a
    case Str(s) => Bind(param, StrB, Some(s), 0, None, false, false, false)
    case Num(n) => Bind(param, NumB, None, n, None, false, false, false)
    case Failing => Bind(param, StrB, None, 0, None, false, false, false)
    case Ref(name) =>
      var k := LookupMap(w.scope, name);
      if k < |w.scope| && w.scope[k].kind == NumB then Bind(param, NumB, None, w.scope[k].n, None, false, false, false)
      else if k < |w.scope| && w.scope[k].kind == StrB then Bind(param, StrB, w.scope[k].s, 0, None, false, false, false)
      else Bind(param, VarB, Some(name), 0, VarObj(env, w, name), false, false, false)
  }

  function BindArgs(env: Env, w: World, params: seq<string>, args: seq<Arg>): (binds: seq<Bind>)
    requires |params| == |args|
    ensures |binds| == |params|
    ensures forall i {:trigger binds[i]} :: 0 <= i < |binds| ==> binds[i] == BindArg(env, w, params[i], args[i])
  {
    seq(|params|, i requires 0 <= i < |params| => BindArg(env, w, params[i], args[i]))
  }

  datatype Range = Range(start: int, end: int, step: int)

  /** The bounds of a loop: one argument is its end, two its start and end, three also its step. */
  function LoopRange(env: Env, w: World, args: seq<Arg>): (r: (World, Option<Range>))
    ensures |r.0.scope| == |w.scope|
  {
    if !(1 <= |args| <= 3) || args[0] == Failing then (w, None)
    else
      var a := ArgNum(env, w, args[0]);
      if |args| == 1 then (a.0, Some(Range(0, a.1, 1)))
      else if args[1] == Failing then (a.0, None)
      else
        var b := ArgNum(env, a.0, args[1]);
        if |args| == 2 then (b.0, Some(Range(a.1, b.1, 1)))
        else if args[2] == Failing then (b.0, None)
        else
          var c := ArgNum(env, b.0, args[2]);
          (c.0, Some(Range(a.1, b.1, c.1)))
  }

  predicate Fails(args: seq<Arg>) {
    exists i :: 0 <= i < |args| && args[i] == Failing
  }

  function NextOf(node: Node): Node
    requires !node.End?
  {
    node.next
  }

  /** `render_node`: one node after the other, up to the first error. */
  function Render(env: Env, macros: Macros, w: World, node: Node, fuel: nat): (r: (World, Status))
    ensures |r.0.scope| == |w.scope|
    decreases fuel, node, 5
  {
    if node.End? then (w, Fine)
    else
      var e := Eval(env, macros, w, node, fuel);
      if e.1 != Fine then e else Render(env, macros, e.0, NextOf(node), fuel)
  }

  /** The handler of one node. */
  function Eval(env: Env, macros: Macros, w: World, node: Node, fuel: nat): (r: (World, Status))
    requires !node.End?
    ensures |r.0.scope| == |w.scope|
    decreases fuel, node, 4
  {
    match node
    case Literal(text, _) => (w.(out := w.out + text), Fine)
    case Skip(_) => (w, Fine)
    case Show(a, _) =>
      if a == Failing then (w, Raised)
      else
        var t := ArgText(env, w, a);
        (if t.1.Some? then t.0.(out := t.0.out + t.1.value) else t.0, Fine)
    case SetTo(name, a, _) =>
      if a == Failing then (w, Raised)
      else
        var t := ArgText(env, w, a);
        VarSet(env, t.0, name, t.1)
    case Branch(a, yes, no, _) =>
      if a == Failing then (w, Raised)
      else
        var t := ArgTruth(env, w, a);
        Render(env, macros, t.0, if t.1 then yes else no, fuel)
    case EachIn(name, a, body, _) =>
      if a == Failing then (w, Raised) else RenderEach(env, macros, w, name, a, body, fuel)
    case WithAs(name, a, body, _) =>
      if a == Failing then (w, Raised) else RenderWith(env, macros, w, name, a, body, fuel)
    case LoopOver(name, args, body, _) => RenderLoop(env, macros, w, name, args, body, fuel)
    case Call(_, _, _) => RenderCall(env, macros, w, node, fuel)
  }

  function RenderEach(env: Env, macros: Macros, w: World, name: string, a: Arg, body: Node, fuel: nat): (r: (World, Status))
    ensures |r.0.scope| == |w.scope|
    decreases fuel, body, 7
  {
    if !a.Ref? || VarObj(env, w, a.name).None? then (w, Fine)
    else
      var e := EachFrom(env, macros, Push(w, [NodeBind(name, None, true)]), VarObj(env, w, a.name).value, 0, body, fuel);
      (Pop(e.0, 1), e.1)
  }

  /** The children of p from the i-th on; what the body adds at the end of the level is met too. */
  function EachFrom(env: Env, macros: Macros, w: World, p: Path, i: nat, body: Node, fuel: nat): (r: (World, Status))
    requires w.scope != []
    ensures |r.0.scope| == |w.scope|
    decreases fuel, body, 6
  {
    var c := env.kid(w.hdf, p, i);
    if c.None? then (w, Fine)
    else if fuel == 0 then (w, OutOfFuel)
    else
      var b := Render(env, macros, WithTop(w, w.scope[0].(h := c)), body, fuel);
      var w' := EndRound(b.0);
      if b.1 != Fine then (w', b.1) else EachFrom(env, macros, w', p, i + 1, body, fuel - 1)
  }

  function RenderWith(env: Env, macros: Macros, w: World, name: string, a: Arg, body: Node, fuel: nat): (r: (World, Status))
    ensures |r.0.scope| == |w.scope|
    decreases fuel, body, 7
  {
    if !a.Ref? || VarObj(env, w, a.name).None? then (w, Fine)
    else
      var b := Render(env, macros, Push(w, [NodeBind(name, VarObj(env, w, a.name), false)]), body, fuel);
      (Pop(b.0, 1), b.1)
  }

  function RenderLoop(env: Env, macros: Macros, w: World, name: string, args: seq<Arg>, body: Node, fuel: nat)
    : (r: (World, Status))
    ensures |r.0.scope| == |w.scope|
    decreases fuel, body, 7
  {
    var a := LoopRange(env, w, args);
    if a.1.None? then (a.0, Raised)
    else
      var range := a.1.value;
      var n := Iterations(range.start, range.end, range.step);
      if n <= 0 then (a.0, Fine)
      else
        var e := Rounds(env, macros, Push(a.0, [NumBind(name)]), range.start, range.step, n, n, body, fuel);
        (Pop(e.0, 1), e.1)
  }

  /** The state in which the body of round k starts. */
  function RoundStart(w: World, start: int, step: int, n: nat, k: nat): (w': World)
    requires w.scope != []
    ensures w'.scope != [] && |w'.scope| == |w.scope| && w'.scope[1..] == w.scope[1..]
  {
    WithTop(w, w.scope[0].(n := NthValue(start, step, k), last := w.scope[0].last || k == n - 1))
  }

  /** The first k rounds of a loop of n. */
  function Rounds(env: Env, macros: Macros, w: World, start: int, step: int, n: nat, k: nat, body: Node, fuel: nat)
    : (r: (World, Status))
    requires w.scope != []
    ensures |r.0.scope| == |w.scope|
    decreases fuel, body, 6, k
  {
    if k == 0 then (w, Fine)
    else
      var before := Rounds(env, macros, w, start, step, n, k - 1, body, fuel);
      if before.1 != Fine then before
      else
        var b := Render(env, macros, RoundStart(before.0, start, step, n, k - 1), body, fuel);
        (EndRound(b.0), b.1)
  }

  function RenderCall(env: Env, macros: Macros, w: World, node: Node, fuel: nat): (r: (World, Status))
    requires node.Call?
    ensures |r.0.scope| == |w.scope|
    decreases fuel, node, 3
  {
    var macro, args := node.macro, node.args;
    if macro !in macros || |args| != |macros[macro].params| || Fails(args) then (w, Raised)
    else if fuel == 0 then (w, OutOfFuel)
    else
      var binds := BindArgs(env, w, macros[macro].params, args);
      var b := Render(env, macros, Push(w, binds), macros[macro].body, fuel - 1);
      (Pop(b.0, |binds|), b.1)
  }
}

/** Rendering a template, as a function: local variables are a list of bindings, innermost first.
    What the evaluator asks of the dataset is a parameter. */
module CsScope {
  import opened Wrappers
  import opened HdfNames
  import opened HdfDir
  import NumberTheory

  datatype BindKind = VarB | StrB | NumB

  /** `CS_LOCAL_MAP`: a name for a node of the dataset, a string or a number. For a number, s is
      its text once somebody asked for it. */
  datatype Bind = Bind(name: string, kind: BindKind, s: Option<string>, n: int, h: Option<Path>,
                       alloc: bool, first: bool, last: bool)

  /** What is asked of the dataset, and conversions of text and numbers. */
  datatype Env = Env(
    top: Path,
    value: (Dir, Path, string) -> Option<string>,  // of the node a name leads to; "" is the node itself
    obj: (Dir, Path, string) -> Option<Path>,
    put: (Dir, Path, string, Option<string>) -> (Dir, bool),
    kid: (Dir, Path, nat) -> Option<Path>,
    show: int -> string,
    num: string -> int,
    truth: string -> bool)

  datatype World = World(scope: seq<Bind>, hdf: Dir, out: string)

  datatype Status = Fine | Raised | OutOfFuel

  /** An argument of a command, as far as the scopes matter. Failing is an expression whose
      evaluation raises an error. */
  datatype Arg = Str(s: string) | Num(n: int) | Ref(name: string) | Failing

  datatype Node =
    | End
    | Literal(text: string, next: Node)
    | Show(arg: Arg, next: Node)
    | SetTo(name: string, arg: Arg, next: Node)
    | Branch(arg: Arg, yes: Node, no: Node, next: Node)
    | EachIn(name: string, arg: Arg, body: Node, next: Node)
    | WithAs(name: string, arg: Arg, body: Node, next: Node)
    | LoopOver(name: string, args: seq<Arg>, body: Node, next: Node)
    | Call(macro: string, args: seq<Arg>, next: Node)
    | Skip(next: Node)

  datatype Macro = Macro(params: seq<string>, body: Node)

  type Macros = map<string, Macro>

  // ----- names

  /** The part of a name that can be a local variable. */
  function HeadOf(name: string): string {
    name[..Dot(name, 0)]
  }

  /** What follows the first dot, if there is one. */
  function RestOf(name: string): Option<string> {
    var d := Dot(name, 0);
    if d == |name| then None else Some(name[d + 1..])
  }

  /** The innermost binding of a name: its place, or the length of the list. */
  function Find(scope: seq<Bind>, name: string, i: nat): (k: nat)
    requires i <= |scope|
    ensures i <= k <= |scope|
    ensures k < |scope| ==> scope[k].name == name
    ensures forall j :: i <= j < k ==> scope[j].name != name
    decreases |scope| - i
  {
    if i == |scope| || scope[i].name == name then i else Find(scope, name, i + 1)
  }

  function LookupMap(scope: seq<Bind>, name: string): (k: nat)
    ensures k <= |scope| && (k < |scope| ==> scope[k].name == HeadOf(name))
  {
    Find(scope, HeadOf(name), 0)
  }

  // ----- variables

  /** The node a name stands for. */
  function VarObj(env: Env, w: World, name: string): Option<Path> {
    var k := LookupMap(w.scope, name);
    if k < |w.scope| && w.scope[k].kind == VarB then
      match RestOf(name)
      case None => w.scope[k].h
      case Some(rest) => if w.scope[k].h.None? then None else env.obj(w.hdf, w.scope[k].h.value, rest)
    else env.obj(w.hdf, env.top, name)
  }

  /** The value a name stands for. */
  function VarValue(env: Env, w: World, name: string): Option<string> {
    var k := LookupMap(w.scope, name);
    if k == |w.scope| then env.value(w.hdf, env.top, name)
    else
      var b := w.scope[k];
      match b.kind
      case VarB =>
        if b.h.None? then None
        else env.value(w.hdf, b.h.value, if RestOf(name).Some? then RestOf(name).value else "")
      case StrB => b.s
      case NumB => if b.s.Some? then b.s else Some(env.show(b.n))
  }

  /** Asking for the value of a number keeps its text. */
  function Asked(env: Env, w: World, name: string): (w': World)
    ensures |w'.scope| == |w.scope|
  {
    var k := LookupMap(w.scope, name);
    if k < |w.scope| && w.scope[k].kind == NumB && w.scope[k].s.None? then
      w.(scope := w.scope[k := w.scope[k].(s := Some(env.show(w.scope[k].n)), alloc := true)])
    else w
  }

  function StoreAt(env: Env, w: World, n: Path, name: string, value: Option<string>): (World, Status) {
    var r := env.put(w.hdf, n, name, value);
    (w.(hdf := r.0), if r.1 then Fine else Raised)
  }

  /** `var_set_value`: a local number or string becomes the string; otherwise the dataset is set. */
  function VarSet(env: Env, w: World, name: string, value: Option<string>): (r: (World, Status))
    ensures |r.0.scope| == |w.scope|
  {
    var k, rest := LookupMap(w.scope, name), RestOf(name);
    if k == |w.scope| then StoreAt(env, w, env.top, name, value)
    else
      var b := w.scope[k];
      if b.kind == VarB then
        if b.h.None? then
          var base := if b.s.Some? then b.s.value else "";
          StoreAt(env, w, env.top, if rest.Some? then base + "." + rest.value else base, value)
        else StoreAt(env, w, b.h.value, if rest.Some? then rest.value else "", value)
      else if rest.Some? then (w, Fine)
      else if value.None? then (w, Raised)
      else (w.(scope := w.scope[k := b.(kind := StrB, alloc := true, s := value)]), Fine)
  }

  /** The text a command prints or stores for an argument; asking a local number keeps its text. */
  function ArgText(env: Env, w: World, a: Arg): (r: (World, Option<string>))
    ensures |r.0.scope| == |w.scope|
  {
    match a
    case Str(s) => (w, Some(s))
    case Num(n) => (w, Some(env.show(n)))
    case Ref(name) => (Asked(env, w, name), VarValue(env, w, name))
    case Failing => (w, None)
  }

  function ArgNum(env: Env, w: World, a: Arg): (r: (World, int))
    ensures |r.0.scope| == |w.scope|
  {
    match a
    case Str(s) => (w, env.num(s))
    case Num(n) => (w, n)
    case Ref(name) => (Asked(env, w, name), if VarValue(env, w, name).Some? then env.num(VarValue(env, w, name).value) else 0)
    case Failing => (w, 0)
  }

  function ArgTruth(env: Env, w: World, a: Arg): (r: (World, bool))
    ensures |r.0.scope| == |w.scope|
  {
    match a
    case Num(n) => (w, n != 0)
    case _ =>
      var t := ArgText(env, w, a);
      (t.0, t.1.Some? && t.1.value != "" && env.truth(t.1.value))
  }

  // ----- loops

  /** Division as in C. */
  function TruncDiv(a: int, b: int): int
    requires b != 0
  {
    if (a >= 0) == (b > 0) then NumberTheory.Abs(a) / NumberTheory.Abs(b)
    else -(NumberTheory.Abs(a) / NumberTheory.Abs(b))
  }

  function Iterations(start: int, end: int, step: int): (n: int) {
    if (step < 0 && start < end) || (step > 0 && end < start) then 0
    else if step == 0 then 0
    else NumberTheory.Abs(TruncDiv(end - start, step) + 1)
  }

  /** The number bound in the k-th round of a loop. */
  function NthValue(start: int, step: int, k: nat): int {
    start + k * step
  }

  /** A loop runs through exactly the numbers from start on, by step, that are not past end. */
  lemma LoopBounds(start: int, end: int, step: int)
    ensures var n := Iterations(start, end, step);
            && n >= 0
            && (step == 0 ==> n == 0)
            && (step > 0 ==> forall k: nat {:trigger NthValue(start, step, k)} :: k < n <==> NthValue(start, step, k) <= end)
            && (step < 0 ==> forall k: nat {:trigger NthValue(start, step, k)} :: k < n <==> NthValue(start, step, k) >= end)
  {
    hide Iterations, NthValue;
    if step > 0 {
      IterationsUp(start, end, step);
      forall k: nat
        ensures k < Iterations(start, end, step) <==> NthValue(start, step, k) <= end
      {
        Up(start, end, step, k);
      }
    } else if step < 0 {
      IterationsDown(start, end, step);
      forall k: nat
        ensures k < Iterations(start, end, step) <==> NthValue(start, step, k) >= end
      {
        Up(-start, -end, -step, k);
        Mirrored(start, step, k);
      }
    } else {
      IterationsNone(start, end);
    }
  }

  /** How many rounds a loop with a positive step makes. */
  function Turns(start: int, end: int, step: int): (n: nat)
    requires step > 0
  {
    if start <= end then (end - start) / step + 1 else 0
  }

  lemma IterationsUp(start: int, end: int, step: int)
    requires step > 0
    ensures Iterations(start, end, step) == Turns(start, end, step)
  {
  }

  lemma IterationsDown(start: int, end: int, step: int)
    requires step < 0
    ensures Iterations(start, end, step) == Turns(-start, -end, -step)
  {
  }

  lemma IterationsNone(start: int, end: int)
    ensures Iterations(start, end, 0) == 0
  {
  }

  lemma Mirrored(start: int, step: int, k: nat)
    ensures NthValue(-start, -step, k) == -NthValue(start, step, k)
  {
  }

  lemma Up(start: int, end: int, step: int, k: nat)
    requires step > 0
    ensures k < Turns(start, end, step) <==> NthValue(start, step, k) <= end
  {
    if start <= end {
      Multiple(end - start, step, k);
    } else {
      NonNegative(k, step);
    }
  }

  lemma NonNegative(k: nat, step: nat)
    ensures k * step >= 0
  {
  }

  lemma Quotient(a: nat, b: nat)
    requires b > 0
    ensures a / b * b <= a < (a / b + 1) * b
  {
  }

  lemma Multiple(a: nat, b: nat, k: nat)
    requires b > 0
    ensures k <= a / b <==> k * b <= a
  {
    Quotient(a, b);
    if k <= a / b {
      assert k * b <= a / b * b;
    } else {
      assert k * b >= (a / b + 1) * b;
    }
  }
}

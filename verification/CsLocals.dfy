/** The evaluator on its chain of local maps: handlers put maps in front of `parse->locals`, and
    take them away again. */
module CsLocals {
  import opened Wrappers
  import opened HdfNames
  import opened HdfDir
  import NumberTheory
  import opened CsScope
  import opened CsRender

  /** `CS_LOCAL_MAP` */
  class LocalMap {
    const name: string
    var kind: BindKind
    var s: Option<string>
    var n: int
    var h: Option<Path>
    var alloc: bool
    var first: bool
    var last: bool
    var next: LocalMap?

    constructor (b: Bind, next: LocalMap?)
      ensures AsBind() == b && this.next == next
    {
      name, kind, s, n, h := b.name, b.kind, b.s, b.n, b.h;
      alloc, first, last := b.alloc, b.first, b.last;
      this.next := next;
    }

    function AsBind(): Bind
      reads this`kind, this`s, this`n, this`h, this`alloc, this`first, this`last
    {
      Bind(name, kind, s, n, h, alloc, first, last)
    }
  }

  ghost function ScopeOf(chain: seq<LocalMap>): (scope: seq<Bind>)
    reads chain
    ensures |scope| == |chain|
    ensures forall i {:trigger scope[i]} :: 0 <= i < |chain| ==> scope[i] == chain[i].AsBind()
  {
    seq(|chain|, i requires 0 <= i < |chain| reads chain => chain[i].AsBind())
  }

  function Nth(chain: seq<LocalMap>, i: nat): LocalMap? {
    if i < |chain| then chain[i] else null
  }

  /** The maps of the chain, linked in order and each once. */
  ghost predicate Linked(chain: seq<LocalMap>, locals: LocalMap?)
    reads chain`next
  {
    && locals == Nth(chain, 0)
    && (forall i {:trigger chain[i].next} :: 0 <= i < |chain| ==> chain[i].next == Nth(chain, i + 1))
    && (forall i, j {:trigger chain[i], chain[j]} :: 0 <= i < j < |chain| ==> chain[i] != chain[j])
  }

  lemma PushLinked(m: LocalMap, chain: seq<LocalMap>, locals: LocalMap?)
    requires Linked(chain, locals) && m !in chain && m.next == locals
    ensures Linked([m] + chain, m) && ScopeOf([m] + chain) == [m.AsBind()] + ScopeOf(chain)
  {
  }

  lemma PopLinked(m: LocalMap, chain: seq<LocalMap>)
    requires Linked([m] + chain, m)
    ensures Linked(chain, m.next) && ScopeOf([m] + chain)[1..] == ScopeOf(chain) && ScopeOf([m] + chain)[0] == m.AsBind()
  {
    var c := [m] + chain;
    assert m == c[0] && c[1..] == chain;
    assert forall i {:trigger chain[i]} :: 0 <= i < |chain| ==> chain[i] == c[i + 1];
    assert c[0].next == Nth(c, 1);
    forall i | 0 <= i < |chain|
      ensures chain[i].next == Nth(chain, i + 1)
    {
      assert c[i + 1].next == Nth(c, i + 2);
    }
  }

  /** New maps, linked among themselves and in front of locals, with these bindings. */
  ghost predicate Built(maps: seq<LocalMap>, binds: seq<Bind>, locals: LocalMap?)
    reads maps
  {
    && |maps| == |binds|
    && (forall j {:trigger maps[j]} :: 0 <= j < |maps| ==> maps[j].AsBind() == binds[j])
    && (forall j {:trigger maps[j].next} :: 0 <= j < |maps| ==> maps[j].next == if j + 1 < |maps| then maps[j + 1] else locals)
    && (forall i, j {:trigger maps[i], maps[j]} :: 0 <= i < j < |maps| ==> maps[i] != maps[j])
  }

  lemma PushAllLinked(maps: seq<LocalMap>, binds: seq<Bind>, chain: seq<LocalMap>, locals: LocalMap?)
    requires Linked(chain, locals) && Built(maps, binds, locals) && forall m :: m in maps ==> m !in chain
    ensures Linked(maps + chain, if maps == [] then locals else maps[0])
    ensures ScopeOf(maps + chain) == binds + ScopeOf(chain)
  {
    var c := maps + chain;
    LinksJoin(maps, binds, chain, locals);
    forall i, j | 0 <= i < j < |c|
      ensures c[i] != c[j]
    {
      if i < |maps| <= j {
        assert c[i] == maps[i] && maps[i] in maps && c[j] == chain[j - |maps|];
      } else if j < |maps| {
        assert maps[i] != maps[j];
      } else {
        assert chain[i - |maps|] != chain[j - |maps|];
      }
    }
    assert forall i :: 0 <= i < |c| ==> c[i].AsBind() == (binds + ScopeOf(chain))[i];
  }

  lemma LinksJoin(maps: seq<LocalMap>, binds: seq<Bind>, chain: seq<LocalMap>, locals: LocalMap?)
    requires Linked(chain, locals) && Built(maps, binds, locals)
    ensures var c := maps + chain;
            && Nth(c, 0) == (if maps == [] then locals else maps[0])
            && forall i {:trigger c[i].next} :: 0 <= i < |c| ==> c[i].next == Nth(c, i + 1)
  {
    var c := maps + chain;
    forall i | 0 <= i < |c|
      ensures c[i].next == Nth(c, i + 1)
    {
      if i < |maps| {
        assert c[i] == maps[i];
      } else {
        assert c[i] == chain[i - |maps|];
        assert chain[i - |maps|].next == Nth(chain, i - |maps| + 1);
      }
    }
  }

  lemma RoundsStop(env: Env, macros: Macros, w: World, start: int, step: int, n: nat, k: nat, m: nat, body: Node, fuel: nat)
    requires w.scope != [] && k <= m && Rounds(env, macros, w, start, step, n, k, body, fuel).1 != Fine
    ensures Rounds(env, macros, w, start, step, n, m, body, fuel) == Rounds(env, macros, w, start, step, n, k, body, fuel)
    decreases m
  {
    hide CsRender.Render;
    if k < m {
      RoundsStop(env, macros, w, start, step, n, k, m - 1, body, fuel);
    }
  }

  /** A change of the map in front, in terms of the scopes. */
  twostate lemma TopChanged(chain: seq<LocalMap>, new m: LocalMap)
    requires chain != [] && chain[0] == m
    requires forall i, j {:trigger chain[i], chain[j]} :: 0 <= i < j < |chain| ==> chain[i] != chain[j]
    requires forall c :: c in chain && c != m ==> c.AsBind() == old(c.AsBind())
    ensures ScopeOf(chain) == [m.AsBind()] + old(ScopeOf(chain))[1..]
  {
  }

  class Renderer {
    const env: Env
    const macros: Macros
    var locals: LocalMap?
    var hdf: Dir
    var out: string
    ghost var chain: seq<LocalMap>

    constructor (env: Env, macros: Macros, hdf: Dir)
      ensures Linked(chain, locals) && W() == World([], hdf, "") && this.env == env && this.macros == macros
    {
      this.env, this.macros, this.hdf, out, locals, chain := env, macros, hdf, "", null, [];
      new;
      assert ScopeOf([]) == [];
    }

    ghost function W(): World
      reads this`hdf, this`out, this`chain, chain
    {
      World(ScopeOf(chain), hdf, out)
    }

    /** `lookup_map` */
    method FindMap(name: string) returns (map_: LocalMap?, ghost k: nat)
      requires Linked(chain, locals)
      ensures k == LookupMap(W().scope, name) && map_ == Nth(chain, k) && k <= |chain|
      ensures map_ != null <==> k < |chain|
    {
      var head := HeadOf(name);
      hide HeadOf;
      map_, k := locals, 0;
      while map_ != null && map_.name != head
        invariant k <= |chain| && map_ == Nth(chain, k)
        invariant Find(W().scope, head, k) == Find(W().scope, head, 0)
        decreases |chain| - k
      {
        assert chain[k].name == W().scope[k].name;
        map_, k := map_.next, k + 1;
      }
      assert k < |chain| ==> W().scope[k].name == head;
    }

    /** `var_lookup_obj` */
    method LookupObj(name: string) returns (n: Option<Path>)
      requires Linked(chain, locals)
      ensures n == VarObj(env, W(), name)
    {
      hide LookupMap, HeadOf, RestOf;
      var map_, k := FindMap(name);
      var rest := RestOf(name);
      assert k < |chain| ==> W().scope[k] == chain[k].AsBind();
      if map_ != null && map_.kind == VarB {
        if rest.None? {
          return map_.h;
        }
        return if map_.h.None? then None else env.obj(hdf, map_.h.value, rest.value);
      }
      return env.obj(hdf, env.top, name);
    }

    /** `var_lookup`: a number's text is kept in its map. */
    method LookupValue(name: string) returns (v: Option<string>)
      requires Linked(chain, locals)
      modifies chain`s, chain`alloc
      ensures v == VarValue(env, old(W()), name) && W() == Asked(env, old(W()), name)
    {
      hide LookupMap, HeadOf, RestOf;
      ghost var w := W();
      var map_, k := FindMap(name);
      assert k < |chain| ==> w.scope[k] == chain[k].AsBind();
      if map_ == null {
        return env.value(hdf, env.top, name);
      }
      if map_.kind == VarB {
        var rest := RestOf(name);
        return if map_.h.None? then None else env.value(hdf, map_.h.value, if rest.Some? then rest.value else "");
      }
      if map_.kind == NumB && map_.s == None {
        map_.s := Some(env.show(map_.n));
        map_.alloc := true;
        assert W().scope == w.scope[k := map_.AsBind()];
      } else {
        assert W().scope == w.scope;
      }
      return map_.s;
    }

    /** `var_set_value` */
    method SetVar(name: string, value: Option<string>) returns (st: Status)
      requires Linked(chain, locals)
      modifies this`hdf, chain`kind, chain`s, chain`alloc
      ensures (W(), st) == VarSet(env, old(W()), name, value)
    {
      hide LookupMap, HeadOf, RestOf;
      ghost var w := W();
      var map_, k := FindMap(name);
      var rest := RestOf(name);
      assert k < |chain| ==> w.scope[k] == chain[k].AsBind();
      if map_ == null {
        st := Store(env.top, name, value);
      } else if map_.kind == VarB {
        if map_.h == None {
          var base := if map_.s.Some? then map_.s.value else "";
          st := Store(env.top, if rest.Some? then base + "." + rest.value else base, value);
        } else {
          st := Store(map_.h.value, if rest.Some? then rest.value else "", value);
        }
      } else if rest.Some? {
        st := Fine;
        assert W().scope == w.scope;
      } else if value == None {
        st := Raised;
        assert W().scope == w.scope;
      } else {
        map_.kind, map_.alloc, map_.s := StrB, true, value;
        st := Fine;
        assert W().scope == w.scope[k := map_.AsBind()];
      }
    }

    method Store(n: Path, name: string, value: Option<string>) returns (st: Status)
      modifies this`hdf
      ensures (W(), st) == StoreAt(env, old(W()), n, name, value)
    {
      var r := env.put(hdf, n, name, value);
      hdf := r.0;
      st := if r.1 then Fine else Raised;
    }

    method EvalText(a: Arg) returns (t: Option<string>)
      requires Linked(chain, locals)
      modifies chain`s, chain`alloc
      ensures (W(), t) == ArgText(env, old(W()), a)
    {
      hide VarValue, Asked;
      match a {
        case Str(s) => t := Some(s);
        case Num(n) => t := Some(env.show(n));
        case Ref(name) => t := LookupValue(name);
        case Failing => t := None;
      }
    }

    method EvalNum(a: Arg) returns (n: int)
      requires Linked(chain, locals)
      modifies chain`s, chain`alloc
      ensures (W(), n) == ArgNum(env, old(W()), a)
    {
      hide VarValue, Asked;
      match a {
        case Str(s) => n := env.num(s);
        case Num(m) => n := m;
        case Ref(name) =>
          var v := LookupValue(name);
          n := if v.Some? then env.num(v.value) else 0;
        case Failing => n := 0;
      }
    }

    method EvalTruth(a: Arg) returns (b: bool)
      requires Linked(chain, locals)
      modifies chain`s, chain`alloc
      ensures (W(), b) == ArgTruth(env, old(W()), a)
    {
      hide ArgText;
      if a.Num? {
        return a.n != 0;
      }
      var t := EvalText(a);
      b := t.Some? && t.value != "" && env.truth(t.value);
    }

    // ----- the handlers

    /** Put a map in front. */
    method PushMap(b: Bind) returns (m: LocalMap)
      requires Linked(chain, locals)
      modifies this`locals, this`chain
      ensures fresh(m) && chain == [m] + old(chain) && locals == m && Linked(chain, locals)
      ensures W() == Push(old(W()), [b]) && m.next == old(locals) && m.name == b.name
    {
      m := new LocalMap(b, locals);
      PushLinked(m, chain, locals);
      locals := m;
      chain := [m] + chain;
    }

    /** Take the map in front away. */
    method PopMap(m: LocalMap, ghost below: seq<LocalMap>)
      requires chain == [m] + below && locals == m && Linked(chain, locals)
      modifies this`locals, this`chain
      ensures chain == below && locals == m.next && Linked(chain, locals) && W() == Pop(old(W()), 1)
    {
      PopLinked(m, below);
      locals := m.next;
      chain := below;
    }

    /** `render_node`: afterwards the list of local maps is the one found, link by link. */
    method Render(node: Node, fuel: nat) returns (st: Status)
      requires Linked(chain, locals)
      modifies this`hdf, this`out, this`locals, this`chain, chain`kind, chain`s, chain`alloc
      ensures locals == old(locals) && chain == old(chain) && Linked(chain, locals)
      ensures (W(), st) == CsRender.Render(env, macros, old(W()), node, fuel)
      decreases fuel, node, 5
    {
      hide ScopeOf, Linked, Eval;
      ghost var r := CsRender.Render(env, macros, W(), node, fuel);
      var current := node;
      st := Fine;
      while !current.End?
        invariant locals == old(locals) && chain == old(chain) && Linked(chain, locals)
        invariant CsRender.Render(env, macros, W(), current, fuel) == r
        invariant current == node || current < node
        decreases current
      {
        st := EvalNode(current, fuel);
        if st != Fine {
          return;
        }
        current := NextOf(current);
      }
      st := Fine;
    }

    /** One node's handler. */
    method EvalNode(node: Node, fuel: nat) returns (st: Status)
      requires Linked(chain, locals) && !node.End?
      modifies this`hdf, this`out, this`locals, this`chain, chain`kind, chain`s, chain`alloc
      ensures locals == old(locals) && chain == old(chain) && Linked(chain, locals)
      ensures (W(), st) == Eval(env, macros, old(W()), node, fuel)
      decreases fuel, node, 4
    {
      hide ScopeOf, Linked, ArgText, ArgTruth, VarSet, CsRender.Render, RenderEach, RenderWith, RenderLoop, RenderCall;
      match node {
        case Literal(text, _) =>
          out := out + text;
          st := Fine;
        case Skip(_) =>
          st := Fine;
        case Show(a, _) =>
          st := ShowEval(a);
        case SetTo(name, a, _) =>
          st := SetEval(name, a);
        case Branch(a, yes, no, _) =>
          if a == Failing {
            return Raised;
          }
          var t := EvalTruth(a);
          st := Render(if t then yes else no, fuel);
        case EachIn(name, a, body, _) =>
          st := EachEval(name, a, body, fuel);
        case WithAs(name, a, body, _) =>
          st := WithEval(name, a, body, fuel);
        case LoopOver(name, args, body, _) =>
          st := LoopEval(name, args, body, fuel);
        case Call(_, _, _) =>
          st := CallEval(node, fuel);
      }
    }

    method ShowEval(a: Arg) returns (st: Status)
      requires Linked(chain, locals)
      modifies this`out, chain`s, chain`alloc
      ensures (W(), st) == Eval(env, macros, old(W()), Show(a, End), 0)
    {
      hide ScopeOf, Linked, ArgText;
      if a == Failing {
        return Raised;
      }
      var t := EvalText(a);
      if t.Some? {
        out := out + t.value;
      }
      st := Fine;
    }

    method SetEval(name: string, a: Arg) returns (st: Status)
      requires Linked(chain, locals)
      modifies this`hdf, chain`kind, chain`s, chain`alloc
      ensures (W(), st) == Eval(env, macros, old(W()), SetTo(name, a, End), 0)
    {
      hide ScopeOf, Linked, ArgText, VarSet;
      if a == Failing {
        return Raised;
      }
      var t := EvalText(a);
      st := SetVar(name, t);
    }

    /** `each_eval` */
    method EachEval(name: string, a: Arg, body: Node, fuel: nat) returns (st: Status)
      requires Linked(chain, locals)
      modifies this`hdf, this`out, this`locals, this`chain, chain`kind, chain`s, chain`alloc
      ensures locals == old(locals) && chain == old(chain) && Linked(chain, locals)
      ensures (W(), st) == if a == Failing then (old(W()), Raised) else RenderEach(env, macros, old(W()), name, a, body, fuel)
      decreases fuel, body, 8
    {
      hide ScopeOf, Linked, EachFrom, CsRender.Render, Push, Pop, VarObj;
      if a == Failing {
        return Raised;
      }
      st := Fine;
      if a.Ref? {
        var n := LookupObj(a.name);
        if n.Some? {
          ghost var below := chain;
          var m := PushMap(NodeBind(name, None, true));
          st := EachKids(m, below, n.value, body, fuel);
          PopMap(m, below);
        }
      }
    }

    /** The loop over the children. */
    method EachKids(m: LocalMap, ghost below: seq<LocalMap>, p: Path, body: Node, fuel: nat) returns (st: Status)
      requires Linked(chain, locals) && chain == [m] + below && locals == m
      modifies this`hdf, this`out, this`locals, this`chain, chain`kind, chain`s, chain`alloc, m`h, m`first
      ensures locals == old(locals) && chain == old(chain) && Linked(chain, locals)
      ensures (W(), st) == EachFrom(env, macros, old(W()), p, 0, body, fuel)
      decreases fuel, body, 6
    {
      hide ScopeOf, Linked, CsRender.Render, WithTop, EndRound;
      ghost var r := EachFrom(env, macros, W(), p, 0, body, fuel);
      var i: nat, left: nat := 0, fuel;
      assert m == chain[0];
      var child := env.kid(hdf, p, 0);
      st := Fine;
      while child.Some?
        invariant locals == old(locals) && chain == old(chain) && Linked(chain, locals) && left <= fuel
        invariant child == env.kid(hdf, p, i) && st == Fine
        invariant W().scope != [] && EachFrom(env, macros, W(), p, i, body, left) == r
        decreases left
      {
        if left == 0 {
          return OutOfFuel;
        }
        SetNode(m, below, child);
        st := Render(body, left);
        EndOfRound(m, below);
        if st != Fine {
          return;
        }
        i, left := i + 1, left - 1;
        child := env.kid(hdf, p, i);
      }
    }

    method SetNode(m: LocalMap, ghost below: seq<LocalMap>, h: Option<Path>)
      requires Linked(chain, locals) && chain == [m] + below
      modifies m`h
      ensures Linked(chain, locals) && old(W()).scope != []
      ensures W() == WithTop(old(W()), old(W()).scope[0].(h := h))
    {
      m.h := h;
      TopChanged(chain, m);
    }

    method EndOfRound(m: LocalMap, ghost below: seq<LocalMap>)
      requires Linked(chain, locals) && chain == [m] + below
      modifies m`s, m`first
      ensures Linked(chain, locals) && old(W()).scope != [] && W() == EndRound(old(W()))
    {
      if m.alloc {
        m.s := None;
      }
      if m.first {
        m.first := false;
      }
      TopChanged(chain, m);
    }

    /** `with_eval` */
    method WithEval(name: string, a: Arg, body: Node, fuel: nat) returns (st: Status)
      requires Linked(chain, locals)
      modifies this`hdf, this`out, this`locals, this`chain, chain`kind, chain`s, chain`alloc
      ensures locals == old(locals) && chain == old(chain) && Linked(chain, locals)
      ensures (W(), st) == if a == Failing then (old(W()), Raised) else RenderWith(env, macros, old(W()), name, a, body, fuel)
      decreases fuel, body, 8
    {
      hide ScopeOf, Linked, CsRender.Render, Push, Pop, VarObj;
      if a == Failing {
        return Raised;
      }
      st := Fine;
      if a.Ref? {
        var n := LookupObj(a.name);
        if n.Some? {
          ghost var below := chain;
          var m := PushMap(NodeBind(name, n, false));
          st := Render(body, fuel);
          PopMap(m, below);
        }
      }
    }

    /** The arguments of a loop. */
    method EvalRange(args: seq<Arg>) returns (range: Option<Range>)
      requires Linked(chain, locals)
      modifies chain`s, chain`alloc
      ensures (W(), range) == LoopRange(env, old(W()), args)
    {
      hide ScopeOf, Linked, ArgNum;
      if !(1 <= |args| <= 3) || args[0] == Failing {
        return None;
      }
      var end := EvalNum(args[0]);
      var start, step := 0, 1;
      if |args| > 1 {
        start := end;
        if args[1] == Failing {
          return None;
        }
        end := EvalNum(args[1]);
        if |args| > 2 {
          if args[2] == Failing {
            return None;
          }
          step := EvalNum(args[2]);
        }
      }
      return Some(Range(start, end, step));
    }

    /** `loop_eval` */
    method LoopEval(name: string, args: seq<Arg>, body: Node, fuel: nat) returns (st: Status)
      requires Linked(chain, locals)
      modifies this`hdf, this`out, this`locals, this`chain, chain`kind, chain`s, chain`alloc
      ensures locals == old(locals) && chain == old(chain) && Linked(chain, locals)
      ensures (W(), st) == RenderLoop(env, macros, old(W()), name, args, body, fuel)
      decreases fuel, body, 8
    {
      hide ScopeOf, Linked, Rounds, LoopRange, Iterations, Push, Pop, CsRender.Render;
      var range := EvalRange(args);
      if range.None? {
        return Raised;
      }
      var start, step := range.value.start, range.value.step;
      var iter := CountRounds(start, range.value.end, step);
      if iter <= 0 {
        return Fine;
      }
      ghost var below := chain;
      var m := PushMap(NumBind(name));
      st := LoopRounds(m, below, start, step, iter, body, fuel);
      PopMap(m, below);
    }

    static method CountRounds(start: int, end: int, step: int) returns (iter: int)
      ensures iter == Iterations(start, end, step)
    {
      if (step < 0 && start < end) || (step > 0 && end < start) {
        iter := 0;
      } else if step == 0 {
        iter := 0;
      } else {
        iter := NumberTheory.Abs(TruncDiv(end - start, step) + 1);
      }
    }

    /** The rounds of a loop. */
    method LoopRounds(m: LocalMap, ghost below: seq<LocalMap>, start: int, step: int, iter: nat, body: Node, fuel: nat)
      returns (st: Status)
      requires Linked(chain, locals) && chain == [m] + below && locals == m
      modifies this`hdf, this`out, this`locals, this`chain, chain`kind, chain`s, chain`alloc, m`n, m`first, m`last
      ensures locals == old(locals) && chain == old(chain) && Linked(chain, locals)
      ensures (W(), st) == Rounds(env, macros, old(W()), start, step, iter, iter, body, fuel)
      decreases fuel, body, 6
    {
      hide ScopeOf, Linked, CsRender.Render, RoundStart, EndRound;
      ghost var w := W();
      var x: nat, v: int := 0, start;
      assert m == chain[0] && m in chain;
      st := Fine;
      while x < iter
        invariant 0 <= x <= iter && v == start + x * step
        invariant locals == old(locals) && chain == old(chain) && Linked(chain, locals)
        invariant (W(), st) == Rounds(env, macros, w, start, step, iter, x, body, fuel) && st == Fine
      {
        ghost var before := W();
        StartRound(m, below, v, x == iter - 1, start, step, iter, x);
        st := Render(body, fuel);
        EndOfRound(m, below);
        if st != Fine {
          RoundsStop(env, macros, w, start, step, iter, x + 1, iter, body, fuel);
          return;
        }
        x, v := x + 1, v + step;
      }
    }

    method StartRound(m: LocalMap, ghost below: seq<LocalMap>, v: int, last: bool, ghost start: int, ghost step: int, ghost n: nat, ghost k: nat)
      requires Linked(chain, locals) && chain == [m] + below && v == start + k * step && last == (k == n - 1)
      modifies m`n, m`last
      ensures Linked(chain, locals) && old(W()).scope != [] && W() == RoundStart(old(W()), start, step, n, k)
    {
      if last {
        m.last := true;
      }
      m.n := v;
      TopChanged(chain, m);
    }

    /** `call_eval`: the arguments are evaluated before the call's maps are put in front. */
    method CallEval(node: Node, fuel: nat) returns (st: Status)
      requires Linked(chain, locals) && node.Call?
      modifies this`hdf, this`out, this`locals, this`chain, chain`kind, chain`s, chain`alloc
      ensures locals == old(locals) && chain == old(chain) && Linked(chain, locals)
      ensures (W(), st) == RenderCall(env, macros, old(W()), node, fuel)
      decreases fuel, node, 3
    {
      hide ScopeOf, Linked, CsRender.Render, Push, Pop, BindArgs;
      if node.macro !in macros || |node.args| != |macros[node.macro].params| {
        return Raised;
      }
      var macro := macros[node.macro];
      var maps, ok := BuildMaps(macro.params, node.args);
      if !ok {
        return Raised;
      }
      if fuel == 0 {
        return OutOfFuel;
      }
      ghost var below := chain;
      var saved := locals;
      ghost var binds := BindArgs(env, W(), macro.params, node.args);
      InstallMaps(maps, binds);
      assert forall m :: m in chain ==> m in maps || m in old(chain);
      st := Render(macro.body, fuel - 1);
      RestoreMaps(saved, maps, below);
    }

    /** The map for one argument, as the caller sees it. */
    method EvalArg(param: string, a: Arg) returns (b: Bind)
      requires Linked(chain, locals)
      ensures b == BindArg(env, W(), param, a)
    {
      hide LookupMap, VarObj;
      match a {
        case Str(s) => b := Bind(param, StrB, Some(s), 0, None, false, false, false);
        case Num(n) => b := Bind(param, NumB, None, n, None, false, false, false);
        case Failing => b := Bind(param, StrB, None, 0, None, false, false, false);
        case Ref(name) =>
          var lmap, k := FindMap(name);
          assert k < |chain| ==> W().scope[k] == chain[k].AsBind();
          if lmap != null && lmap.kind != VarB {
            if lmap.kind == NumB {
              b := Bind(param, NumB, None, lmap.n, None, false, false, false);
            } else {
              b := Bind(param, StrB, lmap.s, 0, None, false, false, false);
            }
          } else {
            var h := LookupObj(name);
            b := Bind(param, VarB, Some(name), 0, h, false, false, false);
          }
      }
    }

    /** The loop over the parameters; an argument that fails ends it. */
    method BuildMaps(params: seq<string>, args: seq<Arg>) returns (maps: seq<LocalMap>, ok: bool)
      requires Linked(chain, locals) && |params| == |args|
      ensures ok <==> !Fails(args)
      ensures ok ==> Built(maps, BindArgs(env, W(), params, args), locals) && fresh(maps)
    {
      hide ScopeOf, Linked, BindArg;
      maps := [];
      var x := 0;
      while x < |params|
        invariant 0 <= x <= |params| && |maps| == x && fresh(maps)
        invariant forall j :: 0 <= j < x ==> args[j] != Failing
        invariant forall j {:trigger maps[j]} :: 0 <= j < x ==> maps[j].AsBind() == BindArg(env, W(), params[j], args[j])
        invariant forall j {:trigger maps[j].next} :: 0 <= j < x ==> maps[j].next == if j + 1 < x then maps[j + 1] else locals
        invariant forall i, j {:trigger maps[i], maps[j]} :: 0 <= i < j < x ==> maps[i] != maps[j]
      {
        if args[x] == Failing {
          return maps, false;
        }
        var b := EvalArg(params[x], args[x]);
        var m := new LocalMap(b, locals);
        if x > 0 {
          assert maps[x - 1] in maps;
          maps[x - 1].next := m;
        }
        maps := maps + [m];
        x := x + 1;
      }
      ok := true;
    }

    /** `parse->locals = call_map` */
    method InstallMaps(maps: seq<LocalMap>, ghost binds: seq<Bind>)
      requires Linked(chain, locals) && Built(maps, binds, locals)
      requires forall m :: m in maps ==> m !in chain
      modifies this`locals, this`chain
      ensures chain == maps + old(chain) && Linked(chain, locals) && W() == Push(old(W()), binds)
    {
      PushAllLinked(maps, binds, chain, locals);
      if maps != [] {
        locals := maps[0];
      }
      chain := maps + chain;
    }

    method RestoreMaps(saved: LocalMap?, ghost maps: seq<LocalMap>, ghost below: seq<LocalMap>)
      requires chain == maps + below && Linked(below, saved)
      modifies this`locals, this`chain
      ensures locals == saved && chain == below && Linked(chain, locals)
      ensures |maps| <= |old(W()).scope| && W() == Pop(old(W()), |maps|)
    {
      locals := saved;
      chain := below;
      assert ScopeOf(maps + below)[|maps|..] == ScopeOf(below);
    }
  }
}

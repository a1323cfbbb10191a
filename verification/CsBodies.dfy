/** What `with`, `loop`, calls and assignments add to the output and mean for the names used after
    them. */
module CsBodies {
  import opened Wrappers
  import opened HdfNames
  import opened HdfDir
  import opened CsScope
  import opened CsRender
  import opened CsScopeLaws
  import opened CsCaching
  import opened CsOutput
  import opened CsRounds

  // ----- with

  /** `with` over a line adds the text the line has where the name stands for the node. */
  lemma WithAdds(env: Env, macros: Macros, w: World, name: string, x: string, h: Path, items: seq<Item>, fuel: nat)
    requires Alike(env, w, w) && Sane(items) && VarObj(env, w, x) == Some(h)
    ensures AlikeEnd(env, RenderWith(env, macros, w, name, Ref(x), Line(items, End), fuel),
                     (Adding(w, LineText(env, ForKid(w, name, h, false), items)), Fine))
  {
    hide AlikeScope, LineText, Line, VarObj, Render;
    var b := [NodeBind(name, Some(h), false)];
    var v := Push(w, b);
    PushAlike(env, w, w, b);
    assert v == ForKid(w, name, h, false);
    LineAdds(env, macros, v, items, End, fuel);
    EndOf(env, macros, Adding(v, LineText(env, v, items)), fuel);
    PopAlike(env, Render(env, macros, v, Line(items, End), fuel).0, Adding(v, LineText(env, v, items)), 1);
    assert Pop(Adding(v, LineText(env, v, items)), 1) == Adding(w, LineText(env, v, items));
  }

  /** In `with`, what is below the variable is what is below the node. */
  lemma WithShows(env: Env, macros: Macros, w: World, name: string, x: string, h: Path, rest: string, fuel: nat)
    requires Alike(env, w, w) && '.' !in name && VarObj(env, w, x) == Some(h)
    ensures AlikeEnd(env, RenderWith(env, macros, w, name, Ref(x), Show(Ref(name + "." + rest), End), fuel),
                     (Adding(w, OrNothing(env.value(w.hdf, h, rest))), Fine))
  {
    hide Alike, VarObj, RenderWith, VarValue;
    var items := [Value(Ref(name + "." + rest))];
    LineOfOne(items[0].arg);
    WithAdds(env, macros, w, name, x, h, items, fuel);
    FrontNames(env, ForKid(w, name, h, false), name, h);
    ShownAlone(env, ForKid(w, name, h, false), items[0].arg);
  }

  lemma LineOfOne(a: Arg)
    ensures Line([Value(a)], End) == Show(a, End)
  {
    assert [Value(a)][1..] == [];
  }

  /** Where a name leads to no node, `each` and `with` do nothing. */
  lemma NothingThere(env: Env, macros: Macros, w: World, name: string, a: Arg, body: Node, next: Node, fuel: nat)
    requires a != Failing && (!a.Ref? || VarObj(env, w, a.name) == None)
    ensures Eval(env, macros, w, EachIn(name, a, body, next), fuel) == (w, Fine)
    ensures Eval(env, macros, w, WithAs(name, a, body, next), fuel) == (w, Fine)
  {
    hide VarObj;
  }

  // ----- loop

  /** What an argument is as a number. */
  function AsNumber(env: Env, w: World, a: Arg): int {
    match a
    case Str(s) => env.num(s)
    case Num(n) => n
    case Ref(name) => var v := VarValue(env, w, name); if v.Some? then env.num(v.value) else 0
    case Failing => 0
  }

  /** One argument is the end of a loop, from 0 on; two are start and end; the third is the step. */
  lemma RangeMeans(env: Env, w: World, args: seq<Arg>)
    requires Alike(env, w, w) && 1 <= |args| <= 3 && Failing !in args
    ensures LoopRange(env, w, args).1.Some? && Alike(env, LoopRange(env, w, args).0, w)
    ensures var range := LoopRange(env, w, args).1.value;
            && (|args| == 1 ==> range.start == 0 && range.end == AsNumber(env, w, args[0]))
            && (|args| >= 2 ==> range.start == AsNumber(env, w, args[0]) && range.end == AsNumber(env, w, args[1]))
            && range.step == if |args| == 3 then AsNumber(env, w, args[2]) else 1
  {
    RangeKept(env, w, args);
    AlikeTurned(env, w, LoopRange(env, w, args).0);
    NumberIs(env, w, w, args[0]);
    var a := ArgNum(env, w, args[0]).0;
    if |args| > 1 {
      NumberIs(env, w, a, args[1]);
      if |args| > 2 {
        NumberIs(env, w, ArgNum(env, a, args[1]).0, args[2]);
      }
    }
    hide ArgNum, AsNumber, Alike;
  }

  lemma NumberIs(env: Env, w: World, v: World, a: Arg)
    requires Alike(env, w, v)
    ensures ArgNum(env, v, a).1 == AsNumber(env, w, a) && Alike(env, w, ArgNum(env, v, a).0)
  {
    AlikeTurned(env, w, v);
    AlikeTurned(env, v, w);
    ArgsKeep(env, v, a);
    AlikeThrough(env, w, v, ArgNum(env, v, a).0);
    if a.Ref? {
      NamesAlike(env, w, v, a.name);
    }
    hide VarValue, Asked, Alike;
  }

  /** n rounds from start on, by step, are those that are not past end. */
  predicate Covers(start: int, end: int, step: int, n: nat) {
    && (step == 0 ==> n == 0)
    && (step > 0 ==> (n > 0 ==> start + (n - 1) * step <= end) && end < start + n * step)
    && (step < 0 ==> (n > 0 ==> start + (n - 1) * step >= end) && end > start + n * step)
  }

  lemma RoundsCovered(start: int, end: int, step: int, n: nat)
    requires Covers(start, end, step, n)
    ensures Iterations(start, end, step) == n
  {
    hide Iterations;
    LoopBounds(start, end, step);
    var here := NthValue(start, step, n);
    if n > 0 {
      var before := NthValue(start, step, n - 1);
    }
  }

  /** The scope of one round over a number. */
  function ForNumber(w: World, name: string, i: int, first: bool, last: bool): World {
    w.(scope := [Bind(name, NumB, None, i, None, false, first, last)] + w.scope)
  }

  /** The text of the first k rounds of n. */
  function LoopText(env: Env, w: World, name: string, start: int, step: int, n: nat, k: nat, items: seq<Item>): string {
    if k == 0 then ""
    else
      LoopText(env, w, name, start, step, n, k - 1, items) +
      LineText(env, ForNumber(w, name, start + (k - 1) * step, k == 1, k == n), items)
  }

  /** The state after k rounds of a line. */
  function LoopDone(env: Env, w: World, name: string, start: int, step: int, n: nat, k: nat, items: seq<Item>): (v: World)
    ensures v.scope != []
  {
    Adding(ForNumber(w, name, if k == 0 then 0 else start + (k - 1) * step, k == 0, 0 < k && k == n),
           LoopText(env, w, name, start, step, n, k, items))
  }

  lemma NumberStarts(env: Env, w: World, name: string, start: int, step: int, n: nat, k: nat, items: seq<Item>)
    requires Alike(env, w, w) && k < n
    ensures var v := Adding(ForNumber(w, name, start + k * step, k == 0, k + 1 == n), LoopText(env, w, name, start, step, n, k, items));
            && RoundStart(LoopDone(env, w, name, start, step, n, k, items), start, step, n, k) == v && Alike(env, v, v)
            && LineText(env, v, items) == LineText(env, ForNumber(w, name, start + k * step, k == 0, k + 1 == n), items)
  {
    hide LineText, LoopText, HeadOf;
    var u := ForNumber(w, name, start + k * step, k == 0, k + 1 == n);
    PushAlike(env, w, w, [u.scope[0]]);
    var t := LoopText(env, w, name, start, step, n, k, items);
    AddingAlike(env, u, u, t);
    AlikeOutput(env, u, Adding(u, t));
    LineTextAlike(env, Adding(u, t), u, items);
  }

  lemma NumberEnds(env: Env, w: World, name: string, start: int, step: int, n: nat, k: nat, items: seq<Item>)
    requires k < n && Alike(env, w, w)
    ensures var u := ForNumber(w, name, start + k * step, k == 0, k + 1 == n);
            EndRound(Adding(Adding(u, LoopText(env, w, name, start, step, n, k, items)), LineText(env, u, items))) ==
            LoopDone(env, w, name, start, step, n, k + 1, items)
  {
    var u := ForNumber(w, name, start + k * step, k == 0, k + 1 == n);
    AddingTwice(u, LoopText(env, w, name, start, step, n, k, items), LineText(env, u, items));
    hide LineText;
  }

  lemma NumberLine(env: Env, macros: Macros, w: World, name: string, start: int, step: int, n: nat, k: nat, items: seq<Item>, fuel: nat)
    requires Alike(env, w, w) && Sane(items) && k < n
    ensures var v := RoundStart(LoopDone(env, w, name, start, step, n, k, items), start, step, n, k);
            var b := Render(env, macros, v, Line(items, End), fuel);
            && b.1 == Fine && b.0.scope != []
            && Between(env, EndRound(b.0), LoopDone(env, w, name, start, step, n, k + 1, items))
  {
    hide AlikeScope, LineText, LoopText, Line, Render, LoopDone, ForNumber, EndRound, RoundStart;
    var v := RoundStart(LoopDone(env, w, name, start, step, n, k, items), start, step, n, k);
    NumberStarts(env, w, name, start, step, n, k, items);
    LineAdds(env, macros, v, items, End, fuel);
    var u := Adding(v, LineText(env, v, items));
    EndOf(env, macros, u, fuel);
    var b := Render(env, macros, v, Line(items, End), fuel);
    AlikeLength(env, b.0.scope, v.scope);
    EndRoundAlike(env, b.0, u);
    NumberEnds(env, w, name, start, step, n, k, items);
  }

  lemma {:induction false} NumberLines(env: Env, macros: Macros, w: World, name: string, start: int, step: int, n: nat, k: nat, items: seq<Item>, fuel: nat)
    requires Alike(env, w, w) && Sane(items) && k <= n
    ensures var r := Rounds(env, macros, Push(w, [NumBind(name)]), start, step, n, k, Line(items, End), fuel);
            r.1 == Fine && Between(env, r.0, LoopDone(env, w, name, start, step, n, k, items))
    decreases k
  {
    hide AlikeScope, LineText, Line, Render, EndRound, RoundStart;
    var begin, body := Push(w, [NumBind(name)]), Line(items, End);
    if k == 0 {
      LoopStartAlike(env, w, w, name);
      assert w.out + "" == w.out;
    } else {
      hide LoopDone;
      NumberLines(env, macros, w, name, start, step, n, k - 1, items, fuel);
      var before := Rounds(env, macros, begin, start, step, n, k - 1, body, fuel).0;
      var done := LoopDone(env, w, name, start, step, n, k - 1, items);
      RoundStartAlike(env, before, done, start, step, n, k - 1);
      var a, b := RoundStart(before, start, step, n, k - 1), RoundStart(done, start, step, n, k - 1);
      RenderAlike(env, macros, a, b, body, fuel);
      NumberLine(env, macros, w, name, start, step, n, k - 1, items, fuel);
      var r, s := Render(env, macros, a, body, fuel).0, Render(env, macros, b, body, fuel).0;
      AlikeLength(env, r.scope, s.scope);
      EndRoundAlike(env, r, s);
      BetweenThrough(env, EndRound(r), EndRound(s), LoopDone(env, w, name, start, step, n, k, items));
    }
  }

  lemma BetweenThrough(env: Env, u: World, v: World, w: World)
    requires Between(env, u, v) && Between(env, v, w) && v.scope != [] && w.scope != []
    ensures Between(env, u, w)
  {
    AlikeThrough(env, u, v, w);
    assert AlikeBind(env, u.scope[0], v.scope[0]) && AlikeBind(env, v.scope[0], w.scope[0]);
  }

  /** A loop over a line adds the texts of its rounds, for the numbers that are not past the end. */
  lemma LoopAdds(env: Env, macros: Macros, w: World, name: string, args: seq<Arg>, start: int, end: int, step: int, n: nat,
                 items: seq<Item>, fuel: nat)
    requires Alike(env, w, w) && Sane(items) && Covers(start, end, step, n) && Spans(env, w, args, start, end, step)
    ensures AlikeEnd(env, RenderLoop(env, macros, w, name, args, Line(items, End), fuel),
                     (Adding(w, LoopText(env, w, name, start, step, n, n, items)), Fine))
  {
    hide AlikeScope, LineText, Line, Rounds, Iterations, LoopRange, AsNumber, Covers;
    RangeMeans(env, w, args);
    RoundsCovered(start, end, step, n);
    var v := LoopRange(env, w, args).0;
    AlikeTurned(env, v, w);
    if n == 0 {
      assert w.out + "" == w.out;
    } else {
      var body := Line(items, End);
      NumberLines(env, macros, w, name, start, step, n, n, items, fuel);
      LoopStartAlike(env, v, w, name);
      var a, b := Push(v, [NumBind(name)]), Push(w, [NumBind(name)]);
      RoundsAlike(env, macros, a, b, start, step, n, n, body, fuel);
      var done := LoopDone(env, w, name, start, step, n, n, items);
      var r, s := Rounds(env, macros, a, start, step, n, n, body, fuel), Rounds(env, macros, b, start, step, n, n, body, fuel);
      AlikeThrough(env, r.0, s.0, done);
      PopAlike(env, r.0, done, 1);
      assert Pop(done, 1) == Adding(w, LoopText(env, w, name, start, step, n, n, items));
    }
  }

  /** The arguments of a loop give these bounds. */
  predicate Spans(env: Env, w: World, args: seq<Arg>, start: int, end: int, step: int) {
    && 1 <= |args| <= 3 && Failing !in args
    && start == (if |args| == 1 then 0 else AsNumber(env, w, args[0]))
    && end == (if |args| == 1 then AsNumber(env, w, args[0]) else AsNumber(env, w, args[1]))
    && step == (if |args| == 3 then AsNumber(env, w, args[2]) else 1)
  }

  /** The numbers start, start + step and so on, k of them. */
  function Numbers(env: Env, start: int, step: int, k: nat): string {
    if k == 0 then "" else Numbers(env, start, step, k - 1) + env.show(start + (k - 1) * step)
  }

  /** A loop that shows its variable prints its numbers in order. */
  lemma LoopShows(env: Env, macros: Macros, w: World, name: string, args: seq<Arg>, start: int, end: int, step: int, n: nat, fuel: nat)
    requires Alike(env, w, w) && '.' !in name && Covers(start, end, step, n) && Spans(env, w, args, start, end, step)
    ensures AlikeEnd(env, RenderLoop(env, macros, w, name, args, Show(Ref(name), End), fuel),
                     (Adding(w, Numbers(env, start, step, n)), Fine))
  {
    hide Alike, RenderLoop, Covers, Spans;
    LineOfOne(Ref(name));
    LoopAdds(env, macros, w, name, args, start, end, step, n, [Value(Ref(name))], fuel);
    NumbersText(env, w, name, start, step, n, n);
  }

  lemma {:induction false} NumbersText(env: Env, w: World, name: string, start: int, step: int, n: nat, k: nat)
    requires '.' !in name
    ensures LoopText(env, w, name, start, step, n, k, [Value(Ref(name))]) == Numbers(env, start, step, k)
    decreases k
  {
    hide VarValue;
    if k > 0 {
      NumbersText(env, w, name, start, step, n, k - 1);
      var v := ForNumber(w, name, start + (k - 1) * step, k == 1, k == n);
      NumberValue(env, v, name);
      ShownAlone(env, v, Ref(name));
    }
  }

  lemma NumberValue(env: Env, v: World, name: string)
    requires v.scope != [] && v.scope[0].name == name && v.scope[0].kind == NumB && v.scope[0].s == None && '.' !in name
    ensures VarValue(env, v, name) == Some(env.show(v.scope[0].n))
  {
    NameParts(name, "");
    FindIs(v.scope, name, 0, 0);
    hide HeadOf, RestOf, Find;
  }

  // ----- calls

  /** A call of a macro that is a line adds the text the line has with the parameters bound. */
  lemma CallAdds(env: Env, macros: Macros, w: World, macro: string, args: seq<Arg>, next: Node, items: seq<Item>, fuel: nat)
    requires Alike(env, w, w) && Sane(items) && Callable(macros, macro, args, Line(items, End)) && fuel > 0
    ensures AlikeEnd(env, Eval(env, macros, w, Call(macro, args, next), fuel),
                     (Adding(w, LineText(env, Push(w, BindArgs(env, w, macros[macro].params, args)), items)), Fine))
  {
    hide AlikeScope, LineText, Line, Render, BindArgs, Kept;
    var binds := BindArgs(env, w, macros[macro].params, args);
    var v := Push(w, binds);
    BindArgsAlike(env, w, w, macros[macro].params, args);
    PushAlike(env, w, w, binds);
    LineAdds(env, macros, v, items, End, fuel - 1);
    var u := Adding(v, LineText(env, v, items));
    EndOf(env, macros, u, fuel - 1);
    PopAlike(env, Render(env, macros, v, Line(items, End), fuel - 1).0, u, |binds|);
    assert Pop(u, |binds|) == Adding(w, LineText(env, v, items));
  }

  /** The macro is there, with this body, for this many arguments, none of which raises an error. */
  predicate Callable(macros: Macros, macro: string, args: seq<Arg>, body: Node) {
    macro in macros && macros[macro].body == body && |macros[macro].params| == |args| && Failing !in args
  }

  /** A macro that shows a parameter prints what showing the argument would print, if the parameter
      is found. */
  lemma CallShows(env: Env, macros: Macros, w: World, macro: string, args: seq<Arg>, i: nat, next: Node, fuel: nat)
    requires Alike(env, w, w) && Lawful(env) && fuel > 0
    requires macro in macros && i < |args| && |macros[macro].params| == |args|
    requires Callable(macros, macro, args, Show(Ref(macros[macro].params[i]), End))
    requires '.' !in macros[macro].params[i] && macros[macro].params[i] !in macros[macro].params[..i]
    ensures AlikeEnd(env, Eval(env, macros, w, Call(macro, args, next), fuel), (Adding(w, Printed(env, w, args[i])), Fine))
  {
    hide Alike, Lawful, VarValue, Eval, BindArgs, Push;
    var params := macros[macro].params;
    LineOfOne(Ref(params[i]));
    CallAdds(env, macros, w, macro, args, next, [Value(Ref(params[i]))], fuel);
    var v := Push(w, BindArgs(env, w, params, args));
    ShownAlone(env, v, Ref(params[i]));
    NameParts(params[i], "");
    BelowParameter(env, w, params, args, i, params[i]);
    KeptTexts(env, w);
    if args[i].Ref? {
      ArgumentMeans(env, w, args[i].name);
    }
  }

  lemma KeptTexts(env: Env, w: World)
    requires Alike(env, w, w)
    ensures Texts(env, w.scope)
  {
    forall i | 0 <= i < |w.scope| && w.scope[i].kind == NumB && w.scope[i].s.Some?
      ensures w.scope[i].s == Some(env.show(w.scope[i].n))
    {
      assert AlikeBind(env, w.scope[i], w.scope[i]);
    }
  }

  // ----- assignments

  /** Assigning to a local number or string makes it that text, and leaves every other name, the
      dataset and the output alone. */
  lemma SetLocal(env: Env, w: World, name: string, text: string)
    requires '.' !in name && LookupMap(w.scope, name) < |w.scope| && w.scope[LookupMap(w.scope, name)].kind != VarB
    ensures var r := VarSet(env, w, name, Some(text));
            && r.1 == Fine && r.0.hdf == w.hdf && r.0.out == w.out
            && VarValue(env, r.0, name) == Some(text)
            && forall other :: HeadOf(other) != name ==> VarValue(env, r.0, other) == VarValue(env, w, other)
  {
    NameParts(name, "");
    var r := VarSet(env, w, name, Some(text));
    var k := LookupMap(w.scope, name);
    assert r.0.scope == w.scope[k := w.scope[k].(kind := StrB, alloc := true, s := Some(text))];
    SameNames(w.scope, r.0.scope, name);
    forall other | HeadOf(other) != name
      ensures VarValue(env, r.0, other) == VarValue(env, w, other)
    {
      SameNames(w.scope, r.0.scope, other);
      hide HeadOf, RestOf, Find;
    }
    hide HeadOf, RestOf, Find;
  }

  lemma {:induction false} FindSame(a: seq<Bind>, b: seq<Bind>, name: string, i: nat)
    requires |a| == |b| && i <= |a| && forall j :: 0 <= j < |a| ==> b[j].name == a[j].name
    ensures Find(b, name, i) == Find(a, name, i)
    decreases |a| - i
  {
    if i < |a| {
      FindSame(a, b, name, i + 1);
    }
  }

  lemma SameNames(a: seq<Bind>, b: seq<Bind>, name: string)
    requires |a| == |b| && forall j :: 0 <= j < |a| ==> b[j].name == a[j].name
    ensures LookupMap(b, name) == LookupMap(a, name)
  {
    FindSame(a, b, HeadOf(name), 0);
  }

  /** Below a local number or string there is nothing to assign to: nothing happens. A missing value
      cannot be assigned to one. */
  lemma SetBelowLocal(env: Env, w: World, name: string, rest: string, value: Option<string>)
    requires '.' !in name && LookupMap(w.scope, name) < |w.scope| && w.scope[LookupMap(w.scope, name)].kind != VarB
    ensures VarSet(env, w, name + "." + rest, value) == (w, Fine) && VarSet(env, w, name, None) == (w, Raised)
  {
    NameParts(name, rest);
    hide HeadOf, RestOf, Find;
  }

  /** Assigning to what is not local, or below a local node, sets the dataset there: the name has the
      value afterwards if the dataset gives back what was put. */
  lemma SetDataset(env: Env, w: World, name: string, h: Path, rest: string, value: Option<string>)
    requires '.' !in name && LookupMap(w.scope, name) < |w.scope|
    requires w.scope[LookupMap(w.scope, name)].kind == VarB && w.scope[LookupMap(w.scope, name)].h == Some(h)
    ensures var r, put := VarSet(env, w, name + "." + rest, value), env.put(w.hdf, h, rest, value);
            && r == (w.(hdf := put.0), if put.1 then Fine else Raised)
            && VarValue(env, r.0, name + "." + rest) == env.value(put.0, h, rest)
  {
    NameParts(name, rest);
    hide HeadOf, RestOf, Find;
  }

  lemma SetTop(env: Env, w: World, name: string, value: Option<string>)
    requires LookupMap(w.scope, name) == |w.scope|
    ensures var r, put := VarSet(env, w, name, value), env.put(w.hdf, env.top, name, value);
            && r == (w.(hdf := put.0), if put.1 then Fine else Raised)
            && VarValue(env, r.0, name) == env.value(put.0, env.top, name)
  {
    hide HeadOf, RestOf, Find;
  }

  /** `set` and then a shown name print the value assigned. */
  lemma SetShows(env: Env, macros: Macros, w: World, name: string, a: Arg, next: Node, fuel: nat)
    requires Alike(env, w, w) && a != Failing
    requires var r := VarSet(env, w, name, Some(Printed(env, w, a)));
             r.1 == Fine && VarValue(env, r.0, name) == Some(Printed(env, w, a))
    requires a.Ref? ==> VarValue(env, w, a.name).Some?
    ensures var r := VarSet(env, w, name, Some(Printed(env, w, a))).0;
            AlikeEnd(env, Render(env, macros, w, SetTo(name, a, Show(Ref(name), next)), fuel),
                     Render(env, macros, Adding(r, Printed(env, w, a)), next, fuel))
  {
    hide Alike, VarValue, VarSet, Asked;
    var t := ArgText(env, w, a);
    var text := Printed(env, w, a);
    assert t.1 == Some(text);
    ArgsKeep(env, w, a);
    AlikeTurned(env, w, t.0);
    SetAlike(env, t.0, w, name, Some(text));
    var r, s := VarSet(env, t.0, name, Some(text)), VarSet(env, w, name, Some(text));
    AlikeTurned(env, r.0, s.0);
    AlikeTurned(env, s.0, r.0);
    var items := [Value(Ref(name))];
    assert Line(items, next) == Show(Ref(name), next) by {
      assert items[1..] == [];
    }
    hide Render;
    LineAdds(env, macros, s.0, items, next, fuel);
    ShownAlone(env, s.0, Ref(name));
    RenderAlike(env, macros, r.0, s.0, Show(Ref(name), next), fuel);
    SetThenNext(env, macros, w, name, a, Show(Ref(name), next), fuel);
    AlikeEndThrough(env, Render(env, macros, r.0, Show(Ref(name), next), fuel), Render(env, macros, s.0, Show(Ref(name), next), fuel),
                    Render(env, macros, Adding(s.0, text), next, fuel));
  }

  lemma SetThenNext(env: Env, macros: Macros, w: World, name: string, a: Arg, next: Node, fuel: nat)
    requires a != Failing
    ensures var t := ArgText(env, w, a);
            var r := VarSet(env, t.0, name, t.1);
            r.1 == Fine ==> Render(env, macros, w, SetTo(name, a, next), fuel) == Render(env, macros, r.0, next, fuel)
  {
    hide ArgText, VarSet;
  }
}

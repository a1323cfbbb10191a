/** What the rounds of `each` and `loop`, the body of `with` and a macro find their variables bound
    to, and what they add to the output. */
module CsRounds {
  import opened Wrappers
  import opened HdfNames
  import opened HdfDir
  import opened CsScope
  import opened CsRender
  import opened CsScopeLaws
  import opened CsCaching
  import opened CsOutput

  // ----- each

  /** The children of a node of a dataset, in order. */
  ghost predicate Children(env: Env, d: Dir, p: Path, kids: seq<Path>) {
    && (forall i: nat {:trigger kids[i]} :: i < |kids| ==> env.kid(d, p, i) == Some(kids[i]))
    && env.kid(d, p, |kids|) == None
  }

  /** The state in which round j of `each` starts. */
  function KidRound(w: World, kid: Path): (v: World)
    requires w.scope != []
    ensures v.scope != []
  {
    WithTop(w, w.scope[0].(h := Some(kid)))
  }

  /** The first j rounds over listed nodes, up to the first error. */
  function OverKids(env: Env, macros: Macros, w: World, kids: seq<Path>, j: nat, body: Node, fuel: nat): (r: (World, Status))
    requires w.scope != [] && j <= |kids| <= fuel
    ensures r.0.scope != []
  {
    if j == 0 then (w, Fine)
    else
      var before := OverKids(env, macros, w, kids, j - 1, body, fuel);
      if before.1 != Fine then before
      else
        var b := Render(env, macros, KidRound(before.0, kids[j - 1]), body, fuel - (j - 1));
        (EndRound(b.0), b.1)
  }

  /** The rounds started so far leave the children of p as they are. */
  ghost predicate LeavesKids(env: Env, macros: Macros, w: World, p: Path, kids: seq<Path>, body: Node, fuel: nat)
    requires w.scope != [] && |kids| <= fuel
  {
    forall j: nat {:trigger OverKids(env, macros, w, kids, j, body, fuel)} ::
      j <= |kids| && OverKids(env, macros, w, kids, j, body, fuel).1 == Fine ==>
        Children(env, OverKids(env, macros, w, kids, j, body, fuel).0.hdf, p, kids)
  }

  lemma {:induction false} OverKidsStop(env: Env, macros: Macros, w: World, kids: seq<Path>, j: nat, m: nat, body: Node, fuel: nat)
    requires w.scope != [] && j <= m <= |kids| <= fuel && OverKids(env, macros, w, kids, j, body, fuel).1 != Fine
    ensures OverKids(env, macros, w, kids, m, body, fuel) == OverKids(env, macros, w, kids, j, body, fuel)
    decreases m
  {
    hide Render;
    if j < m {
      OverKidsStop(env, macros, w, kids, j, m - 1, body, fuel);
    }
  }

  lemma {:induction false} EachFromKid(env: Env, macros: Macros, w: World, p: Path, kids: seq<Path>, j: nat, body: Node, fuel: nat)
    requires w.scope != [] && j <= |kids| <= fuel && LeavesKids(env, macros, w, p, kids, body, fuel)
    requires OverKids(env, macros, w, kids, j, body, fuel).1 == Fine
    ensures EachFrom(env, macros, OverKids(env, macros, w, kids, j, body, fuel).0, p, j, body, fuel - j)
         == OverKids(env, macros, w, kids, |kids|, body, fuel)
    decreases |kids| - j
  {
    hide Render, EndRound, EachFrom, OverKids, KidRound, LeavesKids;
    var v := OverKids(env, macros, w, kids, j, body, fuel).0;
    ChildHere(env, macros, w, p, kids, j, body, fuel);
    if j < |kids| {
      EachFromStep(env, macros, v, p, j, body, fuel - j, kids[j]);
      OverKidsStep(env, macros, w, kids, j, body, fuel);
      if OverKids(env, macros, w, kids, j + 1, body, fuel).1 == Fine {
        EachFromKid(env, macros, w, p, kids, j + 1, body, fuel);
      } else {
        OverKidsStop(env, macros, w, kids, j + 1, |kids|, body, fuel);
      }
    } else {
      EachFromEnd(env, macros, v, p, j, body, fuel - j);
    }
  }

  lemma ChildHere(env: Env, macros: Macros, w: World, p: Path, kids: seq<Path>, j: nat, body: Node, fuel: nat)
    requires w.scope != [] && j <= |kids| <= fuel && LeavesKids(env, macros, w, p, kids, body, fuel)
    requires OverKids(env, macros, w, kids, j, body, fuel).1 == Fine
    ensures env.kid(OverKids(env, macros, w, kids, j, body, fuel).0.hdf, p, j) == if j < |kids| then Some(kids[j]) else None
  {
    hide OverKids;
  }

  lemma EachFromStep(env: Env, macros: Macros, v: World, p: Path, i: nat, body: Node, fuel: nat, kid: Path)
    requires v.scope != [] && env.kid(v.hdf, p, i) == Some(kid) && fuel > 0
    ensures var b := Render(env, macros, KidRound(v, kid), body, fuel);
            && b.0.scope != []
            && EachFrom(env, macros, v, p, i, body, fuel) ==
                 if b.1 != Fine then (EndRound(b.0), b.1) else EachFrom(env, macros, EndRound(b.0), p, i + 1, body, fuel - 1)
  {
    hide Render, EndRound;
  }

  lemma EachFromEnd(env: Env, macros: Macros, v: World, p: Path, i: nat, body: Node, fuel: nat)
    requires v.scope != [] && env.kid(v.hdf, p, i) == None
    ensures EachFrom(env, macros, v, p, i, body, fuel) == (v, Fine)
  {
  }

  lemma OverKidsStep(env: Env, macros: Macros, w: World, kids: seq<Path>, j: nat, body: Node, fuel: nat)
    requires w.scope != [] && j < |kids| <= fuel && OverKids(env, macros, w, kids, j, body, fuel).1 == Fine
    ensures var b := Render(env, macros, KidRound(OverKids(env, macros, w, kids, j, body, fuel).0, kids[j]), body, fuel - j);
            b.0.scope != [] && OverKids(env, macros, w, kids, j + 1, body, fuel) == (EndRound(b.0), b.1)
  {
    hide Render, EndRound, KidRound;
  }

  /** `each` makes one round for every child, in their order, if the rounds leave the children as they
      are. */
  lemma EachRounds(env: Env, macros: Macros, w: World, p: Path, kids: seq<Path>, body: Node, fuel: nat)
    requires w.scope != [] && |kids| <= fuel && LeavesKids(env, macros, w, p, kids, body, fuel)
    ensures EachFrom(env, macros, w, p, 0, body, fuel) == OverKids(env, macros, w, kids, |kids|, body, fuel)
  {
    hide Render, LeavesKids, EachFrom;
    EachFromKid(env, macros, w, p, kids, 0, body, fuel);
  }

  /** The loop variable of `each` after j rounds; nothing a body does changes it. */
  function EachVariable(name: string, kids: seq<Path>, j: nat): Bind
    requires j <= |kids|
  {
    Bind(name, VarB, None, 0, if j == 0 then None else Some(kids[j - 1]), false, j == 0, false)
  }

  lemma {:induction false} EachVariableKept(env: Env, macros: Macros, w: World, name: string, kids: seq<Path>, j: nat, body: Node, fuel: nat)
    requires w.scope != [] && w.scope[0] == NodeBind(name, None, true) && j <= |kids| <= fuel
    requires OverKids(env, macros, w, kids, j, body, fuel).1 == Fine
    ensures OverKids(env, macros, w, kids, j, body, fuel).0.scope[0] == EachVariable(name, kids, j)
    decreases j
  {
    hide Render;
    if j > 0 {
      EachVariableKept(env, macros, w, name, kids, j - 1, body, fuel);
      var v := KidRound(OverKids(env, macros, w, kids, j - 1, body, fuel).0, kids[j - 1]);
      RenderKeepsScope(env, macros, v, body, fuel - (j - 1));
      assert SameBind(env, v.scope[0], Render(env, macros, v, body, fuel - (j - 1)).0.scope[0]);
    }
  }

  /** Round j finds its variable bound to the j-th child, and marked first in round 0 only. */
  lemma EachRoundBinds(env: Env, macros: Macros, w: World, name: string, kids: seq<Path>, j: nat, body: Node, fuel: nat)
    requires w.scope != [] && w.scope[0] == NodeBind(name, None, true) && '.' !in name && j < |kids| <= fuel
    requires OverKids(env, macros, w, kids, j, body, fuel).1 == Fine
    ensures var v := KidRound(OverKids(env, macros, w, kids, j, body, fuel).0, kids[j]);
            && NamesNode(env, v, name, kids[j])
            && (v.scope[0].first <==> j == 0)
  {
    EachVariableKept(env, macros, w, name, kids, j, body, fuel);
    FrontNames(env, KidRound(OverKids(env, macros, w, kids, j, body, fuel).0, kids[j]), name, kids[j]);
  }

  /** The name stands for the node, and names below it for what is found from there. */
  ghost predicate NamesNode(env: Env, v: World, name: string, h: Path) {
    && VarObj(env, v, name) == Some(h)
    && VarValue(env, v, name) == env.value(v.hdf, h, "")
    && (forall rest {:trigger name + "." + rest} ::
          && VarObj(env, v, name + "." + rest) == env.obj(v.hdf, h, rest)
          && VarValue(env, v, name + "." + rest) == env.value(v.hdf, h, rest))
  }

  lemma FrontNames(env: Env, v: World, name: string, h: Path)
    requires v.scope != [] && v.scope[0].name == name && v.scope[0].kind == VarB && v.scope[0].h == Some(h) && '.' !in name
    ensures NamesNode(env, v, name, h)
  {
    NameParts(name, "");
    FindIs(v.scope, name, 0, 0);
    forall rest
      ensures VarObj(env, v, name + "." + rest) == env.obj(v.hdf, h, rest)
      ensures VarValue(env, v, name + "." + rest) == env.value(v.hdf, h, rest)
    {
      NameParts(name, rest);
      hide HeadOf, RestOf, Find;
    }
    hide HeadOf, RestOf, Find;
  }

  /** The scope of one round over a child, below it the scope found. */
  function ForKid(w: World, name: string, kid: Path, first: bool): World {
    w.(scope := [Bind(name, VarB, None, 0, Some(kid), false, first, false)] + w.scope)
  }

  /** The text of the rounds over the first j children. */
  function KidsText(env: Env, w: World, name: string, kids: seq<Path>, j: nat, items: seq<Item>): string
    requires j <= |kids|
  {
    if j == 0 then ""
    else KidsText(env, w, name, kids, j - 1, items) + LineText(env, ForKid(w, name, kids[j - 1], j == 1), items)
  }

  /** The state after j rounds of a line. */
  function KidsDone(env: Env, w: World, name: string, kids: seq<Path>, j: nat, items: seq<Item>): (v: World)
    requires j <= |kids|
    ensures v.scope != []
  {
    Adding(w.(scope := [EachVariable(name, kids, j)] + w.scope), KidsText(env, w, name, kids, j, items))
  }

  lemma KidStarts(env: Env, w: World, name: string, kids: seq<Path>, j: nat, items: seq<Item>)
    requires Alike(env, w, w) && j < |kids|
    ensures var v := Adding(ForKid(w, name, kids[j], j == 0), KidsText(env, w, name, kids, j, items));
            && KidRound(KidsDone(env, w, name, kids, j, items), kids[j]) == v && Alike(env, v, v)
            && LineText(env, v, items) == LineText(env, ForKid(w, name, kids[j], j == 0), items)
  {
    hide LineText, KidsText, HeadOf;
    var u := ForKid(w, name, kids[j], j == 0);
    PushAlike(env, w, w, [u.scope[0]]);
    var t := KidsText(env, w, name, kids, j, items);
    AddingAlike(env, u, u, t);
    AlikeOutput(env, u, Adding(u, t));
    LineTextAlike(env, Adding(u, t), u, items);
  }

  lemma KidEnds(env: Env, w: World, name: string, kids: seq<Path>, j: nat, items: seq<Item>)
    requires j < |kids|
    ensures var u := ForKid(w, name, kids[j], j == 0);
            EndRound(Adding(Adding(u, KidsText(env, w, name, kids, j, items)), LineText(env, u, items))) ==
            KidsDone(env, w, name, kids, j + 1, items)
  {
    var u := ForKid(w, name, kids[j], j == 0);
    AddingTwice(u, KidsText(env, w, name, kids, j, items), LineText(env, u, items));
    hide LineText;
  }

  lemma KidLine(env: Env, macros: Macros, w: World, name: string, kids: seq<Path>, j: nat, items: seq<Item>, fuel: nat)
    requires Alike(env, w, w) && Sane(items) && j < |kids|
    ensures var v := KidRound(KidsDone(env, w, name, kids, j, items), kids[j]);
            var b := Render(env, macros, v, Line(items, End), fuel);
            b.1 == Fine && b.0.scope != [] && Alike(env, EndRound(b.0), KidsDone(env, w, name, kids, j + 1, items))
  {
    hide AlikeScope, LineText, KidsText, Line, Render, KidsDone, ForKid, EndRound, KidRound;
    var v := KidRound(KidsDone(env, w, name, kids, j, items), kids[j]);
    KidStarts(env, w, name, kids, j, items);
    LineAdds(env, macros, v, items, End, fuel);
    var u := Adding(v, LineText(env, v, items));
    EndOf(env, macros, u, fuel);
    var b := Render(env, macros, v, Line(items, End), fuel);
    AlikeTurned(env, b.0, u);
    AlikeLength(env, b.0.scope, v.scope);
    EndRoundAlike(env, b.0, u);
    KidEnds(env, w, name, kids, j, items);
  }

  lemma {:induction false} KidsLines(env: Env, macros: Macros, w: World, name: string, kids: seq<Path>, j: nat, items: seq<Item>, fuel: nat)
    requires Alike(env, w, w) && Sane(items) && j <= |kids| <= fuel
    ensures AlikeEnd(env, OverKids(env, macros, Push(w, [NodeBind(name, None, true)]), kids, j, Line(items, End), fuel),
                     (KidsDone(env, w, name, kids, j, items), Fine))
    decreases j
  {
    hide AlikeScope, LineText, Line, Render, EndRound;
    var start, body := Push(w, [NodeBind(name, None, true)]), Line(items, End);
    if j == 0 {
      PushAlike(env, w, w, [NodeBind(name, None, true)]);
      assert w.out + "" == w.out;
    } else {
      hide KidsDone, KidRound;
      KidsLines(env, macros, w, name, kids, j - 1, items, fuel);
      var before, done := OverKids(env, macros, start, kids, j - 1, body, fuel).0, KidsDone(env, w, name, kids, j - 1, items);
      KidRoundAlike(env, before, done, kids[j - 1]);
      var a, b := KidRound(before, kids[j - 1]), KidRound(done, kids[j - 1]);
      RenderAlike(env, macros, a, b, body, fuel - (j - 1));
      KidLine(env, macros, w, name, kids, j - 1, items, fuel - (j - 1));
      var r, s := Render(env, macros, a, body, fuel - (j - 1)).0, Render(env, macros, b, body, fuel - (j - 1)).0;
      AlikeLength(env, r.scope, s.scope);
      EndRoundAlike(env, r, s);
      AlikeThrough(env, EndRound(r), EndRound(s), KidsDone(env, w, name, kids, j, items));
    }
  }

  lemma KidRoundAlike(env: Env, w: World, v: World, kid: Path)
    requires Alike(env, w, v) && w.scope != []
    ensures v.scope != [] && Alike(env, KidRound(w, kid), KidRound(v, kid))
  {
    TopAlike(env, w, v, Some(kid));
  }

  /** `each` over a line adds the texts of the line for every child in order, and nothing else is
      seen to change. */
  lemma EachAdds(env: Env, macros: Macros, w: World, name: string, x: string, p: Path, kids: seq<Path>, items: seq<Item>, fuel: nat)
    requires Alike(env, w, w) && Sane(items) && |kids| <= fuel
    requires VarObj(env, w, x) == Some(p) && Children(env, w.hdf, p, kids)
    ensures AlikeEnd(env, RenderEach(env, macros, w, name, Ref(x), Line(items, End), fuel),
                     (Adding(w, KidsText(env, w, name, kids, |kids|, items)), Fine))
  {
    hide Alike, LineText, Line, VarObj, Children;
    var start, body := Push(w, [NodeBind(name, None, true)]), Line(items, End);
    forall j: nat | j <= |kids|
      ensures OverKids(env, macros, start, kids, j, body, fuel).0.hdf == w.hdf
    {
      KidsLines(env, macros, w, name, kids, j, items, fuel);
      AlikeDataset(env, OverKids(env, macros, start, kids, j, body, fuel).0, KidsDone(env, w, name, kids, j, items));
    }
    hide EachFrom, OverKids;
    EachRounds(env, macros, start, p, kids, body, fuel);
    KidsLines(env, macros, w, name, kids, |kids|, items, fuel);
    PopAlike(env, OverKids(env, macros, start, kids, |kids|, body, fuel).0, KidsDone(env, w, name, kids, |kids|, items), 1);
    assert Pop(KidsDone(env, w, name, kids, |kids|, items), 1) == Adding(w, KidsText(env, w, name, kids, |kids|, items));
  }

  lemma AlikeDataset(env: Env, w: World, v: World)
    requires Alike(env, w, v)
    ensures w.hdf == v.hdf && |w.scope| == |v.scope|
  {
  }

  /** The values of the nodes, one after the other. */
  function Values(env: Env, d: Dir, kids: seq<Path>): string {
    if kids == [] then "" else OrNothing(env.value(d, kids[0], "")) + Values(env, d, kids[1..])
  }

  /** `each` over a body that shows the variable prints the values of the children in order. */
  lemma EachShows(env: Env, macros: Macros, w: World, name: string, x: string, p: Path, kids: seq<Path>, fuel: nat)
    requires Alike(env, w, w) && '.' !in name && |kids| <= fuel
    requires VarObj(env, w, x) == Some(p) && Children(env, w.hdf, p, kids)
    ensures AlikeEnd(env, RenderEach(env, macros, w, name, Ref(x), Show(Ref(name), End), fuel),
                     (Adding(w, Values(env, w.hdf, kids)), Fine))
  {
    hide Alike, VarObj, Children, RenderEach;
    var items := [Value(Ref(name))];
    assert Line(items, End) == Show(Ref(name), End) by {
      assert items[1..] == [];
    }
    EachAdds(env, macros, w, name, x, p, kids, items, fuel);
    ValuesText(env, w, name, kids, |kids|);
    assert kids[..|kids|] == kids;
  }

  lemma {:induction false} ValuesText(env: Env, w: World, name: string, kids: seq<Path>, j: nat)
    requires '.' !in name && j <= |kids|
    ensures KidsText(env, w, name, kids, j, [Value(Ref(name))]) == Values(env, w.hdf, kids[..j])
    decreases j
  {
    hide LineText, ForKid, Values, OrNothing;
    if j == 0 {
      NoValues(env, w.hdf, kids[..j]);
    } else {
      ValuesText(env, w, name, kids, j - 1);
      KidShown(env, w, name, kids[j - 1], j == 1);
      ValuesMore(env, w.hdf, kids[..j - 1], kids[j - 1]);
      assert kids[..j] == kids[..j - 1] + [kids[j - 1]];
    }
  }

  lemma NoValues(env: Env, d: Dir, kids: seq<Path>)
    requires |kids| == 0
    ensures Values(env, d, kids) == ""
  {
  }

  lemma KidShown(env: Env, w: World, name: string, kid: Path, first: bool)
    requires '.' !in name
    ensures LineText(env, ForKid(w, name, kid, first), [Value(Ref(name))]) == OrNothing(env.value(w.hdf, kid, ""))
  {
    hide VarValue, VarObj, LineText;
    FrontNames(env, ForKid(w, name, kid, first), name, kid);
    ShownAlone(env, ForKid(w, name, kid, first), Ref(name));
  }

  lemma ShownAlone(env: Env, w: World, a: Arg)
    ensures LineText(env, w, [Value(a)]) == Printed(env, w, a)
  {
    var items := [Value(a)];
    assert items[1..] == [];
    assert Printed(env, w, a) + "" == Printed(env, w, a);
  }

  lemma {:induction false} ValuesMore(env: Env, d: Dir, kids: seq<Path>, kid: Path)
    ensures Values(env, d, kids + [kid]) == Values(env, d, kids) + OrNothing(env.value(d, kid, ""))
    decreases |kids|
  {
    if kids == [] {
      assert [kid][1..] == [];
    } else {
      ValuesMore(env, d, kids[1..], kid);
      assert (kids + [kid])[1..] == kids[1..] + [kid];
    }
  }
}

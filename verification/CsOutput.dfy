/** What rendering adds to the output: printed values, the arm an `if` takes, the rounds of `each`
    and `loop`, `with` and calls. */
module CsOutput {
  import opened Wrappers
  import opened HdfNames
  import opened HdfDir
  import opened CsScope
  import opened CsRender
  import opened CsScopeLaws
  import opened CsCaching

  // ----- names

  /** A name is looked up by the part before its first dot, and what follows is found below that. */
  lemma NameParts(head: string, rest: string)
    requires '.' !in head
    ensures HeadOf(head) == head && RestOf(head) == None
    ensures HeadOf(head + "." + rest) == head && RestOf(head + "." + rest) == Some(rest)
  {
    NoDot(head, 0);
    PastedDot(head, 0, rest);
    var name := head + "." + rest;
    assert name[..|head|] == head && name[|head| + 1..] == rest;
  }

  // ----- printed values

  /** What is printed for an argument. */
  function Printed(env: Env, w: World, a: Arg): string {
    match a
    case Str(s) => s
    case Num(n) => env.show(n)
    case Ref(name) => OrNothing(VarValue(env, w, name))
    case Failing => ""
  }

  /** A missing value is printed as nothing. */
  function OrNothing(value: Option<string>): string {
    if value.Some? then value.value else ""
  }

  datatype Item = Text(text: string) | Value(arg: Arg)

  /** Fixed text and printed values, one after the other. */
  function Line(items: seq<Item>, next: Node): Node {
    if items == [] then next
    else
      match items[0]
      case Text(text) => Literal(text, Line(items[1..], next))
      case Value(arg) => Show(arg, Line(items[1..], next))
  }

  predicate Sane(items: seq<Item>) {
    Value(Failing) !in items
  }

  function LineText(env: Env, w: World, items: seq<Item>): string {
    if items == [] then ""
    else (if items[0].Text? then items[0].text else Printed(env, w, items[0].arg)) + LineText(env, w, items[1..])
  }

  function Adding(w: World, text: string): World {
    w.(out := w.out + text)
  }

  lemma AddingAlike(env: Env, w: World, v: World, text: string)
    requires Alike(env, w, v)
    ensures Alike(env, Adding(w, text), Adding(v, text))
  {
  }

  lemma AddingTwice(w: World, a: string, b: string)
    ensures Adding(Adding(w, a), b) == Adding(w, a + b)
  {
    assert (w.out + a) + b == w.out + (a + b);
  }

  /** What is printed does not depend on the output so far, nor on the texts kept. */
  lemma {:induction false} LineTextAlike(env: Env, w: World, v: World, items: seq<Item>)
    requires Alike(env, w.(out := ""), v.(out := ""))
    ensures LineText(env, w, items) == LineText(env, v, items)
  {
    if items != [] {
      LineTextAlike(env, w, v, items[1..]);
      if items[0].Value? && items[0].arg.Ref? {
        NamesAlike(env, w.(out := ""), v.(out := ""), items[0].arg.name);
      }
    }
  }

  lemma AlikeEndThrough(env: Env, r: (World, Status), s: (World, Status), t: (World, Status))
    requires AlikeEnd(env, r, s) && AlikeEnd(env, s, t)
    ensures AlikeEnd(env, r, t)
  {
    AlikeThrough(env, r.0, s.0, t.0);
  }

  /** One printed value: its text is added, and nothing else is seen to change. */
  lemma ShowAdds(env: Env, macros: Macros, w: World, a: Arg, next: Node, fuel: nat)
    requires Alike(env, w, w) && a != Failing
    ensures AlikeEnd(env, Eval(env, macros, w, Show(a, next), fuel), (Adding(w, Printed(env, w, a)), Fine))
  {
    var t := ArgText(env, w, a);
    ArgsKeep(env, w, a);
    AddingAlike(env, t.0, w, Printed(env, w, a));
    assert w.out + "" == w.out;
    hide VarValue, Alike, Asked;
  }

  /** A line of fixed text and printed values adds the texts in order, and what follows goes on from
      there. */
  lemma {:induction false} LineAdds(env: Env, macros: Macros, w: World, items: seq<Item>, next: Node, fuel: nat)
    requires Alike(env, w, w) && Sane(items)
    ensures AlikeEnd(env, Render(env, macros, w, Line(items, next), fuel),
                     Render(env, macros, Adding(w, LineText(env, w, items)), next, fuel))
    decreases |items|
  {
    hide Alike;
    if items == [] {
      assert w.out + "" == w.out;
      RenderAlike(env, macros, w, w, next, fuel);
    } else {
      var t := if items[0].Text? then items[0].text else Printed(env, w, items[0].arg);
      var rest := Line(items[1..], next);
      var v := Adding(w, t);
      AddingAlike(env, w, w, t);
      FirstAdds(env, macros, w, items, next, fuel);
      LineAdds(env, macros, v, items[1..], next, fuel);
      AlikeOutput(env, w, v);
      LineTextAlike(env, w, v, items[1..]);
      AddingTwice(w, t, LineText(env, w, items[1..]));
      AlikeEndThrough(env, Render(env, macros, w, Line(items, next), fuel), Render(env, macros, v, rest, fuel),
                      Render(env, macros, Adding(w, LineText(env, w, items)), next, fuel));
    }
  }

  lemma AlikeOutput(env: Env, w: World, v: World)
    requires Alike(env, w, w) && v.scope == w.scope && v.hdf == w.hdf
    ensures Alike(env, w.(out := ""), v.(out := ""))
  {
  }

  lemma FirstAdds(env: Env, macros: Macros, w: World, items: seq<Item>, next: Node, fuel: nat)
    requires Alike(env, w, w) && Sane(items) && items != []
    ensures var t := if items[0].Text? then items[0].text else Printed(env, w, items[0].arg);
            AlikeEnd(env, Render(env, macros, w, Line(items, next), fuel),
                     Render(env, macros, Adding(w, t), Line(items[1..], next), fuel))
  {
    hide Alike, Printed;
    var t := if items[0].Text? then items[0].text else Printed(env, w, items[0].arg);
    var rest := Line(items[1..], next);
    var node := Line(items, next);
    var e := Eval(env, macros, w, node, fuel);
    if items[0].Text? {
      assert node == Literal(items[0].text, rest) && e == (Adding(w, t), Fine);
      AddingAlike(env, w, w, t);
    } else {
      assert node == Show(items[0].arg, rest) && items[0].arg != Failing;
      ShowAdds(env, macros, w, items[0].arg, rest, fuel);
    }
    RenderAlike(env, macros, e.0, Adding(w, t), rest, fuel);
  }

  // ----- if, elif, else

  /** When a condition holds: a number that is not zero; a text that is not empty and does not read as zero; the same for
      the value of a name. */
  predicate Holds(env: Env, w: World, a: Arg) {
    match a
    case Num(n) => n != 0
    case Str(s) => s != "" && env.truth(s)
    case Ref(name) => var v := VarValue(env, w, name); v.Some? && v.value != "" && env.truth(v.value)
    case Failing => false
  }

  datatype Arm = Arm(cond: Arg, body: Node)

  /** The conditions of `if` and its `elif`s, as the builder hangs them: each in the else branch of
      the one before. */
  function Chain(arms: seq<Arm>, otherwise: Node): Node {
    if arms == [] then otherwise
    else Branch(arms[0].cond, arms[0].body, Chain(arms[1..], otherwise), End)
  }

  function If(arms: seq<Arm>, otherwise: Node, next: Node): Node
    requires arms != []
  {
    Branch(arms[0].cond, arms[0].body, Chain(arms[1..], otherwise), next)
  }

  /** k is the first condition that holds, or comes behind all of them. */
  ghost predicate FirstTrue(env: Env, w: World, arms: seq<Arm>, k: nat) {
    && k <= |arms|
    && (forall j :: 0 <= j < k ==> arms[j].cond != Failing && !Holds(env, w, arms[j].cond))
    && (k < |arms| ==> Holds(env, w, arms[k].cond))
  }

  function ArmAt(arms: seq<Arm>, otherwise: Node, k: nat): Node {
    if k < |arms| then arms[k].body else otherwise
  }

  lemma TruthIs(env: Env, w: World, a: Arg)
    requires Alike(env, w, w)
    ensures ArgTruth(env, w, a).1 == Holds(env, w, a) && Alike(env, ArgTruth(env, w, a).0, w)
  {
    ArgsKeep(env, w, a);
    AlikeTurned(env, w, ArgTruth(env, w, a).0);
    hide VarValue, Asked, Alike;
  }

  /** A chain of conditions does what the first arm whose condition holds does, or the else arm. */
  lemma {:induction false} ChainRuns(env: Env, macros: Macros, w: World, arms: seq<Arm>, otherwise: Node, k: nat, fuel: nat)
    requires Alike(env, w, w) && FirstTrue(env, w, arms, k)
    ensures AlikeEnd(env, Render(env, macros, w, Chain(arms, otherwise), fuel),
                     Render(env, macros, w, ArmAt(arms, otherwise, k), fuel))
    decreases |arms|
  {
    hide Alike, VarValue, ArgTruth;
    if arms == [] {
      RenderAlike(env, macros, w, w, otherwise, fuel);
    } else {
      var t := ArgTruth(env, w, arms[0].cond);
      TruthIs(env, w, arms[0].cond);
      var taken := if t.1 then arms[0].body else Chain(arms[1..], otherwise);
      OneNode(env, macros, w, arms[0].cond, arms[0].body, Chain(arms[1..], otherwise), End, fuel);
      RenderAlike(env, macros, t.0, w, taken, fuel);
      if k > 0 {
        ChainRuns(env, macros, w, arms[1..], otherwise, k - 1, fuel);
        AlikeEndThrough(env, Render(env, macros, w, Chain(arms, otherwise), fuel), Render(env, macros, w, taken, fuel),
                        Render(env, macros, w, ArmAt(arms, otherwise, k), fuel));
      }
    }
  }

  lemma OneNode(env: Env, macros: Macros, w: World, a: Arg, yes: Node, no: Node, next: Node, fuel: nat)
    requires !a.Failing?
    ensures var t := ArgTruth(env, w, a);
            Render(env, macros, w, Branch(a, yes, no, next), fuel) ==
            Continued(env, macros, Render(env, macros, t.0, if t.1 then yes else no, fuel), next, fuel)
  {
    hide ArgTruth;
    var e := Eval(env, macros, w, Branch(a, yes, no, next), fuel);
    if next.End? && e.1 == Fine {
      assert Render(env, macros, e.0, next, fuel) == (e.0, Fine);
    }
  }

  /** What follows a node, unless the node raised an error. */
  function Continued(env: Env, macros: Macros, r: (World, Status), next: Node, fuel: nat): (World, Status) {
    if r.1 != Fine || next.End? then r else Render(env, macros, r.0, next, fuel)
  }

  /** An `if` with any number of `elif`s: the first arm whose condition holds is rendered, or the
      else arm, no other; then what follows. */
  lemma IfRuns(env: Env, macros: Macros, w: World, arms: seq<Arm>, otherwise: Node, next: Node, k: nat, fuel: nat)
    requires Alike(env, w, w) && arms != [] && FirstTrue(env, w, arms, k)
    ensures AlikeEnd(env, Render(env, macros, w, If(arms, otherwise, next), fuel),
                     Continued(env, macros, Render(env, macros, w, ArmAt(arms, otherwise, k), fuel), next, fuel))
  {
    hide Alike, VarValue, ArgTruth, Render;
    ChainRuns(env, macros, w, arms, otherwise, k, fuel);
    var no := Chain(arms[1..], otherwise);
    OneNode(env, macros, w, arms[0].cond, arms[0].body, no, next, fuel);
    OneNode(env, macros, w, arms[0].cond, arms[0].body, no, End, fuel);
    ContinuedAlike(env, macros, Render(env, macros, w, Chain(arms, otherwise), fuel),
                   Render(env, macros, w, ArmAt(arms, otherwise, k), fuel), next, fuel);
  }

  lemma ContinuedAlike(env: Env, macros: Macros, r: (World, Status), s: (World, Status), next: Node, fuel: nat)
    requires AlikeEnd(env, r, s)
    ensures AlikeEnd(env, Continued(env, macros, r, next, fuel), Continued(env, macros, s, next, fuel))
  {
    RenderAlike(env, macros, r.0, s.0, next, fuel);
  }

  /** With lines for arms, exactly the text of the arm taken is added. */
  lemma IfAdds(env: Env, macros: Macros, w: World, conds: seq<Arg>, lines: seq<seq<Item>>, next: Node, k: nat, fuel: nat)
    requires Alike(env, w, w) && 0 < |conds| && |lines| == |conds| + 1 && forall i :: 0 <= i < |lines| ==> Sane(lines[i])
    requires k <= |conds| && (forall j :: 0 <= j < k ==> conds[j] != Failing && !Holds(env, w, conds[j]))
    requires k < |conds| ==> Holds(env, w, conds[k])
    ensures AlikeEnd(env, Render(env, macros, w, If(LineArms(conds, lines), Line(lines[|conds|], End), next), fuel),
                     Render(env, macros, Adding(w, LineText(env, w, lines[k])), next, fuel))
  {
    hide Alike, Holds, Line, LineText, Render;
    var arms, otherwise := LineArms(conds, lines), Line(lines[|conds|], End);
    IfRuns(env, macros, w, arms, otherwise, next, k, fuel);
    assert ArmAt(arms, otherwise, k) == Line(lines[k], End);
    LineAdds(env, macros, w, lines[k], End, fuel);
    var v := Adding(w, LineText(env, w, lines[k]));
    EndOf(env, macros, v, fuel);
    var r := Render(env, macros, w, Line(lines[k], End), fuel);
    ContinuedAlike(env, macros, r, (v, Fine), next, fuel);
    EndIsEnd(env, macros, v, next, fuel);
    AlikeEndThrough(env, Render(env, macros, w, If(arms, otherwise, next), fuel), Continued(env, macros, r, next, fuel),
                    Render(env, macros, v, next, fuel));
  }

  function LineArms(conds: seq<Arg>, lines: seq<seq<Item>>): (arms: seq<Arm>)
    requires |conds| <= |lines|
    ensures |arms| == |conds| && forall i {:trigger arms[i]} :: 0 <= i < |conds| ==> arms[i] == Arm(conds[i], Line(lines[i], End))
  {
    seq(|conds|, i requires 0 <= i < |conds| => Arm(conds[i], Line(lines[i], End)))
  }

  lemma EndOf(env: Env, macros: Macros, w: World, fuel: nat)
    ensures Render(env, macros, w, End, fuel) == (w, Fine)
  {
  }

  lemma EndIsEnd(env: Env, macros: Macros, w: World, next: Node, fuel: nat)
    ensures Continued(env, macros, (w, Fine), next, fuel) == Render(env, macros, w, next, fuel)
  {
  }

  /** A condition that raises an error, behind conditions that do not hold, stops the template, and
      nothing was added. */
  lemma {:induction false} ChainRaises(env: Env, macros: Macros, w: World, arms: seq<Arm>, otherwise: Node, k: nat, fuel: nat)
    requires Alike(env, w, w) && k < |arms| && FirstTrue(env, w, arms[..k], k) && arms[k].cond == Failing
    ensures AlikeEnd(env, Render(env, macros, w, Chain(arms, otherwise), fuel), (w, Raised))
    decreases |arms|
  {
    hide Alike, Holds, ArgTruth;
    if k > 0 {
      var t := ArgTruth(env, w, arms[0].cond);
      assert arms[..k][0] == arms[0];
      TruthIs(env, w, arms[0].cond);
      var rest := Chain(arms[1..], otherwise);
      OneNode(env, macros, w, arms[0].cond, arms[0].body, rest, End, fuel);
      RenderAlike(env, macros, t.0, w, rest, fuel);
      assert arms[1..][..k - 1] == arms[..k][1..];
      ChainRaises(env, macros, w, arms[1..], otherwise, k - 1, fuel);
      AlikeEndThrough(env, Render(env, macros, w, Chain(arms, otherwise), fuel), Render(env, macros, w, rest, fuel), (w, Raised));
    }
  }
}

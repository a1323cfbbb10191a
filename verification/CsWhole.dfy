/** From the commands of a template to its output: the tree the builder makes, as the renderer meets
    it. */
module CsWhole {
  import opened Wrappers
  import opened HdfNames
  import opened CsScope
  import opened CsRender
  import opened CsCaching
  import opened CsOutput
  import opened CsRounds
  import B = CsBlocks
  import R = CsReading

  /** What a command that opens no block does. */
  datatype Simple = Print(item: Item) | Assign(name: string, arg: Arg) | Invoke(macro: string, args: seq<Arg>) | Nothing

  /** How the texts behind the commands read. */
  datatype Reader = Reader(plain: string -> Simple, arg: string -> Arg, name: string -> string, args: string -> seq<Arg>)

  /** The tree of commands as the renderer meets it. `alt` shows its argument if that holds, and
      renders its body otherwise; a definition does nothing where it stands. */
  function NodeOf(rd: Reader, t: R.Tree): Node {
    match t
    case Nil => End
    case Tree(cmd, case0, case1, next) =>
      match cmd
      case Plain(text) =>
        (match rd.plain(text)
         case Print(Text(s)) => Literal(s, NodeOf(rd, next))
         case Print(Value(a)) => Show(a, NodeOf(rd, next))
         case Assign(name, a) => SetTo(name, a, NodeOf(rd, next))
         case Invoke(macro, args) => Call(macro, args, NodeOf(rd, next))
         case Nothing => Skip(NodeOf(rd, next)))
      case Open(kind, a) =>
        (match kind
         case If => Branch(rd.arg(a), NodeOf(rd, case0), NodeOf(rd, case1), NodeOf(rd, next))
         case Each => EachIn(rd.name(a), rd.arg(a), NodeOf(rd, case0), NodeOf(rd, next))
         case With => WithAs(rd.name(a), rd.arg(a), NodeOf(rd, case0), NodeOf(rd, next))
         case Loop => LoopOver(rd.name(a), rd.args(a), NodeOf(rd, case0), NodeOf(rd, next))
         case Alt => Branch(rd.arg(a), Show(rd.arg(a), End), NodeOf(rd, case0), NodeOf(rd, next))
         case Def => Skip(NodeOf(rd, next)))
      case Elif(a) => Branch(rd.arg(a), NodeOf(rd, case0), NodeOf(rd, case1), NodeOf(rd, next))
      case Else => Skip(NodeOf(rd, next))
      case Close(_) => Skip(NodeOf(rd, next))
  }

  /** The tree built from the commands of some items, as the renderer meets it. */
  function Template(rd: Reader, items: seq<B.Item>): Node {
    NodeOf(rd, R.TreeOf(items))
  }

  // ----- if

  /** The conditions from the i-th on with their bodies, then the else part, if there is one. */
  function RestFrom(conds: seq<string>, bodies: seq<seq<B.Item>>, last: B.Rest, i: nat): B.Rest
    requires |conds| == |bodies| && i <= |conds|
    decreases |conds| - i
  {
    if i == |conds| then last else B.ElifPart(conds[i], bodies[i], RestFrom(conds, bodies, last, i + 1))
  }

  function IfItem(conds: seq<string>, bodies: seq<seq<B.Item>>, last: B.Rest): B.Item
    requires |conds| == |bodies| > 0
  {
    B.Cond(conds[0], bodies[0], RestFrom(conds, bodies, last, 1))
  }

  function ArmsFrom(rd: Reader, conds: seq<string>, bodies: seq<seq<B.Item>>, i: nat): (arms: seq<Arm>)
    requires |conds| == |bodies| && i <= |conds|
    ensures |arms| == |conds| - i
    ensures forall j {:trigger arms[j]} :: 0 <= j < |arms| ==> arms[j] == Arm(rd.arg(conds[i + j]), Template(rd, bodies[i + j]))
    decreases |conds| - i
  {
    if i == |conds| then [] else [Arm(rd.arg(conds[i]), Template(rd, bodies[i]))] + ArmsFrom(rd, conds, bodies, i + 1)
  }

  lemma {:induction false} RestChain(rd: Reader, conds: seq<string>, bodies: seq<seq<B.Item>>, last: B.Rest, i: nat)
    requires |conds| == |bodies| && i <= |conds|
    ensures NodeOf(rd, R.RestTree(RestFrom(conds, bodies, last, i))) ==
            Chain(ArmsFrom(rd, conds, bodies, i), NodeOf(rd, R.RestTree(last)))
    decreases |conds| - i
  {
    hide R.TreeOf;
    if i < |conds| {
      RestChain(rd, conds, bodies, last, i + 1);
      var arms := ArmsFrom(rd, conds, bodies, i);
      assert arms[1..] == ArmsFrom(rd, conds, bodies, i + 1);
      assert arms[0] == Arm(rd.arg(conds[i]), Template(rd, bodies[i]));
    }
  }

  lemma IfNode(rd: Reader, conds: seq<string>, bodies: seq<seq<B.Item>>, last: B.Rest, more: seq<B.Item>)
    requires |conds| == |bodies| > 0
    ensures Template(rd, [IfItem(conds, bodies, last)] + more) ==
            If(ArmsFrom(rd, conds, bodies, 0), NodeOf(rd, R.RestTree(last)), Template(rd, more))
  {
    hide RestFrom, Chain, ArmsFrom, R.TreeOf, R.RestTree;
    CondFirst(conds[0], bodies[0], RestFrom(conds, bodies, last, 1), more);
    ArmsTail(rd, conds, bodies);
    RestChain(rd, conds, bodies, last, 1);
  }

  lemma ArmsTail(rd: Reader, conds: seq<string>, bodies: seq<seq<B.Item>>)
    requires |conds| == |bodies| > 0
    ensures ArmsFrom(rd, conds, bodies, 0)[1..] == ArmsFrom(rd, conds, bodies, 1)
  {
    hide Template;
  }

  /** The tree of a list of items that starts with an `if`. */
  lemma CondFirst(a: string, body: seq<B.Item>, rest: B.Rest, more: seq<B.Item>)
    ensures R.TreeOf([B.Cond(a, body, rest)] + more)
         == R.Tree.Tree(B.Open(B.If, a), R.TreeOf(body), R.RestTree(rest), R.TreeOf(more))
  {
    var items := [B.Cond(a, body, rest)] + more;
    assert items[1..] == more;
  }

  lemma BlockAlone(kind: B.Kind, a: string, body: seq<B.Item>)
    ensures R.TreeOf([B.Block(kind, a, body)]) == R.Tree.Tree(B.Open(kind, a), R.TreeOf(body), R.Nil, R.Nil)
  {
    assert [B.Block(kind, a, body)][1..] == [];
  }

  /** The body an `if` comes down to: that of the first condition that holds, or the else part. */
  function Chosen(rd: Reader, bodies: seq<seq<B.Item>>, last: B.Rest, k: nat): Node {
    if k < |bodies| then Template(rd, bodies[k])
    else if last.ElsePart? then Template(rd, last.body)
    else End
  }

  /** The commands of an `if` with any number of `elif`s, with or without `else`, and of what follows
      build a tree that renders the body of the first condition that holds, or the else part, and then
      what follows. */
  lemma TemplateIf(rd: Reader, env: Env, macros: Macros, w: World, conds: seq<string>, bodies: seq<seq<B.Item>>, last: B.Rest,
                   more: seq<B.Item>, k: nat, fuel: nat) returns (t: B.State)
    requires Alike(env, w, w) && |conds| == |bodies| > 0 && !last.ElifPart? && k <= |conds|
    requires B.Proper([IfItem(conds, bodies, last)] + more)
    requires forall j :: 0 <= j < k ==> rd.arg(conds[j]) != Failing && !Holds(env, w, rd.arg(conds[j]))
    requires k < |conds| ==> Holds(env, w, rd.arg(conds[k]))
    ensures B.Wf(B.START) && B.Run(B.START, B.Flatten([IfItem(conds, bodies, last)] + more)) == Some(t) && t.nodes != []
    ensures AlikeEnd(env, Render(env, macros, w, NodeOf(rd, R.Built(t)), fuel),
                     Continued(env, macros, Render(env, macros, w, Chosen(rd, bodies, last, k), fuel), Template(rd, more), fuel))
  {
    hide Alike, Holds, Render, B.Run, B.Flatten, B.Proper, R.TreeOf, IfItem, R.Built, Continued;
    t := R.BuildsTree([IfItem(conds, bodies, last)] + more);
    IfNode(rd, conds, bodies, last, more);
    var arms := ArmsFrom(rd, conds, bodies, 0);
    LastNode(rd, last);
    assert FirstTrue(env, w, arms, k);
    IfRuns(env, macros, w, arms, NodeOf(rd, R.RestTree(last)), Template(rd, more), k, fuel);
  }

  lemma LastNode(rd: Reader, last: B.Rest)
    requires !last.ElifPart?
    ensures NodeOf(rd, R.RestTree(last)) == if last.ElsePart? then Template(rd, last.body) else End
  {
  }

  // ----- texts

  /** Commands that only print. */
  function Leaves(texts: seq<string>): (items: seq<B.Item>)
    ensures |items| == |texts| && forall i {:trigger items[i]} :: 0 <= i < |texts| ==> items[i] == B.Leaf(texts[i])
  {
    seq(|texts|, i requires 0 <= i < |texts| => B.Leaf(texts[i]))
  }

  function Printing(rd: Reader, texts: seq<string>): (items: seq<Item>)
    requires forall i :: 0 <= i < |texts| ==> rd.plain(texts[i]).Print?
    ensures |items| == |texts| && forall i {:trigger items[i]} :: 0 <= i < |texts| ==> items[i] == rd.plain(texts[i]).item
  {
    seq(|texts|, i requires 0 <= i < |texts| => rd.plain(texts[i]).item)
  }

  lemma {:induction false} LeavesLine(rd: Reader, texts: seq<string>)
    requires forall i :: 0 <= i < |texts| ==> rd.plain(texts[i]).Print?
    ensures Template(rd, Leaves(texts)) == Line(Printing(rd, texts), End)
    decreases |texts|
  {
    if texts != [] {
      LeavesLine(rd, texts[1..]);
      assert Leaves(texts)[1..] == Leaves(texts[1..]);
      assert Printing(rd, texts)[1..] == Printing(rd, texts[1..]);
    }
  }

  // ----- each

  lemma EachNode(rd: Reader, a: string, body: seq<B.Item>)
    ensures Template(rd, [B.Block(B.Each, a, body)]) == EachIn(rd.name(a), rd.arg(a), Template(rd, body), End)
  {
    BlockAlone(B.Each, a, body);
    assert NodeOf(rd, R.Nil) == End;
    hide R.TreeOf;
  }

  /** The commands of an `each` whose body prints build a tree that adds the text of the body for every
      child in order. */
  lemma TemplateEach(rd: Reader, env: Env, macros: Macros, w: World, a: string, texts: seq<string>, x: string, p: Path,
                     kids: seq<Path>, fuel: nat) returns (t: B.State)
    requires forall i :: 0 <= i < |texts| ==> rd.plain(texts[i]).Print?
    requires Alike(env, w, w) && Sane(Printing(rd, texts)) && |kids| <= fuel
    requires rd.arg(a) == Ref(x) && VarObj(env, w, x) == Some(p) && Children(env, w.hdf, p, kids)
    ensures B.Wf(B.START) && B.Run(B.START, B.Flatten([B.Block(B.Each, a, Leaves(texts))])) == Some(t) && t.nodes != []
    ensures AlikeEnd(env, Render(env, macros, w, NodeOf(rd, R.Built(t)), fuel),
                     (Adding(w, KidsText(env, w, rd.name(a), kids, |kids|, Printing(rd, texts))), Fine))
  {
    hide Alike, VarObj, Children, B.Run, B.Flatten, R.TreeOf, R.Built, RenderEach, KidsText, Line;
    var items := [B.Block(B.Each, a, Leaves(texts))];
    ProperLeaves(a, texts);
    t := R.BuildsTree(items);
    EachNode(rd, a, Leaves(texts));
    LeavesLine(rd, texts);
    EachAdds(env, macros, w, rd.name(a), x, p, kids, Printing(rd, texts), fuel);
  }

  lemma ProperLeaves(a: string, texts: seq<string>)
    ensures B.Proper([B.Block(B.Each, a, Leaves(texts))])
  {
    var items := Leaves(texts);
    assert forall i :: 0 <= i < |items| ==> B.ProperItem(items[i]);
    assert B.Proper(items);
    assert B.ProperItem(B.Block(B.Each, a, items));
  }
}

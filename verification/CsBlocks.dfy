/** The builder of template trees: a stack of open blocks, and the one place where the next
    node goes. Nodes are known by their number; a pointer is a number or nothing. */
module CsBlocks {
  import opened Wrappers

  datatype Kind = If | Each | With | Def | Loop | Alt

  /** Literals and the commands that open nothing are Plain; Close(If) is `/if`. */
  datatype Cmd = Plain(text: string) | Open(kind: Kind, arg: string) | Elif(arg: string) | Else | Close(kind: Kind)

  datatype Node = Node(cmd: Option<Cmd>, case0: Option<nat>, case1: Option<nat>, next: Option<nat>)

  datatype Slot = Case0(n: nat) | Case1(n: nat) | Next(n: nat)

  datatype Mark = Global | In(kind: Kind) | InElse

  datatype Entry = Entry(mark: Mark, tree: nat, nextTree: Option<nat>)

  datatype State = State(nodes: seq<Node>, next: Slot, current: nat, stack: seq<Entry>)

  function Get(nodes: seq<Node>, p: Slot): (r: Option<nat>)
    requires p.n < |nodes|
  {
    match p
    case Case0(n) => nodes[n].case0
    case Case1(n) => nodes[n].case1
    case Next(n) => nodes[n].next
  }

  function PutField(x: Node, p: Slot, r: Option<nat>): (y: Node) {
    match p
    case Case0(_) => x.(case0 := r)
    case Case1(_) => x.(case1 := r)
    case Next(_) => x.(next := r)
  }

  function Put(nodes: seq<Node>, p: Slot, r: Option<nat>): (m: seq<Node>)
    requires p.n < |nodes|
    ensures |m| == |nodes|
  {
    nodes[p.n := PutField(nodes[p.n], p, r)]
  }

  function Fresh(cmd: Option<Cmd>): Node {
    Node(cmd, None, None, None)
  }

  /** Make a node for a command and hang it where the next node goes. */
  function Attach(nodes: seq<Node>, p: Slot, cmd: Cmd): (m: seq<Node>)
    requires p.n < |nodes|
    ensures |m| == |nodes| + 1
  {
    Put(nodes, p, Some(|nodes|)) + [Fresh(Some(cmd))]
  }

  /** The node a block hangs off its siblings by: the one that opened it. */
  function Head(e: Entry): nat {
    if e.nextTree.Some? then e.nextTree.value else e.tree
  }

  predicate InRange(s: State) {
    && s.stack != [] && s.next.n < |s.nodes| && s.current < |s.nodes|
    && forall i :: 0 <= i < |s.stack| ==> s.stack[i].tree < |s.nodes| && Head(s.stack[i]) < |s.nodes|
  }

  function Top(s: State): Entry
    requires s.stack != []
  {
    s.stack[|s.stack| - 1]
  }

  function Popped(s: State): seq<Entry>
    requires s.stack != []
  {
    s.stack[..|s.stack| - 1]
  }

  /** Which blocks a command is allowed in. */
  predicate Allowed(c: Cmd, m: Mark) {
    match c
    case Plain(_) => true
    case Open(_, _) => true
    case Elif(_) => m == In(If)
    case Else => m == In(If)
    case Close(k) => m == In(k) || (k == If && m == InElse)
  }

  /** One command: its handler, then what the command table says of the stack. */
  function Step(s: State, c: Cmd): (r: Option<State>)
    requires InRange(s)
    ensures r.Some? <==> Allowed(c, Top(s).mark)
  {
    var e, n := Top(s), |s.nodes|;
    if !Allowed(c, e.mark) then None
    else
      match c
      case Plain(_) => Some(State(Attach(s.nodes, s.next, c), Next(n), n, s.stack))
      case Open(k, _) =>
        Some(State(Attach(s.nodes, s.next, c), Case0(n), n, s.stack + [Entry(In(k), n, None)]))
      case Elif(_) =>
        Some(State(Attach(s.nodes, Case1(e.tree), c), Case0(n), n, Popped(s) + [Entry(e.mark, n, Some(Head(e)))]))
      case Else => Some(State(s.nodes, Case1(e.tree), Head(e), Popped(s) + [Entry(InElse, Head(e), None)]))
      case Close(_) => Some(State(s.nodes, Next(Head(e)), Head(e), Popped(s)))
  }

  /** A block is open for every entry but the first. */
  ghost predicate Wf(s: State) {
    && InRange(s) && s.stack[0].mark == Global
    && (forall i :: 0 < i < |s.stack| ==> s.stack[i].mark != Global)
    && (forall i :: 0 <= i < |s.stack| && s.stack[i].mark != In(If) ==> s.stack[i].nextTree == None)
  }

  lemma StepWf(s: State, c: Cmd)
    requires Wf(s) && Step(s, c).Some?
    ensures Wf(Step(s, c).value)
  {
  }

  ghost function Run(s: State, cmds: seq<Cmd>): (r: Option<State>)
    requires Wf(s)
    ensures r.Some? ==> Wf(r.value)
    decreases |cmds|
  {
    if cmds == [] then Some(s)
    else if Step(s, cmds[0]).None? then None
    else
      StepWf(s, cmds[0]);
      Run(Step(s, cmds[0]).value, cmds[1..])
  }

  /** A new parser: one node that stands for the whole template. */
  const START: State := State([Fresh(None)], Next(0), 0, [Entry(Global, 0, None)])

  /** The end of the text with blocks still open: only if, else and each are complained about. */
  predicate EndOk(s: State) {
    forall i :: 0 <= i < |s.stack| ==> s.stack[i].mark != In(If) && s.stack[i].mark != InElse && s.stack[i].mark != In(Each)
  }

  // ----- the recursive reading of a template

  datatype Item =
    | Leaf(text: string)
    | Block(kind: Kind, arg: string, body: seq<Item>)
    | Cond(arg: string, body: seq<Item>, rest: Rest)

  datatype Rest = NoRest | ElsePart(body: seq<Item>) | ElifPart(arg: string, body: seq<Item>, rest: Rest)

  /** The commands that spell a list of items. */
  function Flatten(items: seq<Item>): (cmds: seq<Cmd>)
    decreases items, 0
  {
    if items == [] then [] else FlattenItem(items[0]) + Flatten(items[1..])
  }

  function FlattenItem(x: Item): (cmds: seq<Cmd>)
    decreases x, 1
  {
    match x
    case Leaf(t) => [Plain(t)]
    case Block(k, a, b) => [Open(k, a)] + Flatten(b) + [Close(k)]
    case Cond(a, b, r) => [Open(If, a)] + Flatten(b) + FlattenRest(r)
  }

  function FlattenRest(r: Rest): (cmds: seq<Cmd>)
    decreases r, 1
  {
    match r
    case NoRest => [Close(If)]
    case ElsePart(b) => [Else] + Flatten(b) + [Close(If)]
    case ElifPart(a, b, q) => [Elif(a)] + Flatten(b) + FlattenRest(q)
  }

  /** Blocks other than if; an if is a Cond. */
  ghost predicate Proper(items: seq<Item>)
    decreases items, 0
  {
    forall i :: 0 <= i < |items| ==> ProperItem(items[i])
  }

  ghost predicate ProperItem(x: Item)
    decreases x, 1
  {
    match x
    case Leaf(_) => true
    case Block(k, _, b) => k != If && Proper(b)
    case Cond(_, b, r) => Proper(b) && ProperRest(r)
  }

  ghost predicate ProperRest(r: Rest)
    decreases r, 1
  {
    match r
    case NoRest => true
    case ElsePart(b) => Proper(b)
    case ElifPart(_, b, q) => Proper(b) && ProperRest(q)
  }

  // ----- nodes that spell items

  /** The nodes from r on, numbered lo or above and upwards along every pointer, spell the items:
      siblings along next, bodies along case_0, the rest of an if along case_1. */
  ghost predicate Spells(nodes: seq<Node>, lo: nat, r: Option<nat>, items: seq<Item>)
    decreases items, 0
  {
    if items == [] then r == None
    else
      && r.Some? && lo <= r.value < |nodes|
      && SpellsItem(nodes, r.value, items[0])
      && Spells(nodes, r.value + 1, nodes[r.value].next, items[1..])
  }

  ghost predicate SpellsItem(nodes: seq<Node>, n: nat, x: Item)
    requires n < |nodes|
    decreases x, 1
  {
    match x
    case Leaf(t) => nodes[n].cmd == Some(Plain(t)) && nodes[n].case0 == None && nodes[n].case1 == None
    case Block(k, a, b) =>
      nodes[n].cmd == Some(Open(k, a)) && Spells(nodes, n + 1, nodes[n].case0, b) && nodes[n].case1 == None
    case Cond(a, b, q) =>
      && nodes[n].cmd == Some(Open(If, a)) && Spells(nodes, n + 1, nodes[n].case0, b)
      && SpellsRest(nodes, n + 1, nodes[n].case1, q)
  }

  ghost predicate SpellsRest(nodes: seq<Node>, lo: nat, r: Option<nat>, q: Rest)
    decreases q, 1
  {
    match q
    case NoRest => r == None
    case ElsePart(b) => Spells(nodes, lo, r, b)
    case ElifPart(a, b, q') =>
      && r.Some? && lo <= r.value < |nodes| && nodes[r.value].cmd == Some(Elif(a)) && nodes[r.value].next == None
      && Spells(nodes, r.value + 1, nodes[r.value].case0, b) && SpellsRest(nodes, r.value + 1, nodes[r.value].case1, q')
  }

  // ----- nodes that are not touched

  ghost predicate SameFrom(nodes: seq<Node>, m: seq<Node>, lo: nat) {
    |nodes| <= |m| && forall i {:trigger m[i]} {:trigger nodes[i]} :: lo <= i < |nodes| ==> m[i] == nodes[i]
  }

  lemma {:induction false} SpellsKept(nodes: seq<Node>, m: seq<Node>, lo: nat, r: Option<nat>, items: seq<Item>)
    requires SameFrom(nodes, m, lo) && Spells(nodes, lo, r, items)
    ensures Spells(m, lo, r, items)
    decreases items, 0
  {
    if items != [] {
      SpellsItemKept(nodes, m, r.value, items[0]);
      SpellsKept(nodes, m, r.value + 1, nodes[r.value].next, items[1..]);
    }
  }

  lemma {:induction false} SpellsItemKept(nodes: seq<Node>, m: seq<Node>, n: nat, x: Item)
    requires SameFrom(nodes, m, n) && n < |nodes| && SpellsItem(nodes, n, x)
    ensures SpellsItem(m, n, x)
    decreases x, 1
  {
    match x
    case Leaf(_) =>
    case Block(_, _, b) =>
      SpellsKept(nodes, m, n + 1, nodes[n].case0, b);
    case Cond(_, b, q) =>
      SpellsKept(nodes, m, n + 1, nodes[n].case0, b);
      SpellsRestKept(nodes, m, n + 1, nodes[n].case1, q);
  }

  lemma {:induction false} SpellsRestKept(nodes: seq<Node>, m: seq<Node>, lo: nat, r: Option<nat>, q: Rest)
    requires SameFrom(nodes, m, lo) && SpellsRest(nodes, lo, r, q)
    ensures SpellsRest(m, lo, r, q)
    decreases q, 1
  {
    match q
    case NoRest =>
    case ElsePart(b) =>
      SpellsKept(nodes, m, lo, r, b);
    case ElifPart(_, b, q') =>
      SpellsKept(nodes, m, r.value + 1, nodes[r.value].case0, b);
      SpellsRestKept(nodes, m, r.value + 1, nodes[r.value].case1, q');
  }

  lemma SpellsLower(nodes: seq<Node>, lo: nat, low: nat, r: Option<nat>, items: seq<Item>)
    requires Spells(nodes, lo, r, items) && low <= lo
    ensures Spells(nodes, low, r, items)
  {
    hide SpellsItem;
  }

  /** m has more nodes, and of the old ones only the field p is different. */
  ghost predicate Extends(nodes: seq<Node>, m: seq<Node>, p: Slot) {
    && p.n < |nodes| <= |m|
    && forall i {:trigger m[i]} :: 0 <= i < |nodes| ==> m[i] == if i == p.n then PutField(nodes[i], p, Get(m, p)) else nodes[i]
  }

  lemma AttachFacts(nodes: seq<Node>, p: Slot, c: Cmd)
    requires p.n < |nodes|
    ensures var m := Attach(nodes, p, c);
            && Extends(nodes, m, p) && Get(m, p) == Some(|nodes|) && m[|nodes|] == Fresh(Some(c))
  {
  }

  /** More nodes hung from a new node are, for the old ones, nothing. */
  lemma ExtendsNew(a: seq<Node>, b: seq<Node>, c: seq<Node>, p: Slot, q: Slot)
    requires Extends(a, b, p) && Extends(b, c, q) && q.n >= |a|
    ensures Extends(a, c, p) && Get(c, p) == Get(b, p)
  {
  }

  lemma ExtendsKeepsAbove(a: seq<Node>, b: seq<Node>, p: Slot, lo: nat)
    requires Extends(a, b, p) && p.n < lo
    ensures SameFrom(a, b, lo)
  {
  }

  lemma RunStep(s: State, c: Cmd, rest: seq<Cmd>)
    requires Wf(s) && Allowed(c, Top(s).mark)
    ensures Step(s, c).Some? && Wf(Step(s, c).value)
    ensures Run(s, [c] + rest) == Run(Step(s, c).value, rest)
  {
    StepWf(s, c);
    assert ([c] + rest)[1..] == rest;
  }

  // ----- the builder on spelled-out items

  lemma {:induction false} RunItems(s: State, items: seq<Item>, more: seq<Cmd>) returns (t: State)
    requires Wf(s) && Proper(items) && Get(s.nodes, s.next) == None
    ensures Wf(t) && t.stack == s.stack && Run(s, Flatten(items) + more) == Run(t, more)
    ensures Extends(s.nodes, t.nodes, s.next) && Get(t.nodes, t.next) == None
    ensures Spells(t.nodes, |s.nodes|, Get(t.nodes, s.next), items)
    decreases items, 0
  {
    hide Run, Step, Wf, Extends, Get, FlattenItem, ProperItem;
    if items == [] {
      t := s;
      assert Flatten(items) + more == more;
      NextInRange(s);
      ExtendsSelf(s.nodes, s.next);
    } else {
      var x, n := items[0], |s.nodes|;
      assert Flatten(items) + more == FlattenItem(x) + (Flatten(items[1..]) + more);
      var u := RunItem(s, x, Flatten(items[1..]) + more);
      t := RunItems(u, items[1..], more);
      ItemsJoin(s.nodes, u.nodes, t.nodes, s.next, x, items);
    }
  }

  lemma NextInRange(s: State)
    requires Wf(s)
    ensures s.next.n < |s.nodes|
  {
  }

  lemma ExtendsSelf(nodes: seq<Node>, p: Slot)
    requires p.n < |nodes|
    ensures Extends(nodes, nodes, p)
  {
  }

  lemma ItemsJoin(a: seq<Node>, b: seq<Node>, c: seq<Node>, p: Slot, x: Item, items: seq<Item>)
    requires items != [] && items[0] == x
    requires Extends(a, b, p) && |a| < |b| && Get(b, p) == Some(|a|) && SpellsItem(b, |a|, x)
    requires Extends(b, c, Next(|a|)) && Spells(c, |b|, Get(c, Next(|a|)), items[1..])
    ensures Extends(a, c, p) && Spells(c, |a|, Get(c, p), items)
  {
    ExtendsNew(a, b, c, p, Next(|a|));
    SpellsItemLinked(b, c, |a|, x);
    SpellsLower(c, |b|, |a| + 1, c[|a|].next, items[1..]);
    hide SpellsItem;
  }

  /** An item's node keeps spelling it when its next sibling is hung on. */
  lemma SpellsItemLinked(b: seq<Node>, c: seq<Node>, n: nat, x: Item)
    requires n < |b| && Extends(b, c, Next(n)) && SpellsItem(b, n, x)
    ensures SpellsItem(c, n, x)
  {
    ExtendsKeepsAbove(b, c, Next(n), n + 1);
    hide Spells, SpellsRest, SameFrom;
    match x
    case Leaf(_) =>
    case Block(_, _, body) =>
      SpellsKept(b, c, n + 1, b[n].case0, body);
    case Cond(_, body, q) =>
      SpellsKept(b, c, n + 1, b[n].case0, body);
      SpellsRestKept(b, c, n + 1, b[n].case1, q);
  }

  lemma {:induction false} RunItem(s: State, x: Item, more: seq<Cmd>) returns (t: State)
    requires Wf(s) && ProperItem(x) && Get(s.nodes, s.next) == None
    ensures Wf(t) && t.stack == s.stack && Run(s, FlattenItem(x) + more) == Run(t, more)
    ensures Extends(s.nodes, t.nodes, s.next) && Get(t.nodes, s.next) == Some(|s.nodes|) && |s.nodes| < |t.nodes|
    ensures t.next == Next(|s.nodes|) && Get(t.nodes, t.next) == None
    ensures SpellsItem(t.nodes, |s.nodes|, x)
    decreases x, 1
  {
    match x
    case Leaf(text) =>
      t := RunLeaf(s, text, more);
    case Block(k, a, b) =>
      hide *;
      var u := RunOpen(s, k, a, Flatten(b) + ([Close(k)] + more));
      ProperParts(x);
      var v := RunItems(u, b, [Close(k)] + more);
      t := RunClose(s, u, v, x, more);
    case Cond(a, b, q) =>
      hide *;
      var u := RunOpen(s, If, a, Flatten(b) + (FlattenRest(q) + more));
      ProperParts(x);
      var v := RunItems(u, b, FlattenRest(q) + more);
      CondReady(s, u, v);
      t := RunRest(v, q, more);
      CondDone(s, u, v, t, x, more);
  }

  lemma RunLeaf(s: State, text: string, more: seq<Cmd>) returns (t: State)
    requires Wf(s) && Get(s.nodes, s.next) == None
    ensures Wf(t) && t.stack == s.stack && Run(s, [Plain(text)] + more) == Run(t, more)
    ensures Extends(s.nodes, t.nodes, s.next) && Get(t.nodes, s.next) == Some(|s.nodes|) && |s.nodes| < |t.nodes|
    ensures t.next == Next(|s.nodes|) && Get(t.nodes, t.next) == None
    ensures SpellsItem(t.nodes, |s.nodes|, Leaf(text))
  {
    hide Run, Extends;
    RunStep(s, Plain(text), more);
    AttachFacts(s.nodes, s.next, Plain(text));
    t := Step(s, Plain(text)).value;
  }

  lemma ProperParts(x: Item)
    requires ProperItem(x)
    ensures x.Block? ==> x.kind != If && Proper(x.body)
    ensures x.Cond? ==> Proper(x.body) && ProperRest(x.rest)
  {
  }

  /** Opening a block. */
  lemma RunOpen(s: State, k: Kind, a: string, rest: seq<Cmd>) returns (u: State)
    requires Wf(s)
    ensures Wf(u) && Run(s, [Open(k, a)] + rest) == Run(u, rest)
    ensures u.stack == s.stack + [Entry(In(k), |s.nodes|, None)] && u.next == Case0(|s.nodes|)
    ensures Extends(s.nodes, u.nodes, s.next) && Get(u.nodes, s.next) == Some(|s.nodes|)
    ensures |u.nodes| == |s.nodes| + 1 && u.nodes[|s.nodes|] == Fresh(Some(Open(k, a))) && Get(u.nodes, u.next) == None
  {
    hide Run, Extends;
    RunStep(s, Open(k, a), rest);
    AttachFacts(s.nodes, s.next, Open(k, a));
    u := Step(s, Open(k, a)).value;
  }

  /** Closing a block that is not an if. */
  lemma RunClose(s: State, u: State, v: State, x: Item, more: seq<Cmd>) returns (t: State)
    requires Wf(s) && Wf(u) && Wf(v) && x.Block? && x.kind != If
    requires u.stack == s.stack + [Entry(In(x.kind), |s.nodes|, None)] && u.next == Case0(|s.nodes|) && v.stack == u.stack
    requires Extends(s.nodes, u.nodes, s.next) && Get(u.nodes, s.next) == Some(|s.nodes|)
    requires |u.nodes| == |s.nodes| + 1 && u.nodes[|s.nodes|] == Fresh(Some(Open(x.kind, x.arg)))
    requires Extends(u.nodes, v.nodes, u.next) && Spells(v.nodes, |u.nodes|, Get(v.nodes, u.next), x.body)
    requires Run(s, [Open(x.kind, x.arg)] + (Flatten(x.body) + ([Close(x.kind)] + more))) == Run(v, [Close(x.kind)] + more)
    ensures Wf(t) && t.stack == s.stack && Run(s, FlattenItem(x) + more) == Run(t, more)
    ensures Extends(s.nodes, t.nodes, s.next) && Get(t.nodes, s.next) == Some(|s.nodes|) && |s.nodes| < |t.nodes|
    ensures t.next == Next(|s.nodes|) && Get(t.nodes, t.next) == None
    ensures SpellsItem(t.nodes, |s.nodes|, x)
  {
    hide Run, Spells, Flatten;
    assert FlattenItem(x) + more == [Open(x.kind, x.arg)] + (Flatten(x.body) + ([Close(x.kind)] + more));
    assert Top(v) == Entry(In(x.kind), |s.nodes|, None) && Popped(v) == s.stack;
    RunStep(v, Close(x.kind), more);
    t := Step(v, Close(x.kind)).value;
    ExtendsNew(s.nodes, u.nodes, v.nodes, s.next, u.next);
  }

  lemma CondReady(s: State, u: State, v: State)
    requires Wf(s) && Wf(u) && Wf(v)
    requires u.stack == s.stack + [Entry(In(If), |s.nodes|, None)] && u.next == Case0(|s.nodes|) && v.stack == u.stack
    requires |u.nodes| == |s.nodes| + 1 && u.nodes[|s.nodes|].case1 == None && u.nodes[|s.nodes|].next == None
    requires Extends(u.nodes, v.nodes, u.next)
    ensures Top(v) == Entry(In(If), |s.nodes|, None) && Popped(v) == s.stack
    ensures Get(v.nodes, Case1(Top(v).tree)) == None && Get(v.nodes, Next(Head(Top(v)))) == None
  {
  }

  lemma CondDone(s: State, u: State, v: State, t: State, x: Item, more: seq<Cmd>)
    requires Wf(s) && Wf(u) && Wf(v) && Wf(t) && x.Cond?
    requires u.next == Case0(|s.nodes|)
    requires Extends(s.nodes, u.nodes, s.next) && Get(u.nodes, s.next) == Some(|s.nodes|)
    requires |u.nodes| == |s.nodes| + 1 && u.nodes[|s.nodes|] == Fresh(Some(Open(If, x.arg)))
    requires Extends(u.nodes, v.nodes, u.next) && Spells(v.nodes, |u.nodes|, Get(v.nodes, u.next), x.body)
    requires Extends(v.nodes, t.nodes, Case1(|s.nodes|)) && t.next == Next(|s.nodes|) && t.stack == s.stack
    requires SpellsRest(t.nodes, |v.nodes|, Get(t.nodes, Case1(|s.nodes|)), x.rest)
    requires Run(s, [Open(If, x.arg)] + (Flatten(x.body) + (FlattenRest(x.rest) + more))) == Run(t, more)
    ensures Run(s, FlattenItem(x) + more) == Run(t, more)
    ensures Extends(s.nodes, t.nodes, s.next) && Get(t.nodes, s.next) == Some(|s.nodes|) && |s.nodes| < |t.nodes|
    ensures Get(t.nodes, t.next) == None && SpellsItem(t.nodes, |s.nodes|, x)
  {
    hide Run, Spells, Flatten, FlattenRest, SpellsRest, SameFrom;
    CondSpelled(x, more);
    ExtendsNew(s.nodes, u.nodes, v.nodes, s.next, u.next);
    ExtendsNew(s.nodes, v.nodes, t.nodes, s.next, Case1(|s.nodes|));
    ExtendsKeepsAbove(v.nodes, t.nodes, Case1(|s.nodes|), |u.nodes|);
    SpellsKept(v.nodes, t.nodes, |u.nodes|, Get(v.nodes, u.next), x.body);
    SpellsRestLower(t.nodes, |v.nodes|, |u.nodes|, Get(t.nodes, Case1(|s.nodes|)), x.rest);
  }

  lemma {:induction false} SpellsRestLower(nodes: seq<Node>, lo: nat, low: nat, r: Option<nat>, q: Rest)
    requires SpellsRest(nodes, lo, r, q) && low <= lo
    ensures SpellsRest(nodes, low, r, q)
  {
    if q.ElsePart? {
      SpellsLower(nodes, lo, low, r, q.body);
    }
  }

  /** The rest of an if, from the node of its last condition so far. */
  lemma {:induction false} RunRest(s: State, q: Rest, more: seq<Cmd>) returns (t: State)
    requires Wf(s) && ProperRest(q) && Top(s).mark == In(If)
    requires Get(s.nodes, Case1(Top(s).tree)) == None && Get(s.nodes, Next(Head(Top(s)))) == None
    ensures Wf(t) && t.stack == Popped(s) && Run(s, FlattenRest(q) + more) == Run(t, more)
    ensures t.next == Next(Head(Top(s))) && Extends(s.nodes, t.nodes, Case1(Top(s).tree))
    ensures SpellsRest(t.nodes, |s.nodes|, Get(t.nodes, Case1(Top(s).tree)), q)
    decreases q, 1
  {
    match q
    case NoRest =>
      t := RunEndIf(s, more);
    case ElsePart(b) =>
      hide *;
      var u := RunElse(s, Flatten(b) + ([Close(If)] + more));
      ProperRestParts(q);
      var v := RunItems(u, b, [Close(If)] + more);
      t := RunElseEnd(s, u, v, q, more);
    case ElifPart(a, b, q') =>
      hide *;
      var u := RunElif(s, a, Flatten(b) + (FlattenRest(q') + more));
      ProperRestParts(q);
      var v := RunItems(u, b, FlattenRest(q') + more);
      ElifReady(s, u, v);
      t := RunRest(v, q', more);
      ElifDone(s, u, v, t, q, more);
  }

  lemma ProperRestParts(q: Rest)
    requires ProperRest(q)
    ensures q.ElsePart? ==> Proper(q.body)
    ensures q.ElifPart? ==> Proper(q.body) && ProperRest(q.rest)
  {
  }

  lemma RunEndIf(s: State, more: seq<Cmd>) returns (t: State)
    requires Wf(s) && Top(s).mark == In(If) && Get(s.nodes, Case1(Top(s).tree)) == None
    ensures Wf(t) && t.stack == Popped(s) && Run(s, FlattenRest(NoRest) + more) == Run(t, more)
    ensures t.next == Next(Head(Top(s))) && Extends(s.nodes, t.nodes, Case1(Top(s).tree))
    ensures SpellsRest(t.nodes, |s.nodes|, Get(t.nodes, Case1(Top(s).tree)), NoRest)
  {
    hide Run, Extends;
    RunStep(s, Close(If), more);
    t := Step(s, Close(If)).value;
    ExtendsSelf(s.nodes, Case1(Top(s).tree));
  }

  lemma RunElse(s: State, rest: seq<Cmd>) returns (u: State)
    requires Wf(s) && Top(s).mark == In(If) && Get(s.nodes, Case1(Top(s).tree)) == None
    ensures Wf(u) && Run(s, [Else] + rest) == Run(u, rest)
    ensures u.stack == Popped(s) + [Entry(InElse, Head(Top(s)), None)] && u.nodes == s.nodes
    ensures u.next == Case1(Top(s).tree) && Get(u.nodes, u.next) == None
  {
    hide Run;
    RunStep(s, Else, rest);
    u := Step(s, Else).value;
  }

  lemma RunElseEnd(s: State, u: State, v: State, q: Rest, more: seq<Cmd>) returns (t: State)
    requires Wf(s) && Wf(u) && Wf(v) && q.ElsePart? && Top(s).mark == In(If)
    requires u.stack == Popped(s) + [Entry(InElse, Head(Top(s)), None)] && u.nodes == s.nodes && v.stack == u.stack
    requires u.next == Case1(Top(s).tree) && Extends(u.nodes, v.nodes, u.next)
    requires Spells(v.nodes, |u.nodes|, Get(v.nodes, u.next), q.body)
    requires Run(s, [Else] + (Flatten(q.body) + ([Close(If)] + more))) == Run(v, [Close(If)] + more)
    ensures Wf(t) && t.stack == Popped(s) && Run(s, FlattenRest(q) + more) == Run(t, more)
    ensures t.next == Next(Head(Top(s))) && Extends(s.nodes, t.nodes, Case1(Top(s).tree))
    ensures SpellsRest(t.nodes, |s.nodes|, Get(t.nodes, Case1(Top(s).tree)), q)
  {
    hide Run, Extends, Spells, Flatten;
    assert FlattenRest(q) + more == [Else] + (Flatten(q.body) + ([Close(If)] + more));
    assert Top(v) == Entry(InElse, Head(Top(s)), None) && Popped(v) == Popped(s);
    RunStep(v, Close(If), more);
    t := Step(v, Close(If)).value;
  }

  lemma RunElif(s: State, a: string, rest: seq<Cmd>) returns (u: State)
    requires Wf(s) && Top(s).mark == In(If) && Get(s.nodes, Case1(Top(s).tree)) == None
    requires Get(s.nodes, Next(Head(Top(s)))) == None
    ensures Wf(u) && Run(s, [Elif(a)] + rest) == Run(u, rest)
    ensures u.stack == Popped(s) + [Entry(In(If), |s.nodes|, Some(Head(Top(s))))] && u.next == Case0(|s.nodes|)
    ensures Extends(s.nodes, u.nodes, Case1(Top(s).tree)) && Get(u.nodes, Case1(Top(s).tree)) == Some(|s.nodes|)
    ensures |u.nodes| == |s.nodes| + 1 && u.nodes[|s.nodes|] == Fresh(Some(Elif(a))) && Get(u.nodes, u.next) == None
    ensures Get(u.nodes, Next(Head(Top(s)))) == None
  {
    hide Run, Extends;
    RunStep(s, Elif(a), rest);
    AttachFacts(s.nodes, Case1(Top(s).tree), Elif(a));
    u := Step(s, Elif(a)).value;
  }

  lemma ElifReady(s: State, u: State, v: State)
    requires Wf(s) && Wf(u) && Wf(v)
    requires u.stack == Popped(s) + [Entry(In(If), |s.nodes|, Some(Head(Top(s))))] && u.next == Case0(|s.nodes|)
    requires v.stack == u.stack && Extends(u.nodes, v.nodes, u.next)
    requires |u.nodes| == |s.nodes| + 1 && u.nodes[|s.nodes|].case1 == None && u.nodes[|s.nodes|].next == None
    requires Get(u.nodes, Next(Head(Top(s)))) == None
    ensures Top(v) == Entry(In(If), |s.nodes|, Some(Head(Top(s)))) && Popped(v) == Popped(s)
    ensures Get(v.nodes, Case1(Top(v).tree)) == None && Get(v.nodes, Next(Head(Top(v)))) == None
  {
  }

  lemma ElifSpelled(q: Rest, more: seq<Cmd>)
    requires q.ElifPart?
    ensures FlattenRest(q) + more == [Elif(q.arg)] + (Flatten(q.body) + (FlattenRest(q.rest) + more))
  {
    hide Flatten;
    var a, b, c := [Elif(q.arg)], Flatten(q.body), FlattenRest(q.rest);
    assert FlattenRest(q) == a + b + c;
    Five(a, b, c, more);
  }

  lemma Five(a: seq<Cmd>, b: seq<Cmd>, c: seq<Cmd>, d: seq<Cmd>)
    ensures a + b + c + d == a + (b + (c + d))
  {
  }

  lemma CondSpelled(x: Item, more: seq<Cmd>)
    requires x.Cond?
    ensures FlattenItem(x) + more == [Open(If, x.arg)] + (Flatten(x.body) + (FlattenRest(x.rest) + more))
  {
    hide Flatten, FlattenRest;
    Five([Open(If, x.arg)], Flatten(x.body), FlattenRest(x.rest), more);
  }

  lemma ElifDone(s: State, u: State, v: State, t: State, q: Rest, more: seq<Cmd>)
    requires Wf(s) && Wf(u) && Wf(v) && Wf(t) && q.ElifPart?
    requires u.next == Case0(|s.nodes|)
    requires Extends(s.nodes, u.nodes, Case1(Top(s).tree)) && Get(u.nodes, Case1(Top(s).tree)) == Some(|s.nodes|)
    requires |u.nodes| == |s.nodes| + 1 && u.nodes[|s.nodes|] == Fresh(Some(Elif(q.arg)))
    requires Extends(u.nodes, v.nodes, u.next) && Spells(v.nodes, |u.nodes|, Get(v.nodes, u.next), q.body)
    requires Extends(v.nodes, t.nodes, Case1(|s.nodes|))
    requires SpellsRest(t.nodes, |v.nodes|, Get(t.nodes, Case1(|s.nodes|)), q.rest)
    requires Run(s, [Elif(q.arg)] + (Flatten(q.body) + (FlattenRest(q.rest) + more))) == Run(t, more)
    ensures Run(s, FlattenRest(q) + more) == Run(t, more)
    ensures Extends(s.nodes, t.nodes, Case1(Top(s).tree))
    ensures SpellsRest(t.nodes, |s.nodes|, Get(t.nodes, Case1(Top(s).tree)), q)
  {
    hide Run, Spells, Flatten, FlattenRest, SpellsRest, Extends;
    ElifSpelled(q, more);
    ElifSpells(s.nodes, u.nodes, v.nodes, t.nodes, Case1(Top(s).tree), q.arg, q.body, q.rest);
  }

  lemma ElifSpells(a: seq<Node>, b: seq<Node>, c: seq<Node>, d: seq<Node>, p: Slot, arg: string, body: seq<Item>, rest: Rest)
    requires Extends(a, b, p) && Get(b, p) == Some(|a|)
    requires |b| == |a| + 1 && b[|a|] == Fresh(Some(Elif(arg)))
    requires Extends(b, c, Case0(|a|)) && Spells(c, |b|, Get(c, Case0(|a|)), body)
    requires Extends(c, d, Case1(|a|)) && SpellsRest(d, |c|, Get(d, Case1(|a|)), rest)
    ensures Extends(a, d, p) && SpellsRest(d, |a|, Get(d, p), ElifPart(arg, body, rest))
  {
    hide Spells, SpellsRest, SameFrom, Extends, Get, PutField;
    NewNode(b, c, d, |a|);
    ExtendsNew(a, b, c, p, Case0(|a|));
    ExtendsNew(a, c, d, p, Case1(|a|));
    ExtendsKeepsAbove(c, d, Case1(|a|), |b|);
    SpellsKept(c, d, |b|, c[|a|].case0, body);
    SpellsRestLower(d, |c|, |b|, d[|a|].case1, rest);
    SpellsElif(d, |a|, arg, body, rest);
  }

  /** What becomes of a new node whose body and rest are filled in. */
  lemma NewNode(b: seq<Node>, c: seq<Node>, d: seq<Node>, n: nat)
    requires n < |b| && Extends(b, c, Case0(n)) && Extends(c, d, Case1(n))
    ensures n < |c| && n < |d| && d[n].cmd == b[n].cmd && d[n].next == b[n].next && d[n].case0 == c[n].case0
    ensures Get(c, Case0(n)) == c[n].case0 && Get(d, Case1(n)) == d[n].case1
  {
  }

  lemma SpellsElif(d: seq<Node>, n: nat, arg: string, body: seq<Item>, rest: Rest)
    requires n < |d| && d[n].cmd == Some(Elif(arg)) && d[n].next == None
    requires Spells(d, n + 1, d[n].case0, body) && SpellsRest(d, n + 1, d[n].case1, rest)
    ensures SpellsRest(d, n, Some(n), ElifPart(arg, body, rest))
  {
    hide Spells;
  }
}

/** The builder against a recursive reading: it accepts, with all blocks closed, exactly the
    command lists that spell nested items, and builds the tree of those items. */
module CsReading {
  import opened Wrappers
  import opened CsBlocks

  // ----- the tree

  datatype Tree = Nil | Tree(cmd: Cmd, case0: Tree, case1: Tree, next: Tree)

  /** The tree a recursive reading makes: bodies at case_0, the rest of an if nested at case_1,
      what follows a block at the next of the node that opened it. */
  function TreeOf(items: seq<Item>): (t: Tree)
    decreases items, 0
  {
    if items == [] then Nil
    else
      var next := TreeOf(items[1..]);
      match items[0]
      case Leaf(text) => Tree(Plain(text), Nil, Nil, next)
      case Block(k, a, b) => Tree(Open(k, a), TreeOf(b), Nil, next)
      case Cond(a, b, q) => Tree(Open(If, a), TreeOf(b), RestTree(q), next)
  }

  function RestTree(q: Rest): (t: Tree)
    decreases q, 1
  {
    match q
    case NoRest => Nil
    case ElsePart(b) => TreeOf(b)
    case ElifPart(a, b, q') => Tree(Elif(a), TreeOf(b), RestTree(q'), Nil)
  }

  /** The tree that hangs from r, following pointers to later nodes. */
  function TreeAt(nodes: seq<Node>, lo: nat, r: Option<nat>): (t: Tree)
    decreases |nodes| - lo
  {
    if r.None? || !(lo <= r.value < |nodes|) || nodes[r.value].cmd.None? then Nil
    else
      var n := nodes[r.value];
      Tree(n.cmd.value, TreeAt(nodes, r.value + 1, n.case0), TreeAt(nodes, r.value + 1, n.case1),
           TreeAt(nodes, r.value + 1, n.next))
  }

  lemma {:induction false} SpelledTree(nodes: seq<Node>, lo: nat, r: Option<nat>, items: seq<Item>)
    requires Spells(nodes, lo, r, items)
    ensures TreeAt(nodes, lo, r) == TreeOf(items)
    decreases items, 0
  {
    if items != [] {
      var n := r.value;
      SpelledTree(nodes, n + 1, nodes[n].next, items[1..]);
      match items[0]
      case Leaf(_) =>
      case Block(_, _, b) =>
        SpelledTree(nodes, n + 1, nodes[n].case0, b);
      case Cond(_, b, q) =>
        SpelledTree(nodes, n + 1, nodes[n].case0, b);
        SpelledRest(nodes, n + 1, nodes[n].case1, q);
    }
  }

  lemma {:induction false} SpelledRest(nodes: seq<Node>, lo: nat, r: Option<nat>, q: Rest)
    requires SpellsRest(nodes, lo, r, q)
    ensures TreeAt(nodes, lo, r) == RestTree(q)
    decreases q, 1
  {
    match q
    case NoRest =>
    case ElsePart(b) =>
      SpelledTree(nodes, lo, r, b);
    case ElifPart(_, b, q') =>
      SpelledTree(nodes, r.value + 1, nodes[r.value].case0, b);
      SpelledRest(nodes, r.value + 1, nodes[r.value].case1, q');
  }

  /** The tree a parser has built. */
  function Built(s: State): Tree
    requires s.nodes != []
  {
    TreeAt(s.nodes, 1, s.nodes[0].next)
  }

  /** The commands that spell items are accepted, leave no block open, and build the tree of the
      recursive reading. */
  lemma BuildsTree(items: seq<Item>) returns (t: State)
    requires Proper(items)
    ensures Wf(START) && Run(START, Flatten(items)) == Some(t)
    ensures t.stack == START.stack && EndOk(t) && t.nodes != [] && Built(t) == TreeOf(items)
  {
    t := RunItems(START, items, []);
    assert Flatten(items) + [] == Flatten(items);
    SpelledTree(t.nodes, 1, t.nodes[0].next, items);
  }

  // ----- what is accepted with all blocks closed spells items

  /** An open block, with what was read of it. */
  datatype Frame =
    | Whole(items: seq<Item>)
    | InBlock(kind: Kind, arg: string, items: seq<Item>)
    | InCond(first: string, done: seq<(seq<Item>, string)>, items: seq<Item>)  // bodies, each with the next condition
    | InElsePart(first: string, done: seq<(seq<Item>, string)>, body: seq<Item>, items: seq<Item>)

  /** The commands read so far in a frame. */
  function Spelled(f: Frame): (cmds: seq<Cmd>) {
    match f
    case Whole(items) => Flatten(items)
    case InBlock(k, a, items) => [Open(k, a)] + Flatten(items)
    case InCond(a, done, items) => [Open(If, a)] + Conditions(done) + Flatten(items)
    case InElsePart(a, done, body, items) => [Open(If, a)] + Conditions(done) + Flatten(body) + [Else] + Flatten(items)
  }

  function Conditions(done: seq<(seq<Item>, string)>): (cmds: seq<Cmd>) {
    if done == [] then []
    else Conditions(done[..|done| - 1]) + Flatten(done[|done| - 1].0) + [Elif(done[|done| - 1].1)]
  }

  function AllSpelled(frames: seq<Frame>): (cmds: seq<Cmd>) {
    if frames == [] then [] else AllSpelled(frames[..|frames| - 1]) + Spelled(frames[|frames| - 1])
  }

  function MarkOf(f: Frame): Mark {
    match f
    case Whole(_) => Global
    case InBlock(k, _, _) => In(k)
    case InCond(_, _, _) => In(If)
    case InElsePart(_, _, _, _) => InElse
  }

  ghost predicate ProperFrame(f: Frame) {
    && Proper(f.items)
    && (f.InBlock? ==> f.kind != If)
    && (f.InElsePart? ==> Proper(f.body))
    && (f.InCond? || f.InElsePart? ==> forall i :: 0 <= i < |f.done| ==> Proper(f.done[i].0))
  }

  /** The rest of an if that has the conditions done behind the first one, the body of the last
      one, and a last part. */
  function Chain(done: seq<(seq<Item>, string)>, body: seq<Item>, last: Rest): (r: (seq<Item>, Rest))
    decreases |done|
  {
    if done == [] then (body, last)
    else Chain(done[..|done| - 1], done[|done| - 1].0, ElifPart(done[|done| - 1].1, body, last))
  }

  /** What closing a frame adds to the frame around it. */
  function Closed(f: Frame): (x: Item)
    requires !f.Whole?
  {
    match f
    case InBlock(k, a, items) => Block(k, a, items)
    case InCond(a, done, items) => (var c := Chain(done, items, NoRest); Cond(a, c.0, c.1))
    case InElsePart(a, done, body, items) => (var c := Chain(done, body, ElsePart(items)); Cond(a, c.0, c.1))
  }

  lemma {:induction false} ChainSpelled(done: seq<(seq<Item>, string)>, body: seq<Item>, last: Rest)
    requires Proper(body) && ProperRest(last) && forall i :: 0 <= i < |done| ==> Proper(done[i].0)
    ensures var c := Chain(done, body, last);
            && Proper(c.0) && ProperRest(c.1)
            && Flatten(c.0) + FlattenRest(c.1) == Conditions(done) + Flatten(body) + FlattenRest(last)
    decreases |done|
  {
    hide Flatten, Proper;
    if done == [] {
      assert [] + Flatten(body) + FlattenRest(last) == Flatten(body) + FlattenRest(last);
    } else {
      var d := done[|done| - 1];
      var q := ElifPart(d.1, body, last);
      ChainSpelled(done[..|done| - 1], d.0, q);
      assert FlattenRest(q) == [Elif(d.1)] + Flatten(body) + FlattenRest(last);
      Regroup(Conditions(done[..|done| - 1]), Flatten(d.0), [Elif(d.1)], Flatten(body), FlattenRest(last));
    }
  }

  lemma Regroup(a: seq<Cmd>, b: seq<Cmd>, c: seq<Cmd>, d: seq<Cmd>, e: seq<Cmd>)
    ensures a + b + (c + d + e) == a + b + c + d + e
  {
  }

  lemma {:induction false} FlattenSnoc(items: seq<Item>, x: Item)
    ensures Flatten(items + [x]) == Flatten(items) + FlattenItem(x)
    decreases |items|
  {
    hide FlattenItem;
    if items == [] {
      assert [x][1..] == [] && FlattenItem(x) + [] == FlattenItem(x);
      assert [] + [x] == [x];
    } else {
      assert (items + [x])[1..] == items[1..] + [x];
      FlattenSnoc(items[1..], x);
      assert (items + [x])[0] == items[0];
      assert Flatten(items + [x]) == FlattenItem(items[0]) + (Flatten(items[1..]) + FlattenItem(x));
    }
  }

  lemma ProperSnoc(items: seq<Item>, x: Item)
    requires Proper(items) && ProperItem(x)
    ensures Proper(items + [x])
  {
    hide ProperItem;
  }

  function WithItems(f: Frame, items: seq<Item>): (g: Frame) {
    f.(items := items)
  }

  function Last(frames: seq<Frame>): Frame
    requires frames != []
  {
    frames[|frames| - 1]
  }

  function Init(frames: seq<Frame>): seq<Frame>
    requires frames != []
  {
    frames[..|frames| - 1]
  }

  /** What a command does to the frames. */
  function Advance(frames: seq<Frame>, c: Cmd): (g: seq<Frame>)
    requires frames != [] && Allowed(c, MarkOf(Last(frames)))
    requires Last(frames).InBlock? ==> Last(frames).kind != If
    requires !Last(frames).Whole? ==> |frames| > 1
    requires c.Close? ==> !Last(frames).Whole?
  {
    var f, below := Last(frames), Init(frames);
    match c
    case Plain(text) => below + [WithItems(f, f.items + [Leaf(text)])]
    case Open(k, a) => frames + [if k == If then InCond(a, [], []) else InBlock(k, a, [])]
    case Elif(a) => below + [InCond(f.first, f.done + [(f.items, a)], [])]
    case Else => below + [InElsePart(f.first, f.done, f.items, [])]
    case Close(_) => Init(below) + [WithItems(Last(below), Last(below).items + [Closed(f)])]
  }

  lemma AllSpelledSnoc(frames: seq<Frame>, f: Frame)
    ensures AllSpelled(frames + [f]) == AllSpelled(frames) + Spelled(f)
  {
    assert (frames + [f])[..|frames|] == frames;
  }

  lemma AllSpelledLast(frames: seq<Frame>)
    requires frames != []
    ensures AllSpelled(frames) == AllSpelled(Init(frames)) + Spelled(Last(frames))
  {
  }

  lemma SpelledMore(f: Frame, x: Item)
    ensures Spelled(WithItems(f, f.items + [x])) == Spelled(f) + FlattenItem(x)
  {
    hide Flatten, FlattenItem, Conditions;
    FlattenSnoc(f.items, x);
  }

  /** Closing a frame spells its item. */
  lemma SpelledClosed(f: Frame, c: Cmd)
    requires ProperFrame(f) && !f.Whole? && c.Close? && Allowed(c, MarkOf(f))
    ensures FlattenItem(Closed(f)) == Spelled(f) + [c] && ProperItem(Closed(f))
  {
    hide Flatten, Conditions, Chain, Proper;
    match f
    case InBlock(_, _, _) =>
    case InCond(a, done, items) =>
      ChainSpelled(done, items, NoRest);
      CondClosed([Open(If, a)], Chain(done, items, NoRest), Conditions(done) + Flatten(items), [Close(If)]);
      assert [Open(If, a)] + (Conditions(done) + Flatten(items)) == [Open(If, a)] + Conditions(done) + Flatten(items);
    case InElsePart(a, done, body, items) =>
      ElsePartProper(items);
      ChainSpelled(done, body, ElsePart(items));
      var o, d, b, e, i := [Open(If, a)], Conditions(done), Flatten(body), [Else], Flatten(items);
      CondClosed(o, Chain(done, body, ElsePart(items)), d + b + e + i, [Close(If)]);
      assert d + b + (e + i + [Close(If)]) == d + b + e + i + [Close(If)];
      assert o + (d + b + e + i) == o + d + b + e + i;
  }

  lemma ElsePartProper(items: seq<Item>)
    requires Proper(items)
    ensures ProperRest(ElsePart(items)) && FlattenRest(ElsePart(items)) == [Else] + Flatten(items) + [Close(If)]
    ensures FlattenRest(NoRest) == [Close(If)]
  {
  }

  lemma CondClosed(o: seq<Cmd>, c: (seq<Item>, Rest), d: seq<Cmd>, e: seq<Cmd>)
    requires Flatten(c.0) + FlattenRest(c.1) == d + e
    ensures o + Flatten(c.0) + FlattenRest(c.1) == o + d + e
  {
    assert o + Flatten(c.0) + FlattenRest(c.1) == o + (Flatten(c.0) + FlattenRest(c.1));
  }

  ghost predicate ProperFrames(frames: seq<Frame>) {
    && frames != [] && frames[0].Whole?
    && (forall i :: 0 < i < |frames| ==> !frames[i].Whole?)
    && (forall i :: 0 <= i < |frames| ==> ProperFrame(frames[i]))
  }

  /** A command read is a command spelled. */
  lemma AdvanceSpells(frames: seq<Frame>, c: Cmd)
    requires ProperFrames(frames) && Allowed(c, MarkOf(Last(frames)))
    ensures c.Close? ==> !Last(frames).Whole?
    ensures !Last(frames).Whole? ==> |frames| > 1
    ensures Last(frames).InBlock? ==> Last(frames).kind != If
    ensures ProperFrames(Advance(frames, c)) && AllSpelled(Advance(frames, c)) == AllSpelled(frames) + [c]
  {
    var f, below := Last(frames), Init(frames);
    AllSpelledLast(frames);
    match c
    case Plain(text) => AdvancePlain(frames, text);
    case Open(k, a) => AdvanceOpen(frames, k, a);
    case Elif(a) => AdvanceElif(frames, a);
    case Else => AdvanceElse(frames);
    case Close(_) => AdvanceClose(frames, c);
  }

  lemma AdvancePlain(frames: seq<Frame>, text: string)
    requires ProperFrames(frames)
    ensures var f := Last(frames);
            var g := Init(frames) + [WithItems(f, f.items + [Leaf(text)])];
            ProperFrames(g) && AllSpelled(g) == AllSpelled(frames) + [Plain(text)]
  {
    hide AllSpelled, Spelled, Proper;
    var f := Last(frames);
    AllSpelledLast(frames);
    AllSpelledSnoc(Init(frames), WithItems(f, f.items + [Leaf(text)]));
    SpelledMore(f, Leaf(text));
    ProperSnoc(f.items, Leaf(text));
  }

  lemma AdvanceOpen(frames: seq<Frame>, k: Kind, a: string)
    requires ProperFrames(frames)
    ensures var g := frames + [if k == If then InCond(a, [], []) else InBlock(k, a, [])];
            ProperFrames(g) && AllSpelled(g) == AllSpelled(frames) + [Open(k, a)]
  {
    hide AllSpelled;
    AllSpelledSnoc(frames, if k == If then InCond(a, [], []) else InBlock(k, a, []));
  }

  lemma AdvanceElif(frames: seq<Frame>, a: string)
    requires ProperFrames(frames) && Last(frames).InCond?
    ensures var f := Last(frames);
            var g := Init(frames) + [InCond(f.first, f.done + [(f.items, a)], [])];
            ProperFrames(g) && AllSpelled(g) == AllSpelled(frames) + [Elif(a)]
  {
    hide AllSpelled, Proper;
    var f := Last(frames);
    var h := InCond(f.first, f.done + [(f.items, a)], []);
    AllSpelledLast(frames);
    AllSpelledSnoc(Init(frames), h);
    assert h.done[..|f.done|] == f.done;
    assert Flatten([]) == [];
    ProperNothing();
    hide Flatten;
    assert Spelled(h) == Spelled(f) + [Elif(a)];
  }

  lemma ProperNothing()
    ensures Proper([])
  {
  }

  lemma AdvanceElse(frames: seq<Frame>)
    requires ProperFrames(frames) && Last(frames).InCond?
    ensures var f := Last(frames);
            var g := Init(frames) + [InElsePart(f.first, f.done, f.items, [])];
            ProperFrames(g) && AllSpelled(g) == AllSpelled(frames) + [Else]
  {
    hide AllSpelled, Proper;
    var f := Last(frames);
    var h := InElsePart(f.first, f.done, f.items, []);
    AllSpelledLast(frames);
    AllSpelledSnoc(Init(frames), h);
    assert Flatten([]) == [];
    ProperNothing();
    assert Spelled(h) == Spelled(f) + [Else];
  }

  lemma AdvanceClose(frames: seq<Frame>, c: Cmd)
    requires ProperFrames(frames) && c.Close? && Allowed(c, MarkOf(Last(frames)))
    ensures |frames| > 1
    ensures var f, below := Last(frames), Init(frames);
            var g := Init(below) + [WithItems(Last(below), Last(below).items + [Closed(f)])];
            ProperFrames(g) && AllSpelled(g) == AllSpelled(frames) + [c]
  {
    hide AllSpelled, Proper, Spelled, FlattenItem, ProperItem, Closed, Allowed;
    var f, below := Last(frames), Init(frames);
    NotOutermost(frames, c);
    var g := WithItems(Last(below), Last(below).items + [Closed(f)]);
    SpelledClosed(f, c);
    ProperSnoc(Last(below).items, Closed(f));
    ProperReplaced(frames, g);
    hide ProperFrames, ProperFrame;
    AllSpelledLast(frames);
    AllSpelledLast(below);
    AllSpelledSnoc(Init(below), g);
    SpelledMore(Last(below), Closed(f));
    CloseSpelled(AllSpelled(Init(below)), Spelled(Last(below)), Spelled(f), [c]);
  }

  lemma CloseSpelled(a: seq<Cmd>, b: seq<Cmd>, f: seq<Cmd>, c: seq<Cmd>)
    ensures a + (b + (f + c)) == a + b + f + c
  {
  }

  lemma NotOutermost(frames: seq<Frame>, c: Cmd)
    requires ProperFrames(frames) && c.Close? && Allowed(c, MarkOf(Last(frames)))
    ensures !Last(frames).Whole? && |frames| > 1 && ProperFrame(Last(frames)) && Proper(Last(Init(frames)).items)
  {
  }

  lemma ProperReplaced(frames: seq<Frame>, g: Frame)
    requires ProperFrames(frames) && |frames| > 1 && Proper(g.items) && g == WithItems(Last(Init(frames)), g.items)
    ensures ProperFrames(Init(Init(frames)) + [g])
  {
    hide Proper;
    var below := Init(frames);
    assert ProperFrame(Last(below)) && (Last(below).Whole? <==> |below| == 1);
    assert g.Whole? <==> Last(below).Whole?;
  }

  /** The frames have the marks of the parser's stack. */
  ghost predicate Match(frames: seq<Frame>, stack: seq<Entry>) {
    |frames| == |stack| && forall i :: 0 <= i < |frames| ==> MarkOf(frames[i]) == stack[i].mark
  }

  lemma {:induction false} AcceptedSpelled(s: State, frames: seq<Frame>, cmds: seq<Cmd>) returns (g: seq<Frame>)
    requires Wf(s) && ProperFrames(frames) && Match(frames, s.stack) && Run(s, cmds).Some?
    ensures ProperFrames(g) && Match(g, Run(s, cmds).value.stack) && AllSpelled(g) == AllSpelled(frames) + cmds
    decreases |cmds|
  {
    hide *;
    RunFirst(s, cmds);
    if cmds == [] {
      g := frames;
      EmptyBehind(AllSpelled(frames));
    } else {
      var c := cmds[0];
      TopMark(s, frames, c);
      AdvanceSpells(frames, c);
      AdvanceMatches(s, frames, c);
      g := AcceptedSpelled(Step(s, c).value, Advance(frames, c), cmds[1..]);
      OneMore(AllSpelled(frames), cmds);
    }
  }

  lemma RunFirst(s: State, cmds: seq<Cmd>)
    requires Wf(s) && Run(s, cmds).Some?
    ensures cmds == [] ==> Run(s, cmds) == Some(s)
    ensures cmds != [] ==> InRange(s)
    ensures cmds != [] ==>
      Step(s, cmds[0]).Some? && Wf(Step(s, cmds[0]).value) && Run(s, cmds) == Run(Step(s, cmds[0]).value, cmds[1..])
  {
    if cmds != [] {
      StepWf(s, cmds[0]);
    }
  }

  lemma TopMark(s: State, frames: seq<Frame>, c: Cmd)
    requires Wf(s) && ProperFrames(frames) && Match(frames, s.stack) && Step(s, c).Some?
    ensures frames != [] && Allowed(c, MarkOf(Last(frames)))
  {
  }

  lemma EmptyBehind(a: seq<Cmd>)
    ensures a + [] == a
  {
  }

  lemma OneMore(a: seq<Cmd>, cmds: seq<Cmd>)
    requires cmds != []
    ensures a + [cmds[0]] + cmds[1..] == a + cmds
  {
    assert cmds == [cmds[0]] + cmds[1..];
  }

  lemma AdvanceMatches(s: State, frames: seq<Frame>, c: Cmd)
    requires Wf(s) && ProperFrames(frames) && Match(frames, s.stack) && Step(s, c).Some?
    requires (c.Close? ==> !Last(frames).Whole?) && (!Last(frames).Whole? ==> |frames| > 1)
    requires Last(frames).InBlock? ==> Last(frames).kind != If
    ensures Allowed(c, MarkOf(Last(frames))) && Match(Advance(frames, c), Step(s, c).value.stack)
  {
  }

  /** Whatever is accepted with every block closed spells nested items, and the tree is theirs. */
  lemma AcceptedIsReading(cmds: seq<Cmd>) returns (items: seq<Item>)
    requires Wf(START) && Run(START, cmds).Some? && |Run(START, cmds).value.stack| == 1
    ensures Proper(items) && Flatten(items) == cmds
    ensures Run(START, cmds).value.nodes != [] && Built(Run(START, cmds).value) == TreeOf(items)
  {
    var frames := [Whole([])];
    StartFrames();
    hide *;
    var g := AcceptedSpelled(START, frames, cmds);
    items := OnlyFrame(g, Run(START, cmds).value.stack, cmds);
    var t := BuildsTree(items);
  }

  lemma StartFrames()
    ensures Wf(START) && ProperFrames([Whole([])]) && Match([Whole([])], START.stack) && AllSpelled([Whole([])]) == []
  {
    ProperNothing();
    AllSpelledSnoc([], Whole([]));
    assert [] + [Whole([])] == [Whole([])];
  }

  lemma OnlyFrame(g: seq<Frame>, stack: seq<Entry>, cmds: seq<Cmd>) returns (items: seq<Item>)
    requires ProperFrames(g) && Match(g, stack) && |stack| == 1 && AllSpelled(g) == [] + cmds
    ensures Proper(items) && Flatten(items) == cmds
  {
    items := g[0].items;
    assert g == [] + [g[0]];
    AllSpelledSnoc([], g[0]);
    assert AllSpelled([]) == [] && [] + Spelled(g[0]) == Spelled(g[0]) && [] + cmds == cmds;
    assert g[0].Whole? && ProperFrame(g[0]);
  }

  // ----- blocks left open

  /** How many more blocks of a kind are open after a command. */
  function Opened(c: Cmd, k: Kind): (n: int) {
    match c
    case Open(j, _) => if j == k then 1 else 0
    case Close(j) => if j == k then -1 else 0
    case _ => 0
  }

  /** How many blocks of a kind the commands open and do not close. */
  function Unclosed(cmds: seq<Cmd>, k: Kind): (n: int) {
    if cmds == [] then 0 else Opened(cmds[0], k) + Unclosed(cmds[1..], k)
  }

  /** A block of kind k; the else part belongs to its if. */
  predicate OfKind(m: Mark, k: Kind) {
    m == In(k) || (k == If && m == InElse)
  }

  /** How many blocks of a kind are open. */
  function Marks(stack: seq<Entry>, k: Kind): (n: nat) {
    if stack == [] then 0
    else Marks(stack[..|stack| - 1], k) + (if OfKind(stack[|stack| - 1].mark, k) then 1 else 0)
  }

  lemma MarksSnoc(stack: seq<Entry>, e: Entry, k: Kind)
    ensures Marks(stack + [e], k) == Marks(stack, k) + (if OfKind(e.mark, k) then 1 else 0)
  {
    assert (stack + [e])[..|stack|] == stack;
  }

  lemma StepStack(s: State, c: Cmd)
    requires Wf(s) && Step(s, c).Some?
    ensures s.stack == Popped(s) + [Top(s)] && Allowed(c, Top(s).mark)
    ensures var stack := Step(s, c).value.stack;
            && (c.Plain? ==> stack == s.stack)
            && (c.Open? ==> exists e :: stack == s.stack + [e] && e.mark == In(c.kind))
            && (c.Close? ==> stack == Popped(s))
            && (c.Elif? || c.Else? ==>
                  exists e :: stack == Popped(s) + [e] && e.mark == if c.Elif? then In(If) else InElse)
  {
  }

  lemma StepMarks(s: State, c: Cmd, k: Kind)
    requires Wf(s) && Step(s, c).Some?
    ensures Marks(Step(s, c).value.stack, k) == Marks(s.stack, k) + Opened(c, k)
  {
    hide Step, Marks;
    StepStack(s, c);
    var stack := Step(s, c).value.stack;
    MarksSnoc(Popped(s), Top(s), k);
    if c.Open? {
      var e :| stack == s.stack + [e] && e.mark == In(c.kind);
      MarksSnoc(s.stack, e, k);
    } else if c.Elif? || c.Else? {
      var e :| stack == Popped(s) + [e] && e.mark == if c.Elif? then In(If) else InElse;
      MarksSnoc(Popped(s), e, k);
    }
  }

  lemma {:induction false} RunMarks(s: State, cmds: seq<Cmd>, k: Kind)
    requires Wf(s) && Run(s, cmds).Some?
    ensures Marks(Run(s, cmds).value.stack, k) == Marks(s.stack, k) + Unclosed(cmds, k)
    decreases |cmds|
  {
    hide Step, Wf, Marks, Run, Opened;
    RunFirst(s, cmds);
    if cmds != [] {
      StepMarks(s, cmds[0], k);
      RunMarks(Step(s, cmds[0]).value, cmds[1..], k);
    }
  }

  lemma {:induction false} NoMarks(stack: seq<Entry>, k: Kind)
    ensures Marks(stack, k) == 0 <==> forall i :: 0 <= i < |stack| ==> !OfKind(stack[i].mark, k)
    decreases |stack|
  {
    if stack != [] {
      var below := stack[..|stack| - 1];
      NoMarks(below, k);
      if forall i :: 0 <= i < |below| ==> !OfKind(below[i].mark, k) {
        forall i | 0 <= i < |stack| && i != |below|
          ensures !OfKind(stack[i].mark, k)
        {
          assert stack[i] == below[i];
        }
      } else {
        var i :| 0 <= i < |below| && OfKind(below[i].mark, k);
        assert stack[i] == below[i];
      }
    }
  }

  /** What the counts say of a stack of blocks. */
  lemma MarksMeaning(s: State)
    requires Wf(s)
    ensures EndOk(s) <==> Marks(s.stack, If) == 0 && Marks(s.stack, Each) == 0
    ensures |s.stack| == 1 <==> forall k: Kind :: Marks(s.stack, k) == 0
  {
    hide Marks;
    forall k: Kind
      ensures Marks(s.stack, k) == 0 <==> forall i :: 0 <= i < |s.stack| ==> !OfKind(s.stack[i].mark, k)
    {
      NoMarks(s.stack, k);
    }
    if |s.stack| > 1 {
      var m := s.stack[1].mark;
      var k := if m == InElse then If else m.kind;
      assert OfKind(s.stack[1].mark, k);
      assert Marks(s.stack, k) != 0;
    } else {
      assert forall i :: 0 <= i < |s.stack| ==> s.stack[i].mark == Global;
    }
  }

  /** The end of the text is complained about exactly when an if or an each is not closed, and all
      blocks are closed exactly when none is left of any kind. So with, def, loop and alt may stay
      open, and an accepted text is closed exactly when each of them is closed as often as opened. */
  lemma EndComplains(cmds: seq<Cmd>)
    requires Wf(START) && Run(START, cmds).Some?
    ensures var t := Run(START, cmds).value;
            && (EndOk(t) <==> Unclosed(cmds, If) == 0 && Unclosed(cmds, Each) == 0)
            && (|t.stack| == 1 <==> forall k: Kind :: Unclosed(cmds, k) == 0)
            && (EndOk(t) ==>
                  (|t.stack| == 1 <==>
                   Unclosed(cmds, With) == 0 && Unclosed(cmds, Def) == 0 && Unclosed(cmds, Loop) == 0 && Unclosed(cmds, Alt) == 0))
  {
    hide Run, EndOk, Wf;
    KindCount(cmds, If);
    KindCount(cmds, Each);
    KindCount(cmds, With);
    KindCount(cmds, Def);
    KindCount(cmds, Loop);
    KindCount(cmds, Alt);
    MarksMeaning(Run(START, cmds).value);
    SixMarks(Run(START, cmds).value.stack);
    SixKinds(cmds);
  }

  lemma KindCount(cmds: seq<Cmd>, k: Kind)
    requires Wf(START) && Run(START, cmds).Some?
    ensures Unclosed(cmds, k) == Marks(Run(START, cmds).value.stack, k)
  {
    hide Run;
    RunMarks(START, cmds, k);
    NoMarks(START.stack, k);
  }

  lemma SixMarks(stack: seq<Entry>)
    ensures (forall k: Kind :: Marks(stack, k) == 0) <==>
      && Marks(stack, If) == 0 && Marks(stack, Each) == 0 && Marks(stack, With) == 0
      && Marks(stack, Def) == 0 && Marks(stack, Loop) == 0 && Marks(stack, Alt) == 0
  {
    hide Marks;
    if k: Kind :| Marks(stack, k) != 0 {
      assert k == If || k == Each || k == With || k == Def || k == Loop || k == Alt;
    }
  }

  lemma SixKinds(cmds: seq<Cmd>)
    ensures (forall k: Kind :: Unclosed(cmds, k) == 0) <==>
      && Unclosed(cmds, If) == 0 && Unclosed(cmds, Each) == 0 && Unclosed(cmds, With) == 0
      && Unclosed(cmds, Def) == 0 && Unclosed(cmds, Loop) == 0 && Unclosed(cmds, Alt) == 0
  {
    hide Unclosed;
    if k: Kind :| Unclosed(cmds, k) != 0 {
      assert k == If || k == Each || k == With || k == Def || k == Loop || k == Alt;
    }
  }

  lemma WithMayStayOpen()
    ensures Wf(START) && Run(START, [Open(With, "x")]).Some?
    ensures var t := Run(START, [Open(With, "x")]).value; EndOk(t) && |t.stack| == 2
  {
    var c := Open(With, "x");
    assert [c] + [] == [c];
    assert Allowed(c, Top(START).mark);
    RunStep(START, c, []);
    var t := Step(START, c).value;
    assert Run(t, []) == Some(t) && t.stack == START.stack + [Entry(In(With), 1, None)];
  }

  // ----- the parser object

  /** `CSPARSE`, as far as the builder goes. */
  class Parser {
    var nodes: seq<Node>
    var next: Slot
    var current: nat
    var stack: seq<Entry>

    function State(): State
      reads this
    {
      CsBlocks.State(nodes, next, current, stack)
    }

    constructor ()
      ensures State() == START
    {
      nodes, next, current, stack := [Fresh(None)], Next(0), 0, [Entry(Global, 0, None)];
    }

    /** The end of most handlers: `*(parse->next) = node`. */
    method HangNode(c: Cmd) returns (n: nat)
      requires next.n < |nodes|
      modifies this`nodes, this`current
      ensures n == |old(nodes)| && nodes == Attach(old(nodes), next, c) && current == n
    {
      n := |nodes|;
      nodes := nodes + [Fresh(Some(c))];
      nodes := Put(nodes, next, Some(n));
      current := n;
      assert nodes == Attach(old(nodes), next, c);
    }

    method ElseParse()
      requires stack != []
      modifies this`next, this`current
      ensures next == Case1(Top(old(State())).tree)
    {
      var entry := stack[|stack| - 1];
      next, current := Case1(entry.tree), entry.tree;
    }

    /** `elif_parse`: hang the condition off the one before it, and remember where the block began. */
    method ElifParse(c: Cmd)
      requires Wf(State()) && c.Elif?
      modifies this
      ensures var e := Top(old(State()));
              && nodes == Attach(old(nodes), Case1(e.tree), c) && next == Case0(|old(nodes)|) && current == |old(nodes)|
              && stack == Popped(old(State())) + [Entry(e.mark, |old(nodes)|, Some(Head(e)))]
    {
      var entry := stack[|stack| - 1];
      if entry.nextTree == None {
        entry := entry.(nextTree := Some(entry.tree));
      }
      next := Case1(entry.tree);
      var n := HangNode(c);
      next := Case0(n);
      stack := stack[..|stack| - 1] + [entry.(tree := current)];
    }

    /** `endif_parse` and `end_parse` */
    method EndParse()
      requires stack != []
      modifies this`next, this`current
      ensures next == Next(Head(Top(old(State()))))
    {
      var entry := stack[|stack| - 1];
      next := Next(if entry.nextTree.Some? then entry.nextTree.value else entry.tree);
      current := entry.tree;
    }

    /** One command: the check of its place, its handler, and the stack. */
    method Dispatch(c: Cmd) returns (ok: bool)
      requires Wf(State())
      modifies this
      ensures ok <==> Step(old(State()), c).Some?
      ensures ok ==> Some(State()) == Step(old(State()), c) && Wf(State())
      ensures !ok ==> State() == old(State())
    {
      ghost var before := State();
      if !Allowed(c, stack[|stack| - 1].mark) {
        return false;
      }
      StepWf(before, c);
      match c {
        case Plain(_) =>
          var n := HangNode(c);
          next := Next(n);
        case Open(k, _) =>
          var n := HangNode(c);
          next := Case0(n);
          Push(In(k));
        case Elif(_) =>
          ElifParse(c);
        case Else =>
          ElseParse();
          Pop();
          Push(InElse);
        case Close(_) =>
          EndParse();
          Pop();
      }
      ok := true;
    }

    method Push(m: Mark)
      modifies this`stack
      ensures stack == old(stack) + [Entry(m, current, None)]
    {
      stack := stack + [Entry(m, current, None)];
    }

    method Pop()
      requires stack != []
      modifies this`stack, this`current
      ensures stack == Popped(old(State())) && current == Head(Top(old(State())))
    {
      var entry := stack[|stack| - 1];
      stack := stack[..|stack| - 1];
      current := if entry.nextTree.Some? then entry.nextTree.value else entry.tree;
    }

    /** All commands of a text. */
    method RunCommands(cmds: seq<Cmd>) returns (ok: bool)
      requires Wf(State())
      modifies this
      ensures Wf(State())
      ensures ok <==> Run(old(State()), cmds).Some?
      ensures ok ==> State() == Run(old(State()), cmds).value
    {
      hide Run, Step, Wf;
      var i := 0;
      assert cmds[0..] == cmds;
      while i < |cmds|
        invariant 0 <= i <= |cmds| && Wf(State())
        invariant Run(State(), cmds[i..]) == Run(old(State()), cmds)
      {
        RunNext(State(), cmds, i);
        var good := Dispatch(cmds[i]);
        if !good {
          return false;
        }
        i := i + 1;
      }
      RunNothing(State(), cmds[i..]);
      ok := true;
    }

    /** The check of what is open at the end of a text. */
    method CheckEnd() returns (ok: bool)
      requires stack != []
      ensures ok <==> EndOk(State())
    {
      var j := |stack|;
      while j > 0
        invariant 0 <= j <= |stack|
        invariant forall k :: j <= k < |stack| ==>
          stack[k].mark != In(If) && stack[k].mark != InElse && stack[k].mark != In(Each)
      {
        j := j - 1;
        if stack[j].mark == In(If) || stack[j].mark == InElse || stack[j].mark == In(Each) {
          return false;
        }
      }
      return true;
    }

    /** `cs_parse_string`, on the commands of the text. */
    method ParseString(cmds: seq<Cmd>) returns (ok: bool)
      requires State() == START
      modifies this
      ensures Wf(START)
      ensures ok <==> Run(START, cmds).Some? && EndOk(Run(START, cmds).value)
      ensures ok ==> State() == Run(START, cmds).value
    {
      hide Run;
      StartFrames();
      ok := RunCommands(cmds);
      if ok {
        ok := CheckEnd();
      }
    }
  }

  lemma RunNext(s: State, cmds: seq<Cmd>, i: nat)
    requires Wf(s) && i < |cmds|
    ensures Step(s, cmds[i]).None? ==> Run(s, cmds[i..]) == None
    ensures Step(s, cmds[i]).Some? ==>
      Wf(Step(s, cmds[i]).value) && Run(s, cmds[i..]) == Run(Step(s, cmds[i]).value, cmds[i + 1..])
  {
    hide Step;
    assert cmds[i..][0] == cmds[i] && cmds[i..][1..] == cmds[i + 1..];
    if Step(s, cmds[i]).Some? {
      StepWf(s, cmds[i]);
    }
  }

  lemma RunNothing(s: State, cmds: seq<Cmd>)
    requires Wf(s) && cmds == []
    ensures Run(s, cmds) == Some(s)
  {
  }
}

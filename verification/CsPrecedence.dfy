/** The parser is the inverse of spelling a tree out: precedence, associativity and brackets
    decide which trees it builds. */
module CsPrecedence {
  import opened Wrappers
  import opened CsExpr
  import opened CsGrammar

  /** No operator looser than level k is visible. */
  ghost predicate NoneBelow(e: Expr, k: int) {
    forall j :: 0 <= j < k ==> !Shows(e, j)
  }

  /** The trees the parser builds: the operands of an operator show nothing looser, its right
      operand nothing of its own level, a prefix operator is applied before anything looser than
      itself only, and calls are of known functions with the right number of arguments. */
  ghost predicate Canonical(e: Expr, funs: Functions)
    decreases e
  {
    match e
    case Leaf(a) => a.Arg?
    case Unary(op, b) => (op == Not || op == Exists) && Canonical(b, funs) && NoneBelow(b, 7)
    case Paren(b) => Canonical(b, funs)
    case Binary(op, l, r) =>
      && Infix(op) && Canonical(l, funs) && Canonical(r, funs)
      && NoneBelow(l, Level(op)) && NoneBelow(r, Level(op) + 1) && (Level(op) == 8 ==> !Starts(l, 7))
    case Index(l, r) => Canonical(l, funs) && Canonical(r, funs) && NoneBelow(l, 8) && !Starts(l, 7)
    case Commas(last, previous) => Canonical(last, funs) && Canonical(previous, funs) && !Shows(last, 0)
    case Call(name, args) =>
      && args != [] && name in funs && funs[name] == |args|
      && forall i :: 0 <= i < |args| ==> Canonical(args[i], funs) && !Shows(args[i], 0)
  }

  lemma {:induction false} CanonicalShaped(e: Expr, funs: Functions)
    requires Canonical(e, funs)
    ensures Shaped(e)
    decreases e
  {
    hide Shows, Starts, NoneBelow;
    match e
    case Leaf(_) =>
    case Unary(_, b) => CanonicalShaped(b, funs);
    case Paren(b) => CanonicalShaped(b, funs);
    case Binary(_, l, r) => CanonicalShaped(l, funs); CanonicalShaped(r, funs);
    case Index(l, r) => CanonicalShaped(l, funs); CanonicalShaped(r, funs);
    case Commas(last, previous) => CanonicalShaped(last, funs); CanonicalShaped(previous, funs);
    case Call(_, args) =>
      forall i | 0 <= i < |args|
        ensures Shaped(args[i])
      {
        CanonicalShaped(args[i], funs);
      }
  }

  /** No infix operator is of the prefix operators' level. */
  lemma {:induction false} NothingAt7(e: Expr)
    requires Shaped(e)
    ensures !Shows(e, 7)
    decreases e
  {
    match e
    case Leaf(_) =>
    case Unary(_, b) => NothingAt7(b);
    case Paren(_) =>
    case Binary(_, l, r) => NothingAt7(l); NothingAt7(r);
    case Index(l, _) => NothingAt7(l);
    case Commas(last, previous) => NothingAt7(last); NothingAt7(previous);
    case Call(_, _) =>
  }

  lemma InfixLevel(op: Op)
    requires Infix(op)
    ensures 1 <= Level(op) <= 8 && Level(op) != 7 && !IsUnary(op)
  {
  }

  lemma {:induction false} CanonicalNoComma(e: Expr, funs: Functions)
    requires Canonical(e, funs) && !e.Commas?
    ensures !Shows(e, 0)
  {
    if e.Binary? {
      InfixLevel(e.op);
    }
  }

  /** Prefix operators start a list at two levels only. */
  lemma StartsLevels(e: Expr, j: int)
    requires 0 <= j && Starts(e, j)
    ensures j == 7 || j == 8
  {
  }

  // ----- looking for the loosest operator

  lemma {:induction false} FindSkips(t: Tokens, i: nat, k: nat)
    requires i <= k <= LEVELS && forall j :: i <= j < k ==> Scan(t, j, false) == Nothing
    ensures Find(t, i, false) == Find(t, k, false)
    decreases k - i
  {
    hide Scan;
    if i < k {
      FindSkips(t, i + 1, k);
    }
  }

  lemma {:induction false} FindFacts(t: Tokens, i: nat)
    requires i <= LEVELS
    ensures var f := Find(t, i, false);
            && (f.Found? ==> (forall j :: i <= j < f.k ==> Scan(t, j, false) == Nothing) && Scan(t, f.k, false) == Hit(f.x))
            && (f.NotFound? ==> forall j :: i <= j < LEVELS ==> Scan(t, j, false) == Nothing)
    decreases LEVELS - i
  {
    hide Scan;
    if i < LEVELS {
      FindFacts(t, i + 1);
    }
  }

  /** Below level k the tree neither shows nor starts anything. */
  ghost predicate Quiet(e: Expr, k: int) {
    forall j {:trigger Shows(e, j)} {:trigger Starts(e, j)} :: 0 <= j < k ==> !Shows(e, j) && !Starts(e, j)
  }

  /** Such levels are passed. */
  lemma PassedLevels(e: Expr, k: nat)
    requires Shaped(e) && k <= LEVELS && Quiet(e, k)
    ensures Find(Yield(e), 0, false) == Find(Yield(e), k, false)
  {
    hide Scan, Find, Shows, Starts;
    EmptyFront(Yield(e));
    forall j | 0 <= j < k
      ensures Scan(Yield(e), j, false) == Nothing
    {
      ScanOver([], e, j);
      ScanEmpty(j);
    }
    FindSkips(Yield(e), 0, k);
  }

  lemma ScanEmpty(j: int)
    ensures Scan([], j, false) == Nothing
  {
  }

  lemma FindAt(t: Tokens, k: nat, x: nat)
    requires k < LEVELS && Scan(t, k, false) == Hit(x)
    ensures Find(t, k, false) == Found(k, x)
  {
  }

  // ----- a spelled-out tree is parsed back

  /** The list of arguments as the parser builds it. */
  function Chain(args: seq<Expr>): (e: Expr)
    requires args != []
    decreases |args|
  {
    if |args| == 1 then args[0] else Commas(args[|args| - 1], Chain(args[..|args| - 1]))
  }

  lemma {:induction false} ChainFacts(args: seq<Expr>, funs: Functions)
    requires args != [] && forall i :: 0 <= i < |args| ==> Canonical(args[i], funs) && !Shows(args[i], 0)
    ensures Canonical(Chain(args), funs) && Yield(Chain(args)) == Join(args) && Arguments(Chain(args)) == args
    decreases |args|
  {
    hide Shows, Starts, NoneBelow;
    if |args| == 1 {
      NotCommas(args[0]);
    } else {
      ChainFacts(args[..|args| - 1], funs);
      assert args == args[..|args| - 1] + [args[|args| - 1]];
    }
  }

  lemma NotCommas(e: Expr)
    requires !Shows(e, 0)
    ensures !e.Commas?
  {
  }

  lemma QuietInfix(l: Expr, op: Op, r: Expr, e: Expr)
    requires (Infix(op) || op == Comma) && e == if op == Comma then Commas(r, l) else Binary(op, l, r)
    requires NoneBelow(l, Level(op)) && NoneBelow(r, Level(op) + 1) && (Level(op) == 8 ==> !Starts(l, 7))
    ensures 0 <= Level(op) < LEVELS && !IsUnary(op) && Quiet(e, Level(op)) && !Shows(r, Level(op))
  {
    if op != Comma {
      InfixLevel(op);
    }
    FirstToken(e);
    hide Yield;
    forall j | 0 <= j < Level(op)
      ensures !Shows(e, j) && !Starts(e, j)
    {
      if Starts(e, j) {
        StartsLevels(e, j);
      }
    }
  }

  /** Where the parser splits a spelled-out infix or comma tree. */
  lemma SplitInfix(l: Expr, op: Op, r: Expr, e: Expr)
    requires Shaped(e) && Shaped(r) && (Infix(op) || op == Comma)
    requires e == if op == Comma then Commas(r, l) else Binary(op, l, r)
    requires NoneBelow(l, Level(op)) && NoneBelow(r, Level(op) + 1) && (Level(op) == 8 ==> !Starts(l, 7))
    ensures Find(Yield(e), 0, false) == Found(Level(op), |Yield(l)|)
  {
    hide *;
    QuietInfix(l, op, r, e);
    PassedLevels(e, Level(op));
    ScanInfix(l, op, r, e);
    FindAt(Yield(e), Level(op), |Yield(l)|);
  }

  lemma ScanInfix(l: Expr, op: Op, r: Expr, e: Expr)
    requires (Infix(op) || op == Comma) && e == if op == Comma then Commas(r, l) else Binary(op, l, r)
    requires Shaped(r) && !Shows(r, Level(op)) && !IsUnary(op) && 0 <= Level(op)
    ensures Scan(Yield(e), Level(op), false) == Hit(|Yield(l)|)
  {
    hide Scan, Yield, Shows, Starts, Shaped;
    Grouped([], e);
    EmptyFront(Yield(e));
    EmptyFront(Yield(l));
    ScanOver(Yield(l) + [Oper(op)], r, Level(op));
    ScanSnoc(Yield(l), Oper(op), Level(op));
  }

  lemma QuietIndex(l: Expr, r: Expr)
    requires NoneBelow(l, 8) && !Starts(l, 7)
    ensures Quiet(Index(l, r), 8)
  {
    var e := Index(l, r);
    FirstToken(e);
    hide Yield;
    forall j | 0 <= j < 8
      ensures !Shows(e, j) && !Starts(e, j)
    {
      if Starts(e, j) {
        StartsLevels(e, j);
      }
    }
  }

  lemma SplitIndex(l: Expr, r: Expr)
    requires Shaped(Index(l, r)) && Shaped(r) && NoneBelow(l, 8) && !Starts(l, 7)
    ensures Find(Yield(Index(l, r)), 0, false) == Found(8, |Yield(l)|)
  {
    hide Scan, Find, Shows, Yield, Starts, Open, Quiet, Shaped, NoneBelow;
    QuietIndex(l, r);
    PassedLevels(Index(l, r), 8);
    ScanIndex(l, r);
    FindAt(Yield(Index(l, r)), 8, |Yield(l)|);
  }

  lemma ScanIndex(l: Expr, r: Expr)
    requires Shaped(r)
    ensures Scan(Yield(Index(l, r)), 8, false) == Hit(|Yield(l)|)
  {
    hide Scan, Yield, Open, Shaped;
    var e := Index(l, r);
    Grouped([], e);
    EmptyFront(Yield(e));
    EmptyFront(Yield(l));
    OpenOver(Yield(l) + [Oper(LBracket)], r, 1, LBracket, RBracket);
    ScanBrackets(Yield(l), Yield(r), 8);
    ScanSnoc(Yield(l), Oper(LBracket), 8);
  }

  /** A tree that starts with its own prefix operator or parenthesis. */
  lemma SplitFirst(e: Expr, k: nat)
    requires Shaped(e) && k < LEVELS && Quiet(e, k) && !Shows(e, k) && Starts(e, k)
    ensures Find(Yield(e), 0, false) == Found(k, 0)
  {
    PassedLevels(e, k);
    EmptyFront(Yield(e));
    ScanOver([], e, k);
    hide Shows, Yield, Starts, Shaped, Quiet, Scan;
    FindAt(Yield(e), k, 0);
  }

  lemma SplitUnary(op: Op, b: Expr)
    requires Shaped(b) && (op == Not || op == Exists) && NoneBelow(b, 7)
    ensures Find(Yield(Unary(op, b)), 0, false) == Found(7, 0)
  {
    var e := Unary(op, b);
    NothingAt7(b);
    FirstToken(e);
    hide Yield, Find;
    forall j | 0 <= j < 7
      ensures !Shows(e, j) && !Starts(e, j)
    {
      assert !Shows(b, j);
    }
    SplitFirst(e, 7);
  }

  lemma SplitParen(b: Expr)
    requires Shaped(b)
    ensures Find(Yield(Paren(b)), 0, false) == Found(8, 0)
  {
    FirstToken(Paren(b));
    hide Yield, Find;
    SplitFirst(Paren(b), 8);
  }

  lemma SplitCall(name: string, args: seq<Expr>)
    requires Shaped(Call(name, args))
    ensures Find(Yield(Call(name, args)), 0, false) == NotFound
  {
    FirstToken(Call(name, args));
    hide Yield, Scan;
    PassedLevels(Call(name, args), LEVELS);
  }

  lemma Slices(a: Tokens, b: Tokens, c: Tokens)
    ensures (a + b + c)[|a|..|a| + |b|] == b && (a + b + c)[..|a|] == a && (a + b + c)[|a + b|..] == c
    ensures (a + b)[|a|..] == b && (a + b)[..|a|] == a
  {
  }

  /** What a canonical tree spells is parsed to the tree. */
  lemma {:induction false} ParseYield(e: Expr, funs: Functions)
    requires Canonical(e, funs)
    ensures Parse(Yield(e), false, funs) == Some(e)
    decreases |Yield(e)|
  {
    CanonicalShaped(e, funs);
    match e
    case Leaf(a) =>
    case Unary(op, b) =>
      YieldUnary(op, b, funs);
      ParseYield(b, funs);
    case Paren(b) =>
      YieldParen(b, funs);
      ParseYield(b, funs);
    case Binary(op, l, r) =>
      YieldInfix(l, op, r, e, funs);
      ParseYield(l, funs);
      ParseYield(r, funs);
    case Commas(last, previous) =>
      YieldInfix(previous, Comma, last, e, funs);
      ParseYield(previous, funs);
      ParseYield(last, funs);
    case Index(l, r) =>
      YieldIndex(l, r, funs);
      ParseYield(l, funs);
      ParseYield(r, funs);
    case Call(name, args) =>
      ChainFacts(args, funs);
      YieldCall(name, args, funs);
      ParseYield(Chain(args), funs);
  }

  lemma YieldUnary(op: Op, b: Expr, funs: Functions)
    requires Canonical(Unary(op, b), funs)
    ensures |Yield(b)| < |Yield(Unary(op, b))|
    ensures Parse(Yield(b), false, funs) == Some(b) ==> Parse(Yield(Unary(op, b)), false, funs) == Some(Unary(op, b))
  {
    CanonicalShaped(b, funs);
    SplitUnary(op, b);
    var t := Yield(Unary(op, b));
    assert t[1..] == Yield(b);
    hide Find;
  }

  lemma YieldParen(b: Expr, funs: Functions)
    requires Canonical(b, funs)
    ensures |Yield(b)| < |Yield(Paren(b))|
    ensures Parse(Yield(b), false, funs) == Some(b) ==> Parse(Yield(Paren(b)), false, funs) == Some(Paren(b))
  {
    CanonicalShaped(b, funs);
    SplitParen(b);
    var t := Yield(Paren(b));
    assert t[1..|t| - 1] == Yield(b);
    hide Find;
  }

  /** A split of a spelled-out infix tree, given that its parts are parsed back. */
  lemma ParseInfix(t: Tokens, a: Tokens, op: Op, b: Tokens, l: Expr, r: Expr, funs: Functions)
    requires t == a + [Oper(op)] + b && a != [] && b != []
    requires (Infix(op) || op == Comma) && 0 <= Level(op) && Find(t, 0, false) == Found(Level(op), |a|)
    requires Parse(a, false, funs) == Some(l) && Parse(b, false, funs) == Some(r)
    ensures Parse(t, false, funs) == Some(if op == Comma then Commas(r, l) else Binary(op, l, r))
  {
    hide Find, Parse;
    Slices(a, [Oper(op)], b);
    assert t[|a|] == Oper(op) && t[..|a|] == a && t[|a| + 1..] == b;
    ParseSplits(t, Level(op), |a|, funs);
  }

  lemma ParseSplits(t: Tokens, k: nat, x: nat, funs: Functions)
    requires |t| > 1 && Find(t, 0, false) == Found(k, x)
    ensures x < |t| && t[x].Oper? && Parse(t, false, funs) == ParseAt(t, x, false, funs)
  {
    hide ParseAt;
  }

  lemma YieldInfix(l: Expr, op: Op, r: Expr, e: Expr, funs: Functions)
    requires Canonical(e, funs) && (Infix(op) || op == Comma)
    requires e == if op == Comma then Commas(r, l) else Binary(op, l, r)
    ensures |Yield(l)| < |Yield(e)| && |Yield(r)| < |Yield(e)|
    ensures Parse(Yield(l), false, funs) == Some(l) && Parse(Yield(r), false, funs) == Some(r) ==>
      Parse(Yield(e), false, funs) == Some(e)
  {
    CanonicalShaped(e, funs);
    hide Yield, Find, Parse, Shows, Starts, NoneBelow;
    CommaLevel(l, r);
    SplitInfix(l, op, r, e);
    Grouped([], e);
    EmptyFront(Yield(e));
    EmptyFront(Yield(l));
    if Parse(Yield(l), false, funs) == Some(l) && Parse(Yield(r), false, funs) == Some(r) {
      ParseInfix(Yield(e), Yield(l), op, Yield(r), l, r, funs);
    }
  }

  /** At the loosest level there is nothing looser to show. */
  lemma CommaLevel(l: Expr, r: Expr)
    ensures NoneBelow(l, 0) && (!Shows(r, 0) ==> NoneBelow(r, 1))
  {
  }

  lemma ParseIndex(t: Tokens, a: Tokens, b: Tokens, l: Expr, r: Expr, funs: Functions)
    requires t == a + [Oper(LBracket)] + b + [Oper(RBracket)] && a != [] && b != []
    requires Find(t, 0, false) == Found(8, |a|)
    requires Parse(a, false, funs) == Some(l) && Parse(b, false, funs) == Some(r)
    ensures Parse(t, false, funs) == Some(Index(l, r))
  {
    hide Find, Parse;
    Slices(a + [Oper(LBracket)], b, [Oper(RBracket)]);
    assert t[|a|] == Oper(LBracket) && t[..|a|] == a && t[|a| + 1..|t| - 1] == b;
    ParseSplits(t, 8, |a|, funs);
  }

  lemma YieldIndex(l: Expr, r: Expr, funs: Functions)
    requires Canonical(Index(l, r), funs)
    ensures |Yield(l)| < |Yield(Index(l, r))| && |Yield(r)| < |Yield(Index(l, r))|
    ensures Parse(Yield(l), false, funs) == Some(l) && Parse(Yield(r), false, funs) == Some(r) ==>
      Parse(Yield(Index(l, r)), false, funs) == Some(Index(l, r))
  {
    CanonicalShaped(Index(l, r), funs);
    hide Yield, Find, Parse, Shows, Starts, NoneBelow;
    SplitIndex(l, r);
    Grouped([], Index(l, r));
    EmptyFront(Yield(Index(l, r)));
    EmptyFront(Yield(l));
    if Parse(Yield(l), false, funs) == Some(l) && Parse(Yield(r), false, funs) == Some(r) {
      ParseIndex(Yield(Index(l, r)), Yield(l), Yield(r), l, r, funs);
    }
  }

  lemma YieldCall(name: string, args: seq<Expr>, funs: Functions)
    requires Canonical(Call(name, args), funs)
    requires Yield(Chain(args)) == Join(args) && Arguments(Chain(args)) == args
    ensures |Join(args)| < |Yield(Call(name, args))|
    ensures Parse(Join(args), false, funs) == Some(Chain(args)) ==>
      Parse(Yield(Call(name, args)), false, funs) == Some(Call(name, args))
  {
    CanonicalShaped(Call(name, args), funs);
    SplitCall(name, args);
    var t := Yield(Call(name, args));
    assert t[2..|t| - 1] == Join(args);
    hide Find, Join, Arguments, Chain;
  }

  // ----- what is parsed was spelled out, by a canonical tree

  /** `#` is an operator of the parser that the lexer never makes. */
  ghost predicate Lexed(t: Tokens) {
    forall i :: 0 <= i < |t| ==> t[i] != Oper(Number)
  }

  /** What the scans of a list say of the tree behind a first part of it. */
  lemma RightQuiet(t: Tokens, a: Tokens, r: Expr, k: nat)
    requires t == a + Yield(r) && a != [] && Shaped(r) && k < LEVELS
    requires forall j :: 0 <= j < k ==> Scan(t, j, false) == Nothing
    requires Scan(t, k, false).Hit? ==> Scan(t, k, false).x < |a|
    ensures NoneBelow(r, k + 1)
    ensures forall j :: 0 <= j <= k ==> Scan(t, j, false) == Scan(a, j, false)
  {
    hide Scan, Yield, Shows, Starts, Shaped;
    forall j | 0 <= j <= k
      ensures !Shows(r, j) && Scan(t, j, false) == Scan(a, j, false)
    {
      ScanOver(a, r, j);
    }
  }

  lemma LeftQuiet(l: Expr, k: nat)
    requires Shaped(l) && forall j :: 0 <= j < k ==> Scan(Yield(l), j, false) == Nothing
    ensures Quiet(l, k)
  {
    hide Scan, Yield, Shows, Starts, Shaped;
    EmptyFront(Yield(l));
    forall j | 0 <= j < k
      ensures !Shows(l, j) && !Starts(l, j)
    {
      ScanOver([], l, j);
      ScanEmpty(j);
    }
  }

  lemma QuietFacts(e: Expr, k: int)
    requires Quiet(e, k)
    ensures NoneBelow(e, k) && (k == 8 ==> !Starts(e, 7))
  {
    hide Shows, Starts;
    assert k == 8 ==> !Shows(e, 7) && !Starts(e, 7);
  }

  lemma SnocQuiet(a: Tokens, op: Op, k: nat)
    requires Level(op) == k && op != RParen && op != RBracket && forall j :: 0 <= j < k ==> Scan(a + [Oper(op)], j, false) == Nothing
    ensures forall j :: 0 <= j < k ==> Scan(a, j, false) == Nothing
  {
    hide Scan;
    forall j | 0 <= j < k
      ensures Scan(a, j, false) == Nothing
    {
      ScanSnoc(a, Oper(op), j);
    }
  }

  lemma SoundInfix(t: Tokens, l: Expr, op: Op, r: Expr, e: Expr, funs: Functions)
    requires (Infix(op) || op == Comma) && 0 <= Level(op) && e == if op == Comma then Commas(r, l) else Binary(op, l, r)
    requires Canonical(l, funs) && Canonical(r, funs) && t == Yield(l) + [Oper(op)] + Yield(r)
    requires Find(t, 0, false) == Found(Level(op), |Yield(l)|)
    ensures Canonical(e, funs) && Yield(e) == t
  {
    QuietParts(t, l, op, r, funs);
    hide Scan, Find, Shows, Starts, Yield, NoneBelow;
    QuietFacts(l, Level(op));
    Grouped([], e);
    EmptyFront(Yield(e));
    EmptyFront(Yield(l));
    RightComma(r);
  }

  lemma RightComma(r: Expr)
    ensures NoneBelow(r, 1) ==> !Shows(r, 0)
  {
  }

  lemma QuietParts(t: Tokens, l: Expr, op: Op, r: Expr, funs: Functions)
    requires (Infix(op) || op == Comma) && 0 <= Level(op)
    requires Canonical(l, funs) && Canonical(r, funs) && t == Yield(l) + [Oper(op)] + Yield(r)
    requires Find(t, 0, false) == Found(Level(op), |Yield(l)|)
    ensures NoneBelow(r, Level(op) + 1) && Quiet(l, Level(op))
  {
    hide Scan, Find, Shows, Starts, Shaped, Quiet, Yield, Canonical, NoneBelow;
    FindFacts(t, 0);
    CanonicalShaped(l, funs);
    CanonicalShaped(r, funs);
    RightQuiet(t, Yield(l) + [Oper(op)], r, Level(op));
    SnocQuiet(Yield(l), op, Level(op));
    LeftQuiet(l, Level(op));
  }

  lemma SoundIndex(t: Tokens, l: Expr, r: Expr, funs: Functions)
    requires Canonical(l, funs) && Canonical(r, funs)
    requires t == Yield(l) + [Oper(LBracket)] + Yield(r) + [Oper(RBracket)] && Find(t, 0, false) == Found(8, |Yield(l)|)
    ensures Canonical(Index(l, r), funs) && Yield(Index(l, r)) == t
  {
    QuietIndexed(t, l, r, funs);
    hide Scan, Find, Shows, Starts, Yield, NoneBelow;
    QuietFacts(l, 8);
    Grouped([], Index(l, r));
    EmptyFront(Yield(Index(l, r)));
    EmptyFront(Yield(l));
  }

  lemma QuietIndexed(t: Tokens, l: Expr, r: Expr, funs: Functions)
    requires Canonical(l, funs) && Canonical(r, funs)
    requires t == Yield(l) + [Oper(LBracket)] + Yield(r) + [Oper(RBracket)] && Find(t, 0, false) == Found(8, |Yield(l)|)
    ensures Quiet(l, 8)
  {
    hide Scan, Find, Shows, Starts, Shaped, Quiet, Open, Yield, Canonical;
    FindFacts(t, 0);
    CanonicalShaped(l, funs);
    CanonicalShaped(r, funs);
    var a := Yield(l) + [Oper(LBracket)];
    OpenOver(a, r, 1, LBracket, RBracket);
    forall j | 0 <= j < 8
      ensures Scan(a, j, false) == Nothing
    {
      ScanBrackets(Yield(l), Yield(r), j);
    }
    SnocQuiet(Yield(l), LBracket, 8);
    LeftQuiet(l, 8);
  }

  lemma SoundUnary(t: Tokens, op: Op, b: Expr, funs: Functions)
    requires (op == Not || op == Exists) && Canonical(b, funs) && t == [Oper(op)] + Yield(b)
    requires Find(t, 0, false) == Found(7, 0)
    ensures Canonical(Unary(op, b), funs) && Yield(Unary(op, b)) == t
  {
    QuietBody(t, op, b, funs);
    hide Scan, Find, Shows, Starts, NoneBelow;
    NoneBelowLess(b, 8, 7);
  }

  lemma NoneBelowLess(e: Expr, k: int, j: int)
    requires NoneBelow(e, k) && j <= k
    ensures NoneBelow(e, j)
  {
  }

  lemma QuietBody(t: Tokens, op: Op, b: Expr, funs: Functions)
    requires (op == Not || op == Exists) && Canonical(b, funs) && t == [Oper(op)] + Yield(b)
    requires Find(t, 0, false) == Found(7, 0)
    ensures NoneBelow(b, 8)
  {
    hide Scan, Find, Shows, Starts, Shaped, Yield, Canonical, NoneBelow;
    FindFacts(t, 0);
    CanonicalShaped(b, funs);
    RightQuiet(t, [Oper(op)], b, 7);
  }

  /** A list that starts with a prefix operator, over a tree, has an operator for the parser to
      find. */
  lemma PrefixFound(t: Tokens, b: Expr)
    requires t != [] && (t[0] == Oper(Not) || t[0] == Oper(Exists) || t[0] == Oper(LParen))
    requires Shaped(b) && t == [t[0]] + Yield(b)
    ensures Find(t, 0, false) != NotFound
  {
    var k := Level(t[0].op);
    FindFacts(t, 0);
    hide Scan, Find, Shows, Starts, Shaped;
    ScanOver([t[0]], b, k);
    EmptyFront([t[0]]);
    ScanSnoc([], t[0], k);
  }

  lemma SoundCall(t: Tokens, e: Expr, funs: Functions)
    requires |t| >= 3 && t[0].Arg? && t[0].kind == VarArg && t[1] == Oper(LParen) && LastOf(t) == Oper(RParen)
    requires t[0].text in funs && |Arguments(e)| == funs[t[0].text]
    requires Canonical(e, funs) && Yield(e) == t[2..|t| - 1]
    ensures Canonical(Call(t[0].text, Arguments(e)), funs) && Yield(Call(t[0].text, Arguments(e))) == t
  {
    ArgumentsFacts(e, funs);
    assert t == [t[0], Oper(LParen)] + t[2..|t| - 1] + [Oper(RParen)];
    hide Arguments, Join, Shows, Starts;
  }

  lemma {:induction false} ArgumentsFacts(e: Expr, funs: Functions)
    requires Canonical(e, funs)
    ensures Join(Arguments(e)) == Yield(e)
    ensures forall i {:trigger Arguments(e)[i]} :: 0 <= i < |Arguments(e)| ==>
      Canonical(Arguments(e)[i], funs) && !Shows(Arguments(e)[i], 0)
    decreases e
  {
    hide Shows, Starts, NoneBelow;
    if e.Commas? {
      ArgumentsFacts(e.previous, funs);
      JoinSnoc(Arguments(e.previous), e.last);
    } else {
      CanonicalNoComma(e, funs);
    }
  }

  lemma JoinSnoc(init: seq<Expr>, last: Expr)
    requires init != []
    ensures Join(init + [last]) == Join(init) + [Oper(Comma)] + Yield(last)
  {
    var args := init + [last];
    assert args[..|args| - 1] == init;
  }

  // ----- the main results

  /** What is parsed is a canonical tree whose tokens, in order, are the list. */
  lemma {:induction false} ParseSound(t: Tokens, funs: Functions)
    requires Lexed(t) && Parse(t, false, funs).Some?
    ensures var e := Parse(t, false, funs).value; Canonical(e, funs) && Yield(e) == t
    decreases |t|, 1
  {
    if |t| == 1 {
      assert t == [t[0]];
    } else {
      match Find(t, 0, false)
      case Found(_, x) => ParseAtSound(t, x, funs);
      case NotFound => ParseWholeSound(t, funs);
    }
  }

  lemma {:induction false} ParseAtSound(t: Tokens, x: nat, funs: Functions)
    requires Lexed(t) && |t| > 1 && Find(t, 0, false).Found? && Find(t, 0, false).x == x
    requires ParseAt(t, x, false, funs).Some?
    ensures var e := ParseAt(t, x, false, funs).value; Canonical(e, funs) && Yield(e) == t
    decreases |t|, 0
  {
    hide *;
    FoundOp(t);
    ParseAtCases(t, x, funs);
    var op, n := t[x].op, |t|;
    if op == LParen {
      var body := Parse(t[1..n - 1], false, funs).value;
      ParseSound(t[1..n - 1], funs);
      SoundParen(body, funs);
    } else if op == Not || op == Exists {
      ParseSound(t[1..], funs);
      SoundUnary(t, op, Parse(t[1..], false, funs).value, funs);
    } else if op == LBracket {
      ParseSound(t[..x], funs);
      ParseSound(t[x + 1..n - 1], funs);
      SoundIndex(t, Parse(t[..x], false, funs).value, Parse(t[x + 1..n - 1], false, funs).value, funs);
    } else {
      ParseSound(t[..x], funs);
      ParseSound(t[x + 1..], funs);
      SoundInfix(t, Parse(t[..x], false, funs).value, op, Parse(t[x + 1..], false, funs).value,
                 ParseAt(t, x, false, funs).value, funs);
    }
  }

  lemma FoundOp(t: Tokens)
    requires Find(t, 0, false).Found?
    ensures var f := Find(t, 0, false);
            && f.x < |t| && t[f.x].Oper? && Level(t[f.x].op) == f.k && 0 <= f.k
            && (t[f.x].op == Not || t[f.x].op == Exists ==> f.k == 7) && (t[f.x].op == LBracket ==> f.k == 8)
  {
  }

  /** The ways a split succeeds: the parts, that they make up the list, and what is built. */
  lemma ParseAtCases(t: Tokens, x: nat, funs: Functions)
    requires Lexed(t) && |t| > 1 && x < |t| && t[x].Oper? && 0 <= Level(t[x].op) && ParseAt(t, x, false, funs).Some?
    ensures var op, n, e := t[x].op, |t|, ParseAt(t, x, false, funs).value;
            && (op == LParen ==>
                  && Lexed(t[1..n - 1]) && t == [Oper(LParen)] + t[1..n - 1] + [Oper(RParen)]
                  && Parse(t[1..n - 1], false, funs).Some? && e == Paren(Parse(t[1..n - 1], false, funs).value))
            && (op == Not || op == Exists ==>
                  && x == 0 && Lexed(t[1..]) && t == [Oper(op)] + t[1..]
                  && Parse(t[1..], false, funs).Some? && e == Unary(op, Parse(t[1..], false, funs).value))
            && (op == LBracket ==>
                  && x < n - 1 && Lexed(t[..x]) && Lexed(t[x + 1..n - 1])
                  && t == t[..x] + [Oper(LBracket)] + t[x + 1..n - 1] + [Oper(RBracket)]
                  && Parse(t[..x], false, funs).Some? && Parse(t[x + 1..n - 1], false, funs).Some?
                  && e == Index(Parse(t[..x], false, funs).value, Parse(t[x + 1..n - 1], false, funs).value))
            && (op != LParen && op != Not && op != Exists && op != LBracket ==>
                  && (Infix(op) || op == Comma) && Lexed(t[..x]) && Lexed(t[x + 1..])
                  && t == t[..x] + [Oper(op)] + t[x + 1..]
                  && Parse(t[..x], false, funs).Some? && Parse(t[x + 1..], false, funs).Some?
                  && var l, r := Parse(t[..x], false, funs).value, Parse(t[x + 1..], false, funs).value;
                     e == if op == Comma then Commas(r, l) else Binary(op, l, r))
  {
    hide Parse;
    var n := |t|;
    assert t[x] != Oper(Number);
    assert t == t[..x] + [t[x]] + t[x + 1..];
    if x < n - 1 {
      assert t[x + 1..] == t[x + 1..n - 1] + [t[n - 1]];
      assert t == t[..x] + [t[x]] + t[x + 1..n - 1] + [t[n - 1]];
    }
    assert x == 0 ==> t[..x] == [] && [] + [t[0]] == [t[0]];
  }

  lemma SoundParen(b: Expr, funs: Functions)
    requires Canonical(b, funs)
    ensures Canonical(Paren(b), funs) && Yield(Paren(b)) == [Oper(LParen)] + Yield(b) + [Oper(RParen)]
  {
  }

  lemma {:induction false} ParseWholeSound(t: Tokens, funs: Functions)
    requires Lexed(t) && |t| > 1 && Find(t, 0, false) == NotFound && ParseWhole(t, false, funs).Some?
    ensures var e := ParseWhole(t, false, funs).value; Canonical(e, funs) && Yield(e) == t
    decreases |t|, 0
  {
    var n := |t|;
    hide Find, Canonical, Yield;
    if t[0].Oper? && IsUnary(t[0].op) {
      assert t[0] != Oper(Number);
      assert t == [t[0]] + t[1..];
      if IsOp(t[1], LParen) && IsOp(t[n - 1], RParen) {
        var b := Parse(t[2..n - 1], false, funs).value;
        ParseSound(t[2..n - 1], funs);
        SoundParen(b, funs);
        assert t[1..] == [t[1]] + t[2..n - 1] + [t[n - 1]];
        CanonicalShaped(Paren(b), funs);
        PrefixFound(t, Paren(b));
      } else {
        var b := Parse(t[1..], false, funs).value;
        ParseSound(t[1..], funs);
        CanonicalShaped(b, funs);
        PrefixFound(t, b);
      }
      assert false;
    } else {
      ParseSound(t[2..n - 1], funs);
      SoundCall(t, Parse(t[2..n - 1], false, funs).value, funs);
    }
  }

  /** A list of tokens is parsed to a tree exactly when the tree is canonical and spelled by the
      list. */
  lemma ParseIffYield(t: Tokens, e: Expr, funs: Functions)
    requires Lexed(t)
    ensures Parse(t, false, funs) == Some(e) <==> Canonical(e, funs) && Yield(e) == t
  {
    if Parse(t, false, funs) == Some(e) {
      ParseSound(t, funs);
    }
    if Canonical(e, funs) && Yield(e) == t {
      ParseYield(e, funs);
    }
  }

  /** The level of the operator a tree is rooted at; whatever is closed or prefixed binds
      tightest. */
  function RootLevel(e: Expr): int {
    match e
    case Binary(op, _, _) => Level(op)
    case Index(_, _) => 8
    case Commas(_, _) => 0
    case _ => LEVELS
  }

  /** At no node is an operand rooted at a looser operator, or a right operand at one of the same
      level: operators of one level associate to the left. */
  ghost predicate Ordered(e: Expr)
    decreases e
  {
    match e
    case Leaf(_) => true
    case Unary(_, b) => Ordered(b)
    case Paren(b) => Ordered(b)
    case Binary(op, l, r) => Ordered(l) && Ordered(r) && RootLevel(l) >= Level(op) && RootLevel(r) > Level(op)
    case Index(l, r) => Ordered(l) && Ordered(r) && RootLevel(l) >= 8
    case Commas(last, previous) => Ordered(last) && Ordered(previous) && RootLevel(last) > 0
    case Call(_, args) => forall i :: 0 <= i < |args| ==> Ordered(args[i]) && RootLevel(args[i]) > 0
  }

  lemma {:induction false} CanonicalOrdered(e: Expr, funs: Functions)
    requires Canonical(e, funs)
    ensures Ordered(e) && 0 <= RootLevel(e)
    decreases e
  {
    hide Shows, Starts;
    match e
    case Leaf(_) =>
    case Unary(_, b) => CanonicalOrdered(b, funs);
    case Paren(b) => CanonicalOrdered(b, funs);
    case Binary(op, l, r) =>
      InfixLevel(op);
      CanonicalOrdered(l, funs);
      CanonicalOrdered(r, funs);
      RootShows(l);
      RootShows(r);
    case Index(l, r) =>
      CanonicalOrdered(l, funs);
      CanonicalOrdered(r, funs);
      RootShows(l);
    case Commas(last, previous) =>
      CanonicalOrdered(last, funs);
      CanonicalOrdered(previous, funs);
      RootShows(last);
    case Call(_, args) =>
      forall i | 0 <= i < |args|
        ensures Ordered(args[i]) && RootLevel(args[i]) > 0
      {
        CanonicalOrdered(args[i], funs);
        RootShows(args[i]);
      }
  }

  lemma Precedence(t: Tokens, funs: Functions)
    requires Lexed(t) && Parse(t, false, funs).Some?
    ensures Ordered(Parse(t, false, funs).value)
  {
    ParseSound(t, funs);
    CanonicalOrdered(Parse(t, false, funs).value, funs);
  }

  lemma RootShows(e: Expr)
    ensures RootLevel(e) < LEVELS ==> Shows(e, RootLevel(e))
  {
  }

  /** Were `#` lexed as an operator, the parentheses behind it would be lost. */
  lemma NumberDropsParentheses(a: Token, funs: Functions)
    requires a.Arg?
    ensures var t := [Oper(Number), Oper(LParen), a, Oper(RParen)];
            Parse(t, false, funs) == Some(Unary(Number, Leaf(a))) && Yield(Unary(Number, Leaf(a))) != t
  {
    var t := [Oper(Number), Oper(LParen), a, Oper(RParen)];
    var p := [Oper(Number), Oper(LParen)];
    forall k: nat | k < LEVELS
      ensures Scan(t, k, false) == Nothing
    {
      assert t == p + [a] + [Oper(RParen)];
      OpenSnoc(p, a, 1, LParen, RParen);
      assert p == [Oper(Number)] + [Oper(LParen)];
      OpenSnoc([Oper(Number)], Oper(LParen), 1, LParen, RParen);
      ScanClosed(p + [a], [Oper(Number)], k, LParen, RParen);
      ScanSnoc([Oper(Number)], Oper(LParen), k);
      assert [] + [Oper(Number)] == [Oper(Number)];
      ScanSnoc([], Oper(Number), k);
      ScanEmpty(k);
    }
    hide Scan;
    FindSkips(t, 0, LEVELS);
    assert Find(t, LEVELS, false) == NotFound;
    assert t[2..3] == [a] && Parse([a], false, funs) == Some(Leaf(a));
    assert |Yield(Unary(Number, Leaf(a)))| == 2;
  }
}

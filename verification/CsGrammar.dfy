/** What the expression parser accepts: a token list is parsed to a tree exactly when the tree
    obeys the precedence rules and is spelled by the tokens, in order. */
module CsGrammar {
  import opened Wrappers
  import opened CsExpr

  /** The tokens of a tree, in order. */
  function Yield(e: Expr): (t: Tokens)
    ensures t != []
    decreases e, 0
  {
    match e
    case Leaf(a) => [a]
    case Unary(op, b) => [Oper(op)] + Yield(b)
    case Paren(b) => [Oper(LParen)] + Yield(b) + [Oper(RParen)]
    case Binary(op, l, r) => Yield(l) + [Oper(op)] + Yield(r)
    case Index(l, r) => Yield(l) + [Oper(LBracket)] + Yield(r) + [Oper(RBracket)]
    case Commas(last, previous) => Yield(previous) + [Oper(Comma)] + Yield(last)
    case Call(name, args) => [Arg(VarArg, name), Oper(LParen)] + Join(args) + [Oper(RParen)]
  }

  function Join(args: seq<Expr>): (t: Tokens)
    ensures args != [] ==> t != []
    decreases args, 1
  {
    if args == [] then []
    else if |args| == 1 then Yield(args[0])
    else Join(args[..|args| - 1]) + [Oper(Comma)] + Yield(args[|args| - 1])
  }

  /** An operator between two operands. */
  predicate Infix(op: Op) {
    !IsUnary(op) && op != Comma && op != LBracket && op != RParen && op != RBracket
  }

  /** The operators are where operators of their kind can be. */
  ghost predicate Shaped(e: Expr)
    decreases e
  {
    match e
    case Leaf(a) => a.Arg?
    case Unary(op, b) => (op == Not || op == Exists) && Shaped(b)
    case Paren(b) => Shaped(b)
    case Binary(op, l, r) => Infix(op) && Shaped(l) && Shaped(r)
    case Index(l, r) => Shaped(l) && Shaped(r)
    case Commas(last, previous) => Shaped(last) && Shaped(previous)
    case Call(_, args) => args != [] && forall i :: 0 <= i < |args| ==> Shaped(args[i])
  }

  /** An operator of level k is visible from outside: not inside parentheses, brackets or the
      arguments of a call. */
  predicate Shows(e: Expr, k: int) {
    match e
    case Leaf(_) => false
    case Unary(_, b) => Shows(b, k)
    case Paren(_) => false
    case Binary(op, l, r) => Level(op) == k || Shows(l, k) || Shows(r, k)
    case Index(l, _) => k == 8 || Shows(l, k)
    case Commas(last, previous) => k == 0 || Shows(last, k) || Shows(previous, k)
    case Call(_, _) => false
  }

  /** The tree's first token is a prefix operator of level k. */
  predicate Starts(e: Expr, k: int) {
    var t := Yield(e)[0];
    InLevel(t, k) && IsUnary(t.op)
  }

  predicate Marks(open: Op, close: Op) {
    (open == LParen && close == RParen) || (open == LBracket && close == RBracket)
  }

  // ----- one token at a time

  lemma Snoc(p: Tokens, t: Token)
    ensures p + [t] != [] && LastOf(p + [t]) == t && InitOf(p + [t]) == p
  {
  }

  lemma OpenSnoc(p: Tokens, t: Token, m: nat, open: Op, close: Op)
    requires m > 0 && Marks(open, close)
    ensures t == Oper(close) ==> Open(p + [t], m, open, close) == Open(p, m + 1, open, close)
    ensures t == Oper(open) ==> Open(p + [t], m, open, close) == if m == 1 then Some(p + [t]) else Open(p, m - 1, open, close)
    ensures t != Oper(open) && t != Oper(close) ==> Open(p + [t], m, open, close) == Open(p, m, open, close)
  {
    Snoc(p, t);
  }

  lemma ScanSnoc(p: Tokens, t: Token, k: int)
    requires t != Oper(RParen) && t != Oper(RBracket)
    ensures Scan(p + [t], k, false) ==
      if InLevel(t, k) && (!IsUnary(t.op) || p == []) then Hit(|p|) else Scan(p, k, false)
  {
    Snoc(p, t);
  }

  /** A closing mark is passed by going to its opening mark q + [open]. */
  lemma ScanClosed(p: Tokens, q: Tokens, k: int, open: Op, close: Op)
    requires Marks(open, close) && Open(p, 1, open, close) == Some(q + [Oper(open)])
    requires open == LParen || q != []
    ensures Scan(p + [Oper(close)], k, false) == Scan(q + [Oper(open)], k, false)
  {
    Snoc(p, Oper(close));
    Snoc(q, Oper(open));
  }

  /** The yield of a tree behind a, grouped to the left. */
  lemma Grouped(a: Tokens, e: Expr)
    ensures e.Leaf? ==> Yield(e) == [e.arg]
    ensures e.Unary? ==> a + Yield(e) == a + [Oper(e.op)] + Yield(e.body)
    ensures e.Paren? ==> a + Yield(e) == a + [Oper(LParen)] + Yield(e.body) + [Oper(RParen)]
    ensures e.Binary? ==> a + Yield(e) == a + Yield(e.left) + [Oper(e.op)] + Yield(e.right)
    ensures e.Index? ==> a + Yield(e) == a + Yield(e.left) + [Oper(LBracket)] + Yield(e.right) + [Oper(RBracket)]
    ensures e.Commas? ==> a + Yield(e) == a + Yield(e.previous) + [Oper(Comma)] + Yield(e.last)
    ensures e.Call? ==> a + Yield(e) == a + [Arg(VarArg, e.name)] + [Oper(LParen)] + Join(e.args) + [Oper(RParen)]
  {
    match e
    case Leaf(_) =>
    case Unary(op, b) =>
      assert a + ([Oper(op)] + Yield(b)) == a + [Oper(op)] + Yield(b);
    case Paren(b) =>
      Four(a, [Oper(LParen)], Yield(b), [Oper(RParen)]);
    case Binary(op, l, r) =>
      Four(a, Yield(l), [Oper(op)], Yield(r));
    case Index(l, r) =>
      Four(a, Yield(l) + [Oper(LBracket)], Yield(r), [Oper(RBracket)]);
      assert a + (Yield(l) + [Oper(LBracket)]) == a + Yield(l) + [Oper(LBracket)];
    case Commas(last, previous) =>
      Four(a, Yield(previous), [Oper(Comma)], Yield(last));
    case Call(name, args) =>
      var f := Arg(VarArg, name);
      Four(a, [f, Oper(LParen)], Join(args), [Oper(RParen)]);
      assert a + [f, Oper(LParen)] == a + [f] + [Oper(LParen)];
  }

  lemma Four(a: Tokens, b: Tokens, c: Tokens, d: Tokens)
    ensures a + (b + c + d) == a + b + c + d
  {
  }

  // ----- a tree is passed over as a whole

  lemma {:induction false} OpenOver(a: Tokens, e: Expr, m: nat, open: Op, close: Op)
    requires Shaped(e) && m > 0 && Marks(open, close)
    ensures Open(a + Yield(e), m, open, close) == Open(a, m, open, close)
    decreases e, 0
  {
    hide Open, Yield;
    Grouped(a, e);
    match e
    case Leaf(t) =>
      OpenSnoc(a, t, m, open, close);
    case Unary(op, b) =>
      OpenOver(a + [Oper(op)], b, m, open, close);
      OpenSnoc(a, Oper(op), m, open, close);
    case Paren(b) =>
      OpenOver(a + [Oper(LParen)], b, m, open, close);
      OpenOver(a + [Oper(LParen)], b, m + 1, open, close);
      OpenOverBlock(a, Yield(b), LParen, RParen, m, open, close);
    case Binary(op, l, r) =>
      OpenOver(a + Yield(l) + [Oper(op)], r, m, open, close);
      OpenSnoc(a + Yield(l), Oper(op), m, open, close);
      OpenOver(a, l, m, open, close);
    case Commas(last, previous) =>
      OpenOver(a + Yield(previous) + [Oper(Comma)], last, m, open, close);
      OpenSnoc(a + Yield(previous), Oper(Comma), m, open, close);
      OpenOver(a, previous, m, open, close);
    case Index(l, r) =>
      OpenOver(a + Yield(l) + [Oper(LBracket)], r, m, open, close);
      OpenOver(a + Yield(l) + [Oper(LBracket)], r, m + 1, open, close);
      OpenOverBlock(a + Yield(l), Yield(r), LBracket, RBracket, m, open, close);
      OpenOver(a, l, m, open, close);
    case Call(name, args) =>
      var f := Arg(VarArg, name);
      OpenOverJoin(a + [f] + [Oper(LParen)], args, m, open, close);
      OpenOverJoin(a + [f] + [Oper(LParen)], args, m + 1, open, close);
      OpenOverBlock(a + [f], Join(args), LParen, RParen, m, open, close);
      OpenSnoc(a, f, m, open, close);
  }

  lemma OpenOverBlock(a: Tokens, body: Tokens, o: Op, c: Op, m: nat, open: Op, close: Op)
    requires m > 0 && Marks(open, close) && Marks(o, c)
    requires Open(a + [Oper(o)] + body, m, open, close) == Open(a + [Oper(o)], m, open, close)
    requires Open(a + [Oper(o)] + body, m + 1, open, close) == Open(a + [Oper(o)], m + 1, open, close)
    ensures Open(a + [Oper(o)] + body + [Oper(c)], m, open, close) == Open(a, m, open, close)
  {
    hide Open;
    OpenSnoc(a + [Oper(o)] + body, Oper(c), m, open, close);
    OpenSnoc(a, Oper(o), m, open, close);
    OpenSnoc(a, Oper(o), m + 1, open, close);
  }

  lemma {:induction false} OpenOverJoin(a: Tokens, args: seq<Expr>, m: nat, open: Op, close: Op)
    requires m > 0 && Marks(open, close) && forall i :: 0 <= i < |args| ==> Shaped(args[i])
    ensures Open(a + Join(args), m, open, close) == Open(a, m, open, close)
    decreases args, 1
  {
    hide Open;
    if args == [] {
      assert a + [] == a;
    } else if |args| == 1 {
      OpenOver(a, args[0], m, open, close);
    } else {
      var init, last := args[..|args| - 1], args[|args| - 1];
      assert a + Join(args) == (a + Join(init) + [Oper(Comma)]) + Yield(last);
      OpenOver(a + Join(init) + [Oper(Comma)], last, m, open, close);
      OpenSnoc(a + Join(init), Oper(Comma), m, open, close);
      OpenOverJoin(a, init, m, open, close);
    }
  }

  /** A scan passes over a tree as a whole, unless the tree shows an operator of the level, or
      starts the list with a prefix operator of it. */
  ghost predicate Passed(a: Tokens, e: Expr, k: int) {
    var s := Scan(a + Yield(e), k, false);
    if Shows(e, k) then s.Hit? && s.x >= |a|
    else if a == [] && Starts(e, k) then s == Hit(0)
    else s == Scan(a, k, false)
  }

  lemma {:induction false} ScanOver(a: Tokens, e: Expr, k: int)
    requires Shaped(e) && 0 <= k
    ensures Passed(a, e, k)
    decreases e
  {
    hide Open, Yield, Scan, Passed, Shows, Starts;
    match e
    case Leaf(t) =>
      PassedLeaf(a, t, k);
    case Unary(op, b) =>
      ScanOver(a + [Oper(op)], b, k);
      PassedUnary(a, op, b, k);
    case Paren(b) =>
      OpenOver(a + [Oper(LParen)], b, 1, LParen, RParen);
      PassedParen(a, b, k);
    case Binary(op, l, r) =>
      ScanOver(a + Yield(l) + [Oper(op)], r, k);
      ScanOver(a, l, k);
      PassedInfix(a, l, op, r, e, k);
    case Commas(last, previous) =>
      ScanOver(a + Yield(previous) + [Oper(Comma)], last, k);
      ScanOver(a, previous, k);
      PassedInfix(a, previous, Comma, last, e, k);
    case Index(l, r) =>
      OpenOver(a + Yield(l) + [Oper(LBracket)], r, 1, LBracket, RBracket);
      ScanOver(a, l, k);
      PassedIndex(a, l, r, k);
    case Call(name, args) =>
      OpenOverJoin(a + [Arg(VarArg, name)] + [Oper(LParen)], args, 1, LParen, RParen);
      PassedCall(a, name, args, k);
  }

  lemma PassedLeaf(a: Tokens, t: Token, k: int)
    requires t.Arg?
    ensures Passed(a, Leaf(t), k)
  {
    hide Scan;
    ScanSnoc(a, t, k);
  }

  lemma PassedUnary(a: Tokens, op: Op, b: Expr, k: int)
    requires (op == Not || op == Exists) && Passed(a + [Oper(op)], b, k)
    ensures Passed(a, Unary(op, b), k)
  {
    hide Scan, Yield;
    Grouped(a, Unary(op, b));
    FirstToken(Unary(op, b));
    ScanSnoc(a, Oper(op), k);
  }

  lemma PassedParen(a: Tokens, b: Expr, k: int)
    requires Open(a + [Oper(LParen)] + Yield(b), 1, LParen, RParen) == Open(a + [Oper(LParen)], 1, LParen, RParen)
    ensures Passed(a, Paren(b), k)
  {
    hide Scan, Yield, Open;
    Grouped(a, Paren(b));
    FirstToken(Paren(b));
    ScanBlock(a, Yield(b), k);
    ScanSnoc(a, Oper(LParen), k);
  }

  lemma PassedInfix(a: Tokens, l: Expr, op: Op, r: Expr, e: Expr, k: int)
    requires Infix(op) || op == Comma
    requires e == if op == Comma then Commas(r, l) else Binary(op, l, r)
    requires 0 <= k && Passed(a + Yield(l) + [Oper(op)], r, k) && Passed(a, l, k)
    ensures Passed(a, e, k)
  {
    hide Scan, Yield;
    Grouped(a, e);
    FirstToken(e);
    ScanSnoc(a + Yield(l), Oper(op), k);
  }

  lemma PassedIndex(a: Tokens, l: Expr, r: Expr, k: int)
    requires Passed(a, l, k)
    requires Open(a + Yield(l) + [Oper(LBracket)] + Yield(r), 1, LBracket, RBracket)
          == Open(a + Yield(l) + [Oper(LBracket)], 1, LBracket, RBracket)
    ensures Passed(a, Index(l, r), k)
  {
    hide Scan, Yield, Open;
    Grouped(a, Index(l, r));
    FirstToken(Index(l, r));
    ScanBrackets(a + Yield(l), Yield(r), k);
    ScanSnoc(a + Yield(l), Oper(LBracket), k);
  }

  lemma PassedCall(a: Tokens, name: string, args: seq<Expr>, k: int)
    requires Open(a + [Arg(VarArg, name)] + [Oper(LParen)] + Join(args), 1, LParen, RParen)
          == Open(a + [Arg(VarArg, name)] + [Oper(LParen)], 1, LParen, RParen)
    ensures Passed(a, Call(name, args), k)
  {
    hide Scan, Yield, Open, Join;
    var f := Arg(VarArg, name);
    Grouped(a, Call(name, args));
    FirstToken(Call(name, args));
    ScanBlock(a + [f], Join(args), k);
    ScanSnoc(a + [f], Oper(LParen), k);
    ScanSnoc(a, f, k);
  }

  lemma EmptyFront(t: Tokens)
    ensures [] + t == t
  {
  }

  lemma FirstToken(e: Expr)
    ensures e.Leaf? ==> Yield(e)[0] == e.arg
    ensures e.Unary? ==> Yield(e)[0] == Oper(e.op)
    ensures e.Paren? ==> Yield(e)[0] == Oper(LParen)
    ensures e.Binary? ==> Yield(e)[0] == Yield(e.left)[0]
    ensures e.Index? ==> Yield(e)[0] == Yield(e.left)[0]
    ensures e.Commas? ==> Yield(e)[0] == Yield(e.previous)[0]
    ensures e.Call? ==> Yield(e)[0] == Arg(VarArg, e.name)
  {
  }

  lemma ScanBlock(a: Tokens, body: Tokens, k: int)
    requires Open(a + [Oper(LParen)] + body, 1, LParen, RParen) == Open(a + [Oper(LParen)], 1, LParen, RParen)
    ensures Scan(a + [Oper(LParen)] + body + [Oper(RParen)], k, false) == Scan(a + [Oper(LParen)], k, false)
  {
    hide Scan, Open;
    OpenSnoc(a, Oper(LParen), 1, LParen, RParen);
    ScanClosed(a + [Oper(LParen)] + body, a, k, LParen, RParen);
  }

  lemma ScanBrackets(a: Tokens, body: Tokens, k: int)
    requires a != []
    requires Open(a + [Oper(LBracket)] + body, 1, LBracket, RBracket) == Open(a + [Oper(LBracket)], 1, LBracket, RBracket)
    ensures Scan(a + [Oper(LBracket)] + body + [Oper(RBracket)], k, false) == Scan(a + [Oper(LBracket)], k, false)
  {
    hide Scan, Open;
    OpenSnoc(a, Oper(LBracket), 1, LBracket, RBracket);
    ScanClosed(a + [Oper(LBracket)] + body, a, k, LBracket, RBracket);
  }
}

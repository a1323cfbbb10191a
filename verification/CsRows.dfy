/** The table of operators, written out, and what it makes of two operators side by side. */
module CsRows {
  import opened Wrappers
  import opened CsExpr
  import opened CsGrammar
  import opened CsPrecedence

  /** `OperatorOrder`, loosest first. */
  const ROWS: seq<set<Op>> := [
    {Comma},
    {Or},
    {And},
    {Equal, NotEqual},
    {Gt, Gte, Lt, Lte},
    {Add, Sub},
    {Mult, Div, Mod},
    {Not, Exists},
    {LBracket, Dot, LParen}
  ]

  lemma RowOf(op: Op, i: nat)
    requires i < |ROWS| && op in ROWS[i]
    ensures Level(op) == i
  {
  }

  /** The operators that stand between two operands. */
  const BETWEEN: set<Op> :=
    {Or, And, Equal, NotEqual, Gt, Gte, Lt, Lte, Add, Sub, Mult, Div, Mod, Dot}

  lemma BetweenInfix(op: Op)
    requires op in BETWEEN
    ensures Infix(op) && Level(op) != 0 && Level(op) != 7
  {
  }

  // ----- small trees

  /** The tree spells t, can be built, and shows operators of the levels in shown only. */
  ghost predicate Small(e: Expr, t: Tokens, shown: set<int>, funs: Functions) {
    && Canonical(e, funs) && Yield(e) == t && (forall k: int :: Shows(e, k) ==> k in shown)
  }

  lemma SmallLeaf(a: Token, funs: Functions)
    requires a.Arg?
    ensures Small(Leaf(a), [a], {}, funs) && !Starts(Leaf(a), 7)
  {
  }

  lemma SmallBinary(l: Expr, t: Tokens, m: set<int>, op: Op, r: Expr, u: Tokens, n: set<int>, funs: Functions)
    requires Small(l, t, m, funs) && Small(r, u, n, funs) && Infix(op) && (Level(op) == 8 ==> !Starts(l, 7))
    requires (forall k :: k in m ==> k >= Level(op)) && (forall k :: k in n ==> k > Level(op))
    ensures Small(Binary(op, l, r), t + [Oper(op)] + u, {Level(op)} + m + n, funs)
    ensures !Starts(l, 7) ==> !Starts(Binary(op, l, r), 7)
  {
    hide Infix, Level;
    assert NoneBelow(l, Level(op)) && NoneBelow(r, Level(op) + 1);
    assert Yield(Binary(op, l, r))[0] == Yield(l)[0];
  }

  lemma SmallUnary(op: Op, b: Expr, t: Tokens, n: set<int>, funs: Functions)
    requires Small(b, t, n, funs) && (op == Not || op == Exists) && forall k :: k in n ==> k >= 7
    ensures Small(Unary(op, b), [Oper(op)] + t, n, funs)
  {
    assert NoneBelow(b, 7);
  }

  lemma SmallParen(b: Expr, t: Tokens, n: set<int>, funs: Functions)
    requires Small(b, t, n, funs)
    ensures Small(Paren(b), [Oper(LParen)] + t + [Oper(RParen)], {}, funs) && !Starts(Paren(b), 7)
  {
    assert Yield(Paren(b))[0] == Oper(LParen);
  }

  lemma SmallCommas(l: Expr, t: Tokens, m: set<int>, r: Expr, u: Tokens, n: set<int>, funs: Functions)
    requires Small(l, t, m, funs) && Small(r, u, n, funs) && 0 !in n
    ensures Small(Commas(r, l), t + [Oper(Comma)] + u, {0} + m + n, funs)
  {
  }

  lemma SmallIndex(l: Expr, t: Tokens, r: Expr, u: Tokens, n: set<int>, funs: Functions)
    requires Small(l, t, {}, funs) && Small(r, u, n, funs) && !Starts(l, 7)
    ensures Small(Index(l, r), t + [Oper(LBracket)] + u + [Oper(RBracket)], {8}, funs)
  {
    assert NoneBelow(l, 8);
  }

  lemma SmallParsed(e: Expr, t: Tokens, u: Tokens, shown: set<int>, funs: Functions)
    requires Small(e, t, shown, funs) && t == u
    ensures Parse(u, false, funs) == Some(e)
  {
    ParseYield(e, funs);
  }

  /** a p b */
  lemma SmallPair(a: Token, p: Op, b: Token, funs: Functions)
    requires a.Arg? && b.Arg? && p in BETWEEN
    ensures Small(Binary(p, Leaf(a), Leaf(b)), [a, Oper(p), b], {Level(p)}, funs) && !Starts(Binary(p, Leaf(a), Leaf(b)), 7)
  {
    hide Small, Starts, Level;
    BetweenInfix(p);
    SmallLeaf(a, funs);
    SmallLeaf(b, funs);
    SmallBinary(Leaf(a), [a], {}, p, Leaf(b), [b], {}, funs);
    assert [a] + [Oper(p)] + [b] == [a, Oper(p), b];
    assert {Level(p)} + {} + {} == {Level(p)};
  }

  // ----- the laws

  /** a p b q c groups to the right exactly if q is in a later row than p. */
  lemma TwoOperators(a: Token, p: Op, b: Token, q: Op, c: Token, i: nat, j: nat, funs: Functions)
    requires a.Arg? && b.Arg? && c.Arg? && p in BETWEEN && q in BETWEEN
    requires i < |ROWS| && j < |ROWS| && p in ROWS[i] && q in ROWS[j]
    ensures Parse([a, Oper(p), b, Oper(q), c], false, funs)
         == Some(if j > i then Binary(p, Leaf(a), Binary(q, Leaf(b), Leaf(c)))
                 else Binary(q, Binary(p, Leaf(a), Leaf(b)), Leaf(c)))
  {
    hide Level, Infix, Parse, Small, Starts, ROWS, BETWEEN;
    RowOf(p, i);
    RowOf(q, j);
    BetweenInfix(p);
    BetweenInfix(q);
    SmallLeaf(a, funs);
    SmallLeaf(c, funs);
    SmallPair(a, p, b, funs);
    SmallPair(b, q, c, funs);
    var t, pb, qc := [a, Oper(p), b, Oper(q), c], Binary(p, Leaf(a), Leaf(b)), Binary(q, Leaf(b), Leaf(c));
    if j > i {
      SmallBinary(Leaf(a), [a], {}, p, qc, [b, Oper(q), c], {Level(q)}, funs);
      SmallParsed(Binary(p, Leaf(a), qc), [a] + [Oper(p)] + [b, Oper(q), c], t, {Level(p)} + {} + {Level(q)}, funs);
    } else {
      SmallBinary(pb, [a, Oper(p), b], {Level(p)}, q, Leaf(c), [c], {}, funs);
      SmallParsed(Binary(q, pb, Leaf(c)), [a, Oper(p), b] + [Oper(q)] + [c], t, {Level(q)} + {Level(p)} + {}, funs);
    }
  }

  /** A prefix operator takes what follows it as far as only later rows are met. */
  lemma PrefixOperator(u: Op, a: Token, p: Op, b: Token, i: nat, j: nat, funs: Functions)
    requires a.Arg? && b.Arg? && (u == Not || u == Exists) && p in BETWEEN
    requires i < |ROWS| && j < |ROWS| && u in ROWS[i] && p in ROWS[j]
    ensures Parse([Oper(u), a, Oper(p), b], false, funs)
         == Some(if j > i then Unary(u, Binary(p, Leaf(a), Leaf(b))) else Binary(p, Unary(u, Leaf(a)), Leaf(b)))
  {
    hide Infix, Parse, Small, Starts, ROWS, BETWEEN;
    RowOf(u, i);
    RowOf(p, j);
    BetweenInfix(p);
    SmallLeaf(a, funs);
    SmallLeaf(b, funs);
    SmallPair(a, p, b, funs);
    var t, pb := [Oper(u), a, Oper(p), b], Binary(p, Leaf(a), Leaf(b));
    if j > i {
      SmallUnary(u, pb, [a, Oper(p), b], {Level(p)}, funs);
      SmallParsed(Unary(u, pb), [Oper(u)] + [a, Oper(p), b], t, {Level(p)}, funs);
    } else {
      SmallUnary(u, Leaf(a), [a], {}, funs);
      SmallBinary(Unary(u, Leaf(a)), [Oper(u)] + [a], {}, p, Leaf(b), [b], {}, funs);
      SmallParsed(Binary(p, Unary(u, Leaf(a)), Leaf(b)), [Oper(u)] + [a] + [Oper(p)] + [b], t, {Level(p)} + {} + {}, funs);
    }
  }

  /** The comma is looser than everything, and groups to the left. */
  lemma CommaLoosest(a: Token, p: Op, b: Token, c: Token, funs: Functions)
    requires a.Arg? && b.Arg? && c.Arg? && p in BETWEEN
    ensures Parse([a, Oper(p), b, Oper(Comma), c], false, funs) == Some(Commas(Leaf(c), Binary(p, Leaf(a), Leaf(b))))
    ensures Parse([a, Oper(Comma), b, Oper(p), c], false, funs) == Some(Commas(Binary(p, Leaf(b), Leaf(c)), Leaf(a)))
    ensures Parse([a, Oper(Comma), b, Oper(Comma), c], false, funs) == Some(Commas(Leaf(c), Commas(Leaf(b), Leaf(a))))
  {
    hide Infix, Parse, Small, Starts, Level, BETWEEN;
    BetweenInfix(p);
    SmallLeaf(a, funs);
    SmallLeaf(b, funs);
    SmallLeaf(c, funs);
    SmallPair(a, p, b, funs);
    SmallPair(b, p, c, funs);
    var ab, bc, cs := Binary(p, Leaf(a), Leaf(b)), Binary(p, Leaf(b), Leaf(c)), Commas(Leaf(b), Leaf(a));
    SmallCommas(ab, [a, Oper(p), b], {Level(p)}, Leaf(c), [c], {}, funs);
    SmallParsed(Commas(Leaf(c), ab), [a, Oper(p), b] + [Oper(Comma)] + [c], [a, Oper(p), b, Oper(Comma), c],
                {0} + {Level(p)} + {}, funs);
    SmallCommas(Leaf(a), [a], {}, bc, [b, Oper(p), c], {Level(p)}, funs);
    SmallParsed(Commas(bc, Leaf(a)), [a] + [Oper(Comma)] + [b, Oper(p), c], [a, Oper(Comma), b, Oper(p), c],
                {0} + {} + {Level(p)}, funs);
    SmallCommas(Leaf(a), [a], {}, Leaf(b), [b], {}, funs);
    SmallCommas(cs, [a] + [Oper(Comma)] + [b], {0} + {} + {}, Leaf(c), [c], {}, funs);
    SmallParsed(Commas(Leaf(c), cs), [a] + [Oper(Comma)] + [b] + [Oper(Comma)] + [c], [a, Oper(Comma), b, Oper(Comma), c],
                {0} + ({0} + {} + {}) + {}, funs);
  }

  /** Parentheses and subscripts bind what is in them, against any operator outside. */
  lemma Bracketed(a: Token, p: Op, b: Token, q: Op, c: Token, funs: Functions)
    requires a.Arg? && b.Arg? && c.Arg? && p in BETWEEN && q in BETWEEN
    ensures Parse([Oper(LParen), a, Oper(p), b, Oper(RParen), Oper(q), c], false, funs)
         == Some(Binary(q, Paren(Binary(p, Leaf(a), Leaf(b))), Leaf(c)))
    ensures Parse([c, Oper(q), Oper(LParen), a, Oper(p), b, Oper(RParen)], false, funs)
         == Some(Binary(q, Leaf(c), Paren(Binary(p, Leaf(a), Leaf(b)))))
    ensures Parse([c, Oper(LBracket), a, Oper(p), b, Oper(RBracket)], false, funs)
         == Some(Index(Leaf(c), Binary(p, Leaf(a), Leaf(b))))
  {
    hide Infix, Parse, Small, Starts, Level, BETWEEN;
    BetweenInfix(q);
    SmallLeaf(c, funs);
    SmallPair(a, p, b, funs);
    var x, t := Binary(p, Leaf(a), Leaf(b)), [a, Oper(p), b];
    var u := [Oper(LParen)] + t + [Oper(RParen)];
    SmallParen(x, t, {Level(p)}, funs);
    SmallBinary(Paren(x), u, {}, q, Leaf(c), [c], {}, funs);
    SmallParsed(Binary(q, Paren(x), Leaf(c)), u + [Oper(q)] + [c],
                [Oper(LParen), a, Oper(p), b, Oper(RParen), Oper(q), c], {Level(q)} + {} + {}, funs);
    SmallBinary(Leaf(c), [c], {}, q, Paren(x), u, {}, funs);
    SmallParsed(Binary(q, Leaf(c), Paren(x)), [c] + [Oper(q)] + u,
                [c, Oper(q), Oper(LParen), a, Oper(p), b, Oper(RParen)], {Level(q)} + {} + {}, funs);
    SmallIndex(Leaf(c), [c], x, t, {Level(p)}, funs);
    SmallParsed(Index(Leaf(c), x), [c] + [Oper(LBracket)] + t + [Oper(RBracket)],
                [c, Oper(LBracket), a, Oper(p), b, Oper(RBracket)], {8}, funs);
  }
}

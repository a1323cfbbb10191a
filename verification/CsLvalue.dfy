/** The left side of an assignment: the parser takes names, dots and subscripts, and nothing else
    outside of brackets. */
module CsLvalue {
  import opened Wrappers
  import opened CsExpr
  import opened CsGrammar
  import opened CsPrecedence

  /** A list that is accepted on the left of an assignment is parsed elsewhere to the same tree. */
  lemma {:induction false} LvalueSame(t: Tokens, funs: Functions)
    requires Parse(t, true, funs).Some?
    ensures Parse(t, false, funs) == Parse(t, true, funs)
    decreases |t|, 1
  {
    if |t| > 1 {
      LvalueFind(t, 0);
      hide Find, ParseAt, ParseWhole;
      match Find(t, 0, false)
      case Found(_, x) => LvalueAt(t, x, funs);
      case NotFound => LvalueWhole(t, funs);
    }
  }

  lemma {:induction false} LvalueAt(t: Tokens, x: nat, funs: Functions)
    requires |t| > 1 && x < |t| && t[x].Oper? && ParseAt(t, x, true, funs).Some?
    ensures ParseAt(t, x, false, funs) == ParseAt(t, x, true, funs)
    decreases |t|, 0
  {
    hide Parse;
    var op, n := t[x].op, |t|;
    if op == LParen {
      LvalueSame(t[1..n - 1], funs);
    } else if IsUnary(op) {
      LvalueSame(t[1..], funs);
    } else {
      LvalueSame(t[..x], funs);
      if op != LBracket {
        LvalueSame(t[x + 1..], funs);
      }
    }
  }

  lemma {:induction false} LvalueWhole(t: Tokens, funs: Functions)
    requires |t| > 1 && ParseWhole(t, true, funs).Some?
    ensures ParseWhole(t, false, funs) == ParseWhole(t, true, funs)
    decreases |t|, 0
  {
    hide Parse, Arguments;
    if IsOp(t[1], LParen) && IsOp(t[|t| - 1], RParen) {
      LvalueSame(t[2..|t| - 1], funs);
    } else {
      LvalueSame(t[1..], funs);
    }
  }

  lemma {:induction false} LvalueScan(p: Tokens, k: int)
    requires !Scan(p, k, true).Bad?
    ensures Scan(p, k, false) == Scan(p, k, true)
    decreases |p|
  {
    hide Open;
    if p != [] && !(IsOp(LastOf(p), RBracket) && |Skipped(p).value| == 1) {
      var q := Skipped(p).value;
      if !(InLevel(LastOf(q), k) && (!IsUnary(LastOf(q).op) || |q| == 1)) {
        LvalueScan(InitOf(q), k);
      }
    }
  }

  lemma {:induction false} LvalueFind(t: Tokens, k: nat)
    requires k <= LEVELS && !Find(t, k, true).Wrong?
    ensures Find(t, k, false) == Find(t, k, true)
    decreases LEVELS - k
  {
    hide Scan;
    if k < LEVELS {
      LvalueScan(t, k);
      if Scan(t, k, true) == Nothing {
        LvalueFind(t, k + 1);
      }
    }
  }

  // ----- which trees

  /** Names and literals, parts of them, and their elements by any subscript. */
  predicate Assignable(e: Expr) {
    match e
    case Leaf(_) => true
    case Binary(op, l, r) => op == Dot && Assignable(l) && Assignable(r)
    case Index(l, _) => Assignable(l)
    case _ => false
  }

  /** All that a scan of p looks at may be on a left side. */
  ghost predicate Seen(p: Tokens)
    decreases |p|
  {
    p != [] ==>
      var q := Skipped(p);
      q.Some? && ((IsOp(LastOf(p), RBracket) && |q.value| == 1) || (LvalueToken(LastOf(q.value)) && Seen(InitOf(q.value))))
  }

  lemma {:induction false} SeenScan(p: Tokens, k: int)
    requires Seen(p)
    ensures Scan(p, k, true) == Scan(p, k, false)
    decreases |p|
  {
    hide Open;
    if p != [] && !(IsOp(LastOf(p), RBracket) && |Skipped(p).value| == 1) {
      SeenScan(InitOf(Skipped(p).value), k);
    }
  }

  lemma {:induction false} SeenFind(t: Tokens, k: nat)
    requires k <= LEVELS && Seen(t)
    ensures Find(t, k, true) == Find(t, k, false)
    decreases LEVELS - k
  {
    hide Scan;
    if k < LEVELS {
      SeenScan(t, k);
      SeenFind(t, k + 1);
    }
  }

  lemma SeenSnoc(p: Tokens, t: Token)
    requires t != Oper(RParen) && t != Oper(RBracket) && LvalueToken(t)
    ensures Seen(p + [t]) <==> Seen(p)
  {
    Snoc(p, t);
  }

  lemma SeenClosed(p: Tokens, q: Tokens)
    requires q != [] && Open(p, 1, LBracket, RBracket) == Some(q + [Oper(LBracket)])
    ensures Seen(p + [Oper(RBracket)]) <==> Seen(q)
  {
    Snoc(p, Oper(RBracket));
    Snoc(q, Oper(LBracket));
  }

  lemma {:induction false} SeenYield(a: Tokens, e: Expr)
    requires Shaped(e) && Assignable(e)
    ensures Seen(a + Yield(e)) <==> Seen(a)
    decreases e
  {
    hide Seen, Yield, Open;
    Grouped(a, e);
    match e
    case Leaf(arg) =>
      SeenSnoc(a, arg);
    case Binary(op, l, r) =>
      var b := a + Yield(l);
      SeenYield(b + [Oper(Dot)], r);
      SeenSnoc(b, Oper(Dot));
      SeenYield(a, l);
    case Index(l, r) =>
      var b := a + Yield(l);
      OpenOver(b + [Oper(LBracket)], r, 1, LBracket, RBracket);
      OpenSnoc(b, Oper(LBracket), 1, LBracket, RBracket);
      SeenClosed(b + [Oper(LBracket)] + Yield(r), b);
      SeenYield(a, l);
  }

  /** Assignable trees are accepted. */
  lemma {:induction false} AssignableAccepted(t: Tokens, funs: Functions)
    requires Lexed(t) && Parse(t, false, funs).Some? && Assignable(Parse(t, false, funs).value)
    ensures Parse(t, true, funs) == Parse(t, false, funs)
    decreases |t|
  {
    var e := Parse(t, false, funs).value;
    if |t| > 1 {
      ParseSound(t, funs);
      CanonicalShaped(e, funs);
      SeenYield([], e);
      assert [] + Yield(e) == t;
      SeenFind(t, 0);
      hide Find, ParseWhole, Seen, Canonical, Shaped;
      match Find(t, 0, false)
      case Found(_, x) =>
        FoundLevel(t);
        ParseAtCases(t, x, funs);
        AcceptedAt(t, x, funs);
      case NotFound =>
        WholeNotAssignable(t, funs);
    }
  }

  lemma FoundLevel(t: Tokens)
    ensures var f := Find(t, 0, false); f.Found? ==> f.x < |t| && t[f.x].Oper? && 0 <= Level(t[f.x].op)
  {
  }

  lemma {:induction false} AcceptedAt(t: Tokens, x: nat, funs: Functions)
    requires Lexed(t) && |t| > 1 && x < |t| && t[x].Oper? && 0 <= Level(t[x].op) && ParseAt(t, x, false, funs).Some?
    requires Assignable(ParseAt(t, x, false, funs).value)
    ensures ParseAt(t, x, true, funs) == ParseAt(t, x, false, funs)
    decreases |t|, 0
  {
    hide Parse;
    ParseAtCases(t, x, funs);
    var op := t[x].op;
    assert op == Dot || op == LBracket;
    AssignableAccepted(t[..x], funs);
    if op == Dot {
      AssignableAccepted(t[x + 1..], funs);
    }
  }

  lemma WholeNotAssignable(t: Tokens, funs: Functions)
    requires |t| > 1 && ParseWhole(t, false, funs).Some?
    ensures !Assignable(ParseWhole(t, false, funs).value)
  {
    hide Parse;
  }

  // ----- nothing else

  lemma {:induction false} HitAllowed(p: Tokens, k: int)
    ensures Scan(p, k, true).Hit? ==> LvalueToken(p[Scan(p, k, true).x])
    ensures p != [] && Scan(p, k, true) == Nothing ==> LvalueToken(p[0]) && !IsOp(LastOf(p), RParen)
    decreases |p|
  {
    hide Open, Skipped;
    if p != [] && Skipped(p).Some? {
      var q := Skipped(p).value;
      LookedAt(p);
      assert q[0] == p[0];
      assert |q| == 1 ==> q[0] == LastOf(q);
      assert |q| > 1 ==> InitOf(q) != [] && InitOf(q)[0] == q[0];
      if !(IsOp(LastOf(p), RBracket) && |q| == 1) {
        HitAllowed(InitOf(q), k);
        ScanIs(p, k);
      }
    }
  }

  lemma ScanIs(p: Tokens, k: int)
    requires p != [] && Skipped(p).Some? && !(IsOp(LastOf(p), RBracket) && |Skipped(p).value| == 1)
    ensures var q := Skipped(p).value;
            Scan(p, k, true) ==
              if !LvalueToken(LastOf(q)) then Bad
              else if InLevel(LastOf(q), k) && (!IsUnary(LastOf(q).op) || |q| == 1) then Hit(|q| - 1)
              else Scan(InitOf(q), k, true)
  {
  }

  /** Closing marks are skipped to their opening ones. */
  lemma LookedAt(p: Tokens)
    requires p != [] && Skipped(p).Some?
    ensures IsOp(LastOf(p), RParen) ==> IsOp(LastOf(Skipped(p).value), LParen)
    ensures IsOp(LastOf(p), RBracket) ==> IsOp(LastOf(Skipped(p).value), LBracket)
  {
  }

  lemma {:induction false} FindAllowed(t: Tokens, k: nat)
    requires k <= LEVELS && t != []
    ensures Find(t, k, true).Found? ==> LvalueToken(t[Find(t, k, true).x])
    ensures k < LEVELS && Find(t, k, true) == NotFound ==> LvalueToken(t[0]) && !IsOp(LastOf(t), RParen)
    decreases LEVELS - k
  {
    hide Scan;
    if k < LEVELS {
      HitAllowed(t, k);
      FindAllowed(t, k + 1);
    }
  }

  /** Only assignable trees are accepted. */
  lemma {:induction false} AcceptedAssignable(t: Tokens, funs: Functions)
    requires Parse(t, true, funs).Some?
    ensures Assignable(Parse(t, true, funs).value)
    decreases |t|
  {
    if |t| > 1 {
      FindAllowed(t, 0);
      hide Find;
      match Find(t, 0, true)
      case Found(_, x) =>
        assert t[x].op == Dot || t[x].op == LBracket;
        AcceptedAssignable(t[..x], funs);
        if t[x].op == Dot {
          AcceptedAssignable(t[x + 1..], funs);
        }
      case NotFound =>
        assert false;
    }
  }

  /** A left side is accepted if and only if the list is parsed to an assignable tree. */
  lemma LvalueIff(t: Tokens, e: Expr, funs: Functions)
    requires Lexed(t)
    ensures Parse(t, true, funs) == Some(e) <==> Parse(t, false, funs) == Some(e) && Assignable(e)
  {
    hide Parse, Assignable;
    if Parse(t, true, funs) == Some(e) {
      LvalueSame(t, funs);
      AcceptedAssignable(t, funs);
    }
    if Parse(t, false, funs) == Some(e) && Assignable(e) {
      AssignableAccepted(t, funs);
    }
  }
}

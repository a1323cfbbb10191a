/** The expression parser of the template language: it splits a token list at its loosest
    operator, found by scanning each level of precedence from the right. */
module CsExpr {
  import opened Wrappers

  datatype Kind = StrArg | NumArg | VarArg | VarNumArg

  datatype Op =
    | Exists | Not | Number
    | Equal | NotEqual | Lt | Lte | Gt | Gte
    | And | Or | Add | Sub | Mult | Div | Mod
    | LParen | RParen | LBracket | RBracket | Dot | Comma

  datatype Token = Arg(kind: Kind, text: string) | Oper(op: Op)

  type Tokens = seq<Token>

  datatype Expr =
    | Leaf(arg: Token)
    | Unary(op: Op, body: Expr)
    | Paren(body: Expr)
    | Binary(op: Op, left: Expr, right: Expr)
    | Index(left: Expr, right: Expr)
    | Commas(last: Expr, previous: Expr)  // the list of arguments, last one first
    | Call(name: string, args: seq<Expr>)

  /** The row of `OperatorOrder` an operator is in; the closing marks and `#` are in none. */
  function Level(op: Op): (k: int) {
    match op
    case Comma => 0
    case Or => 1
    case And => 2
    case Equal => 3 case NotEqual => 3
    case Gt => 4 case Gte => 4 case Lt => 4 case Lte => 4
    case Add => 5 case Sub => 5
    case Mult => 6 case Div => 6 case Mod => 6
    case Not => 7 case Exists => 7
    case LBracket => 8 case Dot => 8 case LParen => 8
    case Number => -1 case RParen => -1 case RBracket => -1
  }

  const LEVELS := 9

  predicate IsUnary(op: Op) {
    op == Exists || op == Not || op == Number || op == LParen
  }

  predicate IsOp(t: Token, op: Op) {
    t == Oper(op)
  }

  predicate InLevel(t: Token, k: int) {
    t.Oper? && Level(t.op) == k && 0 <= k
  }

  predicate LvalueToken(t: Token) {
    t.Arg? || t.op == Dot || t.op == LBracket
  }

  function LastOf(p: Tokens): (t: Token)
    requires p != []
  {
    p[|p| - 1]
  }

  function InitOf(p: Tokens): (r: Tokens)
    requires p != []
    ensures |r| == |p| - 1
  {
    p[..|p| - 1]
  }

  /** Going left through p with m marks open, the prefix that ends with the opening mark. */
  function Open(p: Tokens, m: nat, open: Op, close: Op): (r: Option<Tokens>)
    requires m > 0
    ensures r.Some? ==> 0 < |r.value| && r.value <= p && IsOp(LastOf(r.value), open)
    decreases |p|
  {
    if p == [] then None
    else
      var up := if IsOp(LastOf(p), close) then m + 1 else m;
      var m' := if IsOp(LastOf(p), open) then up - 1 else up;
      if m' == 0 then Some(p) else Open(InitOf(p), m', open, close)
  }

  datatype Scanned = Hit(x: nat) | Nothing | Bad

  /** The prefix that ends with the token a scan at the end of p looks at: parentheses and
      brackets are skipped to their opening mark. */
  function Skipped(p: Tokens): (r: Option<Tokens>)
    requires p != []
    ensures r.Some? ==> 0 < |r.value| && r.value <= p
  {
    if IsOp(LastOf(p), RParen) then Open(InitOf(p), 1, LParen, RParen)
    else if IsOp(LastOf(p), RBracket) then Open(InitOf(p), 1, LBracket, RBracket)
    else Some(p)
  }

  /** The scan of one level, from the end of p to its start. */
  function Scan(p: Tokens, k: int, lvalue: bool): (s: Scanned)
    ensures s.Hit? ==> s.x < |p| && InLevel(p[s.x], k)
    decreases |p|
  {
    if p == [] then Nothing
    else
      var q := Skipped(p);
      if q.None? then Bad
      else if IsOp(LastOf(p), RBracket) && |q.value| == 1 then Nothing
      else ScanAt(p, q.value, k, lvalue)
  }

  function ScanAt(p: Tokens, q: Tokens, k: int, lvalue: bool): (s: Scanned)
    requires 0 < |q| && q <= p
    ensures s.Hit? ==> s.x < |p| && InLevel(p[s.x], k)
    decreases |p|, 0
  {
    var t := LastOf(q);
    if lvalue && !LvalueToken(t) then Bad
    else if InLevel(t, k) && (!IsUnary(t.op) || |q| == 1) then Hit(|q| - 1)
    else Scan(InitOf(q), k, lvalue)
  }

  datatype Found = Found(k: nat, x: nat) | NotFound | Wrong

  /** The loosest level that has an operator, and the place of its rightmost one. */
  function Find(t: Tokens, k: nat, lvalue: bool): (f: Found)
    requires k <= LEVELS
    ensures f.Found? ==> k <= f.k < LEVELS && f.x < |t| && InLevel(t[f.x], f.k)
    decreases LEVELS - k
  {
    if k == LEVELS then NotFound
    else
      match Scan(t, k, lvalue)
      case Hit(x) => Found(k, x)
      case Bad => Wrong
      case Nothing => Find(t, k + 1, lvalue)
  }

  type Functions = map<string, nat>

  /** The arguments of a call, in source order. */
  function Arguments(e: Expr): (args: seq<Expr>)
    ensures args != []
  {
    if e.Commas? then Arguments(e.previous) + [e.last] else [e]
  }

  /** `parse_expr2` */
  function Parse(t: Tokens, lvalue: bool, funs: Functions): (r: Option<Expr>)
    decreases |t|
  {
    if t == [] then None
    else if |t| == 1 then (if t[0].Arg? then Some(Leaf(t[0])) else None)
    else
      match Find(t, 0, lvalue)
      case Wrong => None
      case Found(_, x) => ParseAt(t, x, lvalue, funs)
      case NotFound => ParseWhole(t, lvalue, funs)
  }

  /** A split at the operator found. */
  function ParseAt(t: Tokens, x: nat, lvalue: bool, funs: Functions): (r: Option<Expr>)
    requires |t| > 1 && x < |t| && t[x].Oper?
    decreases |t|, 0
  {
    var op, end := t[x].op, t[|t| - 1];
    if op == LParen then
      if x != 0 || !IsOp(end, RParen) then None
      else
        var e := Parse(t[1..|t| - 1], lvalue, funs);
        if e.None? then None else Some(Paren(e.value))
    else if IsUnary(op) then
      if x != 0 then None
      else
        var e := Parse(t[1..], lvalue, funs);
        if e.None? then None else Some(Unary(op, e.value))
    else if op == LBracket then
      if !IsOp(end, RBracket) then None
      else
        assert x + 1 <= |t| - 1;
        var r := Parse(t[x + 1..|t| - 1], false, funs);
        if r.None? then None
        else
          var l := Parse(t[..x], lvalue, funs);
          if l.None? then None else Some(Index(l.value, r.value))
    else
      var r := Parse(t[x + 1..], lvalue, funs);
      if r.None? then None
      else
        var l := Parse(t[..x], lvalue, funs);
        if l.None? then None
        else if op == Comma then Some(Commas(r.value, l.value))
        else Some(Binary(op, l.value, r.value))
  }

  /** No operator was found: `#` against an expression, or a call. */
  function ParseWhole(t: Tokens, lvalue: bool, funs: Functions): (r: Option<Expr>)
    requires |t| > 1
    decreases |t|, 0
  {
    if t[0].Oper? && IsUnary(t[0].op) then
      var bracketed := IsOp(t[1], LParen) && IsOp(t[|t| - 1], RParen);
      assert bracketed ==> |t| >= 3;
      var e := Parse(if bracketed then t[2..|t| - 1] else t[1..], lvalue, funs);
      if e.None? then None else Some(Unary(t[0].op, e.value))
    else if t[0].Arg? && t[0].kind == VarArg && IsOp(t[1], LParen) && IsOp(t[|t| - 1], RParen) then
      if t[0].text !in funs then None
      else
        assert |t| >= 3;
        var e := Parse(t[2..|t| - 1], lvalue, funs);
        if e.None? || |Arguments(e.value)| != funs[t[0].text] then None
        else Some(Call(t[0].text, Arguments(e.value)))
    else None
  }

  // ----- the loops

  /** Skip left from x over what the mark at x closes; the place of its opening mark, or -1. */
  method SkipBack(t: Tokens, x: nat, open: Op, close: Op) returns (y: int)
    requires x < |t| && ((open == LParen && close == RParen) || (open == LBracket && close == RBracket))
    ensures -1 <= y < x
    ensures Open(t[..x], 1, open, close) == if y < 0 then None else Some(t[..y + 1])
  {
    var m := 1;
    y := x - 1;
    Whole(t, x);
    while y >= 0
      invariant -1 <= y < x && m > 0
      invariant Open(t[..y + 1], m, open, close) == Open(t[..x], 1, open, close)
      decreases y
    {
      Shorter(t, y);
      if IsOp(t[y], close) {
        m := m + 1;
      }
      if IsOp(t[y], open) {
        m := m - 1;
      }
      if m == 0 {
        break;
      }
      y := y - 1;
    }
  }

  lemma Whole(t: Tokens, x: nat)
    requires x <= |t|
    ensures t[..x - 1 + 1] == t[..x] && t[..|t|] == t
  {
  }

  lemma Shorter(t: Tokens, x: nat)
    requires x < |t|
    ensures t[..x + 1] != [] && LastOf(t[..x + 1]) == t[x] && InitOf(t[..x + 1]) == t[..x] && |t[..x + 1]| == x + 1
  {
  }

  /** A scan that stands at x, in terms of the place y it looks at after skipping; y is -1 when
      the opening mark is missing. */
  lemma ScanStep(t: Tokens, x: nat, y: int, k: int, lvalue: bool)
    requires x < |t| && -1 <= y <= x
    requires Skipped(t[..x + 1]) == if y < 0 then None else Some(t[..y + 1])
    ensures Scan(t[..x + 1], k, lvalue) ==
      if y < 0 then Bad
      else if IsOp(t[x], RBracket) && y == 0 then Nothing
      else if lvalue && !LvalueToken(t[y]) then Bad
      else if InLevel(t[y], k) && (!IsUnary(t[y].op) || y == 0) then Hit(y)
      else Scan(t[..y], k, lvalue)
  {
    hide Skipped;
    Shorter(t, x);
    if y >= 0 {
      Shorter(t, y);
    }
  }

  /** The place a scan at x looks at: itself, or the opening mark of what it closes. */
  method SkipClosed(t: Tokens, x: nat) returns (y: int)
    requires x < |t|
    ensures -1 <= y <= x && Skipped(t[..x + 1]) == if y < 0 then None else Some(t[..y + 1])
  {
    hide Open;
    Shorter(t, x);
    y := x;
    if IsOp(t[x], RParen) {
      y := SkipBack(t, x, LParen, RParen);
    } else if IsOp(t[x], RBracket) {
      y := SkipBack(t, x, LBracket, RBracket);
    }
  }

  /** One level's scan, from the last token to the first. */
  method ScanLevel(t: Tokens, k: nat, lvalue: bool) returns (s: Scanned)
    ensures s == Scan(t, k, lvalue)
  {
    hide Scan, Skipped;
    var x := |t| - 1;
    Whole(t, |t|);
    ScanNone(t, k, lvalue);
    while x >= 0
      invariant -1 <= x < |t|
      invariant Scan(t[..x + 1], k, lvalue) == Scan(t, k, lvalue)
    {
      var y := SkipClosed(t, x);
      ScanStep(t, x, y, k, lvalue);
      if y < 0 {
        return Bad;
      }
      if IsOp(t[x], RBracket) && y == 0 {
        return Nothing;
      }
      x := y;
      if lvalue && !LvalueToken(t[x]) {
        return Bad;
      }
      if InLevel(t[x], k) {
        if !IsUnary(t[x].op) || x == 0 {
          return Hit(x);
        }
      }
      x := x - 1;
    }
    return Nothing;
  }

  lemma ScanNone(t: Tokens, k: int, lvalue: bool)
    ensures Scan(t[..0], k, lvalue) == Nothing
  {
  }

  method FindOperator(t: Tokens, lvalue: bool) returns (f: Found)
    ensures f == Find(t, 0, lvalue)
  {
    hide Scan;
    var k := 0;
    while k < LEVELS
      invariant k <= LEVELS && Find(t, k, lvalue) == Find(t, 0, lvalue)
    {
      var s := ScanLevel(t, k, lvalue);
      if s.Hit? {
        return Found(k, s.x);
      }
      if s.Bad? {
        return Wrong;
      }
      k := k + 1;
    }
    return NotFound;
  }

  /** `rearrange_for_call`: unlink the list of arguments into source order, and count them. */
  method RearrangeForCall(e: Expr) returns (args: seq<Expr>, count: nat)
    ensures args == Arguments(e) && count == |args|
  {
    var carg, vargs := e, [];
    count := 0;
    while carg.Commas?
      invariant Arguments(e) == Arguments(carg) + vargs && count == |vargs|
      decreases carg
    {
      count := count + 1;
      vargs := [carg.last] + vargs;
      carg := carg.previous;
    }
    count := count + 1;
    args := [carg] + vargs;
  }

  method ParseExpr(t: Tokens, lvalue: bool, funs: Functions) returns (r: Option<Expr>)
    ensures r == Parse(t, lvalue, funs)
    decreases |t|, 1
  {
    hide Find, Arguments;
    if t == [] {
      return None;
    }
    if |t| == 1 {
      return if t[0].Arg? then Some(Leaf(t[0])) else None;
    }
    var f := FindOperator(t, lvalue);
    match f {
      case Wrong =>
        return None;
      case Found(_, x) =>
        r := ParseSplit(t, x, lvalue, funs);
      case NotFound =>
        r := ParseRest(t, lvalue, funs);
    }
  }

  method ParseSplit(t: Tokens, x: nat, lvalue: bool, funs: Functions) returns (r: Option<Expr>)
    requires |t| > 1 && x < |t| && t[x].Oper?
    ensures r == ParseAt(t, x, lvalue, funs)
    decreases |t|, 0
  {
    hide Parse;
    var op, end := t[x].op, t[|t| - 1];
    if IsUnary(op) {
      if x != 0 || (op == LParen && !IsOp(end, RParen)) {
        return None;
      }
      var e := ParseExpr(if op == LParen then t[1..|t| - 1] else t[1..], lvalue, funs);
      return if e.None? then None else Some(if op == LParen then Paren(e.value) else Unary(op, e.value));
    }
    var right;
    if op == LBracket {
      if !IsOp(end, RBracket) {
        return None;
      }
      assert x + 1 <= |t| - 1;
      right := ParseExpr(t[x + 1..|t| - 1], false, funs);
    } else {
      right := ParseExpr(t[x + 1..], lvalue, funs);
    }
    if right.None? {
      return None;
    }
    var left := ParseExpr(t[..x], lvalue, funs);
    if left.None? {
      return None;
    }
    return Some(if op == LBracket then Index(left.value, right.value)
                else if op == Comma then Commas(right.value, left.value)
                else Binary(op, left.value, right.value));
  }

  method ParseRest(t: Tokens, lvalue: bool, funs: Functions) returns (r: Option<Expr>)
    requires |t| > 1
    ensures r == ParseWhole(t, lvalue, funs)
    decreases |t|, 0
  {
    hide Parse, Arguments;
    if t[0].Oper? && IsUnary(t[0].op) {
      var bracketed := IsOp(t[1], LParen) && IsOp(t[|t| - 1], RParen);
      assert bracketed ==> |t| >= 3;
      var e := ParseExpr(if bracketed then t[2..|t| - 1] else t[1..], lvalue, funs);
      return if e.None? then None else Some(Unary(t[0].op, e.value));
    }
    if t[0].Arg? && t[0].kind == VarArg && IsOp(t[1], LParen) && IsOp(t[|t| - 1], RParen) {
      if t[0].text !in funs {
        return None;
      }
      assert |t| >= 3;
      var e := ParseExpr(t[2..|t| - 1], lvalue, funs);
      if e.None? {
        return None;
      }
      var args, count := RearrangeForCall(e.value);
      return if count != funs[t[0].text] then None else Some(Call(t[0].text, args));
    }
    return None;
  }
}

/** Shell-style matching with the ABORT pruning, for any comparison of characters by a code: the
    character itself, or its upper case. */
module Wildmat {
  import opened Wrappers

  datatype Item = One(c: char) | Span(lo: char, hi: char)

  /** The elements of a pattern. Never is a backslash at the end of the pattern. */
  datatype Elem = Lit(c: char) | AnyOne | Star | Class(reverse: bool, items: seq<Item>) | Never

  type Code = char -> int

  // ----- patterns

  /** The items of a class from j on, up to its closing bracket. */
  function ClassItems(p: string, j: nat, last: char): (r: Option<(seq<Item>, nat)>)
    requires j <= |p|
    ensures r.Some? ==> j <= r.value.1 < |p| && p[r.value.1] == ']'
    decreases |p| - j
  {
    if j == |p| then None
    else if p[j] == ']' then Some(([], j))
    else if p[j] == '-' && j + 1 == |p| then None
    else if p[j] == '-' && p[j + 1] != ']' then Ahead(Span(last, p[j + 1]), ClassItems(p, j + 2, p[j + 1]))
    else Ahead(One(p[j]), ClassItems(p, j + 1, p[j]))
  }

  function Ahead(x: Item, r: Option<(seq<Item>, nat)>): (s: Option<(seq<Item>, nat)>) {
    if r.None? then None else Some(([x] + r.value.0, r.value.1))
  }

  /** The class whose bracket is at j: a `^` reverses it, and a first `]` or `-` is itself. */
  function ClassAt(p: string, j: nat): (r: Option<(Elem, nat)>)
    requires j < |p|
    ensures r.Some? ==> j < r.value.1 < |p|
  {
    var reverse := j + 1 < |p| && p[j + 1] == '^';
    var q := if reverse then j + 1 else j;
    var special := q + 1 < |p| && (p[q + 1] == ']' || p[q + 1] == '-');
    var rest := if special then Ahead(One(p[q + 1]), ClassItems(p, q + 2, p[q + 1])) else ClassItems(p, q + 1, p[q]);
    if rest.None? then None else Some((Class(reverse, rest.value.0), rest.value.1))
  }

  /** The elements of a pattern from j on; nothing, if a class is not closed. */
  function Parse(p: string, j: nat): (es: Option<seq<Elem>>)
    requires j <= |p|
    decreases |p| - j
  {
    if j == |p| then Some([])
    else if p[j] == '[' then
      var c := ClassAt(p, j);
      if c.None? then None else Before(c.value.0, Parse(p, c.value.1 + 1))
    else if p[j] == '\\' then
      if j + 1 == |p| then Some([Never]) else Before(Lit(p[j + 1]), Parse(p, j + 2))
    else Before(if p[j] == '*' then Star else if p[j] == '?' then AnyOne else Lit(p[j]), Parse(p, j + 1))
  }

  function Before(e: Elem, es: Option<seq<Elem>>): (r: Option<seq<Elem>>) {
    if es.None? then None else Some([e] + es.value)
  }

  // ----- what a pattern means

  predicate InItem(code: Code, t: char, x: Item) {
    match x
    case One(c) => code(t) == code(c)
    case Span(lo, hi) => code(lo) <= code(t) <= code(hi)
  }

  predicate InItems(code: Code, t: char, items: seq<Item>) {
    exists i :: 0 <= i < |items| && InItem(code, t, items[i])
  }

  predicate Fits(code: Code, t: char, e: Elem) {
    match e
    case Lit(c) => code(t) == code(c)
    case AnyOne => true
    case Class(reverse, items) => InItems(code, t, items) != reverse
    case Star => false
    case Never => false
  }

  /** A star stands for any text, every other element for one character. */
  ghost predicate Matches(code: Code, text: string, es: seq<Elem>)
    decreases |es|
  {
    if es == [] then text == []
    else if es[0] == Star then exists k :: 0 <= k <= |text| && Matches(code, text[k..], es[1..])
    else text != [] && Fits(code, text[0], es[0]) && Matches(code, text[1..], es[1..])
  }

  /** Consecutive stars act like one. */
  lemma StarStar(code: Code, text: string, es: seq<Elem>)
    requires es != [] && es[0] == Star
    ensures Matches(code, text, [Star] + es) <==> Matches(code, text, es)
  {
    assert ([Star] + es)[1..] == es;
    if Matches(code, text, [Star] + es) {
      var k :| 0 <= k <= |text| && Matches(code, text[k..], es);
      var m :| 0 <= m <= |text[k..]| && Matches(code, text[k..][m..], es[1..]);
      assert text[k..][m..] == text[k + m..];
    }
    if Matches(code, text, es) {
      assert text[0..] == text;
    }
  }

  lemma StarAll(code: Code, text: string)
    ensures Matches(code, text, [Star])
  {
    assert text[|text|..] == [];
    assert [Star][1..] == [];
  }

  lemma StarThen(code: Code, text: string, i: nat, es: seq<Elem>)
    requires i <= |text|
    ensures Matches(code, text[i..], [Star] + es) <==> exists k :: i <= k <= |text| && Matches(code, text[k..], es)
  {
    assert ([Star] + es)[1..] == es;
    var t := text[i..];
    if Matches(code, t, [Star] + es) {
      var m :| 0 <= m <= |t| && Matches(code, t[m..], es);
      assert t[m..] == text[i + m..];
    }
    if k :| i <= k <= |text| && Matches(code, text[k..], es) {
      assert t[k - i..] == text[k..];
    }
  }

  /** One character against one element that is not a star. */
  lemma OneThen(code: Code, text: string, i: nat, e: Elem, es: seq<Elem>)
    requires i <= |text| && e != Star
    ensures Matches(code, text[i..], [e] + es) <==>
      i < |text| && Fits(code, text[i], e) && Matches(code, text[i + 1..], es)
  {
    assert ([e] + es)[1..] == es;
    if i < |text| {
      assert text[i..][1..] == text[i + 1..];
    }
  }

  // ----- the matcher

  datatype Verdict = True | False | Abort

  /** A class: whether the character fits it, and where it is closed. */
  method MatchClass(code: Code, t: char, p: string, j: nat) returns (fits: bool, end: nat)
    requires j < |p| && p[j] == '[' && ClassAt(p, j).Some?
    ensures end == ClassAt(p, j).value.1 && fits == Fits(code, t, ClassAt(p, j).value.0)
  {
    hide ClassItems, InItems;
    var reverse, q, matched := p[j + 1] == '^', j, false;
    if reverse {
      q := q + 1;
    }
    ghost var items := [];
    InItemsFirst(code, t, p[q + 1]);
    if p[q + 1] == ']' || p[q + 1] == '-' {
      q := q + 1;
      matched := code(p[q]) == code(t);
      items := [One(p[q])];
    }
    matched, end := MatchItems(code, t, p, q + 1, p[q], items, matched);
    assert [] + ClassItems(p, q + 1, p[q]).value.0 == ClassItems(p, q + 1, p[q]).value.0;
    return matched != reverse, end;
  }

  lemma InItemsFirst(code: Code, t: char, c: char)
    ensures !InItems(code, t, []) && (InItems(code, t, [One(c)]) <==> code(t) == code(c))
  {
    assert [One(c)][0] == One(c);
  }

  /** The loop over the items of a class, up to its closing bracket. */
  method MatchItems(code: Code, t: char, p: string, j: nat, before: char, ghost seen: seq<Item>, found: bool)
    returns (matched: bool, end: nat)
    requires j <= |p| && ClassItems(p, j, before).Some? && found == InItems(code, t, seen)
    ensures end == ClassItems(p, j, before).value.1
    ensures matched == InItems(code, t, seen + ClassItems(p, j, before).value.0)
  {
    hide InItems;
    var q, last := j, code(before);
    ghost var lastChar, items := before, seen;
    ghost var all := seen + ClassItems(p, j, before).value.0;
    matched := found;
    while q < |p| && p[q] != ']'
      invariant q <= |p| && last == code(lastChar)
      invariant ClassItems(p, q, lastChar).Some? && ClassItems(p, q, lastChar).value.1 == ClassItems(p, j, before).value.1
      invariant all == items + ClassItems(p, q, lastChar).value.0
      invariant matched == InItems(code, t, items)
      decreases |p| - q
    {
      ghost var x;
      if p[q] == '-' && p[q + 1] != ']' {
        q := q + 1;
        if code(t) <= code(p[q]) && code(t) >= last {
          matched := true;
        }
        x := Span(lastChar, p[q]);
      } else {
        if code(t) == code(p[q]) {
          matched := true;
        }
        x := One(p[q]);
      }
      InItemsMore(code, t, items, x);
      Shift(items, x, ClassItems(p, q + 1, p[q]).value.0);
      items := items + [x];
      last, lastChar := code(p[q]), p[q];
      q := q + 1;
    }
    assert all == items;
    end := q;
  }

  lemma Shift(items: seq<Item>, x: Item, rest: seq<Item>)
    ensures items + ([x] + rest) == items + [x] + rest
  {
  }

  lemma InItemsMore(code: Code, t: char, items: seq<Item>, x: Item)
    ensures InItems(code, t, items + [x]) <==> InItems(code, t, items) || InItem(code, t, x)
  {
    var more := items + [x];
    if InItems(code, t, items) {
      var i :| 0 <= i < |items| && InItem(code, t, items[i]);
      assert InItem(code, t, more[i]);
    }
    if InItem(code, t, x) {
      assert InItem(code, t, more[|items|]);
    }
    if InItems(code, t, more) {
      var i :| 0 <= i < |more| && InItem(code, t, more[i]);
      assert i < |items| ==> items[i] == more[i];
    }
  }

  /** Nothing from i on matches. */
  ghost predicate NoSuffix(code: Code, text: string, i: nat, es: seq<Elem>) {
    forall k {:trigger text[k..]} :: i <= k <= |text| ==> !Matches(code, text[k..], es)
  }

  /** Matching the pattern from j0 at any k comes down to matching the rest of it n further on. */
  ghost predicate ComesDown(code: Code, text: string, i: nat, es: seq<Elem>, n: nat, rest: seq<Elem>) {
    forall k {:trigger text[k..]} :: i <= k <= |text| && Matches(code, text[k..], es) ==>
      k + n <= |text| && Matches(code, text[k + n..], rest)
  }

  lemma ComesDownOne(code: Code, text: string, i: nat, all: seq<Elem>, n: nat, es: seq<Elem>)
    requires ComesDown(code, text, i, all, n, es) && es != [] && es[0] != Star
    ensures ComesDown(code, text, i, all, n + 1, es[1..])
  {
    assert es == [es[0]] + es[1..];
    forall k | i <= k <= |text| && Matches(code, text[k..], all)
      ensures k + n + 1 <= |text| && Matches(code, text[k + n + 1..], es[1..])
    {
      OneThen(code, text, k + n, es[0], es[1..]);
    }
  }

  /** The text ran out before an element that needs a character: every later part runs out too. */
  lemma OutOfText(code: Code, text: string, i: nat, all: seq<Elem>, n: nat, es: seq<Elem>)
    requires i + n == |text| && ComesDown(code, text, i, all, n, es) && es != [] && es[0] != Star
    ensures NoSuffix(code, text, i, all)
  {
    assert text[|text|..] == [];
    forall k | i <= k <= |text|
      ensures !Matches(code, text[k..], all)
    {
      assert k + n > |text| || (k + n == |text| && !Matches(code, text[k + n..], es));
    }
  }

  /** What the rest of a pattern cannot match from a place on, the whole cannot either. */
  lemma NoneDown(code: Code, text: string, i: nat, all: seq<Elem>, n: nat, es: seq<Elem>)
    requires i + n <= |text| && ComesDown(code, text, i, all, n, es) && NoSuffix(code, text, i + n, es)
    ensures NoSuffix(code, text, i, all)
  {
  }

  /** The elements at a star: further stars change nothing. */
  lemma {:induction false} StarRun(code: Code, text: string, p: string, q: nat, r: nat)
    requires q < r <= |p| && Parse(p, q).Some? && forall k :: q <= k < r ==> p[k] == '*'
    ensures Parse(p, r).Some? && Parse(p, q).value[0] == Star
    ensures Matches(code, text, Parse(p, q).value) <==> Matches(code, text, [Star] + Parse(p, r).value)
    decreases r - q
  {
    if q + 1 < r {
      StarRun(code, text, p, q + 1, r);
      StarStar(code, text, Parse(p, q + 1).value);
    }
  }

  /** The first element of a pattern that does not start with a star needs a character. */
  lemma NeedsOne(p: string, q: nat)
    requires q < |p| && Parse(p, q).Some? && p[q] != '*'
    ensures var es := Parse(p, q).value; es != [] && es[0] != Star
  {
  }

  /** The star loop, which only ends with true or abort. */
  method MatchStar(code: Code, text: string, t: nat, p: string, q: nat) returns (v: Verdict)
    requires t <= |text| && q < |p| && p[q] == '*' && Parse(p, q).Some?
    ensures v == True <==> Matches(code, text[t..], Parse(p, q).value)
    ensures v != False && (v == Abort ==> NoSuffix(code, text, t, Parse(p, q).value))
    decreases |p| - q, 0
  {
    hide Matches;
    var r := q + 1;
    while r < |p| && p[r] == '*'
      invariant q < r <= |p| && forall k :: q <= k < r ==> p[k] == '*'
    {
      r := r + 1;
    }
    StarRun(code, text, p, q, r);
    forall k | t <= k <= |text|
      ensures Matches(code, text[k..], Parse(p, q).value) <==> Matches(code, text[k..], [Star] + Parse(p, r).value)
    {
      StarRun(code, text[k..], p, q, r);
    }
    ghost var es := Parse(p, r).value;
    if r == |p| {
      StarAll(code, text[t..]);
      assert [Star] + es == [Star];
      return True;
    }
    NeedsOne(p, r);
    var s := t;
    while s < |text|
      invariant t <= s <= |text| && forall k {:trigger text[k..]} :: t <= k < s ==> !Matches(code, text[k..], es)
    {
      v := DoMatch(code, text, s, p, r);
      if v != False {
        StarDecided(code, text, t, s, es, v);
        StarNone(code, text, t, es, Parse(p, q).value, v);
        return;
      }
      s := s + 1;
    }
    NothingLeft(code, text, es);
    v := Abort;
    StarDecided(code, text, t, s, es, v);
    StarNone(code, text, t, es, Parse(p, q).value, v);
  }

  lemma NothingLeft(code: Code, text: string, es: seq<Elem>)
    requires es != [] && es[0] != Star
    ensures NoSuffix(code, text, |text|, es)
  {
    assert text[|text|..] == [];
  }

  /** A star loop that stops at s has looked at every place a match could start. */
  lemma StarDecided(code: Code, text: string, t: nat, s: nat, es: seq<Elem>, v: Verdict)
    requires t <= s <= |text| && forall k {:trigger text[k..]} :: t <= k < s ==> !Matches(code, text[k..], es)
    requires v == Abort ==> NoSuffix(code, text, s, es)
    requires v == True ==> Matches(code, text[s..], es)
    requires v != False
    ensures v == True <==> Matches(code, text[t..], [Star] + es)
    ensures v == Abort ==> NoSuffix(code, text, t, es)
  {
    hide Matches;
    StarThen(code, text, t, es);
  }

  lemma StarNone(code: Code, text: string, t: nat, es: seq<Elem>, starred: seq<Elem>, v: Verdict)
    requires t <= |text| && (v == Abort ==> NoSuffix(code, text, t, es))
    requires forall k {:trigger text[k..]} :: t <= k <= |text| ==>
      (Matches(code, text[k..], starred) <==> Matches(code, text[k..], [Star] + es))
    ensures v == Abort ==> NoSuffix(code, text, t, starred)
  {
    hide Matches;
    if v == Abort {
      forall k | t <= k <= |text|
        ensures !Matches(code, text[k..], starred)
      {
        StarThen(code, text, k, es);
      }
    }
  }

  /** One element against one character: whether it fits, and where the next element starts. */
  method MatchOne(code: Code, t: char, p: string, q: nat) returns (fits: bool, next: nat)
    requires q < |p| && p[q] != '*' && Parse(p, q).Some?
    ensures var es := Parse(p, q).value;
            && es != [] && es[0] != Star && fits == Fits(code, t, es[0])
            && (fits ==> q < next <= |p| && Parse(p, next) == Some(es[1..]))
  {
    hide Fits, ClassAt;
    NeedsOne(p, q);
    if p[q] == '[' {
      var end;
      fits, end := MatchClass(code, t, p, q);
      next := end + 1;
      TailOf(ClassAt(p, q).value.0, Parse(p, next).value);
    } else if p[q] == '?' {
      fits, next := true, q + 1;
      FitsOne(code, t, ' ');
      TailOf(AnyOne, Parse(p, next).value);
    } else {
      var at := if p[q] == '\\' then q + 1 else q;
      fits := at < |p| && code(t) == code(p[at]);
      next := at + 1;
      FitsOne(code, t, if at < |p| then p[at] else ' ');
      if at < |p| {
        TailOf(Lit(p[at]), Parse(p, next).value);
      }
    }
  }

  lemma FitsOne(code: Code, t: char, c: char)
    ensures Fits(code, t, AnyOne) && !Fits(code, t, Never) && (Fits(code, t, Lit(c)) <==> code(t) == code(c))
  {
  }

  lemma TailOf(e: Elem, es: seq<Elem>)
    ensures ([e] + es)[1..] == es && ([e] + es)[0] == e
  {
  }

  /** `DoMatch`: true exactly if the text from i on matches, and abort only if no later part of
      the text does either. */
  method DoMatch(code: Code, text: string, i: nat, p: string, j: nat) returns (v: Verdict)
    requires i <= |text| && j <= |p| && Parse(p, j).Some?
    ensures v == True <==> Matches(code, text[i..], Parse(p, j).value)
    ensures v == Abort ==> NoSuffix(code, text, i, Parse(p, j).value)
    decreases |p| - j, 1
  {
    hide Matches, Parse, NoSuffix, ComesDown;
    var t, q := i, j;
    ghost var all := Parse(p, j).value;
    DownStart(code, text, i, all);
    while q < |p|
      invariant i <= t <= |text| && j <= q <= |p| && Parse(p, q).Some?
      invariant Matches(code, text[i..], all) <==> Matches(code, text[t..], Parse(p, q).value)
      invariant ComesDown(code, text, i, all, t - i, Parse(p, q).value)
      decreases |p| - q
    {
      ghost var es := Parse(p, q).value;
      if p[q] == '*' {
        v := MatchStar(code, text, t, p, q);
        if v == Abort {
          NoneDown(code, text, i, all, t - i, es);
        }
        return;
      }
      NeedsOne(p, q);
      if t == |text| {
        OutOfText(code, text, i, all, t - i, es);
        NoneHere(code, text, i, all);
        return Abort;
      }
      var fits, next := MatchOne(code, text[t], p, q);
      HeadTail(es);
      OneThen(code, text, t, es[0], es[1..]);
      if !fits {
        return False;
      }
      ComesDownOne(code, text, i, all, t - i, es);
      t, q := t + 1, next;
    }
    NoElements(code, text, p, t);
    return if t == |text| then True else False;
  }

  lemma HeadTail(es: seq<Elem>)
    requires es != []
    ensures es == [es[0]] + es[1..]
  {
  }

  lemma NoneHere(code: Code, text: string, i: nat, es: seq<Elem>)
    requires i <= |text| && NoSuffix(code, text, i, es)
    ensures !Matches(code, text[i..], es)
  {
  }

  lemma DownStart(code: Code, text: string, i: nat, all: seq<Elem>)
    requires i <= |text|
    ensures ComesDown(code, text, i, all, 0, all)
  {
  }

  lemma NoElements(code: Code, text: string, p: string, t: nat)
    requires t <= |text|
    ensures Parse(p, |p|) == Some([]) && (Matches(code, text[t..], []) <==> t == |text|)
  {
  }

  /** `wildmat`: with its shortcut for the pattern of one star. */
  method Wildmat(code: Code, text: string, p: string) returns (r: bool)
    requires Parse(p, 0).Some?
    ensures r <==> Matches(code, text, Parse(p, 0).value)
  {
    hide Matches;
    assert text[0..] == text;
    if |p| == 1 && p[0] == '*' {
      assert Parse(p, 0).value == [Star];
      StarAll(code, text);
      return true;
    }
    var v := DoMatch(code, text, 0, p, 0);
    return v == True;
  }
}

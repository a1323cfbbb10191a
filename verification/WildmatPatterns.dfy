/** Patterns as they are written, and what they mean. */
module WildmatPatterns {
  import opened Wrappers
  import opened Wildmat

  /** What can stand in a class: a character, or two characters with a dash between them. */
  datatype Part = Single(c: char) | Range(lo: char, hi: char)

  /** A class may be reversed, and may start with a closing bracket or a dash. */
  datatype Piece = Plain(c: char) | Quoted(c: char) | Any | Many | Set(not: bool, lead: Option<char>, parts: seq<Part>)

  function SpellPart(x: Part): (s: string) {
    match x
    case Single(c) => [c]
    case Range(lo, hi) => [lo, '-', hi]
  }

  function SpellParts(parts: seq<Part>): string {
    if parts == [] then "" else SpellPart(parts[0]) + SpellParts(parts[1..])
  }

  function SpellPiece(x: Piece): string {
    match x
    case Plain(c) => [c]
    case Quoted(c) => ['\\', c]
    case Any => "?"
    case Many => "*"
    case Set(not, lead, parts) => "[" + (if not then "^" else "") + (if lead.Some? then [lead.value] else "") + SpellParts(parts) + "]"
  }

  function Spell(ps: seq<Piece>): string {
    if ps == [] then "" else SpellPiece(ps[0]) + Spell(ps[1..])
  }

  predicate PartFine(x: Part) {
    match x
    case Single(c) => c != ']' && c != '-'
    case Range(lo, hi) => lo != ']' && lo != '-' && hi != ']'
  }

  function First(x: Part): char {
    match x
    case Single(c) => c
    case Range(lo, _) => lo
  }

  predicate PieceFine(x: Piece) {
    match x
    case Plain(c) => c != '*' && c != '?' && c != '[' && c != '\\'
    case Quoted(_) => true
    case Any => true
    case Many => true
    case Set(not, lead, parts) =>
      && (forall i :: 0 <= i < |parts| ==> PartFine(parts[i]))
      && (if lead.Some? then lead.value == ']' || lead.value == '-' else parts != [] && (not || First(parts[0]) != '^'))
  }

  // ----- what they mean

  predicate InPart(code: Code, t: char, x: Part) {
    match x
    case Single(c) => code(t) == code(c)
    case Range(lo, hi) => code(t) == code(lo) || code(lo) <= code(t) <= code(hi)
  }

  predicate PieceFits(code: Code, t: char, x: Piece) {
    match x
    case Plain(c) => code(t) == code(c)
    case Quoted(c) => code(t) == code(c)
    case Any => true
    case Many => false
    case Set(not, lead, parts) =>
      not != ((lead.Some? && code(t) == code(lead.value)) || exists i :: 0 <= i < |parts| && InPart(code, t, parts[i]))
  }

  /** `*` stands for any text, every other piece for one character. */
  ghost predicate Like(code: Code, text: string, ps: seq<Piece>)
    decreases |ps|
  {
    if ps == [] then text == []
    else if ps[0] == Many then exists k :: 0 <= k <= |text| && Like(code, text[k..], ps[1..])
    else text != [] && PieceFits(code, text[0], ps[0]) && Like(code, text[1..], ps[1..])
  }

  // ----- the elements they are read as

  function ItemsOf(parts: seq<Part>): seq<Item> {
    if parts == [] then []
    else
      match parts[0]
      case Single(c) => [One(c)] + ItemsOf(parts[1..])
      case Range(lo, hi) => [One(lo)] + ([Span(lo, hi)] + ItemsOf(parts[1..]))
  }

  function ElemOf(x: Piece): Elem {
    match x
    case Plain(c) => Lit(c)
    case Quoted(c) => Lit(c)
    case Any => AnyOne
    case Many => Star
    case Set(not, lead, parts) => Class(not, (if lead.Some? then [One(lead.value)] else []) + ItemsOf(parts))
  }

  function ElemsOf(ps: seq<Piece>): seq<Elem> {
    if ps == [] then [] else [ElemOf(ps[0])] + ElemsOf(ps[1..])
  }

  /** s stands in p at j. */
  predicate At(p: string, j: nat, s: string) {
    j + |s| <= |p| && forall i :: 0 <= i < |s| ==> p[j + i] == s[i]
  }

  lemma AtParts(p: string, j: nat, a: string, b: string)
    requires At(p, j, a + b)
    ensures At(p, j, a) && At(p, j + |a|, b)
  {
    forall i | 0 <= i < |a|
      ensures p[j + i] == a[i]
    {
      assert (a + b)[i] == a[i];
    }
    forall i | 0 <= i < |b|
      ensures p[j + |a| + i] == b[i]
    {
      assert (a + b)[|a| + i] == b[i];
    }
  }

  lemma {:induction false} ItemsRead(p: string, j: nat, parts: seq<Part>, last: char)
    requires forall i :: 0 <= i < |parts| ==> PartFine(parts[i])
    requires At(p, j, SpellParts(parts)) && j + |SpellParts(parts)| < |p| && p[j + |SpellParts(parts)|] == ']'
    ensures ClassItems(p, j, last) == Some((ItemsOf(parts), j + |SpellParts(parts)|))
    decreases |parts|
  {
    hide ClassItems, At;
    if parts == [] {
      CloseRead(p, j, last);
    } else {
      var s := SpellPart(parts[0]);
      assert PartFine(parts[0]);
      AtParts(p, j, s, SpellParts(parts[1..]));
      ItemsRead(p, j + |s|, parts[1..], if parts[0].Single? then parts[0].c else parts[0].hi);
      PartRead(p, j, last, parts[0]);
    }
  }

  lemma CloseRead(p: string, j: nat, last: char)
    requires j < |p| && p[j] == ']'
    ensures ClassItems(p, j, last) == Some(([], j))
  {
  }

  lemma PartRead(p: string, j: nat, last: char, x: Part)
    requires PartFine(x) && At(p, j, SpellPart(x))
    ensures ClassItems(p, j, last) ==
      match x
      case Single(c) => Ahead(One(c), ClassItems(p, j + 1, c))
      case Range(lo, hi) => Ahead(One(lo), Ahead(Span(lo, hi), ClassItems(p, j + 3, hi)))
  {
    var s := SpellPart(x);
    assert p[j + 0] == s[0];
    assert x.Range? ==> p[j + 1] == s[1] && p[j + 2] == s[2];
  }

  lemma ClassRead(p: string, j: nat, x: Piece)
    requires x.Set? && PieceFine(x) && At(p, j, SpellPiece(x))
    ensures ClassAt(p, j) == Some((ElemOf(x), j + |SpellPiece(x)| - 1))
  {
    hide ClassItems, At, ClassAt, SpellParts, ItemsOf, PartFine, SpellPiece;
    var k := SetRead(p, j, x);
    var parts := SpellParts(x.parts);
    ItemsRead(p, k, x.parts, p[k - 1]);
    SetLength(x);
    ClassIs(p, j, x.not, x.lead, ItemsOf(x.parts), k + |parts|);
  }

  /** A class from its bracket on, character by character; k is where its parts start. */
  lemma SetRead(p: string, j: nat, x: Piece) returns (k: nat)
    requires x.Set? && PieceFine(x) && At(p, j, SpellPiece(x))
    ensures var q := j + (if x.not then 1 else 0);
            && k == q + 1 + (if x.lead.Some? then 1 else 0)
            && k + |SpellParts(x.parts)| < |p| && p[k + |SpellParts(x.parts)|] == ']' && At(p, k, SpellParts(x.parts))
            && (p[j + 1] == '^' <==> x.not)
            && (if x.lead.Some? then p[q + 1] == x.lead.value else p[q + 1] != ']' && p[q + 1] != '-')
  {
    hide At, SpellParts, PartFine;
    var not := if x.not then "^" else "";
    var lead := if x.lead.Some? then [x.lead.value] else "";
    var parts := SpellParts(x.parts);
    AtParts(p, j, "[" + not + lead + parts, "]");
    AtParts(p, j, "[" + not + lead, parts);
    AtParts(p, j, "[" + not, lead);
    AtParts(p, j, "[", not);
    k := j + |not| + 1 + |lead|;
    AtOne(p, k + |parts|, ']');
    if x.not {
      AtOne(p, j + 1, '^');
    }
    if x.lead.Some? {
      AtOne(p, k - 1, x.lead.value);
    } else {
      FirstSpelled(x.parts);
      AtFirst(p, k, parts);
      NotBracket(x.parts[0]);
    }
  }

  lemma NotBracket(x: Part)
    requires PartFine(x)
    ensures First(x) != ']' && First(x) != '-'
  {
  }

  lemma AtOne(p: string, j: nat, c: char)
    requires At(p, j, [c])
    ensures j < |p| && p[j] == c
  {
    assert p[j + 0] == [c][0];
  }

  lemma AtFirst(p: string, j: nat, s: string)
    requires At(p, j, s) && s != ""
    ensures j < |p| && p[j] == s[0]
  {
    assert p[j + 0] == s[0];
  }

  lemma ClassIs(p: string, j: nat, not: bool, lead: Option<char>, items: seq<Item>, end: nat)
    requires var q := j + (if not then 1 else 0);
             var k := q + 1 + (if lead.Some? then 1 else 0);
             && k <= end < |p| && (p[j + 1] == '^' <==> not)
             && (if lead.Some? then p[q + 1] == lead.value && (lead.value == ']' || lead.value == '-') else p[q + 1] != ']' && p[q + 1] != '-')
             && ClassItems(p, k, p[k - 1]) == Some((items, end))
    ensures ClassAt(p, j) == Some((Class(not, (if lead.Some? then [One(lead.value)] else []) + items), end))
  {
    hide ClassItems;
    NothingAhead(items);
  }

  lemma SetLength(x: Piece)
    requires x.Set?
    ensures |SpellPiece(x)| == (if x.not then 3 else 2) + (if x.lead.Some? then 1 else 0) + |SpellParts(x.parts)|
  {
    hide SpellParts;
  }

  lemma NothingAhead(items: seq<Item>)
    ensures [] + items == items
  {
  }

  lemma FirstSpelled(parts: seq<Part>)
    requires parts != []
    ensures SpellParts(parts) != "" && SpellParts(parts)[0] == First(parts[0])
  {
  }

  lemma {:induction false} PiecesRead(p: string, j: nat, ps: seq<Piece>)
    requires forall i :: 0 <= i < |ps| ==> PieceFine(ps[i])
    requires At(p, j, Spell(ps)) && j + |Spell(ps)| == |p|
    ensures Parse(p, j) == Some(ElemsOf(ps))
    decreases |ps|
  {
    hide At, Parse, PieceFine, SpellPiece, ElemOf;
    if ps == [] {
      ParseEnd(p);
    } else {
      AtParts(p, j, SpellPiece(ps[0]), Spell(ps[1..]));
      assert PieceFine(ps[0]);
      PiecesRead(p, j + |SpellPiece(ps[0])|, ps[1..]);
      PieceRead(p, j, ps[0]);
    }
  }

  lemma ParseEnd(p: string)
    ensures Parse(p, |p|) == Some([])
  {
  }

  lemma PieceRead(p: string, j: nat, x: Piece)
    requires PieceFine(x) && At(p, j, SpellPiece(x))
    ensures j + |SpellPiece(x)| <= |p| && Parse(p, j) == Before(ElemOf(x), Parse(p, j + |SpellPiece(x)|))
  {
    hide ClassAt, SpellParts, ItemsOf;
    var s := SpellPiece(x);
    AtFirst(p, j, s);
    if x.Set? {
      ClassRead(p, j, x);
    } else if x.Quoted? {
      assert p[j + 1] == s[1];
    }
  }

  // ----- the meaning of a written pattern

  lemma {:induction false} ItemsMean(code: Code, t: char, parts: seq<Part>)
    ensures InItems(code, t, ItemsOf(parts)) <==> exists i :: 0 <= i < |parts| && InPart(code, t, parts[i])
    decreases |parts|
  {
    if parts != [] {
      var head := if parts[0].Single? then [One(parts[0].c)] else [One(parts[0].lo), Span(parts[0].lo, parts[0].hi)];
      assert ItemsOf(parts) == head + ItemsOf(parts[1..]);
      ItemsMean(code, t, parts[1..]);
      HeadMeans(code, t, parts[0], head);
      InItemsEither(code, t, head, ItemsOf(parts[1..]));
      PartsEither(code, t, parts);
      hide InItems, InPart;
    }
  }

  lemma HeadMeans(code: Code, t: char, x: Part, head: seq<Item>)
    requires head == if x.Single? then [One(x.c)] else [One(x.lo), Span(x.lo, x.hi)]
    ensures InItems(code, t, head) <==> InPart(code, t, x)
  {
    assert InItem(code, t, head[0]) <==> code(t) == code(First(x));
    assert x.Range? ==> (InItem(code, t, head[1]) <==> code(x.lo) <= code(t) <= code(x.hi));
  }

  lemma InItemsEither(code: Code, t: char, a: seq<Item>, b: seq<Item>)
    ensures InItems(code, t, a + b) <==> InItems(code, t, a) || InItems(code, t, b)
  {
    hide InItem;
    if i :| 0 <= i < |a| && InItem(code, t, a[i]) {
      assert InItem(code, t, (a + b)[i]);
    }
    if i :| 0 <= i < |b| && InItem(code, t, b[i]) {
      assert InItem(code, t, (a + b)[|a| + i]);
    }
  }

  lemma PartsEither(code: Code, t: char, parts: seq<Part>)
    requires parts != []
    ensures (exists i :: 0 <= i < |parts| && InPart(code, t, parts[i])) <==>
      InPart(code, t, parts[0]) || exists i :: 0 <= i < |parts[1..]| && InPart(code, t, parts[1..][i])
  {
    hide InPart;
    if i :| 0 <= i < |parts| && InPart(code, t, parts[i]) {
      assert i > 0 ==> parts[1..][i - 1] == parts[i];
    }
    if i :| 0 <= i < |parts[1..]| && InPart(code, t, parts[1..][i]) {
      assert parts[i + 1] == parts[1..][i];
    }
  }

  lemma PieceMeans(code: Code, t: char, x: Piece)
    ensures Fits(code, t, ElemOf(x)) <==> PieceFits(code, t, x)
    ensures ElemOf(x) == Star <==> x == Many
  {
    if x.Set? {
      var lead := if x.lead.Some? then [One(x.lead.value)] else [];
      ItemsMean(code, t, x.parts);
      InItemsEither(code, t, lead, ItemsOf(x.parts));
      InItemsFirst(code, t, if x.lead.Some? then x.lead.value else ' ');
      hide InItems, InPart;
    }
  }

  /** A written pattern is accepted, and matches exactly the texts its pieces stand for. */
  lemma WrittenMeans(code: Code, text: string, ps: seq<Piece>)
    requires forall i :: 0 <= i < |ps| ==> PieceFine(ps[i])
    ensures Parse(Spell(ps), 0).Some? && (Matches(code, text, Parse(Spell(ps), 0).value) <==> Like(code, text, ps))
  {
    hide Parse, Spell, PieceFine, Matches, Like;
    PiecesRead(Spell(ps), 0, ps);
    ElemsMean(code, text, ps);
  }

  lemma {:induction false} ElemsMean(code: Code, text: string, ps: seq<Piece>)
    ensures Matches(code, text, ElemsOf(ps)) <==> Like(code, text, ps)
    decreases |ps|
  {
    hide Fits, PieceFits;
    if ps != [] {
      var es := ElemsOf(ps);
      assert es[0] == ElemOf(ps[0]) && es[1..] == ElemsOf(ps[1..]);
      PieceMeans(code, if text != [] then text[0] else ' ', ps[0]);
      forall k | 0 <= k <= |text|
        ensures Matches(code, text[k..], es[1..]) <==> Like(code, text[k..], ps[1..])
      {
        ElemsMean(code, text[k..], ps[1..]);
      }
    }
  }
}

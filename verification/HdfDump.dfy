/** The compact text of a dataset, and that reading it back rebuilds the dataset. */
module HdfDump {
  import opened Wrappers
  import opened HdfNames
  import opened HdfDir
  import opened HdfLinks
  import opened HdfSets
  import opened HdfPending
  import opened HdfWalk
  import opened HdfLines
  import opened HdfText

  ghost function Under(d: Dir, p: Path): (u: set<Path>) {
    set q | q in d && p <= q
  }

  lemma UnderKid(d: Dir, p: Path, c: string)
    requires p in d
    ensures Under(d, p + [c]) < Under(d, p)
  {
    assert p in Under(d, p) && p !in Under(d, p + [c]);
    forall q | q in Under(d, p + [c])
      ensures q in Under(d, p)
    {
      assert p <= p + [c] <= q;
    }
  }

  function ValueLine(c: string, e: Entry): (s: string) {
    if e.value.None? then "" else c + (if e.link then " : " else " = ") + e.value.value + "\n"
  }

  /** What the writer produces for the children of p from the i-th on. */
  ghost function Text(d: Dir, p: Path, i: nat): (s: string)
    decreases Under(d, p), if p in d then |d[p].kids| - i else 0
  {
    if p !in d || i >= |d[p].kids| || p + [d[p].kids[i]] !in d then ""
    else
      UnderKid(d, p, d[p].kids[i]);
      ValueLine(d[p].kids[i], d[p + [d[p].kids[i]]]) + Block(d, p + [d[p].kids[i]], d[p].kids[i]) + Text(d, p, i + 1)
  }

  /** The block of the node at q, called c, if it has children. */
  ghost function Block(d: Dir, q: Path, c: string): (s: string)
    decreases Under(d, q), if q in d then |d[q].kids| + 1 else 0
  {
    if q !in d || d[q].kids == [] then "" else OpenLine(c) + Text(d, q, 0) + "}\n"
  }

  function OpenLine(c: string): string {
    c + " {\n"
  }

  /** What the text format can carry: names of letters, digits and underscores, single-line
      trimmed values, links without children, and a value on every leaf. */
  ghost predicate Writable(d: Dir) {
    && WellFormed(d)
    && (forall q, c :: q in d && c in d[q].kids ==> WordName(c))
    && (forall q :: q in d && d[q].value.Some? ==> Trimmed(d[q].value.value) && '\n' !in d[q].value.value)
    && (forall q :: q in d && d[q].link ==> d[q].kids == [])
    && (forall q :: q in d && q != [] && d[q].value.None? ==> d[q].kids != [])
  }

  /** q is at or below one of the children of p from the i-th on. */
  ghost predicate InKids(d: Dir, p: Path, i: nat, q: Path) {
    q in d && p in d && i <= |d[p].kids| && p < q && q[|p|] in d[p].kids[i..]
  }

  /** The dataset s, with the children of p in d from the i-th on, and all below them, copied
      under p. */
  ghost function CopyFrom(s: Dir, d: Dir, p: Path, i: nat): (e: Dir)
    requires p in s && p in d && i <= |d[p].kids|
  {
    map q | q in s.Keys + d.Keys && (q in s || InKids(d, p, i, q)) ::
      if q == p then s[p].(kids := s[p].kids + d[p].kids[i..])
      else if InKids(d, p, i, q) then d[q]
      else s[q]
  }

  /** Nothing of what is to be copied is there yet. */
  ghost predicate Clear(s: Dir, d: Dir, p: Path, i: nat) {
    forall q :: InKids(d, p, i, q) ==> q !in s
  }

  lemma CopyLookup(s: Dir, d: Dir, p: Path, i: nat, r: Path)
    requires p in s && p in d && i <= |d[p].kids|
    ensures var e := CopyFrom(s, d, p, i);
            && (r in e <==> r in s || InKids(d, p, i, r))
            && (r == p ==> e[r] == s[p].(kids := s[p].kids + d[p].kids[i..]))
            && (r != p && InKids(d, p, i, r) ==> e[r] == d[r])
            && (r != p && r in s && !InKids(d, p, i, r) ==> e[r] == s[r])
  {
  }

  lemma CopyNothing(s: Dir, d: Dir, p: Path)
    requires p in s && p in d
    ensures CopyFrom(s, d, p, |d[p].kids|) == s
  {
    assert d[p].kids[|d[p].kids|..] == [];
    assert s[p].kids + [] == s[p].kids;
  }

  lemma CopyAllAt(d: Dir, r: Path)
    requires WellFormed(d) && d[[]].value == None
    ensures r in CopyFrom(NEW_DIR, d, [], 0) <==> r in d
    ensures r in d ==> CopyFrom(NEW_DIR, d, [], 0)[r] == d[r]
  {
    assert [] in d && !d[[]].link;
    CopyLookup(NEW_DIR, d, [], 0, r);
    assert d[[]].kids[0..] == d[[]].kids && [] + d[[]].kids == d[[]].kids;
    if r in d && r != [] {
      BelowKid(d, [], r);
    }
    hide WellFormed, CopyFrom;
  }

  lemma CopyAll(d: Dir)
    requires WellFormed(d) && d[[]].value == None
    ensures CopyFrom(NEW_DIR, d, [], 0) == d
  {
    assert [] in d;
    hide WellFormed, CopyFrom;
    forall r
      ensures r in CopyFrom(NEW_DIR, d, [], 0) <==> r in d
      ensures r in d ==> CopyFrom(NEW_DIR, d, [], 0)[r] == d[r]
    {
      CopyAllAt(d, r);
    }
  }

  /** A path strictly below p goes through a child of p. */
  lemma {:induction false} BelowKid(d: Dir, p: Path, q: Path)
    requires WellFormed(d) && p in d && q in d && p < q
    ensures q[|p|] in d[p].kids && p + [q[|p|]] in d && p + [q[|p|]] <= q
    decreases |q|
  {
    assert InPlace(d, q);
    if |q| == |p| + 1 {
      assert Parent(q) == p && Last(q) == q[|p|];
      assert p + [Last(q)] == q;
    } else {
      BelowKid(d, p, Parent(q));
    }
  }

  /** Where a path stands with respect to the i-th child of p. */
  lemma KidCases(d: Dir, p: Path, i: nat, r: Path)
    requires WellFormed(d) && p in d && i < |d[p].kids|
    ensures var q := p + [d[p].kids[i]];
            && q in d && q != p && !InKids(d, q, 0, p) && !InKids(d, p, i, p)
            && (InKids(d, p, i, r) <==> InKids(d, p, i + 1, r) || r == q || InKids(d, q, 0, r))
            && !InKids(d, p, i + 1, q) && !InKids(d, q, 0, q)
            && (InKids(d, q, 0, r) ==> !InKids(d, p, i + 1, r) && r != p && r != q)
            && (InKids(d, p, i + 1, r) ==> r != q && r != p)
  {
    var kids := d[p].kids;
    var c := kids[i];
    var q := p + [c];
    assert kids[i..] == [c] + kids[i + 1..];
    assert c !in kids[i + 1..] by {
      assert NoDuplicates(kids);
    }
    assert c in kids;
    if r in d && p < r {
      if r[|p|] == c {
        assert q <= r;
        if r != q {
          BelowKid(d, q, r);
        }
      }
    }
  }

  /** One path of a copy done in two parts. */
  lemma CopyStepAt(s: Dir, d: Dir, p: Path, i: nat, r: Path)
    requires WellFormed(d) && p in d && i < |d[p].kids|
    requires p in s && Clear(s, d, p, i)
    ensures var c := d[p].kids[i];
            var q := p + [c];
            && q in d && q !in s && c !in d[p].kids[i + 1..]
            && var s1 := AddKid(s, p, c, d[q].value, d[q].link);
               && p in s1 && q in s1 && (InKids(d, q, 0, r) ==> r !in s1)
               && var s2 := CopyFrom(s1, d, q, 0);
                  && p in s2 && (InKids(d, p, i + 1, r) ==> r !in s2)
                  && var a, b := CopyFrom(s2, d, p, i + 1), CopyFrom(s, d, p, i);
                     (r in a <==> r in b) && (r in a ==> a[r] == b[r])
  {
    var c := d[p].kids[i];
    var q := p + [c];
    KidCases(d, p, i, q);
    KidCases(d, p, i, r);
    AddKidLookup(s, p, c, d[q].value, d[q].link);
    var s1 := AddKid(s, p, c, d[q].value, d[q].link);
    assert c !in d[p].kids[i + 1..] by {
      assert NoDuplicates(d[p].kids);
    }
    hide AddKid, InKids, WellFormed, CopyFrom;
    CopyLookup(s1, d, q, 0, r);
    CopyLookup(s1, d, q, 0, p);
    var s2 := CopyFrom(s1, d, q, 0);
    CopyLookup(s2, d, p, i + 1, r);
    CopyLookup(s, d, p, i, r);
    KidsSplit(s[p].kids, d[p].kids, i);
    assert s2[p] == s1[p];
    if r == p {
    } else if r == q {
      assert [] + d[q].kids[0..] == d[q].kids;
    } else if InKids(d, q, 0, r) {
    } else if InKids(d, p, i + 1, r) {
    } else {
    }
  }

  lemma KidsSplit(a: seq<string>, kids: seq<string>, i: nat)
    requires i < |kids|
    ensures a + kids[i..] == a + [kids[i]] + kids[i + 1..]
  {
  }

  /** Copying the i-th child and what is below it, and then the rest, copies all. */
  lemma CopyStep(s: Dir, d: Dir, p: Path, i: nat)
    requires WellFormed(d) && p in d && i < |d[p].kids|
    requires p in s && Clear(s, d, p, i)
    ensures var c := d[p].kids[i];
            var q := p + [c];
            && q in d && q !in s && c !in d[p].kids[i + 1..]
            && var s1 := AddKid(s, p, c, d[q].value, d[q].link);
               && q in s1 && Clear(s1, d, q, 0)
               && var s2 := CopyFrom(s1, d, q, 0);
                  && p in s2 && Clear(s2, d, p, i + 1)
                  && CopyFrom(s2, d, p, i + 1) == CopyFrom(s, d, p, i)
  {
    hide AddKid, InKids, WellFormed, CopyFrom;
    CopyStepAt(s, d, p, i, p);
    var c := d[p].kids[i];
    var q := p + [c];
    var s1 := AddKid(s, p, c, d[q].value, d[q].link);
    var s2 := CopyFrom(s1, d, q, 0);
    var a, b := CopyFrom(s2, d, p, i + 1), CopyFrom(s, d, p, i);
    forall r
      ensures InKids(d, q, 0, r) ==> r !in s1
      ensures InKids(d, p, i + 1, r) ==> r !in s2
      ensures r in a <==> r in b
      ensures r in a ==> a[r] == b[r]
    {
      CopyStepAt(s, d, p, i, r);
    }
  }

  // ----- the reader on the lines the writer produces

  lemma {:induction false} WordComponents(c: string, n: nat)
    requires WordName(c) && n <= |c|
    ensures Dot(c, n) == |c| && Components(c, n) == [c[n..]]
    decreases |c| - n
  {
    assert c[n..|c|] == c[n..];
    if n < |c| {
      WordComponents(c, n + 1);
    }
  }

  lemma WordFacts(c: string)
    requires WordName(c)
    ensures c != "" && GoodName(c) && '\n' !in c && Components(c, 0) == [c]
  {
    WordComponents(c, 0);
    assert c[0..] == c;
  }

  /** Setting a word below p makes a child. */
  lemma SetWord(s: Dir, p: Path, c: string, value: Option<string>, link: bool, g: Guide)
    requires Sound(s, p) && WordName(c) && p + [c] !in s && (link ==> value.Some?)
    ensures Storable(s, p, c, g)
    ensures Stores(s, p, c, value, link, g) == Stored(AddKid(s, p, c, value, link), p + [c])
    ensures var e := AddKid(s, p, c, value, link);
            Sound(e, p) && Sound(e, p + [c]) && e[p].link == s[p].link && e[p + [c]].link == link
  {
    WordFacts(c);
    assert Parent([c]) == [];
    SetAtStep(s, g.ranks(p), p, p, [c], value, link, g.bound);
    AddKidLookup(s, p, c, value, link);
    AddKidWellFormed(s, p, c, value, link);
  }

  lemma WalkWord(s: Dir, p: Path, c: string, g: Guide)
    requires Sound(s, p) && WordName(c) && !s[p].link && (p + [c] in s ==> !s[p + [c]].link)
    ensures Walkable(s, p, c, g) && Leads(s, p, c, g) == p + [c]
  {
    WordFacts(c);
    LastStep(s, g.ranks([]), [], p, c, g.bound);
  }

  lemma ReadStored(s: Dir, p: Path, text: string, pos: nat, ignore: bool, g: Guide, line: string, c: string, v: string, link: bool)
    requires Sound(s, p) && WordName(c) && p + [c] !in s
    requires At(text, pos, line + "\n") && '\n' !in line && ParseLine(line) == (if link then Link(c, v) else Assign(c, v))
    ensures pos + |line| + 1 <= |text|
    ensures Sound(AddKid(s, p, c, Some(v), link), p)
    ensures ReadLines(s, p, text, pos, ignore, g)
         == ReadLines(AddKid(s, p, c, Some(v), link), p, text, pos + |line| + 1, ignore, g)
  {
    hide Sound, Stores, Storable, AddKid, At, ParseLine, LineEnd, NextLine, WordName, ReadLines, Walkable, ValueAt;
    AtFits(text, pos, line + "\n");
    WrittenLine(text, pos, line);
    SetWord(s, p, c, Some(v), link, g);
    ReadStore(s, p, text, pos, ignore, g, c, v, link);
  }

  lemma AtFits(text: string, pos: nat, s: string)
    requires At(text, pos, s)
    ensures pos + |s| <= |text|
  {
  }

  lemma ReadClose(s: Dir, p: Path, text: string, pos: nat, ignore: bool, g: Guide)
    requires Sound(s, p) && At(text, pos, "}\n")
    ensures pos < |text| && ReadLines(s, p, text, pos, ignore, g) == Done(s, pos + 2)
  {
    hide Sound, At, ParseLine, ReadLines;
    assert "}\n" == "}" + "\n";
    WrittenLine(text, pos, "}");
    ParseClosing();
    ReadStep(s, p, text, pos, ignore, g);
  }

  /** What an opening line starts with, where the child may be there already. */
  ghost function WithKid(s: Dir, p: Path, c: string): (e: Dir)
    requires p in s
  {
    if p + [c] in s then s else AddKid(s, p, c, None, false)
  }

  lemma ReadOpen(s: Dir, p: Path, text: string, pos: nat, ignore: bool, g: Guide, c: string)
    requires Sound(s, p) && WordName(c) && At(text, pos, OpenLine(c)) && !s[p].link && (p + [c] in s ==> !s[p + [c]].link)
    ensures pos + |OpenLine(c)| <= |text| && Sound(WithKid(s, p, c), p) && Sound(WithKid(s, p, c), p + [c])
    ensures var inner := ReadLines(WithKid(s, p, c), p + [c], text, pos + |OpenLine(c)|, ignore, g);
            ReadLines(s, p, text, pos, ignore, g)
            == if inner.Done? && Sound(inner.d, p) then ReadLines(inner.d, p, text, inner.pos, ignore, g) else inner
  {
    hide Stores, Storable, Walkable, Leads, AddKid, At, ParseLine, WellFormed;
    var line := c + " {";
    assert OpenLine(c) == line + "\n";
    WordFacts(c);
    AtFits(text, pos, line + "\n");
    WrittenLine(text, pos, line);
    ParseOpening(c);
    WalkWord(s, p, c, g);
    if p + [c] !in s {
      SetWord(s, p, c, None, false, g);
    }
    assert Openable(s, p, c, g);
    assert Opened(s, p, c, g) == Stored(WithKid(s, p, c), p + [c]);
    hide Sound, ReadLines;
    ReadOpened(s, p, text, pos, ignore, g, c);
  }

  // ----- the round trip

  lemma KidWritable(d: Dir, p: Path, i: nat)
    requires Writable(d) && p in d && i < |d[p].kids|
    ensures var c := d[p].kids[i];
            && WordName(c) && p + [c] in d && p + [c] != [] && (d[p + [c]].link ==> d[p + [c]].value.Some? && d[p + [c]].kids == [])
            && (d[p + [c]].value.Some? ==> Trimmed(d[p + [c]].value.value) && '\n' !in d[p + [c]].value.value)
            && (d[p + [c]].value.None? ==> d[p + [c]].kids != [])
  {
    assert d[p].kids[i] in d[p].kids;
  }

  /** The line of a child's value, if it has one, is read as the making of the child. */
  lemma ReadValue(s: Dir, p: Path, text: string, pos: nat, ignore: bool, g: Guide, c: string, e: Entry)
    requires Sound(s, p) && WordName(c) && p + [c] !in s && At(text, pos, ValueLine(c, e))
    requires e.value.Some? ==> Trimmed(e.value.value) && '\n' !in e.value.value
    ensures var s' := if e.value.Some? then AddKid(s, p, c, e.value, e.link) else s;
            && pos + |ValueLine(c, e)| <= |text| && Sound(s', p)
            && ReadLines(s, p, text, pos, ignore, g) == ReadLines(s', p, text, pos + |ValueLine(c, e)|, ignore, g)
  {
    hide Sound, AddKid, ReadLines, ParseLine, Trimmed, WordName, At;
    AtFits(text, pos, ValueLine(c, e));
    if e.value.Some? {
      var line := PlainLine(c, e.value.value, e.link);
      PlainLineFacts(c, e);
      ReadStored(s, p, text, pos, ignore, g, line, c, e.value.value, e.link);
    }
  }

  function PlainLine(c: string, v: string, link: bool): string {
    c + (if link then " : " else " = ") + v
  }

  lemma PlainLineFacts(c: string, e: Entry)
    requires e.value.Some? && WordName(c) && Trimmed(e.value.value) && '\n' !in e.value.value
    ensures ValueLine(c, e) == PlainLine(c, e.value.value, e.link) + "\n" && '\n' !in PlainLine(c, e.value.value, e.link)
    ensures ParseLine(PlainLine(c, e.value.value, e.link))
         == if e.link then Link(c, e.value.value) else Assign(c, e.value.value)
  {
    WordFacts(c);
    if e.link {
      ParseLinked(c, e.value.value);
    } else {
      ParseWritten(c, e.value.value);
    }
  }

  lemma At3(text: string, pos: nat, x: string, a: string, b: string, c: string)
    requires x == a + b + c && At(text, pos, x)
    ensures At(text, pos, a) && At(text, pos + |a|, b) && At(text, pos + |a| + |b|, c) && |x| == |a| + |b| + |c|
  {
    hide At;
    AtConcat(text, pos, a + b, c);
    AtConcat(text, pos, a, b);
  }

  lemma BlockIs(d: Dir, q: Path, c: string)
    requires q in d
    ensures d[q].kids == [] ==> Block(d, q, c) == ""
    ensures d[q].kids != [] ==> Block(d, q, c) == OpenLine(c) + Text(d, q, 0) + "}\n"
  {
  }

  lemma TextIs(d: Dir, p: Path, i: nat)
    requires WellFormed(d) && p in d && i < |d[p].kids|
    ensures p + [d[p].kids[i]] in d
    ensures Text(d, p, i) == ValueLine(d[p].kids[i], d[p + [d[p].kids[i]]]) + Block(d, p + [d[p].kids[i]], d[p].kids[i]) + Text(d, p, i + 1)
  {
    assert d[p].kids[i] in d[p].kids;
  }

  /** What is written for one child: its value, behind a colon if it is a link, and its children
      between braces. */
  lemma TextSpelled(d: Dir, p: Path, i: nat)
    requires WellFormed(d) && p in d && i < |d[p].kids|
    ensures p + [d[p].kids[i]] in d
    ensures var c, q := d[p].kids[i], p + [d[p].kids[i]];
            var value := match d[q].value case None => "" case Some(v) => c + (if d[q].link then " : " else " = ") + v + "\n";
            var block := if d[q].kids == [] then "" else c + " {\n" + Text(d, q, 0) + "}\n";
            Text(d, p, i) == value + block + Text(d, p, i + 1)
  {
    hide Text, Block, WellFormed;
    TextIs(d, p, i);
    BlockIs(d, p + [d[p].kids[i]], d[p].kids[i]);
  }

  /** The block of a child, if it has one, is read as the copying of what is below the child. */
  lemma {:induction false} ReadBlock(s: Dir, s1: Dir, d: Dir, p: Path, text: string, pos: nat, ignore: bool, g: Guide,
                                     c: string, q: Path)
    requires Writable(d) && WordName(c) && q == p + [c] && q in d
    requires Sound(s, p) && !s[p].link && At(text, pos, Block(d, q, c))
    requires s1 == WithKid(s, p, c) && (d[q].kids == [] ==> s1 == s)
    requires Sound(s1, p) && Sound(s1, q) && (d[q].kids != [] ==> !s1[q].link) && Clear(s1, d, q, 0)
    requires p in CopyFrom(s1, d, q, 0)
    ensures pos + |Block(d, q, c)| <= |text| && Sound(CopyFrom(s1, d, q, 0), p)
    ensures ReadLines(s, p, text, pos, ignore, g) == ReadLines(CopyFrom(s1, d, q, 0), p, text, pos + |Block(d, q, c)|, ignore, g)
    decreases Under(d, q), |d[q].kids| + 1
  {
    hide *;
    WritableFacts(s, d, p);
    WritableFacts(s1, d, q);
    AtFits(text, pos, Block(d, q, c));
    BlockIs(d, q, c);
    if d[q].kids == [] {
      CopyNothing(s1, d, q);
    } else {
      var a, t := OpenLine(c), Text(d, q, 0);
      At3(text, pos, Block(d, q, c), a, t, "}\n");
      WithKidThere(s, p, c);
      ReadOpen(s, p, text, pos, ignore, g, c);
      ReadBack(s1, d, q, 0, text, pos + |a|, ignore, g);
      ReadClose(CopyFrom(s1, d, q, 0), q, text, pos + |a| + |t|, ignore, g);
      SoundAt(CopyFrom(s1, d, q, 0), q, p);
    }
  }

  lemma WithKidThere(s: Dir, p: Path, c: string)
    requires p in s
    ensures p + [c] in s ==> WithKid(s, p, c) == s
  {
  }

  lemma SoundAt(s: Dir, q: Path, p: Path)
    requires Sound(s, q) && p in s
    ensures Sound(s, p)
  {
  }

  /** Reading what the writer produced for the children of p from the i-th on copies them, and
      all that is below them, under p. */
  lemma {:induction false} ReadBack(s: Dir, d: Dir, p: Path, i: nat, text: string, pos: nat, ignore: bool, g: Guide)
    requires Writable(d) && p in d && i <= |d[p].kids|
    requires Sound(s, p) && !s[p].link && Clear(s, d, p, i) && At(text, pos, Text(d, p, i))
    ensures pos + |Text(d, p, i)| <= |text| && Sound(CopyFrom(s, d, p, i), p)
    ensures ReadLines(s, p, text, pos, ignore, g)
         == ReadLines(CopyFrom(s, d, p, i), p, text, pos + |Text(d, p, i)|, ignore, g)
    decreases Under(d, p), |d[p].kids| - i
  {
    hide *;
    WritableFacts(s, d, p);
    AtFits(text, pos, Text(d, p, i));
    if i == |d[p].kids| {
      CopyNothing(s, d, p);
      TextEnd(d, p);
    } else {
      var c := d[p].kids[i];
      var q := p + [c];
      KidRead(s, d, p, i, text, pos, ignore, g);
      var v, b := ValueLine(c, d[q]), Block(d, q, c);
      var s1 := AddKid(s, p, c, d[q].value, d[q].link);
      var s' := if d[q].value.Some? then s1 else s;
      UnderKid(d, p, c);
      ReadBlock(s', s1, d, p, text, pos + |v|, ignore, g, c, q);
      ReadBack(CopyFrom(s1, d, q, 0), d, p, i + 1, text, pos + |v| + |b|, ignore, g);
    }
  }

  /** The line of the i-th child's value has been read; its block and the later children are to come. */
  lemma KidRead(s: Dir, d: Dir, p: Path, i: nat, text: string, pos: nat, ignore: bool, g: Guide)
    requires Writable(d) && p in d && i < |d[p].kids|
    requires Sound(s, p) && !s[p].link && Clear(s, d, p, i) && At(text, pos, Text(d, p, i))
    ensures var c := d[p].kids[i];
            var q := p + [c];
            && WordName(c) && q in d
            && var v, b, s1 := ValueLine(c, d[q]), Block(d, q, c), AddKid(s, p, c, d[q].value, d[q].link);
               && At(text, pos + |v|, b) && At(text, pos + |v| + |b|, Text(d, p, i + 1)) && pos + |v| <= |text|
               && |Text(d, p, i)| == |v| + |b| + |Text(d, p, i + 1)|
               && var s' := if d[q].value.Some? then s1 else s;
                  && Sound(s', p) && !s'[p].link && s1 == WithKid(s', p, c) && (d[q].kids == [] ==> s1 == s')
                  && ReadLines(s, p, text, pos, ignore, g) == ReadLines(s', p, text, pos + |v|, ignore, g)
                  && q in s1 && Sound(s1, p) && Sound(s1, q) && (d[q].kids != [] ==> !s1[q].link) && Clear(s1, d, q, 0)
                  && var s2 := CopyFrom(s1, d, q, 0);
                     && p in s2 && !s2[p].link && Clear(s2, d, p, i + 1)
                     && CopyFrom(s2, d, p, i + 1) == CopyFrom(s, d, p, i)
  {
    hide *;
    WritableFacts(s, d, p);
    var c := d[p].kids[i];
    var q := p + [c];
    CopyStep(s, d, p, i);
    TextIs(d, p, i);
    KidWritable(d, p, i);
    At3(text, pos, Text(d, p, i), ValueLine(c, d[q]), Block(d, q, c), Text(d, p, i + 1));
    ReadValue(s, p, text, pos, ignore, g, c, d[q]);
    SetWord(s, p, c, d[q].value, d[q].link, g);
    WithKidMade(s, p, c, d[q].value, d[q].link);
    CopyLink(AddKid(s, p, c, d[q].value, d[q].link), d, p, q);
  }

  /** Copying below q does not make p a link. */
  lemma CopyLink(s: Dir, d: Dir, p: Path, q: Path)
    requires WellFormed(d) && q in s && q in d && p in s && p < q
    ensures p in CopyFrom(s, d, q, 0) && CopyFrom(s, d, q, 0)[p].link == s[p].link
  {
    CopyLookup(s, d, q, 0, p);
  }

  lemma WritableFacts(s: Dir, d: Dir, p: Path)
    requires Writable(d) && Sound(s, p)
    ensures WellFormed(d) && p in s
  {
  }

  lemma TextEnd(d: Dir, p: Path)
    requires p in d
    ensures |Text(d, p, |d[p].kids|)| == 0
  {
  }

  lemma WithKidMade(s: Dir, p: Path, c: string, value: Option<string>, link: bool)
    requires p in s && p + [c] !in s
    ensures p in AddKid(s, p, c, value, link) && WithKid(AddKid(s, p, c, value, link), p, c) == AddKid(s, p, c, value, link)
    ensures WithKid(s, p, c) == AddKid(s, p, c, None, false)
  {
  }

  /** Writing a dataset and reading the text into a new one is the identity: every path, its
      value, links as links wherever they lead, and the order of the children. */
  lemma RoundTrip(d: Dir, ignore: bool, g: Guide)
    requires Writable(d) && d[[]].value == None
    ensures Sound(NEW_DIR, [])
    ensures ReadLines(NEW_DIR, [], Text(d, [], 0), 0, ignore, g) == Done(d, |Text(d, [], 0)|)
  {
    hide *;
    WritableTop(d);
    NewSound(d);
    var text := Text(d, [], 0);
    AtAll(text);
    CopyAll(d);
    ReadBack(NEW_DIR, d, [], 0, text, 0, ignore, g);
    ReadEnd(d, [], text, ignore, g);
  }

  lemma WritableTop(d: Dir)
    requires Writable(d)
    ensures WellFormed(d) && [] in d
  {
  }

  lemma ReadEnd(d: Dir, p: Path, text: string, ignore: bool, g: Guide)
    requires Sound(d, p)
    ensures ReadLines(d, p, text, |text|, ignore, g) == Done(d, |text|)
  {
  }

  lemma AtAll(text: string)
    ensures At(text, 0, text)
  {
    assert text[0..0 + |text|] == text;
  }

  lemma NewSound(d: Dir)
    requires WellFormed(d)
    ensures Sound(NEW_DIR, []) && !NEW_DIR[[]].link && Clear(NEW_DIR, d, [], 0)
  {
    NewWellFormed();
  }
}

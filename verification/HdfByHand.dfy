/** HDF text as people write it, and what it makes of a dataset without links: values, copies,
    comments, blank lines and nested blocks, with white space anywhere the format allows it. */
module HdfByHand {
  import opened Wrappers
  import opened HdfNames
  import opened HdfDir
  import opened HdfLinks
  import opened HdfSets
  import opened HdfLaws
  import opened HdfPending
  import opened HdfWalk
  import opened HdfLines
  import opened HdfText
  import opened HdfDump

  /** The white space of a line: before the name, behind it, before the value and behind it. */
  datatype Form = Form(u: string, v: string, w: string, x: string)

  datatype Stmt =
    | Comment(u: string, rest: string)
    | Space(u: string)
    | Gives(f: Form, name: string, value: string)
    | Copies(f: Form, name: string, source: string)
    | Opens(f: Form, name: string, rest: string, body: seq<Stmt>)

  // ----- the text

  /** The lines of a statement: a block ends with a brace behind and before white space. */
  function SpellOne(x: Stmt): (s: string)
    decreases x, 1
  {
    match x
    case Comment(u, rest) => u + ("#" + rest) + "\n"
    case Space(u) => u + "\n"
    case Gives(f, name, value) => f.u + name + f.v + "=" + f.w + value + f.x + "\n"
    case Copies(f, name, source) => f.u + name + f.v + ":=" + f.w + source + f.x + "\n"
    case Opens(f, name, rest, body) => f.u + name + f.v + "{" + rest + "\n" + SpellAll(body) + (f.w + ("}" + f.x) + "\n")
  }

  function SpellAll(stmts: seq<Stmt>): (s: string)
    decreases stmts, 0
  {
    if stmts == [] then "" else SpellOne(stmts[0]) + SpellAll(stmts[1..])
  }

  predicate OneLine(s: string) {
    '\n' !in s
  }

  predicate White(f: Form) {
    && AllSpace(f.u) && AllSpace(f.v) && AllSpace(f.w) && AllSpace(f.x)
    && OneLine(f.u) && OneLine(f.v) && OneLine(f.w) && OneLine(f.x)
  }

  predicate GoodDotted(name: string) {
    name != "" && AllName(name) && GoodPath(Components(name, 0))
  }

  /** What the format allows in each place. */
  predicate StmtFine(x: Stmt)
    decreases x, 1
  {
    match x
    case Comment(u, rest) => AllSpace(u) && OneLine(u) && OneLine(rest) && !(INCLUDE <= "#" + rest)
    case Space(u) => AllSpace(u) && OneLine(u)
    case Gives(f, name, value) => White(f) && GoodDotted(name) && Trimmed(value) && OneLine(value)
    case Copies(f, name, source) => White(f) && GoodDotted(name) && Trimmed(source) && OneLine(source) && source != ""
    case Opens(f, name, rest, body) => White(f) && GoodDotted(name) && OneLine(rest) && AllFine(body)
  }

  predicate AllFine(stmts: seq<Stmt>)
    decreases stmts, 0
  {
    forall i :: 0 <= i < |stmts| ==> StmtFine(stmts[i])
  }

  // ----- what it means

  ghost predicate Free(d: Dir, p: Path) {
    WellFormed(d) && NoLinks(d) && p in d
  }

  /** A value at a path that may not be there yet. */
  ghost function Give(d: Dir, q: Path, value: Option<string>): Dir
    requires [] in d
  {
    Plain(d, q, value, false)
  }

  /** What a copy takes: the value of the path spelled by the source, from the top. */
  function TakenFrom(d: Dir, source: string): string {
    var q := Components(source, 0);
    if q in d && d[q].value.Some? then d[q].value.value else ""
  }

  lemma GiveFree(d: Dir, p: Path, comps: Path, value: Option<string>)
    requires Free(d, p) && comps != [] && GoodPath(comps)
    ensures [] in d && Free(Give(d, p + comps, value), p) && Free(Give(d, p + comps, value), p + comps)
    ensures d.Keys <= Give(d, p + comps, value).Keys
  {
    TopOfFree(d, p);
    forall r | r in d
      ensures r in Give(d, p + comps, value)
    {
      PlainLookup(d, p + comps, value, false, r);
    }
    SetThenGet(d, q => 0, p, comps, value, 0, p);
    assert p != p + comps by {
      assert |p| < |p + comps|;
    }
    hide SetAt, Way, Plain, WellFormed;
  }

  lemma TopOfFree(d: Dir, p: Path)
    requires Free(d, p)
    ensures [] in d
  {
  }

  /** The statements in turn, from the node at p: a value is given below p, a copy is taken from the
      top, and a block goes on from the node it names, made without a value if it is not there. */
  ghost function Meaning(d: Dir, p: Path, stmts: seq<Stmt>): (e: Dir)
    requires Free(d, p) && AllFine(stmts)
    ensures Free(e, p) && d.Keys <= e.Keys
    decreases stmts, 0
  {
    if stmts == [] then d else Meaning(MeaningOne(d, p, stmts[0]), p, stmts[1..])
  }

  ghost function MeaningOne(d: Dir, p: Path, x: Stmt): (e: Dir)
    requires Free(d, p) && StmtFine(x)
    ensures Free(e, p) && d.Keys <= e.Keys
    decreases x, 1
  {
    TopOfFree(d, p);
    match x
    case Comment(_, _) => d
    case Space(_) => d
    case Gives(_, name, value) =>
      GiveFree(d, p, Components(name, 0), Some(value));
      Give(d, p + Components(name, 0), Some(value))
    case Copies(_, name, source) =>
      GiveFree(d, p, Components(name, 0), Some(TakenFrom(d, source)));
      Give(d, p + Components(name, 0), Some(TakenFrom(d, source)))
    case Opens(_, name, _, body) =>
      BlockFree(d, p, name, body);
      Meaning(Entered(d, p + Components(name, 0)), p + Components(name, 0), body)
  }

  /** The dataset in which a block of q starts. */
  ghost function Entered(d: Dir, q: Path): Dir
    requires [] in d
  {
    if q in d then d else Give(d, q, None)
  }

  lemma BlockFree(d: Dir, p: Path, name: string, body: seq<Stmt>)
    requires Free(d, p) && GoodDotted(name) && AllFine(body)
    ensures [] in d && var q := p + Components(name, 0); Free(Entered(d, q), q) && Free(Entered(d, q), p) && d.Keys <= Entered(d, q).Keys
  {
    TopOfFree(d, p);
    GiveFree(d, p, Components(name, 0), None);
    hide Give;
  }

  // ----- reading it

  lemma SetPlain(d: Dir, p: Path, name: string, value: Option<string>, g: Guide)
    requires Free(d, p) && GoodDotted(name)
    ensures [] in d && Storable(d, p, name, g)
    ensures var q := p + Components(name, 0); Stores(d, p, name, value, false, g) == Stored(Give(d, q, value), q)
  {
    TopOfFree(d, p);
    SetThenGet(d, g.ranks(p), p, Components(name, 0), value, g.bound, p);
    hide SetAt, Way, Plain, WellFormed, Components;
  }

  lemma WalkPlain(d: Dir, p: Path, name: string, g: Guide)
    requires Free(d, p) && name != ""
    ensures Walkable(d, p, name, g) && Leads(d, p, name, g) == p + Components(name, 0)
  {
    LinkFreeResolve(d, g.ranks([]), [], p, Components(name, 0), g.bound);
    RankedWalkFine(d, g.ranks([]), p, name, g.bound);
    hide Ranked, Resolve, WellFormed, WalkFine, Direct;
  }

  lemma TakenPlain(d: Dir, p: Path, source: string, g: Guide)
    requires Free(d, p) && source != ""
    ensures [] in d && Walkable(d, [], source, g) && ValueAt(d, source, g) == TakenFrom(d, source)
  {
    TopOfFree(d, p);
    WalkPlain(d, [], source, g);
    assert [] + Components(source, 0) == Components(source, 0);
    hide Components, Leads, Walkable, Free;
  }

  /** The line of a statement that stores a value. */
  lemma StoreRead(d: Dir, p: Path, text: string, pos: nat, ignore: bool, g: Guide, line: string, name: string, value: string)
    requires Free(d, p) && GoodDotted(name) && At(text, pos, line + "\n") && '\n' !in line
    requires Says(d, text, pos, name, value, false, g)
    ensures [] in d && pos + |line| + 1 <= |text| && var e := Give(d, p + Components(name, 0), Some(value));
            Free(e, p) && ReadLines(d, p, text, pos, ignore, g) == ReadLines(e, p, text, pos + |line| + 1, ignore, g)
  {
    hide Stores, Storable, Give, At, ReadLines, Components, WellFormed, NextLine, LineAt, Says, AllName, GoodPath;
    AtFits(text, pos, line + "\n");
    WrittenLine(text, pos, line);
    SetPlain(d, p, name, Some(value), g);
    GiveFree(d, p, Components(name, 0), Some(value));
    ReadStore(d, p, text, pos, ignore, g, name, value, false);
  }

  lemma NameOneLine(name: string)
    requires AllName(name)
    ensures OneLine(name)
  {
    forall i | 0 <= i < |name|
      ensures name[i] != '\n'
    {
      assert IsNameChar(name[i]);
    }
  }

  lemma GivesRead(d: Dir, p: Path, text: string, pos: nat, ignore: bool, g: Guide, x: Stmt)
    requires Free(d, p) && x.Gives? && StmtFine(x) && At(text, pos, SpellOne(x))
    ensures pos + |SpellOne(x)| <= |text|
    ensures ReadLines(d, p, text, pos, ignore, g) == ReadLines(MeaningOne(d, p, x), p, text, pos + |SpellOne(x)|, ignore, g)
  {
    hide ReadLines, Give, Components, At, WellFormed, NextLine, ParseLine, LineEnd, GoodPath, AllName, AllSpace, Trimmed;
    var f, name, value := x.f, x.name, x.value;
    var line := f.u + name + f.v + "=" + f.w + value + f.x;
    NameOneLine(name);
    AtFits(text, pos, line + "\n");
    WrittenLine(text, pos, line);
    ParseAssign(f.u, name, f.v, f.w, value, f.x);
    StoreRead(d, p, text, pos, ignore, g, line, name, value);
  }

  lemma CopiesRead(d: Dir, p: Path, text: string, pos: nat, ignore: bool, g: Guide, x: Stmt)
    requires Free(d, p) && x.Copies? && StmtFine(x) && At(text, pos, SpellOne(x))
    ensures pos + |SpellOne(x)| <= |text|
    ensures ReadLines(d, p, text, pos, ignore, g) == ReadLines(MeaningOne(d, p, x), p, text, pos + |SpellOne(x)|, ignore, g)
  {
    hide ReadLines, Give, Components, At, WellFormed, NextLine, ParseLine, LineEnd, GoodPath, AllName, AllSpace, Trimmed,
         ValueAt, TakenFrom, Walkable;
    var f, name, source := x.f, x.name, x.source;
    var line := f.u + name + f.v + ":=" + f.w + source + f.x;
    NameOneLine(name);
    AtFits(text, pos, line + "\n");
    WrittenLine(text, pos, line);
    ParseCopy(f.u, name, f.v, f.w, source, f.x);
    TakenPlain(d, p, source, g);
    StoreRead(d, p, text, pos, ignore, g, line, name, TakenFrom(d, source));
  }

  /** A comment or a line of white space. */
  lemma NothingRead(d: Dir, p: Path, text: string, pos: nat, ignore: bool, g: Guide, x: Stmt)
    requires Free(d, p) && (x.Comment? || x.Space?) && StmtFine(x) && At(text, pos, SpellOne(x))
    ensures pos + |SpellOne(x)| <= |text|
    ensures ReadLines(d, p, text, pos, ignore, g) == ReadLines(MeaningOne(d, p, x), p, text, pos + |SpellOne(x)|, ignore, g)
  {
    hide ReadLines, At, WellFormed, NextLine, ParseLine, LineEnd, AllSpace;
    var line := if x.Comment? then x.u + ("#" + x.rest) else x.u;
    AtFits(text, pos, line + "\n");
    WrittenLine(text, pos, line);
    ParseNameless(x.u, if x.Comment? then x.rest else "");
    ReadStep(d, p, text, pos, ignore, g);
  }

  lemma EnteredOpened(d: Dir, p: Path, name: string, g: Guide)
    requires Free(d, p) && GoodDotted(name)
    ensures [] in d && Openable(d, p, name, g)
    ensures Opened(d, p, name, g) == Stored(Entered(d, p + Components(name, 0)), p + Components(name, 0))
  {
    hide Stores, Storable, Walkable, Leads, Give, Components, WellFormed, AllName, GoodPath;
    WalkPlain(d, p, name, g);
    SetPlain(d, p, name, None, g);
  }

  lemma CloseRead(d: Dir, q: Path, text: string, pos: nat, ignore: bool, g: Guide, w: string, x: string)
    requires Free(d, q) && AllSpace(w) && AllSpace(x) && OneLine(w) && OneLine(x) && At(text, pos, w + ("}" + x) + "\n")
    ensures pos + |w + ("}" + x) + "\n"| <= |text|
    ensures ReadLines(d, q, text, pos, ignore, g) == Done(d, pos + |w + ("}" + x) + "\n"|)
  {
    hide ReadLines, At, WellFormed, NextLine, ParseLine, LineEnd, AllSpace;
    var line := w + ("}" + x);
    AtFits(text, pos, line + "\n");
    WrittenLine(text, pos, line);
    ParseNameless(w, x);
    ReadStep(d, q, text, pos, ignore, g);
  }

  lemma OpenRead(d: Dir, p: Path, text: string, pos: nat, ignore: bool, g: Guide, f: Form, name: string, rest: string)
    requires Free(d, p) && White(f) && GoodDotted(name) && OneLine(rest) && At(text, pos, f.u + name + f.v + "{" + rest + "\n")
    ensures [] in d && pos + |f.u + name + f.v + "{" + rest + "\n"| <= |text|
    ensures var next, q := pos + |f.u + name + f.v + "{" + rest + "\n"|, p + Components(name, 0);
            && Free(Entered(d, q), q) && Free(Entered(d, q), p)
            && var inner := ReadLines(Entered(d, q), q, text, next, ignore, g);
               && Sound(inner.d, p)
               && ReadLines(d, p, text, pos, ignore, g) ==
                    if inner.Done? then ReadLines(inner.d, p, text, inner.pos, ignore, g) else inner
  {
    hide ReadLines, At, WellFormed, NextLine, ParseLine, LineEnd, AllSpace, AllName, Components, GoodPath, Entered, Opened, Openable, Stores;
    var line := f.u + name + f.v + "{" + rest;
    NameOneLine(name);
    AtFits(text, pos, line + "\n");
    WrittenLine(text, pos, line);
    ParseDeeper(f.u, name, f.v, rest);
    EnteredOpened(d, p, name, g);
    BlockFree(d, p, name, []);
    ReadOpened(d, p, text, pos, ignore, g, name);
  }

  /** A block: its opening line, its statements, and the line with the brace. */
  lemma {:induction false} OpensRead(d: Dir, p: Path, text: string, pos: nat, ignore: bool, g: Guide, x: Stmt)
    requires Free(d, p) && x.Opens? && StmtFine(x) && At(text, pos, SpellOne(x))
    ensures pos + |SpellOne(x)| <= |text|
    ensures ReadLines(d, p, text, pos, ignore, g) == ReadLines(MeaningOne(d, p, x), p, text, pos + |SpellOne(x)|, ignore, g)
    decreases x, 1
  {
    hide ReadLines, Entered, Meaning, SpellAll, Components, At, WellFormed, AllName, AllSpace, GoodPath;
    var f, name, q := x.f, x.name, p + Components(x.name, 0);
    var opening, body, close := f.u + name + f.v + "{" + x.rest + "\n", SpellAll(x.body), f.w + ("}" + f.x) + "\n";
    AtConcat(text, pos, opening + body, close);
    AtConcat(text, pos, opening, body);
    OpenRead(d, p, text, pos, ignore, g, f, name, x.rest);
    AllRead(Entered(d, q), q, text, pos + |opening|, ignore, g, x.body);
    BlockFree(d, p, name, x.body);
    CloseRead(Meaning(Entered(d, q), q, x.body), q, text, pos + |opening| + |body|, ignore, g, f.w, f.x);
  }

  lemma {:induction false} OneRead(d: Dir, p: Path, text: string, pos: nat, ignore: bool, g: Guide, x: Stmt)
    requires Free(d, p) && StmtFine(x) && At(text, pos, SpellOne(x))
    ensures pos + |SpellOne(x)| <= |text|
    ensures ReadLines(d, p, text, pos, ignore, g) == ReadLines(MeaningOne(d, p, x), p, text, pos + |SpellOne(x)|, ignore, g)
    decreases x, 2
  {
    hide *;
    match x
    case Comment(_, _) => NothingRead(d, p, text, pos, ignore, g, x);
    case Space(_) => NothingRead(d, p, text, pos, ignore, g, x);
    case Gives(_, _, _) => GivesRead(d, p, text, pos, ignore, g, x);
    case Copies(_, _, _) => CopiesRead(d, p, text, pos, ignore, g, x);
    case Opens(_, _, _, _) => OpensRead(d, p, text, pos, ignore, g, x);
  }

  /** Written statements are read one after the other, inside any text. */
  lemma {:induction false} AllRead(d: Dir, p: Path, text: string, pos: nat, ignore: bool, g: Guide, stmts: seq<Stmt>)
    requires Free(d, p) && AllFine(stmts) && At(text, pos, SpellAll(stmts))
    ensures pos + |SpellAll(stmts)| <= |text|
    ensures ReadLines(d, p, text, pos, ignore, g) == ReadLines(Meaning(d, p, stmts), p, text, pos + |SpellAll(stmts)|, ignore, g)
    decreases stmts, 0
  {
    hide ReadLines, SpellOne, MeaningOne, StmtFine, WellFormed, At;
    if stmts == [] {
      AtFits(text, pos, "");
    } else {
      assert StmtFine(stmts[0]);
      AtConcat(text, pos, SpellOne(stmts[0]), SpellAll(stmts[1..]));
      OneRead(d, p, text, pos, ignore, g, stmts[0]);
      AllRead(MeaningOne(d, p, stmts[0]), p, text, pos + |SpellOne(stmts[0])|, ignore, g, stmts[1..]);
    }
  }

  /** A text of statements, read into a dataset without links, makes of it what the statements mean. */
  lemma ReadWritten(d: Dir, stmts: seq<Stmt>, ignore: bool, g: Guide)
    requires Free(d, []) && AllFine(stmts)
    ensures var text := SpellAll(stmts); ReadLines(d, [], text, 0, ignore, g) == Done(Meaning(d, [], stmts), |text|)
  {
    hide SpellAll, Meaning, Free, AllFine;
    var text := SpellAll(stmts);
    assert text[..|text|] == text;
    AllRead(d, [], text, 0, ignore, g, stmts);
  }
}

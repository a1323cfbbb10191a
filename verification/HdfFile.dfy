/** The writer and the reader of HDF text, on the nodes. */
module HdfFile {
  import opened Wrappers
  import opened HdfNames
  import opened HdfDir
  import opened HdfNodes
  import opened HdfLinks
  import opened HdfSets
  import opened HdfPending
  import opened HdfWalk
  import opened HdfTree
  import opened HdfLines
  import opened HdfText
  import opened HdfDump

  ghost predicate SingleLine(d: Dir) {
    forall q :: q in d && d[q].value.Some? ==> '\n' !in d[q].value.value
  }

  /** What is written, with what is still to be written, makes str and the whole. */
  ghost predicate Written(out: string, left: string, str: string, whole: string) {
    out + left == str + whole
  }

  lemma WrittenAll(str: string, whole: string)
    ensures Written(str, whole, str, whole)
  {
  }

  lemma WrittenEnd(out: string, left: string, str: string, whole: string)
    requires Written(out, left, str, whole) && left == ""
    ensures out == str + whole
  {
    assert out + left == out;
  }

  lemma WrittenMore(before: string, out: string, v: string, b: string, t: string, left: string,
                    str: string, whole: string)
    requires Written(before, left, str, whole) && Joined(left, v, b, t) && Appended(out, before, v, b)
    ensures Written(out, t, str, whole)
  {
    assert before + left == before + v + b + t;
  }

  ghost predicate Joined(x: string, v: string, b: string, t: string) {
    x == v + b + t
  }

  ghost predicate Appended(out: string, before: string, v: string, b: string) {
    out == before + v + b
  }

  /** What the writer needs to know of the i-th child. */
  lemma ChildOf(s: Dataset, d: Dir, n: Hdf, i: nat)
    requires s.Valid() && n in s.at.Values && d == ViewOf(s.at)
    ensures (n.child != null <==> n.kids != []) && (n.kids != [] ==> n.child == n.kids[0])
    ensures n.path in d && |d[n.path].kids| == |n.kids|
    ensures i < |n.kids| ==>
      var hp := n.kids[i];
      && hp.next == (if i + 1 < |n.kids| then n.kids[i + 1] else null)
      && hp in s.at.Values && hp.path in d && (d[hp.path].kids == [] <==> hp.child == null)
      && Under(d, hp.path) < Under(d, n.path)
      && Joined(Text(d, n.path, i), ValueLine(hp.name, Entry(hp.value, hp.link, [])), Block(d, hp.path, hp.name), Text(d, n.path, i + 1))
  {
    s.Node(n, "");
    s.LinkFact(n);
    if i < |n.kids| {
      var hp := n.kids[i];
      s.Node(hp, "");
      s.LinkFact(hp);
      UnderKid(d, n.path, hp.name);
      SameLine(hp.name, d[hp.path], Entry(hp.value, hp.link, []));
      assert d[n.path].kids[i] == hp.name;
      hide Text, Block, ValueLine;
      TextIs(d, n.path, i);
    }
  }

  /** The line of a node's value, if it has one. */
  method FormatValue(hp: Hdf) returns (line: string)
    ensures line == ValueLine(hp.name, Entry(hp.value, hp.link, []))
  {
    line := "";
    if hp.value.Some? {
      var op := if hp.link then " : " else " = ";
      line := hp.name + op + hp.value.value + "\n";
    }
  }

  /** `hdf_dump_cb`, compact, of single-line values. */
  method Dump(s: Dataset, hdf: Hdf, str: string, ghost d: Dir) returns (out: string)
    requires s.Valid() && hdf in s.at.Values && d == ViewOf(s.at) && SingleLine(d)
    ensures out == str + Text(d, hdf.path, 0)
    decreases Under(d, hdf.path), 1
  {
    hide *;
    ghost var whole, i := Text(d, hdf.path, 0), 0;
    WrittenAll(str, whole);
    ChildOf(s, d, hdf, 0);
    out := str;
    var hp := hdf.child;
    while hp != null
      invariant i <= |hdf.kids| && (hp != null <==> i < |hdf.kids|) && (hp != null ==> hp == hdf.kids[i])
      invariant Written(out, Text(d, hdf.path, i), str, whole)
      decreases |hdf.kids| - i
    {
      ChildOf(s, d, hdf, i);
      ghost var before := out;
      out := DumpChild(s, hp, out, d);
      WrittenMore(before, out, ValueLine(hp.name, Entry(hp.value, hp.link, [])), Block(d, hp.path, hp.name),
                  Text(d, hdf.path, i + 1), Text(d, hdf.path, i), str, whole);
      hp, i := hp.next, i + 1;
    }
    TextEnd(d, hdf.path);
    WrittenEnd(out, Text(d, hdf.path, i), str, whole);
  }

  /** A child's value line, and the block of what is below it, if there is something. */
  method DumpChild(s: Dataset, hp: Hdf, str: string, ghost d: Dir) returns (out: string)
    requires s.Valid() && hp in s.at.Values && d == ViewOf(s.at) && SingleLine(d)
    ensures Appended(out, str, ValueLine(hp.name, Entry(hp.value, hp.link, [])), Block(d, hp.path, hp.name))
    decreases Under(d, hp.path), 2
  {
    hide *;
    ChildOf(s, d, hp, 0);
    BlockIs(d, hp.path, hp.name);
    var line := FormatValue(hp);
    out := str + line;
    if hp.child != null {
      var open, mid := OpenLine(hp.name), out;
      out := out + open;
      out := Dump(s, hp, out, d);
      out := out + "}\n";
      AppendedBlock(out, str, line, mid, open, Text(d, hp.path, 0));
    } else {
      AppendedNothing(out, str, line);
    }
  }

  lemma AppendedBlock(out: string, str: string, line: string, mid: string, open: string, t: string)
    requires mid == str + line && out == mid + open + t + "}\n"
    ensures Appended(out, str, line, open + t + "}\n")
  {
    assert out == mid + (open + t + "}\n");
  }

  lemma AppendedNothing(out: string, str: string, line: string)
    requires out == str + line
    ensures Appended(out, str, line, "")
  {
  }

  lemma SameLine(c: string, e: Entry, e': Entry)
    requires e.value == e'.value && e.link == e'.link
    ensures ValueLine(c, e) == ValueLine(c, e')
  {
  }

  // ----- the reader

  /** How a read ends; Unknown is a line of a kind that is not modelled. */
  datatype End = Closed | Erred | Unknown

  ghost predicate Ends(r: Read, end: End, pos: nat, d: Dir) {
    match r
    case Done(e, n) => end == Closed && pos == n && d == e
    case Failed(e) => end == Erred && d == e
    case Beyond(e) => end == Unknown && d == e
    case Lost(_) => false
  }

  /** r is the read of the text from pos on, and the guide sees through it. */
  ghost predicate Reads(d: Dir, p: Path, text: string, pos: nat, ignore: bool, g: Guide, r: Read) {
    Sound(d, p) && pos <= |text| && r == ReadLines(d, p, text, pos, ignore, g) && !r.Lost?
  }

  /** One round of the reader's loop is right: the read r goes on from next, or ends as it does. */
  ghost predicate Progress(r: Read, more: bool, end: End, pos: nat, next: nat, d: Dir, p: Path, text: string, ignore: bool,
                           g: Guide) {
    && (more ==> pos < next && Reads(d, p, text, next, ignore, g, r))
    && (!more ==> Ends(r, end, next, d) && (end == Closed ==> pos < next <= |text|))
  }

  lemma ProgressIs(r: Read, more: bool, end: End, pos: nat, next: nat, d: Dir, p: Path, text: string, ignore: bool, g: Guide)
    requires Progress(r, more, end, pos, next, d, p, text, ignore, g)
    ensures more ==> pos < next <= |text| && Reads(d, p, text, next, ignore, g, r)
    ensures !more ==> Ends(r, end, next, d) && (end == Closed ==> pos < next <= |text|)
  {
  }

  lemma ReadsAll(d: Dir, p: Path, text: string, ignore: bool, g: Guide, r: Read)
    requires Reads(d, p, text, |text|, ignore, g, r)
    ensures Ends(r, Closed, |text|, d)
  {
    ReadEnd(d, p, text, ignore, g);
  }

  lemma ReadsIn(d: Dir, p: Path, text: string, pos: nat, ignore: bool, g: Guide, r: Read)
    requires Reads(d, p, text, pos, ignore, g, r)
    ensures pos <= |text|
  {
  }

  lemma NodeThere(s: Dataset, n: Hdf)
    requires s.Valid() && n in s.at.Values
    ensures Sound(ViewOf(s.at), n.path) && n.path in ViewOf(s.at) && [] in ViewOf(s.at)
    ensures n.link ==> n.value.Some?
    ensures ViewOf(s.at)[n.path].link == n.link
  {
    s.LinkFact(n);
    s.Pieces();
  }

  /** Store what a line says. */
  method StoreLine(s: Dataset, hdf: Hdf, name: string, value: string, link: bool, ghost g: Guide) returns (ok: bool)
    requires s.Valid() && hdf in s.at.Values && Storable(ViewOf(s.at), hdf.path, name, g)
    modifies s`at, s.at.Values
    ensures s.Valid() && s.dead == old(s.dead) && Kept(old(s.at), s.at) && fresh(s.at.Values - old(s.at.Values))
    ensures var o := Stores(old(ViewOf(s.at)), hdf.path, name, Some(value), link, g);
            ViewOf(s.at) == o.d && (ok <==> o.Stored?)
    ensures hdf in s.at.Values
  {
    hide *;
    ghost var at0 := s.at;
    StoresIs(ViewOf(s.at), hdf.path, name, Some(value), link, g);
    var node;
    ok, node := s.SetValue(hdf, name, Some(value), link, g.ranks(hdf.path), g.bound);
    StillThere(s.at, at0, hdf);
  }

  lemma StoresIs(d: Dir, p: Path, name: string, value: Option<string>, link: bool, g: Guide)
    requires Storable(d, p, name, g)
    ensures Ready(d, g.ranks(p), p, name, g.bound)
    ensures Stores(d, p, name, value, link, g) == SetOutcome(d, g.ranks(p), p, name, value, link, g.bound)
  {
  }

  lemma StillThere(at: Nodes, at0: Nodes, n: Hdf)
    requires Kept(at0, at) && n in at0.Values
    ensures n in at.Values
  {
    var p :| p in at0 && at0[p] == n;
    assert at[p] == n;
  }

  /** Find or make the node a block is read into. */
  method OpenNode(s: Dataset, hdf: Hdf, name: string, ghost g: Guide) returns (lower: Hdf?)
    requires s.Valid() && hdf in s.at.Values && Sound(ViewOf(s.at), hdf.path) && Openable(ViewOf(s.at), hdf.path, name, g)
    modifies s`at, s.at.Values
    ensures s.Valid() && s.dead == old(s.dead) && Kept(old(s.at), s.at) && fresh(s.at.Values - old(s.at.Values))
    ensures var o := Opened(old(ViewOf(s.at)), hdf.path, name, g);
            && ViewOf(s.at) == o.d && (lower != null <==> o.Stored?)
            && (lower != null ==> lower in s.at.Values && lower.path == o.at)
    ensures hdf in s.at.Values
  {
    hide *;
    ghost var at0, d := s.at, ViewOf(s.at);
    NodeThere(s, hdf);
    OpenedIs(d, hdf.path, name, g);
    ghost var t := Leads(d, hdf.path, name, g);
    lower := s.Walk(hdf, name, g.ranks([]), g.bound);
    s.NodeValue(t);
    if lower != null {
      s.NodeAtPath(t);
      KeptSame(s.at);
    } else {
      var ok;
      if name == "" {
        EmptyLeads(d, hdf.path, g);
      }
      StoresIs(d, hdf.path, name, None, false, g);
      ok, lower := s.SetValue(hdf, name, None, false, g.ranks(hdf.path), g.bound);
      if !ok {
        lower := null;
      } else {
        FoundAt(s, Stores(d, hdf.path, name, None, false, g).at);
      }
      StillThere(s.at, at0, hdf);
    }
  }

  lemma EmptyLeads(d: Dir, p: Path, g: Guide)
    requires p in d
    ensures Leads(d, p, "", g) == p
  {
  }

  lemma FoundAt(s: Dataset, g: Path)
    requires s.Valid() && g in s.at
    ensures s.at[g] in s.at.Values && s.at[g].path == g
  {
    assert AtPath(s.at, g) == s.at[g];
    s.NodeAtPath(g);
  }

  lemma OpenedIs(d: Dir, p: Path, name: string, g: Guide)
    requires Sound(d, p) && Openable(d, p, name, g)
    ensures WalkFine(d, g.ranks([]), p, name, g.bound)
    ensures Leads(d, p, name, g) == WalkEnd(d, g.ranks([]), p, name, g.bound)
    ensures Leads(d, p, name, g) in d ==> Opened(d, p, name, g) == Stored(d, Leads(d, p, name, g))
    ensures Leads(d, p, name, g) !in d ==>
      Storable(d, p, name, g) && Opened(d, p, name, g) == Stores(d, p, name, None, false, g)
  {
    hide WalkEnd, WalkFine, Stores, WellFormed, Storable;
  }

  /** `_hdf_read_string`: read the lines from pos on into the node hdf. */
  method ReadString(s: Dataset, hdf: Hdf, text: string, pos: nat, ignore: bool, ghost g: Guide, ghost r: Read)
    returns (end: End, next: nat)
    requires s.Valid() && hdf in s.at.Values && Reads(ViewOf(s.at), hdf.path, text, pos, ignore, g, r)
    modifies s`at, s.at.Values
    ensures s.Valid() && s.dead == old(s.dead) && Kept(old(s.at), s.at) && fresh(s.at.Values - old(s.at.Values))
    ensures Ends(r, end, next, ViewOf(s.at))
    ensures end == Closed ==> pos <= next <= |text|
    ensures hdf in s.at.Values
    decreases |text| - pos, 1
  {
    hide *;
    ghost var at0 := s.at;
    next := pos;
    KeptSame(at0);
    ReadsIn(ViewOf(s.at), hdf.path, text, pos, ignore, g, r);
    while next < |text|
      invariant pos <= next <= |text| && s.Valid() && s.dead == old(s.dead) && hdf in s.at.Values
      invariant Kept(at0, s.at) && fresh(s.at.Values - old(s.at.Values))
      invariant Reads(ViewOf(s.at), hdf.path, text, next, ignore, g, r)
      decreases |text| - next
    {
      var more;
      ghost var before, at1 := next, s.at;
      more, end, next := ReadOne(s, hdf, text, next, ignore, g, r);
      KeptThrough(at0, at1, s.at);
      ProgressIs(r, more, end, before, next, ViewOf(s.at), hdf.path, text, ignore, g);
      if !more {
        return;
      }
    }
    end := Closed;
    ReadsAll(ViewOf(s.at), hdf.path, text, ignore, g, r);
  }

  /** One line of the text, with the block it opens. */
  method ReadOne(s: Dataset, hdf: Hdf, text: string, pos: nat, ignore: bool, ghost g: Guide, ghost r: Read)
    returns (more: bool, end: End, next: nat)
    requires s.Valid() && hdf in s.at.Values && Reads(ViewOf(s.at), hdf.path, text, pos, ignore, g, r) && pos < |text|
    modifies s`at, s.at.Values
    ensures s.Valid() && s.dead == old(s.dead) && Kept(old(s.at), s.at) && fresh(s.at.Values - old(s.at.Values))
    ensures hdf in s.at.Values
    ensures Progress(r, more, end, pos, next,
                     ViewOf(s.at), hdf.path, text, ignore, g)
    decreases |text| - pos, 0
  {
    hide *;
    var l, after := TakeNext(text, pos);
    if l.Deeper? {
      more, end, next := ReadNested(s, hdf, text, pos, ignore, l.name, after, g, r);
    } else {
      more, end := ReadFlat(s, hdf, text, pos, ignore, l, g, r);
      next := after;
    }
  }

  /** A line that opens no block. */
  method ReadFlat(s: Dataset, hdf: Hdf, text: string, pos: nat, ignore: bool, l: Line, ghost g: Guide, ghost r: Read)
    returns (more: bool, end: End)
    requires s.Valid() && hdf in s.at.Values && Reads(ViewOf(s.at), hdf.path, text, pos, ignore, g, r) && pos < |text|
    requires l == LineAt(text, pos) && !l.Deeper?
    modifies s`at, s.at.Values
    ensures s.Valid() && s.dead == old(s.dead) && Kept(old(s.at), s.at) && fresh(s.at.Values - old(s.at.Values))
    ensures hdf in s.at.Values
    ensures Progress(r, more, end, pos, NextLine(text, pos),
                     ViewOf(s.at), hdf.path, text, ignore, g)
  {
    hide *;
    if l.Assign? {
      SaysPlain(ViewOf(s.at), text, pos, g);
      more, end := ReadStoring(s, hdf, text, pos, ignore, l.name, l.value, false, g, r);
      return;
    }
    if l.Link? {
      SaysPlain(ViewOf(s.at), text, pos, g);
      more, end := ReadStoring(s, hdf, text, pos, ignore, l.name, l.target, true, g, r);
      return;
    }
    if l.Copy? {
      more, end := ReadCopy(s, hdf, text, pos, ignore, l.name, l.source, g, r);
      return;
    }
    QuietIs(l);
    more, end := ReadQuiet(s, hdf, text, pos, ignore, l, g, r);
  }

  lemma QuietIs(l: Line)
    ensures Quiet(l) <==> !l.Assign? && !l.Link? && !l.Copy? && !l.Deeper?
  {
  }

  lemma SaysPlain(d: Dir, text: string, pos: nat, g: Guide)
    requires pos < |text|
    ensures LineAt(text, pos).Assign? ==> Says(d, text, pos, LineAt(text, pos).name, LineAt(text, pos).value, false, g)
    ensures LineAt(text, pos).Link? ==> Says(d, text, pos, LineAt(text, pos).name, LineAt(text, pos).target, true, g)
  {
    hide LineAt;
  }

  /** A line that changes nothing. */
  method ReadQuiet(s: Dataset, hdf: Hdf, text: string, pos: nat, ignore: bool, l: Line, ghost g: Guide, ghost r: Read)
    returns (more: bool, end: End)
    requires s.Valid() && hdf in s.at.Values && Reads(ViewOf(s.at), hdf.path, text, pos, ignore, g, r) && pos < |text|
    requires l == LineAt(text, pos) && Quiet(l)
    ensures Kept(s.at, s.at)
    ensures Progress(r, more, end, pos, NextLine(text, pos),
                     ViewOf(s.at), hdf.path, text, ignore, g)
  {
    hide *;
    more, end := Verdict(l, ignore);
    KeptSame(s.at);
    VerdictRight(ViewOf(s.at), hdf.path, text, pos, ignore, g, r);
  }

  /** A line that stores nothing and opens nothing. */
  predicate Quiet(l: Line) {
    !l.Assign? && !l.Link? && !l.Copy? && !l.Deeper?
  }

  /** Lines that change nothing: whether the reader goes on, and otherwise how it ends. */
  method Verdict(l: Line, ignore: bool) returns (more: bool, end: End)
    requires Quiet(l)
    ensures more == GoesOn(l, ignore) && end == EndOf(l)
  {
    match l {
      case Blank =>
        return true, Erred;
      case Include =>
        return ignore, Erred;
      case Up =>
        return false, Closed;
      case Multi =>
        return false, Unknown;
      case Attributes =>
        return false, Unknown;
      case Garbage =>
        return false, Erred;
      case Unreadable =>
        return false, Erred;
    }
  }

  predicate GoesOn(l: Line, ignore: bool) {
    l.Blank? || (l.Include? && ignore)
  }

  function EndOf(l: Line): End {
    if l.Up? then Closed else if l.Multi? || l.Attributes? then Unknown else Erred
  }

  lemma VerdictRight(d: Dir, p: Path, text: string, pos: nat, ignore: bool, g: Guide, r: Read)
    requires Reads(d, p, text, pos, ignore, g, r) && pos < |text| && Quiet(LineAt(text, pos))
    ensures var l, next := LineAt(text, pos), NextLine(text, pos);
            Progress(r, GoesOn(l, ignore), EndOf(l), pos, next, d, p, text, ignore, g)
  {
    hide LineAt, NextLine, Sound, ReadLines;
    ReadStep(d, p, text, pos, ignore, g);
  }

  /** A line that copies a value. */
  method ReadCopy(s: Dataset, hdf: Hdf, text: string, pos: nat, ignore: bool, name: string, source: string, ghost g: Guide, ghost r: Read)
    returns (more: bool, end: End)
    requires s.Valid() && hdf in s.at.Values && Reads(ViewOf(s.at), hdf.path, text, pos, ignore, g, r) && pos < |text|
    requires LineAt(text, pos) == Copy(name, source)
    modifies s`at, s.at.Values
    ensures s.Valid() && s.dead == old(s.dead) && Kept(old(s.at), s.at) && fresh(s.at.Values - old(s.at.Values))
    ensures hdf in s.at.Values
    ensures Progress(r, more, end, pos, NextLine(text, pos),
                     ViewOf(s.at), hdf.path, text, ignore, g)
  {
    hide *;
    CopySays(ViewOf(s.at), hdf.path, text, pos, ignore, g, r, name, source);
    s.TopInside();
    ValueIs(ViewOf(s.at), source, g);
    var value := s.GetValue(s.top, source, "", g.ranks([]), g.bound);
    more, end := ReadStoring(s, hdf, text, pos, ignore, name, value, false, g, r);
  }

  lemma CopySays(d: Dir, p: Path, text: string, pos: nat, ignore: bool, g: Guide, r: Read, name: string, source: string)
    requires Reads(d, p, text, pos, ignore, g, r) && pos < |text| && LineAt(text, pos) == Copy(name, source)
    ensures Walkable(d, [], source, g) && [] in d && Says(d, text, pos, name, ValueAt(d, source, g), false, g)
  {
    hide ReadLines, Says, ValueAt, Sound;
    ReadCopied(d, p, text, pos, ignore, g, name, source);
  }

  lemma ValueIs(d: Dir, source: string, g: Guide)
    requires Walkable(d, [], source, g)
    ensures [] in d && WalkFine(d, g.ranks([]), [], source, g.bound)
    ensures ValueAt(d, source, g)
         == var t := WalkEnd(d, g.ranks([]), [], source, g.bound); if t in d && d[t].value.Some? then d[t].value.value else ""
  {
  }

  /** A line that stores a value. */
  method ReadStoring(s: Dataset, hdf: Hdf, text: string, pos: nat, ignore: bool, name: string, value: string, link: bool,
                     ghost g: Guide, ghost r: Read)
    returns (more: bool, end: End)
    requires s.Valid() && hdf in s.at.Values && Reads(ViewOf(s.at), hdf.path, text, pos, ignore, g, r) && pos < |text|
    requires Says(ViewOf(s.at), text, pos, name, value, link, g)
    modifies s`at, s.at.Values
    ensures s.Valid() && s.dead == old(s.dead) && Kept(old(s.at), s.at) && fresh(s.at.Values - old(s.at.Values))
    ensures hdf in s.at.Values
    ensures Progress(r, more, end, pos, NextLine(text, pos),
                     ViewOf(s.at), hdf.path, text, ignore, g)
  {
    hide *;
    StoreProgress(ViewOf(s.at), hdf.path, text, pos, ignore, g, r, name, value, link);
    more := StoreLine(s, hdf, name, value, link, g);
    end := Erred;
  }

  lemma StoreProgress(d: Dir, p: Path, text: string, pos: nat, ignore: bool, g: Guide, r: Read,
                      name: string, value: string, link: bool)
    requires Reads(d, p, text, pos, ignore, g, r) && pos < |text| && Says(d, text, pos, name, value, link, g)
    ensures Storable(d, p, name, g)
    ensures var o := Stores(d, p, name, Some(value), link, g);
            Progress(r, o.Stored?, Erred, pos, NextLine(text, pos), o.d, p, text, ignore, g)
  {
    hide LineAt, NextLine, Sound, ReadLines, Stores, ValueAt, WellFormed, Storable, Says;
    ReadStore(d, p, text, pos, ignore, g, name, value, link);
  }

  /** A line that opens a block, and the block. */
  method ReadNested(s: Dataset, hdf: Hdf, text: string, pos: nat, ignore: bool, name: string, after: nat, ghost g: Guide, ghost r: Read)
    returns (more: bool, end: End, next: nat)
    requires s.Valid() && hdf in s.at.Values && Reads(ViewOf(s.at), hdf.path, text, pos, ignore, g, r) && pos < |text|
    requires LineAt(text, pos) == Deeper(name) && after == NextLine(text, pos)
    modifies s`at, s.at.Values
    ensures s.Valid() && s.dead == old(s.dead) && Kept(old(s.at), s.at) && fresh(s.at.Values - old(s.at.Values))
    ensures hdf in s.at.Values
    ensures Progress(r, more, end, pos, next,
                     ViewOf(s.at), hdf.path, text, ignore, g)
    decreases |text| - after, 3
  {
    hide *;
    ghost var at0, d := s.at, ViewOf(s.at);
    ghost var inner := NestedOpened(d, hdf.path, text, pos, ignore, g, r, name);
    var lower := OpenNode(s, hdf, name, g);
    if lower == null {
      more, end, next := false, Erred, after;
      NestedFailed(d, hdf.path, text, pos, ignore, g, r, name, next);
      return;
    }
    ghost var at1 := s.at;
    end, next := ReadLower(s, hdf, lower, text, after, ignore, g, inner);
    KeptThrough(at0, at1, s.at);
    more := end == Closed;
    NestedDone(d, hdf.path, text, pos, ignore, g, r, inner, name, end, next, ViewOf(s.at));
  }

  method ReadLower(s: Dataset, hdf: Hdf, lower: Hdf, text: string, after: nat, ignore: bool, ghost g: Guide, ghost r: Read)
    returns (end: End, next: nat)
    requires s.Valid() && hdf in s.at.Values && lower in s.at.Values
    requires Reads(ViewOf(s.at), lower.path, text, after, ignore, g, r)
    modifies s`at, s.at.Values
    ensures s.Valid() && s.dead == old(s.dead) && Kept(old(s.at), s.at) && fresh(s.at.Values - old(s.at.Values))
    ensures hdf in s.at.Values
    ensures Ends(r, end, next, ViewOf(s.at)) && (end == Closed ==> after <= next <= |text|)
    decreases |text| - after, 2
  {
    hide *;
    ghost var at1 := s.at;
    end, next := ReadString(s, lower, text, after, ignore, g, r);
    StillThere(s.at, at1, hdf);
  }

  /** The node of a block can be found or made; if it is, inner is the read of the block. */
  lemma NestedOpened(d: Dir, p: Path, text: string, pos: nat, ignore: bool, g: Guide, r: Read, name: string)
    returns (inner: Read)
    requires Reads(d, p, text, pos, ignore, g, r) && pos < |text| && LineAt(text, pos) == Deeper(name)
    ensures Sound(d, p) && Openable(d, p, name, g)
    ensures var o := Opened(d, p, name, g); o.Stored? ==> Reads(o.d, o.at, text, NextLine(text, pos), ignore, g, inner)
  {
    ReadOpened(d, p, text, pos, ignore, g, name);
    hide LineAt, NextLine, Sound, ReadLines, Opened, WellFormed, Openable;
    var o := Opened(d, p, name, g);
    inner := if o.Stored? then ReadLines(o.d, o.at, text, NextLine(text, pos), ignore, g) else r;
  }

  lemma NestedFailed(d: Dir, p: Path, text: string, pos: nat, ignore: bool, g: Guide, r: Read, name: string, next: nat)
    requires Reads(d, p, text, pos, ignore, g, r) && pos < |text| && LineAt(text, pos) == Deeper(name)
    requires Openable(d, p, name, g) && Opened(d, p, name, g).Rejected?
    ensures Progress(r, false, Erred, pos, next, Opened(d, p, name, g).d, p, text, ignore, g)
  {
    ReadOpened(d, p, text, pos, ignore, g, name);
    hide LineAt, NextLine, Sound, ReadLines, Opened, WellFormed, Openable;
  }

  lemma NestedDone(d: Dir, p: Path, text: string, pos: nat, ignore: bool, g: Guide, r: Read, inner: Read, name: string,
                   end: End, next: nat, e: Dir)
    requires Reads(d, p, text, pos, ignore, g, r) && pos < |text| && LineAt(text, pos) == Deeper(name)
    requires Openable(d, p, name, g) && Opened(d, p, name, g).Stored?
    requires var o := Opened(d, p, name, g); Reads(o.d, o.at, text, NextLine(text, pos), ignore, g, inner)
    requires Ends(inner, end, next, e) && (end == Closed ==> NextLine(text, pos) <= next <= |text|)
    ensures Progress(r, end == Closed, end, pos, next, e, p, text, ignore, g)
  {
    ReadOpened(d, p, text, pos, ignore, g, name);
    EndsIs(inner, end, next, e);
    hide LineAt, NextLine, Sound, ReadLines, Opened, WellFormed, Openable;
  }

  lemma EndsIs(r: Read, end: End, next: nat, d: Dir)
    requires Ends(r, end, next, d)
    ensures r.d == d && !r.Lost? && (end == Closed <==> r.Done?) && (r.Done? ==> r.pos == next)
  {
  }

  /** Read what was written for d into a new dataset. */
  method ReadNew(text: string, ghost d: Dir) returns (t: Dataset)
    requires Writable(d) && [] in d && d[[]].value == None && text == Text(d, [], 0)
    ensures t.Valid() && ViewOf(t.at) == d && fresh(t) && fresh(t.at.Values)
  {
    hide *;
    RoundTrip(d, false, NO_GUIDE);
    ghost var r := Done(d, |text|);
    ReadsNew(text, r);
    t := new Dataset();
    t.TopInside();
    var end, next := ReadString(t, t.top, text, 0, false, NO_GUIDE, r);
    EndsIs(r, end, next, ViewOf(t.at));
  }

  lemma ReadsNew(text: string, r: Read)
    requires Sound(NEW_DIR, []) && r == ReadLines(NEW_DIR, [], text, 0, false, NO_GUIDE) && !r.Lost?
    ensures Reads(NEW_DIR, [], text, 0, false, NO_GUIDE, r)
  {
  }

  /** Writing a dataset and reading the text into a new one: the nodes end up standing for the
      same map. */
  method CopyDataset(s: Dataset) returns (t: Dataset)
    requires s.Valid() && Writable(ViewOf(s.at)) && s.top.value == None
    ensures t.Valid() && ViewOf(t.at) == ViewOf(s.at) && fresh(t)
  {
    hide *;
    s.TopInside();
    s.LinkFact(s.top);
    ghost var d := ViewOf(s.at);
    WritableLines(d);
    var text := Dump(s, s.top, "", d);
    NothingBefore(text, d);
    t := ReadNew(text, d);
  }

  lemma WritableLines(d: Dir)
    requires Writable(d)
    ensures SingleLine(d)
  {
  }

  lemma NothingBefore(text: string, d: Dir)
    requires text == "" + Text(d, [], 0)
    ensures text == Text(d, [], 0)
  {
  }
}

/** Reading HDF text into a dataset, as a function on datasets. */
module HdfText {
  import opened Wrappers
  import opened HdfNames
  import opened HdfDir
  import opened HdfLinks
  import opened HdfSets
  import opened HdfPending
  import opened HdfWalk
  import opened HdfLines

  /** Shows that the links a reader crosses do not lead round in a circle: ranks for each node where
      a name may start over. */
  datatype Guide = Guide(ranks: Path -> Rank, bound: nat)

  /** Where no link is crossed any ranks will do. */
  const NO_GUIDE: Guide := Guide(p => q => 0, 0)

  ghost predicate Sound(d: Dir, p: Path) {
    WellFormed(d) && p in d
  }

  /** A name below p can be set: that ends, whether accepted or not. */
  ghost predicate Storable(d: Dir, p: Path, name: string, g: Guide) {
    Ready(d, g.ranks(p), p, name, g.bound)
  }

  /** A name can be walked from p. */
  ghost predicate Walkable(d: Dir, p: Path, name: string, g: Guide) {
    p in d && WalkFine(d, g.ranks([]), p, name, g.bound)
  }

  function Stores(d: Dir, p: Path, name: string, value: Option<string>, link: bool, g: Guide): Outcome
    requires Storable(d, p, name, g)
  {
    SetOutcome(d, g.ranks(p), p, name, value, link, g.bound)
  }

  function Leads(d: Dir, p: Path, name: string, g: Guide): Path
    requires p in d
  {
    WalkEnd(d, g.ranks([]), p, name, g.bound)
  }

  /** A set, accepted or not, keeps a dataset well-formed. */
  lemma StoresSound(d: Dir, p: Path, name: string, value: Option<string>, link: bool, g: Guide)
    requires Sound(d, p) && Storable(d, p, name, g)
    requires value.Some? || (!link && name != "")
    ensures var o := Stores(d, p, name, value, link, g);
            Sound(o.d, p) && d.Keys <= o.d.Keys && (o.Stored? ==> o.at in o.d)
  {
    if name == "" {
      TopIsPlain(d);
      SetEntryWellFormed(d, p, value, d[p].link);
    } else {
      ComponentsHaveNoDots(name, 0);
      SetSound(d, g.ranks(p), p, Components(name, 0), value, link, g.bound);
    }
  }

  lemma TopIsPlain(d: Dir)
    requires WellFormed(d)
    ensures [] in d && !d[[]].link
  {
  }

  /** The end of a read: at the end of the text or behind a closing line; at an error; at a line of a
      kind that is not modelled here; or at a name that a guide does not know to end. */
  datatype Read = Done(d: Dir, pos: nat) | Failed(d: Dir) | Beyond(d: Dir) | Lost(d: Dir)

  /** `_hdf_read_string` from pos on, into the node at p. */
  ghost function ReadLines(d: Dir, p: Path, text: string, pos: nat, ignore: bool, g: Guide): (r: Read)
    requires Sound(d, p) && pos <= |text|
    ensures Sound(r.d, p) && d.Keys <= r.d.Keys && (r.Done? ==> pos <= r.pos <= |text|)
    decreases |text| - pos
  {
    if pos == |text| then Done(d, pos)
    else
      var next := NextLine(text, pos);
      match LineAt(text, pos)
      case Blank => ReadLines(d, p, text, next, ignore, g)
      case Include => if ignore then ReadLines(d, p, text, next, ignore, g) else Failed(d)
      case Up => Done(d, next)
      case Assign(name, value) =>
        if !Storable(d, p, name, g) then Lost(d)
        else
          StoresSound(d, p, name, Some(value), false, g);
          (match Stores(d, p, name, Some(value), false, g)
           case Stored(e, _) => ReadLines(e, p, text, next, ignore, g)
           case Rejected(e) => Failed(e))
      case Link(name, target) =>
        if !Storable(d, p, name, g) then Lost(d)
        else
          StoresSound(d, p, name, Some(target), true, g);
          (match Stores(d, p, name, Some(target), true, g)
           case Stored(e, _) => ReadLines(e, p, text, next, ignore, g)
           case Rejected(e) => Failed(e))
      case Copy(name, source) =>
        if !Walkable(d, [], source, g) || !Storable(d, p, name, g) then Lost(d)
        else
          StoresSound(d, p, name, Some(ValueAt(d, source, g)), false, g);
          (match Stores(d, p, name, Some(ValueAt(d, source, g)), false, g)
           case Stored(e, _) => ReadLines(e, p, text, next, ignore, g)
           case Rejected(e) => Failed(e))
      case Deeper(name) =>
        if !Openable(d, p, name, g) then Lost(d)
        else
          var o := Opened(d, p, name, g);
          if o.Rejected? then Failed(o.d)
          else
            var inner := ReadLines(o.d, o.at, text, next, ignore, g);
            if inner.Done? then ReadLines(inner.d, p, text, inner.pos, ignore, g) else inner
      case Multi => Beyond(d)
      case Attributes => Beyond(d)
      case Garbage => Failed(d)
      case Unreadable => Failed(d)
  }

  /** The value a copy takes over. */
  function ValueAt(d: Dir, name: string, g: Guide): (v: string)
    requires [] in d
  {
    var t := Leads(d, [], name, g);
    if t in d && d[t].value.Some? then d[t].value.value else ""
  }

  /** The node an opening line leads to can be walked to, or made. */
  ghost predicate Openable(d: Dir, p: Path, name: string, g: Guide) {
    Walkable(d, p, name, g) && (Leads(d, p, name, g) !in d ==> Storable(d, p, name, g))
  }

  /** The node an opening line leads to, made if it is not there. */
  ghost function Opened(d: Dir, p: Path, name: string, g: Guide): (o: Outcome)
    requires Sound(d, p) && Openable(d, p, name, g)
    ensures Sound(o.d, p) && d.Keys <= o.d.Keys && (o.Stored? ==> Sound(o.d, o.at))
  {
    var t := Leads(d, p, name, g);
    if t in d then Stored(d, t)
    else
      StoresSound(d, p, name, None, false, g);
      Stores(d, p, name, None, false, g)
  }

  /** One round of the reader's loop, for lines that store nothing and open nothing. */
  lemma ReadStep(d: Dir, p: Path, text: string, pos: nat, ignore: bool, g: Guide)
    requires Sound(d, p) && pos < |text|
    ensures var l, next, r := LineAt(text, pos), NextLine(text, pos), ReadLines(d, p, text, pos, ignore, g);
            && (l.Blank? || (l.Include? && ignore) ==> r == ReadLines(d, p, text, next, ignore, g))
            && ((l.Include? && !ignore) || l.Garbage? || l.Unreadable? ==> r == Failed(d))
            && (l.Multi? || l.Attributes? ==> r == Beyond(d))
            && (l.Up? ==> r == Done(d, next))
  {
    hide LineAt, NextLine, Stores, Opened, Sound, ValueAt, Storable, Walkable, Openable;
  }

  /** The line at pos stores a value under a name: its own, or one it copies. */
  ghost predicate Says(d: Dir, text: string, pos: nat, name: string, value: string, link: bool, g: Guide)
    requires pos <= |text|
  {
    match LineAt(text, pos)
    case Assign(n, v) => n == name && v == value && !link
    case Link(n, v) => n == name && v == value && link
    case Copy(n, source) => n == name && !link && Walkable(d, [], source, g) && ValueAt(d, source, g) == value
    case _ => false
  }

  /** A line that stores a value. */
  lemma ReadStore(d: Dir, p: Path, text: string, pos: nat, ignore: bool, g: Guide, name: string, value: string, link: bool)
    requires Sound(d, p) && pos < |text| && Says(d, text, pos, name, value, link, g)
    ensures !Storable(d, p, name, g) ==> ReadLines(d, p, text, pos, ignore, g) == Lost(d)
    ensures Storable(d, p, name, g) ==>
      var o := Stores(d, p, name, Some(value), link, g);
      && Sound(o.d, p)
      && ReadLines(d, p, text, pos, ignore, g)
         == if o.Stored? then ReadLines(o.d, p, text, NextLine(text, pos), ignore, g) else Failed(o.d)
  {
    if Storable(d, p, name, g) {
      StoresSound(d, p, name, Some(value), link, g);
    }
    hide LineAt, NextLine, Stores, Opened, Sound, ValueAt, Storable, Walkable, Openable;
  }

  /** A copying line whose source can be walked stores what is found there. */
  lemma ReadCopied(d: Dir, p: Path, text: string, pos: nat, ignore: bool, g: Guide, name: string, source: string)
    requires Sound(d, p) && pos < |text| && LineAt(text, pos) == Copy(name, source)
    requires !ReadLines(d, p, text, pos, ignore, g).Lost?
    ensures Walkable(d, [], source, g) && Says(d, text, pos, name, ValueAt(d, source, g), false, g)
  {
    hide LineAt, NextLine, Stores, Opened, Sound, ValueAt, Storable, Walkable, Openable;
  }

  /** A line that opens a block. */
  lemma ReadOpened(d: Dir, p: Path, text: string, pos: nat, ignore: bool, g: Guide, name: string)
    requires Sound(d, p) && pos < |text| && LineAt(text, pos) == Deeper(name)
    ensures !Openable(d, p, name, g) ==> ReadLines(d, p, text, pos, ignore, g) == Lost(d)
    ensures Openable(d, p, name, g) ==>
      var r, o := ReadLines(d, p, text, pos, ignore, g), Opened(d, p, name, g);
      && (o.Rejected? ==> r == Failed(o.d))
      && (o.Stored? ==>
            && Sound(o.d, o.at)
            && var inner := ReadLines(o.d, o.at, text, NextLine(text, pos), ignore, g);
               && Sound(inner.d, p)
               && r == if inner.Done? then ReadLines(inner.d, p, text, inner.pos, ignore, g) else inner)
  {
    if Openable(d, p, name, g) {
      InnerKeeps(d, p, text, pos, ignore, g, name);
    }
    hide LineAt, NextLine, Stores, Opened, Sound, ValueAt, Storable, Walkable, Openable;
  }

  lemma InnerKeeps(d: Dir, p: Path, text: string, pos: nat, ignore: bool, g: Guide, name: string)
    requires Sound(d, p) && pos < |text| && Openable(d, p, name, g)
    ensures Opened(d, p, name, g).Stored? ==>
      Sound(ReadLines(Opened(d, p, name, g).d, Opened(d, p, name, g).at, text, NextLine(text, pos), ignore, g).d, p)
  {
    hide ReadLines, NextLine, Opened, WellFormed, Openable;
  }
}

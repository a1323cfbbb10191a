/** Dotted names and their components. */
module HdfNames {

  type Path = seq<string>

  /** `strchr(n, '.')`: the position of the first dot at or after n, or the end. */
  function Dot(name: string, n: nat): (d: nat)
    requires n <= |name|
    ensures n <= d <= |name|
    decreases |name| - n
  {
    if n == |name| || name[n] == '.' then n else Dot(name, n + 1)
  }

  lemma {:induction false} DotStops(name: string, n: nat)
    requires n <= |name|
    ensures '.' !in name[n..Dot(name, n)]
    ensures Dot(name, n) < |name| ==> name[Dot(name, n)] == '.'
    decreases |name| - n
  {
    if n < Dot(name, n) {
      DotStops(name, n + 1);
      assert name[n..Dot(name, n)] == [name[n]] + name[n + 1..Dot(name, n)];
    }
  }

  /** The component that starts at n. */
  function Part(name: string, n: nat): string
    requires n <= |name|
  {
    name[n..Dot(name, n)]
  }

  /** The components of name from position n on; a name ending in a dot ends in an empty one. */
  function Components(name: string, n: nat): (c: Path)
    requires n <= |name|
    ensures c != []
    decreases |name| - n
  {
    var d := Dot(name, n);
    if d == |name| then [name[n..d]] else [name[n..d]] + Components(name, d + 1)
  }

  lemma ComponentsStep(name: string, n: nat)
    requires n <= |name|
    ensures var d := Dot(name, n);
            Components(name, n) == if d < |name| then [name[n..d]] + Components(name, d + 1) else [name[n..d]]
  {
  }

  /** The head and tail of the components, by the dot that ends the head. */
  lemma ComponentsParts(name: string, n: nat)
    requires n <= |name|
    ensures var d, comps := Dot(name, n), Components(name, n);
            && comps[0] == name[n..d] && (|comps| == 1 <==> d == |name|)
            && (d < |name| ==> name[d] == '.' && comps[1..] == Components(name, d + 1))
  {
    DotStops(name, n);
  }

  /** How a name is walked: the empty name addresses the starting node itself. */
  function Steps(name: string): Path {
    if name == "" then [] else Components(name, 0)
  }

  /** A component that can name a node. */
  predicate GoodName(c: string) {
    c != "" && '.' !in c
  }

  /** A link's value with the rest of a name, from its dot on, pasted behind it. */
  function Paste(v: string, name: string, d: nat): (r: string)
    requires d <= |name|
    ensures d < |name| ==> r != ""
  {
    v + name[d..]
  }

  lemma GoodPart(name: string, n: nat)
    requires n <= |name| && n < Dot(name, n)
    ensures GoodName(name[n..Dot(name, n)])
  {
    DotStops(name, n);
  }

  lemma EmptyPart(name: string, n: nat)
    requires n <= |name| && Dot(name, n) == n
    ensures Components(name, n)[0] == ""
  {
  }

  lemma NotEmptyPart(name: string, n: nat)
    requires n <= |name| && n < Dot(name, n)
    ensures name[n..Dot(name, n)] != ""
  {
  }

  predicate GoodPath(p: Path) {
    forall i :: 0 <= i < |p| ==> GoodName(p[i])
  }

  predicate NoDots(p: Path) {
    forall i :: 0 <= i < |p| ==> '.' !in p[i]
  }

  lemma {:induction false} ComponentsHaveNoDots(name: string, n: nat)
    requires n <= |name|
    ensures NoDots(Components(name, n))
    decreases |name| - n
  {
    DotStops(name, n);
    if Dot(name, n) < |name| {
      ComponentsHaveNoDots(name, Dot(name, n) + 1);
    }
  }

  /** Pasting a link's value in front of the rest of a name pastes the components. */
  lemma {:induction false} PastedComponents(value: string, n: nat, rest: string)
    requires n <= |value|
    ensures Components(value + "." + rest, n) == Components(value, n) + Components(rest, 0)
    decreases |value| - n
  {
    hide Components, Dot;
    var name, d := value + "." + rest, Dot(value, n);
    PastedDot(value, n, rest);
    ComponentsStep(name, n);
    ComponentsStep(value, n);
    PastedHead(value, rest, n, d);
    if d == |value| {
      PastedTail(value, rest, 0);
    } else {
      PastedComponents(value, d + 1, rest);
      ConsConcat(value[n..d], Components(value, d + 1), Components(rest, 0));
    }
  }

  lemma ConsConcat(c: string, p: Path, q: Path)
    ensures [c] + (p + q) == [c] + p + q
  {
  }

  lemma PastedHead(value: string, rest: string, n: nat, d: nat)
    requires n <= d <= |value|
    ensures (value + "." + rest)[n..d] == value[n..d]
  {
  }

  lemma {:induction false} PastedDot(value: string, n: nat, rest: string)
    requires n <= |value|
    ensures Dot(value + "." + rest, n) == Dot(value, n)
    decreases |value| - n
  {
    var name := value + "." + rest;
    if n < |value| && value[n] != '.' {
      PastedDot(value, n + 1, rest);
      assert name[n] == value[n];
    }
  }

  lemma {:induction false} PastedTail(value: string, rest: string, k: nat)
    requires k <= |rest|
    ensures Components(value + "." + rest, |value| + 1 + k) == Components(rest, k)
    decreases |rest| - k
  {
    var name, o := value + "." + rest, |value| + 1;
    PastedTailDot(value, rest, k);
    hide Dot;
    var d := Dot(rest, k);
    PastedSlice(value, rest, k, d);
    if d < |rest| {
      PastedTail(value, rest, d + 1);
    }
  }

  lemma PastedSlice(value: string, rest: string, k: nat, d: nat)
    requires k <= d <= |rest|
    ensures (value + "." + rest)[|value| + 1 + k..|value| + 1 + d] == rest[k..d]
  {
    assert (value + "." + rest)[|value| + 1..] == rest;
  }

  lemma {:induction false} PastedTailDot(value: string, rest: string, k: nat)
    requires k <= |rest|
    ensures Dot(value + "." + rest, |value| + 1 + k) == |value| + 1 + Dot(rest, k)
    decreases |rest| - k
  {
    var name, o := value + "." + rest, |value| + 1;
    if k < |rest| {
      assert name[o + k] == rest[k];
      if rest[k] != '.' {
        PastedTailDot(value, rest, k + 1);
      }
    }
  }
}

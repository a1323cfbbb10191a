/** Attribute lists of HDF lines: writing them, and reading them back. */
module AttrList {
  import opened Octets
  import opened StrRepr
  import HdfLines

  datatype Attr = Attr(key: seq<Octet>, value: seq<Octet>)

  // ----- writing

  /** The value 1 is written as a bare key, every other value in quotes. */
  function DumpOne(a: Attr): seq<Octet> {
    if a.value == "1" then a.key else a.key + ['='] + Repr(a.value)
  }

  function DumpList(l: seq<Attr>): seq<Octet> {
    if l == [] then []
    else if |l| == 1 then DumpOne(l[0])
    else DumpOne(l[0]) + [',', ' '] + DumpList(l[1..])
  }

  /** Nothing is written for a node without attributes. */
  function Dump(l: seq<Attr>): seq<Octet> {
    if l == [] then [] else [' ', '['] + DumpList(l) + [']', ' ']
  }

  method WriteList(l: seq<Attr>) returns (out: seq<Octet>)
    ensures out == Dump(l)
  {
    hide DumpOne, DumpList;
    if l == [] {
      return [];
    }
    out := [' ', '['];
    var i := 0;
    assert l[0..] == l;
    while i < |l|
      invariant 0 <= i <= |l|
      invariant i < |l| ==> out + DumpList(l[i..]) == [' ', '['] + DumpList(l)
      invariant i == |l| ==> out == [' ', '['] + DumpList(l)
    {
      DumpTail(out, l, i);
      var one := WriteOne(l[i]);
      out := out + one;
      if i + 1 < |l| {
        out := out + [',', ' '];
      }
      i := i + 1;
    }
    out := out + [']', ' '];
  }

  lemma DumpTail(out: seq<Octet>, l: seq<Attr>, i: nat)
    requires i < |l|
    ensures i + 1 < |l| ==>
              out + DumpList(l[i..]) == out + DumpOne(l[i]) + [',', ' '] + DumpList(l[i + 1..])
    ensures i + 1 == |l| ==> out + DumpList(l[i..]) == out + DumpOne(l[i])
  {
    var t := l[i..];
    assert t[0] == l[i];
    if i + 1 < |l| {
      assert t[1..] == l[i + 1..];
      Chain(out, DumpOne(l[i]), [',', ' '], DumpList(l[i + 1..]));
    }
  }

  lemma Chain(a: seq<Octet>, b: seq<Octet>, c: seq<Octet>, d: seq<Octet>)
    ensures a + (b + c + d) == a + b + c + d
  {
  }

  method WriteOne(a: Attr) returns (out: seq<Octet>)
    ensures out == DumpOne(a)
  {
    if a.value == "1" {
      return a.key;
    }
    var v := ReprFill(a.value);
    return a.key + ['='] + v[..v.Length - 1];
  }

  // ----- reading

  datatype Attrs = Attrs(list: seq<Attr>, rest: seq<Octet>) | Malformed | Lost

  function Then(a: Attr, r: Attrs): Attrs {
    if r.Attrs? then Attrs([a] + r.list, r.rest) else r
  }

  /** The leading characters of a key. */
  function KeyEnd(s: seq<Octet>): (n: nat)
    ensures n <= |s|
  {
    if s == [] || !HdfLines.IsAlnum(s[0]) then 0 else 1 + KeyEnd(s[1..])
  }

  /** An unquoted value stops at a blank, a comma or the bracket. */
  function BareEnd(s: seq<Octet>): (n: nat)
    ensures n <= |s|
  {
    if s == [] || s[0] == ' ' || s[0] == ',' || s[0] == ']' then 0 else 1 + BareEnd(s[1..])
  }

  function Trim(s: seq<Octet>): (r: seq<Octet>)
    ensures |r| <= |s|
  {
    if s != [] && HdfLines.IsSpace(s[0]) then Trim(s[1..]) else s
  }

  /** White space, and a comma with the white space behind it. */
  function AfterOne(s: seq<Octet>): (r: seq<Octet>)
    ensures |r| <= |s|
  {
    var t := Trim(s);
    if t != [] && t[0] == ',' then Trim(t[1..]) else t
  }

  /** A copy of a C string ends at its first terminator. */
  function Copied(s: seq<Octet>): seq<Octet> {
    if s == [] || s[0] == '\0' then [] else [s[0]] + Copied(s[1..])
  }

  datatype Assigned = Assigned(value: seq<Octet>, rest: seq<Octet>) | NoValue | Overrun

  /** What stands behind a key. A bare key is stored with an empty value. */
  function ReadValue(s: seq<Octet>): (r: Assigned)
    ensures r.Assigned? ==> |r.rest| <= |s|
  {
    var t := Trim(s);
    if t == [] || t[0] != '=' then Assigned([], t)
    else
      var u := Trim(t[1..]);
      if u != [] && u[0] == '"' then
        match ReadQuoted(u[1..])
        case Value(v, rest) => Assigned(Copied(v), rest)
        case Unclosed => NoValue
        case PastEnd => Overrun
      else if BareEnd(u) == |u| then NoValue
      else Assigned(u[..BareEnd(u)], u[BareEnd(u)..])
  }

  /** From behind the opening bracket to behind the closing one. */
  function Read(s: seq<Octet>): (r: Attrs)
    decreases |s|
  {
    if s == [] then Malformed
    else if s[0] == ']' then Attrs([], s[1..])
    else
      var n := KeyEnd(s);
      if n == 0 || n == |s| then Malformed
      else
        match ReadValue(s[n..])
        case Assigned(v, rest) => Then(Attr(s[..n], v), Read(AfterOne(rest)))
        case NoValue => Malformed
        case Overrun => Lost
  }

  // ----- the cursor form

  method SkipKey(s: seq<Octet>, from: nat) returns (i: nat)
    requires from <= |s|
    ensures i == from + KeyEnd(s[from..]) && i <= |s|
  {
    i := from;
    while i < |s| && HdfLines.IsAlnum(s[i])
      invariant from <= i <= |s|
      invariant i + KeyEnd(s[i..]) == from + KeyEnd(s[from..])
    {
      assert s[i..][1..] == s[i + 1..];
      i := i + 1;
    }
  }

  method SkipBare(s: seq<Octet>, from: nat) returns (i: nat)
    requires from <= |s|
    ensures i == from + BareEnd(s[from..]) && i <= |s|
  {
    i := from;
    while i < |s| && s[i] != ' ' && s[i] != ',' && s[i] != ']'
      invariant from <= i <= |s|
      invariant i + BareEnd(s[i..]) == from + BareEnd(s[from..])
    {
      assert s[i..][1..] == s[i + 1..];
      i := i + 1;
    }
  }

  method SkipWhite(s: seq<Octet>, from: nat) returns (i: nat)
    requires from <= |s|
    ensures from <= i <= |s| && s[i..] == Trim(s[from..])
  {
    i := from;
    while i < |s| && HdfLines.IsSpace(s[i])
      invariant from <= i <= |s|
      invariant Trim(s[i..]) == Trim(s[from..])
    {
      assert s[i..][1..] == s[i + 1..];
      i := i + 1;
    }
  }

  method SkipComma(s: seq<Octet>, from: nat) returns (i: nat)
    requires from <= |s|
    ensures from <= i <= |s| && s[i..] == AfterOne(s[from..])
  {
    hide Trim;
    i := SkipWhite(s, from);
    if i < |s| && s[i] == ',' {
      assert s[i..][1..] == s[i + 1..];
      i := SkipWhite(s, i + 1);
    }
  }

  method ScanValue(s: seq<Octet>, from: nat) returns (a: Assigned, i: nat)
    requires from <= |s|
    ensures a == ReadValue(s[from..])
    ensures a.Assigned? ==> from <= i <= |s| && a.rest == s[i..]
  {
    hide Trim, ReadQuoted, BareEnd, Copied;
    i := SkipWhite(s, from);
    if i == |s| || s[i] != '=' {
      return Assigned([], s[i..]), i;
    }
    assert s[i..][1..] == s[i + 1..];
    i := SkipWhite(s, i + 1);
    if i < |s| && s[i] == '"' {
      assert s[i..][1..] == s[i + 1..];
      var q, end := ScanQuoted(s, i + 1);
      match q
      case Value(v, rest) =>
        RestLength(s, i + 1, end);
        return Assigned(Copied(v), rest), end;
      case Unclosed => return NoValue, end;
      case PastEnd => return Overrun, end;
    }
    var v := i;
    i := SkipBare(s, v);
    if i == |s| {
      return NoValue, i;
    }
    Cut(s, v, i);
    return Assigned(s[v..i], s[i..]), i;
  }

  lemma RestLength(s: seq<Octet>, from: nat, end: nat)
    requires from <= |s| && end <= |s| && ReadQuoted(s[from..]).Value?
    requires ReadQuoted(s[from..]).rest == s[end..]
    ensures from <= end
  {
    assert |s[end..]| < |s[from..]|;
  }

  lemma Cut(s: seq<Octet>, v: nat, i: nat)
    requires v <= i <= |s|
    ensures s[v..][..i - v] == s[v..i] && s[v..][i - v..] == s[i..]
  {
  }

  function Before(l: seq<Attr>, r: Attrs): Attrs {
    if r.Attrs? then Attrs(l + r.list, r.rest) else r
  }

  /** The reader: attributes collected one by one until the bracket closes. */
  method Parse(s: seq<Octet>, from: nat) returns (r: Attrs, end: nat)
    requires from <= |s|
    ensures r == Read(s[from..])
    ensures r.Attrs? ==> end <= |s| && r.rest == s[end..]
  {
    hide *;
    var list: seq<Attr> := [];
    end := from;
    BeforeNil(Read(s[from..]));
    while end < |s| && s[end] != ']'
      invariant from <= end <= |s|
      invariant Before(list, Read(s[end..])) == Read(s[from..])
      decreases |s| - end
    {
      var k := end;
      end := SkipKey(s, k);
      ReadStep(list, s, k);
      if end == |s| || end == k {
        return Malformed, end;
      }
      var v, next := ScanValue(s, end);
      match v
      case Assigned(value, _) =>
        list := list + [Attr(s[k..end], value)];
        end := SkipComma(s, next);
      case NoValue => return Malformed, end;
      case Overrun => return Lost, end;
    }
    ReadDone(list, s, end);
    if end == |s| {
      return Malformed, end;
    }
    end := end + 1;
    r := Attrs(list, s[end..]);
  }

  lemma BeforeNil(r: Attrs)
    ensures Before([], r) == r
  {
    if r.Attrs? {
      assert [] + r.list == r.list;
    }
  }

  lemma BeforeThen(l: seq<Attr>, a: Attr, r: Attrs)
    ensures Before(l, Then(a, r)) == Before(l + [a], r)
  {
    if r.Attrs? {
      assert l + ([a] + r.list) == l + [a] + r.list;
    }
  }

  lemma ReadDone(l: seq<Attr>, s: seq<Octet>, i: nat)
    requires i <= |s| && (i < |s| ==> s[i] == ']')
    ensures i == |s| ==> Before(l, Read(s[i..])) == Malformed
    ensures i < |s| ==> Before(l, Read(s[i..])) == Attrs(l, s[i + 1..])
  {
    if i < |s| {
      assert s[i..][1..] == s[i + 1..];
      assert l + [] == l;
    }
  }

  /** One attribute, seen from the cursor before it. */
  lemma ReadStep(l: seq<Attr>, s: seq<Octet>, k: nat)
    requires k < |s| && s[k] != ']'
    ensures var n := KeyEnd(s[k..]);
            k + n <= |s|
            && (n == 0 || k + n == |s| ==> Before(l, Read(s[k..])) == Malformed)
            && (n > 0 && k + n < |s| ==>
                  var v := ReadValue(s[k + n..]);
                  (v.NoValue? ==> Before(l, Read(s[k..])) == Malformed)
                  && (v.Overrun? ==> Before(l, Read(s[k..])) == Lost)
                  && (v.Assigned? ==>
                        Before(l, Read(s[k..]))
                        == Before(l + [Attr(s[k..k + n], v.value)], Read(AfterOne(v.rest)))))
  {
    hide KeyEnd, ReadValue, AfterOne;
    var t := s[k..];
    var n := KeyEnd(t);
    if n > 0 && k + n < |s| {
      Cut(s, k, k + n);
      var v := ReadValue(s[k + n..]);
      if v.Assigned? {
        BeforeThen(l, Attr(s[k..k + n], v.value), Read(AfterOne(v.rest)));
      }
    }
  }

  // ----- the round trip

  predicate KeyFine(key: seq<Octet>) {
    key != [] && forall k :: 0 <= k < |key| ==> HdfLines.IsAlnum(key[k])
  }

  predicate Fine(l: seq<Attr>) {
    forall k :: 0 <= k < |l| ==> KeyFine(l[k].key) && NulFree(l[k].value)
  }

  function ReadBack(l: seq<Attr>): (r: seq<Attr>)
    ensures |r| == |l|
    ensures forall k {:trigger r[k]} :: 0 <= k < |l| ==>
              r[k] == if l[k].value == "1" then Attr(l[k].key, []) else l[k]
  {
    if l == [] then [] else [if l[0].value == "1" then Attr(l[0].key, []) else l[0]] + ReadBack(l[1..])
  }

  lemma {:induction false} KeyEndAt(key: seq<Octet>, t: seq<Octet>)
    requires forall k :: 0 <= k < |key| ==> HdfLines.IsAlnum(key[k])
    requires t != [] && !HdfLines.IsAlnum(t[0])
    ensures KeyEnd(key + t) == |key|
  {
    if key == [] {
      assert key + t == t;
    } else {
      assert (key + t)[1..] == key[1..] + t;
      KeyEndAt(key[1..], t);
    }
  }

  lemma {:induction false} CopiedWhole(s: seq<Octet>)
    requires NulFree(s)
    ensures Copied(s) == s
  {
    if s != [] {
      CopiedWhole(s[1..]);
    }
  }

  // ----- lists written by hand

  lemma {:induction false} TrimOver(x: seq<Octet>, t: seq<Octet>)
    requires HdfLines.AllSpace(x) && (t == [] || !HdfLines.IsSpace(t[0]))
    ensures Trim(x + t) == t
  {
    if x == [] {
      assert x + t == t;
    } else {
      assert (x + t)[1..] == x[1..] + t;
      TrimOver(x[1..], t);
    }
  }

  lemma {:induction false} BareOver(v: seq<Octet>, t: seq<Octet>)
    requires (forall k :: 0 <= k < |v| ==> v[k] !in " ,]") && t != [] && t[0] in " ,]"
    ensures BareEnd(v + t) == |v|
  {
    if v == [] {
      assert v + t == t;
    } else {
      assert v[0] !in " ,]" && (v + t)[1..] == v[1..] + t;
      BareOver(v[1..], t);
      NotAStop(v[0]);
    }
  }

  lemma NotAStop(c: Octet)
    requires c !in " ,]"
    ensures c != ' ' && c != ',' && c != ']'
  {
    assert " ,]"[0] == ' ' && " ,]"[1] == ',' && " ,]"[2] == ']';
  }

  /** What stands between two attributes: white space, a comma, white space; or white space alone. */
  lemma BetweenTwo(x: seq<Octet>, y: seq<Octet>, t: seq<Octet>)
    requires HdfLines.AllSpace(x) && HdfLines.AllSpace(y) && t != [] && !HdfLines.IsSpace(t[0])
    ensures AfterOne(x + [','] + y + t) == t
    ensures t[0] != ',' ==> AfterOne(x + t) == t
  {
    var u: seq<Octet> := [','] + y + t;
    assert x + [','] + y + t == x + u && u[1..] == y + t;
    TrimOver(x, u);
    TrimOver(y, t);
    TrimOver(x, t);
  }

  /** A key, and behind it what is read as its value. */
  lemma KeyThen(key: seq<Octet>, behind: seq<Octet>, value: seq<Octet>, tail: seq<Octet>)
    requires KeyFine(key) && behind != [] && !HdfLines.IsAlnum(behind[0]) && ReadValue(behind) == Assigned(value, tail)
    ensures Read(key + behind) == Then(Attr(key, value), Read(AfterOne(tail)))
  {
    hide ReadValue, AfterOne, KeyEnd;
    KeyEndAt(key, behind);
    var s := key + behind;
    assert s[..|key|] == key && s[|key|..] == behind;
    assert HdfLines.IsAlnum(key[0]) && s[0] == key[0];
  }

  /** key = value: white space around the sign is dropped, and the value ends before a blank, a comma or
      the bracket. */
  lemma BareValue(key: seq<Octet>, x: seq<Octet>, y: seq<Octet>, value: seq<Octet>, tail: seq<Octet>)
    requires KeyFine(key) && HdfLines.AllSpace(x) && HdfLines.AllSpace(y)
    requires value != [] && !HdfLines.IsSpace(value[0]) && value[0] != '"' && forall k :: 0 <= k < |value| ==> value[k] !in " ,]"
    requires tail != [] && tail[0] in " ,]"
    ensures Read(key + x + ['='] + y + value + tail) == Then(Attr(key, value), Read(AfterOne(tail)))
  {
    hide Trim, BareEnd, AfterOne, Read, ReadValue, KeyFine;
    var u: seq<Octet> := ['='] + (y + (value + tail));
    BareAssigned(x, y, value, tail);
    AfterKey(x, u);
    KeyThen(key, x + u, value, tail);
    Together(key, x, y, value, tail);
  }

  lemma BareAssigned(x: seq<Octet>, y: seq<Octet>, value: seq<Octet>, tail: seq<Octet>)
    requires HdfLines.AllSpace(x) && HdfLines.AllSpace(y)
    requires value != [] && !HdfLines.IsSpace(value[0]) && value[0] != '"' && forall k :: 0 <= k < |value| ==> value[k] !in " ,]"
    requires tail != [] && tail[0] in " ,]"
    ensures ReadValue(x + (['='] + (y + (value + tail)))) == Assigned(value, tail)
  {
    hide Trim, BareEnd, HdfLines.AllSpace;
    var w := value + tail;
    var u: seq<Octet> := ['='] + (y + w);
    assert u[1..] == y + w && w[0] == value[0];
    TrimOver(x, u);
    TrimOver(y, w);
    BareOver(value, tail);
    assert w[..|value|] == value && w[|value|..] == tail;
  }

  lemma Together(key: seq<Octet>, x: seq<Octet>, y: seq<Octet>, value: seq<Octet>, tail: seq<Octet>)
    ensures key + x + ['='] + y + value + tail == key + (x + (['='] + (y + (value + tail))))
  {
  }

  lemma AfterKey(x: seq<Octet>, u: seq<Octet>)
    requires HdfLines.AllSpace(x) && u != [] && !HdfLines.IsAlnum(u[0])
    ensures x + u != [] && !HdfLines.IsAlnum((x + u)[0])
  {
  }

  /** key = "text": the text is what its quoted form stands for. */
  lemma QuotedValue(key: seq<Octet>, x: seq<Octet>, y: seq<Octet>, text: seq<Octet>, tail: seq<Octet>)
    requires KeyFine(key) && HdfLines.AllSpace(x) && HdfLines.AllSpace(y) && NulFree(text)
    ensures Read(key + x + ['='] + y + Repr(text) + tail) == Then(Attr(key, text), Read(AfterOne(tail)))
  {
    hide Trim, BareEnd, AfterOne, Read, KeyFine, Body, Copied, ReadQuoted;
    var u: seq<Octet> := ['='] + y + Repr(text) + tail;
    var q := Repr(text) + tail;
    assert u[1..] == y + q;
    assert q[1..] == Body(text) + (['"'] + tail);
    TrimOver(x, u);
    TrimOver(y, q);
    ReprReadBack(text, tail);
    CopiedWhole(text);
    AfterKey(x, u);
    KeyThen(key, x + u, text, tail);
    assert key + x + ['='] + y + Repr(text) + tail == key + (x + u);
  }

  /** A key alone has the empty value. */
  lemma KeyAlone(key: seq<Octet>, x: seq<Octet>, tail: seq<Octet>)
    requires KeyFine(key) && HdfLines.AllSpace(x)
    requires tail != [] && tail[0] != '=' && !HdfLines.IsSpace(tail[0]) && !HdfLines.IsAlnum(tail[0])
    ensures Read(key + x + tail) == Then(Attr(key, []), Read(AfterOne(tail)))
  {
    hide Trim, AfterOne, Read, KeyFine;
    TrimOver(x, tail);
    AfterKey(x, tail);
    KeyThen(key, x + tail, [], tail);
    assert key + x + tail == key + (x + tail);
  }

  /** Behind an attribute there is a comma or the closing bracket. */
  predicate Stops(tail: seq<Octet>) {
    tail != [] && (tail[0] == ',' || tail[0] == ']')
  }

  lemma ValueRead(v: seq<Octet>, tail: seq<Octet>)
    requires NulFree(v)
    ensures ReadValue(['='] + Repr(v) + tail) == Assigned(v, tail)
  {
    hide ReadQuoted, Body, Copied;
    var t: seq<Octet> := ['='] + Repr(v) + tail;
    var u := Repr(v) + tail;
    assert t[1..] == u;
    assert u[1..] == Body(v) + (['"'] + tail);
    ReprReadBack(v, tail);
    CopiedWhole(v);
  }

  lemma OneRead(a: Attr, tail: seq<Octet>)
    requires KeyFine(a.key) && NulFree(a.value) && Stops(tail)
    ensures Read(DumpOne(a) + tail)
         == Then(Attr(a.key, if a.value == "1" then [] else a.value), Read(AfterOne(tail)))
  {
    hide ReadValue, AfterOne, KeyEnd, Repr;
    var behind := if a.value == "1" then tail else ['='] + Repr(a.value) + tail;
    var s := DumpOne(a) + tail;
    assert s == a.key + behind;
    KeyEndAt(a.key, behind);
    assert s[..|a.key|] == a.key && s[|a.key|..] == behind;
    assert s[0] == a.key[0];
    if a.value == "1" {
      BareRead(tail);
    } else {
      ValueRead(a.value, tail);
    }
  }

  lemma BareRead(tail: seq<Octet>)
    requires Stops(tail)
    ensures ReadValue(tail) == Assigned([], tail)
  {
  }

  lemma BehindOne(l: seq<Attr>, rest: seq<Octet>)
    requires Fine(l)
    ensures l != [] ==> AfterOne([',', ' '] + DumpList(l) + ([']'] + rest)) == DumpList(l) + ([']'] + rest)
    ensures AfterOne([']'] + rest) == [']'] + rest
  {
    hide AfterOne, DumpList;
    var close: seq<Octet> := [']'] + rest;
    BracketStops(close);
    if l != [] {
      assert KeyFine(l[0].key);
      StartsWithKey(l);
      CommaStops(DumpList(l) + close);
      Regrouped([',', ' '], DumpList(l), close);
    }
  }

  lemma BracketStops(d: seq<Octet>)
    requires d != [] && d[0] == ']'
    ensures AfterOne(d) == d
  {
  }

  lemma CommaStops(d: seq<Octet>)
    requires d != [] && HdfLines.IsAlnum(d[0])
    ensures AfterOne([',', ' '] + d) == d
  {
    var t: seq<Octet> := [',', ' '] + d;
    assert t[1..][1..] == d && t[1..][0] == ' ' && t[0] == ',';
    assert Trim(t) == t && Trim(d) == d;
    assert Trim(t[1..]) == Trim(d);
  }

  lemma StartsWithKey(l: seq<Attr>)
    requires l != [] && l[0].key != []
    ensures DumpList(l) != [] && DumpList(l)[0] == l[0].key[0]
  {
  }

  /** A written list is read as it was, but for the values written as bare keys. */
  lemma {:induction false} DumpRead(l: seq<Attr>, rest: seq<Octet>)
    requires Fine(l)
    ensures Read(DumpList(l) + ([']'] + rest)) == Attrs(ReadBack(l), rest)
  {
    hide DumpOne, AfterOne;
    var close: seq<Octet> := [']'] + rest;
    if l == [] {
      Closing(rest);
    } else {
      var d := DumpList(l[1..]);
      var tail := if |l| == 1 then close else [',', ' '] + d + close;
      assert DumpList(l) + close == DumpOne(l[0]) + tail;
      assert KeyFine(l[0].key) && NulFree(l[0].value);
      OneRead(l[0], tail);
      BehindOne(l[1..], rest);
      DumpRead(l[1..], rest);
      if |l| == 1 {
        assert d + close == close;
      }
    }
  }

  lemma Closing(rest: seq<Octet>)
    ensures Read(DumpList([]) + ([']'] + rest)) == Attrs([], rest)
  {
    var s: seq<Octet> := [']'] + rest;
    assert DumpList([]) + s == s && s[1..] == rest;
  }

  /** The list comes back exactly when no value is the text 1. */
  lemma RoundTrip(l: seq<Attr>, rest: seq<Octet>)
    requires Fine(l)
    ensures Read(DumpList(l) + ([']'] + rest)) == Attrs(l, rest)
       <==> forall k :: 0 <= k < |l| ==> l[k].value != "1"
  {
    DumpRead(l, rest);
    var r := ReadBack(l);
    if k :| 0 <= k < |l| && l[k].value == "1" {
      assert r[k].value == [];
    } else {
      assert r == l;
    }
  }
}

/** Lines of HDF text, as the reader takes them apart. */
module HdfLines {

  predicate IsSpace(c: char) {
    c == ' ' || '\t' <= c <= '\r'
  }

  predicate IsAlnum(c: char) {
    '0' <= c <= '9' || 'a' <= c <= 'z' || 'A' <= c <= 'Z'
  }

  predicate IsNameChar(c: char) {
    IsAlnum(c) || c == '_' || c == '.'
  }

  /** The position of the first character at or after i that is not white space. */
  function SkipSpace(s: string, i: nat): (j: nat)
    requires i <= |s|
    ensures i <= j <= |s|
    decreases |s| - i
  {
    if i < |s| && IsSpace(s[i]) then SkipSpace(s, i + 1) else i
  }

  function SkipName(s: string, i: nat): (j: nat)
    requires i <= |s|
    ensures i <= j <= |s|
    decreases |s| - i
  {
    if i < |s| && IsNameChar(s[i]) then SkipName(s, i + 1) else i
  }

  function RStrip(s: string): (r: string) {
    if s != [] && IsSpace(s[|s| - 1]) then RStrip(s[..|s| - 1]) else s
  }

  /** `neos_strip` */
  function Strip(s: string): (r: string) {
    var t := RStrip(s);
    t[SkipSpace(t, 0)..]
  }

  /** No white space at either end. */
  predicate Trimmed(s: string) {
    s == [] || (!IsSpace(s[0]) && !IsSpace(s[|s| - 1]))
  }

  predicate AllSpace(s: string) {
    forall i :: 0 <= i < |s| ==> IsSpace(s[i])
  }

  predicate AllName(s: string) {
    forall i :: 0 <= i < |s| ==> IsNameChar(s[i])
  }

  /** A run of white space behind a, up to what is not white space, is skipped. */
  lemma {:induction false} SkipSpaceOver(a: string, u: string, b: string)
    requires AllSpace(u) && (b != "" ==> !IsSpace(b[0]))
    ensures SkipSpace(a + u + b, |a|) == |a| + |u|
    decreases |u|
  {
    var s := a + u + b;
    if u == "" {
      assert b != "" ==> s[|a|] == b[0];
    } else {
      assert s[|a|] == u[0];
      assert s == (a + [u[0]]) + u[1..] + b;
      SkipSpaceOver(a + [u[0]], u[1..], b);
    }
  }

  lemma {:induction false} SkipNameOver(a: string, c: string, b: string)
    requires AllName(c) && (b != "" ==> !IsNameChar(b[0]))
    ensures SkipName(a + c + b, |a|) == |a| + |c|
    decreases |c|
  {
    var s := a + c + b;
    if c == "" {
      assert b != "" ==> s[|a|] == b[0];
    } else {
      assert s[|a|] == c[0];
      assert s == (a + [c[0]]) + c[1..] + b;
      SkipNameOver(a + [c[0]], c[1..], b);
    }
  }

  lemma {:induction false} RStripOver(s: string, x: string)
    requires AllSpace(x)
    ensures RStrip(s + x) == RStrip(s)
    decreases |x|
  {
    if x == "" {
      assert s + x == s;
    } else {
      var t := s + x;
      assert t[|t| - 1] == x[|x| - 1] && t[..|t| - 1] == s + x[..|x| - 1];
      RStripOver(s, x[..|x| - 1]);
    }
  }

  /** Stripping removes exactly the white space around a text. */
  lemma StripAround(w: string, value: string, x: string)
    requires AllSpace(w) && AllSpace(x) && Trimmed(value)
    ensures Strip(w + value + x) == value
  {
    if value == "" {
      assert w + value + x == "" + (w + x);
      RStripOver("", w + x);
    } else {
      var t := w + value;
      RStripOver(t, x);
      assert t[|t| - 1] == value[|value| - 1];
      assert "" + w + value == t;
      SkipSpaceOver("", w, value);
    }
  }

  /** Every text is a trimmed one with white space around it: what is stripped is trimmed. */
  lemma {:induction false} StripParts(s: string) returns (w: string, x: string)
    ensures AllSpace(w) && AllSpace(x) && Trimmed(Strip(s)) && s == w + Strip(s) + x
    decreases |s|
  {
    hide Strip, AllSpace, Trimmed, RStrip, SkipSpace, IsSpace;
    if s != "" && IsSpace(s[0]) {
      var r := s[1..];
      w, x := StripParts(r);
      OneMoreSpace(s[0], w);
      w := [s[0]] + w;
      Front(s, w, Strip(r), x);
      StripAround(w, Strip(r), x);
    } else if s != "" && IsSpace(s[|s| - 1]) {
      var r := s[..|s| - 1];
      w, x := StripParts(r);
      OneMoreSpace(s[|s| - 1], x);
      x := x + [s[|s| - 1]];
      Back(s, w, Strip(r), x);
      StripAround(w, Strip(r), x);
    } else {
      w, x := "", "";
      NoSpace(s);
      assert s == "" + s + "";
      StripAround("", s, "");
    }
  }

  lemma OneMoreSpace(c: char, w: string)
    requires IsSpace(c) && AllSpace(w)
    ensures AllSpace([c] + w) && AllSpace(w + [c])
  {
  }

  lemma NoSpace(s: string)
    requires s != "" ==> !IsSpace(s[0]) && !IsSpace(s[|s| - 1])
    ensures Trimmed(s) && AllSpace("")
  {
  }

  lemma Front(s: string, w: string, t: string, x: string)
    requires s != "" && w != "" && w[0] == s[0] && s[1..] == w[1..] + t + x
    ensures s == w + t + x
  {
    assert s == [s[0]] + s[1..];
  }

  lemma Back(s: string, w: string, t: string, x: string)
    requires s != "" && x != "" && x[|x| - 1] == s[|s| - 1] && s[..|s| - 1] == w + t + x[..|x| - 1]
    ensures s == w + t + x
  {
    assert s == s[..|s| - 1] + [s[|s| - 1]];
  }

  datatype Line =
    | Blank
    | Include
    | Up
    | Garbage
    | Assign(name: string, value: string)
    | Copy(name: string, source: string)
    | Link(name: string, target: string)
    | Deeper(name: string)
    | Multi
    | Attributes
    | Unreadable

  const INCLUDE := "#include "

  /** What a line says. Nothing but white space, and a comment, say nothing. */
  function ParseLine(line: string): (l: Line) {
    var i := SkipSpace(line, 0);
    if i == |line| then Blank
    else if INCLUDE <= line[i..] then Include
    else if line[i] == '#' then Blank
    else if line[i] == '}' then (if Strip(line[i..]) == "}" then Up else Garbage)
    else
      var e := SkipName(line, i);
      var s, name := SkipSpace(line, e), line[i..e];
      if s == |line| then Unreadable
      else if line[s] == '[' then Attributes
      else if line[s] == '=' then Assign(name, Strip(line[s + 1..]))
      else if line[s] == ':' && s + 1 < |line| && line[s + 1] == '=' then Copy(name, Strip(line[s + 2..]))
      else if line[s] == ':' then Link(name, Strip(line[s + 1..]))
      else if line[s] == '{' then Deeper(name)
      else if line[s] == '<' && s + 1 < |line| && line[s + 1] == '<' then Multi
      else Unreadable
  }

  /** A component the text format can write: letters, digits and underscores. */
  predicate WordName(c: string) {
    c != "" && forall i :: 0 <= i < |c| ==> IsAlnum(c[i]) || c[i] == '_'
  }

  lemma WordIsName(c: string)
    requires WordName(c)
    ensures c != "" && AllName(c)
  {
  }

  /** A line that starts with white space u and something else. */
  lemma AfterSpace(u: string, rest: string)
    requires AllSpace(u) && rest != "" && !IsSpace(rest[0])
    ensures |u| < |u + rest| && SkipSpace(u + rest, 0) == |u| && (u + rest)[|u|..] == rest && (u + rest)[|u|] == rest[0]
  {
    assert "" + u + rest == u + rest;
    SkipSpaceOver("", u, rest);
  }

  /** The name of a line, and what follows it behind white space. */
  lemma AfterName(a: string, name: string, v: string, op: string)
    requires AllSpace(v) && AllName(name) && (op != "" ==> !IsSpace(op[0]) && !IsNameChar(op[0]))
    ensures var line := a + name + v + op;
            var e, s := |a| + |name|, |a| + |name| + |v|;
            && SkipName(line, |a|) == e && SkipSpace(line, e) == s && line[|a|..e] == name && line[s..] == op
            && (s == |line| <==> op == "")
  {
    if v != "" {
      SpaceNoName(v);
    }
    assert a + name + v + op == a + name + (v + op);
    assert v + op != "" ==> (v + op)[0] == if v != "" then v[0] else op[0];
    SkipNameOver(a, name, v + op);
    assert a + name + v + op == (a + name) + v + op;
    SkipSpaceOver(a + name, v, op);
  }

  lemma SpaceNoName(v: string)
    requires AllSpace(v) && v != ""
    ensures !IsNameChar(v[0])
  {
  }

  lemma NameStarts(name: string, v: string, op: string)
    requires name != "" && AllName(name)
    ensures var t := name + v + op; t != "" && !IsSpace(t[0]) && !(INCLUDE <= t) && t[0] != '#' && t[0] != '}'
  {
    assert (name + v + op)[0] == name[0] && INCLUDE[0] == '#';
  }

  /** What follows the name and white space, up to the end of the line, decides. */
  function ByOperator(name: string, op: string): (l: Line) {
    if op == "" then Unreadable
    else if op[0] == '[' then Attributes
    else if op[0] == '=' then Assign(name, Strip(op[1..]))
    else if ":=" <= op then Copy(name, Strip(op[2..]))
    else if op[0] == ':' then Link(name, Strip(op[1..]))
    else if op[0] == '{' then Deeper(name)
    else if "<<" <= op then Multi
    else Unreadable
  }

  lemma ParseNamed(u: string, name: string, v: string, op: string)
    requires AllSpace(u) && AllSpace(v) && name != "" && AllName(name)
    requires op != "" ==> !IsSpace(op[0]) && !IsNameChar(op[0])
    ensures ParseLine(u + name + v + op) == ByOperator(name, op)
  {
    hide SkipSpace, SkipName, Strip, AllSpace, AllName, IsSpace, IsNameChar;
    var line := u + name + v + op;
    NameStarts(name, v, op);
    AfterSpace(u, name + v + op);
    assert u + (name + v + op) == line;
    AfterName(u, name, v, op);
    Behind(line, |u| + |name| + |v|, op);
  }

  lemma Behind(line: string, s: nat, op: string)
    requires s <= |line| && line[s..] == op
    ensures op != "" ==> s < |line| && line[s] == op[0] && line[s + 1..] == op[1..] && (s + 1 < |line| <==> 1 < |op|)
    ensures 1 < |op| ==> line[s + 1] == op[1] && line[s + 2..] == op[2..]
    ensures ":=" <= op <==> 1 < |op| && op[0] == ':' && op[1] == '='
    ensures "<<" <= op <==> 1 < |op| && op[0] == '<' && op[1] == '<'
  {
    assert op != "" ==> line[s..][0] == line[s];
    assert 1 < |op| ==> line[s..][1] == line[s + 1];
  }

  lemma OpStarts()
    ensures !IsSpace('=') && !IsNameChar('=') && !IsSpace(':') && !IsNameChar(':') && !IsSpace('{') && !IsNameChar('{')
  {
  }

  /** Lines written by hand: any white space at the start, around the operator and at the end. */
  lemma ParseAssign(u: string, name: string, v: string, w: string, value: string, x: string)
    requires AllSpace(u) && AllSpace(v) && AllSpace(w) && AllSpace(x) && Trimmed(value) && name != "" && AllName(name)
    ensures ParseLine(u + name + v + "=" + w + value + x) == Assign(name, value)
  {
    hide ParseLine, Strip, AllSpace, AllName, Trimmed, IsSpace, IsNameChar;
    var t := w + value + x;
    OpStarts();
    ParseNamed(u, name, v, "=" + t);
    assert u + name + v + "=" + w + value + x == u + name + v + ("=" + t);
    assert ("=" + t)[1..] == t;
    StripAround(w, value, x);
  }

  lemma ParseLink(u: string, name: string, v: string, w: string, value: string, x: string)
    requires AllSpace(u) && AllSpace(v) && AllSpace(w) && AllSpace(x) && Trimmed(value) && name != "" && AllName(name)
    requires !("=" <= w + value)
    ensures ParseLine(u + name + v + ":" + w + value + x) == Link(name, value)
  {
    hide ParseLine, Strip, AllSpace, AllName, Trimmed, IsSpace, IsNameChar;
    var t := w + value + x;
    OpStarts();
    ParseNamed(u, name, v, ":" + t);
    assert u + name + v + ":" + w + value + x == u + name + v + (":" + t);
    assert (":" + t)[1..] == t;
    StripAround(w, value, x);
    NoEqualsSign(w + value, x);
  }

  lemma NoEqualsSign(a: string, x: string)
    requires !("=" <= a) && AllSpace(x)
    ensures !(":=" <= ":" + (a + x))
  {
    var t := ":" + (a + x);
    assert a + x != "" ==> t[1] == (a + x)[0] == if a != "" then a[0] else x[0];
  }

  lemma ParseCopy(u: string, name: string, v: string, w: string, value: string, x: string)
    requires AllSpace(u) && AllSpace(v) && AllSpace(w) && AllSpace(x) && Trimmed(value) && name != "" && AllName(name)
    ensures ParseLine(u + name + v + ":=" + w + value + x) == Copy(name, value)
  {
    hide ParseLine, Strip, AllSpace, AllName, Trimmed, IsSpace, IsNameChar;
    var t := w + value + x;
    OpStarts();
    ParseNamed(u, name, v, ":=" + t);
    assert u + name + v + ":=" + w + value + x == u + name + v + (":=" + t);
    assert (":=" + t)[2..] == t;
    StripAround(w, value, x);
  }

  /** Behind the brace anything may follow. */
  lemma ParseDeeper(u: string, name: string, v: string, rest: string)
    requires AllSpace(u) && AllSpace(v) && name != "" && AllName(name)
    ensures ParseLine(u + name + v + "{" + rest) == Deeper(name)
  {
    hide ParseLine, AllSpace, AllName, IsSpace, IsNameChar;
    OpStarts();
    ParseNamed(u, name, v, "{" + rest);
    assert u + name + v + "{" + rest == u + name + v + ("{" + rest);
  }

  /** A name alone, with an attribute list, with an end mark for several lines, or with anything else. */
  lemma ParseOthers(u: string, name: string, v: string, op: string)
    requires AllSpace(u) && AllSpace(v) && name != "" && AllName(name)
    requires op != "" ==> !IsSpace(op[0]) && !IsNameChar(op[0])
    ensures "[" <= op ==> ParseLine(u + name + v + op) == Attributes
    ensures "<<" <= op ==> ParseLine(u + name + v + op) == Multi
    ensures !("[" <= op || "=" <= op || ":" <= op || "{" <= op || "<<" <= op) ==>
      ParseLine(u + name + v + op) == Unreadable
  {
    hide ParseLine, AllSpace, AllName, IsSpace, IsNameChar, Strip;
    ParseNamed(u, name, v, op);
  }

  /** Lines without a name: white space, a comment, an inclusion, a closing brace. */
  lemma ParseNameless(u: string, rest: string)
    requires AllSpace(u)
    ensures ParseLine(u) == Blank
    ensures ParseLine(u + (INCLUDE + rest)) == Include
    ensures !(INCLUDE <= "#" + rest) ==> ParseLine(u + ("#" + rest)) == Blank
    ensures ParseLine(u + ("}" + rest)) == if AllSpace(rest) then Up else Garbage
  {
    hide SkipSpace, SkipName, Strip, AllSpace;
    assert "" + u + "" == u;
    SkipSpaceOver("", u, "");
    Starts(rest);
    AfterSpace(u, INCLUDE + rest);
    AfterSpace(u, "#" + rest);
    AfterSpace(u, "}" + rest);
    Brace(rest);
  }

  lemma Starts(rest: string)
    ensures (INCLUDE + rest)[0] == '#' == ("#" + rest)[0] && ("}" + rest)[0] == '}' && INCLUDE <= INCLUDE + rest
    ensures !(INCLUDE <= "}" + rest) && !IsSpace('#') && !IsSpace('}')
  {
    assert INCLUDE[0] == '#';
  }

  lemma Brace(rest: string)
    ensures Strip("}" + rest) == "}" <==> AllSpace(rest)
  {
    hide Strip;
    var t := "}" + rest;
    if AllSpace(rest) {
      assert t == "" + "}" + rest;
      StripAround("", "}", rest);
    }
    if Strip(t) == "}" {
      var w, x := StripParts(t);
      BraceFirst(w, x, rest);
    }
  }

  lemma BraceFirst(w: string, x: string, rest: string)
    requires AllSpace(w) && AllSpace(x) && "}" + rest == w + "}" + x
    ensures AllSpace(rest)
  {
    var t := w + "}" + x;
    assert t[0] == '}';
    assert t[1..] == rest;
    assert w == "" ==> t[1..] == x;
  }

  /** The lines the writer produces are read as what they were written for. */
  lemma ParseWritten(c: string, value: string)
    requires WordName(c) && Trimmed(value)
    ensures ParseLine(c + " = " + value) == Assign(c, value)
  {
    hide ParseLine, WordName, Trimmed;
    WordIsName(c);
    ParseAssign("", c, " ", " ", value, "");
    assert "" + c + " " + "=" + " " + value + "" == c + " = " + value;
  }

  lemma ParseLinked(c: string, value: string)
    requires WordName(c) && Trimmed(value)
    ensures ParseLine(c + " : " + value) == Link(c, value)
  {
    hide ParseLine, WordName, Trimmed;
    WordIsName(c);
    assert (" " + value)[0] == ' ';
    ParseLink("", c, " ", " ", value, "");
    assert "" + c + " " + ":" + " " + value + "" == c + " : " + value;
  }

  lemma ParseOpening(c: string)
    requires WordName(c)
    ensures ParseLine(c + " {") == Deeper(c)
  {
    hide ParseLine, WordName;
    WordIsName(c);
    ParseDeeper("", c, " ", "");
    assert "" + c + " " + "{" + "" == c + " {";
  }

  lemma ParseClosing()
    ensures ParseLine("}") == Up
  {
    hide ParseLine;
    ParseNameless("", "");
    assert "" + ("}" + "") == "}";
  }

  // ----- lines of a text

  /** The position of the newline that ends the line at pos, or the end of the text. */
  function LineEnd(text: string, pos: nat): (e: nat)
    requires pos <= |text|
    ensures pos <= e <= |text|
    decreases |text| - pos
  {
    if pos == |text| || text[pos] == '\n' then pos else LineEnd(text, pos + 1)
  }

  function NextLine(text: string, pos: nat): (n: nat)
    requires pos < |text|
    ensures pos < n <= |text|
  {
    if LineEnd(text, pos) < |text| then LineEnd(text, pos) + 1 else |text|
  }

  /** What the line at pos says. */
  function LineAt(text: string, pos: nat): (l: Line)
    requires pos <= |text|
  {
    ParseLine(text[pos..LineEnd(text, pos)])
  }

  lemma {:induction false} LineEndAt(text: string, pos: nat, e: nat)
    requires pos <= e < |text| && text[e] == '\n' && forall k :: pos <= k < e ==> text[k] != '\n'
    ensures LineEnd(text, pos) == e
    decreases e - pos
  {
    if pos < e {
      LineEndAt(text, pos + 1, e);
    }
  }

  /** The last line need not end in a newline. */
  lemma {:induction false} LastLine(text: string, pos: nat)
    requires pos <= |text| && forall k :: pos <= k < |text| ==> text[k] != '\n'
    ensures LineEnd(text, pos) == |text| && (pos < |text| ==> NextLine(text, pos) == |text|)
    ensures LineAt(text, pos) == ParseLine(text[pos..])
    decreases |text| - pos
  {
    if pos < |text| {
      LastLine(text, pos + 1);
    }
    assert text[pos..|text|] == text[pos..];
  }

  /** The text holds s at pos. */
  predicate At(text: string, pos: nat, s: string) {
    pos + |s| <= |text| && text[pos..pos + |s|] == s
  }

  lemma AtConcat(text: string, pos: nat, a: string, b: string)
    ensures At(text, pos, a + b) <==> At(text, pos, a) && At(text, pos + |a|, b)
  {
    if At(text, pos, a + b) {
      assert text[pos..pos + |a|] == text[pos..pos + |a + b|][..|a|];
      assert text[pos + |a|..pos + |a| + |b|] == text[pos..pos + |a + b|][|a|..];
    }
    if At(text, pos, a) && At(text, pos + |a|, b) {
      assert text[pos..pos + |a + b|] == text[pos..pos + |a|] + text[pos + |a|..pos + |a| + |b|];
    }
  }

  /** A line written into a text is the line read there. */
  lemma WrittenLine(text: string, pos: nat, line: string)
    requires At(text, pos, line + "\n") && '\n' !in line
    ensures pos < |text| && text[pos..LineEnd(text, pos)] == line && NextLine(text, pos) == pos + |line| + 1
  {
    var e := pos + |line|;
    AtConcat(text, pos, line, "\n");
    forall k | pos <= k < e
      ensures text[k] != '\n'
    {
      assert text[k] == text[pos..e][k - pos];
    }
    assert text[e] == text[e..e + 1][0];
    LineEndAt(text, pos, e);
  }

  // ----- the loops of the reader over a line

  /** `SKIPWS` */
  method SkipWhite(s: string, i: nat) returns (j: nat)
    requires i <= |s|
    ensures j == SkipSpace(s, i)
  {
    j := i;
    while j < |s| && IsSpace(s[j])
      invariant i <= j <= |s| && SkipSpace(s, j) == SkipSpace(s, i)
    {
      j := j + 1;
    }
  }

  method SkipNameChars(s: string, i: nat) returns (j: nat)
    requires i <= |s|
    ensures j == SkipName(s, i)
  {
    j := i;
    while j < |s| && IsNameChar(s[j])
      invariant i <= j <= |s| && SkipName(s, j) == SkipName(s, i)
    {
      j := j + 1;
    }
  }

  method StripText(s: string) returns (r: string)
    ensures r == Strip(s)
  {
    r := s;
    while r != [] && IsSpace(r[|r| - 1])
      invariant RStrip(r) == RStrip(s)
      decreases |r|
    {
      r := r[..|r| - 1];
    }
    var j := SkipWhite(r, 0);
    r := r[j..];
  }

  method FindNewline(text: string, pos: nat) returns (e: nat)
    requires pos <= |text|
    ensures e == LineEnd(text, pos)
  {
    e := pos;
    while e < |text| && text[e] != '\n'
      invariant pos <= e <= |text| && LineEnd(text, e) == LineEnd(text, pos)
    {
      e := e + 1;
    }
  }

  /** The reader's case distinction on a line. */
  method TakeLine(line: string) returns (l: Line)
    ensures l == ParseLine(line)
  {
    hide SkipSpace, SkipName, Strip;
    var i := SkipWhite(line, 0);
    if i == |line| {
      return Blank;
    }
    if INCLUDE <= line[i..] {
      return Include;
    }
    if line[i] == '#' {
      return Blank;
    }
    if line[i] == '}' {
      var t := StripText(line[i..]);
      return if t == "}" then Up else Garbage;
    }
    var e := SkipNameChars(line, i);
    var s := SkipWhite(line, e);
    var name := line[i..e];
    if s == |line| {
      return Unreadable;
    }
    if line[s] == '[' {
      return Attributes;
    }
    if line[s] == '=' {
      var v := StripText(line[s + 1..]);
      return Assign(name, v);
    }
    if line[s] == ':' && s + 1 < |line| && line[s + 1] == '=' {
      var v := StripText(line[s + 2..]);
      return Copy(name, v);
    }
    if line[s] == ':' {
      var v := StripText(line[s + 1..]);
      return Link(name, v);
    }
    if line[s] == '{' {
      return Deeper(name);
    }
    if line[s] == '<' && s + 1 < |line| && line[s + 1] == '<' {
      return Multi;
    }
    return Unreadable;
  }

  /** The next line of a text, and where the one after it starts. */
  method TakeNext(text: string, pos: nat) returns (l: Line, next: nat)
    requires pos < |text|
    ensures l == LineAt(text, pos) && next == NextLine(text, pos)
  {
    hide ParseLine, LineEnd;
    var e := FindNewline(text, pos);
    l := TakeLine(text[pos..e]);
    next := if e < |text| then e + 1 else |text|;
  }
}

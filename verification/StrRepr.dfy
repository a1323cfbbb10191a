/** Writing a text between quotes, and reading it back. */
module StrRepr {
  import opened Octets
  import opened Wrappers

  predicate Plain(c: Octet) {
    IsPrint(c) && c != '"' && c != '\\'
  }

  predicate Lettered(c: Octet) {
    c == '\n' || c == '\t' || c == '\r' || c == '"' || c == '\\'
  }

  function Letter(c: Octet): Octet
    requires Lettered(c)
  {
    if c == '\n' then 'n' else if c == '\t' then 't' else if c == '\r' then 'r' else c
  }

  function Digit(n: nat): Octet
    requires n < 10
  {
    ('0' as int + n) as char
  }

  /** Three octal digits. */
  function Octal(c: Octet): (r: seq<Octet>)
    ensures |r| == 3
  {
    [Digit(c as int / 64), Digit(c as int / 8 % 8), Digit(c as int % 8)]
  }

  function Written(c: Octet): seq<Octet> {
    if Plain(c) then [c] else if Lettered(c) then ['\\', Letter(c)] else ['\\'] + Octal(c)
  }

  function Body(s: seq<Octet>): seq<Octet> {
    if s == [] then [] else Written(s[0]) + Body(s[1..])
  }

  function Repr(s: seq<Octet>): seq<Octet> {
    ['"'] + Body(s) + ['"']
  }

  // ----- writing

  method BodySize(s: seq<Octet>) returns (nl: nat)
    ensures nl == |Body(s)|
  {
    hide Body;
    nl := 0;
    var x := 0;
    assert s[0..] == s;
    while x < |s|
      invariant 0 <= x <= |s|
      invariant nl + |Body(s[x..])| == |Body(s)|
    {
      BodyTail(s, x);
      if IsPrint(s[x]) && s[x] != '"' && s[x] != '\\' {
        nl := nl + 1;
      } else if s[x] == '\n' || s[x] == '\t' || s[x] == '\r' || s[x] == '"' || s[x] == '\\' {
        nl := nl + 2;
      } else {
        nl := nl + 4;
      }
      x := x + 1;
    }
    BodyNil(s[x..]);
  }

  lemma BodyNil(s: seq<Octet>)
    requires |s| == 0
    ensures Body(s) == []
  {
  }

  lemma BodyTail(s: seq<Octet>, x: nat)
    requires x < |s|
    ensures Body(s[x..]) == Written(s[x]) + Body(s[x + 1..])
  {
    assert s[x..][1..] == s[x + 1..];
  }

  /** The second pass fills exactly what the first one counted. A null text reads NULL. */
  method ReprAlloc(text: Option<seq<Octet>>) returns (rs: array<Octet>)
    ensures fresh(rs) && rs.Length > 0 && rs[rs.Length - 1] == '\0'
    ensures rs[..rs.Length - 1] == (if text.None? then "NULL" else Repr(text.value))
  {
    if text.None? {
      rs := new Octet[5] ['N', 'U', 'L', 'L', '\0'];
      assert rs[..4] == "NULL";
      return;
    }
    rs := ReprFill(text.value);
  }

  method ReprFill(s: seq<Octet>) returns (rs: array<Octet>)
    ensures fresh(rs) && rs.Length == |Repr(s)| + 1 && rs[rs.Length - 1] == '\0'
    ensures rs[..rs.Length - 1] == Repr(s)
  {
    hide Body, Letter, Octal, Written, Partly;
    var nl := BodySize(s);
    rs := new Octet[nl + 3];
    var i, x := 1, 0;
    rs[0] := '"';
    Opened(rs[..1], s);
    while x < |s|
      invariant 0 <= x <= |s| && 1 <= i <= nl + 1
      invariant Partly(rs[..i], s, x)
    {
      ghost var before := rs[..i];
      Fits(before, s, x);
      var width := Put(rs, i, s[x]);
      Onward(before, rs[..i + width], s, x);
      i := i + width;
      x := x + 1;
    }
    Closed(rs[..i], s);
    rs[i] := '"';
    i := i + 1;
    rs[i] := '\0';
    assert rs[..i] == rs[..i - 1] + ['"'];
  }

  /** What is written and what is still to come make up the opened text. */
  ghost predicate Partly(done: seq<Octet>, s: seq<Octet>, x: nat) {
    x <= |s| && done + Body(s[x..]) == ['"'] + Body(s)
  }

  lemma Opened(done: seq<Octet>, s: seq<Octet>)
    requires done == ['"']
    ensures Partly(done, s, 0)
  {
    assert s[0..] == s;
  }

  lemma Fits(done: seq<Octet>, s: seq<Octet>, x: nat)
    requires Partly(done, s, x) && x < |s|
    ensures |done| + |Written(s[x])| <= |Body(s)| + 1
  {
    BodyTail(s, x);
    assert |done + Body(s[x..])| == |Body(s)| + 1;
  }

  lemma Onward(before: seq<Octet>, done: seq<Octet>, s: seq<Octet>, x: nat)
    requires Partly(before, s, x) && x < |s| && done == before + Written(s[x])
    ensures Partly(done, s, x + 1)
  {
    hide Body, Written;
    BodyTail(s, x);
    assert before + (Written(s[x]) + Body(s[x + 1..])) == done + Body(s[x + 1..]);
  }

  lemma Closed(done: seq<Octet>, s: seq<Octet>)
    requires Partly(done, s, |s|)
    ensures done == ['"'] + Body(s) && |done| == |Body(s)| + 1
  {
    assert s[|s|..] == [];
    assert done + [] == done;
  }

  /** One character written. */
  method Put(rs: array<Octet>, i: nat, c: Octet) returns (width: nat)
    requires i + |Written(c)| < rs.Length
    modifies rs
    ensures width == |Written(c)| && rs[..i + width] == old(rs[..i]) + Written(c)
  {
    hide Octal;
    if IsPrint(c) && c != '"' && c != '\\' {
      rs[i] := c;
      width := 1;
      Laid(old(rs[..]), rs[..], i, [c]);
    } else if Lettered(c) {
      PutLetter(rs, i, c);
      width := 2;
    } else {
      PutOctal(rs, i, c);
      width := 4;
    }
  }

  method PutLetter(rs: array<Octet>, i: nat, c: Octet)
    requires i + 2 < rs.Length && Lettered(c)
    modifies rs
    ensures rs[..i + 2] == old(rs[..i]) + ['\\', Letter(c)]
  {
    rs[i] := '\\';
    if c == '\n' {
      rs[i + 1] := 'n';
    } else if c == '\t' {
      rs[i + 1] := 't';
    } else if c == '\r' {
      rs[i + 1] := 'r';
    } else if c == '"' {
      rs[i + 1] := '"';
    } else {
      rs[i + 1] := '\\';
    }
    Laid(old(rs[..]), rs[..], i, ['\\', Letter(c)]);
  }

  /** The octal digits bring a terminator, which is overwritten later. */
  method PutOctal(rs: array<Octet>, i: nat, c: Octet)
    requires i + 4 < rs.Length
    modifies rs
    ensures rs[..i + 4] == old(rs[..i]) + (['\\'] + Octal(c))
  {
    rs[i] := '\\';
    rs[i + 1] := Digit(c as int / 64);
    rs[i + 2] := Digit(c as int / 8 % 8);
    rs[i + 3] := Digit(c as int % 8);
    rs[i + 4] := '\0';
    Laid(old(rs[..]), rs[..], i, ['\\'] + Octal(c));
  }

  lemma Laid(was: seq<Octet>, now: seq<Octet>, i: nat, w: seq<Octet>)
    requires |was| == |now| && i + |w| <= |now|
    requires forall k :: 0 <= k < i ==> now[k] == was[k]
    requires forall k :: 0 <= k < |w| ==> now[i + k] == w[k]
    ensures now[..i + |w|] == was[..i] + w
  {
    var left := now[..i + |w|];
    forall k | 0 <= k < |left|
      ensures left[k] == (was[..i] + w)[k]
    {
      if k >= i {
        assert now[i + (k - i)] == w[k - i];
      }
    }
  }

  // ----- reading

  datatype Quoted = Value(value: seq<Octet>, rest: seq<Octet>) | Unclosed | PastEnd

  function More(c: Octet, q: Quoted): Quoted {
    if q.Value? then Value([c] + q.value, q.rest) else q
  }

  function DigitValue(c: Octet): nat
    requires IsDigit(c)
  {
    c as int - '0' as int
  }

  /** How many of the first three characters are digits, the first one being so. */
  function Digits(s: seq<Octet>): (n: nat)
    requires s != [] && IsDigit(s[0])
    ensures 1 <= n <= 3 && n <= |s|
  {
    if |s| == 1 || !IsDigit(s[1]) then 1 else if |s| == 2 || !IsDigit(s[2]) then 2 else 3
  }

  /** The digits in base eight, as far as an octet holds them. */
  function Number(s: seq<Octet>): (c: Octet)
    requires s != [] && IsDigit(s[0])
  {
    var one := DigitValue(s[0]);
    var two := if Digits(s) >= 2 then (one * 8 + DigitValue(s[1])) % 256 else one;
    var three := if Digits(s) == 3 then (two * 8 + DigitValue(s[2])) % 256 else two;
    three as char
  }

  function Meant(c: Octet): Octet {
    if c == 'n' then '\n' else if c == 't' then '\t' else if c == 'r' then '\r' else c
  }

  /** From behind the opening quote to the closing one. */
  function ReadQuoted(s: seq<Octet>): (q: Quoted)
    ensures q.Value? ==> |q.rest| < |s|
    decreases |s|
  {
    if s == [] then Unclosed
    else if s[0] == '"' then Value([], s[1..])
    else if s[0] != '\\' then More(s[0], ReadQuoted(s[1..]))
    else if |s| == 1 then PastEnd
    else if IsDigit(s[1]) then More(Number(s[1..]), ReadQuoted(s[1 + Digits(s[1..])..]))
    else More(Meant(s[1]), ReadQuoted(s[2..]))
  }

  function Prefixed(a: seq<Octet>, q: Quoted): Quoted {
    if q.Value? then Value(a + q.value, q.rest) else q
  }

  lemma PrefixedMore(a: seq<Octet>, c: Octet, q: Quoted)
    ensures Prefixed(a + [c], q) == Prefixed(a, More(c, q))
  {
    if q.Value? {
      assert a + [c] + q.value == a + ([c] + q.value);
    }
  }

  lemma PrefixedNil(q: Quoted)
    ensures Prefixed([], q) == q
  {
    if q.Value? {
      assert [] + q.value == q.value;
    }
  }

  /** The cursor form of the same: digits are taken one at a time. */
  method ScanQuoted(s: seq<Octet>, from: nat) returns (q: Quoted, end: nat)
    requires from <= |s|
    ensures q == ReadQuoted(s[from..])
    ensures q.Value? ==> end <= |s| && q.rest == s[end..]
  {
    hide ReadQuoted, Number, Digits, Prefixed, More;
    var buf: seq<Octet> := [];
    end := from;
    PrefixedNil(ReadQuoted(s[from..]));
    while end < |s| && s[end] != '"'
      invariant from <= end <= |s|
      invariant Prefixed(buf, ReadQuoted(s[end..])) == ReadQuoted(s[from..])
    {
      ReadStep(s, end);
      if s[end] == '\\' && end + 1 == |s| {
        PrefixedFailed(buf, PastEnd);
        return PastEnd, end;
      }
      var c, next := ScanOne(s, end);
      PrefixedMore(buf, c, ReadQuoted(s[next..]));
      buf := buf + [c];
      end := next;
    }
    ReadEnd(s, end);
    if end == |s| {
      PrefixedFailed(buf, Unclosed);
      return Unclosed, end;
    }
    end := end + 1;
    PrefixedValue(buf, s[end..]);
    q := Value(buf, s[end..]);
  }

  lemma PrefixedFailed(a: seq<Octet>, q: Quoted)
    requires !q.Value?
    ensures Prefixed(a, q) == q
  {
  }

  lemma PrefixedValue(a: seq<Octet>, rest: seq<Octet>)
    ensures Prefixed(a, Value([], rest)) == Value(a, rest)
  {
    assert a + [] == a;
  }

  lemma ReadEnd(s: seq<Octet>, i: nat)
    requires i <= |s| && (i < |s| ==> s[i] == '"')
    ensures ReadQuoted(s[i..]) == if i == |s| then Unclosed else Value([], s[i + 1..])
  {
    if i < |s| {
      assert s[i..][1..] == s[i + 1..];
    }
  }

  /** Where one character of the text ends, and what it stands for. */
  function OneEnd(s: seq<Octet>, i: nat): (j: nat)
    requires i < |s| && (s[i] == '\\' ==> i + 1 < |s|)
    ensures i < j <= |s|
  {
    if s[i] != '\\' then i + 1 else if IsDigit(s[i + 1]) then i + 1 + Digits(s[i + 1..]) else i + 2
  }

  function OneMeant(s: seq<Octet>, i: nat): Octet
    requires i < |s| && (s[i] == '\\' ==> i + 1 < |s|)
  {
    if s[i] != '\\' then s[i] else if IsDigit(s[i + 1]) then Number(s[i + 1..]) else Meant(s[i + 1])
  }

  lemma ReadStep(s: seq<Octet>, i: nat)
    requires i < |s| && s[i] != '"'
    ensures s[i] == '\\' && i + 1 == |s| ==> ReadQuoted(s[i..]) == PastEnd
    ensures !(s[i] == '\\' && i + 1 == |s|) ==>
              ReadQuoted(s[i..]) == More(OneMeant(s, i), ReadQuoted(s[OneEnd(s, i)..]))
  {
    var t := s[i..];
    if s[i] == '\\' && i + 1 < |s| {
      assert t[1..] == s[i + 1..] && t[2..] == s[i + 2..];
      if IsDigit(s[i + 1]) {
        var n := Digits(s[i + 1..]);
        assert t[1 + n..] == s[i + 1 + n..];
      }
    } else if s[i] != '\\' {
      assert t[1..] == s[i + 1..];
    }
  }

  method ScanOne(s: seq<Octet>, i: nat) returns (c: Octet, next: nat)
    requires i < |s| && (s[i] == '\\' ==> i + 1 < |s|)
    ensures c == OneMeant(s, i) && next == OneEnd(s, i)
  {
    if s[i] != '\\' {
      return s[i], i + 1;
    }
    next := i + 1;
    if IsDigit(s[next]) {
      c := DigitValue(s[next]) as char;
      if next + 1 < |s| && IsDigit(s[next + 1]) {
        next := next + 1;
        c := ((c as int * 8 + DigitValue(s[next])) % 256) as char;
        if next + 1 < |s| && IsDigit(s[next + 1]) {
          next := next + 1;
          c := ((c as int * 8 + DigitValue(s[next])) % 256) as char;
        }
      }
    } else {
      c := Meant(s[next]);
    }
    next := next + 1;
  }

  // ----- what is written and read, character by character

  /** Line feed, tab and carriage return become letters, quotes and backslashes get a backslash, other
      printable characters stay, and the rest becomes three octal digits. */
  lemma WrittenTable(c: Octet)
    ensures c == '\n' ==> Written(c) == "\\n"
    ensures c == '\t' ==> Written(c) == "\\t"
    ensures c == '\r' ==> Written(c) == "\\r"
    ensures c == '"' ==> Written(c) == "\\\""
    ensures c == '\\' ==> Written(c) == "\\\\"
    ensures ' ' <= c <= '~' && c != '"' && c != '\\' ==> Written(c) == [c]
    ensures !(' ' <= c <= '~') && c !in "\n\t\r" ==>
      exists i, j, k :: 0 <= i < 8 && 0 <= j < 8 && 0 <= k < 8 && (i * 8 + j) * 8 + k == c as int &&
        Written(c) == ['\\', "01234567"[i], "01234567"[j], "01234567"[k]]
  {
    if !Plain(c) && !Lettered(c) {
      OctalParts(c as int);
      OctalDigit(c as int / 64);
      OctalDigit(c as int / 8 % 8);
      OctalDigit(c as int % 8);
      var i, j, k := c as int / 64, c as int / 8 % 8, c as int % 8;
      assert Written(c) == ['\\', "01234567"[i], "01234567"[j], "01234567"[k]];
    }
  }

  lemma OctalDigit(n: nat)
    requires n < 8
    ensures Digit(n) == "01234567"[n]
  {
  }

  /** A backslash before n, t and r means line feed, tab and carriage return; before any other
      character but a digit it is dropped. */
  lemma ReadEscape(c: Octet, t: seq<Octet>)
    requires !('0' <= c <= '9')
    ensures ReadQuoted(['\\', c] + t) ==
      More(if c == 'n' then '\n' else if c == 't' then '\t' else if c == 'r' then '\r' else c, ReadQuoted(t))
  {
    var s: seq<Octet> := ['\\', c] + t;
    assert s[2..] == t;
  }

  /** What a digit stands for. */
  function Units(c: Octet): int {
    c as int - '0' as int
  }

  /** A backslash before digits takes up to three of them, read in base eight; a number that does not
      fit loses its upper bits. */
  lemma ReadOctal(a: Octet, b: Octet, c: Octet, t: seq<Octet>)
    requires '0' <= a <= '9' && '0' <= b <= '9' && '0' <= c <= '9'
    ensures t == [] || !('0' <= t[0] <= '9') ==>
      && ReadQuoted(['\\', a] + t) == More(Units(a) as char, ReadQuoted(t))
      && ReadQuoted(['\\', a, b] + t) == More((Units(a) * 8 + Units(b)) as char, ReadQuoted(t))
    ensures ReadQuoted(['\\', a, b, c] + t) == More(((Units(a) * 64 + Units(b) * 8 + Units(c)) % 256) as char, ReadQuoted(t))
  {
    hide ReadQuoted, More;
    if t == [] || !('0' <= t[0] <= '9') {
      ReadDigits([a], t);
      ReadDigits([a, b], t);
      assert ['\\'] + [a] == ['\\', a] && ['\\'] + [a, b] == ['\\', a, b];
    }
    ReadDigits([a, b, c], t);
    assert ['\\'] + [a, b, c] == ['\\', a, b, c];
  }

  lemma ReadDigits(s: seq<Octet>, t: seq<Octet>)
    requires 1 <= |s| <= 3 && (forall x :: 0 <= x < |s| ==> IsDigit(s[x])) && (|s| < 3 ==> t == [] || !IsDigit(t[0]))
    ensures ReadQuoted(['\\'] + s + t) == More(Number(s + t), ReadQuoted(t))
    ensures |s| == 1 ==> Number(s + t) as int == Units(s[0])
    ensures |s| == 2 ==> Number(s + t) as int == Units(s[0]) * 8 + Units(s[1])
    ensures |s| == 3 ==> Number(s + t) as int == (Units(s[0]) * 64 + Units(s[1]) * 8 + Units(s[2])) % 256
  {
    var u := s + t;
    assert (['\\'] + s + t)[1..] == u && u[|s|..] == t;
    assert (['\\'] + s + t)[1 + |s|..] == t;
    DigitsOf(s, t);
    hide Number, Digits;
  }

  lemma DigitsOf(s: seq<Octet>, t: seq<Octet>)
    requires 1 <= |s| <= 3 && (forall x :: 0 <= x < |s| ==> IsDigit(s[x])) && (|s| < 3 ==> t == [] || !IsDigit(t[0]))
    ensures Digits(s + t) == |s|
    ensures |s| == 1 ==> Number(s + t) as int == Units(s[0])
    ensures |s| == 2 ==> Number(s + t) as int == Units(s[0]) * 8 + Units(s[1])
    ensures |s| == 3 ==> Number(s + t) as int == (Units(s[0]) * 64 + Units(s[1]) * 8 + Units(s[2])) % 256
  {
    var u := s + t;
    assert forall x :: 0 <= x < |s| ==> u[x] == s[x];
    assert |u| > |s| ==> u[|s|] == t[0];
    Wrapped(Units(s[0]), if |s| > 1 then Units(s[1]) else 0, if |s| > 2 then Units(s[2]) else 0);
  }

  lemma Wrapped(a: int, b: int, c: int)
    requires 0 <= a < 10 && 0 <= b < 10 && 0 <= c < 10
    ensures (a * 8 + b) % 256 == a * 8 + b && ((a * 8 + b) % 256 * 8 + c) % 256 == (a * 64 + b * 8 + c) % 256
  {
  }

  // ----- the round trip

  lemma DigitBack(n: nat)
    requires n < 10
    ensures IsDigit(Digit(n)) && DigitValue(Digit(n)) == n
  {
  }

  lemma OctalParts(n: nat)
    requires n < 256
    ensures n / 64 < 10 && n / 8 % 8 < 10
    ensures n / 64 * 8 + n / 8 % 8 == n / 8 && (n / 64 * 8 + n / 8 % 8) * 8 + n % 8 == n
  {
  }

  lemma ThreeDigits(a: Octet, b: Octet, c: Octet, rest: seq<Octet>)
    requires IsDigit(a) && IsDigit(b) && IsDigit(c)
    requires DigitValue(a) * 8 + DigitValue(b) < 256
    requires (DigitValue(a) * 8 + DigitValue(b)) * 8 + DigitValue(c) < 256
    ensures Digits([a, b, c] + rest) == 3
    ensures Number([a, b, c] + rest) as int == (DigitValue(a) * 8 + DigitValue(b)) * 8 + DigitValue(c)
  {
    hide DigitValue;
    var t := [a, b, c] + rest;
    assert t[0] == a && t[1] == b && t[2] == c && |t| >= 3;
  }

  lemma OctalNumber(c: Octet, rest: seq<Octet>)
    ensures IsDigit(Octal(c)[0])
    ensures Digits(Octal(c) + rest) == 3 && Number(Octal(c) + rest) == c
  {
    hide Digit, DigitValue, Number, Digits;
    var n := c as int;
    OctalParts(n);
    DigitBack(n / 64);
    DigitBack(n / 8 % 8);
    DigitBack(n % 8);
    ThreeDigits(Digit(n / 64), Digit(n / 8 % 8), Digit(n % 8), rest);
  }

  /** What is written for one character is read as that character, whatever follows. */
  lemma WrittenRead(c: Octet, rest: seq<Octet>)
    ensures ReadQuoted(Written(c) + rest) == More(c, ReadQuoted(rest))
  {
    var t := Written(c) + rest;
    if Plain(c) {
      assert t[1..] == rest;
    } else if Lettered(c) {
      assert t[2..] == rest;
      assert Meant(Letter(c)) == c && !IsDigit(Letter(c));
    } else {
      assert t[1..] == Octal(c) + rest;
      OctalNumber(c, rest);
      assert t[4..] == rest;
    }
  }

  /** Every text is read back from its quoted form, and reading stops behind the quote. */
  lemma {:induction false} ReprReadBack(s: seq<Octet>, rest: seq<Octet>)
    ensures ReadQuoted(Body(s) + (['"'] + rest)) == Value(s, rest)
  {
    hide ReadQuoted, Written;
    var tail: seq<Octet> := ['"'] + rest;
    if s == [] {
      AtQuote(rest);
    } else {
      ReprReadBack(s[1..], rest);
      WrittenRead(s[0], Body(s[1..]) + tail);
      Regrouped(Written(s[0]), Body(s[1..]), tail);
      assert [s[0]] + s[1..] == s;
    }
  }

  lemma AtQuote(rest: seq<Octet>)
    ensures ReadQuoted([] + (['"'] + rest)) == Value([], rest)
  {
    var tail: seq<Octet> := ['"'] + rest;
    assert [] + tail == tail && tail[1..] == rest;
  }

  lemma Regrouped(a: seq<Octet>, b: seq<Octet>, c: seq<Octet>)
    ensures a + b + c == a + (b + c)
  {
  }

  /** The quoted form is printable ASCII throughout. */
  lemma {:induction false} BodyPrintable(s: seq<Octet>)
    ensures forall k :: 0 <= k < |Body(s)| ==> IsPrint(Body(s)[k])
  {
    if s != [] {
      BodyPrintable(s[1..]);
      assert forall k :: 0 <= k < |Written(s[0])| ==> IsPrint(Written(s[0])[k]);
    }
  }
}

/** Escaping octets as an escape character and two hexadecimal digits, and its inverse. */
module StrEscape {
  import opened Octets

  const HEX: seq<Octet> := "0123456789ABCDEF"

  /** An unsigned octet against a signed character: only ASCII characters can match. */
  predicate Same(b: Octet, c: Octet) {
    b as int == Signed(c)
  }

  predicate Special(b: Octet, esc: Octet, others: seq<Octet>) {
    Same(b, esc) || exists k :: 0 <= k < |others| && Same(b, others[k])
  }

  function Coded(b: Octet, esc: Octet): seq<Octet> {
    [esc, HEX[b as int / 16], HEX[b as int % 16]]
  }

  function Escaped(s: seq<Octet>, esc: Octet, others: seq<Octet>): (r: seq<Octet>) {
    if s == [] then []
    else (if Special(s[0], esc, others) then Coded(s[0], esc) else [s[0]]) + Escaped(s[1..], esc, others)
  }

  predicate IsHex(c: Octet) {
    IsDigit(c) || 'A' <= c <= 'F' || 'a' <= c <= 'f'
  }

  /** Clears the bit that tells small letters from capitals. */
  function Capital(c: Octet): int {
    if c as int / 32 % 2 == 1 then c as int - 32 else c as int
  }

  function HexValue(c: Octet): (r: nat)
    requires IsHex(c)
    ensures r < 16
  {
    if c >= 'A' then Capital(c) - 'A' as int + 10 else c as int - '0' as int
  }

  predicate CodeAt(s: seq<Octet>, i: nat, esc: Octet) {
    i + 2 < |s| && Same(s[i], esc) && IsHex(s[i + 1]) && IsHex(s[i + 2])
  }

  function Decoded(a: Octet, b: Octet): Octet
    requires IsHex(a) && IsHex(b)
  {
    (HexValue(a) * 16 + HexValue(b)) as char
  }

  function Unescaped(s: seq<Octet>, esc: Octet): (r: seq<Octet>)
    ensures |r| <= |s|
  {
    if s == [] then []
    else if CodeAt(s, 0, esc) then [Decoded(s[1], s[2])] + Unescaped(s[3..], esc)
    else [s[0]] + Unescaped(s[1..], esc)
  }

  // ----- the loops

  method IsSpecial(b: Octet, esc: Octet, others: seq<Octet>) returns (found: bool)
    ensures found <==> Special(b, esc, others)
  {
    if Same(b, esc) {
      return true;
    }
    var x := 0;
    while x < |others|
      invariant 0 <= x <= |others|
      invariant forall k :: 0 <= k < x ==> !Same(b, others[k])
    {
      if Same(b, others[x]) {
        return true;
      }
      x := x + 1;
    }
    return false;
  }

  /** The first pass: how long the escaped text will be. */
  method EscapedSize(buf: seq<Octet>, esc: Octet, others: seq<Octet>) returns (nl: nat)
    ensures nl == |Escaped(buf, esc, others)|
  {
    nl := 0;
    var l := 0;
    while l < |buf|
      invariant 0 <= l <= |buf|
      invariant nl + |Escaped(buf[l..], esc, others)| == |Escaped(buf, esc, others)|
    {
      EscapedTail(buf, l, esc, others);
      var match_ := IsSpecial(buf[l], esc, others);
      if match_ {
        nl := nl + 2;
      }
      nl := nl + 1;
      l := l + 1;
    }
  }

  lemma EscapedTail(s: seq<Octet>, l: nat, esc: Octet, others: seq<Octet>)
    requires l < |s|
    ensures Escaped(s[l..], esc, others)
         == (if Special(s[l], esc, others) then Coded(s[l], esc) else [s[l]]) + Escaped(s[l + 1..], esc, others)
  {
    assert s[l..][1..] == s[l + 1..];
  }

  /** The second pass fills exactly what the first one counted. */
  method Escape(buf: seq<Octet>, esc: Octet, others: seq<Octet>) returns (s: array<Octet>)
    ensures fresh(s) && s.Length == |Escaped(buf, esc, others)| + 1
    ensures s[..s.Length - 1] == Escaped(buf, esc, others) && s[s.Length - 1] == '\0'
  {
    hide Escaped, Special;
    var size := EscapedSize(buf, esc, others);
    s := new Octet[size + 1];
    var nl, l := 0, 0;
    while l < |buf|
      invariant 0 <= l <= |buf| && 0 <= nl <= size
      invariant s[..nl] + Escaped(buf[l..], esc, others) == Escaped(buf, esc, others)
    {
      EscapedTail(buf, l, esc, others);
      ghost var before, rest := s[..nl], Escaped(buf[l + 1..], esc, others);
      var match_ := IsSpecial(buf[l], esc, others);
      if match_ {
        s[nl] := esc;
        s[nl + 1] := HEX[buf[l] as int / 16];
        s[nl + 2] := HEX[buf[l] as int % 16];
        nl := nl + 3;
        assert s[..nl] == before + Coded(buf[l], esc);
      } else {
        s[nl] := buf[l];
        nl := nl + 1;
        assert s[..nl] == before + [buf[l]];
      }
      l := l + 1;
    }
    EscapedNil(buf[l..], esc, others);
    s[nl] := '\0';
  }

  lemma EscapedNil(s: seq<Octet>, esc: Octet, others: seq<Octet>)
    requires |s| == 0
    ensures Escaped(s, esc, others) == []
  {
  }

  /** Decoding in place: the octet written is never beyond the next one read. */
  method Unescape(s: array<Octet>, buflen: nat, esc: Octet) returns (o: nat)
    requires buflen < s.Length
    modifies s
    ensures o == |Unescaped(old(s[..buflen]), esc)| <= buflen
    ensures s[..o] == Unescaped(old(s[..buflen]), esc)
    ensures buflen > 0 ==> s[o] == '\0'
    ensures forall k :: o < k < s.Length || buflen == 0 <= k < s.Length ==> s[k] == old(s[k])
  {
    hide Unescaped, Decoded, Same, IsHex;
    ghost var was := s[..buflen];
    var i := 0;
    o := 0;
    while i < buflen
      invariant 0 <= o <= i <= buflen && (o == 0 ==> i == 0)
      invariant s[..o] + Unescaped(was[i..], esc) == Unescaped(was, esc)
      invariant forall k :: o <= k < s.Length ==> s[k] == old(s[k])
    {
      UnescapedTail(was, i, esc);
      ghost var before := s[..o];
      ghost var rest := Unescaped(was[if CodeAt(was, i, esc) then i + 3 else i + 1..], esc);
      if i + 2 < buflen && Same(s[i], esc) && IsHex(s[i + 1]) && IsHex(s[i + 2]) {
        s[o] := Decoded(s[i + 1], s[i + 2]);
        i := i + 3;
      } else {
        s[o] := s[i];
        i := i + 1;
      }
      assert s[..o + 1] == before + [s[o]];
      Joined(before, s[o], rest);
      o := o + 1;
    }
    UnescapedNil(was[i..], esc);
    if i != 0 && o != 0 {
      s[o] := '\0';
    }
  }

  lemma UnescapedNil(s: seq<Octet>, esc: Octet)
    requires |s| == 0
    ensures Unescaped(s, esc) == []
  {
  }

  lemma Joined(a: seq<Octet>, x: Octet, b: seq<Octet>)
    ensures a + ([x] + b) == a + [x] + b
  {
  }

  lemma UnescapedTail(s: seq<Octet>, i: nat, esc: Octet)
    requires i < |s|
    ensures CodeAt(s, i, esc) ==>
              Unescaped(s[i..], esc) == [Decoded(s[i + 1], s[i + 2])] + Unescaped(s[i + 3..], esc)
    ensures !CodeAt(s, i, esc) ==> Unescaped(s[i..], esc) == [s[i]] + Unescaped(s[i + 1..], esc)
  {
    var t := s[i..];
    assert CodeAt(t, 0, esc) <==> CodeAt(s, i, esc);
    if CodeAt(s, i, esc) {
      assert t[3..] == s[i + 3..];
    } else {
      assert t[1..] == s[i + 1..];
    }
  }

  // ----- what they promise

  lemma HexDigits(b: Octet)
    ensures IsHex(HEX[b as int / 16]) && IsHex(HEX[b as int % 16])
    ensures Decoded(HEX[b as int / 16], HEX[b as int % 16]) == b
  {
    HexDigit(b as int / 16);
    HexDigit(b as int % 16);
  }

  lemma HexDigit(n: nat)
    requires n < 16
    ensures IsHex(HEX[n]) && HexValue(HEX[n]) == n
  {
  }

  lemma {:induction false} Restored(s: seq<Octet>, esc: Octet, others: seq<Octet>)
    requires esc as int < 128
    ensures Unescaped(Escaped(s, esc, others), esc) == s
  {
    if s != [] {
      Restored(s[1..], esc, others);
      var r, e := Escaped(s[1..], esc, others), Escaped(s, esc, others);
      if Special(s[0], esc, others) {
        HexDigits(s[0]);
        assert e[3..] == r;
      } else {
        assert e[1..] == r;
      }
    }
  }

  /** Beyond ASCII an escape character is never recognised. */
  lemma {:induction false} NeverDecoded(s: seq<Octet>, esc: Octet)
    requires esc as int >= 128
    ensures Unescaped(s, esc) == s
  {
    if s != [] {
      NeverDecoded(s[1..], esc);
    }
  }

  lemma {:induction false} EscapedLonger(s: seq<Octet>, esc: Octet, others: seq<Octet>)
    ensures |Escaped(s, esc, others)| >= |s|
    ensures |Escaped(s, esc, others)| == |s| ==> Escaped(s, esc, others) == s
    ensures |Escaped(s, esc, others)| == |s| <==> forall k :: 0 <= k < |s| ==> !Special(s[k], esc, others)
  {
    if s != [] {
      EscapedLonger(s[1..], esc, others);
      assert forall k :: 1 <= k < |s| ==> s[k] == s[1..][k - 1];
      if Special(s[0], esc, others) {
        assert !(forall k :: 0 <= k < |s| ==> !Special(s[k], esc, others));
      } else if |Escaped(s, esc, others)| == |s| {
        assert forall k :: 0 <= k < |s[1..]| ==> !Special(s[1..][k], esc, others);
      } else {
        var k :| 0 <= k < |s[1..]| && Special(s[1..][k], esc, others);
        assert Special(s[k + 1], esc, others);
      }
    }
  }

  /** Escaped are the ASCII characters among the escape character and the listed ones. */
  lemma SpecialMeans(b: Octet, esc: Octet, others: seq<Octet>)
    ensures Special(b, esc, others) <==> b as int < 128 && (b == esc || b in others)
  {
    if b as int < 128 && b in others {
      var k :| 0 <= k < |others| && others[k] == b;
      assert Same(b, others[k]);
    }
  }

  lemma {:induction false} EscapedParts(s: seq<Octet>, t: seq<Octet>, esc: Octet, others: seq<Octet>)
    ensures Escaped(s + t, esc, others) == Escaped(s, esc, others) + Escaped(t, esc, others)
  {
    if s == [] {
      assert s + t == t;
    } else {
      assert (s + t)[1..] == s[1..] + t;
      EscapedParts(s[1..], t, esc, others);
    }
  }

  /** Each such character becomes the escape character and two capital hexadecimal digits where it
      stands; every other character stays. */
  lemma EscapedAt(s: seq<Octet>, b: Octet, t: seq<Octet>, esc: Octet, others: seq<Octet>)
    ensures var digits := "0123456789ABCDEF";
            var code: seq<Octet> := if b as int < 128 && (b == esc || b in others) then [esc, digits[b as int / 16], digits[b as int % 16]] else [b];
            Escaped(s + [b] + t, esc, others) == Escaped(s, esc, others) + code + Escaped(t, esc, others)
  {
    EscapedParts(s + [b], t, esc, others);
    EscapedParts(s, [b], esc, others);
    SpecialMeans(b, esc, others);
    assert [b][1..] == [];
  }

  /** Digits may be capital or small; the code for n in base sixteen is read as n. */
  lemma UnescapedAt(m: nat, n: nat, small: bool, t: seq<Octet>, esc: Octet)
    requires m < 16 && n < 16 && esc as int < 128
    ensures var digits := if small then "0123456789abcdef" else "0123456789ABCDEF";
            Unescaped([esc, digits[m], digits[n]] + t, esc) == [(m * 16 + n) as char] + Unescaped(t, esc)
  {
    var digits := if small then "0123456789abcdef" else "0123456789ABCDEF";
    HexDigit(m);
    HexDigit(n);
    HexSmall(m);
    HexSmall(n);
    var a: Octet, b: Octet := digits[m], digits[n];
    assert IsHex(a) && HexValue(a) == m && IsHex(b) && HexValue(b) == n;
    OneCode(a, b, t, esc);
  }

  lemma OneCode(a: Octet, b: Octet, t: seq<Octet>, esc: Octet)
    requires IsHex(a) && IsHex(b) && esc as int < 128
    ensures Unescaped([esc, a, b] + t, esc) == [(HexValue(a) * 16 + HexValue(b)) as char] + Unescaped(t, esc)
  {
    hide HexValue, IsHex;
    var s: seq<Octet> := [esc, a, b] + t;
    assert s[3..] == t;
  }

  /** What starts no code stays as it is. */
  lemma UnescapedOther(b: Octet, t: seq<Octet>, esc: Octet)
    requires b != esc || esc as int >= 128 || |t| < 2 || t[0] !in "0123456789ABCDEFabcdef" || t[1] !in "0123456789ABCDEFabcdef"
    ensures Unescaped([b] + t, esc) == [b] + Unescaped(t, esc)
  {
    assert ([b] + t)[1..] == t;
    if |t| >= 2 {
      HexSet(t[0]);
      HexSet(t[1]);
    }
  }

  lemma HexSet(c: Octet)
    ensures IsHex(c) ==> c in "0123456789ABCDEFabcdef"
  {
    if IsHex(c) {
      var i := c as int - (if c <= '9' then '0' as int else if c <= 'F' then 'A' as int - 10 else 'a' as int - 16);
      assert c == "0123456789ABCDEFabcdef"[i];
    }
  }

  lemma HexSmall(n: nat)
    requires n < 16
    ensures var c := "0123456789abcdef"[n]; c as int < 256 && IsHex(c) && HexValue(c) == n
  {
  }

  /** The original comes back exactly when the escape character is ASCII or nothing was escaped. */
  lemma RoundTrip(s: seq<Octet>, esc: Octet, others: seq<Octet>)
    ensures Unescaped(Escaped(s, esc, others), esc) == s
       <==> esc as int < 128 || forall k :: 0 <= k < |s| ==> s[k] as int >= 128 || (s[k] != esc && s[k] !in others)
  {
    forall k | 0 <= k < |s|
      ensures Special(s[k], esc, others) <==> s[k] as int < 128 && (s[k] == esc || s[k] in others)
    {
      SpecialMeans(s[k], esc, others);
    }
    hide Special;
    if esc as int < 128 {
      Restored(s, esc, others);
    } else {
      NeverDecoded(Escaped(s, esc, others), esc);
      EscapedLonger(s, esc, others);
    }
  }

  /** Position k of the escaped text falls inside the three octets coded for an escaped octet. */
  predicate Covered(s: seq<Octet>, esc: Octet, others: seq<Octet>, k: nat) {
    s != [] &&
    var n := if Special(s[0], esc, others) then 3 else 1;
    if k < n then Special(s[0], esc, others) else Covered(s[1..], esc, others, k - n)
  }

  /** Nothing of the set is left bare: where one of its ASCII characters stands, it is part of an
      escape. */
  lemma NothingBare(s: seq<Octet>, esc: Octet, others: seq<Octet>, k: nat)
    requires k < |Escaped(s, esc, others)|
    requires var c := Escaped(s, esc, others)[k]; c as int < 128 && (c == esc || c in others)
    ensures Covered(s, esc, others, k)
  {
    SpecialMeans(Escaped(s, esc, others)[k], esc, others);
    SpecialCovered(s, esc, others, k);
  }

  lemma {:induction false} SpecialCovered(s: seq<Octet>, esc: Octet, others: seq<Octet>, k: nat)
    requires k < |Escaped(s, esc, others)| && Special(Escaped(s, esc, others)[k], esc, others)
    ensures Covered(s, esc, others, k)
  {
    var n := if Special(s[0], esc, others) then 3 else 1;
    if k >= n {
      assert Escaped(s, esc, others)[k] == Escaped(s[1..], esc, others)[k - n];
      SpecialCovered(s[1..], esc, others, k - n);
    }
  }
}

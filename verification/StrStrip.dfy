/** Stripping white space from both ends of a C string in its own buffer. */
module StrStrip {
  import opened HdfLines

  /** The trailing white space is overwritten with terminators; the text then starts at `start`. */
  method StripInPlace(s: array<char>, len: nat) returns (start: nat, end: nat)
    requires len < s.Length && s[len] == '\0' && forall k :: 0 <= k < len ==> s[k] != '\0'
    modifies s
    ensures start <= end <= len && s[start..end] == Strip(old(s[..len]))
    ensures forall k :: end <= k <= len ==> s[k] == '\0'
    ensures forall k :: 0 <= k < end || len < k < s.Length ==> s[k] == old(s[k])
  {
    hide RStrip, SkipSpace;
    ghost var was := s[..len];
    end := len;
    assert was[..len] == was;
    while end > 0 && IsSpace(s[end - 1])
      invariant 0 <= end <= len && RStrip(was[..end]) == RStrip(was)
      invariant forall k :: end <= k <= len ==> s[k] == '\0'
      invariant forall k :: 0 <= k < end || len < k < s.Length ==> s[k] == old(s[k])
    {
      RStripLast(was, end);
      s[end - 1] := '\0';
      end := end - 1;
    }
    RStripLast(was, end);
    ghost var t := was[..end];
    start := 0;
    while s[start] != '\0' && IsSpace(s[start])
      invariant 0 <= start <= end && SkipSpace(t, start) == SkipSpace(t, 0)
      invariant forall k :: end <= k <= len ==> s[k] == '\0'
      invariant forall k :: 0 <= k < end || len < k < s.Length ==> s[k] == old(s[k])
      decreases end - start
    {
      SkipOne(t, start);
      start := start + 1;
    }
    SkipOne(t, start);
    SamePart(s[..], t, start, end);
  }

  lemma SamePart(s: string, t: string, start: nat, end: nat)
    requires start <= end == |t| <= |s| && forall k :: 0 <= k < end ==> s[k] == t[k]
    ensures s[start..end] == t[start..]
  {
  }

  lemma RStripLast(s: string, n: nat)
    requires n <= |s|
    ensures n > 0 && IsSpace(s[n - 1]) ==> RStrip(s[..n]) == RStrip(s[..n - 1])
    ensures n == 0 || !IsSpace(s[n - 1]) ==> RStrip(s[..n]) == s[..n]
  {
    if n > 0 {
      assert s[..n][..n - 1] == s[..n - 1];
    }
  }

  lemma SkipOne(s: string, i: nat)
    requires i <= |s|
    ensures SkipSpace(s, i) == if i < |s| && IsSpace(s[i]) then SkipSpace(s, i + 1) else i
  {
  }
}

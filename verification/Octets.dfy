/** The characters of C strings and buffers. */
module Octets {
  type Octet = c: char | c as int < 256

  /** An octet read as a signed `char`. */
  function Signed(c: Octet): int {
    if c as int < 128 then c as int else c as int - 256
  }

  predicate IsDigit(c: Octet) {
    '0' <= c <= '9'
  }

  predicate IsPrint(c: Octet) {
    ' ' <= c <= '~'
  }

  predicate NulFree(s: seq<Octet>) {
    forall k :: 0 <= k < |s| ==> s[k] != '\0'
  }
}

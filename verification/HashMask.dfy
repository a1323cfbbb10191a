/** Masking a hash value with a table size: `hashv & (size - 1)`. */
module HashMask {
  import opened Bits

  /** Bitwise and of two unsigned numbers. */
  function And(a: nat, b: nat): (r: nat)
  {
    if a == 0 || b == 0 then 0
    else 2 * And(a / 2, b / 2) + (if a % 2 == 1 && b % 2 == 1 then 1 else 0)
  }

  /** The number formed by the k low binary digits of h. */
  function LowDigits(h: nat, k: nat): (r: nat)
    ensures r < Pow2(k)
  {
    if k == 0 then 0 else 2 * LowDigits(h / 2, k - 1) + h % 2
  }

  /** For a power of two the mask keeps the low digits. */
  lemma {:induction false} MaskKeepsLowDigits(h: nat, k: nat)
    ensures And(h, Pow2(k) - 1) == LowDigits(h, k)
    decreases k
  {
    if k > 0 {
      MaskKeepsLowDigits(h / 2, k - 1);
      assert (Pow2(k) - 1) / 2 == Pow2(k - 1) - 1;
      if h == 0 {
        assert And(0, Pow2(k - 1) - 1) == 0;
      }
    }
  }

  lemma {:induction false} OneMoreDigit(h: nat, k: nat)
    ensures LowDigits(h, k + 1) == LowDigits(h, k) || LowDigits(h, k + 1) == LowDigits(h, k) + Pow2(k)
    decreases k
  {
    if k > 0 {
      OneMoreDigit(h / 2, k - 1);
    }
  }

  /** Doubling the table either keeps a node's bucket or moves it up by the old size. */
  lemma DoubledMask(h: nat, k: nat)
    ensures var low, high := And(h, Pow2(k) - 1), And(h, Pow2(k + 1) - 1);
            low < Pow2(k) && (high == low || high == low + Pow2(k))
  {
    MaskKeepsLowDigits(h, k);
    MaskKeepsLowDigits(h, k + 1);
    OneMoreDigit(h, k);
  }
}

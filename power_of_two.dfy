/**
 * Capacity rounding: the ring buffer's size is the requested size rounded down to a power of two,
 * computed with Java's `Integer.highestOneBit`.
 */
module PowerOfTwo {

  /** `p` is 2^k for some k >= 0. */
  predicate IsPowerOfTwo(p: int)
    decreases if p > 0 then p else 0
  {
    p == 1 || (p > 1 && p % 2 == 0 && IsPowerOfTwo(p / 2))
  }

  /**
   * `Integer.highestOneBit(n)` for a non-negative `n`: the value with only the highest set bit of `n`,
   * i.e. the largest power of two not above `n`, and 0 for 0.
   */
  function HighestOneBit(n: nat): (r: nat)
    ensures n == 0 ==> r == 0
    ensures n > 0 ==> IsPowerOfTwo(r) && r <= n < 2 * r
  {
    if n < 2 then n else 2 * HighestOneBit(n / 2)
  }

  /** No power of two that fits below `n` is larger than `HighestOneBit(n)`. */
  lemma {:induction false} HighestOneBitIsLargest(n: nat, p: int)
    requires IsPowerOfTwo(p) && p <= n
    ensures p <= HighestOneBit(n)
  {
    if p > 1 {
      HighestOneBitIsLargest(n / 2, p / 2);
    }
  }

  /** Of two distinct powers of two, the larger is at least twice the smaller. */
  lemma {:induction false} PowersOfTwoAreSpread(p: int, q: int)
    requires IsPowerOfTwo(p) && IsPowerOfTwo(q) && p < q
    ensures 2 * p <= q
  {
    if p > 1 {
      PowersOfTwoAreSpread(p / 2, q / 2);
    }
  }

  /**
   * The bounds in `HighestOneBit`'s contract pin down its result: there is exactly one power of two
   * `p` with `p <= n < 2 * p`.
   */
  lemma HighestOneBitUnique(n: nat, p: int)
    requires IsPowerOfTwo(p) && p <= n < 2 * p
    ensures HighestOneBit(n) == p
  {
    var r := HighestOneBit(n);
    if r < p {
      PowersOfTwoAreSpread(r, p);
    } else if p < r {
      PowersOfTwoAreSpread(p, r);
    }
  }

  /** The values the unit test checks. */
  lemma HighestOneBitExamples()
    ensures HighestOneBit(1533) == 1024
    ensures HighestOneBit(0) == 0
    ensures HighestOneBit(3) == 2
    ensures HighestOneBit(2048) == 2048
  {
    assert IsPowerOfTwo(1024) && IsPowerOfTwo(2) && IsPowerOfTwo(2048);
    HighestOneBitUnique(1533, 1024);
    HighestOneBitUnique(3, 2);
    HighestOneBitUnique(2048, 2048);
  }
}

/** Slot positions: index `i` of the stream lives in slot `i % n` of a ring of `n` slots. */
module RingIndex {

  lemma MulSign(d: int, n: int)
    requires n > 0
    ensures d >= 1 ==> d * n >= n
    ensures d <= 0 ==> d * n <= 0
  {
  }

  /** Quotient and remainder are determined by `x == q * n + r` with `0 <= r < n`. */
  lemma DivModUnique(x: int, n: int, q: int, r: int)
    requires n > 0 && 0 <= r < n && x == q * n + r
    ensures x / n == q && x % n == r
  {
    var q0, r0 := x / n, x % n;
    assert x == q0 * n + r0;
    assert (q - q0) * n == r0 - r;
    MulSign(q - q0, n);
    MulSign(q0 - q, n);
  }

  /** Indices `n` apart share a slot. */
  lemma SlotAfterLap(a: int, n: int)
    requires n > 0
    ensures (a - n) % n == a % n
  {
    assert a == (a / n) * n + a % n;
    assert a - n == (a / n - 1) * n + a % n;
    DivModUnique(a - n, n, a / n - 1, a % n);
  }

  /** Two indices less than `n` apart occupy different slots. */
  lemma SlotsDiffer(a: int, b: int, n: int)
    requires n > 0 && a < b < a + n
    ensures a % n != b % n
  {
    if a % n == b % n {
      assert a == (a / n) * n + a % n && b == (b / n) * n + b % n;
      assert b - a == (b / n - a / n) * n;
      MulSign(b / n - a / n, n);
    }
  }
}

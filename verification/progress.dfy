/** The percentage reported after each saved message. */
module Progress {

  /** One more than the largest value of a 32-bit `guint`. */
  const TwoTo32: nat := 0x1_0000_0000

  /** The largest message count for which `(i + 1) * 100` never exceeds a
      32-bit unsigned integer for `i < n`. */
  const MaxExactCount: nat := 42949672

  /** `x * n` grows with `x`. */
  lemma {:induction false} MultiplyMonotone(x: nat, y: nat, n: nat)
    requires x <= y
    ensures x * n <= y * n
    decreases y - x
  {
    if x < y {
      MultiplyMonotone(x, y - 1, n);
      assert y * n == (y - 1) * n + n;
    }
  }

  /** Floor division brackets its dividend. */
  lemma DivBrackets(a: nat, n: nat)
    requires n > 0
    ensures (a / n) * n <= a < (a / n + 1) * n
  {
    var q, m := a / n, a % n;
    assert a == q * n + m && m < n;
    assert (q + 1) * n == q * n + n;
  }

  /** The progress after message `i` (0-based) of `n`: the floor of
      `(i + 1) * 100 / n`. */
  function Percent(i: nat, n: nat): (r: nat)
    requires i < n
    ensures r * n <= (i + 1) * 100 < (r + 1) * n
    ensures r <= 100
    ensures r == 100 <==> i == n - 1
  {
    var r := ((i + 1) * 100) / n;
    PercentBounds(i, n, r);
    r
  }

  lemma PercentBounds(i: nat, n: nat, r: nat)
    requires i < n && r == ((i + 1) * 100) / n
    ensures r * n <= (i + 1) * 100 < (r + 1) * n
    ensures r <= 100
    ensures r == 100 <==> i == n - 1
  {
    DivBrackets((i + 1) * 100, n);
    MultiplyMonotone(i + 1, n, 100);
    if r > 100 {
      MultiplyMonotone(101, r, n);
      assert false;
    }
    if i == n - 1 {
      assert (i + 1) * 100 == 100 * n;
      if r < 100 {
        MultiplyMonotone(r + 1, 100, n);
        assert false;
      }
    } else {
      assert i + 1 <= n - 1;
      MultiplyMonotone(i + 1, n - 1, 100);
      assert (i + 1) * 100 < 100 * n;
      if r == 100 {
        assert false;
      }
    }
  }

  /** Progress never goes backwards from one message to a later one. */
  lemma PercentMonotone(i: nat, j: nat, n: nat)
    requires i <= j < n
    ensures Percent(i, n) <= Percent(j, n)
  {
    var a, b := Percent(i, n), Percent(j, n);
    MultiplyMonotone(i + 1, j + 1, 100);
    assert a * n < (b + 1) * n;
    if a > b {
      MultiplyMonotone(b + 1, a, n);
      assert false;
    }
  }

  /** Reduction of a natural number to a 32-bit unsigned integer. */
  function Wrap32(x: nat): (y: nat)
    ensures y < TwoTo32 && y <= x
    ensures x < TwoTo32 ==> y == x
  {
    ModAtMost(x, TwoTo32);
    x % TwoTo32
  }

  lemma ModAtMost(a: nat, m: nat)
    requires m > 0
    ensures a % m <= a
  {
    if a >= m {
      assert a == (a / m) * m + a % m;
      MultiplyMonotone(1, a / m, m);
    }
  }

  /** The value as the C code computes it: `(ii + 1) * 100` is evaluated in
      32-bit unsigned arithmetic before the division. */
  function PercentAsWritten(i: nat, n: nat): (r: nat)
    requires i < n < TwoTo32
    ensures r <= 100
  {
    PercentAsWrittenAtMost100(i, n);
    Quotient(Wrap32((i + 1) * 100), n)
  }

  /** Division of unsigned integers. */
  function Quotient(a: nat, n: nat): nat
    requires n > 0
  {
    a / n
  }

  lemma PercentAsWrittenAtMost100(i: nat, n: nat)
    requires i < n
    ensures Quotient(Wrap32((i + 1) * 100), n) <= 100
  {
    QuotientAtMost100(Wrap32((i + 1) * 100), i, n);
  }

  lemma QuotientAtMost100(a: nat, i: nat, n: nat)
    requires i < n && a <= (i + 1) * 100
    ensures a / n <= 100
  {
    DivBrackets(a, n);
    MultiplyMonotone(i + 1, n, 100);
    var r := a / n;
    if r > 100 {
      MultiplyMonotone(101, r, n);
      assert false;
    }
  }

  /** For every count up to `MaxExactCount` the 32-bit computation is exact. */
  lemma PercentAsWrittenExact(i: nat, n: nat)
    requires i < n <= MaxExactCount
    ensures PercentAsWritten(i, n) == Percent(i, n)
  {
    MultiplyMonotone(i + 1, MaxExactCount, 100);
  }

  /** With one more message the product wraps: the second-to-last message
      reports 99 and the last one reports 0 instead of 100. */
  lemma PercentAsWrittenWraps()
    ensures PercentAsWritten(MaxExactCount - 1, MaxExactCount + 1) == 99
    ensures PercentAsWritten(MaxExactCount, MaxExactCount + 1) == 0
    ensures Percent(MaxExactCount, MaxExactCount + 1) == 100
  {
  }
}

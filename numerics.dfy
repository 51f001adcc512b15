/** Integer arithmetic as the C# source performs it.  Dafny's `/` and `%` are
    Euclidean; C#'s integer division truncates toward zero, and the source's
    `Math.Ceiling(a / (double)b)` is an exact ceiling for the sizes involved. */
module Numerics {

  const TWO_30: int := 0x4000_0000
  const TWO_31: int := 0x8000_0000
  const TWO_32: int := 0x1_0000_0000

  function Abs(a: int): nat { if a < 0 then -a else a }

  function Max(a: int, b: int): (r: int)
    ensures r >= a && r >= b && (r == a || r == b)
  {
    if a >= b then a else b
  }

  /** C# `a / b` on int: the quotient truncated toward zero. */
  function CsDiv(a: int, b: int): int
    requires b != 0
  {
    var m := Abs(a) / Abs(b);
    if (a < 0) != (b < 0) then -m else m
  }

  /** C#'s `%`: the remainder of the truncating division, with the dividend's sign. */
  function CsRem(a: int, b: int): int
    requires b != 0
  {
    a - CsDiv(a, b) * b
  }

  /** `(int)Math.Ceiling(a / (double)b)` for a positive divisor. */
  function CeilDiv(a: int, b: int): (q: int)
    requires b > 0
    ensures (q - 1) * b < a <= q * b
  {
    -((-a) / b)
  }

  /** `Math.Ceiling(a / (double)m) * m`: `a` rounded up to a multiple of `m`. */
  function RoundUp(a: int, m: int): int
    requires m > 0
  {
    CeilDiv(a, m) * m
  }

  /** `(int)Math.Pow(4, i)`, the divisor that `Math.Pow(0.25, i)` stands for. */
  function Pow4(i: nat): (p: int)
    ensures p >= 1
  {
    if i == 0 then 1 else 4 * Pow4(i - 1)
  }

  lemma ModOfSmall(x: int, n: int)
    requires 0 <= x < n
    ensures x % n == x
  {
  }

  lemma MulLe(x: int, y: int, m: int)
    requires x <= y && m >= 0
    ensures x * m <= y * m
  {
    assert y * m - x * m == (y - x) * m;
  }

  /** Euclidean division is determined by the bounds of the quotient. */
  lemma DivUnique(a: int, m: int, q: int)
    requires m > 0 && q * m <= a < q * m + m
    ensures a / m == q && a % m == a - q * m
  {
    var d := a / m;
    assert a == d * m + a % m;
    assert (d + 1) * m == d * m + m && (q + 1) * m == q * m + m;
    if d < q {
      MulLe(d + 1, q, m);
    } else if d > q {
      MulLe(q + 1, d, m);
    }
  }

  /** Dividing a non-negative number by at least one does not increase it. */
  lemma DivBounds(a: int, d: int)
    requires a >= 0 && d >= 1
    ensures 0 <= a / d <= a
  {
    assert a == (a / d) * d + a % d;
    MulLe(1, d, a / d);
  }

  /** The cell of size `m` that byte `k < n * m` falls in is one of the `n` cells. */
  lemma CellOf(k: int, m: int, n: nat)
    requires m > 0 && 0 <= k < n * m
    ensures var i := k / m; 0 <= i < n && 0 <= i * m && i * m <= k < i * m + m && k % m == k - i * m
  {
    var i := k / m;
    assert k == i * m + k % m;
    assert (i + 1) * m == i * m + m;
    if i < 0 {
      MulLe(i + 1, 0, m);
    }
    if i >= n {
      MulLe(n, i, m);
    }
    MulLe(0, i, m);
  }

  /** Ceiling division is monotone in the dividend. */
  lemma CeilDivMono(a: int, b: int, m: int)
    requires m > 0 && a <= b
    ensures CeilDiv(a, m) <= CeilDiv(b, m)
  {
    var p, q := CeilDiv(a, m), CeilDiv(b, m);
    if p > q {
      MulLe(q, p - 1, m);
    }
  }

  lemma MulMod(q: int, m: int)
    requires m > 0
    ensures (q * m) % m == 0 && (q * m) / m == q
  {
    DivUnique(q * m, m, q);
  }

  /** Rounding up gives a multiple of `m`, never smaller than `a`, and less than `m` above it. */
  lemma RoundUpBounds(a: int, m: int)
    requires m > 0
    ensures a <= RoundUp(a, m) < a + m
    ensures RoundUp(a, m) % m == 0
  {
    MulMod(CeilDiv(a, m), m);
  }

  /** A multiple of `m` is its own rounding. */
  lemma RoundUpOfMultiple(a: int, m: int)
    requires m > 0 && a % m == 0
    ensures RoundUp(a, m) == a
  {
    var k := a / m;
    assert a == k * m;
    assert -a == (-k) * m;
    DivUnique(-a, m, -k);
  }

  /** Rounding up is idempotent. */
  lemma RoundUpIdempotent(a: int, m: int)
    requires m > 0
    ensures RoundUp(RoundUp(a, m), m) == RoundUp(a, m)
  {
    RoundUpBounds(a, m);
    RoundUpOfMultiple(RoundUp(a, m), m);
  }

  /** A multiple of `k * m` is a multiple of `m`. */
  lemma MultipleOfFactor(a: int, m: int, k: int)
    requires m > 0 && k > 0 && a % (k * m) == 0
    ensures a % m == 0
  {
    var q := a / (k * m);
    assert a == q * (k * m);
    assert a == (q * k) * m;
    MulMod(q * k, m);
  }
}

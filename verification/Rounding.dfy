/** Quotients of integers, floored and rounded. */
module Rounding {

  lemma TimesPositive(d: int, k: int)
    requires d > 0 && k > 0
    ensures d * k >= d
  {
    assert d * k == d * (k - 1) + d;
    assert d * (k - 1) >= 0;
  }

  lemma TimesNegative(d: int, k: int)
    requires d > 0 && k < 0
    ensures d * k <= -d
  {
    TimesPositive(d, -k);
    assert d * -k == -(d * k);
  }

  lemma SmallMultiple(d: int, k: int)
    requires d > 0 && -d < d * k < d
    ensures k == 0
  {
    if k > 0 {
      TimesPositive(d, k);
    } else if k < 0 {
      TimesNegative(d, k);
    }
  }

  lemma StepProducts(a: int, b: int)
    ensures (a + 1) * b == a * b + b && b * (a + 1) == b * a + b
  {
  }

  lemma ProductOrder(a: int, b: int, d: int)
    requires d > 0
    ensures a < b <==> d * a < d * b
    ensures a < b ==> d * a + d <= d * b
  {
    if a < b {
      TimesPositive(d, b - a);
      assert d * (b - a) == d * b - d * a;
    } else if a > b {
      TimesPositive(d, a - b);
      assert d * (a - b) == d * a - d * b;
    }
  }

  lemma QuotientUnique(n: int, d: int, q: int)
    requires d > 0 && d * q <= n < d * q + d
    ensures n / d == q
  {
    var r := n / d;
    QuotientBounds(n, d);
    assert d * (q - r) == d * q - d * r;
    SmallMultiple(d, q - r);
  }

  lemma QuotientBounds(n: int, d: int)
    requires d > 0
    ensures d * (n / d) <= n < d * (n / d) + d
  {
  }

  function Min(a: int, b: int): int {
    if a < b then a else b
  }

  function Max(a: int, b: int): int {
    if a < b then b else a
  }

  function Abs(x: int): nat {
    if x < 0 then -x else x
  }

  /** n/d rounded to the nearest integer, a half upwards. */
  function RoundHalfUp(n: int, d: int): int
    requires d > 0
  {
    (2 * n + d) / (2 * d)
  }

  /** n/d rounded to the nearest integer, a half downwards. */
  function RoundHalfDown(n: int, d: int): int
    requires d > 0
  {
    (2 * n + d - 1) / (2 * d)
  }

  lemma RoundHalfUpUnique(n: int, d: int, m: int)
    requires d > 0
    ensures RoundHalfUp(n, d) == m <==> -d <= 2 * n - 2 * d * m < d
  {
    QuotientBounds(2 * n + d, 2 * d);
    if -d <= 2 * n - 2 * d * m < d {
      QuotientUnique(2 * n + d, 2 * d, m);
    }
  }

  lemma RoundHalfDownUnique(n: int, d: int, m: int)
    requires d > 0
    ensures RoundHalfDown(n, d) == m <==> -d < 2 * n - 2 * d * m <= d
  {
    QuotientBounds(2 * n + d - 1, 2 * d);
    if -d < 2 * n - 2 * d * m <= d {
      QuotientUnique(2 * n + d - 1, 2 * d, m);
    }
  }
}

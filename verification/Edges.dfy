/** The edges of a filled triangle: lines walked downwards, row by row. */
module Edges {
  import opened DrawTargets
  import opened Rounding

  /** An edge from its upper to its lower end. */
  datatype Edge = Edge(from: Point, to: Point)
  {
    ghost predicate Downward() {
      from.y <= to.y
    }

    function W(): nat {
      Abs(to.x - from.x)
    }

    function H(): nat {
      Abs(to.y - from.y)
    }

    predicate Steep() {
      H() > W()
    }

    function Sign(): int {
      if to.x < from.x then -1 else 1
    }

    /** The column `n` steps from the upper end. */
    function X(n: int): int {
      if to.x < from.x then from.x - n else from.x + n
    }
  }

  /**
   Whether column `n` of an edge of width `w` and height `h` is visited in row `j`: along the longer
   axis every step, along the other the nearest one.
   */
  predicate OnEdge(w: nat, h: nat, n: int, j: int) {
    if h > w then 0 <= j <= h && n == RoundHalfUp(j * w, h)
    else if w == 0 then n == 0 && j == 0
    else 0 <= n <= w && j == RoundHalfUp(n * h, w)
  }

  /** The first column visited in row `j`. */
  function First(w: nat, h: nat, j: int): int {
    if h > w then RoundHalfUp(j * w, h)
    else if j == 0 || h == 0 then 0
    else (j * w - w / 2 + h - 1) / h
  }

  /** The last one. */
  function Last(w: nat, h: nat, j: int): int {
    if h > w then First(w, h, j)
    else if j < h then First(w, h, j + 1) - 1
    else w
  }

  /** A walker at the first column `n` of row `j`, with its error term. */
  ghost predicate AtRow(w: nat, h: nat, j: int, n: int, e: int) {
    if h > w then e == h / 2 + j * w - h * n && 0 <= e < h
    else e == w / 2 + n * h - w * j && 0 <= e && (if j == 0 then n == 0 else e < h)
  }

  /** A walker at some column of row `j` of a flat edge. */
  ghost predicate InRow(w: nat, h: nat, j: int, m: int, e: int) {
    e == w / 2 + m * h - w * j && 0 <= e < w
  }

  /** Rounding by way of an error term that starts at half the divisor. */
  lemma RoundsTo(n: int, d: int, m: int)
    requires d > 0
    ensures RoundHalfUp(n, d) == m <==> 0 <= d / 2 + n - d * m < d
  {
    RoundHalfUpUnique(n, d, m);
    assert 2 * d * m == 2 * (d * m);
    hide RoundHalfUp;
  }

  lemma AtRowStarts(w: nat, h: nat)
    ensures AtRow(w, h, 0, 0, (if h > w then h else w) / 2) && First(w, h, 0) == 0
  {
    if h > w { RoundsTo(0, h, 0); }
    hide RoundHalfUp;
  }

  lemma SteepMove(w: nat, h: nat, j: int, n: int, e: int)
    requires h > w && AtRow(w, h, j, n, e)
    ensures e + w < h ==> AtRow(w, h, j + 1, n, e + w)
    ensures e + w >= h ==> AtRow(w, h, j + 1, n + 1, e + w - h) && e + w - h < h
  {
    StepProducts(j, w);
    StepProducts(n, h);
  }

  lemma GentleBegin(w: nat, h: nat, j: int, n: int, e: int)
    requires 0 < h <= w && AtRow(w, h, j, n, e)
    ensures InRow(w, h, j, n, e)
  {
  }

  lemma GentleMove(w: nat, h: nat, j: int, m: int, e: int)
    requires 0 < h <= w && 0 <= j && InRow(w, h, j, m, e)
    ensures e + h < w ==> InRow(w, h, j, m + 1, e + h)
    ensures e + h >= w ==> AtRow(w, h, j + 1, m + 1, e + h - w) && e + h - w < w
  {
    StepProducts(m, h);
    StepProducts(j, w);
  }

  /** In the last row the walker meets no further change of row before the lower end. */
  lemma EndMove(w: nat, h: nat, m: int, e: int)
    requires h <= w && m < w && InRow(w, h, h, m, e)
    ensures e + h < w && InRow(w, h, h, m + 1, e + h)
  {
    StepProducts(m, h);
    if m + 1 < w && h > 0 { ProductOrder(m + 1, w, h); }
    assert (m + 1) * h == h * (m + 1) && w * h == h * w;
  }

  /** In every row but the last a flat edge stays short of its lower end. */
  lemma ShortOfEnd(w: nat, h: nat, j: int, m: int, e: int)
    requires 0 < h <= w && j < h && InRow(w, h, j, m, e)
    ensures m < w
  {
    StepProducts(j, w);
    ProductOrder(j, h, w);
    assert m * h == h * m;
    ProductOrder(m, w, h);
  }

  /** The columns from the first one of a row are those whose error term has come far enough. */
  lemma FromFirst(w: nat, h: nat, j: nat, n: nat)
    requires 0 < h <= w
    ensures n >= First(w, h, j) <==> w / 2 + n * h >= w * j
  {
    assert j * w == w * j && n * h == h * n;
    if j > 0 {
      var d := j * w - w / 2 + h - 1;
      var f := d / h;
      assert First(w, h, j) == f;
      QuotientBounds(d, h);
      hide First;
      if n >= f {
        if n > f { ProductOrder(f, n, h); }
      } else {
        ProductOrder(n, f, h);
      }
    }
  }

  /** A walker that is where a row begins is at its first column. */
  lemma AtRowFirst(w: nat, h: nat, j: nat, n: nat, e: int)
    requires h > 0 && AtRow(w, h, j, n, e)
    ensures n == First(w, h, j)
  {
    if h > w {
      RoundsTo(j * w, h, n);
    } else if j > 0 {
      FromFirst(w, h, j, n);
      StepProducts(n - 1, h);
      if n > 0 {
        FromFirst(w, h, j, n - 1);
      } else {
        TimesPositive(w, j);
      }
    }
  }

  lemma FirstOfEnd(w: nat, h: nat)
    requires 0 < h <= w
    ensures First(w, h, h) <= w
  {
    FromFirst(w, h, h, w);
  }

  /** The columns of a row reach from the first to the last. */
  lemma RowExactly(w: nat, h: nat, j: nat, n: int)
    requires j <= h
    ensures First(w, h, j) <= n <= Last(w, h, j) <==> OnEdge(w, h, n, j)
  {
    if h > w {
    } else if h == 0 {
      if w > 0 {
        RoundsTo(n * h, w, 0);
        hide RoundHalfUp;
      }
    } else {
      FlatRow(w, h, j, n);
    }
  }

  lemma FlatRow(w: nat, h: nat, j: nat, n: int)
    requires 0 < h <= w && j <= h
    ensures First(w, h, j) <= n <= Last(w, h, j) <==> OnEdge(w, h, n, j)
  {
    FirstNatural(w, h, j);
    FirstOfEnd(w, h);
    hide First, RoundHalfUp;
    if 0 <= n {
      OnFlatEdge(w, h, n, j);
      FromFirst(w, h, j, n);
      if j == h {
        if n <= w { LastRow(w, h, n); }
      } else {
        FromFirst(w, h, j + 1, n);
        FirstMonotone(w, h, j + 1, h);
      }
    }
  }

  lemma OnFlatEdge(w: nat, h: nat, n: nat, j: nat)
    requires 0 < h <= w
    ensures OnEdge(w, h, n, j) <==> n <= w && w * j <= w / 2 + n * h < w * (j + 1)
  {
    RoundsTo(n * h, w, j);
    StepProducts(j, w);
    hide RoundHalfUp;
  }

  lemma LastRow(w: nat, h: nat, n: nat)
    requires 0 < h <= w && n <= w
    ensures w / 2 + n * h < w * (h + 1)
  {
    StepProducts(h, w);
    if n < w { ProductOrder(n, w, h); }
    assert n * h == h * n && h * w == w * h;
  }

  lemma FirstNatural(w: nat, h: nat, j: nat)
    requires 0 < h <= w
    ensures First(w, h, j) >= 0
  {
    if j > 0 {
      TimesPositive(w, j);
      assert w * j == j * w;
      var d := j * w - w / 2 + h - 1;
      assert d >= 0;
      QuotientBounds(d, h);
    }
  }

  lemma FirstMonotone(w: nat, h: nat, j: nat, k: nat)
    requires 0 < h <= w && j <= k
    ensures First(w, h, j) <= First(w, h, k)
  {
    FirstNatural(w, h, j);
    FirstNatural(w, h, k);
    var n := First(w, h, k);
    FromFirst(w, h, j, n);
    FromFirst(w, h, k, n);
    hide First;
    if j < k { ProductOrder(j, k, w); }
  }

  /** Every row has a column, and all lie between the ends of the edge. */
  lemma RowInside(w: nat, h: nat, j: nat)
    requires j <= h
    ensures 0 <= First(w, h, j) <= Last(w, h, j) <= w
    ensures First(w, h, 0) == 0 && Last(w, h, h) == w
  {
    if h > w {
      SteepInside(w, h, j);
      SteepInside(w, h, 0);
      SteepInside(w, h, h);
    } else if h > 0 {
      FirstNatural(w, h, j);
      FirstOfEnd(w, h);
      if j < h {
        FirstRises(w, h, j);
        FirstMonotone(w, h, j + 1, h);
      }
    }
  }

  lemma SteepInside(w: nat, h: nat, j: nat)
    requires j <= h && h > w
    ensures 0 <= RoundHalfUp(j * w, h) <= w
    ensures j == 0 ==> RoundHalfUp(j * w, h) == 0
    ensures j == h ==> RoundHalfUp(j * w, h) == w
  {
    var m := RoundHalfUp(j * w, h);
    RoundsTo(j * w, h, m);
    RoundsTo(j * w, h, 0);
    RoundsTo(j * w, h, w);
    hide RoundHalfUp;
    assert 0 <= j * w <= h * w by {
      if w > 0 && j < h { ProductOrder(j, h, w); }
      assert w * j == j * w && w * h == h * w;
    }
    if m < 0 { TimesNegative(h, m); }
    if m > w { ProductOrder(w, m, h); }
  }

  lemma FirstRises(w: nat, h: nat, j: nat)
    requires 0 < h <= w
    ensures First(w, h, j) < First(w, h, j + 1)
  {
    var n := First(w, h, j);
    FirstNatural(w, h, j);
    FromFirst(w, h, j + 1, n);
    StepProducts(j, w);
    if j == 0 {
    } else if n > 0 {
      FromFirst(w, h, j, n - 1);
      StepProducts(n - 1, h);
    } else {
      TimesPositive(w, j);
      FromFirst(w, h, j, n);
    }
  }

  /** A steep edge never turns back. */
  lemma SteepMonotone(w: nat, h: nat, j: int)
    requires h > w
    ensures First(w, h, j) <= First(w, h, j + 1)
  {
    var m, n := RoundHalfUp(j * w, h), RoundHalfUp((j + 1) * w, h);
    RoundsTo(j * w, h, m);
    RoundsTo((j + 1) * w, h, n);
    StepProducts(j, w);
    hide RoundHalfUp;
    if n < m { ProductOrder(n, m, h); }
  }

  /** A column at or beyond the true crossing of row `j` is not before the first pixel there. */
  lemma BeyondCrossing(w: nat, h: nat, j: nat, n: int)
    requires 0 < h && j <= h && n * h >= j * w
    ensures n >= First(w, h, j)
  {
    if n < 0 { TimesNegative(h, n); }
    assert n * h == h * n && j * w == w * j;
    if h > w {
      var m := RoundHalfUp(j * w, h);
      RoundsTo(j * w, h, m);
      hide RoundHalfUp;
      if n < m { ProductOrder(n, m, h); }
    } else {
      FromFirst(w, h, j, n);
    }
  }

  /** A column at or before the true crossing is not beyond the last pixel. */
  lemma BeforeCrossing(w: nat, h: nat, j: nat, n: int)
    requires 0 < h && j <= h && n * h <= j * w
    ensures n <= Last(w, h, j)
  {
    assert n * h == h * n && j * w == w * j;
    RowInside(w, h, j);
    if h > w {
      var m := RoundHalfUp(j * w, h);
      RoundsTo(j * w, h, m);
      hide RoundHalfUp;
      if m < n { ProductOrder(m, n, h); }
    } else if j == h {
      hide First;
      if n > w { ProductOrder(w, n, h); }
      assert h * w == w * j;
    } else if n >= 0 {
      FromFirst(w, h, j + 1, n);
      StepProducts(j, w);
      hide First;
    }
  }
}

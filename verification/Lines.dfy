/** `DrawLine`: Bresenham's algorithm, in all octants and with a stipple pattern. */
module Lines {
  import opened Basics
  import opened DrawTargets
  import opened Rounding
  import opened Patterns

  /** How many pixels a line visits. */
  function Count(p: Point, q: Point): nat {
    1 + if Abs(q.x - p.x) < Abs(q.y - p.y) then Abs(q.y - p.y) else Abs(q.x - p.x)
  }

  /** Whether x and y grow together along the line. */
  predicate Rising(p: Point, q: Point) {
    q.x > p.x <==> q.y > p.y
  }

  function Signed(rising: bool, n: int): int {
    if rising then n else -n
  }

  /**
   The k-th pixel of the line: steps are counted along the longer axis from its lower end, and the
   other coordinate is the true one, rounded.
   */
  function Pixel(p: Point, q: Point, k: int): Point {
    var w, h := Abs(q.x - p.x), Abs(q.y - p.y);
    if w == 0 then Point(p.x, Min(p.y, q.y) + k)
    else if h == 0 then Point(Min(p.x, q.x) + k, p.y)
    else if h <= w then
      var from := if p.x < q.x then p else q;
      Point(from.x + k, from.y + Signed(Rising(p, q), RoundHalfUp(k * h, w)))
    else
      var from := if p.y < q.y then p else q;
      Point(from.x + Signed(Rising(p, q), RoundHalfDown(k * w, h)), from.y + k)
  }

  /** The first `n` pixels visited, without those the pattern hides. */
  function Visible(p: Point, q: Point, pattern: Uint32, n: nat): seq<Point> {
    if n == 0 then []
    else Visible(p, q, pattern, n - 1) + if Shows(pattern, n - 1) then [Pixel(p, q, n - 1)] else []
  }

  // ---- The method ----

  /** What has been drawn once `k` pixels have been visited. */
  ghost function After(before: seq<Dot>, p: Point, q: Point, pattern: Uint32, k: nat,
                       color: DrawTargets.Pixel): seq<Dot> {
    before + Tint(Visible(p, q, pattern, k), color)
  }

  lemma NothingYet(before: seq<Dot>, p: Point, q: Point, pattern: Uint32, color: DrawTargets.Pixel)
    ensures before == After(before, p, q, pattern, 0, color)
    ensures RotatedTimes(pattern, 0, pattern)
  {
  }

  /** `if (rol()) Draw(x, y, p)`. */
  method DrawNext(e: Engine, at: Point, color: DrawTargets.Pixel, pattern: Uint32,
                  ghost before: seq<Dot>, ghost p: Point, ghost q: Point, ghost original: Uint32, ghost k: nat)
    returns (rotated: Uint32)
    requires e.Valid() && RotatedTimes(original, k, pattern) && at == Pixel(p, q, k)
    requires e.drawn == After(before, p, q, original, k, color)
    modifies e`drawn, e.pixels
    ensures e.Valid() && RotatedTimes(original, k + 1, rotated)
    ensures e.drawn == After(before, p, q, original, k + 1, color)
  {
    rotated := Rotated(pattern);
    RotateOnce(original, k, pattern);
    hide RotatedTimes;
    if LowBit(rotated) {
      var _ := e.Draw(at.x, at.y, color);
      TintAppend(Visible(p, q, original, k), at, color);
    }
  }

  lemma StraightPixel(p: Point, q: Point, k: int)
    ensures p.x == q.x ==> Pixel(p, q, k) == Point(p.x, Min(p.y, q.y) + k)
    ensures p.x != q.x && p.y == q.y ==> Pixel(p, q, k) == Point(Min(p.x, q.x) + k, p.y)
    ensures p.x == q.x ==> Count(p, q) == 1 + Abs(q.y - p.y)
    ensures p.y == q.y ==> Count(p, q) == 1 + Abs(q.x - p.x)
  {
  }

  lemma GentlePixel(p: Point, q: Point, k: int)
    requires p.y != q.y && Abs(q.y - p.y) <= Abs(q.x - p.x)
    ensures var w, h := Abs(q.x - p.x), Abs(q.y - p.y); var from := if p.x < q.x then p else q;
      Pixel(p, q, k) == Point(from.x + k, from.y + Signed(Rising(p, q), RoundHalfUp(k * h, w)))
    ensures Count(p, q) == 1 + Abs(q.x - p.x)
  {
  }

  lemma SteepPixel(p: Point, q: Point, k: int)
    requires p.x != q.x && Abs(q.x - p.x) < Abs(q.y - p.y)
    ensures var w, h := Abs(q.x - p.x), Abs(q.y - p.y); var from := if p.y < q.y then p else q;
      Pixel(p, q, k) == Point(from.x + Signed(Rising(p, q), RoundHalfDown(k * w, h)), from.y + k)
    ensures Count(p, q) == 1 + Abs(q.y - p.y)
  {
  }

  method DrawVertical(e: Engine, x1: int, y1: int, x2: int, y2: int, color: DrawTargets.Pixel, pattern: Uint32)
    requires e.Valid() && x1 == x2
    modifies e`drawn, e.pixels
    ensures e.Valid()
    ensures var p, q := Point(x1, y1), Point(x2, y2);
      e.drawn == After(old(e.drawn), p, q, pattern, Count(p, q), color)
  {
    hide RotatedTimes, After, Pixel, Visible, Engine.Valid;
    ghost var p, q, before := Point(x1, y1), Point(x2, y2), e.drawn;
    var from, to, bits := y1, y2, pattern;
    if y2 < y1 { from, to := y2, y1; }
    NothingYet(before, p, q, pattern, color);
    for y := from to to + 1
      invariant e.Valid() && RotatedTimes(pattern, y - from, bits)
      invariant e.drawn == After(before, p, q, pattern, y - from, color)
    {
      assert Point(x1, y) == Pixel(p, q, y - from) by { StraightPixel(p, q, y - from); }
      bits := DrawNext(e, Point(x1, y), color, bits, before, p, q, pattern, y - from);
    }
  }

  method DrawHorizontal(e: Engine, x1: int, y1: int, x2: int, y2: int, color: DrawTargets.Pixel, pattern: Uint32)
    requires e.Valid() && x1 != x2 && y1 == y2
    modifies e`drawn, e.pixels
    ensures e.Valid()
    ensures var p, q := Point(x1, y1), Point(x2, y2);
      e.drawn == After(old(e.drawn), p, q, pattern, Count(p, q), color)
  {
    hide RotatedTimes, After, Pixel, Visible, Engine.Valid;
    ghost var p, q, before := Point(x1, y1), Point(x2, y2), e.drawn;
    var from, to, bits := x1, x2, pattern;
    if x2 < x1 { from, to := x2, x1; }
    NothingYet(before, p, q, pattern, color);
    for x := from to to + 1
      invariant e.Valid() && RotatedTimes(pattern, x - from, bits)
      invariant e.drawn == After(before, p, q, pattern, x - from, color)
    {
      assert Point(x, y1) == Pixel(p, q, x - from) by { StraightPixel(p, q, x - from); }
      bits := DrawNext(e, Point(x, y1), color, bits, before, p, q, pattern, x - from);
    }
  }

  /** The error term of a line of width `w` and height `h <= w` after `k` steps and `m` moves. */
  ghost predicate GentleError(w: int, h: int, k: int, m: int, px: int) {
    && px == 2 * (k * h) - 2 * (w * m) + 2 * h - w
    && -w <= 2 * (k * h) - 2 * (w * m) < w
  }

  lemma GentleStart(w: int, h: int)
    requires 0 < h <= w
    ensures GentleError(w, h, 0, 0, 2 * h - w)
  {
  }

  lemma GentleStep(w: int, h: int, k: int, m: int, px: int)
    requires 0 < h <= w && GentleError(w, h, k, m, px)
    ensures RoundHalfUp(k * h, w) == m
    ensures px < 0 ==> GentleError(w, h, k + 1, m, px + 2 * h)
    ensures px >= 0 ==> GentleError(w, h, k + 1, m + 1, px + 2 * (h - w))
  {
    assert 2 * w * m == 2 * (w * m);
    RoundHalfUpUnique(k * h, w, m);
    assert (k + 1) * h == k * h + h && w * (m + 1) == w * m + w;
  }

  ghost function GentleFrom(p: Point, q: Point): Point {
    if p.x < q.x then p else q
  }

  /** The loop of a flat line after `k` steps, `m` of which moved y. */
  ghost predicate GentleState(p: Point, q: Point, k: nat, m: int, x: int, y: int, px: int) {
    var from := GentleFrom(p, q);
    && GentleError(Abs(q.x - p.x), Abs(q.y - p.y), k, m, px)
    && x == from.x + k && y == from.y + Signed(Rising(p, q), m)
  }

  lemma GentleBegins(p: Point, q: Point)
    requires p.y != q.y && Abs(q.y - p.y) <= Abs(q.x - p.x)
    ensures GentleState(p, q, 0, 0, GentleFrom(p, q).x, GentleFrom(p, q).y, 2 * Abs(q.y - p.y) - Abs(q.x - p.x))
  {
    GentleStart(Abs(q.x - p.x), Abs(q.y - p.y));
    hide GentleError;
  }

  lemma GentleStateIsPixel(p: Point, q: Point, k: nat, m: int, x: int, y: int, px: int)
    requires p.y != q.y && Abs(q.y - p.y) <= Abs(q.x - p.x)
    requires GentleState(p, q, k, m, x, y, px)
    ensures Point(x, y) == Pixel(p, q, k)
  {
    GentleStep(Abs(q.x - p.x), Abs(q.y - p.y), k, m, px);
    hide GentleError, RoundHalfUp;
  }

  /** One step of that loop. */
  method GentleMove(dx: int, dy: int, x: int, y: int, px: int, ghost p: Point, ghost q: Point, ghost k: nat,
                    ghost m: int)
    returns (x': int, y': int, px': int, ghost m': int)
    requires dx == q.x - p.x && dy == q.y - p.y && p.y != q.y && Abs(q.y - p.y) <= Abs(q.x - p.x)
    requires GentleState(p, q, k, m, x, y, px)
    ensures GentleState(p, q, k + 1, m', x', y', px') && x' == x + 1
  {
    var dx1: int, dy1: int := Abs(dx), Abs(dy);
    GentleStep(dx1, dy1, k, m, px);
    x', y', m' := x, y, m;
    x' := x' + 1;
    if px < 0 {
      px' := px + 2 * dy1;
    } else {
      if (dx < 0 && dy < 0) || (dx > 0 && dy > 0) { y' := y' + 1; } else { y' := y' - 1; }
      px' := px + 2 * (dy1 - dx1);
      m' := m + 1;
    }
  }

  method DrawGentle(e: Engine, x1: int, y1: int, x2: int, y2: int, color: DrawTargets.Pixel, pattern: Uint32)
    requires e.Valid() && y1 != y2 && Abs(y2 - y1) <= Abs(x2 - x1)
    modifies e`drawn, e.pixels
    ensures e.Valid()
    ensures var p, q := Point(x1, y1), Point(x2, y2);
      e.drawn == After(old(e.drawn), p, q, pattern, Count(p, q), color)
  {
    hide RotatedTimes, After, Pixel, Visible, Engine.Valid, GentleError, GentleState, Rising, Signed, Count;
    ghost var p, q, before := Point(x1, y1), Point(x2, y2), e.drawn;
    var dx, dy := x2 - x1, y2 - y1;
    var px: int := 2 * Abs(dy) - Abs(dx);
    var x, y, xe := x1, y1, x2;
    if dx < 0 {
      x, y, xe := x2, y2, x1;
    }
    ghost var k: nat, m := 0, 0;
    NothingYet(before, p, q, pattern, color);
    GentleBegins(p, q);
    GentleStateIsPixel(p, q, k, m, x, y, px);
    GentlePixel(p, q, 0);
    var bits := DrawNext(e, Point(x, y), color, pattern, before, p, q, pattern, k);
    while x < xe
      invariant x == GentleFrom(p, q).x + k <= xe
      invariant GentleState(p, q, k, m, x, y, px)
      invariant e.Valid() && RotatedTimes(pattern, k + 1, bits)
      invariant e.drawn == After(before, p, q, pattern, k + 1, color)
    {
      x, y, px, m := GentleMove(dx, dy, x, y, px, p, q, k, m);
      k := k + 1;
      GentleStateIsPixel(p, q, k, m, x, y, px);
      bits := DrawNext(e, Point(x, y), color, bits, before, p, q, pattern, k);
    }
  }

  /** The error term of a line of height `h > w` after `k` steps and `m` moves. */
  ghost predicate SteepError(w: int, h: int, k: int, m: int, py: int) {
    && py == 2 * (k * w) - 2 * (h * m) + 2 * w - h
    && -h < 2 * (k * w) - 2 * (h * m) <= h
  }

  lemma SteepStart(w: int, h: int)
    requires 0 < w <= h
    ensures SteepError(w, h, 0, 0, 2 * w - h)
  {
  }

  lemma SteepStep(w: int, h: int, k: int, m: int, py: int)
    requires 0 < w <= h && SteepError(w, h, k, m, py)
    ensures RoundHalfDown(k * w, h) == m
    ensures py <= 0 ==> SteepError(w, h, k + 1, m, py + 2 * w)
    ensures py > 0 ==> SteepError(w, h, k + 1, m + 1, py + 2 * (w - h))
  {
    assert 2 * h * m == 2 * (h * m);
    RoundHalfDownUnique(k * w, h, m);
    assert (k + 1) * w == k * w + w && h * (m + 1) == h * m + h;
  }

  ghost function SteepFrom(p: Point, q: Point): Point {
    if p.y < q.y then p else q
  }

  /** The loop of a steep line after `k` steps, `m` of which moved x. */
  ghost predicate SteepState(p: Point, q: Point, k: nat, m: int, x: int, y: int, py: int) {
    var from := SteepFrom(p, q);
    && SteepError(Abs(q.x - p.x), Abs(q.y - p.y), k, m, py)
    && x == from.x + Signed(Rising(p, q), m) && y == from.y + k
  }

  lemma SteepBegins(p: Point, q: Point)
    requires p.x != q.x && Abs(q.x - p.x) < Abs(q.y - p.y)
    ensures SteepState(p, q, 0, 0, SteepFrom(p, q).x, SteepFrom(p, q).y, 2 * Abs(q.x - p.x) - Abs(q.y - p.y))
  {
    SteepStart(Abs(q.x - p.x), Abs(q.y - p.y));
    hide SteepError;
  }

  lemma SteepStateIsPixel(p: Point, q: Point, k: nat, m: int, x: int, y: int, py: int)
    requires p.x != q.x && Abs(q.x - p.x) < Abs(q.y - p.y)
    requires SteepState(p, q, k, m, x, y, py)
    ensures Point(x, y) == Pixel(p, q, k)
  {
    SteepStep(Abs(q.x - p.x), Abs(q.y - p.y), k, m, py);
    hide SteepError, RoundHalfDown;
  }

  /** One step of that loop. */
  method SteepMove(dx: int, dy: int, x: int, y: int, py: int, ghost p: Point, ghost q: Point, ghost k: nat,
                   ghost m: int)
    returns (x': int, y': int, py': int, ghost m': int)
    requires dx == q.x - p.x && dy == q.y - p.y && p.x != q.x && Abs(q.x - p.x) < Abs(q.y - p.y)
    requires SteepState(p, q, k, m, x, y, py)
    ensures SteepState(p, q, k + 1, m', x', y', py') && y' == y + 1
  {
    var dx1: int, dy1: int := Abs(dx), Abs(dy);
    SteepStep(dx1, dy1, k, m, py);
    x', y', m' := x, y, m;
    y' := y' + 1;
    if py <= 0 {
      py' := py + 2 * dx1;
    } else {
      if (dx < 0 && dy < 0) || (dx > 0 && dy > 0) { x' := x' + 1; } else { x' := x' - 1; }
      py' := py + 2 * (dx1 - dy1);
      m' := m + 1;
    }
  }

  method DrawSteep(e: Engine, x1: int, y1: int, x2: int, y2: int, color: DrawTargets.Pixel, pattern: Uint32)
    requires e.Valid() && x1 != x2 && Abs(x2 - x1) < Abs(y2 - y1)
    modifies e`drawn, e.pixels
    ensures e.Valid()
    ensures var p, q := Point(x1, y1), Point(x2, y2);
      e.drawn == After(old(e.drawn), p, q, pattern, Count(p, q), color)
  {
    hide RotatedTimes, After, Pixel, Visible, Engine.Valid, SteepError, SteepState, Rising, Signed, Count;
    ghost var p, q, before := Point(x1, y1), Point(x2, y2), e.drawn;
    var dx, dy := x2 - x1, y2 - y1;
    var py: int := 2 * Abs(dx) - Abs(dy);
    var x, y, ye := x1, y1, y2;
    if dy < 0 {
      x, y, ye := x2, y2, y1;
    }
    ghost var k: nat, m := 0, 0;
    NothingYet(before, p, q, pattern, color);
    SteepBegins(p, q);
    SteepStateIsPixel(p, q, k, m, x, y, py);
    SteepPixel(p, q, 0);
    var bits := DrawNext(e, Point(x, y), color, pattern, before, p, q, pattern, k);
    while y < ye
      invariant y == SteepFrom(p, q).y + k <= ye
      invariant SteepState(p, q, k, m, x, y, py)
      invariant e.Valid() && RotatedTimes(pattern, k + 1, bits)
      invariant e.drawn == After(before, p, q, pattern, k + 1, color)
    {
      x, y, py, m := SteepMove(dx, dy, x, y, py, p, q, k, m);
      k := k + 1;
      SteepStateIsPixel(p, q, k, m, x, y, py);
      bits := DrawNext(e, Point(x, y), color, bits, before, p, q, pattern, k);
    }
  }

  method DrawLine(e: Engine, x1: int, y1: int, x2: int, y2: int, color: DrawTargets.Pixel, pattern: Uint32)
    requires e.Valid()
    modifies e`drawn, e.pixels
    ensures e.Valid()
    ensures var p, q := Point(x1, y1), Point(x2, y2);
      e.drawn == old(e.drawn) + Tint(Visible(p, q, pattern, Count(p, q)), color)
  {
    if x1 == x2 {
      DrawVertical(e, x1, y1, x2, y2, color, pattern);
    } else if y1 == y2 {
      DrawHorizontal(e, x1, y1, x2, y2, color, pattern);
    } else if Abs(y2 - y1) <= Abs(x2 - x1) {
      DrawGentle(e, x1, y1, x2, y2, color, pattern);
    } else {
      DrawSteep(e, x1, y1, x2, y2, color, pattern);
    }
  }

  // ---- What the pixels are ----

  /** The rounded ordinate is within half a pixel of the true one, and reaches the far end. */
  lemma RoundedNear(n: int, d: int)
    requires d > 0
    ensures -d <= 2 * n - 2 * d * RoundHalfUp(n, d) < d
    ensures -d < 2 * n - 2 * d * RoundHalfDown(n, d) <= d
  {
    RoundHalfUpUnique(n, d, RoundHalfUp(n, d));
    RoundHalfDownUnique(n, d, RoundHalfDown(n, d));
  }

  lemma RoundedExact(k: int, d: int)
    requires d > 0
    ensures RoundHalfUp(d * k, d) == k && RoundHalfDown(d * k, d) == k
  {
    assert 2 * (d * k) == 2 * d * k;
    RoundHalfUpUnique(d * k, d, k);
    RoundHalfDownUnique(d * k, d, k);
  }

  /** The steps among the first `n` whose bit of the pattern is set: the highest bit first, then round. */
  function Chosen(pattern: Uint32, n: nat): set<nat> {
    set k: nat | k < n && Bit(pattern, 31 - k % 32)
  }

  lemma ChosenNext(pattern: Uint32, n: nat)
    ensures Chosen(pattern, n + 1) ==
      Chosen(pattern, n) + (if Shows(pattern, n) then {n} else {})
    ensures n !in Chosen(pattern, n) && Chosen(pattern, 0) == {}
  {
    hide Bit;
  }

  /** `ks` lists the chosen steps from the smallest to the largest. */
  ghost predicate Ascending(ks: seq<nat>, chosen: set<nat>) {
    && (forall i, j :: 0 <= i < j < |ks| ==> ks[i] < ks[j])
    && (forall k: nat :: k in ks <==> k in chosen)
    && |ks| == |chosen|
  }

  lemma AscendingAppend(ks: seq<nat>, chosen: set<nat>, n: nat)
    requires Ascending(ks, chosen) && forall k :: k in chosen ==> k < n
    ensures Ascending(ks + [n], chosen + {n})
  {
    assert forall j :: 0 <= j < |ks| ==> ks[j] in ks;
  }

  /**
   The pixels drawn are those of the chosen steps, for every pattern, and in order: `ks` are these
   steps from the smallest to the largest, and the j-th pixel is the one of step `ks[j]`.
   */
  lemma {:induction false} VisibleExactly(p: Point, q: Point, pattern: Uint32, n: nat) returns (ks: seq<nat>)
    ensures Ascending(ks, Chosen(pattern, n)) && |Visible(p, q, pattern, n)| == |ks|
    ensures forall j :: 0 <= j < |ks| ==> Visible(p, q, pattern, n)[j] == Pixel(p, q, ks[j])
  {
    hide Pixel, Shows, Chosen, Visible, Ascending;
    if n == 0 {
      ks := NoneChosen(pattern);
      VisibleNext(p, q, pattern, 0);
    } else {
      ks := VisibleExactly(p, q, pattern, n - 1);
      ChosenNext(pattern, n - 1);
      VisibleNext(p, q, pattern, n - 1);
      if Shows(pattern, n - 1) {
        ChosenBelow(pattern, n - 1);
        AscendingAppend(ks, Chosen(pattern, n - 1), n - 1);
        ks := ks + [n - 1];
      } else {
        assert Chosen(pattern, n) == Chosen(pattern, n - 1);
      }
    }
  }

  lemma NoneChosen(pattern: Uint32) returns (ks: seq<nat>)
    ensures ks == [] && Ascending(ks, Chosen(pattern, 0))
  {
    ks := [];
    ChosenNext(pattern, 0);
    hide Bit;
  }

  lemma VisibleNext(p: Point, q: Point, pattern: Uint32, n: nat)
    ensures Visible(p, q, pattern, 0) == []
    ensures Visible(p, q, pattern, n + 1) ==
      Visible(p, q, pattern, n) + if Shows(pattern, n) then [Pixel(p, q, n)] else []
  {
    hide Shows, Pixel;
  }

  lemma ChosenBelow(pattern: Uint32, n: nat)
    ensures forall k: nat :: k in Chosen(pattern, n) ==> k < n
  {
    hide Bit;
  }

  lemma {:induction false} FullPattern(p: Point, q: Point, n: nat)
    ensures |Visible(p, q, 0xFFFF_FFFF, n)| == n
    ensures forall k :: 0 <= k < n ==> Visible(p, q, 0xFFFF_FFFF, n)[k] == Pixel(p, q, k)
  {
    if n > 0 {
      FullPattern(p, q, n - 1);
      FullPatternShowsAll(n - 1);
    }
  }

  /** The line begins at one of its end points and ends at the other. */
  lemma EndPoints(p: Point, q: Point)
    ensures var first, last := Pixel(p, q, 0), Pixel(p, q, Count(p, q) - 1);
      (first == p && last == q) || (first == q && last == p)
  {
    var w, h := Abs(q.x - p.x), Abs(q.y - p.y);
    if 0 < h <= w {
      RoundedExact(0, w);
      RoundedExact(h, w);
    } else if 0 < w < h {
      RoundedExact(0, h);
      RoundedExact(w, h);
    }
    hide RoundHalfUp, RoundHalfDown;
  }

  /** Nearest integers of two values at most one apart are at most one apart, in order. */
  lemma NearestSteps(d: int, s: int, t: int, a: int, b: int)
    requires 0 < d && s <= t <= s + d
    requires (-d <= 2 * s - 2 * d * a < d && -d <= 2 * t - 2 * d * b < d)
          || (-d < 2 * s - 2 * d * a <= d && -d < 2 * t - 2 * d * b <= d)
    ensures 0 <= b - a <= 1
  {
    assert 2 * d * (b - a) == 2 * d * b - 2 * d * a;
    assert -2 * d < 2 * d * (b - a) < 4 * d;
    if b - a < 0 {
      TimesNegative(2 * d, b - a);
    } else if b - a > 1 {
      assert 2 * d * (b - a) == 2 * d * (b - a - 1) + 2 * d;
      TimesPositive(2 * d, b - a - 1);
    }
  }

  /** From one pixel to the next the shorter axis moves by at most one. */
  lemma RoundedSteps(k: int, n: int, d: int)
    requires 0 <= n <= d && 0 < d
    ensures 0 <= RoundHalfUp((k + 1) * n, d) - RoundHalfUp(k * n, d) <= 1
    ensures 0 <= RoundHalfDown((k + 1) * n, d) - RoundHalfDown(k * n, d) <= 1
  {
    var t := k * n;
    assert (k + 1) * n == t + n;
    RoundedNear(t, d);
    RoundedNear(t + n, d);
    hide RoundHalfUp, RoundHalfDown;
    NearestSteps(d, t, t + n, RoundHalfUp(t, d), RoundHalfUp(t + n, d));
    NearestSteps(d, t, t + n, RoundHalfDown(t, d), RoundHalfDown(t + n, d));
  }

  /** Each step goes on by one along the longer axis and by at most one along the other. */
  lemma Connected(p: Point, q: Point, k: nat)
    ensures var a, b := Pixel(p, q, k), Pixel(p, q, k + 1);
      if Abs(q.x - p.x) == 0 || (q.y != p.y && Abs(q.x - p.x) < Abs(q.y - p.y))
      then b.y == a.y + 1 && Abs(b.x - a.x) <= 1
      else b.x == a.x + 1 && Abs(b.y - a.y) <= 1
  {
    var w, h := Abs(q.x - p.x), Abs(q.y - p.y);
    if 0 < h <= w {
      RoundedSteps(k, h, w);
    } else if 0 < w < h {
      RoundedSteps(k, w, h);
    }
    hide RoundHalfUp, RoundHalfDown;
  }

  /** A line drawn backwards visits the same pixels in the same order. */
  lemma {:induction false} SameBackwards(p: Point, q: Point, pattern: Uint32, n: nat)
    ensures Count(p, q) == Count(q, p)
    ensures forall k :: 0 <= k < Count(p, q) ==> Pixel(p, q, k) == Pixel(q, p, k)
    ensures n <= Count(p, q) ==> Visible(p, q, pattern, n) == Visible(q, p, pattern, n)
  {
    hide RoundHalfUp, RoundHalfDown;
    if n > 0 {
      SameBackwards(p, q, pattern, n - 1);
    }
  }

  /** Twice the cross product of a pixel's offset from `from` with the direction of the line. */
  function Deviation(p: Point, q: Point, at: Point): int {
    2 * Cross(p, q, at)
  }

  /** Seen from either end point the deviation is the same. */
  lemma DeviationFromEither(p: Point, q: Point, at: Point)
    ensures Abs(Deviation(p, q, at)) == Abs(Deviation(q, p, at))
  {
    CrossBackwards(p, q, at);
    hide Cross;
  }

  lemma Products(k: int, n: int, d: int, m: int)
    ensures k * -n == -(k * n) && -m * d == -(m * d) && 2 * d * m == 2 * (m * d)
  {
  }

  lemma GentleNear(p: Point, q: Point, k: nat)
    requires p.x < q.x && p.y != q.y && Abs(q.y - p.y) <= q.x - p.x
    ensures Abs(Deviation(p, q, Pixel(p, q, k))) <= q.x - p.x
  {
    var w, h := q.x - p.x, Abs(q.y - p.y);
    var m := RoundHalfUp(k * h, w);
    RoundedNear(k * h, w);
    GentlePixel(p, q, k);
    hide RoundHalfUp, Pixel;
    Products(k, h, w, m);
  }

  lemma SteepNear(p: Point, q: Point, k: nat)
    requires p.y < q.y && p.x != q.x && Abs(q.x - p.x) < q.y - p.y
    ensures Abs(Deviation(p, q, Pixel(p, q, k))) <= q.y - p.y
  {
    var w, h := Abs(q.x - p.x), q.y - p.y;
    var m := RoundHalfDown(k * w, h);
    RoundedNear(k * w, h);
    SteepPixel(p, q, k);
    hide RoundHalfDown, Pixel;
    Products(k, w, h, m);
  }

  lemma StraightNear(p: Point, q: Point, k: nat)
    requires p.x == q.x || p.y == q.y
    ensures Deviation(p, q, Pixel(p, q, k)) == 0
  {
    StraightPixel(p, q, k);
    hide Pixel;
  }

  /**
   Every pixel visited is within half a pixel of the ideal line, measured along the shorter axis:
   the deviation is at most the length of the longer side.
   */
  lemma NearTheLine(p: Point, q: Point, k: nat)
    requires k < Count(p, q)
    ensures Abs(Deviation(p, q, Pixel(p, q, k))) <= Count(p, q) - 1
  {
    hide Pixel, Deviation, Visible, Rising, Signed;
    var d := Pixel(p, q, k);
    DeviationFromEither(p, q, d);
    SameBackwards(p, q, 0, 0);
    var w, h := Abs(q.x - p.x), Abs(q.y - p.y);
    if w == 0 || h == 0 {
      StraightNear(p, q, k);
    } else if h <= w {
      if p.x < q.x { GentleNear(p, q, k); } else { GentleNear(q, p, k); }
    } else {
      if p.y < q.y { SteepNear(p, q, k); } else { SteepNear(q, p, k); }
    }
  }
}

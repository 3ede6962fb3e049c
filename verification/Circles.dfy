/** `DrawCircle` and `FillCircle`: midpoint circles, outlined and filled. */
module Circles {
  import opened DrawTargets
  import opened Rounding
  import opened Sequences
  import opened Spans

  // ---- The octant ----

  /** `y` is the integer nearest to the ordinate sqrt(r^2 - x^2) of the circle at `x`. */
  predicate Nearest(r: int, x: int, y: int) {
    y * y - y < r * r - x * x <= y * y + y
  }

  /** Column `x` has no nearest ordinate on or above the diagonal. */
  ghost predicate NoneFrom(r: int, x: int) {
    forall y :: y >= x ==> !Nearest(r, x, y)
  }

  /**
   The ordinates of the octant from x = 0 to the diagonal: each the nearest one, and no further
   column has its nearest ordinate on or above the diagonal.
   */
  ghost predicate IsOctant(r: int, ys: seq<int>) {
    && (forall i :: 0 <= i < |ys| ==> i <= ys[i] && Nearest(r, i, ys[i]))
    && NoneFrom(r, |ys|)
  }

  /** y^2 - y grows with y. */
  lemma PronicGrows(a: int, b: int)
    requires 0 <= a <= b
    ensures a * a + a <= b * b + b
    ensures a < b ==> a * a + a <= b * b - b
  {
    if a < b {
      var c := b - 1;
      assert b * b - b == c * c + c;
      SquareGrows(a, c);
      SquareGrows(a, b);
    }
  }

  lemma SquareGrows(a: int, b: int)
    requires 0 <= a <= b
    ensures a * a <= b * b
  {
    assert b * b - a * a == (b - a) * (b + a);
    assert (b - a) * (b + a) >= 0;
  }

  /** The loop's position and decision variable. */
  ghost predicate OctantState(r: int, x: int, y: int, d: int) {
    && d == 2 * (x + 1) * (x + 1) + y * y + (y - 1) * (y - 1) - 2 * r * r
    && r * r - x * x <= y * y + y
    && (y >= x ==> Nearest(r, x, y))
  }

  lemma OctantStart(r: int)
    requires r > 0
    ensures OctantState(r, 0, r, 3 - 2 * r)
  {
  }

  lemma OctantStep(r: int, x: int, y: int, d: int)
    requires 0 <= x <= y && OctantState(r, x, y, d)
    ensures d < 0 ==> OctantState(r, x + 1, y, d + 4 * x + 6)
    ensures d >= 0 ==> OctantState(r, x + 1, y - 1, d + 4 * (x - y) + 10)
  {
    var xx, yy, rr := x * x, y * y, r * r;
    assert (x + 1) * (x + 1) == xx + 2 * x + 1 && (x + 2) * (x + 2) == xx + 4 * x + 4;
    assert (y - 1) * (y - 1) == yy - 2 * y + 1 && (y - 2) * (y - 2) == yy - 4 * y + 4;
    assert 2 * (x + 1) * (x + 1) == 2 * (xx + 2 * x + 1) && 2 * (x + 2) * (x + 2) == 2 * (xx + 4 * x + 4);
  }

  /** At the end of the loop no column further on belongs to the octant. */
  lemma OctantEnds(r: int, x: int, y: int, d: int)
    requires 0 <= x && -1 <= y < x && OctantState(r, x, y, d)
    ensures NoneFrom(r, x)
  {
    forall z | z >= x ensures !Nearest(r, x, z) {
      if y >= 0 {
        PronicGrows(y, z);
      } else {
        assert z * z - z >= 0;
      }
    }
  }

  lemma NearestUnique(r: int, x: int, y: int, z: int)
    requires 0 <= y && 0 <= z && Nearest(r, x, y) && Nearest(r, x, z)
    ensures y == z
  {
    if y < z {
      PronicGrows(y, z);
    } else if z < y {
      PronicGrows(z, y);
    }
  }

  lemma SomeAt(r: int, ys: seq<int>, i: nat)
    requires IsOctant(r, ys)
    ensures i < |ys| ==> !NoneFrom(r, i)
  {
    if i < |ys| {
      assert i <= ys[i] && Nearest(r, i, ys[i]);
    }
  }

  /** There is only one octant for a radius. */
  lemma OctantUnique(r: int, ys: seq<int>, zs: seq<int>)
    requires IsOctant(r, ys) && IsOctant(r, zs)
    ensures ys == zs
  {
    SomeAt(r, ys, |zs|);
    SomeAt(r, zs, |ys|);
    forall i | 0 <= i < |ys| && i < |zs| ensures ys[i] == zs[i] {
      NearestUnique(r, i, ys[i], zs[i]);
    }
  }

  // ---- The outline ----

  predicate Asks(mask: bv8, octant: bv8) {
    mask & octant != 0
  }

  function Pick(show: bool, p: Point): seq<Point> {
    if show then [p] else []
  }

  /** The reflections of one octant point about the centre that the mask asks for. */
  function Even(c: Point, x0: int, y0: int, mask: bv8): seq<Point> {
    Pick(Asks(mask, 0x01), Point(c.x + x0, c.y - y0)) +
    Pick(Asks(mask, 0x04), Point(c.x + y0, c.y + x0)) +
    Pick(Asks(mask, 0x10), Point(c.x - x0, c.y + y0)) +
    Pick(Asks(mask, 0x40), Point(c.x - y0, c.y - x0))
  }

  function Odd(c: Point, x0: int, y0: int, mask: bv8): seq<Point> {
    Pick(Asks(mask, 0x02), Point(c.x + y0, c.y - x0)) +
    Pick(Asks(mask, 0x08), Point(c.x + x0, c.y + y0)) +
    Pick(Asks(mask, 0x20), Point(c.x - y0, c.y + x0)) +
    Pick(Asks(mask, 0x80), Point(c.x - x0, c.y - y0))
  }

  function Reflections(c: Point, x0: int, y0: int, mask: bv8): seq<Point> {
    if x0 == 0 || x0 == y0 then Even(c, x0, y0, mask) else Even(c, x0, y0, mask) + Odd(c, x0, y0, mask)
  }

  function Outline(c: Point, ys: seq<int>, mask: bv8): seq<Point> {
    if ys == [] then []
    else Outline(c, ys[..|ys| - 1], mask) + Reflections(c, |ys| - 1, ys[|ys| - 1], mask)
  }

  predicate OffTarget(width: int, height: int, c: Point, r: int) {
    r < 0 || c.x < -r || c.y < -r || c.x - width > r || c.y - height > r
  }

  method DrawPicked(e: Engine, show: bool, at: Point, color: Pixel, ghost before: seq<Dot>, ghost done: seq<Point>)
    requires e.Valid() && Drew(before, done, color, e.drawn)
    modifies e`drawn, e.pixels
    ensures e.Valid() && Drew(before, done + Pick(show, at), color, e.drawn)
  {
    ghost var mid := e.drawn;
    if show {
      var _ := e.Draw(at.x, at.y, color);
      DrewOne(mid, at, color, e.drawn);
    } else {
      DrewNothing(mid, color);
    }
    hide Drew;
    DrewThen(before, done, mid, Pick(show, at), e.drawn, color);
  }

  method DrawEven(e: Engine, c: Point, x0: int, y0: int, color: Pixel, mask: bv8)
    requires e.Valid()
    modifies e`drawn, e.pixels
    ensures e.Valid() && Drew(old(e.drawn), Even(c, x0, y0, mask), color, e.drawn)
  {
    ghost var before := e.drawn;
    ghost var a := Pick(Asks(mask, 0x01), Point(c.x + x0, c.y - y0));
    ghost var b := Pick(Asks(mask, 0x04), Point(c.x + y0, c.y + x0));
    ghost var d := Pick(Asks(mask, 0x10), Point(c.x - x0, c.y + y0));
    ghost var f := Pick(Asks(mask, 0x40), Point(c.x - y0, c.y - x0));
    assert Even(c, x0, y0, mask) == a + b + d + f;
    DrewNothing(before, color);
    assert [] + a == a;
    hide Drew, Engine.Valid, Pick, Asks, Even;
    DrawPicked(e, Asks(mask, 0x01), Point(c.x + x0, c.y - y0), color, before, []);
    DrawPicked(e, Asks(mask, 0x04), Point(c.x + y0, c.y + x0), color, before, a);
    DrawPicked(e, Asks(mask, 0x10), Point(c.x - x0, c.y + y0), color, before, a + b);
    DrawPicked(e, Asks(mask, 0x40), Point(c.x - y0, c.y - x0), color, before, a + b + d);
  }

  method DrawOdd(e: Engine, c: Point, x0: int, y0: int, color: Pixel, mask: bv8)
    requires e.Valid()
    modifies e`drawn, e.pixels
    ensures e.Valid() && Drew(old(e.drawn), Odd(c, x0, y0, mask), color, e.drawn)
  {
    ghost var before := e.drawn;
    ghost var a := Pick(Asks(mask, 0x02), Point(c.x + y0, c.y - x0));
    ghost var b := Pick(Asks(mask, 0x08), Point(c.x + x0, c.y + y0));
    ghost var d := Pick(Asks(mask, 0x20), Point(c.x - y0, c.y + x0));
    ghost var f := Pick(Asks(mask, 0x80), Point(c.x - x0, c.y - y0));
    assert Odd(c, x0, y0, mask) == a + b + d + f;
    DrewNothing(before, color);
    assert [] + a == a;
    hide Drew, Engine.Valid, Pick, Asks, Odd;
    DrawPicked(e, Asks(mask, 0x02), Point(c.x + y0, c.y - x0), color, before, []);
    DrawPicked(e, Asks(mask, 0x08), Point(c.x + x0, c.y + y0), color, before, a);
    DrawPicked(e, Asks(mask, 0x20), Point(c.x - y0, c.y + x0), color, before, a + b);
    DrawPicked(e, Asks(mask, 0x80), Point(c.x - x0, c.y - y0), color, before, a + b + d);
  }

  method DrawReflections(e: Engine, c: Point, x0: int, y0: int, color: Pixel, mask: bv8)
    requires e.Valid()
    modifies e`drawn, e.pixels
    ensures e.Valid() && Drew(old(e.drawn), Reflections(c, x0, y0, mask), color, e.drawn)
  {
    hide Drew, Engine.Valid, Even, Odd;
    ghost var before := e.drawn;
    DrawEven(e, c, x0, y0, color, mask);
    ghost var mid := e.drawn;
    if x0 != 0 && x0 != y0 {
      DrawOdd(e, c, x0, y0, color, mask);
      DrewThen(before, Even(c, x0, y0, mask), mid, Odd(c, x0, y0, mask), e.drawn, color);
    }
  }

  /** The ordinates of the octant visited so far, and the loop's state. */
  ghost predicate OctantSoFar(r: int, ys: seq<int>, x: int, y: int, d: int) {
    && |ys| == x && OctantState(r, x, y, d) && y >= x - 2 && y >= -1
    && (forall i :: 0 <= i < x ==> i <= ys[i] && Nearest(r, i, ys[i]))
  }

  lemma SoFarStarts(r: int)
    requires r > 0
    ensures OctantSoFar(r, [], 0, r, 3 - 2 * r)
  {
    OctantStart(r);
    hide Nearest;
  }

  lemma SoFarSteps(r: int, ys: seq<int>, x: int, y: int, d: int)
    requires OctantSoFar(r, ys, x, y, d) && y >= x
    ensures d < 0 ==> OctantSoFar(r, ys + [y], x + 1, y, d + 4 * x + 6)
    ensures d >= 0 ==> OctantSoFar(r, ys + [y], x + 1, y - 1, d + 4 * (x - y) + 10)
    ensures d >= 0 <==> Drops(r, x, y)
  {
    OctantStep(r, x, y, d);
    assert OctantState(r, x, y, d);
    DropsExactly(r, x, y, d);
    hide OctantState, Nearest;
    assert OctantSoFar(r, ys, x, y, d) && Nearest(r, x, y) by { NearestOnOctant(r, x, y, d); }
  }

  lemma NearestOnOctant(r: int, x: int, y: int, d: int)
    requires OctantState(r, x, y, d) && y >= x
    ensures Nearest(r, x, y)
  {
  }

  lemma SoFarEnds(r: int, ys: seq<int>, x: int, y: int, d: int)
    requires OctantSoFar(r, ys, x, y, d) && y < x
    ensures IsOctant(r, ys)
  {
    OctantEnds(r, x, y, d);
    hide OctantState, Nearest;
  }

  /** Whether the ordinate drops by one after column `x`: the true one has by the next midpoint. */
  predicate Drops(r: int, x: int, y: int) {
    r * r - (x + 1) * (x + 1) <= y * y - y
  }

  /** The decision variable decides just that. */
  lemma DropsExactly(r: int, x: int, y: int, d: int)
    requires OctantState(r, x, y, d)
    ensures d >= 0 <==> Drops(r, x, y)
  {
    assert (y - 1) * (y - 1) == y * y - 2 * y + 1;
    assert 2 * (x + 1) * (x + 1) == 2 * ((x + 1) * (x + 1)) && 2 * r * r == 2 * (r * r);
  }

  lemma OutlineMore(c: Point, ys: seq<int>, y: int, mask: bv8)
    ensures Outline(c, ys + [y], mask) == Outline(c, ys, mask) + Reflections(c, |ys|, y, mask)
  {
    assert (ys + [y])[..|ys|] == ys;
  }

  /** `ys` are the ordinates of the octant drawn, if the circle is drawn at all. */
  method DrawCircle(e: Engine, x: int, y: int, radius: int, color: Pixel, mask: bv8) returns (ghost ys: seq<int>)
    requires e.Valid()
    modifies e`drawn, e.pixels
    ensures e.Valid()
    ensures OffTarget(e.width, e.height, Point(x, y), radius) ==> e.drawn == old(e.drawn)
    ensures !OffTarget(e.width, e.height, Point(x, y), radius) && radius == 0 ==>
      Drew(old(e.drawn), [Point(x, y)], color, e.drawn)
    ensures !OffTarget(e.width, e.height, Point(x, y), radius) && radius > 0 ==>
      IsOctant(radius, ys) && Drew(old(e.drawn), Outline(Point(x, y), ys, mask), color, e.drawn)
  {
    ys := [];
    if OffTarget(e.width, e.height, Point(x, y), radius) {
      return;
    }
    ghost var c, before := Point(x, y), e.drawn;
    DrewNothing(before, color);
    if radius > 0 {
      var x0, y0, d := 0, radius, 3 - 2 * radius;
      SoFarStarts(radius);
      hide Drew, Engine.Valid, OctantSoFar, IsOctant, Reflections, Drops;
      while y0 >= x0
        invariant x0 >= 0 && OctantSoFar(radius, ys, x0, y0, d)
        invariant |ys| == x0
        invariant e.Valid() && Drew(before, Outline(c, ys, mask), color, e.drawn)
        decreases y0 - x0
      {
        ghost var mid := e.drawn;
        DrawReflections(e, Point(x, y), x0, y0, color, mask);
        DrewThen(before, Outline(c, ys, mask), mid, Reflections(c, x0, y0, mask), e.drawn, color);
        OutlineMore(c, ys, y0, mask);
        SoFarSteps(radius, ys, x0, y0, d);
        ys := ys + [y0];
        if d < 0 {
          d := d + 4 * x0 + 6;
        } else {
          d := d + 4 * (x0 - y0) + 10;
          y0 := y0 - 1;
        }
        x0 := x0 + 1;
      }
      SoFarEnds(radius, ys, x0, y0, d);
    } else {
      var _ := e.Draw(x, y, color);
      DrewOne(before, c, color, e.drawn);
    }
  }

  // ---- The shape of the octant ----

  /** The next ordinate of the octant is the same or, exactly after a drop, one less. */
  lemma NextOrdinate(r: int, x: int, y: int, z: int)
    requires 0 <= x <= y && x + 1 <= z && Nearest(r, x, y) && Nearest(r, x + 1, z)
    ensures z == if Drops(r, x, y) then y - 1 else y
  {
    assert (x + 1) * (x + 1) == x * x + 2 * x + 1;
    if z > y {
      PronicGrows(y, z);
    } else if z < y {
      var w := y - 1;
      assert w * w - w == y * y - 3 * y + 2;
      PronicGrows(z, w);
      PronicGrows(z, y);
    }
  }

  /** The last ordinate is on the diagonal or one above, and then a drop ends the octant. */
  lemma LastOrdinate(r: int, x: int, y: int)
    requires 0 <= x <= y && Nearest(r, x, y)
    requires NoneFrom(r, x + 1)
    ensures y == x || (y == x + 1 && Drops(r, x, y))
  {
    assert (x + 1) * (x + 1) == x * x + 2 * x + 1;
    assert y >= x + 1 ==> !Nearest(r, x + 1, y);
    var w := y - 1;
    assert w * w - w == y * y - 3 * y + 2 && w * w + w == y * y - y;
    assert w >= x + 1 ==> !Nearest(r, x + 1, w);
  }

  /** The ordinates begin at the radius, never rise, fall in steps of one and end at the diagonal. */
  lemma OctantShape(r: int, ys: seq<int>)
    requires r > 0 && IsOctant(r, ys)
    ensures |ys| > 0 && ys[0] == r && |ys| - 1 <= ys[|ys| - 1] <= |ys|
    ensures forall i :: 0 <= i < |ys| - 1 ==> ys[i + 1] == if Drops(r, i, ys[i]) then ys[i] - 1 else ys[i]
    ensures var n := |ys|; ys[n - 1] == n ==> Drops(r, n - 1, n)
  {
    var n := |ys|;
    assert Nearest(r, 0, r);
    NearestUnique(r, 0, r, ys[0]);
    forall i | 0 <= i < n - 1 ensures ys[i + 1] == if Drops(r, i, ys[i]) then ys[i] - 1 else ys[i] {
      hide Nearest, Drops;
      NextOrdinate(r, i, ys[i], ys[i + 1]);
    }
    hide Nearest, Drops;
    LastOrdinate(r, n - 1, ys[n - 1]);
  }

  lemma {:induction false} NeverRises(r: int, ys: seq<int>, i: nat, j: nat)
    requires r > 0 && IsOctant(r, ys) && i <= j < |ys|
    ensures ys[j] <= ys[i] <= r
    ensures i < j && Drops(r, i, ys[i]) ==> ys[j] < ys[i]
    decreases j
  {
    OctantShape(r, ys);
    hide IsOctant, Drops;
    if i < j {
      NeverRises(r, ys, i, j - 1);
    } else if i > 0 {
      NeverRises(r, ys, i - 1, i - 1);
    }
  }

  // ---- The outline of a full circle ----

  /** `p` is a reflection of the octant point (x, y) about `c`. */
  predicate Reflects(c: Point, p: Point, x: int, y: int) {
    var dx, dy := Abs(p.x - c.x), Abs(p.y - c.y);
    (dx == x && dy == y) || (dx == y && dy == x)
  }

  lemma FullEven(c: Point, x: int, y: int)
    ensures Even(c, x, y, 0xFF) ==
      [Point(c.x + x, c.y - y), Point(c.x + y, c.y + x), Point(c.x - x, c.y + y), Point(c.x - y, c.y - x)]
    ensures Odd(c, x, y, 0xFF) ==
      [Point(c.x + y, c.y - x), Point(c.x + x, c.y + y), Point(c.x - y, c.y + x), Point(c.x - x, c.y - y)]
  {
  }

  lemma EvenOddMembers(c: Point, x: int, y: int, p: Point)
    requires 0 <= x <= y
    ensures p in Even(c, x, y, 0xFF) || p in Odd(c, x, y, 0xFF) <==> Reflects(c, p, x, y)
    ensures x == 0 || x == y ==> (p in Even(c, x, y, 0xFF) <==> Reflects(c, p, x, y))
  {
    FullEven(c, x, y);
    hide Even, Odd;
  }

  lemma ReflectionsMembers(c: Point, x: int, y: int, p: Point)
    requires 0 <= x <= y
    ensures p in Reflections(c, x, y, 0xFF) <==> Reflects(c, p, x, y)
  {
    EvenOddMembers(c, x, y, p);
    hide Even, Odd, Reflects;
  }

  lemma ReflectionsDistinct(c: Point, x: int, y: int)
    requires 0 <= x <= y && 0 < y
    ensures NoDuplicates(Reflections(c, x, y, 0xFF))
  {
    FullEven(c, x, y);
    hide Even, Odd;
    if x != 0 && x != y {
      NoDuplicatesConcat(Even(c, x, y, 0xFF), Odd(c, x, y, 0xFF));
    }
  }

  lemma {:induction false} OutlineMembers(c: Point, ys: seq<int>, p: Point)
    requires forall i :: 0 <= i < |ys| ==> i <= ys[i]
    ensures p in Outline(c, ys, 0xFF) <==> exists i :: OnRing(c, ys, p, i)
  {
    hide Reflections, Reflects;
    if ys != [] {
      var n := |ys| - 1;
      OutlineMembers(c, ys[..n], p);
      ReflectionsMembers(c, n, ys[n], p);
      assert forall i :: 0 <= i < n ==> ys[..n][i] == ys[i];
      assert forall i :: OnRing(c, ys[..n], p, i) ==> OnRing(c, ys, p, i);
      assert forall i :: OnRing(c, ys, p, i) && i != n ==> OnRing(c, ys[..n], p, i);
      assert Reflects(c, p, n, ys[n]) <==> OnRing(c, ys, p, n);
    }
  }

  /** `p` is a reflection of the octant point of column `i`. */
  ghost predicate OnRing(c: Point, ys: seq<int>, p: Point, i: int) {
    0 <= i < |ys| && Reflects(c, p, i, ys[i])
  }

  /** A full outline plots no pixel twice. */
  lemma {:induction false} OutlineDistinct(c: Point, ys: seq<int>)
    requires forall i :: 0 <= i < |ys| ==> i <= ys[i] && 0 < ys[i]
    ensures NoDuplicates(Outline(c, ys, 0xFF))
  {
    hide Reflections;
    if ys != [] {
      var n := |ys| - 1;
      OutlineDistinct(c, ys[..n]);
      ReflectionsDistinct(c, n, ys[n]);
      forall p ensures p in Outline(c, ys[..n], 0xFF) ==> p !in Reflections(c, n, ys[n], 0xFF) {
        OutlineMembers(c, ys[..n], p);
        ReflectionsMembers(c, n, ys[n], p);
      }
      NoDuplicatesConcat(Outline(c, ys[..n], 0xFF), Reflections(c, n, ys[n], 0xFF));
    }
  }

  /** A circle with the full mask plots no pixel twice, and none further out than the radius. */
  lemma OutlineOnce(c: Point, r: int, ys: seq<int>, p: Point)
    requires r > 0 && IsOctant(r, ys)
    ensures NoDuplicates(Outline(c, ys, 0xFF))
    ensures p in Outline(c, ys, 0xFF) ==> Abs(p.x - c.x) <= r && Abs(p.y - c.y) <= r
  {
    forall i | 0 <= i < |ys| ensures 0 < ys[i] <= r && i <= ys[i] {
      NeverRises(r, ys, i, i);
      OctantShape(r, ys);
    }
    hide IsOctant;
    OutlineDistinct(c, ys);
    OutlineMembers(c, ys, p);
    hide Outline;
  }

  // ---- The filled circle ----

  /** A row of the filled circle, relative to the centre: `half` pixels to either side. */
  datatype Bar = Bar(row: int, half: int)

  /** The rows through an octant point. */
  function Band(x0: int, y0: int): seq<Bar> {
    [Bar(-x0, y0)] + if x0 > 0 then [Bar(x0, y0)] else []
  }

  /** What one round of the loop draws. */
  function Rows(r: int, x0: int, y0: int): seq<Bar> {
    Band(x0, y0) + if Drops(r, x0, y0) && x0 != y0 then [Bar(-y0, x0), Bar(y0, x0)] else []
  }

  function Bars(r: int, ys: seq<int>): seq<Bar> {
    if ys == [] then [] else Bars(r, ys[..|ys| - 1]) + Rows(r, |ys| - 1, ys[|ys| - 1])
  }

  function BarSpan(c: Point, b: Bar): seq<Point> {
    Span(c.x - b.half, c.x + b.half, c.y + b.row)
  }

  function Fill(c: Point, bars: seq<Bar>): seq<Point> {
    if bars == [] then [] else Fill(c, bars[..|bars| - 1]) + BarSpan(c, bars[|bars| - 1])
  }

  lemma FillMore(c: Point, bars: seq<Bar>, b: Bar)
    ensures Fill(c, bars + [b]) == Fill(c, bars) + BarSpan(c, b)
  {
    assert (bars + [b])[..|bars|] == bars;
  }

  lemma BarsMore(r: int, ys: seq<int>, y: int)
    ensures Bars(r, ys + [y]) == Bars(r, ys) + Rows(r, |ys|, y)
  {
    assert (ys + [y])[..|ys|] == ys;
  }

  method DrawBar(e: Engine, c: Point, sx: int, ex: int, y: int, color: Pixel, ghost before: seq<Dot>,
                 ghost done: seq<Bar>, ghost b: Bar)
    requires e.Valid() && Drew(before, Fill(c, done), color, e.drawn)
    requires sx == c.x - b.half && ex == c.x + b.half && y == c.y + b.row
    modifies e`drawn, e.pixels
    ensures e.Valid() && Drew(before, Fill(c, done + [b]), color, e.drawn)
  {
    ghost var mid := e.drawn;
    DrawSpan(e, sx, ex, y, color);
    hide Drew, Engine.Valid, Fill;
    DrewThen(before, Fill(c, done), mid, BarSpan(c, b), e.drawn, color);
    FillMore(c, done, b);
  }

  /** The pair of rows drawn when the ordinate drops. */
  method DrawCaps(e: Engine, x: int, y: int, x0: int, y0: int, color: Pixel, ghost before: seq<Dot>,
                  ghost done: seq<Bar>)
    requires e.Valid() && Drew(before, Fill(Point(x, y), done), color, e.drawn)
    modifies e`drawn, e.pixels
    ensures e.Valid() && Drew(before, Fill(Point(x, y), done + [Bar(-y0, x0), Bar(y0, x0)]), color, e.drawn)
  {
    hide Drew, Engine.Valid, Fill;
    DrawBar(e, Point(x, y), x - x0, x + x0, y - y0, color, before, done, Bar(-y0, x0));
    DrawBar(e, Point(x, y), x - x0, x + x0, y + y0, color, before, done + [Bar(-y0, x0)], Bar(y0, x0));
    assert done + [Bar(-y0, x0)] + [Bar(y0, x0)] == done + [Bar(-y0, x0), Bar(y0, x0)];
  }

  /** The rows through the octant point itself. */
  method DrawBand(e: Engine, x: int, y: int, x0: int, y0: int, color: Pixel, ghost before: seq<Dot>,
                  ghost done: seq<Bar>)
    requires e.Valid() && Drew(before, Fill(Point(x, y), done), color, e.drawn)
    modifies e`drawn, e.pixels
    ensures e.Valid()
    ensures Drew(before, Fill(Point(x, y), done + Band(x0, y0)), color, e.drawn)
  {
    hide Drew, Engine.Valid, Fill;
    DrawBar(e, Point(x, y), x - y0, x + y0, y - x0, color, before, done, Bar(-x0, y0));
    if x0 > 0 {
      DrawBar(e, Point(x, y), x - y0, x + y0, y + x0, color, before, done + [Bar(-x0, y0)], Bar(x0, y0));
      assert done + [Bar(-x0, y0)] + [Bar(x0, y0)] == done + ([Bar(-x0, y0)] + [Bar(x0, y0)]);
    } else {
      assert done + [Bar(-x0, y0)] == done + ([Bar(-x0, y0)] + []);
    }
  }

  /** One round of the loop, but for moving on to the next column. */
  method FillRound(e: Engine, x: int, y: int, x0: int, y0: int, d: int, color: Pixel,
                   ghost r: int, ghost before: seq<Dot>, ghost done: seq<Bar>)
    returns (y0': int, d': int)
    requires e.Valid() && Drew(before, Fill(Point(x, y), done), color, e.drawn) && (d >= 0 <==> Drops(r, x0, y0))
    modifies e`drawn, e.pixels
    ensures e.Valid() && Drew(before, Fill(Point(x, y), done + Rows(r, x0, y0)), color, e.drawn)
    ensures y0' == if d < 0 then y0 else y0 - 1
    ensures d' == if d < 0 then d + 4 * x0 + 6 else d + 4 * (x0 - y0) + 10
  {
    hide Drew, Engine.Valid, Fill, Drops;
    ghost var band := Band(x0, y0);
    assert band + [] == band;
    DrawBand(e, x, y, x0, y0, color, before, done);
    if d < 0 {
      return y0, d + 4 * x0 + 6;
    }
    if x0 != y0 {
      DrawCaps(e, x, y, x0, y0, color, before, done + band);
      ConcatAssociative(done, band, [Bar(-y0, x0), Bar(y0, x0)]);
    }
    return y0 - 1, d + 4 * (x0 - y0) + 10;
  }

  method FillCircle(e: Engine, x: int, y: int, radius: int, color: Pixel) returns (ghost ys: seq<int>)
    requires e.Valid()
    modifies e`drawn, e.pixels
    ensures e.Valid()
    ensures OffTarget(e.width, e.height, Point(x, y), radius) ==> e.drawn == old(e.drawn)
    ensures !OffTarget(e.width, e.height, Point(x, y), radius) && radius == 0 ==>
      Drew(old(e.drawn), [Point(x, y)], color, e.drawn)
    ensures !OffTarget(e.width, e.height, Point(x, y), radius) && radius > 0 ==>
      IsOctant(radius, ys) && Drew(old(e.drawn), Fill(Point(x, y), Bars(radius, ys)), color, e.drawn)
  {
    ys := [];
    if OffTarget(e.width, e.height, Point(x, y), radius) {
      return;
    }
    ghost var c, before := Point(x, y), e.drawn;
    DrewNothing(before, color);
    if radius > 0 {
      var x0, y0, d := 0, radius, 3 - 2 * radius;
      SoFarStarts(radius);
      hide Drew, Engine.Valid, OctantSoFar, IsOctant, Drops, Fill, Bars, Rows;
      while y0 >= x0
        invariant x0 >= 0 && OctantSoFar(radius, ys, x0, y0, d)
        invariant |ys| == x0
        invariant e.Valid() && Drew(before, Fill(c, Bars(radius, ys)), color, e.drawn)
        decreases y0 - x0
      {
        SoFarSteps(radius, ys, x0, y0, d);
        BarsMore(radius, ys, y0);
        ghost var done := Bars(radius, ys);
        ys := ys + [y0];
        y0, d := FillRound(e, x, y, x0, y0, d, color, radius, before, done);
        x0 := x0 + 1;
      }
      SoFarEnds(radius, ys, x0, y0, d);
    } else {
      var _ := e.Draw(x, y, color);
      DrewOne(before, c, color, e.drawn);
    }
  }

  /** `b` is a row drawn in some round. */
  ghost predicate InRound(r: int, ys: seq<int>, b: Bar, i: int) {
    0 <= i < |ys| && b in Rows(r, i, ys[i])
  }

  lemma {:induction false} BarsMembers(r: int, ys: seq<int>, b: Bar)
    ensures b in Bars(r, ys) <==> exists i :: InRound(r, ys, b, i)
  {
    hide Rows;
    if ys != [] {
      var n := |ys| - 1;
      BarsMembers(r, ys[..n], b);
      assert forall i :: 0 <= i < n ==> ys[..n][i] == ys[i];
      assert forall i :: InRound(r, ys[..n], b, i) ==> InRound(r, ys, b, i);
      assert forall i :: InRound(r, ys, b, i) && i != n ==> InRound(r, ys[..n], b, i);
      assert b in Rows(r, n, ys[n]) <==> InRound(r, ys, b, n);
    }
  }

  /**
   What a round draws, seen from outside the loop: rows up to the last column, as wide as the
   octant there, and rows beyond, as wide as the last column with that ordinate.
   */
  lemma RoundRows(r: int, ys: seq<int>, b: Bar, i: nat)
    requires r > 0 && IsOctant(r, ys) && InRound(r, ys, b, i)
    ensures (Abs(b.row) == i && b.half == ys[i]) ||
      (Abs(b.row) == ys[i] >= |ys| && b.half == i && forall j :: i < j < |ys| ==> ys[j] < ys[i])
  {
    OctantShape(r, ys);
    assert i <= ys[i];
    var n := |ys|;
    NeverRises(r, ys, i, n - 1);
    forall j | i < j < n ensures ys[j] <= ys[i] && (Drops(r, i, ys[i]) ==> ys[j] < ys[i]) {
      NeverRises(r, ys, i, j);
    }
    hide IsOctant, Drops;
  }

  lemma RoundHasBand(r: int, ys: seq<int>, row: int)
    requires Abs(row) < |ys|
    ensures InRound(r, ys, Bar(row, ys[Abs(row)]), Abs(row))
  {
    hide Drops;
  }

  lemma RoundHasCap(r: int, ys: seq<int>, row: int, i: nat)
    requires i < |ys| && Abs(row) == ys[i] && i != ys[i] && Drops(r, i, ys[i])
    ensures InRound(r, ys, Bar(row, i), i)
  {
    hide Drops;
  }

  /** A row beyond the last column is drawn when the ordinate drops from it. */
  lemma {:induction false} RowBeyond(r: int, ys: seq<int>, row: int, i: nat) returns (b: Bar)
    requires r > 0 && IsOctant(r, ys) && i < |ys| <= Abs(row) <= ys[i]
    ensures b in Bars(r, ys) && b.row == row
    decreases |ys| - i
  {
    OctantShape(r, ys);
    hide IsOctant, Rows, Bars, Drops;
    if i + 1 < |ys| && ys[i + 1] >= Abs(row) {
      b := RowBeyond(r, ys, row, i + 1);
    } else {
      b := Bar(row, i);
      RoundHasCap(r, ys, row, i);
      BarsMembers(r, ys, b);
    }
  }

  /** Every row from -r to r is drawn, and no other. */
  lemma RowDrawnExactly(r: int, ys: seq<int>, row: int)
    requires r > 0 && IsOctant(r, ys)
    ensures -r <= row <= r <==> exists b :: b in Bars(r, ys) && b.row == row
  {
    OctantShape(r, ys);
    hide Rows, Bars, Drops;
    if -r <= row <= r {
      if Abs(row) < |ys| {
        RoundHasBand(r, ys, row);
        BarsMembers(r, ys, Bar(row, ys[Abs(row)]));
      } else {
        var b := RowBeyond(r, ys, row, 0);
      }
    }
    if b :| b in Bars(r, ys) && b.row == row {
      BarsMembers(r, ys, b);
      var i :| InRound(r, ys, b, i);
      RoundRows(r, ys, b, i);
      NeverRises(r, ys, i, i);
      assert i <= ys[i];
    }
  }

  /** Rows drawn in different rounds are different. */
  lemma RoundsApart(r: int, ys: seq<int>, a: Bar, i: nat, b: Bar, j: nat)
    requires r > 0 && IsOctant(r, ys) && InRound(r, ys, a, i) && InRound(r, ys, b, j) && i < j
    ensures a.row != b.row
  {
    RoundRows(r, ys, a, i);
    RoundRows(r, ys, b, j);
    hide Rows, IsOctant;
  }

  ghost predicate RowsDistinct(bars: seq<Bar>) {
    forall i, j :: 0 <= i < j < |bars| ==> bars[i].row != bars[j].row
  }

  lemma RoundDistinct(r: int, x0: int, y0: int)
    requires 0 <= x0 <= y0 && 0 < y0
    ensures RowsDistinct(Rows(r, x0, y0))
  {
    hide Drops;
  }

  lemma RowsDistinctConcat(a: seq<Bar>, b: seq<Bar>)
    requires RowsDistinct(a) && RowsDistinct(b)
    requires forall x, y :: x in a && y in b ==> x.row != y.row
    ensures RowsDistinct(a + b)
  {
    forall i, j | 0 <= i < |a| <= j < |a + b| ensures (a + b)[i].row != (a + b)[j].row {
      assert a[i] in a && b[j - |a|] in b;
    }
  }

  lemma {:induction false} BarsDistinct(r: int, ys: seq<int>, k: nat)
    requires r > 0 && IsOctant(r, ys) && k <= |ys|
    ensures RowsDistinct(Bars(r, ys[..k]))
  {
    if k > 0 {
      var front := ys[..k - 1];
      assert ys[..k] == front + [ys[k - 1]];
      BarsMore(r, front, ys[k - 1]);
      BarsDistinct(r, ys, k - 1);
      OctantShape(r, ys);
      assert k - 1 <= ys[k - 1] && (k == 1 ==> ys[0] == r);
      RoundDistinct(r, k - 1, ys[k - 1]);
      hide IsOctant, Rows, Drops, Bars;
      forall a, b | a in Bars(r, front) && b in Rows(r, k - 1, ys[k - 1]) ensures a.row != b.row {
        BarsMembers(r, front, a);
        var i :| InRound(r, front, a, i);
        assert InRound(r, ys, a, i) && InRound(r, ys, b, k - 1);
        RoundsApart(r, ys, a, i, b, k - 1);
      }
      RowsDistinctConcat(Bars(r, front), Rows(r, k - 1, ys[k - 1]));
    }
  }

  /** Each row is drawn once. */
  lemma RowsOnce(r: int, ys: seq<int>)
    requires r > 0 && IsOctant(r, ys)
    ensures RowsDistinct(Bars(r, ys))
    ensures forall row :: -r <= row <= r <==> HasRow(Bars(r, ys), row)
  {
    BarsDistinct(r, ys, |ys|);
    assert ys[..|ys|] == ys;
    hide IsOctant, Bars;
    forall row ensures -r <= row <= r <==> HasRow(Bars(r, ys), row) {
      RowDrawnExactly(r, ys, row);
    }
  }

  ghost predicate HasRow(bars: seq<Bar>, row: int) {
    exists b :: b in bars && b.row == row
  }

  /**
   A row of the filled circle ends at the outermost pixels that the outline has on it: they are on
   the outline, and no pixel of the outline on that row lies further out.
   */
  lemma RowEndsOnOutline(c: Point, r: int, ys: seq<int>, b: Bar)
    requires r > 0 && IsOctant(r, ys) && b in Bars(r, ys)
    ensures b.half >= 0
    ensures Point(c.x - b.half, c.y + b.row) in Outline(c, ys, 0xFF)
    ensures Point(c.x + b.half, c.y + b.row) in Outline(c, ys, 0xFF)
    ensures forall p :: p in Outline(c, ys, 0xFF) && p.y == c.y + b.row ==> Abs(p.x - c.x) <= b.half
  {
    hide Bars, Outline, IsOctant, InRound, OnRing;
    BarsMembers(r, ys, b);
    var i :| InRound(r, ys, b, i);
    EndsOnRing(c, r, ys, b, i);
    OctantAboveDiagonal(r, ys);
    OutlineMembers(c, ys, Point(c.x - b.half, c.y + b.row));
    OutlineMembers(c, ys, Point(c.x + b.half, c.y + b.row));
    forall p | p in Outline(c, ys, 0xFF) && p.y == c.y + b.row ensures Abs(p.x - c.x) <= b.half {
      OutlineMembers(c, ys, p);
      var j :| OnRing(c, ys, p, j);
      NoneFurtherOut(c, r, ys, b, i, p, j);
    }
  }

  lemma OctantAboveDiagonal(r: int, ys: seq<int>)
    requires IsOctant(r, ys)
    ensures forall j :: 0 <= j < |ys| ==> j <= ys[j]
  {
  }

  lemma EndsOnRing(c: Point, r: int, ys: seq<int>, b: Bar, i: int)
    requires r > 0 && IsOctant(r, ys) && InRound(r, ys, b, i)
    ensures b.half >= 0
    ensures OnRing(c, ys, Point(c.x - b.half, c.y + b.row), i) && OnRing(c, ys, Point(c.x + b.half, c.y + b.row), i)
  {
    RoundRows(r, ys, b, i);
    assert i <= ys[i];
    hide IsOctant, Rows;
  }

  lemma NoneFurtherOut(c: Point, r: int, ys: seq<int>, b: Bar, i: int, p: Point, j: int)
    requires r > 0 && IsOctant(r, ys) && InRound(r, ys, b, i) && OnRing(c, ys, p, j) && p.y == c.y + b.row
    ensures Abs(p.x - c.x) <= b.half
  {
    RoundRows(r, ys, b, i);
    assert i <= ys[i] && j <= ys[j];
    hide Rows, IsOctant;
  }

  lemma {:induction false} FillMembers(c: Point, bars: seq<Bar>, p: Point)
    ensures p in Fill(c, bars) <==> exists b :: b in bars && InBar(c, b, p)
  {
    if bars != [] {
      var n := |bars| - 1;
      FillMembers(c, bars[..n], p);
      InSpan(c.x - bars[n].half, c.x + bars[n].half, c.y + bars[n].row, p);
      assert bars == bars[..n] + [bars[n]];
      hide Span;
      assert bars[n] in bars;
    }
  }

  predicate InBar(c: Point, b: Bar, p: Point) {
    p.y == c.y + b.row && c.x - b.half <= p.x <= c.x + b.half
  }

  lemma {:induction false} FillDistinct(c: Point, bars: seq<Bar>)
    requires RowsDistinct(bars)
    ensures NoDuplicates(Fill(c, bars))
  {
    if bars != [] {
      var n := |bars| - 1;
      FillDistinct(c, bars[..n]);
      assert NoDuplicates(BarSpan(c, bars[n]));
      forall p ensures p in Fill(c, bars[..n]) ==> p !in BarSpan(c, bars[n]) {
        FillMembers(c, bars[..n], p);
        InSpan(c.x - bars[n].half, c.x + bars[n].half, c.y + bars[n].row, p);
      }
      NoDuplicatesConcat(Fill(c, bars[..n]), BarSpan(c, bars[n]));
    }
  }

  /** `p` lies on its row between two pixels of the outline. */
  ghost predicate Enclosed(c: Point, ys: seq<int>, p: Point) {
    exists a, b :: a in Outline(c, ys, 0xFF) && b in Outline(c, ys, 0xFF) && a.y == p.y == b.y && a.x <= p.x <= b.x
  }

  /** The filled circle draws no pixel twice. */
  lemma FilledOnce(c: Point, r: int, ys: seq<int>)
    requires r > 0 && IsOctant(r, ys)
    ensures NoDuplicates(Fill(c, Bars(r, ys)))
  {
    RowsOnce(r, ys);
    FillDistinct(c, Bars(r, ys));
  }

  lemma FilledIsEnclosed(c: Point, r: int, ys: seq<int>, p: Point)
    requires r > 0 && IsOctant(r, ys)
    ensures p in Fill(c, Bars(r, ys)) ==> Enclosed(c, ys, p)
  {
    hide Bars, Fill, IsOctant, Outline;
    FillMembers(c, Bars(r, ys), p);
    if p in Fill(c, Bars(r, ys)) {
      var b :| b in Bars(r, ys) && InBar(c, b, p);
      RowEndsOnOutline(c, r, ys, b);
    }
  }

  lemma EnclosedIsFilled(c: Point, r: int, ys: seq<int>, p: Point)
    requires r > 0 && IsOctant(r, ys)
    ensures Enclosed(c, ys, p) ==> p in Fill(c, Bars(r, ys))
  {
    hide Bars, Fill, IsOctant, Outline;
    if Enclosed(c, ys, p) {
      var s, t :| s in Outline(c, ys, 0xFF) && t in Outline(c, ys, 0xFF) && s.y == p.y == t.y && s.x <= p.x <= t.x;
      OutlineOnce(c, r, ys, s);
      RowDrawnExactly(r, ys, p.y - c.y);
      var b :| b in Bars(r, ys) && b.row == p.y - c.y;
      RowEndsOnOutline(c, r, ys, b);
      FillMembers(c, Bars(r, ys), p);
      assert InBar(c, b, p);
    }
  }

  /** The filled circle draws each pixel of the outline and of its inside, and no other. */
  lemma FilledExactly(c: Point, r: int, ys: seq<int>, p: Point)
    requires r > 0 && IsOctant(r, ys)
    ensures p in Fill(c, Bars(r, ys)) <==> Enclosed(c, ys, p)
  {
    FilledIsEnclosed(c, r, ys, p);
    EnclosedIsFilled(c, r, ys, p);
  }

  // ---- The mask ----

  /**
   The mask bit of the octant that a point lies in, as seen from the centre: clockwise from the one
   right of the top.  Each axis and each diagonal belongs to one of the bits 1, 4, 16 and 64.
   */
  function OctantOf(dx: int, dy: int): bv8 {
    if 0 <= dx <= -dy then 0x01
    else if 0 <= dy <= dx then 0x04
    else if 0 <= -dx <= dy then 0x10
    else if 0 <= -dy <= -dx then 0x40
    else if dx > 0 && dy < 0 then 0x02
    else if dx > 0 then 0x08
    else if dy > 0 then 0x20
    else 0x80
  }

  predicate Asked(c: Point, mask: bv8, p: Point) {
    Asks(mask, OctantOf(p.x - c.x, p.y - c.y))
  }

  lemma EvenAsked(c: Point, x: int, y: int, mask: bv8, p: Point)
    ensures p in Even(c, x, y, mask) <==>
      || (p == Point(c.x + x, c.y - y) && Asks(mask, 0x01))
      || (p == Point(c.x + y, c.y + x) && Asks(mask, 0x04))
      || (p == Point(c.x - x, c.y + y) && Asks(mask, 0x10))
      || (p == Point(c.x - y, c.y - x) && Asks(mask, 0x40))
  {
    hide Asks;
  }

  lemma OddAsked(c: Point, x: int, y: int, mask: bv8, p: Point)
    ensures p in Odd(c, x, y, mask) <==>
      || (p == Point(c.x + y, c.y - x) && Asks(mask, 0x02))
      || (p == Point(c.x + x, c.y + y) && Asks(mask, 0x08))
      || (p == Point(c.x - y, c.y + x) && Asks(mask, 0x20))
      || (p == Point(c.x - x, c.y - y) && Asks(mask, 0x80))
  {
    hide Asks;
  }

  lemma ReflectionsAsked(c: Point, x: int, y: int, mask: bv8, p: Point)
    requires 0 <= x <= y && 0 < y
    ensures p in Reflections(c, x, y, mask) <==> Reflects(c, p, x, y) && Asked(c, mask, p)
  {
    EvenAsked(c, x, y, mask, p);
    OddAsked(c, x, y, mask, p);
    hide Even, Odd, Asks;
  }

  /** Of the full circle exactly the pixels in the octants that the mask asks for are drawn. */
  lemma {:induction false} MaskExactly(c: Point, ys: seq<int>, mask: bv8, p: Point)
    requires forall i :: 0 <= i < |ys| ==> i <= ys[i] && 0 < ys[i]
    ensures p in Outline(c, ys, mask) <==> p in Outline(c, ys, 0xFF) && Asked(c, mask, p)
  {
    hide Reflections, Reflects, Asked;
    if ys != [] {
      var n := |ys| - 1;
      MaskExactly(c, ys[..n], mask, p);
      ReflectionsAsked(c, n, ys[n], mask, p);
      ReflectionsMembers(c, n, ys[n], p);
    }
  }

  lemma OctantAllowed(r: int, ys: seq<int>)
    requires r > 0 && IsOctant(r, ys)
    ensures forall i :: 0 <= i < |ys| ==> i <= ys[i] && 0 < ys[i]
  {
    OctantShape(r, ys);
  }

  /** So it is of every circle that is drawn. */
  lemma MaskShows(c: Point, r: int, ys: seq<int>, mask: bv8, p: Point)
    requires r > 0 && IsOctant(r, ys)
    ensures p in Outline(c, ys, mask) <==> p in Outline(c, ys, 0xFF) && Asked(c, mask, p)
  {
    OctantAllowed(r, ys);
    hide IsOctant, Outline, Asked;
    MaskExactly(c, ys, mask, p);
  }

  // ---- The early return ----

  /** Nothing drawn, for whatever mask, is further out than the radius. */
  lemma DrawnWithin(c: Point, r: int, ys: seq<int>, mask: bv8, p: Point)
    requires r > 0 && IsOctant(r, ys)
    requires p in Outline(c, ys, mask) || p in Fill(c, Bars(r, ys))
    ensures Abs(p.x - c.x) <= r && Abs(p.y - c.y) <= r
  {
    hide IsOctant, Outline, Fill, Bars;
    if p in Outline(c, ys, mask) {
      MaskShows(c, r, ys, mask, p);
      OutlineOnce(c, r, ys, p);
    } else {
      FilledExactly(c, r, ys, p);
      var a, b :| a in Outline(c, ys, 0xFF) && b in Outline(c, ys, 0xFF) && a.y == p.y == b.y && a.x <= p.x <= b.x;
      OutlineOnce(c, r, ys, a);
      OutlineOnce(c, r, ys, b);
    }
  }

  /** What the circle of radius `r`, or its filling, would consist of. */
  ghost predicate Belongs(c: Point, r: int, mask: bv8, p: Point) {
    if r > 0 then exists ys :: IsOctant(r, ys) && (p in Outline(c, ys, mask) || p in Fill(c, Bars(r, ys)))
    else r == 0 && p == c
  }

  /** The early returns of both functions discard nothing that would be seen. */
  lemma OffTargetHidesNothing(image: Image, c: Point, r: int, mask: bv8, p: Point)
    requires OffTarget(image.width, image.height, c, r) && Belongs(c, r, mask, p)
    ensures !image.Inside(p)
  {
    if r > 0 {
      var ys :| IsOctant(r, ys) && (p in Outline(c, ys, mask) || p in Fill(c, Bars(r, ys)));
      hide IsOctant, Outline, Fill, Bars;
      DrawnWithin(c, r, ys, mask, p);
    }
  }
}

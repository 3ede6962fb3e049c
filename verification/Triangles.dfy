/** Which pixels a filled triangle consists of. */
module Triangles {
  import opened DrawTargets
  import opened Rounding
  import opened Sequences
  import opened Spans
  import opened Edges

  /** A triangle with its vertices from top to bottom. */
  datatype Triangle = Triangle(a: Point, b: Point, c: Point)
  {
    predicate Sorted() {
      a.y <= b.y <= c.y
    }

    /** The edge all the way down. */
    function Long(): Edge {
      Edge(a, c)
    }

    /** The edge on the other side of row `y`. */
    function Short(y: int): Edge {
      if y < b.y then Edge(a, b) else Edge(b, c)
    }

    /** The span of row `y` reaches over all pixels of both edges on that row. */
    function Left(y: int): int {
      Min(Leftmost(Long(), y), Leftmost(Short(y), y))
    }

    function Right(y: int): int {
      Max(Rightmost(Long(), y), Rightmost(Short(y), y))
    }
  }

  function Leftmost(edge: Edge, y: int): int {
    var j := y - edge.from.y;
    Min(edge.X(First(edge.W(), edge.H(), j)), edge.X(Last(edge.W(), edge.H(), j)))
  }

  function Rightmost(edge: Edge, y: int): int {
    var j := y - edge.from.y;
    Max(edge.X(First(edge.W(), edge.H(), j)), edge.X(Last(edge.W(), edge.H(), j)))
  }

  /** The vertices sorted by row, as the three comparisons at the beginning do it. */
  function SortByRow(p: Point, q: Point, r: Point): (t: Triangle)
    ensures t.Sorted() && multiset{t.a, t.b, t.c} == multiset{p, q, r}
  {
    var (p, q) := if p.y > q.y then (q, p) else (p, q);
    var (p, r) := if p.y > r.y then (r, p) else (p, r);
    var (q, r) := if q.y > r.y then (r, q) else (q, r);
    Triangle(p, q, r)
  }

  function Row(t: Triangle, y: int): seq<Point> {
    Span(t.Left(y), t.Right(y), y)
  }

  /** The first `n` rows, from the top. */
  function Rows(t: Triangle, n: nat): seq<Point> {
    if n == 0 then [] else Rows(t, n - 1) + Row(t, t.a.y + n - 1)
  }

  /** The whole triangle. */
  function Filled(t: Triangle): seq<Point>
    requires t.Sorted()
  {
    Rows(t, t.c.y - t.a.y + 1)
  }

  // ---- The rows of an edge ----

  /** `p` is a pixel of the edge. */
  ghost predicate OnLine(edge: Edge, p: Point) {
    exists n :: At(edge, n, p)
  }

  ghost predicate At(edge: Edge, n: int, p: Point) {
    p.x == edge.X(n) && OnEdge(edge.W(), edge.H(), n, p.y - edge.from.y)
  }

  ghost predicate InRows(edge: Edge, y: int) {
    edge.from.y <= y <= edge.to.y
  }

  /** How many columns of the edge `p` is from its upper end. */
  function Columns(edge: Edge, p: Point): int {
    if edge.to.x < edge.from.x then edge.from.x - p.x else p.x - edge.from.x
  }

  lemma ColumnsOf(edge: Edge, p: Point, n: int)
    ensures p.x == edge.X(n) <==> n == Columns(edge, p)
  {
  }

  /** The columns between the outermost ones of a row. */
  lemma BetweenColumns(edge: Edge, p: Point)
    requires InRows(edge, p.y)
    ensures var w, h, j := edge.W(), edge.H(), p.y - edge.from.y;
      Leftmost(edge, p.y) <= p.x <= Rightmost(edge, p.y) <==> First(w, h, j) <= Columns(edge, p) <= Last(w, h, j)
    ensures Leftmost(edge, p.y) <= Rightmost(edge, p.y)
  {
    RowInside(edge.W(), edge.H(), p.y - edge.from.y);
    hide First, Last;
  }

  /** On each row the pixels of an edge are those between its outermost ones. */
  lemma EdgeRow(edge: Edge, p: Point)
    requires InRows(edge, p.y)
    ensures OnLine(edge, p) <==> Leftmost(edge, p.y) <= p.x <= Rightmost(edge, p.y)
  {
    var j := p.y - edge.from.y;
    BetweenColumns(edge, p);
    RowExactly(edge.W(), edge.H(), j, Columns(edge, p));
    hide First, Last, OnEdge, Leftmost, Rightmost;
    ColumnsOf(edge, p, Columns(edge, p));
    if At(edge, Columns(edge, p), p) {
    } else {
      forall n ensures !At(edge, n, p) {
        ColumnsOf(edge, p, n);
      }
    }
  }

  lemma EdgeRowEnds(edge: Edge, y: int)
    requires InRows(edge, y)
    ensures OnLine(edge, Point(Leftmost(edge, y), y)) && OnLine(edge, Point(Rightmost(edge, y), y))
  {
    var l, r := Point(Leftmost(edge, y), y), Point(Rightmost(edge, y), y);
    BetweenColumns(edge, l);
    EdgeRow(edge, l);
    EdgeRow(edge, r);
    hide Leftmost, Rightmost;
  }

  /** No pixel of an edge lies beside it. */
  lemma EdgeInside(edge: Edge, y: int)
    requires InRows(edge, y)
    ensures Min(edge.from.x, edge.to.x) <= Leftmost(edge, y) <= Rightmost(edge, y) <= Max(edge.from.x, edge.to.x)
    ensures y == edge.from.y ==> Leftmost(edge, y) <= edge.from.x <= Rightmost(edge, y)
    ensures y == edge.to.y ==> Leftmost(edge, y) <= edge.to.x <= Rightmost(edge, y)
    ensures edge.from.y == edge.to.y ==>
      (Leftmost(edge, y) == Min(edge.from.x, edge.to.x) && Rightmost(edge, y) == Max(edge.from.x, edge.to.x))
  {
    RowInside(edge.W(), edge.H(), y - edge.from.y);
    hide First, Last;
  }

  /** A pixel of an edge is within half a pixel of the true edge along the shorter axis. */
  lemma EdgeNear(edge: Edge, p: Point)
    requires edge.Downward() && OnLine(edge, p)
    ensures 2 * Abs(Cross(edge.from, edge.to, p)) <= if edge.Steep() then edge.H() else edge.W()
  {
    var n :| At(edge, n, p);
    ColumnsOf(edge, p, n);
    CrossIs(edge, p);
    NearestSteps(edge.W(), edge.H(), n, p.y - edge.from.y);
    hide OnEdge, Cross;
  }

  lemma TwiceProduct(a: int, b: int)
    ensures 2 * a * b == 2 * (b * a)
  {
  }

  lemma NearestSteps(w: nat, h: nat, n: int, j: int)
    requires OnEdge(w, h, n, j)
    ensures 2 * Abs(n * h - j * w) <= if h > w then h else w
  {
    if h > w {
      RoundHalfUpUnique(j * w, h, n);
      TwiceProduct(h, n);
    } else if w > 0 {
      RoundHalfUpUnique(n * h, w, j);
      TwiceProduct(w, j);
    }
    hide RoundHalfUp;
  }

  /** The side of an edge that `p` is on, in columns and rows from its upper end. */
  lemma CrossIs(edge: Edge, p: Point)
    requires edge.Downward()
    ensures var w, h, n, j := edge.W(), edge.H(), Columns(edge, p), p.y - edge.from.y;
      Cross(edge.from, edge.to, p) == if edge.to.x < edge.from.x then j * w - n * h else n * h - j * w
  {
    var n: int, h: int, w: int, j: int := Columns(edge, p), edge.H(), edge.W(), p.y - edge.from.y;
    assert (-n) * h == -(n * h) && j * (-w) == -(j * w);
  }

  /** A point on one side of an edge is not beyond the pixels of the edge on the other. */
  lemma BesideEdge(edge: Edge, p: Point)
    requires edge.from.y < edge.to.y && InRows(edge, p.y)
    ensures Cross(edge.from, edge.to, p) >= 0 ==> p.x >= Leftmost(edge, p.y)
    ensures Cross(edge.from, edge.to, p) <= 0 ==> p.x <= Rightmost(edge, p.y)
  {
    var w, h, n := edge.W(), edge.H(), Columns(edge, p);
    var j: nat := p.y - edge.from.y;
    CrossIs(edge, p);
    RowInside(w, h, j);
    if n * h >= j * w { BeyondCrossing(w, h, j, n); }
    if n * h <= j * w { BeforeCrossing(w, h, j, n); }
    hide First, Last, Cross;
  }

  // ---- The triangle ----

  /** Every row from the top vertex to the bottom one has its one span. */
  lemma RowPixels(t: Triangle, y: int)
    requires t.Sorted() && t.a.y <= y <= t.c.y
    ensures t.Left(y) <= t.Right(y) && InRows(t.Long(), y) && InRows(t.Short(y), y)
  {
    BetweenColumns(t.Long(), Point(0, y));
    hide Leftmost, Rightmost;
  }

  lemma {:induction false} RowsMembers(t: Triangle, n: nat, p: Point)
    ensures p in Rows(t, n) <==> t.a.y <= p.y < t.a.y + n && t.Left(p.y) <= p.x <= t.Right(p.y)
  {
    hide Triangle.Left, Triangle.Right;
    if n > 0 {
      RowsMembers(t, n - 1, p);
      var y := t.a.y + n - 1;
      InSpan(t.Left(y), t.Right(y), y, p);
      hide Span;
    }
  }

  /** The pixels drawn. */
  lemma FilledMembers(t: Triangle, p: Point)
    requires t.Sorted()
    ensures p in Filled(t) <==> t.a.y <= p.y <= t.c.y && t.Left(p.y) <= p.x <= t.Right(p.y)
  {
    RowsMembers(t, t.c.y - t.a.y + 1, p);
    hide Triangle.Left, Triangle.Right, Rows;
  }

  lemma {:induction false} RowsDistinct(t: Triangle, n: nat)
    ensures NoDuplicates(Rows(t, n))
  {
    hide Triangle.Left, Triangle.Right;
    if n > 0 {
      RowsDistinct(t, n - 1);
      var y := t.a.y + n - 1;
      assert NoDuplicates(Row(t, y));
      forall p ensures p in Rows(t, n - 1) ==> p !in Row(t, y) {
        RowsMembers(t, n - 1, p);
        InSpan(t.Left(y), t.Right(y), y, p);
      }
      NoDuplicatesConcat(Rows(t, n - 1), Row(t, y));
    }
  }

  /** No pixel is drawn twice, and every row from the smallest to the largest y is drawn. */
  lemma FilledOnce(t: Triangle, y: int)
    requires t.Sorted()
    ensures NoDuplicates(Filled(t))
    ensures t.a.y <= y <= t.c.y <==> exists p :: p in Filled(t) && p.y == y
  {
    RowsDistinct(t, t.c.y - t.a.y + 1);
    if t.a.y <= y <= t.c.y {
      RowPixels(t, y);
      FilledMembers(t, Point(t.Left(y), y));
    }
    if p :| p in Filled(t) && p.y == y {
      FilledMembers(t, p);
    }
  }

  /** `p` lies on its row between two pixels of the edges on either side. */
  ghost predicate Enclosed(t: Triangle, p: Point) {
    exists l, r | OnSides(t, l) && OnSides(t, r) :: l.y == p.y == r.y && l.x <= p.x <= r.x
  }

  ghost predicate OnSides(t: Triangle, p: Point) {
    OnLine(t.Long(), p) || OnLine(t.Short(p.y), p)
  }

  lemma FilledIsEnclosed(t: Triangle, p: Point)
    requires t.Sorted() && p in Filled(t)
    ensures Enclosed(t, p)
  {
    FilledMembers(t, p);
    RowPixels(t, p.y);
    EdgeRowEnds(t.Long(), p.y);
    EdgeRowEnds(t.Short(p.y), p.y);
    hide Filled, Leftmost, Rightmost, OnLine;
    assert OnSides(t, Point(t.Left(p.y), p.y)) && OnSides(t, Point(t.Right(p.y), p.y));
  }

  /** The pixels of the edges on a row are no further out than its span. */
  lemma SidesWithin(t: Triangle, p: Point)
    requires t.Sorted() && t.a.y <= p.y <= t.c.y && OnSides(t, p)
    ensures t.Left(p.y) <= p.x <= t.Right(p.y)
  {
    RowPixels(t, p.y);
    EdgeRow(t.Long(), p);
    EdgeRow(t.Short(p.y), p);
    hide Leftmost, Rightmost, OnLine;
  }

  /** The pixels of an edge lie in its rows. */
  lemma OnEdgeRows(w: nat, h: nat, n: int, j: int)
    requires OnEdge(w, h, n, j)
    ensures 0 <= j <= h
  {
    if h <= w && w > 0 {
      RoundsTo(n * h, w, j);
      assert n * h == h * n && w * h == h * w;
      if h > 0 && n < w { ProductOrder(n, w, h); }
      if n > 0 && h > 0 { TimesPositive(h, n); }
      if j < 0 { TimesNegative(w, j); }
      if j > h { ProductOrder(h, j, w); }
    }
    hide RoundHalfUp;
  }

  lemma SidesInRows(t: Triangle, p: Point)
    requires t.Sorted() && OnSides(t, p)
    ensures t.a.y <= p.y <= t.c.y
  {
    var edge := if OnLine(t.Long(), p) then t.Long() else t.Short(p.y);
    var n :| At(edge, n, p);
    OnEdgeRows(edge.W(), edge.H(), n, p.y - edge.from.y);
    hide OnEdge;
  }

  /** What is drawn are the pixels of the edges and those between them. */
  lemma FilledExactly(t: Triangle, p: Point)
    requires t.Sorted()
    ensures p in Filled(t) <==> Enclosed(t, p)
  {
    FilledMembers(t, p);
    hide Filled, OnSides, Triangle.Left, Triangle.Right;
    if p in Filled(t) {
      FilledIsEnclosed(t, p);
    }
    if Enclosed(t, p) {
      var l, r :| OnSides(t, l) && OnSides(t, r) && l.y == p.y == r.y && l.x <= p.x <= r.x;
      SidesInRows(t, l);
      SidesWithin(t, l);
      SidesWithin(t, r);
    }
  }

  /** Every span lies within the bounding box. */
  lemma FilledWithin(t: Triangle, p: Point)
    requires t.Sorted() && p in Filled(t)
    ensures Min(Min(t.a.x, t.b.x), t.c.x) <= p.x <= Max(Max(t.a.x, t.b.x), t.c.x)
    ensures t.a.y <= p.y <= t.c.y
  {
    FilledMembers(t, p);
    RowPixels(t, p.y);
    EdgeInside(t.Long(), p.y);
    EdgeInside(t.Short(p.y), p.y);
    hide Leftmost, Rightmost, Filled, InRows;
  }

  /** The vertices are drawn. */
  lemma VerticesFilled(t: Triangle)
    requires t.Sorted()
    ensures t.a in Filled(t) && t.b in Filled(t) && t.c in Filled(t)
  {
    EdgeInside(t.Long(), t.a.y);
    EdgeInside(t.Long(), t.c.y);
    EdgeInside(Edge(t.b, t.c), t.b.y);
    FilledMembers(t, t.a);
    FilledMembers(t, t.b);
    FilledMembers(t, t.c);
    hide Leftmost, Rightmost, Filled;
  }

  /** `p` belongs to the triangle: on the same side of all three edges, or on them. */
  predicate Inside(t: Triangle, p: Point) {
    var ab, bc, ca := Cross(t.a, t.b, p), Cross(t.b, t.c, p), Cross(t.c, t.a, p);
    && ((ab >= 0 && bc >= 0 && ca >= 0) || (ab <= 0 && bc <= 0 && ca <= 0))
    && t.a.y <= p.y <= t.c.y
    && Min(Min(t.a.x, t.b.x), t.c.x) <= p.x <= Max(Max(t.a.x, t.b.x), t.c.x)
  }

  /** Every point of the triangle is drawn. */
  lemma InsideIsFilled(t: Triangle, p: Point)
    requires t.Sorted() && Inside(t, p)
    ensures p in Filled(t)
  {
    FilledMembers(t, p);
    RowPixels(t, p.y);
    CrossBackwards(t.a, t.c, p);
    hide Filled;
    if t.a.y == t.c.y {
      EdgeInside(t.Long(), p.y);
      EdgeInside(t.Short(p.y), p.y);
    } else if p.y < t.b.y || t.b.y < t.c.y {
      BesideEdge(t.Long(), p);
      BesideEdge(t.Short(p.y), p);
    } else {
      EdgeInside(t.Short(p.y), p.y);
      FlatBottom(t, p);
    }
    hide Leftmost, Rightmost, Cross;
  }

  /** On a flat bottom the sides are told by the lower vertices. */
  lemma FlatBottom(t: Triangle, p: Point)
    requires t.a.y < t.b.y == t.c.y == p.y && Inside(t, p)
    ensures Min(t.b.x, t.c.x) <= p.x <= Max(t.b.x, t.c.x)
  {
    var h := t.b.y - t.a.y;
    assert Cross(t.a, t.b, p) == (p.x - t.b.x) * h;
    assert Cross(t.c, t.a, p) == (t.c.x - p.x) * h;
    SignOfProduct(p.x - t.b.x, h);
    SignOfProduct(t.c.x - p.x, h);
    hide Cross;
  }

  lemma SignOfProduct(a: int, h: int)
    requires h > 0
    ensures (a * h >= 0 <==> a >= 0) && (a * h <= 0 <==> a <= 0)
  {
    if a > 0 { TimesPositive(h, a); }
    if a < 0 { TimesNegative(h, a); }
    assert a * h == h * a;
  }
  // ---- The order of the vertices ----

  /** The triangle with its two later vertices exchanged. */
  function Exchanged(t: Triangle): Triangle {
    Triangle(t.a, t.c, t.b)
  }

  predicate FlatBottomed(t: Triangle) {
    t.a.y < t.b.y == t.c.y
  }

  /** How far the top vertex is beside the flat bottom, in columns. */
  function Overhang(t: Triangle): nat {
    var l, r := Min(t.b.x, t.c.x), Max(t.b.x, t.c.x);
    if t.a.x < l then l - t.a.x else if t.a.x > r then t.a.x - r else 0
  }

  /**
   Whether it does not matter which of the two lower vertices of a flat-bottomed triangle comes
   first: the top is not far enough beside the bottom for an edge to run along the bottom row, or
   the bottom is a point, or the one column it is wide makes up for the difference.
   */
  predicate Harmless(t: Triangle) {
    FlatBottomed(t) ==>
      var h, near := t.b.y - t.a.y, Overhang(t);
      var far := near + Abs(t.b.x - t.c.x);
      near < 2 * h || far == near || (far == near + 1 && far % (2 * h) == 0)
  }

  ghost predicate SamePixels(t: Triangle, u: Triangle)
    requires t.Sorted() && u.Sorted()
  {
    forall p :: p in Filled(t) <==> p in Filled(u)
  }

  /** How many columns back from its lower end an edge reaches on its last row. */
  function Reach(w: nat, h: nat): int
    requires h > 0
  {
    w / (2 * h)
  }

  lemma ReachBounds(w: nat, h: nat)
    requires h > 0
    ensures 0 <= 2 * h * Reach(w, h) <= w < 2 * h * Reach(w, h) + 2 * h
    ensures 0 <= Reach(w, h) <= w && (w < 2 * h ==> Reach(w, h) == 0)
  {
    var d, k := 2 * h, Reach(w, h);
    QuotientBounds(w, d);
    hide Reach;
    if k < 0 { TimesNegative(d, k); }
    if k > 0 { TimesPositive(d, k); }
    if k > 1 { TwiceAtLeast(d, k); }
  }

  lemma FirstOnLastRow(w: nat, h: nat)
    requires h > 0
    ensures First(w, h, h) == w - Reach(w, h) && Last(w, h, h) == w
  {
    RowInside(w, h, h);
    ReachBounds(w, h);
    if h > w {
      SteepInside(w, h, h);
    } else {
      FlatOnLastRow(w, h, Reach(w, h));
    }
    hide First, Reach;
  }

  lemma FlatOnLastRow(w: nat, h: nat, k: nat)
    requires 0 < h <= w && 2 * h * k <= w < 2 * h * k + 2 * h && k <= w
    ensures First(w, h, h) == w - k
  {
    hide First;
    assert 2 * h * k == 2 * (h * k);
    assert (w - k) * h == w * h - h * k;
    FirstNatural(w, h, h);
    FromFirst(w, h, h, w - k);
    if k < w {
      StepProducts(w - k - 1, h);
      FromFirst(w, h, h, w - k - 1);
    }
  }

  /** The columns of an edge on its last row. */
  lemma LastRowOf(edge: Edge)
    requires edge.from.y < edge.to.y
    ensures var k := Reach(edge.W(), edge.H());
      && Leftmost(edge, edge.to.y) == (if edge.to.x < edge.from.x then edge.to.x else edge.to.x - k)
      && Rightmost(edge, edge.to.y) == (if edge.to.x < edge.from.x then edge.to.x + k else edge.to.x)
  {
    FirstOnLastRow(edge.W(), edge.H());
    hide First, Last, Reach;
  }

  /** Two edges from far beside reach equally far past the nearer lower end in these cases only. */
  lemma ReachesAgree(near: nat, far: nat, h: nat)
    requires near <= far && h > 0
    ensures Reach(near, h) == Max(0, Reach(far, h) - (far - near)) <==>
      (near < 2 * h || far == near || (far == near + 1 && far % (2 * h) == 0))
  {
    var d, k, m := 2 * h, Reach(near, h), Reach(far, h);
    ReachBounds(near, h);
    ReachBounds(far, h);
    assert far % d == far - d * m;
    hide Reach;
    if k == 0 {
      TimesZero(d);
      NoReach(near, far, d, m);
    } else {
      TimesPositive(d, k);
      SomeReach(near, far, d, k, m);
    }
  }

  lemma TimesZero(d: int)
    ensures d * 0 == 0
  {
  }

  lemma NoReach(near: nat, far: nat, d: nat, m: nat)
    requires near <= far && near < d && 2 <= d && d * m <= far
    ensures m <= far - near
  {
    if m >= 2 {
      TwiceAtLeast(d, m);
    } else if m == 1 {
      assert d * m == d;
    }
  }

  /** Multiples of `d` that are no further apart than `near` and `far` force these to be close. */
  lemma SomeReach(near: nat, far: nat, d: nat, k: nat, m: nat)
    requires near <= far && 2 <= d && k > 0 && d * k <= near < d * k + d && d * m <= far < d * m + d
    ensures k == Max(0, m - (far - near)) <==> far == near || (far == near + 1 && far == d * m)
  {
    var b := far - near;
    assert d * (m - k) == d * m - d * k;
    if b == 0 {
      if k < m { ProductOrder(k, m, d); }
      if m < k { ProductOrder(m, k, d); }
    } else if b == 1 {
      if k < m { ProductOrder(k, m, d); }
      if k + 1 < m { ProductOrder(k + 1, m, d); StepProducts(k, d); }
      if m <= k && far == d * m { ProductOrder(m, k + 1, d); StepProducts(k, d); }
    } else if m - k == b {
      TwiceAtLeast(d, b);
    }
  }

  lemma TwiceAtLeast(d: nat, b: nat)
    requires d >= 2 && b >= 2
    ensures d * b >= b + d
  {
    assert (d - 1) * (b - 1) == d * b - d - b + 1;
    TimesPositive(d - 1, b - 1);
  }

  /** The bottom row of a flat-bottomed triangle: its flat edge, and what the long edge adds to it. */
  lemma BottomRow(t: Triangle)
    requires FlatBottomed(t)
    ensures var l, r, k := Min(t.b.x, t.c.x), Max(t.b.x, t.c.x), Reach(Abs(t.c.x - t.a.x), t.b.y - t.a.y);
      && t.Left(t.b.y) == (if t.a.x < l then Min(l, t.c.x - k) else l)
      && t.Right(t.b.y) == (if t.a.x > r then Max(r, t.c.x + k) else r)
  {
    EdgeInside(t.Short(t.b.y), t.b.y);
    LastRowOf(t.Long());
    ReachBounds(t.Long().W(), t.Long().H());
    hide Leftmost, Rightmost, Reach;
  }

  /** The longer edge reaches past the nearer lower vertex as far as the shorter one does. */
  lemma BesideBottom(near: nat, far: nat, h: nat)
    requires 0 < near <= far && h > 0
    ensures var k, m := Reach(near, h), Reach(far, h);
      && 0 <= k && 0 <= m
      && (k == Max(0, m - (far - near)) <==>
            (near < 2 * h || far == near || (far == near + 1 && far % (2 * h) == 0)))
  {
    ReachBounds(near, h);
    ReachBounds(far, h);
    ReachesAgree(near, far, h);
    hide Reach, Max;
  }

  /** Whether the two edges from the top reach equally far along the bottom row. */
  ghost predicate SameBottomRow(t: Triangle)
    requires FlatBottomed(t)
  {
    t.Left(t.b.y) == Exchanged(t).Left(t.b.y) && t.Right(t.b.y) == Exchanged(t).Right(t.b.y)
  }

  lemma TopOnTheRight(t: Triangle)
    requires FlatBottomed(t) && t.a.x > Max(t.b.x, t.c.x)
    ensures SameBottomRow(t) <==> Harmless(t)
  {
    BottomRow(t);
    BottomRow(Exchanged(t));
    BesideBottom(t.a.x - Max(t.b.x, t.c.x), t.a.x - Min(t.b.x, t.c.x), t.b.y - t.a.y);
    hide Reach, Triangle.Left, Triangle.Right, Triangle.Sorted;
  }

  lemma TopOnTheLeft(t: Triangle)
    requires FlatBottomed(t) && t.a.x < Min(t.b.x, t.c.x)
    ensures SameBottomRow(t) <==> Harmless(t)
  {
    BottomRow(t);
    BottomRow(Exchanged(t));
    BesideBottom(Min(t.b.x, t.c.x) - t.a.x, Max(t.b.x, t.c.x) - t.a.x, t.b.y - t.a.y);
    hide Reach, Triangle.Left, Triangle.Right, Triangle.Sorted;
    if t.b.x <= t.c.x {
      assert Overhang(t) == t.b.x - t.a.x;
    } else {
      assert Overhang(t) == t.c.x - t.a.x;
    }
  }

  lemma ExchangedBottomRow(t: Triangle)
    requires FlatBottomed(t)
    ensures SameBottomRow(t) <==> Harmless(t)
  {
    if t.a.x > Max(t.b.x, t.c.x) {
      TopOnTheRight(t);
    } else if t.a.x < Min(t.b.x, t.c.x) {
      TopOnTheLeft(t);
    } else {
      BottomRow(t);
      BottomRow(Exchanged(t));
      hide Reach, Triangle.Left, Triangle.Right, Triangle.Sorted;
    }
  }

  lemma ExchangedRow(t: Triangle, y: int)
    requires t.Sorted() && (FlatBottomed(t) ==> y < t.b.y) && t.a.y <= y <= t.c.y
    requires t.b.y == t.c.y
    ensures t.Left(y) == Exchanged(t).Left(y) && t.Right(y) == Exchanged(t).Right(y)
  {
    if t.a.y == t.c.y {
      EdgeInside(t.Long(), y);
      EdgeInside(Edge(t.a, t.b), y);
      EdgeInside(Edge(t.b, t.c), y);
      EdgeInside(Edge(t.c, t.b), y);
    }
    hide Leftmost, Rightmost;
  }

  lemma ExchangedExactly(t: Triangle)
    requires t.Sorted() && t.b.y == t.c.y
    ensures SamePixels(t, Exchanged(t)) <==> Harmless(t)
  {
    var u := Exchanged(t);
    hide Filled, Harmless, Triangle.Left, Triangle.Right;
    forall p | Harmless(t) ensures p in Filled(t) <==> p in Filled(u) {
      FilledMembers(t, p);
      FilledMembers(u, p);
      if t.a.y <= p.y <= t.c.y {
        if FlatBottomed(t) && p.y == t.b.y {
          ExchangedBottomRow(t);
        } else {
          ExchangedRow(t, p.y);
        }
      }
    }
    if !Harmless(t) {
      HarmfulIsFlat(t);
      ExchangedBottomRow(t);
      RowPixels(t, t.b.y);
      RowPixels(u, t.b.y);
      EndsTell(t, u, t.b.y);
    }
  }

  lemma HarmfulIsFlat(t: Triangle)
    requires !Harmless(t)
    ensures FlatBottomed(t) && t != Exchanged(t) && SortByRow(t.a, t.c, t.b) == Exchanged(t)
  {
  }

  /** Rows that reach differently far have different pixels. */
  lemma EndsTell(t: Triangle, u: Triangle, y: int)
    requires t.Sorted() && u.Sorted() && t.a.y <= y <= t.c.y && u.a.y <= y <= u.c.y
    requires t.Left(y) != u.Left(y) || t.Right(y) != u.Right(y)
    ensures !SamePixels(t, u)
  {
    var ends := [Point(t.Left(y), y), Point(t.Right(y), y), Point(u.Left(y), y), Point(u.Right(y), y)];
    RowPixels(t, y);
    RowPixels(u, y);
    hide Filled, Triangle.Left, Triangle.Right;
    forall i | 0 <= i < 4
      ensures ends[i] in Filled(t) <==> t.Left(y) <= ends[i].x <= t.Right(y)
      ensures ends[i] in Filled(u) <==> u.Left(y) <= ends[i].x <= u.Right(y)
    {
      FilledMembers(t, ends[i]);
      FilledMembers(u, ends[i]);
    }
    assert ends[0] == Point(t.Left(y), y) && ends[1] == Point(t.Right(y), y);
    assert ends[2] == Point(u.Left(y), y) && ends[3] == Point(u.Right(y), y);
  }

  /** Exchanging the upper vertices of a flat top changes nothing. */
  lemma FlatTop(t: Triangle, u: Triangle)
    requires t.Sorted() && t.a.y == t.b.y && u == Triangle(t.b, t.a, t.c)
    ensures t.a.y < t.c.y ==> SamePixels(t, u)
  {
    if t.a.y < t.c.y {
      forall p ensures p in Filled(t) <==> p in Filled(u) {
        FilledMembers(t, p);
        FilledMembers(u, p);
        hide Filled, Leftmost, Rightmost;
      }
    }
    hide Filled, Leftmost, Rightmost;
  }

  /** A triangle on one row is the run between its outermost vertices. */
  lemma OneRow(t: Triangle, p: Point)
    requires t.a.y == t.b.y == t.c.y
    ensures p in Filled(t) <==>
      p.y == t.a.y && Min(Min(t.a.x, t.b.x), t.c.x) <= p.x <= Max(Max(t.a.x, t.b.x), t.c.x)
  {
    FilledMembers(t, p);
    EdgeInside(t.Long(), t.a.y);
    EdgeInside(Edge(t.b, t.c), t.a.y);
    hide Leftmost, Rightmost, Filled;
  }

  lemma OneRowSame(t: Triangle, u: Triangle)
    requires t.a.y == t.b.y == t.c.y && t.Sorted() && u.Sorted() && SameVertices(t, u)
    ensures SamePixels(t, u)
  {
    OneRowEnds(t, u);
    forall p ensures p in Filled(t) <==> p in Filled(u) {
      OneRow(t, p);
      OneRow(u, p);
    }
    hide Filled, SameVertices, Min, Max;
  }

  lemma OneRowEnds(t: Triangle, u: Triangle)
    requires t.a.y == t.b.y == t.c.y && SameVertices(t, u)
    ensures u.a.y == u.b.y == u.c.y == t.a.y
    ensures Min(Min(u.a.x, u.b.x), u.c.x) == Min(Min(t.a.x, t.b.x), t.c.x)
    ensures Max(Max(u.a.x, u.b.x), u.c.x) == Max(Max(t.a.x, t.b.x), t.c.x)
  {
    Orders(t, u);
    hide SameVertices;
  }

  lemma SamePixelsAsItself(t: Triangle)
    requires t.Sorted()
    ensures SamePixels(t, t)
  {
  }

  ghost predicate SameVertices(t: Triangle, u: Triangle) {
    multiset{t.a, t.b, t.c} == multiset{u.a, u.b, u.c}
  }

  lemma OneOf(a: Point, b: Point, c: Point, d: Point, e: Point, f: Point)
    requires multiset{a, b, c} == multiset{d, e, f}
    ensures d == a || d == b || d == c
  {
    assert d in multiset{d, e, f};
  }

  lemma TwoOf(a: Point, b: Point, c: Point, d: Point, e: Point)
    requires multiset{a, b, c} == multiset{a, d, e}
    ensures (d == b && e == c) || (d == c && e == b)
  {
    assert multiset{b, c} == multiset{a, b, c} - multiset{a} == multiset{a, d, e} - multiset{a} == multiset{d, e};
    assert d in multiset{b, c} && e in multiset{b, c} && b in multiset{d, e} && c in multiset{d, e};
  }

  lemma Orders(t: Triangle, u: Triangle)
    requires SameVertices(t, u)
    ensures u in {t, Triangle(t.a, t.c, t.b), Triangle(t.b, t.a, t.c), Triangle(t.b, t.c, t.a),
                  Triangle(t.c, t.a, t.b), Triangle(t.c, t.b, t.a)}
  {
    OneOf(t.a, t.b, t.c, u.a, u.b, u.c);
    if u.a == t.a {
      TwoOf(t.a, t.b, t.c, u.b, u.c);
    } else if u.a == t.b {
      TwoOf(t.b, t.a, t.c, u.b, u.c);
    } else {
      TwoOf(t.c, t.a, t.b, u.b, u.c);
    }
  }

  /** Two orders of the same vertices give the same pixels exactly if it does not matter or they are sorted alike. */
  lemma OrderMatters(t: Triangle, u: Triangle)
    requires t.Sorted() && u.Sorted() && SameVertices(t, u)
    ensures SamePixels(t, u) <==> t == u || Harmless(t)
  {
    Orders(t, u);
    hide Filled, SameVertices, SamePixels;
    if t == u {
      SamePixelsAsItself(t);
    } else if t.a.y == t.c.y {
      OneRowSame(t, u);
    } else if t.a.y == t.b.y {
      FlatTop(t, u);
    } else {
      hide Harmless;
      ExchangedExactly(t);
    }
  }

  /** However the vertices are ordered, the pixels are those of `p`, `q`, `r`. */
  ghost predicate OrderIrrelevant(p: Point, q: Point, r: Point) {
    forall p', q', r' | multiset{p', q', r'} == multiset{p, q, r} ::
      SamePixels(SortByRow(p, q, r), SortByRow(p', q', r'))
  }

  lemma SortKeepsVertices(p: Point, q: Point, r: Point, p': Point, q': Point, r': Point)
    requires multiset{p', q', r'} == multiset{p, q, r}
    ensures SameVertices(SortByRow(p, q, r), SortByRow(p', q', r'))
  {
    hide SortByRow;
  }

  /** The order in which the vertices are given does not matter exactly if the sorted triangle is harmless. */
  lemma OrderIrrelevantExactly(p: Point, q: Point, r: Point)
    ensures OrderIrrelevant(p, q, r) <==> Harmless(SortByRow(p, q, r))
  {
    var t := SortByRow(p, q, r);
    hide SortByRow, Harmless, SamePixels, SameVertices;
    if Harmless(t) {
      forall p', q', r' | multiset{p', q', r'} == multiset{p, q, r} ensures SamePixels(t, SortByRow(p', q', r')) {
        SortKeepsVertices(p, q, r, p', q', r');
        OrderMatters(t, SortByRow(p', q', r'));
      }
    } else {
      HarmfulIsFlat(t);
      ExchangedExactly(t);
      assert multiset{t.a, t.c, t.b} == multiset{p, q, r};
      assert !SamePixels(t, SortByRow(t.a, t.c, t.b));
    }
  }

  /** Such a triangle: the pixel (5, 1) is drawn or not as the vertices are given. */
  lemma OrderMattersHere()
    ensures var t := Triangle(Point(0, 0), Point(10, 1), Point(12, 1));
      && t == SortByRow(t.a, t.b, t.c) && Exchanged(t) == SortByRow(t.a, t.c, t.b)
      && Point(5, 1) !in Filled(t) && Point(5, 1) in Filled(Exchanged(t))
  {
    var t := Triangle(Point(0, 0), Point(10, 1), Point(12, 1));
    hide Filled, Triangle.Left, Triangle.Right;
    BottomRow(t);
    BottomRow(Exchanged(t));
    assert t.Left(1) == 6 && Exchanged(t).Left(1) == 5 by { ReachesHere(); }
    FilledMembers(t, Point(5, 1));
    FilledMembers(Exchanged(t), Point(5, 1));
    assert Exchanged(t).Right(1) >= 10;
  }

  lemma ReachesHere()
    ensures Reach(12, 1) == 6 && Reach(10, 1) == 5
  {
  }
}

/** `FillTriangle`: two edges walked side by side, one horizontal span for every row. */
module FilledTriangles {
  import opened DrawTargets
  import opened Rounding
  import opened Spans
  import opened Edges
  import opened Triangles

  // ---- Walking one edge through one row ----

  /** The variables the walker of an edge is set up with. */
  ghost predicate SetUp(edge: Edge, d: int, s: int, changed: bool, sign: int) {
    && changed == edge.Steep() && sign == edge.Sign()
    && d == (if changed then edge.H() else edge.W()) && s == (if changed then edge.W() else edge.H())
  }

  /** The walker is at the first column of row `j`. */
  ghost predicate AtStart(edge: Edge, j: int, t: int, e: int) {
    && t == edge.X(First(edge.W(), edge.H(), j))
    && AtRow(edge.W(), edge.H(), j, First(edge.W(), edge.H(), j), e)
  }

  /** Where the walker goes from the last column of a row. */
  function Moved(changed: bool, sign: int, t: int, tp: int): int {
    (if changed then t else t + sign) + tp
  }

  /** The walker has been through row `j`: it is at its last column, ready to move on. */
  ghost predicate Through(edge: Edge, j: int, changed: bool, sign: int, t: int, tp: int, e: int) {
    && t == edge.X(Last(edge.W(), edge.H(), j))
    && AtStart(edge, j + 1, Moved(changed, sign, t, tp), e)
  }

  /** The walker is at column `m` of row `j` of a flat edge. */
  ghost predicate Walking(edge: Edge, j: int, m: int, t: int, e: int) {
    !edge.Steep() && t == edge.X(m) && InRow(edge.W(), edge.H(), j, m, e)
  }

  lemma SteepRow(edge: Edge, d: int, s: int, sign: int, j: nat, t: int, e: int)
    requires SetUp(edge, d, s, true, sign) && AtStart(edge, j, t, e)
    ensures 0 <= e < d && 0 <= s < d
    ensures e + s < d ==> Through(edge, j, true, sign, t, 0, e + s)
    ensures e + s >= d ==> Through(edge, j, true, sign, t, sign, e + s - d) && e + s - d < d
  {
    var w, h, n := edge.W(), edge.H(), First(edge.W(), edge.H(), j);
    SteepMove(w, h, j, n, e);
    SteepFirst(w, h, j, n, e);
    if e + s < d {
      AtRowFirst(w, h, j + 1, n, e + w);
    } else {
      AtRowFirst(w, h, j + 1, n + 1, e + w - h);
    }
    hide First, AtRow;
  }

  /** The error term and the move of a steep edge before and after the subtraction. */
  ghost predicate SteepError(e: int, d: int, s: int, sign: int, tp: int, e': int) {
    (e' == e + s && tp == 0) || (e + s >= d && e' == e + s - d && tp == sign)
  }

  lemma SteepFirst(w: nat, h: nat, j: nat, n: int, e: int)
    requires h > w && AtRow(w, h, j, n, e)
    ensures n >= 0
  {
    if n < 0 { TimesNegative(h, n); }
  }

  lemma FlatBegins(edge: Edge, d: int, s: int, sign: int, j: nat, t: int, e: int)
    requires SetUp(edge, d, s, false, sign) && AtStart(edge, j, t, e) && s > 0
    ensures Walking(edge, j, First(edge.W(), edge.H(), j), t, e)
  {
    GentleBegin(edge.W(), edge.H(), j, First(edge.W(), edge.H(), j), e);
    hide First, AtRow, InRow;
  }

  lemma FlatStep(edge: Edge, d: int, s: int, sign: int, j: nat, m: nat, t: int, e: int)
    requires SetUp(edge, d, s, false, sign) && Walking(edge, j, m, t, e) && s > 0
    ensures e < d
    ensures e + s < d ==> Walking(edge, j, m + 1, t + sign, e + s)
    ensures e + s >= d && j < edge.H() ==> Through(edge, j, false, sign, t, 0, e + s - d) && e + s - d < d
    ensures j < edge.H() ==> m < d
    ensures e + s >= d ==> m + 1 == First(edge.W(), edge.H(), j + 1)
  {
    var w, h := edge.W(), edge.H();
    GentleMove(w, h, j, m, e);
    if e + s >= d { AtRowFirst(w, h, j + 1, m + 1, e + h - w); }
    if j < h { ShortOfEnd(w, h, j, m, e); }
    hide First, AtRow, InRow;
  }

  /** The first inner loop of the upper half: the edge to the middle vertex. */
  method WalkUpperFirst(t1x: int, e1: int, i: int, dx1: int, dy1: int, changed1: bool, signx1: int,
                        ghost edge: Edge, ghost j: nat)
    returns (t1x': int, t1xp: int, e1': int, i': int)
    requires SetUp(edge, dx1, dy1, changed1, signx1) && AtStart(edge, j, t1x, e1) && j < edge.H()
    requires i == if changed1 then j else First(edge.W(), edge.H(), j)
    ensures Through(edge, j, changed1, signx1, t1x', t1xp, e1')
    ensures i' == if changed1 then j + 1 else First(edge.W(), edge.H(), j + 1)
  {
    t1x', t1xp, e1', i' := t1x, 0, e1, i;
    RowInside(edge.W(), edge.H(), j);
    assert changed1 ==> dx1 == edge.H();
    assert !changed1 ==> dy1 == edge.H();
    hide First, Last, AtRow, InRow;
    if changed1 {
      SteepRow(edge, dx1, dy1, signx1, j, t1x, e1);
    } else {
      FlatBegins(edge, dx1, dy1, signx1, j, t1x, e1);
      FlatStep(edge, dx1, dy1, signx1, j, i, t1x, e1);
    }
    hide SetUp, AtStart, Through, Walking;
    label walk: while i' < dx1
      invariant 0 <= i' < dx1 && t1xp == 0
      invariant changed1 ==> t1x' == t1x && e1' == e1 && i' == j
      invariant !changed1 ==> Walking(edge, j, i', t1x', e1')
    {
      ghost var t, e, m := t1x', e1', i';
      if !changed1 { FlatStep(edge, dx1, dy1, signx1, j, m, t, e); }
      i' := i' + 1;
      e1' := e1' + dy1;
      while e1' >= dx1
        invariant !changed1 ==> e1' == e + dy1 && t1xp == 0
        invariant changed1 ==> SteepError(e, dx1, dy1, signx1, t1xp, e1')
      {
        e1' := e1' - dx1;
        if changed1 {
          t1xp := signx1;
        } else {
          break walk;
        }
      }
      if changed1 {
        break;
      } else {
        t1x' := t1x' + signx1;
      }
      FlatShort(edge, dx1, dy1, signx1, j, i', t1x', e1');
    }
  }

  /** The second one: the long edge. */
  method WalkUpperSecond(t2x: int, e2: int, dx2: int, dy2: int, changed2: bool, signx2: int,
                         ghost edge: Edge, ghost j: nat)
    returns (t2x': int, t2xp: int, e2': int)
    requires SetUp(edge, dx2, dy2, changed2, signx2) && AtStart(edge, j, t2x, e2) && j < edge.H()
    ensures Through(edge, j, changed2, signx2, t2x', t2xp, e2')
  {
    t2x', t2xp, e2' := t2x, 0, e2;
    ghost var m := First(edge.W(), edge.H(), j);
    RowInside(edge.W(), edge.H(), j);
    assert !changed2 ==> dy2 == edge.H();
    hide First, Last, AtRow, InRow;
    if changed2 {
      SteepRow(edge, dx2, dy2, signx2, j, t2x, e2);
    } else {
      FlatBegins(edge, dx2, dy2, signx2, j, t2x, e2);
    }
    hide SetUp, AtStart, Through, Walking;
    label walk: while true
      invariant m >= 0 && t2xp == 0
      invariant changed2 ==> t2x' == t2x && e2' == e2
      invariant !changed2 ==> Walking(edge, j, m, t2x', e2')
      decreases dx2 - e2'
    {
      ghost var t, e := t2x', e2';
      if !changed2 { FlatStep(edge, dx2, dy2, signx2, j, m, t, e); }
      e2' := e2' + dy2;
      while e2' >= dx2
        invariant !changed2 ==> e2' == e + dy2 && t2xp == 0
        invariant changed2 ==> SteepError(e, dx2, dy2, signx2, t2xp, e2')
      {
        e2' := e2' - dx2;
        if changed2 {
          t2xp := signx2;
        } else {
          break walk;
        }
      }
      if changed2 {
        break;
      } else {
        t2x' := t2x' + signx2;
      }
      m := m + 1;
    }
  }

  /** The walker of a flat edge in its last row. */
  lemma FlatEnds(edge: Edge, d: int, s: int, sign: int, m: nat, t: int, e: int)
    requires SetUp(edge, d, s, false, sign) && Walking(edge, edge.H(), m, t, e) && m < d
    ensures e + s < d && Walking(edge, edge.H(), m + 1, t + sign, e + s)
  {
    EndMove(edge.W(), edge.H(), m, e);
    hide InRow;
  }

  lemma FlatBeginsAnywhere(edge: Edge, d: int, s: int, sign: int, j: nat, t: int, e: int)
    requires SetUp(edge, d, s, false, sign) && AtStart(edge, j, t, e) && d > 0 && j <= edge.H()
    ensures Walking(edge, j, First(edge.W(), edge.H(), j), t, e)
  {
    if s > 0 {
      FlatBegins(edge, d, s, sign, j, t, e);
    }
  }

  /** The first inner loop of the lower half: the edge from the middle vertex. */
  method WalkLowerFirst(t1x: int, e1: int, i: int, dx1: int, dy1: int, changed1: bool, signx1: int,
                        ghost edge: Edge, ghost j: nat)
    returns (t1x': int, t1xp: int, e1': int, i': int)
    requires SetUp(edge, dx1, dy1, changed1, signx1) && AtStart(edge, j, t1x, e1) && j <= edge.H()
    requires i == if changed1 then j else First(edge.W(), edge.H(), j)
    ensures t1x' == edge.X(Last(edge.W(), edge.H(), j))
    ensures j < edge.H() ==> Through(edge, j, changed1, signx1, t1x', t1xp, e1')
    ensures j < edge.H() ==> i' + 1 == if changed1 then j + 1 else First(edge.W(), edge.H(), j + 1)
  {
    t1x', t1xp, e1', i' := t1x, 0, e1, i;
    RowInside(edge.W(), edge.H(), j);
    assert changed1 ==> dx1 == edge.H() && Last(edge.W(), edge.H(), j) == First(edge.W(), edge.H(), j);
    assert !changed1 ==> dy1 == edge.H() && dx1 == edge.W();
    hide First, Last, AtRow, InRow;
    if changed1 {
      SteepRow(edge, dx1, dy1, signx1, j, t1x, e1);
    } else if dx1 > 0 {
      FlatBeginsAnywhere(edge, dx1, dy1, signx1, j, t1x, e1);
    }
    assert t1x == edge.X(First(edge.W(), edge.H(), j));
    hide SetUp, AtStart, Walking;
    label walk: while i' < dx1
      invariant 0 <= i' <= dx1 && t1xp == 0
      invariant changed1 ==> t1x' == t1x && e1' == e1 && i' == j
      invariant !changed1 ==> t1x' == edge.X(i') && (dx1 > 0 ==> Walking(edge, j, i', t1x', e1'))
    {
      ghost var t, e, m := t1x', e1', i';
      if !changed1 {
        if j < edge.H() {
          FlatStep(edge, dx1, dy1, signx1, j, m, t, e);
        } else {
          FlatEnds(edge, dx1, dy1, signx1, m, t, e);
        }
      }
      e1' := e1' + dy1;
      // A loop in the program that ends in its first round either way.
      if e1' >= dx1 {
        e1' := e1' - dx1;
        if changed1 {
          t1xp := signx1;
        } else {
          break walk;
        }
      }
      if changed1 {
        break;
      } else {
        t1x' := t1x' + signx1;
      }
      if i' < dx1 { i' := i' + 1; }
      WalkingAt(edge, j, i', t1x', e1');
    }
    if !changed1 && j < edge.H() && i' == dx1 {
      FlatShort(edge, dx1, dy1, signx1, j, i', t1x', e1');
    }
  }

  lemma WalkingAt(edge: Edge, j: int, m: int, t: int, e: int)
    requires Walking(edge, j, m, t, e)
    ensures t == edge.X(m)
  {
  }

  /**
   The walker of the long edge in the lower half: at the first column of row `j`, or stopped at the
   column of the lower end, where a steep edge stays.
   */
  ghost predicate AtStartOrEnd(edge: Edge, j: int, t: int, e: int) {
    AtStart(edge, j, t, e) ||
    (edge.Steep() && t == edge.to.x && First(edge.W(), edge.H(), j) == edge.W())
  }

  lemma StaysAtEnd(edge: Edge, j: nat, t: int, e: int, f: int)
    requires edge.Steep() && j < edge.H() && AtStartOrEnd(edge, j, t, e) && t == edge.to.x
    ensures t == edge.X(Last(edge.W(), edge.H(), j)) && AtStartOrEnd(edge, j + 1, t, f)
  {
    RowInside(edge.W(), edge.H(), j + 1);
    SteepMonotone(edge.W(), edge.H(), j);
    hide AtRow, RoundHalfUp;
  }

  lemma EndColumn(edge: Edge, m: int)
    ensures edge.X(m) == edge.to.x <==> m == edge.W()
  {
  }

  /** The second one: the long edge again, which may have reached its lower end. */
  method WalkLowerSecond(t2x: int, e2: int, x3: int, dx2: int, dy2: int, changed2: bool, signx2: int,
                         ghost edge: Edge, ghost j: nat)
    returns (t2x': int, t2xp: int, e2': int)
    requires SetUp(edge, dx2, dy2, changed2, signx2) && AtStartOrEnd(edge, j, t2x, e2) && j <= edge.H()
    requires x3 == edge.to.x
    ensures t2x' == edge.X(Last(edge.W(), edge.H(), j))
    ensures j < edge.H() ==> AtStartOrEnd(edge, j + 1, Moved(changed2, signx2, t2x', t2xp), e2')
  {
    t2x', t2xp, e2' := t2x, 0, e2;
    ghost var m := First(edge.W(), edge.H(), j);
    RowInside(edge.W(), edge.H(), j);
    assert t2x == edge.X(m) by { EndColumn(edge, m); }
    assert Last(edge.W(), edge.H(), edge.H()) == edge.W() by { RowInside(edge.W(), edge.H(), edge.H()); }
    EndColumn(edge, m);
    assert changed2 ==> Last(edge.W(), edge.H(), j) == First(edge.W(), edge.H(), j);
    assert !changed2 ==> dy2 == edge.H() && dx2 == edge.W() && AtStart(edge, j, t2x, e2);
    hide First, Last, AtRow, InRow;
    if changed2 {
      if t2x == x3 && j < edge.H() {
        StaysAtEnd(edge, j, t2x, e2, e2);
      } else if t2x != x3 {
        SteepRow(edge, dx2, dy2, signx2, j, t2x, e2);
      }
    } else if dx2 > 0 {
      FlatBeginsAnywhere(edge, dx2, dy2, signx2, j, t2x, e2);
    }
    hide SetUp, AtStart, Walking;
    label walk: while t2x' != x3
      invariant 0 <= m && t2xp == 0 && t2x' == edge.X(m)
      invariant changed2 ==> t2x' == t2x && e2' == e2
      invariant !changed2 ==> m <= dx2 && (dx2 > 0 ==> Walking(edge, j, m, t2x', e2'))
      decreases dx2 - m
    {
      EndColumn(edge, m);
      ghost var t, e := t2x', e2';
      if !changed2 {
        if j < edge.H() {
          FlatStep(edge, dx2, dy2, signx2, j, m, t, e);
        } else {
          FlatEnds(edge, dx2, dy2, signx2, m, t, e);
        }
      }
      e2' := e2' + dy2;
      while e2' >= dx2
        invariant !changed2 ==> e2' == e + dy2 && t2xp == 0
        invariant changed2 ==> SteepError(e, dx2, dy2, signx2, t2xp, e2')
      {
        e2' := e2' - dx2;
        if changed2 {
          t2xp := signx2;
        } else {
          break walk;
        }
      }
      if changed2 {
        break;
      } else {
        t2x' := t2x' + signx2;
      }
      m := m + 1;
      WalkingAt(edge, j, m, t2x', e2');
    }
    EndColumn(edge, m);
    if !changed2 && j < edge.H() && t2x' == x3 && m == dx2 {
      FlatShort(edge, dx2, dy2, signx2, j, m, t2x', e2');
    }
  }

  lemma FlatShort(edge: Edge, d: int, s: int, sign: int, j: nat, m: nat, t: int, e: int)
    requires SetUp(edge, d, s, false, sign) && Walking(edge, j, m, t, e) && s > 0 && j < edge.H()
    ensures m < d
  {
    FlatStep(edge, d, s, sign, j, m, t, e);
  }

  // ---- The two halves ----

  /** The variables of the edge from `from` to `to`. */
  method Prepare(from: Point, to: Point) returns (dx: int, dy: int, changed: bool, sign: int)
    requires from.y <= to.y
    ensures SetUp(Edge(from, to), dx, dy, changed, sign)
    ensures AtStart(Edge(from, to), 0, from.x, dx / 2)
  {
    dx, changed := to.x - from.x, false;
    if dx < 0 {
      dx, sign := -dx, -1;
    } else {
      sign := 1;
    }
    dy := to.y - from.y;
    if dy > dx {
      dx, dy, changed := dy, dx, true;
    }
    ghost var edge := Edge(from, to);
    AtRowStarts(edge.W(), edge.H());
    hide AtRow, First;
  }

  /** The span between the two walkers where they begin a row. */
  method Extent(t1x: int, t2x: int) returns (minx: int, maxx: int)
    ensures minx == Min(t1x, t2x) && maxx == Max(t1x, t2x)
  {
    if t1x < t2x { minx, maxx := t1x, t2x; } else { minx, maxx := t2x, t1x; }
  }

  /** The span that covers both walkers' columns, as the comparisons after the walks find it. */
  method Cover(minx: int, maxx: int, t1x: int, t2x: int) returns (minx': int, maxx': int)
    ensures minx' == Min(Min(minx, t1x), t2x) && maxx' == Max(Max(maxx, t1x), t2x)
  {
    minx', maxx' := minx, maxx;
    if minx' > t1x { minx' := t1x; }
    if minx' > t2x { minx' := t2x; }
    if maxx' < t1x { maxx' := t1x; }
    if maxx' < t2x { maxx' := t2x; }
  }

  /** From both walkers' first columns and last columns in a row to the span of the row. */
  lemma CoverIsRow(t: Triangle, y: int, f1: int, f2: int, l1: int, l2: int)
    requires var s, j := t.Short(y), y - t.Short(y).from.y;
      f1 == s.X(First(s.W(), s.H(), j)) && l1 == s.X(Last(s.W(), s.H(), j))
    requires var s, j := t.Long(), y - t.Long().from.y;
      f2 == s.X(First(s.W(), s.H(), j)) && l2 == s.X(Last(s.W(), s.H(), j))
    ensures t.Left(y) == Min(Min(Min(f1, f2), l1), l2)
    ensures t.Right(y) == Max(Max(Max(f1, f2), l1), l2)
  {
    hide First, Last;
  }

  lemma RowIsNext(t: Triangle, n: nat)
    ensures Rows(t, n + 1) == Rows(t, n) + Row(t, t.a.y + n)
    ensures Row(t, t.a.y + n) == Span(t.Left(t.a.y + n), t.Right(t.a.y + n), t.a.y + n)
  {
  }

  method DrawRow(e: Engine, minx: int, maxx: int, y: int, color: Pixel, ghost before: seq<Dot>, ghost t: Triangle,
                 ghost n: nat)
    requires e.Valid() && Drew(before, Rows(t, n), color, e.drawn)
    requires y == t.a.y + n && minx == t.Left(y) && maxx == t.Right(y)
    modifies e`drawn, e.pixels
    ensures e.Valid() && Drew(before, Rows(t, n + 1), color, e.drawn)
  {
    hide Triangle.Left, Triangle.Right, Drew, Engine.Valid, Span, Rows, Row;
    ghost var mid := e.drawn;
    DrawSpan(e, minx, maxx, y, color);
    RowIsNext(t, n);
    DrewThen(before, Rows(t, n), mid, Row(t, y), e.drawn, color);
  }

  /** The loop of the upper half at the beginning of row `y`. */
  ghost predicate UpperState(t: Triangle, y: int, t1x: int, e1: int, i: int, changed1: bool, t2x: int, e2: int) {
    var short := Edge(t.a, t.b);
    && AtStart(short, y - t.a.y, t1x, e1) && AtStart(t.Long(), y - t.a.y, t2x, e2)
    && i == if changed1 then y - t.a.y else First(short.W(), short.H(), y - t.a.y)
  }

  /** The loop of the lower half. */
  ghost predicate LowerState(t: Triangle, y: int, t1x: int, e1: int, i: int, changed1: bool, t2x: int, e2: int) {
    var short := Edge(t.b, t.c);
    && AtStart(short, y - t.b.y, t1x, e1) && AtStartOrEnd(t.Long(), y - t.a.y, t2x, e2)
    && i == if changed1 then y - t.b.y else First(short.W(), short.H(), y - t.b.y)
  }

  /** The rows above the middle vertex. */
  method FillUpper(e: Engine, t: Triangle, color: Pixel, dx2: int, dy2: int, changed2: bool, signx2: int,
                   ghost before: seq<Dot>)
    returns (t2x: int, e2: int)
    requires t.Sorted() && t.a.y != t.b.y && SetUp(t.Long(), dx2, dy2, changed2, signx2)
    requires AtStart(t.Long(), 0, t.a.x, dx2 / 2)
    requires e.Valid() && Drew(before, Rows(t, 0), color, e.drawn)
    modifies e`drawn, e.pixels
    ensures e.Valid() && Drew(before, Rows(t, t.b.y - t.a.y), color, e.drawn)
    ensures AtStart(t.Long(), t.b.y - t.a.y, t2x, e2)
  {
    hide Drew, Engine.Valid, UpperState, AtStart, SetUp, Rows, First, Edge.W, Edge.H, Edge.X;
    hide Triangle.Left, Triangle.Right;
    var dx1, dy1, changed1, signx1 := Prepare(t.a, t.b);
    var t1x, y, e1, i := t.a.x, t.a.y, dx1 / 2, 0;
    t2x, e2 := t.a.x, dx2 / 2;
    UpperBegins(t, e1, changed1, e2);
    CounterUpper(t, y, t1x, e1, i, dx1, dy1, changed1, signx1, t2x, e2);
    while i < dx1
      invariant t.a.y <= y < t.b.y && i < dx1 && UpperState(t, y, t1x, e1, i, changed1, t2x, e2)
      invariant e.Valid() && Drew(before, Rows(t, y - t.a.y), color, e.drawn)
      decreases t.b.y - y
    {
      var minx, maxx;
      minx, maxx, t1x, e1, i, t2x, e2 :=
        UpperRow(t1x, e1, i, dx1, dy1, changed1, signx1, t2x, e2, dx2, dy2, changed2, signx2, t, y);
      DrawRow(e, minx, maxx, y, color, before, t, y - t.a.y);
      y := y + 1;
      if y == t.b.y { break; }
      CounterUpper(t, y, t1x, e1, i, dx1, dy1, changed1, signx1, t2x, e2);
    }
    UpperIsAtStart(t, y, t1x, e1, i, changed1, t2x, e2);
  }

  lemma UpperBegins(t: Triangle, e1: int, changed1: bool, e2: int)
    requires AtStart(Edge(t.a, t.b), 0, t.a.x, e1) && AtStart(t.Long(), 0, t.a.x, e2)
    ensures UpperState(t, t.a.y, t.a.x, e1, 0, changed1, t.a.x, e2)
  {
    AtRowStarts(Edge(t.a, t.b).W(), Edge(t.a, t.b).H());
    hide AtStart, First;
  }

  lemma UpperIsAtStart(t: Triangle, y: int, t1x: int, e1: int, i: int, changed1: bool, t2x: int, e2: int)
    requires UpperState(t, y, t1x, e1, i, changed1, t2x, e2)
    ensures AtStart(t.Long(), y - t.a.y, t2x, e2)
  {
  }

  lemma LowerBegins(t: Triangle, e1: int, changed1: bool, t2x: int, e2: int)
    requires AtStart(Edge(t.b, t.c), 0, t.b.x, e1) && AtStart(t.Long(), t.b.y - t.a.y, t2x, e2)
    ensures LowerState(t, t.b.y, t.b.x, e1, 0, changed1, t2x, e2)
  {
    AtRowStarts(Edge(t.b, t.c).W(), Edge(t.b, t.c).H());
    hide AtStart, First;
  }

  lemma AllRows(t: Triangle)
    requires t.Sorted()
    ensures Filled(t) == Rows(t, t.c.y + 1 - t.a.y)
  {
  }

  lemma CounterUpper(t: Triangle, y: int, t1x: int, e1: int, i: int, dx1: int, dy1: int, changed1: bool, signx1: int,
                     t2x: int, e2: int)
    requires UpperState(t, y, t1x, e1, i, changed1, t2x, e2) && SetUp(Edge(t.a, t.b), dx1, dy1, changed1, signx1)
    requires t.Sorted() && t.a.y <= y < t.b.y
    ensures i < dx1
  {
    BeforeEnd(Edge(t.a, t.b), dx1, dy1, changed1, signx1, y - t.a.y);
    hide AtStart, First;
  }

  lemma CounterLower(t: Triangle, y: int, t1x: int, e1: int, i: int, dx1: int, dy1: int, changed1: bool, signx1: int,
                     t2x: int, e2: int)
    requires LowerState(t, y, t1x, e1, i, changed1, t2x, e2) && SetUp(Edge(t.b, t.c), dx1, dy1, changed1, signx1)
    requires t.Sorted() && t.b.y <= y <= t.c.y
    ensures i <= dx1
  {
    WithinEnd(Edge(t.b, t.c), dx1, dy1, changed1, signx1, y - t.b.y);
    hide AtStart, AtStartOrEnd, First;
  }

  /** One round of the loop, but for drawing the span and counting the row. */
  method UpperRow(t1x': int, e1': int, i': int, dx1: int, dy1: int, changed1: bool, signx1: int,
                  t2x': int, e2': int, dx2: int, dy2: int, changed2: bool, signx2: int, ghost t: Triangle, ghost y: int)
    returns (minx: int, maxx: int, t1x: int, e1: int, i: int, t2x: int, e2: int)
    requires t.Sorted() && t.a.y <= y < t.b.y
    requires SetUp(Edge(t.a, t.b), dx1, dy1, changed1, signx1) && SetUp(t.Long(), dx2, dy2, changed2, signx2)
    requires UpperState(t, y, t1x', e1', i', changed1, t2x', e2')
    ensures minx == t.Left(y) && maxx == t.Right(y)
    ensures UpperState(t, y + 1, t1x, e1, i, changed1, t2x, e2)
  {
    hide First, Last, SetUp, AtStart, AtStartOrEnd, Through, Edge.W, Edge.H, Edge.X;
    hide Triangle.Left, Triangle.Right, Triangle.Short, Min, Max;
    ghost var long, short, j := t.Long(), Edge(t.a, t.b), y - t.a.y;
    AtFirst(short, j, t1x', e1');
    AtFirst(long, j, t2x', e2');
    UpperHeights(t, y);
    var t1xp, t2xp;
    minx, maxx := Extent(t1x', t2x');
    t1x, t1xp, e1, i := WalkUpperFirst(t1x', e1', i', dx1, dy1, changed1, signx1, short, j);
    t2x, t2xp, e2 := WalkUpperSecond(t2x', e2', dx2, dy2, changed2, signx2, long, j);
    ThroughRow(short, j, changed1, signx1, t1x, t1xp, e1);
    ThroughRow(long, j, changed2, signx2, t2x, t2xp, e2);
    minx, maxx := Cover(minx, maxx, t1x, t2x);
    CoverIsRow(t, y, t1x', t2x', t1x, t2x);
    if !changed1 { t1x := t1x + signx1; }
    t1x := t1x + t1xp;
    if !changed2 { t2x := t2x + signx2; }
    t2x := t2x + t2xp;
  }

  lemma ThroughRow(edge: Edge, j: int, changed: bool, sign: int, t: int, tp: int, e: int)
    requires Through(edge, j, changed, sign, t, tp, e)
    ensures t == edge.X(Last(edge.W(), edge.H(), j))
    ensures AtStart(edge, j + 1, Moved(changed, sign, t, tp), e)
  {
  }

  /** In a row above the lower end the loop's counter has not run out. */
  lemma BeforeEnd(edge: Edge, d: int, s: int, changed: bool, sign: int, j: nat)
    requires SetUp(edge, d, s, changed, sign) && j < edge.H()
    ensures (if changed then j else First(edge.W(), edge.H(), j)) < d
  {
    if !changed {
      FirstRises(edge.W(), edge.H(), j);
      FirstMonotone(edge.W(), edge.H(), j + 1, edge.H());
      FirstOfEnd(edge.W(), edge.H());
    }
  }

  lemma UpperHeights(t: Triangle, y: int)
    requires t.Sorted() && t.a.y <= y < t.b.y
    ensures t.Short(y) == Edge(t.a, t.b)
    ensures y - t.a.y < Edge(t.a, t.b).H() && y - t.a.y < t.Long().H()
  {
  }

  lemma LowerHeights(t: Triangle, y: int)
    requires t.Sorted() && t.b.y <= y <= t.c.y
    ensures t.Short(y) == Edge(t.b, t.c)
    ensures y - t.b.y <= Edge(t.b, t.c).H() && y - t.a.y <= t.Long().H()
    ensures y < t.c.y ==> y - t.b.y < Edge(t.b, t.c).H() && y - t.a.y < t.Long().H()
  {
  }

  /** The rows from the middle vertex on. */
  method FillLower(e: Engine, t: Triangle, color: Pixel, dx2: int, dy2: int, changed2: bool, signx2: int,
                   t2x': int, e2': int, ghost before: seq<Dot>)
    requires t.Sorted() && SetUp(t.Long(), dx2, dy2, changed2, signx2)
    requires AtStart(t.Long(), t.b.y - t.a.y, t2x', e2')
    requires e.Valid() && Drew(before, Rows(t, t.b.y - t.a.y), color, e.drawn)
    modifies e`drawn, e.pixels
    ensures e.Valid() && Drew(before, Filled(t), color, e.drawn)
  {
    hide Drew, Engine.Valid, LowerState, AtStart, SetUp, Rows, Filled, Edge.W, Edge.H, Edge.X;
    hide Triangle.Left, Triangle.Right;
    var t2x, e2 := t2x', e2';
    var dx1, dy1, changed1, signx1 := Prepare(t.b, t.c);
    var t1x, y, e1, i := t.b.x, t.b.y, dx1 / 2, 0;
    LowerBegins(t, e1, changed1, t2x, e2);
    CounterLower(t, y, t1x, e1, i, dx1, dy1, changed1, signx1, t2x, e2);
    AllRows(t);
    while i <= dx1
      invariant t.b.y <= y <= t.c.y && i <= dx1 && LowerState(t, y, t1x, e1, i, changed1, t2x, e2)
      invariant e.Valid() && Drew(before, Rows(t, y - t.a.y), color, e.drawn)
      decreases t.c.y - y
    {
      var minx, maxx;
      minx, maxx, t1x, e1, i, t2x, e2 :=
        LowerRow(t1x, e1, i, dx1, dy1, changed1, signx1, t2x, e2, t.c.x, dx2, dy2, changed2, signx2, t, y);
      DrawRow(e, minx, maxx, y, color, before, t, y - t.a.y);
      y := y + 1;
      if y > t.c.y { return; }
      i := i + 1;
      CounterLower(t, y, t1x, e1, i, dx1, dy1, changed1, signx1, t2x, e2);
    }
  }

  /** One round of that loop. */
  method LowerRow(t1x': int, e1': int, i': int, dx1: int, dy1: int, changed1: bool, signx1: int,
                  t2x': int, e2': int, x3: int, dx2: int, dy2: int, changed2: bool, signx2: int,
                  ghost t: Triangle, ghost y: int)
    returns (minx: int, maxx: int, t1x: int, e1: int, i: int, t2x: int, e2: int)
    requires t.Sorted() && t.b.y <= y <= t.c.y && x3 == t.c.x
    requires SetUp(Edge(t.b, t.c), dx1, dy1, changed1, signx1) && SetUp(t.Long(), dx2, dy2, changed2, signx2)
    requires LowerState(t, y, t1x', e1', i', changed1, t2x', e2')
    ensures minx == t.Left(y) && maxx == t.Right(y)
    ensures y < t.c.y ==> LowerState(t, y + 1, t1x, e1, i + 1, changed1, t2x, e2)
  {
    hide First, Last, SetUp, AtStart, AtStartOrEnd, Through, Edge.W, Edge.H, Edge.X;
    hide Triangle.Left, Triangle.Right, Triangle.Short, Min, Max;
    ghost var long, short, j, k := t.Long(), Edge(t.b, t.c), y - t.b.y, y - t.a.y;
    AtFirst(short, j, t1x', e1');
    AtFirst(long, k, t2x', e2');
    LowerHeights(t, y);
    var t1xp, t2xp;
    minx, maxx := Extent(t1x', t2x');
    t1x, t1xp, e1, i := WalkLowerFirst(t1x', e1', i', dx1, dy1, changed1, signx1, short, j);
    t2x, t2xp, e2 := WalkLowerSecond(t2x', e2', x3, dx2, dy2, changed2, signx2, long, k);
    minx, maxx := Cover(minx, maxx, t1x, t2x);
    CoverIsRow(t, y, t1x', t2x', t1x, t2x);
    if y < t.c.y { ThroughRow(short, j, changed1, signx1, t1x, t1xp, e1); }
    if !changed1 { t1x := t1x + signx1; }
    t1x := t1x + t1xp;
    if !changed2 { t2x := t2x + signx2; }
    t2x := t2x + t2xp;
  }

  lemma AtFirst(edge: Edge, j: int, t: int, e: int)
    ensures AtStart(edge, j, t, e) || AtStartOrEnd(edge, j, t, e) ==> t == edge.X(First(edge.W(), edge.H(), j))
    ensures AtStart(edge, j, t, e) ==> AtStartOrEnd(edge, j, t, e)
  {
    EndColumn(edge, edge.W());
  }

  lemma WithinEnd(edge: Edge, d: int, s: int, changed: bool, sign: int, j: nat)
    requires SetUp(edge, d, s, changed, sign) && j <= edge.H()
    ensures (if changed then j else First(edge.W(), edge.H(), j)) <= d
  {
    RowInside(edge.W(), edge.H(), j);
    hide First, Last;
  }

  method FillTriangle(e: Engine, x1: int, y1: int, x2: int, y2: int, x3: int, y3: int, color: Pixel)
    requires e.Valid()
    modifies e`drawn, e.pixels
    ensures e.Valid()
    ensures Drew(old(e.drawn), Filled(SortByRow(Point(x1, y1), Point(x2, y2), Point(x3, y3))), color, e.drawn)
  {
    var p1, p2, p3 := Point(x1, y1), Point(x2, y2), Point(x3, y3);
    if p1.y > p2.y { p1, p2 := p2, p1; }
    if p1.y > p3.y { p1, p3 := p3, p1; }
    if p2.y > p3.y { p2, p3 := p3, p2; }
    var t := Triangle(p1, p2, p3);
    assert t == SortByRow(Point(x1, y1), Point(x2, y2), Point(x3, y3));
    ghost var before := e.drawn;
    DrewNothing(before, color);
    assert Drew(before, Rows(t, 0), color, e.drawn);
    hide Drew, Engine.Valid, First, Last, AtRow, SetUp, Rows, Row, SortByRow;
    var dx2, dy2, changed2, signx2 := Prepare(p1, p3);
    var t2x, e2 := p1.x, dx2 / 2;
    if p1.y != p2.y {
      t2x, e2 := FillUpper(e, t, color, dx2, dy2, changed2, signx2, before);
    }
    FillLower(e, t, color, dx2, dy2, changed2, signx2, t2x, e2, before);
  }
}

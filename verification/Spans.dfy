/** Horizontal runs of pixels, as the `drawline` helpers of the filled shapes draw them. */
module Spans {
  import opened DrawTargets

  /** The pixels from `sx` to `ex` in row `y`; none if `sx` lies beyond `ex`. */
  function Span(sx: int, ex: int, y: int): (r: seq<Point>)
    ensures |r| == if sx <= ex then ex - sx + 1 else 0
    ensures forall i :: 0 <= i < |r| ==> r[i] == Point(sx + i, y)
  {
    seq(if sx <= ex then ex - sx + 1 else 0, i => Point(sx + i, y))
  }

  lemma InSpan(sx: int, ex: int, y: int, p: Point)
    ensures p in Span(sx, ex, y) <==> p.y == y && sx <= p.x <= ex
  {
    if p.y == y && sx <= p.x <= ex {
      assert Span(sx, ex, y)[p.x - sx] == p;
    }
  }

  /** How a span grows from nothing, pixel by pixel. */
  lemma SpanGrows(sx: int, x: int, ex: int, y: int)
    ensures x < sx ==> Span(sx, x, y) == []
    ensures sx - 1 <= x ==> Span(sx, x + 1, y) == Span(sx, x, y) + [Point(x + 1, y)]
    ensures x < sx && ex < sx ==> Span(sx, x, y) == Span(sx, ex, y)
  {
  }

  method DrawSpan(e: Engine, sx: int, ex: int, y: int, color: Pixel)
    requires e.Valid()
    modifies e`drawn, e.pixels
    ensures e.Valid() && Drew(old(e.drawn), Span(sx, ex, y), color, e.drawn)
  {
    hide Engine.Valid, Drew, Span;
    ghost var before := e.drawn;
    var x := sx;
    DrewNothing(before, color);
    SpanGrows(sx, sx - 1, ex, y);
    while x <= ex
      invariant sx <= x && (x <= ex + 1 || x == sx)
      invariant e.Valid() && Drew(before, Span(sx, x - 1, y), color, e.drawn)
    {
      ghost var mid := e.drawn;
      var _ := e.Draw(x, y, color);
      DrewOne(mid, Point(x, y), color, e.drawn);
      DrewThen(before, Span(sx, x - 1, y), mid, [Point(x, y)], e.drawn, color);
      SpanGrows(sx, x - 1, ex, y);
      x := x + 1;
    }
    SpanGrows(sx, x - 1, ex, y);
  }
}

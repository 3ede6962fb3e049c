/** The draw target: a rectangle of pixels that `Draw` plots into, one pixel at a time. */
module DrawTargets {
  import opened Rounding

  type Pixel = int

  datatype Point = Point(x: int, y: int)

  /** The cross product of the offset of `at` from `p` with the direction to `q`: its side of the line. */
  function Cross(p: Point, q: Point, at: Point): int {
    (at.x - p.x) * (q.y - p.y) - (at.y - p.y) * (q.x - p.x)
  }

  lemma CrossBackwards(p: Point, q: Point, at: Point)
    ensures Cross(q, p, at) == -Cross(p, q, at)
  {
  }

  /** One call of `Draw`. */
  datatype Dot = Dot(at: Point, color: Pixel)

  /** A picture of `width` columns, row by row. */
  datatype Image = Image(width: nat, height: nat, pixels: seq<Pixel>)
  {
    ghost predicate WellFormed() {
      |pixels| == width * height
    }

    predicate Inside(p: Point) {
      0 <= p.x < width && 0 <= p.y < height
    }

    function Index(p: Point): (i: nat)
      requires WellFormed() && Inside(p)
      ensures i < |pixels|
    {
      IndexInside(width, height, p);
      Offset(width, p)
    }

    function At(p: Point): Pixel
      requires WellFormed() && Inside(p)
    {
      pixels[Index(p)]
    }

    /** `SetPixel`: what lies outside is clipped. */
    function Plot(d: Dot): (r: Image)
      requires WellFormed()
      ensures r.WellFormed() && r.width == width && r.height == height
    {
      if Inside(d.at) then this.(pixels := pixels[Index(d.at) := d.color]) else this
    }
  }

  /** Where a row-by-row picture keeps a point. */
  function Offset(width: nat, p: Point): int {
    p.y * width + p.x
  }

  lemma IndexInside(width: nat, height: nat, p: Point)
    requires 0 <= p.x < width && 0 <= p.y < height
    ensures 0 <= Offset(width, p) < width * height
  {
    assert p.y * width <= (height - 1) * width;
  }

  /** The pixels stand row by row, each row from the left. */
  lemma RowByRow(image: Image, p: Point)
    requires image.WellFormed() && image.Inside(p)
    ensures var i := p.y * image.width + p.x; 0 <= i < |image.pixels| && image.At(p) == image.pixels[i]
  {
    IndexInside(image.width, image.height, p);
  }

  lemma IndexInjective(width: nat, p: Point, q: Point)
    requires 0 <= p.x < width && 0 <= q.x < width && Offset(width, p) == Offset(width, q)
    ensures p == q
  {
    assert width * (p.y - q.y) == p.y * width - q.y * width;
    SmallMultiple(width, p.y - q.y);
  }

  /** Plotting changes the one pixel plotted. */
  lemma PlotAt(image: Image, d: Dot, q: Point)
    requires image.WellFormed() && image.Inside(q)
    ensures image.Plot(d).At(q) == if q == d.at then d.color else image.At(q)
  {
    if image.Inside(d.at) && q != d.at && image.Index(q) == image.Index(d.at) {
      IndexInjective(image.width, q, d.at);
    }
  }

  function Paint(image: Image, dots: seq<Dot>): (r: Image)
    requires image.WellFormed()
    ensures r.WellFormed() && r.width == image.width && r.height == image.height
  {
    if dots == [] then image else Paint(image, dots[..|dots| - 1]).Plot(dots[|dots| - 1])
  }

  function Tint(points: seq<Point>, color: Pixel): (r: seq<Dot>)
    ensures |r| == |points| && forall i :: 0 <= i < |r| ==> r[i] == Dot(points[i], color)
  {
    seq(|points|, i requires 0 <= i < |points| => Dot(points[i], color))
  }

  lemma TintAppend(points: seq<Point>, p: Point, color: Pixel)
    ensures Tint(points + [p], color) == Tint(points, color) + [Dot(p, color)]
  {
  }

  /** All that happened between `before` and `now` is that `points` were drawn, in this order. */
  ghost predicate Drew(before: seq<Dot>, points: seq<Point>, color: Pixel, now: seq<Dot>) {
    now == before + Tint(points, color)
  }

  lemma DrewNothing(before: seq<Dot>, color: Pixel)
    ensures Drew(before, [], color, before)
  {
  }

  lemma DrewOne(before: seq<Dot>, p: Point, color: Pixel, now: seq<Dot>)
    requires now == before + [Dot(p, color)]
    ensures Drew(before, [p], color, now)
  {
    assert Tint([p], color) == [Dot(p, color)];
  }

  lemma DrewThen(before: seq<Dot>, a: seq<Point>, mid: seq<Dot>, b: seq<Point>, now: seq<Dot>, color: Pixel)
    requires Drew(before, a, color, mid) && Drew(mid, b, color, now)
    ensures Drew(before, a + b, color, now)
  {
    assert Tint(a + b, color) == Tint(a, color) + Tint(b, color);
  }

  /** A point of the picture shows the color exactly if it was drawn or showed it before. */
  lemma {:induction false} PaintAt(image: Image, points: seq<Point>, color: Pixel, q: Point)
    requires image.WellFormed() && image.Inside(q)
    ensures Paint(image, Tint(points, color)).At(q) == if q in points then color else image.At(q)
  {
    if points != [] {
      var front, last := points[..|points| - 1], points[|points| - 1];
      assert points == front + [last];
      TintAppend(front, last, color);
      assert Tint(points, color)[..|points| - 1] == Tint(front, color);
      PaintAt(image, front, color, q);
      PlotAt(Paint(image, Tint(front, color)), Dot(last, color), q);
    }
  }

  lemma {:induction false} PaintConcat(image: Image, a: seq<Dot>, b: seq<Dot>)
    requires image.WellFormed()
    ensures Paint(image, a + b) == Paint(Paint(image, a), b)
  {
    if b == [] {
      assert a + b == a;
    } else {
      assert (a + b)[..|a + b| - 1] == a + b[..|b| - 1];
      PaintConcat(image, a, b[..|b| - 1]);
    }
  }

  /** The picture after some points were drawn: they show the color and nothing else has changed. */
  lemma PictureAfter(start: Image, before: seq<Dot>, points: seq<Point>, color: Pixel, now: seq<Dot>, q: Point)
    requires start.WellFormed() && start.Inside(q) && Drew(before, points, color, now)
    ensures Paint(start, now).At(q) == if q in points then color else Paint(start, before).At(q)
  {
    PaintConcat(start, before, Tint(points, color));
    PaintAt(Paint(start, before), points, color, q);
  }

  /** The engine in its normal pixel mode, with its draw target. */
  class Engine {
    const width: nat
    const height: nat
    const pixels: array<Pixel>
    ghost const start: Image    // the picture the engine began with
    ghost var drawn: seq<Dot>   // all calls of Draw since

    ghost function Picture(): Image
      reads pixels
    {
      Image(width, height, pixels[..])
    }

    ghost predicate Valid()
      reads this, pixels
    {
      && pixels.Length == width * height
      && start.WellFormed() && start.width == width && start.height == height
      && Picture() == Paint(start, drawn)
    }

    constructor (pixels: array<Pixel>, width: nat, height: nat)
      requires pixels.Length == width * height
      ensures Valid() && this.pixels == pixels && this.width == width && this.height == height
      ensures drawn == [] && start == Image(width, height, pixels[..])
    {
      this.pixels, this.width, this.height := pixels, width, height;
      start := Image(width, height, pixels[..]);
      drawn := [];
    }

    /** `Draw`, which is `SetPixel` on the target. */
    method Draw(x: int, y: int, p: Pixel) returns (done: bool)
      requires Valid()
      modifies this`drawn, pixels
      ensures Valid() && drawn == old(drawn) + [Dot(Point(x, y), p)]
      ensures done <==> 0 <= x < width && 0 <= y < height
    {
      hide Offset;
      ghost var d := Dot(Point(x, y), p);
      done := 0 <= x < width && 0 <= y < height;
      if done {
        IndexInside(width, height, Point(x, y));
        pixels[Offset(width, Point(x, y))] := p;
      }
      assert (drawn + [d])[..|drawn|] == drawn;
      drawn := drawn + [d];
    }
  }
}

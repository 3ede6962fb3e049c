/** `DrawSprite`: a sprite scaled, mirrored and clipped onto the draw target. */
module Sprites {
  import opened DrawTargets
  import opened Rounding

  datatype SampleMode = Normal | Periodic

  /** `GetPixel`; the remainder of the periodic mode takes the sign of its dividend, which `abs` drops. */
  function GetPixel(sprite: Image, mode: SampleMode, x: int, y: int): Pixel
    requires sprite.WellFormed()
    requires mode == Periodic ==> sprite.width > 0 && sprite.height > 0
  {
    match mode
    case Normal => if sprite.Inside(Point(x, y)) then sprite.At(Point(x, y)) else 0
    case Periodic => sprite.At(Point(Abs(x) % sprite.width, Abs(y) % sprite.height))
  }

  /** Both modes agree on the sprite itself. */
  lemma GetPixelInside(sprite: Image, mode: SampleMode, x: int, y: int)
    requires sprite.WellFormed() && sprite.Inside(Point(x, y))
    ensures GetPixel(sprite, mode, x, y) == sprite.At(Point(x, y))
  {
    SmallRemainder(x, sprite.width);
    SmallRemainder(y, sprite.height);
  }

  /**
   Beyond the sprite the normal mode shows nothing, and the periodic one the sprite again and again,
   mirrored about the axes.
   */
  lemma GetPixelOutside(sprite: Image, x: int, y: int)
    requires sprite.WellFormed()
    ensures !sprite.Inside(Point(x, y)) ==> GetPixel(sprite, Normal, x, y) == 0
    ensures sprite.width > 0 && sprite.height > 0 ==>
      && GetPixel(sprite, Periodic, -x, y) == GetPixel(sprite, Periodic, x, -y) == GetPixel(sprite, Periodic, x, y)
      && (x >= 0 ==> GetPixel(sprite, Periodic, x + sprite.width, y) == GetPixel(sprite, Periodic, x, y))
      && (y >= 0 ==> GetPixel(sprite, Periodic, x, y + sprite.height) == GetPixel(sprite, Periodic, x, y))
  {
    if sprite.width > 0 && sprite.height > 0 {
      if x >= 0 { NextRemainder(x, sprite.width); }
      if y >= 0 { NextRemainder(y, sprite.height); }
    }
    hide Image.At;
  }

  lemma NextRemainder(n: nat, d: nat)
    requires d > 0
    ensures (n + d) % d == n % d
  {
    var q := n / d;
    QuotientBounds(n, d);
    assert d * (q + 1) == d * q + d;
    QuotientUnique(n + d, d, q + 1);
  }

  lemma SmallRemainder(n: int, d: nat)
    requires 0 <= n < d
    ensures Abs(n) % d == n
  {
    QuotientUnique(n, d, 0);
  }

  predicate Horizontal(flip: bv8) {
    flip & 1 != 0
  }

  predicate Vertical(flip: bv8) {
    flip & 2 != 0
  }

  function Mirror(flipped: bool, size: nat, i: int): int {
    if flipped then size - 1 - i else i
  }

  /** A sprite about to be drawn: where, how large and which way round. */
  datatype Drawing = Drawing(sprite: Image, x: int, y: int, scale: nat, flip: bv8)
  {
    ghost predicate Valid() {
      sprite.WellFormed() && scale > 0
    }

    function Right(): int {
      x + sprite.width * scale
    }

    function Bottom(): int {
      y + sprite.height * scale
    }

    predicate Covers(p: Point) {
      x <= p.x < Right() && y <= p.y < Bottom()
    }

    /** The pixel of the sprite that is drawn at `p`. */
    function Source(p: Point): Point
      requires scale > 0
    {
      Point(Mirror(Horizontal(flip), sprite.width, (p.x - x) / scale),
            Mirror(Vertical(flip), sprite.height, (p.y - y) / scale))
    }

    function Wanted(p: Point): Pixel
      requires Valid()
    {
      if sprite.Inside(Source(p)) then sprite.At(Source(p)) else 0
    }
  }

  /** The dots fill the rectangle, each pixel once and with the color wanted there. */
  ghost predicate Fills(d: Drawing, dots: seq<Dot>, l: int, t: int, r: int, b: int)
    requires d.Valid()
  {
    && (forall k :: 0 <= k < |dots| ==>
          l <= dots[k].at.x < r && t <= dots[k].at.y < b && dots[k].color == d.Wanted(dots[k].at))
    && (forall p: Point :: l <= p.x < r && t <= p.y < b ==> HasDot(dots, p))
    && (forall i, j :: 0 <= i < j < |dots| ==> dots[i].at != dots[j].at)
  }

  ghost predicate HasDot(dots: seq<Dot>, p: Point) {
    exists k :: 0 <= k < |dots| && dots[k].at == p
  }

  lemma FillsNothing(d: Drawing, l: int, t: int, r: int, b: int)
    requires d.Valid() && (l >= r || t >= b)
    ensures Fills(d, [], l, t, r, b)
  {
  }

  lemma FillsOne(d: Drawing, p: Point, color: Pixel)
    requires d.Valid() && color == d.Wanted(p)
    ensures Fills(d, [Dot(p, color)], p.x, p.y, p.x + 1, p.y + 1)
  {
    hide Drawing.Wanted;
    assert [Dot(p, color)][0].at == p;
  }

  lemma HasDotOf(a: seq<Dot>, b: seq<Dot>, p: Point)
    ensures HasDot(a, p) || HasDot(b, p) ==> HasDot(a + b, p)
  {
    if HasDot(a, p) {
      var k :| 0 <= k < |a| && a[k].at == p;
      assert (a + b)[k].at == p;
    } else if HasDot(b, p) {
      var k :| 0 <= k < |b| && b[k].at == p;
      assert (a + b)[|a| + k].at == p;
    }
  }

  /** Two rectangles side by side. */
  lemma FillsBeside(d: Drawing, a: seq<Dot>, b: seq<Dot>, l: int, m: int, r: int, t: int, u: int)
    requires d.Valid() && l <= m <= r && Fills(d, a, l, t, m, u) && Fills(d, b, m, t, r, u)
    ensures Fills(d, a + b, l, t, r, u)
  {
    hide Drawing.Wanted;
    forall p: Point | l <= p.x < r && t <= p.y < u ensures HasDot(a + b, p) {
      HasDotOf(a, b, p);
    }
    hide HasDot;
  }

  /** One rectangle above the other. */
  lemma FillsBelow(d: Drawing, a: seq<Dot>, b: seq<Dot>, l: int, r: int, t: int, m: int, u: int)
    requires d.Valid() && t <= m <= u && Fills(d, a, l, t, r, m) && Fills(d, b, l, m, r, u)
    ensures Fills(d, a + b, l, t, r, u)
  {
    hide Drawing.Wanted;
    forall p: Point | l <= p.x < r && t <= p.y < u ensures HasDot(a + b, p) {
      HasDotOf(a, b, p);
    }
    hide HasDot;
  }

  // ---- What the picture shows ----

  lemma {:induction false} LastDotShows(image: Image, d: Drawing, dots: seq<Dot>, q: Point)
    requires image.WellFormed() && image.Inside(q) && d.Valid()
    requires forall k :: 0 <= k < |dots| ==> dots[k].color == d.Wanted(dots[k].at)
    ensures Paint(image, dots).At(q) == if HasDot(dots, q) then d.Wanted(q) else image.At(q)
  {
    hide Drawing.Wanted;
    if dots != [] {
      var front, last := dots[..|dots| - 1], dots[|dots| - 1];
      LastDotShows(image, d, front, q);
      PlotAt(Paint(image, front), last, q);
      assert dots == front + [last];
      HasDotOf(front, [last], q);
      assert HasDot([last], q) <== last.at == q by { assert [last][0] == last; }
      assert HasDot(dots, q) ==> HasDot(front, q) || last.at == q by {
        assert forall k :: 0 <= k < |front| ==> front[k] == dots[k];
      }
    }
  }

  /** Inside the rectangle the picture shows the sprite, and outside it has not changed. */
  lemma SpriteShows(start: Image, before: seq<Dot>, d: Drawing, dots: seq<Dot>, q: Point)
    requires start.WellFormed() && start.Inside(q) && d.Valid() && Fills(d, dots, d.x, d.y, d.Right(), d.Bottom())
    ensures Paint(start, before + dots).At(q) == if d.Covers(q) then d.Wanted(q) else Paint(start, before).At(q)
  {
    PaintConcat(start, before, dots);
    LastDotShows(Paint(start, before), d, dots, q);
    hide Drawing.Wanted, Drawing.Right, Drawing.Bottom;
    assert HasDot(dots, q) ==> d.Covers(q);
  }

  lemma QuotientInside(u: int, n: int, s: int)
    requires s > 0 && 0 <= u < n * s
    ensures 0 <= u / s < n
  {
    QuotientBounds(u, s);
    assert n * s == s * n && s * -1 == -s;
    ProductOrder(u / s, n, s);
    ProductOrder(-1, u / s, s);
  }

  /** Every pixel drawn is one of the sprite's. */
  lemma SourceInside(d: Drawing, p: Point)
    requires d.Valid() && d.Covers(p)
    ensures d.sprite.Inside(d.Source(p)) && d.Wanted(p) == d.sprite.At(d.Source(p))
  {
    QuotientInside(p.x - d.x, d.sprite.width, d.scale);
    QuotientInside(p.y - d.y, d.sprite.height, d.scale);
  }

  /** Pixels of the same square of the target show the same pixel of the sprite. */
  lemma SourceAt(d: Drawing, i: int, j: int, u: int, v: int)
    requires d.Valid() && 0 <= u < d.scale && 0 <= v < d.scale
    ensures d.Source(Point(d.x + i * d.scale + u, d.y + j * d.scale + v)) ==
      Point(if d.flip & 1 != 0 then d.sprite.width - 1 - i else i,
            if d.flip & 2 != 0 then d.sprite.height - 1 - j else j)
  {
    assert d.scale * i == i * d.scale && d.scale * j == j * d.scale;
    QuotientUnique(i * d.scale + u, d.scale, i);
    QuotientUnique(j * d.scale + v, d.scale, j);
  }

  // ---- The method ----

  ghost predicate Wants(d: Drawing, l: int, t: int, color: Pixel)
    requires d.Valid()
  {
    forall p: Point :: l <= p.x < l + d.scale && t <= p.y < t + d.scale ==> d.Wanted(p) == color
  }

  lemma SquareWants(d: Drawing, i: nat, j: nat)
    requires d.Valid() && i < d.sprite.width && j < d.sprite.height
    ensures var p := Point(Mirror(Horizontal(d.flip), d.sprite.width, i), Mirror(Vertical(d.flip), d.sprite.height, j));
      d.sprite.Inside(p) && Wants(d, d.x + i * d.scale, d.y + j * d.scale, d.sprite.At(p))
  {
    var p := Point(Mirror(Horizontal(d.flip), d.sprite.width, i), Mirror(Vertical(d.flip), d.sprite.height, j));
    var l, t := d.x + i * d.scale, d.y + j * d.scale;
    forall q: Point | l <= q.x < l + d.scale && t <= q.y < t + d.scale ensures d.Wanted(q) == d.sprite.At(p) {
      SourceAt(d, i, j, q.x - l, q.y - t);
      hide Drawing.Source, Image.At, Horizontal, Vertical;
    }
  }

  lemma WantsHere(d: Drawing, l: int, t: int, color: Pixel, u: nat, v: nat)
    requires d.Valid() && Wants(d, l, t, color) && u < d.scale && v < d.scale
    ensures color == d.Wanted(Point(l + u, t + v))
  {
  }

  /** One pixel of the sprite, as a square of the target. */
  method DrawSquare(e: Engine, l: int, t: int, scale: nat, color: Pixel, ghost d: Drawing)
    returns (ghost dots: seq<Dot>)
    requires e.Valid() && d.Valid() && d.scale == scale && Wants(d, l, t, color)
    modifies e`drawn, e.pixels
    ensures e.Valid() && e.drawn == old(e.drawn) + dots && Fills(d, dots, l, t, l + scale, t + scale)
  {
    hide Fills, Engine.Valid, Wants, Drawing.Wanted;
    dots := [];
    FillsNothing(d, l, t, l, t + scale);
    for si := 0 to scale
      invariant e.Valid() && e.drawn == old(e.drawn) + dots
      invariant Fills(d, dots, l, t, l + si, t + scale)
    {
      ghost var strip := DrawStrip(e, l, t, si, scale, color, d);
      FillsBeside(d, dots, strip, l, l + si, l + si + 1, t, t + scale);
      dots := dots + strip;
    }
  }

  method DrawStrip(e: Engine, l: int, t: int, si: nat, scale: nat, color: Pixel, ghost d: Drawing)
    returns (ghost strip: seq<Dot>)
    requires e.Valid() && d.Valid() && d.scale == scale && Wants(d, l, t, color) && si < scale
    modifies e`drawn, e.pixels
    ensures e.Valid() && e.drawn == old(e.drawn) + strip && Fills(d, strip, l + si, t, l + si + 1, t + scale)
  {
    hide Fills, Engine.Valid, Wants, Drawing.Wanted;
    strip := [];
    FillsNothing(d, l + si, t, l + si + 1, t);
    for sj := 0 to scale
      invariant e.Valid() && e.drawn == old(e.drawn) + strip
      invariant Fills(d, strip, l + si, t, l + si + 1, t + sj)
    {
      var p := Point(l + si, t + sj);
      WantsHere(d, l, t, color, si, sj);
      var _ := e.Draw(p.x, p.y, color);
      FillsOne(d, p, color);
      FillsBelow(d, strip, [Dot(p, color)], l + si, l + si + 1, t, t + sj, t + sj + 1);
      strip := strip + [Dot(p, color)];
    }
  }

  /** The variables with which an axis is walked, backwards if it is mirrored. */
  method Axis(flipped: bool, size: nat) returns (start: int, step: int)
    ensures start == Mirror(flipped, size, 0)
    ensures step == if flipped then -1 else 1
  {
    start, step := 0, 1;
    if flipped { start, step := size - 1, -1; }
  }

  /** One column of the sprite. */
  method DrawColumn(e: Engine, x: int, y: int, sprite: Image, mode: SampleMode, i: nat, fx: int, fys: int, fym: int,
                    scale: nat,
                    ghost d: Drawing)
    returns (ghost dots: seq<Dot>)
    requires e.Valid() && d.Valid() && d == Drawing(sprite, x, y, scale, d.flip) && i < sprite.width
    requires fx == Mirror(Horizontal(d.flip), sprite.width, i)
    requires fys == Mirror(Vertical(d.flip), sprite.height, 0) && fym == if Vertical(d.flip) then -1 else 1
    modifies e`drawn, e.pixels
    ensures e.Valid() && e.drawn == old(e.drawn) + dots
    ensures Fills(d, dots, x + i * scale, y, x + i * scale + scale, d.Bottom())
  {
    hide Fills, Engine.Valid, Wants, Drawing.Wanted, Horizontal, Vertical, Image.At;
    dots := [];
    var fy := fys;
    ghost var l, t := x + i * scale, y;
    FillsNothing(d, l, y, l + scale, y);
    for j := 0 to sprite.height
      invariant e.Valid() && e.drawn == old(e.drawn) + dots
      invariant fy == Mirror(Vertical(d.flip), sprite.height, j) && t == y + j * scale
      invariant Fills(d, dots, l, y, l + scale, t)
    {
      SquareWants(d, i, j);
      GetPixelInside(sprite, mode, fx, fy);
      ghost var square := DrawSquare(e, x + i * scale, y + j * scale, scale, GetPixel(sprite, mode, fx, fy), d);
      StepProducts(j, scale);
      FillsBelow(d, dots, square, l, l + scale, y, t, t + scale);
      dots := dots + square;
      fy := fy + fym;
      t := t + scale;
    }
  }

  /** A scale of zero or one draws each pixel once, which is what the other branch does at scale one. */
  method DrawSprite(e: Engine, x: int, y: int, sprite: Image, mode: SampleMode, scale: nat, flip: bv8)
    returns (ghost dots: seq<Dot>)
    requires e.Valid() && sprite.WellFormed()
    modifies e`drawn, e.pixels
    ensures e.Valid() && e.drawn == old(e.drawn) + dots
    ensures var d := Drawing(sprite, x, y, if scale > 1 then scale else 1, flip);
      Fills(d, dots, x, y, d.Right(), d.Bottom())
  {
    hide Fills, Engine.Valid, Horizontal, Vertical;
    var s: nat := if scale > 1 then scale else 1;
    ghost var d := Drawing(sprite, x, y, s, flip);
    var fxs, fxm := Axis(Horizontal(flip), sprite.width);
    var fys, fym := Axis(Vertical(flip), sprite.height);
    dots := [];
    var fx := fxs;
    ghost var l := x;
    FillsNothing(d, x, y, x, d.Bottom());
    for i := 0 to sprite.width
      invariant e.Valid() && e.drawn == old(e.drawn) + dots
      invariant fx == Mirror(Horizontal(flip), sprite.width, i) && l == x + i * s
      invariant Fills(d, dots, x, y, l, d.Bottom())
    {
      ghost var column := DrawColumn(e, x, y, sprite, mode, i, fx, fys, fym, s, d);
      StepProducts(i, s);
      BottomBelow(d);
      FillsBeside(d, dots, column, x, l, l + s, y, d.Bottom());
      dots := dots + column;
      fx := fx + fxm;
      l := l + s;
    }
  }

  lemma BottomBelow(d: Drawing)
    requires d.Valid()
    ensures d.x <= d.Right() && d.y <= d.Bottom()
  {
  }

  // ---- Flipping ----

  /** The sprite the other way round. */
  function Flipped(sprite: Image, flip: bv8): (r: Image)
    requires sprite.WellFormed()
    ensures r.WellFormed() && r.width == sprite.width && r.height == sprite.height
  {
    sprite.(pixels := seq(|sprite.pixels|, k requires 0 <= k < |sprite.pixels| =>
      PointAtInside(sprite, k);
      sprite.At(Flip(sprite.width, sprite.height, flip, PointAt(sprite.width, k)))))
  }

  function Flip(width: nat, height: nat, flip: bv8, p: Point): Point {
    Point(Mirror(Horizontal(flip), width, p.x), Mirror(Vertical(flip), height, p.y))
  }

  /** The point kept at an index. */
  function PointAt(width: nat, k: nat): Point {
    if width == 0 then Point(0, 0) else Point(k % width, k / width)
  }

  lemma PointAtInside(sprite: Image, k: nat)
    requires sprite.WellFormed() && k < |sprite.pixels|
    ensures sprite.Inside(PointAt(sprite.width, k)) && Offset(sprite.width, PointAt(sprite.width, k)) == k
  {
    var w, h := sprite.width, sprite.height;
    if w > 0 {
      QuotientBounds(k, w);
      assert w * h == h * w && w * (k / w) == k / w * w;
      QuotientInside(k, h, w);
    }
  }

  lemma FlippedAt(sprite: Image, flip: bv8, p: Point)
    requires sprite.WellFormed() && sprite.Inside(p)
    ensures sprite.Inside(Flip(sprite.width, sprite.height, flip, p))
    ensures Flipped(sprite, flip).At(p) == sprite.At(Flip(sprite.width, sprite.height, flip, p))
  {
    var k := sprite.Index(p);
    PointAtInside(sprite, k);
    IndexInjective(sprite.width, PointAt(sprite.width, k), p);
  }

  /** Pictures of the same size that show the same everywhere are the same. */
  lemma SamePicture(a: Image, b: Image)
    requires a.WellFormed() && b.WellFormed() && a.width == b.width && a.height == b.height
    requires forall p :: a.Inside(p) ==> a.At(p) == b.At(p)
    ensures a == b
  {
    forall k | 0 <= k < |a.pixels| ensures a.pixels[k] == b.pixels[k] {
      PointAtInside(a, k);
      assert a.At(PointAt(a.width, k)) == b.At(PointAt(a.width, k));
    }
  }

  /** Flipping twice the same way restores the sprite. */
  lemma FlippedTwice(sprite: Image, flip: bv8)
    requires sprite.WellFormed()
    ensures Flipped(Flipped(sprite, flip), flip) == sprite
  {
    var once := Flipped(sprite, flip);
    forall p | sprite.Inside(p) ensures Flipped(once, flip).At(p) == sprite.At(p) {
      FlippedAt(sprite, flip, p);
      FlippedAt(once, flip, p);
      FlippedAt(sprite, flip, Flip(sprite.width, sprite.height, flip, p));
    }
    hide Flipped;
    SamePicture(Flipped(once, flip), sprite);
  }

  lemma SourceAtScaleOne(sprite: Image, flip: bv8, q: Point)
    ensures Drawing(sprite, 0, 0, 1, flip).Source(q) == Flip(sprite.width, sprite.height, flip, q)
    ensures var d := Drawing(sprite, 0, 0, 1, flip); d.Right() == sprite.width && d.Bottom() == sprite.height
  {
    hide Horizontal, Vertical;
  }

  lemma ShowsFlipped(target: Image, sprite: Image, flip: bv8, dots: seq<Dot>, q: Point)
    requires target.WellFormed() && sprite.WellFormed() && target.width == sprite.width
    requires target.height == sprite.height
    requires Fills(Drawing(sprite, 0, 0, 1, flip), dots, 0, 0, sprite.width, sprite.height) && target.Inside(q)
    ensures Paint(target, dots).At(q) == Flipped(sprite, flip).At(q)
  {
    var d := Drawing(sprite, 0, 0, 1, flip);
    assert [] + dots == dots;
    hide Flipped, Paint, Fills, Image.At, Drawing.Wanted, Horizontal, Vertical, Flip;
    SourceAtScaleOne(sprite, flip, q);
    SpriteShows(target, [], d, dots, q);
    SourceInside(d, q);
    FlippedAt(sprite, flip, q);
  }

  /** Drawn at scale one onto a target of its own size, a sprite leaves itself there, flipped. */
  lemma DrawnFlipped(target: Image, sprite: Image, flip: bv8, dots: seq<Dot>)
    requires target.WellFormed() && sprite.WellFormed() && target.width == sprite.width
    requires target.height == sprite.height
    requires Fills(Drawing(sprite, 0, 0, 1, flip), dots, 0, 0, sprite.width, sprite.height)
    ensures Paint(target, dots) == Flipped(sprite, flip)
  {
    hide Flipped, Paint, Fills, Image.At;
    forall q | target.Inside(q) ensures Paint(target, dots).At(q) == Flipped(sprite, flip).At(q) {
      ShowsFlipped(target, sprite, flip, dots, q);
    }
    SamePicture(Paint(target, dots), Flipped(sprite, flip));
  }

  /** So drawing what was drawn, flipped the same way, restores the sprite. */
  lemma FlippingTwiceRestores(target: Image, sprite: Image, flip: bv8, once: seq<Dot>, twice: seq<Dot>)
    requires target.WellFormed() && sprite.WellFormed() && target.width == sprite.width
    requires target.height == sprite.height
    requires Fills(Drawing(sprite, 0, 0, 1, flip), once, 0, 0, sprite.width, sprite.height)
    requires Fills(Drawing(Paint(target, once), 0, 0, 1, flip), twice, 0, 0, sprite.width, sprite.height)
    ensures Paint(target, twice) == sprite
  {
    DrawnFlipped(target, sprite, flip, once);
    DrawnFlipped(target, Paint(target, once), flip, twice);
    FlippedTwice(sprite, flip);
  }
}

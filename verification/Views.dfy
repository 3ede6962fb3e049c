/** The client's view of the world: panning and zooming, over exact reals. */
module Views {
  import opened DrawTargets

  datatype Vector = Vector(x: real, y: real)

  datatype View = View(offset: Vector, scale: Vector, startPan: Vector, panning: bool)
  {
    predicate Positive() {
      scale.x > 0.0 && scale.y > 0.0
    }
  }

  function AsVector(p: Point): Vector {
    Vector(p.x as real, p.y as real)
  }

  function WorldAt(v: View, p: Vector): Vector
    requires v.Positive()
  {
    Vector(ToWorld(p.x, v.scale.x, v.offset.x), ToWorld(p.y, v.scale.y, v.offset.y))
  }

  /** One axis of it. */
  function ToWorld(a: real, scale: real, offset: real): real
    requires scale > 0.0
  {
    a / scale + offset
  }

  /** `ScreenToWorld`. */
  function ScreenToWorld(v: View, p: Point): Vector
    requires v.Positive()
  {
    WorldAt(v, AsVector(p))
  }

  /** `WorldToScreen`: the screen pixel that a world point falls into. */
  function WorldToScreen(v: View, w: Vector): Point {
    Point(((w.x - v.offset.x) * v.scale.x).Floor, ((w.y - v.offset.y) * v.scale.y).Floor)
  }

  // ---- Real arithmetic ----

  lemma DivideMultiply(a: real, s: real)
    requires s > 0.0
    ensures a / s * s == a && a * s / s == a
  {
  }

  lemma TimesOrder(a: real, b: real, s: real)
    requires s > 0.0
    ensures a <= b <==> a * s <= b * s
    ensures a < b <==> a * s < b * s
  {
    assert (b - a) * s == b * s - a * s;
    if a < b {
      assert (b - a) * s > 0.0;
    } else if a > b {
      assert (a - b) * s > 0.0;
      assert (a - b) * s == a * s - b * s;
    }
  }

  lemma FloorExactly(r: real, n: int)
    ensures r.Floor == n <==> n as real <= r < n as real + 1.0
  {
  }

  /** One axis: the pixel of a world coordinate is the one whose edges enclose it. */
  lemma PixelOf(w: real, offset: real, scale: real, n: int)
    requires scale > 0.0
    ensures ((w - offset) * scale).Floor == n <==>
      (ToWorld(n as real, scale, offset) <= w && w < ToWorld((n + 1) as real, scale, offset))
  {
    var r := (w - offset) * scale;
    FloorExactly(r, n);
    DivideMultiply(n as real, scale);
    DivideMultiply((n + 1) as real, scale);
    TimesOrder(n as real / scale, w - offset, scale);
    TimesOrder(w - offset, (n + 1) as real / scale, scale);
  }

  // ---- The two conversions ----

  /** From the screen to the world and back is the identity on pixels. */
  lemma ThereAndBack(v: View, p: Point)
    requires v.Positive()
    ensures WorldToScreen(v, ScreenToWorld(v, p)) == p
  {
    DivideMultiply(p.x as real, v.scale.x);
    DivideMultiply(p.y as real, v.scale.y);
  }

  /** The way back: a world point lies in the square that its pixel covers in the world. */
  lemma BackAndThere(v: View, w: Vector, p: Point)
    requires v.Positive()
    ensures WorldToScreen(v, w) == p <==>
      (var near, far := ScreenToWorld(v, p), ScreenToWorld(v, Point(p.x + 1, p.y + 1));
      near.x <= w.x < far.x && near.y <= w.y < far.y)
  {
    hide ToWorld;
    PixelOf(w.x, v.offset.x, v.scale.x, p.x);
    PixelOf(w.y, v.offset.y, v.scale.y, p.y);
  }

  // ---- Tiles ----

  function Ceiling(r: real): int {
    -(-r).Floor
  }

  function TopLeftTile(v: View): Point
    requires v.Positive()
  {
    TileUnder(v, Point(0, 0))
  }

  function BottomRightTile(v: View, viewArea: Point): Point
    requires v.Positive()
  {
    var w := ScreenToWorld(v, viewArea);
    Point(Ceiling(w.x), Ceiling(w.y))
  }

  function TileUnder(v: View, p: Point): Point
    requires v.Positive()
  {
    var w := ScreenToWorld(v, p);
    Point(w.x.Floor, w.y.Floor)
  }

  lemma DivideOrder(a: real, b: real, s: real)
    requires s > 0.0
    ensures a < b <==> a / s < b / s
  {
    DivideMultiply(a, s);
    DivideMultiply(b, s);
    TimesOrder(a / s, b / s, s);
  }

  /** `DrawWorld` goes through every tile that is under some pixel of the screen. */
  lemma TilesOnScreen(v: View, viewArea: Point, p: Point)
    requires v.Positive() && 0 <= p.x < viewArea.x && 0 <= p.y < viewArea.y
    ensures TopLeftTile(v).x <= TileUnder(v, p).x < BottomRightTile(v, viewArea).x
    ensures TopLeftTile(v).y <= TileUnder(v, p).y < BottomRightTile(v, viewArea).y
  {
    DivideOrder(p.x as real, viewArea.x as real, v.scale.x);
    DivideOrder(p.y as real, viewArea.y as real, v.scale.y);
    DivideOrder(p.x as real, 0.0, v.scale.x);
    DivideOrder(p.y as real, 0.0, v.scale.y);
  }

  lemma FloorBelow(r: real, n: int)
    ensures r.Floor <= n <==> r < (n + 1) as real
  {
    FloorExactly(r, r.Floor);
  }

  lemma CeilingAbove(r: real, n: int)
    ensures n < Ceiling(r) <==> n as real < r
  {
    FloorExactly(-r, (-r).Floor);
  }

  /** The tiles drawn are those that meet the part of the world on the screen, and no others. */
  lemma TilesExactly(v: View, viewArea: Point, tile: Point)
    requires v.Positive()
    ensures var near, far := ScreenToWorld(v, Point(0, 0)), ScreenToWorld(v, viewArea);
      && (TopLeftTile(v).x <= tile.x < BottomRightTile(v, viewArea).x <==>
            tile.x as real < far.x && near.x < (tile.x + 1) as real)
      && (TopLeftTile(v).y <= tile.y < BottomRightTile(v, viewArea).y <==>
            tile.y as real < far.y && near.y < (tile.y + 1) as real)
  {
    var near, far := ScreenToWorld(v, Point(0, 0)), ScreenToWorld(v, viewArea);
    FloorBelow(near.x, tile.x);
    FloorBelow(near.y, tile.y);
    CeilingAbove(far.x, tile.x);
    CeilingAbove(far.y, tile.y);
    hide Ceiling, ScreenToWorld;
  }

  // ---- Panning and zooming ----

  function StartPan(v: View, p: Point): View {
    v.(panning := true, startPan := AsVector(p))
  }

  function UpdatePan(v: View, p: Point): View
    requires v.Positive()
  {
    if !v.panning then v
    else
      var moved := Vector((p.x as real - v.startPan.x) / v.scale.x, (p.y as real - v.startPan.y) / v.scale.y);
      v.(offset := Vector(v.offset.x - moved.x, v.offset.y - moved.y), startPan := AsVector(p))
  }

  function EndPan(v: View, p: Point): View
    requires v.Positive()
  {
    UpdatePan(v, p).(panning := false)
  }

  /** The offset that puts `w` back under screen position `p`. */
  function Refocused(v: View, w: Vector, p: Point): View
    requires v.Positive()
  {
    var after := ScreenToWorld(v, p);
    v.(offset := Vector(v.offset.x + (w.x - after.x), v.offset.y + (w.y - after.y)))
  }

  function ZoomAt(v: View, zoom: real, p: Point): View
    requires v.Positive() && zoom > 0.0
  {
    StillPositive(v, zoom);
    var scaled := v.(scale := Vector(v.scale.x * zoom, v.scale.y * zoom));
    Refocused(scaled, ScreenToWorld(v, p), p)
  }

  function SetZoom(v: View, zoom: real, p: Point): View
    requires v.Positive() && zoom > 0.0
  {
    Refocused(v.(scale := Vector(zoom, zoom)), ScreenToWorld(v, p), p)
  }

  /** Zooming leaves the world point under the cursor where it is. */
  lemma ZoomKeepsPoint(v: View, zoom: real, p: Point)
    requires v.Positive() && zoom > 0.0
    ensures ZoomAt(v, zoom, p).Positive() && SetZoom(v, zoom, p).Positive()
    ensures ScreenToWorld(ZoomAt(v, zoom, p), p) == ScreenToWorld(v, p)
    ensures ScreenToWorld(SetZoom(v, zoom, p), p) == ScreenToWorld(v, p)
    ensures ZoomAt(v, zoom, p).panning == v.panning && ZoomAt(v, zoom, p).startPan == v.startPan
  {
    StillPositive(v, zoom);
  }

  lemma StillPositive(v: View, zoom: real)
    requires v.Positive() && zoom > 0.0
    ensures v.scale.x * zoom > 0.0 && v.scale.y * zoom > 0.0
  {
  }

  lemma Regroup(a: real, b: real, s: real)
    requires s > 0.0
    ensures (a - b) / s == a / s - b / s
  {
  }

  /** Dragging brings the world point that was under the last position under the new one. */
  lemma PanMovesPoint(v: View, p: Point)
    requires v.Positive() && v.panning
    ensures UpdatePan(v, p).Positive() && UpdatePan(v, p).panning && UpdatePan(v, p).startPan == AsVector(p)
    ensures ScreenToWorld(UpdatePan(v, p), p) == WorldAt(v, v.startPan)
  {
    Regroup(p.x as real, v.startPan.x, v.scale.x);
    Regroup(p.y as real, v.startPan.y, v.scale.y);
  }

  // ---- Frames ----

  /** The middle mouse button, the wheel and the mouse position in one frame. */
  datatype Frame = Frame(pressed: bool, held: bool, released: bool, wheel: int, mouse: Point)

  function Panned(v: View, f: Frame): View
    requires v.Positive()
  {
    var v1 := if f.pressed then StartPan(v, f.mouse) else v;
    var v2 := if f.held then UpdatePan(v1, f.mouse) else v1;
    if f.released then EndPan(v2, f.mouse) else v2
  }

  function Zoomed(v: View, f: Frame): (r: View)
    requires v.Positive()
    ensures r.Positive()
  {
    if f.wheel > 0 then (ZoomKeepsPoint(v, 1.5, f.mouse); ZoomAt(v, 1.5, f.mouse))
    else if f.wheel < 0 then (ZoomKeepsPoint(v, 0.75, f.mouse); ZoomAt(v, 0.75, f.mouse))
    else v
  }

  /** `HandlePanAndZoom`. */
  function Next(v: View, f: Frame): (r: View)
    requires v.Positive()
    ensures r.Positive()
  {
    Zoomed(Panned(v, f), f)
  }

  predicate Follows(v: View, f: Frame, w: View) {
    v.Positive() ==> w == Next(v, f)
  }

  ghost predicate IsRun(run: seq<View>, frames: seq<Frame>) {
    && |run| == |frames| + 1 && run[0].Positive()
    && (forall i :: 0 <= i < |frames| ==> Follows(run[i], frames[i], run[i + 1]))
  }

  /** The button goes down in the first frame, and stays down until it is let go in the last one at the earliest. */
  ghost predicate IsDrag(frames: seq<Frame>) {
    && frames != [] && frames[0].pressed
    && (forall i :: 0 < i < |frames| ==> !frames[i].pressed && (frames[i].held || frames[i].released))
    && (forall i :: 0 <= i < |frames| - 1 ==> !frames[i].released)
  }

  /** Zooming in a frame changes neither the world point under the mouse nor the state of a drag. */
  lemma ZoomedKeeps(v: View, f: Frame)
    requires v.Positive()
    ensures ScreenToWorld(Zoomed(v, f), f.mouse) == ScreenToWorld(v, f.mouse)
    ensures Zoomed(v, f).panning == v.panning && Zoomed(v, f).startPan == v.startPan
  {
    ZoomKeepsPoint(v, 1.5, f.mouse);
    ZoomKeepsPoint(v, 0.75, f.mouse);
    hide ZoomAt, ScreenToWorld;
  }

  lemma DragBegins(v: View, f: Frame)
    requires v.Positive() && f.pressed
    ensures ScreenToWorld(Next(v, f), f.mouse) == ScreenToWorld(v, f.mouse)
    ensures Next(v, f).startPan == AsVector(f.mouse)
    ensures !f.released ==> Next(v, f).panning
  {
    var started := StartPan(v, f.mouse);
    PanMovesPoint(started, f.mouse);
    var held := if f.held then UpdatePan(started, f.mouse) else started;
    PanMovesPoint(held, f.mouse);
    ZoomedKeeps(Panned(v, f), f);
    hide UpdatePan, Zoomed;
  }

  lemma DragGoesOn(v: View, f: Frame)
    requires v.Positive() && v.panning && !f.pressed && (f.held || f.released)
    ensures ScreenToWorld(Next(v, f), f.mouse) == WorldAt(v, v.startPan)
    ensures Next(v, f).startPan == AsVector(f.mouse)
    ensures !f.released ==> Next(v, f).panning
  {
    PanMovesPoint(v, f.mouse);
    PanMovesPoint(UpdatePan(v, f.mouse), f.mouse);
    ZoomedKeeps(Panned(v, f), f);
    hide UpdatePan, Zoomed;
  }

  /** The scale stays positive, whatever the frames. */
  lemma {:induction false} ScalePositive(run: seq<View>, frames: seq<Frame>, i: nat)
    requires IsRun(run, frames) && i < |run|
    ensures run[i].Positive()
  {
    if i > 0 {
      ScalePositive(run, frames, i - 1);
      assert Follows(run[i - 1], frames[i - 1], run[i]);
    }
  }

  /**
   From press to release, with any zooming in between, the world point that was grabbed is under the
   mouse at the end of every frame.
   */
  lemma {:induction false} GrabbedPointStays(run: seq<View>, frames: seq<Frame>, i: nat)
    requires IsRun(run, frames) && IsDrag(frames) && i < |frames|
    ensures run[i + 1].Positive()
    ensures ScreenToWorld(run[i + 1], frames[i].mouse) == ScreenToWorld(run[0], frames[0].mouse)
    ensures run[i + 1].startPan == AsVector(frames[i].mouse) && (i + 1 < |frames| ==> run[i + 1].panning)
  {
    ScalePositive(run, frames, i);
    ScalePositive(run, frames, i + 1);
    assert Follows(run[i], frames[i], run[i + 1]);
    hide Next;
    if i == 0 {
      DragBegins(run[0], frames[0]);
    } else {
      GrabbedPointStays(run, frames, i - 1);
      DragGoesOn(run[i], frames[i]);
    }
  }

  // ---- The scale ----

  /** Panning leaves the scale alone, and zooming multiplies it or sets it. */
  lemma ScaleAfter(v: View, zoom: real, p: Point)
    requires v.Positive() && zoom > 0.0
    ensures StartPan(v, p).scale == UpdatePan(v, p).scale == EndPan(v, p).scale == v.scale
    ensures ZoomAt(v, zoom, p).scale == Vector(v.scale.x * zoom, v.scale.y * zoom)
    ensures SetZoom(v, zoom, p).scale == Vector(zoom, zoom)
  {
    StillPositive(v, zoom);
  }

  /** Those of the first `n` frames that turn the wheel up. */
  function UpFrames(frames: seq<Frame>, n: nat): set<int>
    requires n <= |frames|
  {
    set i | 0 <= i < n && frames[i].wheel > 0
  }

  function DownFrames(frames: seq<Frame>, n: nat): set<int>
    requires n <= |frames|
  {
    set i | 0 <= i < n && frames[i].wheel < 0
  }

  function Power(base: real, n: nat): real {
    if n == 0 then 1.0 else base * Power(base, n - 1)
  }

  lemma CountNext(frames: seq<Frame>, n: nat)
    requires n < |frames|
    ensures |UpFrames(frames, n + 1)| == |UpFrames(frames, n)| + if frames[n].wheel > 0 then 1 else 0
    ensures |DownFrames(frames, n + 1)| == |DownFrames(frames, n)| + if frames[n].wheel < 0 then 1 else 0
  {
    UpNext(frames, n);
    DownNext(frames, n);
    hide UpFrames, DownFrames;
  }

  lemma UpNext(frames: seq<Frame>, n: nat)
    requires n < |frames|
    ensures UpFrames(frames, n + 1) == UpFrames(frames, n) + (if frames[n].wheel > 0 then {n} else {})
    ensures n !in UpFrames(frames, n)
  {
  }

  lemma DownNext(frames: seq<Frame>, n: nat)
    requires n < |frames|
    ensures DownFrames(frames, n + 1) == DownFrames(frames, n) + (if frames[n].wheel < 0 then {n} else {})
    ensures n !in DownFrames(frames, n)
  {
  }

  /** By what a number of turns of the wheel multiplies the scale. */
  function Factor(ups: nat, downs: nat): real {
    Power(3.0 / 2.0, ups) * Power(3.0 / 4.0, downs)
  }

  lemma FactorNext(ups: nat, downs: nat)
    ensures Factor(ups + 1, downs) == Factor(ups, downs) * 1.5
    ensures Factor(ups, downs + 1) == Factor(ups, downs) * 0.75
  {
    var a, b := Power(3.0 / 2.0, ups), Power(3.0 / 4.0, downs);
    assert Power(3.0 / 2.0, ups + 1) == 1.5 * a && Power(3.0 / 4.0, downs + 1) == 0.75 * b;
    hide Power;
    assert (1.5 * a) * b == (a * b) * 1.5 && a * (0.75 * b) == (a * b) * 0.75;
  }

  /** What a frame multiplies the scale by. */
  function Turn(f: Frame): real {
    if f.wheel > 0 then 1.5 else if f.wheel < 0 then 0.75 else 1.0
  }

  lemma NextScale(v: View, f: Frame)
    requires v.Positive()
    ensures Next(v, f).scale == Vector(v.scale.x * Turn(f), v.scale.y * Turn(f))
  {
    ScaleAfter(v, 1.5, f.mouse);
    var w := Panned(v, f);
    assert w.scale == v.scale;
    ScaleAfter(w, 1.5, f.mouse);
    ScaleAfter(w, 0.75, f.mouse);
    hide ZoomAt, Panned;
  }

  /** What the first `n` frames multiply it by. */
  function FactorOf(frames: seq<Frame>, n: nat): real
    requires n <= |frames|
  {
    Factor(|UpFrames(frames, n)|, |DownFrames(frames, n)|)
  }

  lemma FactorOfNext(frames: seq<Frame>, n: nat)
    requires n < |frames|
    ensures FactorOf(frames, n + 1) == FactorOf(frames, n) * Turn(frames[n])
  {
    CountNext(frames, n);
    FactorNext(|UpFrames(frames, n)|, |DownFrames(frames, n)|);
    hide Factor, UpFrames, DownFrames;
  }

  lemma TimesAssociative(a: real, b: real, c: real)
    ensures a * b * c == a * (b * c)
  {
  }

  lemma NoFrames(frames: seq<Frame>)
    ensures FactorOf(frames, 0) == 1.0
  {
    assert UpFrames(frames, 0) == {} && DownFrames(frames, 0) == {};
  }

  /**
   After any frames the scale is the one at the start, one and a half times as large for every frame
   that turned the wheel up and three quarters as large for every one that turned it down.
   */
  lemma {:induction false} ScaleIs(run: seq<View>, frames: seq<Frame>, i: nat)
    requires IsRun(run, frames) && i < |run|
    ensures var k := Factor(|UpFrames(frames, i)|, |DownFrames(frames, i)|);
      run[i].scale == Vector(run[0].scale.x * k, run[0].scale.y * k)
  {
    hide Factor, Next, UpFrames, DownFrames, Turn;
    if i == 0 {
      NoFrames(frames);
    } else {
      ScaleIs(run, frames, i - 1);
      ScalePositive(run, frames, i - 1);
      assert Follows(run[i - 1], frames[i - 1], run[i]);
      NextScale(run[i - 1], frames[i - 1]);
      FactorOfNext(frames, i - 1);
      TimesAssociative(run[0].scale.x, FactorOf(frames, i - 1), Turn(frames[i - 1]));
      TimesAssociative(run[0].scale.y, FactorOf(frames, i - 1), Turn(frames[i - 1]));
    }
  }

  /** A step of one pixel on the screen is the inverse of the scale in the world, from the offset on. */
  lemma PixelSize(v: View, p: Point)
    requires v.Positive()
    ensures ScreenToWorld(v, Point(0, 0)) == v.offset
    ensures (ScreenToWorld(v, Point(p.x + 1, p.y + 1)).x - ScreenToWorld(v, p).x) * v.scale.x == 1.0
    ensures (ScreenToWorld(v, Point(p.x + 1, p.y + 1)).y - ScreenToWorld(v, p).y) * v.scale.y == 1.0
  {
    OneStep(p.x as real, v.scale.x, v.offset.x);
    OneStep(p.y as real, v.scale.y, v.offset.y);
  }

  lemma OneStep(a: real, s: real, offset: real)
    requires s > 0.0
    ensures (ToWorld(a + 1.0, s, offset) - ToWorld(a, s, offset)) * s == 1.0
  {
    Regroup(a + 1.0, a, s);
    DivideMultiply(1.0, s);
  }

  // ---- Dragging, and not ----

  /** In some frame before the i-th the button went down, and it has not come up since. */
  ghost predicate DragUnderWay(frames: seq<Frame>, i: nat)
    requires i <= |frames|
  {
    exists j :: 0 <= j < i && frames[j].pressed && forall k :: j <= k < i ==> !frames[k].released
  }

  lemma DragNext(frames: seq<Frame>, i: nat)
    requires i < |frames|
    ensures DragUnderWay(frames, i + 1) <==> (DragUnderWay(frames, i) || frames[i].pressed) && !frames[i].released
  {
    if DragUnderWay(frames, i) && !frames[i].released {
      var j :| 0 <= j < i && frames[j].pressed && forall k :: j <= k < i ==> !frames[k].released;
      assert frames[j].pressed && forall k :: j <= k < i + 1 ==> !frames[k].released;
    }
    if DragUnderWay(frames, i + 1) {
      var j :| 0 <= j < i + 1 && frames[j].pressed && forall k :: j <= k < i + 1 ==> !frames[k].released;
      assert !frames[i].released;
      assert j < i ==> frames[j].pressed && forall k :: j <= k < i ==> !frames[k].released;
    }
  }

  lemma NextPanning(v: View, f: Frame)
    requires v.Positive()
    ensures Next(v, f).panning <==> (v.panning || f.pressed) && !f.released
    ensures !v.panning && !f.pressed ==> Panned(v, f) == v
  {
    ZoomedKeeps(Panned(v, f), f);
    hide Zoomed;
  }

  /** The view is being dragged exactly from a press to the next release. */
  lemma {:induction false} PanningExactly(run: seq<View>, frames: seq<Frame>, i: nat)
    requires IsRun(run, frames) && i < |run| && !run[0].panning
    ensures run[i].panning <==> DragUnderWay(frames, i)
  {
    if i > 0 {
      PanningExactly(run, frames, i - 1);
      ScalePositive(run, frames, i - 1);
      assert Follows(run[i - 1], frames[i - 1], run[i]);
      NextPanning(run[i - 1], frames[i - 1]);
      DragNext(frames, i - 1);
      hide Next, DragUnderWay, Panned;
    }
  }

  /** While no drag is under way a frame only zooms, and without the wheel it changes nothing. */
  lemma NoDragNoMove(run: seq<View>, frames: seq<Frame>, i: nat)
    requires IsRun(run, frames) && i < |frames| && !run[0].panning
    requires !DragUnderWay(frames, i) && !frames[i].pressed
    ensures run[i].Positive() && run[i + 1].Positive()
    ensures ScreenToWorld(run[i + 1], frames[i].mouse) == ScreenToWorld(run[i], frames[i].mouse)
    ensures frames[i].wheel == 0 ==> run[i + 1] == run[i]
  {
    PanningExactly(run, frames, i);
    ScalePositive(run, frames, i);
    ScalePositive(run, frames, i + 1);
    assert Follows(run[i], frames[i], run[i + 1]);
    NextPanning(run[i], frames[i]);
    ZoomedKeeps(run[i], frames[i]);
    hide ZoomAt, Panned, ScreenToWorld;
  }
}

/** The view as the program has it: an object that panning and zooming update. */
module TransformedViews {
  import opened DrawTargets
  import opened Views

  class TransformedView {
    var worldOffset: Vector
    var worldScale: Vector
    var startPan: Vector
    var panning: bool

    function State(): View
      reads this
    {
      View(worldOffset, worldScale, startPan, panning)
    }

    /** `Initialise`. */
    constructor (pixelScale: Vector)
      ensures State() == View(Vector(0.0, 0.0), pixelScale, Vector(0.0, 0.0), false)
    {
      worldOffset, worldScale := Vector(0.0, 0.0), pixelScale;
      startPan, panning := Vector(0.0, 0.0), false;
    }

    method StartPan(p: Point)
      modifies this
      ensures State() == Views.StartPan(old(State()), p)
    {
      panning := true;
      startPan := AsVector(p);
    }

    method UpdatePan(p: Point)
      requires State().Positive()
      modifies this
      ensures State() == Views.UpdatePan(old(State()), p)
    {
      if panning {
        var moved := Vector((p.x as real - startPan.x) / worldScale.x, (p.y as real - startPan.y) / worldScale.y);
        worldOffset := Vector(worldOffset.x - moved.x, worldOffset.y - moved.y);
        startPan := AsVector(p);
      }
    }

    method EndPan(p: Point)
      requires State().Positive()
      modifies this
      ensures State() == Views.EndPan(old(State()), p)
    {
      UpdatePan(p);
      panning := false;
    }

    method ZoomAtScreenPos(zoom: real, p: Point)
      requires State().Positive() && zoom > 0.0
      modifies this
      ensures State() == ZoomAt(old(State()), zoom, p)
    {
      StillPositive(State(), zoom);
      ghost var was := State();
      var before := ScreenToWorld(State(), p);
      worldScale := Vector(worldScale.x * zoom, worldScale.y * zoom);
      assert State() == was.(scale := Vector(was.scale.x * zoom, was.scale.y * zoom));
      var after := ScreenToWorld(State(), p);
      worldOffset := Vector(worldOffset.x + (before.x - after.x), worldOffset.y + (before.y - after.y));
    }

    method SetZoom(zoom: real, p: Point)
      requires State().Positive() && zoom > 0.0
      modifies this
      ensures State() == Views.SetZoom(old(State()), zoom, p)
    {
      var before := ScreenToWorld(State(), p);
      worldScale := Vector(zoom, zoom);
      var after := ScreenToWorld(State(), p);
      worldOffset := Vector(worldOffset.x + (before.x - after.x), worldOffset.y + (before.y - after.y));
    }

    /** The client's `HandlePanAndZoom`. */
    method HandlePanAndZoom(f: Frame)
      requires State().Positive()
      modifies this
      ensures State() == Next(old(State()), f)
    {
      if f.pressed { StartPan(f.mouse); }
      if f.held { UpdatePan(f.mouse); }
      if f.released { EndPan(f.mouse); }
      if f.wheel > 0 { ZoomAtScreenPos(1.5, f.mouse); }
      if f.wheel < 0 { ZoomAtScreenPos(0.75, f.mouse); }
    }
  }
}

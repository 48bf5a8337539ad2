/**
 The drag-to-zoom selection on the mass-spectrum plot: a left press starts a
 selection, moves over the plot track its end, and a left release over the
 plot commits the rectangle between start and end as the new view.
 */
module DragZoom {
  import opened Wrappers
  import opened Viewport
  import opened Events

  /** A data point, either coordinate possibly missing. */
  datatype Point = Point(x: Option<real>, y: Option<real>)

  /** The selection state: whether a drag is in progress, and its start and
      latest end point. */
  datatype Drag = Drag(active: bool, start: Option<Point>, end: Option<Point>)

  const Idle: Drag := Drag(false, None, None)

  predicate Defined(p: Point) {
    p.x.Some? && p.y.Some?
  }

  function Min(a: real, b: real): real {
    if a <= b then a else b
  }

  function Max(a: real, b: real): real {
    if a <= b then b else a
  }

  /** The axis-aligned rectangle spanned by two points. */
  function Span(a: Point, b: Point): (r: Box)
    requires Defined(a) && Defined(b)
    ensures r.x.lo <= r.x.hi && r.y.lo <= r.y.hi
    ensures {r.x.lo, r.x.hi} == {a.x.value, b.x.value}
    ensures {r.y.lo, r.y.hi} == {a.y.value, b.y.value}
  {
    Box(Limits(Min(a.x.value, b.x.value), Max(a.x.value, b.x.value)),
        Limits(Min(a.y.value, b.y.value), Max(a.y.value, b.y.value)))
  }

  /** A press on the spectrum plot: the left button starts a selection at the
      pressed point; the end point of an earlier drag is not cleared. */
  function Press(d: Drag, ev: MouseEvent): (r: Drag)
    ensures ev.axes == SpectrumAxes && ev.button == LeftButton ==>
              r.active && r.start == Some(Point(ev.x, ev.y)) && r.end == d.end
    ensures !(ev.axes == SpectrumAxes && ev.button == LeftButton) ==> r == d
  {
    if ev.axes == SpectrumAxes && ev.button == LeftButton then
      d.(active := true, start := Some(Point(ev.x, ev.y)))
    else
      d
  }

  /** A move: tracked as the end point only during a drag and only over the
      spectrum plot. */
  function Move(d: Drag, ev: MouseEvent): (r: Drag)
    ensures r.active == d.active && r.start == d.start
    ensures d.active && ev.axes == SpectrumAxes ==> r.end == Some(Point(ev.x, ev.y))
    ensures !(d.active && ev.axes == SpectrumAxes) ==> r.end == d.end
  {
    if d.active && ev.axes == SpectrumAxes then d.(end := Some(Point(ev.x, ev.y))) else d
  }

  /** A release that ends the drag: left button, over the spectrum plot,
      while a drag is in progress. */
  predicate Completes(d: Drag, ev: MouseEvent) {
    d.active && ev.axes == SpectrumAxes && ev.button == LeftButton
  }

  /** The drag has both points with both coordinates. */
  predicate Committable(d: Drag) {
    d.start.Some? && d.end.Some? && Defined(d.start.value) && Defined(d.end.value)
  }

  datatype Released = Released(drag: Drag, view: Box)

  /** A release: a completing release returns to idle and, when both points
      are fully known, zooms the view to the rectangle they span; any other
      release changes nothing. The release point itself is not used. */
  function Release(d: Drag, view: Box, ev: MouseEvent): (r: Released)
    ensures Completes(d, ev) ==> r.drag == Idle
    ensures Completes(d, ev) && Committable(d) ==> r.view == Span(d.start.value, d.end.value)
    ensures Completes(d, ev) && !Committable(d) ==> r.view == view
    ensures !Completes(d, ev) ==> r == Released(d, view)
  {
    if Completes(d, ev) then
      if Committable(d) then Released(Idle, Span(d.start.value, d.end.value))
      else Released(Idle, view)
    else
      Released(d, view)
  }

  /** The zoom rectangle does not depend on the direction of the drag. */
  lemma SpanSymmetric(a: Point, b: Point)
    requires Defined(a) && Defined(b)
    ensures Span(a, b) == Span(b, a)
  {
  }

  /** A left press at `a`, a move to `b` and a left release over the plot
      zoom the view to exactly the rectangle spanned by `a` and `b`, whatever
      the earlier state, and leave the selection idle. */
  lemma PressMoveReleaseZooms(d: Drag, view: Box, press: MouseEvent, move: MouseEvent, release: MouseEvent)
    requires press.axes == SpectrumAxes && press.button == LeftButton
    requires move.axes == SpectrumAxes
    requires release.axes == SpectrumAxes && release.button == LeftButton
    requires Defined(Point(press.x, press.y)) && Defined(Point(move.x, move.y))
    ensures var r := Release(Move(Press(d, press), move), view, release);
      && r.drag == Idle
      && r.view.x == Limits(Min(press.x.value, move.x.value), Max(press.x.value, move.x.value))
      && r.view.y == Limits(Min(press.y.value, move.y.value), Max(press.y.value, move.y.value))
  {
  }

  /** Dragging from (100, 50) to (400, 10) shows m/z 100..400 and
      intensity 10..50. */
  lemma DragExample(d: Drag, view: Box)
    ensures var r := Release(Move(Press(d, MouseEvent(SpectrumAxes, LeftButton, Some(100.0), Some(50.0))),
                                 MouseEvent(SpectrumAxes, 0, Some(400.0), Some(10.0))),
                            view, MouseEvent(SpectrumAxes, LeftButton, Some(400.0), Some(10.0)));
      r.view == Box(Limits(100.0, 400.0), Limits(10.0, 50.0))
  {
  }

  /** A press followed at once by a release, with no move in between, zooms
      to the end point left over from an earlier unfinished drag. */
  lemma PressReleaseUsesStaleEnd(d: Drag, view: Box, press: MouseEvent, release: MouseEvent)
    requires d.end.Some? && Defined(d.end.value)
    requires press.axes == SpectrumAxes && press.button == LeftButton && Defined(Point(press.x, press.y))
    requires release.axes == SpectrumAxes && release.button == LeftButton
    ensures Release(Press(d, press), view, release).view == Span(Point(press.x, press.y), d.end.value)
  {
  }
}

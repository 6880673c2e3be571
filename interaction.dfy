/**
 * The canvas editing rules: the nearest-hit searches behind selection and
 * dragging, snapping with axis lock, committing a drawn line, wheel zoom and
 * the keyboard handler (typed lengths, undo, delete).
 *
 * The handlers change the application state in place; each is a method on
 * `State.AppState` specified by a function on `State.StateValue`, and the
 * properties of the editing rules are lemmas about those functions.
 */
module Interaction {
  import opened Wrappers
  import opened JsValues
  import opened Plan
  import opened Geometry
  import opened Utils
  import opened State
  import Render2D

  // ------------------------------------------------------------------
  // First-found nearest candidate
  // ------------------------------------------------------------------

  /**
   * Among the first `n` candidate distances, `i` is within `bound`, strictly
   * nearer than every earlier candidate within it and no farther than any
   * later one: the winner of a scan that takes a candidate only when
   * `d <= bound && (!best || d < best.d)`.
   */
  predicate FirstNearestIn(ds: seq<real>, n: int, bound: real, i: int)
  {
    0 <= i < n <= |ds| && ds[i] <= bound &&
    (forall j :: 0 <= j < i && ds[j] <= bound ==> ds[i] < ds[j]) &&
    (forall j :: i < j < n && ds[j] <= bound ==> ds[i] <= ds[j])
  }

  /** None of the first `n` candidates is within `bound`. */
  predicate NoneWithinIn(ds: seq<real>, n: int, bound: real)
  {
    0 <= n <= |ds| && forall j :: 0 <= j < n ==> ds[j] > bound
  }

  predicate FirstNearest(ds: seq<real>, bound: real, i: int)
  {
    FirstNearestIn(ds, |ds|, bound, i)
  }

  predicate NoneWithin(ds: seq<real>, bound: real)
  {
    NoneWithinIn(ds, |ds|, bound)
  }

  /** The scan after `n` candidates: `best` is the winner so far, or none was in range. */
  predicate ScannedTo(ds: seq<real>, bound: real, n: int, best: Option<nat>)
  {
    if best.None? then NoneWithinIn(ds, n, bound) else FirstNearestIn(ds, n, bound, best.value)
  }

  /** One step of the scan keeps `ScannedTo`. */
  lemma ScanStep(ds: seq<real>, bound: real, n: nat, best: Option<nat>)
    requires ScannedTo(ds, bound, n, best) && n < |ds|
    ensures best.Some? ==> best.value < n
    ensures ScannedTo(ds, bound, n + 1,
                      if ds[n] <= bound && (best.None? || ds[n] < ds[best.value]) then Some(n) else best)
  {
  }

  /** The winner of a scan is determined by the distances. */
  lemma FirstNearestUnique(ds: seq<real>, bound: real, i: int, j: int)
    requires FirstNearest(ds, bound, i) && FirstNearest(ds, bound, j)
    ensures i == j
  {
  }

  // ------------------------------------------------------------------
  // findLineAtPoint
  // ------------------------------------------------------------------

  /** Each line's distance to the point, in screen pixels. */
  function LineDistances(sqrt: real -> real, lines: seq<Line>, viewScale: real, p: Point): (ds: seq<real>)
    ensures |ds| == |lines|
    ensures forall i :: 0 <= i < |lines| ==>
              ds[i] == DistancePointToSegment(sqrt, p, StartOf(lines[i]), EndOf(lines[i])) * viewScale
  {
    seq(|lines|, i requires 0 <= i < |lines| =>
      DistancePointToSegment(sqrt, p, StartOf(lines[i]), EndOf(lines[i])) * viewScale)
  }

  /**
   * The first line among the nearest ones within `tolerancePx` screen pixels of
   * the world point, or none when no line is that close.
   */
  method FindLineAtPoint(sqrt: real -> real, lines: seq<Line>, viewScale: real, worldPt: Point, tolerancePx: real)
    returns (r: Option<Line>)
    ensures r.None? <==> NoneWithin(LineDistances(sqrt, lines, viewScale, worldPt), tolerancePx)
    ensures r.Some? ==>
              exists i :: FirstNearest(LineDistances(sqrt, lines, viewScale, worldPt), tolerancePx, i) &&
                          r.value == lines[i]
  {
    ghost var ds := LineDistances(sqrt, lines, viewScale, worldPt);
    var best: Option<(real, Line)> := None;
    ghost var index: Option<nat> := None;
    for k := 0 to |lines|
      invariant ScannedTo(ds, tolerancePx, k, index)
      invariant best.None? <==> index.None?
      invariant index.Some? ==> index.value < k && best.value == (ds[index.value], lines[index.value])
    {
      var l := lines[k];
      var dWorld := DistancePointToSegment(sqrt, worldPt, StartOf(l), EndOf(l));
      var dScreen := dWorld * viewScale;
      assert dScreen == ds[k];
      ScanStep(ds, tolerancePx, k, index);
      if dScreen <= tolerancePx && (best.None? || dScreen < best.value.0) {
        best := Some((dScreen, l));
        index := Some(k);
      }
    }
    r := if best.Some? then Some(best.value.1) else None;
  }

  // ------------------------------------------------------------------
  // findEndpointAtScreen
  // ------------------------------------------------------------------

  /** `{d, line, which}`: the hit endpoint, its line and its distance in pixels. */
  datatype EndpointHit = EndpointHit(d: real, line: Line, which: Render2D.Which)

  /** `worldToScreenX` / `worldToScreenY`: `(w - offset) * scale`. */
  function ScreenCoord(w: real, offset: real, scale: real): real
  {
    (w - offset) * scale
  }

  /** A world point on the screen. */
  function ToScreen(p: Point, offsetX: real, offsetY: real, scale: real): Point
  {
    Point(ScreenCoord(p.x, offsetX, scale), ScreenCoord(p.y, offsetY, scale))
  }

  /** The screen distance from the cursor to each endpoint, in `Render2D.Endpoints` order. */
  function EndpointDistances(sqrt: real -> real, lines: seq<Line>, offsetX: real, offsetY: real, scale: real,
                             cursor: Point): (ds: seq<real>)
    ensures |ds| == 2 * |lines|
    ensures forall e :: 0 <= e < |ds| ==>
              ds[e] == Render2D.Distance(sqrt, cursor, ToScreen(Render2D.Endpoints(lines)[e].at, offsetX, offsetY, scale))
  {
    if lines == [] then []
    else
      var l := lines[|lines| - 1];
      EndpointDistances(sqrt, lines[..|lines| - 1], offsetX, offsetY, scale, cursor) +
      [Render2D.Distance(sqrt, cursor, ToScreen(StartOf(l), offsetX, offsetY, scale)),
       Render2D.Distance(sqrt, cursor, ToScreen(EndOf(l), offsetX, offsetY, scale))]
  }

  /** Line `k`'s two endpoints and their distances, at positions `2k` and `2k + 1`. */
  lemma EndpointPairAt(sqrt: real -> real, lines: seq<Line>, offsetX: real, offsetY: real, scale: real,
                       cursor: Point, k: nat, eps: seq<Render2D.Endpoint>, ds: seq<real>)
    requires k < |lines| && eps == Render2D.Endpoints(lines)
    requires ds == EndpointDistances(sqrt, lines, offsetX, offsetY, scale, cursor)
    ensures |ds| == |eps| == 2 * |lines|
    ensures eps[2 * k] == Render2D.Endpoint(StartOf(lines[k]), lines[k], Render2D.Start)
    ensures eps[2 * k + 1] == Render2D.Endpoint(EndOf(lines[k]), lines[k], Render2D.End)
    ensures ds[2 * k] == Render2D.Distance(sqrt, cursor, ToScreen(StartOf(lines[k]), offsetX, offsetY, scale))
    ensures ds[2 * k + 1] == Render2D.Distance(sqrt, cursor, ToScreen(EndOf(lines[k]), offsetX, offsetY, scale))
  {
  }

  /** The scan after `n` endpoints: `index` is `ScannedTo`'s winner and `best` reports it. */
  ghost predicate Tracks(ds: seq<real>, eps: seq<Render2D.Endpoint>, bound: real, n: nat,
                         best: Option<EndpointHit>, index: Option<nat>)
  {
    |ds| == |eps| && ScannedTo(ds, bound, n, index) && (best.None? <==> index.None?) &&
    (index.Some? ==>
       index.value < n && best.value == EndpointHit(ds[index.value], eps[index.value].line, eps[index.value].which))
  }

  /** One candidate of `findEndpointAtScreen`: kept when within range and strictly nearer. */
  method Consider(ghost ds: seq<real>, ghost eps: seq<Render2D.Endpoint>, bound: real, ghost n: nat,
                  best: Option<EndpointHit>, ghost index: Option<nat>, hit: EndpointHit)
    returns (best': Option<EndpointHit>, ghost index': Option<nat>)
    requires n < |ds| && Tracks(ds, eps, bound, n, best, index)
    requires hit == EndpointHit(ds[n], eps[n].line, eps[n].which)
    ensures Tracks(ds, eps, bound, n + 1, best', index')
  {
    ScanStep(ds, bound, n, index);
    if hit.d <= bound && (best.None? || hit.d < best.value.d) {
      best', index' := Some(hit), Some(n);
    } else {
      best', index' := best, index;
    }
  }

  /**
   * The first among the nearest endpoints within `radiusPx` of the cursor, a
   * line's start coming before its end, or none when no endpoint is that close.
   */
  method FindEndpointAtScreen(sqrt: real -> real, lines: seq<Line>, offsetX: real, offsetY: real, scale: real,
                              sx: real, sy: real, radiusPx: real)
    returns (r: Option<EndpointHit>)
    ensures var ds := EndpointDistances(sqrt, lines, offsetX, offsetY, scale, Point(sx, sy));
            var eps := Render2D.Endpoints(lines);
            (r.None? <==> NoneWithin(ds, radiusPx)) &&
            (r.Some? ==>
               exists e :: FirstNearest(ds, radiusPx, e) && r.value == EndpointHit(ds[e], eps[e].line, eps[e].which))
  {
    ghost var eps := Render2D.Endpoints(lines);
    ghost var ds := EndpointDistances(sqrt, lines, offsetX, offsetY, scale, Point(sx, sy));
    var best: Option<EndpointHit> := None;
    ghost var index: Option<nat> := None;
    for k := 0 to |lines|
      invariant Tracks(ds, eps, radiusPx, 2 * k, best, index)
    {
      var l := lines[k];
      var sx1 := ScreenCoord(l.x1, offsetX, scale);
      var sy1 := ScreenCoord(l.y1, offsetY, scale);
      var sx2 := ScreenCoord(l.x2, offsetX, scale);
      var sy2 := ScreenCoord(l.y2, offsetY, scale);
      var dStart := Render2D.Distance(sqrt, Point(sx, sy), Point(sx1, sy1));
      var dEnd := Render2D.Distance(sqrt, Point(sx, sy), Point(sx2, sy2));
      assert ToScreen(StartOf(l), offsetX, offsetY, scale) == Point(sx1, sy1);
      assert ToScreen(EndOf(l), offsetX, offsetY, scale) == Point(sx2, sy2);
      EndpointPairAt(sqrt, lines, offsetX, offsetY, scale, Point(sx, sy), k, eps, ds);
      best, index := Consider(ds, eps, radiusPx, 2 * k, best, index, EndpointHit(dStart, l, Render2D.Start));
      best, index := Consider(ds, eps, radiusPx, 2 * k + 1, best, index, EndpointHit(dEnd, l, Render2D.End));
    }
    r := best;
  }

  // ------------------------------------------------------------------
  // snapPoint
  // ------------------------------------------------------------------

  /** `GRID_SPACING`, in inches. */
  const GridSpacing: real := 12.0
  /** `SNAP_DISTANCE`, in screen pixels. */
  const SnapDistance: real := 12.0

  /** The distance between two world points, measured in screen pixels. */
  function ScaledGap(sqrt: real -> real, p: Point, q: Point, scale: real): real
  {
    var dx := (p.x - q.x) * scale;
    var dy := (p.y - q.y) * scale;
    sqrt(dx * dx + dy * dy)
  }

  /** The screen distance from the raw point to each endpoint, in `Render2D.Endpoints` order. */
  function SnapDistances(sqrt: real -> real, lines: seq<Line>, scale: real, raw: Point): (ds: seq<real>)
    ensures |ds| == 2 * |lines|
    ensures forall e :: 0 <= e < |ds| ==> ds[e] == ScaledGap(sqrt, Render2D.Endpoints(lines)[e].at, raw, scale)
  {
    if lines == [] then []
    else
      var l := lines[|lines| - 1];
      SnapDistances(sqrt, lines[..|lines| - 1], scale, raw) +
      [ScaledGap(sqrt, StartOf(l), raw, scale), ScaledGap(sqrt, EndOf(l), raw, scale)]
  }

  /** `Math.round(w / GRID_SPACING) * GRID_SPACING` on each axis. */
  function GridPoint(raw: Point): Point
  {
    Point(Round(raw.x / GridSpacing) as real * GridSpacing, Round(raw.y / GridSpacing) as real * GridSpacing)
  }

  /**
   * Where the snap lands before any axis lock: the first nearest endpoint
   * within `SnapDistance`, unless the grid point is strictly nearer (and so
   * also within it); the grid point when it alone is in range; otherwise the
   * raw point.
   */
  ghost predicate SnapsTo(sqrt: real -> real, lines: seq<Line>, scale: real, raw: Point, t: Point)
  {
    var ds := SnapDistances(sqrt, lines, scale, raw);
    var grid := GridPoint(raw);
    var dg := ScaledGap(sqrt, grid, raw, scale);
    if NoneWithin(ds, SnapDistance) then
      t == (if dg <= SnapDistance then grid else raw)
    else
      exists e :: FirstNearest(ds, SnapDistance, e) &&
                  t == (if dg <= SnapDistance && dg < ds[e] then grid else Render2D.Endpoints(lines)[e].at)
  }

  /**
   * The axis lock against the anchor (the other end of the segment): a
   * nearly horizontal offset (`|dy| < 0.2 |dx|`) takes the anchor's y, else
   * a nearly vertical one takes the anchor's x; a zero offset stays.
   */
  function AxisLock(sqrt: real -> real, w: Point, anchor: Point): Point
  {
    var dx := w.x - anchor.x;
    var dy := w.y - anchor.y;
    var len := sqrt(Sq(dx) + Sq(dy));
    if len > 0.0 then
      if Abs(dy) < Abs(dx) * 0.2 then Point(w.x, anchor.y)
      else if Abs(dx) < Abs(dy) * 0.2 then Point(anchor.x, w.y)
      else w
    else w
  }

  /**
   * `snapPoint(worldRaw, anchor)`: the snap target, then the axis lock when an
   * anchor is given.
   */
  method SnapPoint(sqrt: real -> real, lines: seq<Line>, viewScale: real, worldRaw: Point, anchor: Option<Point>)
    returns (r: Point)
    ensures anchor.None? ==> SnapsTo(sqrt, lines, viewScale, worldRaw, r)
    ensures anchor.Some? ==>
              exists t :: SnapsTo(sqrt, lines, viewScale, worldRaw, t) && r == AxisLock(sqrt, t, anchor.value)
  {
    var pts := Render2D.Endpoints(lines);
    ghost var ds := SnapDistances(sqrt, lines, viewScale, worldRaw);
    var best: Option<(real, Point)> := None;
    ghost var index: Option<nat> := None;
    for e := 0 to |pts|
      invariant ScannedTo(ds, SnapDistance, e, index)
      invariant best.None? <==> index.None?
      invariant index.Some? ==> index.value < e && best.value == (ds[index.value], pts[index.value].at)
    {
      var p := pts[e].at;
      var d := ScaledGap(sqrt, p, worldRaw, viewScale);
      assert d == ds[e];
      ScanStep(ds, SnapDistance, e, index);
      if d <= SnapDistance && (best.None? || d < best.value.0) {
        best := Some((d, p));
        index := Some(e);
      }
    }
    var grid := GridPoint(worldRaw);
    var dg := ScaledGap(sqrt, grid, worldRaw, viewScale);
    if dg <= SnapDistance && (best.None? || dg < best.value.0) {
      best := Some((dg, grid));
    }
    var w := if best.Some? then best.value.1 else worldRaw;
    assert SnapsTo(sqrt, lines, viewScale, worldRaw, w);
    r := if anchor.Some? then AxisLock(sqrt, w, anchor.value) else w;
  }

  /** The snap target is the raw point itself or within `SnapDistance` pixels of it. */
  lemma SnapIsNear(sqrt: real -> real, lines: seq<Line>, scale: real, raw: Point, t: Point)
    requires SnapsTo(sqrt, lines, scale, raw, t)
    ensures t == raw || ScaledGap(sqrt, t, raw, scale) <= SnapDistance
  {
    var ds := SnapDistances(sqrt, lines, scale, raw);
    if !NoneWithin(ds, SnapDistance) {
      var e :| FirstNearest(ds, SnapDistance, e) &&
               t == (if ScaledGap(sqrt, GridPoint(raw), raw, scale) <= SnapDistance &&
                        ScaledGap(sqrt, GridPoint(raw), raw, scale) < ds[e]
                     then GridPoint(raw) else Render2D.Endpoints(lines)[e].at);
      assert ds[e] == ScaledGap(sqrt, Render2D.Endpoints(lines)[e].at, raw, scale);
    }
  }

  /** A grid point is its own grid point. */
  lemma GridPointFixed(kx: int, ky: int)
    ensures GridPoint(Point(kx as real * GridSpacing, ky as real * GridSpacing)) ==
            Point(kx as real * GridSpacing, ky as real * GridSpacing)
  {
    assert (kx as real * GridSpacing) / GridSpacing == kx as real;
    assert (ky as real * GridSpacing) / GridSpacing == ky as real;
    assert Round(kx as real) == kx by { FloorShift(0.5, -kx); }
    assert Round(ky as real) == ky by { FloorShift(0.5, -ky); }
  }

  /** With no endpoint in range, a point on the grid snaps to itself. */
  lemma GridPointSnapsToItself(sqrt: real -> real, lines: seq<Line>, scale: real, kx: int, ky: int, t: Point)
    requires IsSqrt(sqrt)
    requires NoneWithin(SnapDistances(sqrt, lines, scale, Point(kx as real * GridSpacing, ky as real * GridSpacing)),
                        SnapDistance)
    requires SnapsTo(sqrt, lines, scale, Point(kx as real * GridSpacing, ky as real * GridSpacing), t)
    ensures t == Point(kx as real * GridSpacing, ky as real * GridSpacing)
  {
    var raw := Point(kx as real * GridSpacing, ky as real * GridSpacing);
    GridPointFixed(kx, ky);
    assert GridPoint(raw) == raw;
    SqrtUnique(sqrt, 0.0, 0.0);
    assert (raw.x - raw.x) * scale == 0.0 && (raw.y - raw.y) * scale == 0.0;
    assert ScaledGap(sqrt, raw, raw, scale) == sqrt(0.0 * 0.0 + 0.0 * 0.0);
  }

  /** `sqrt` of a positive number is positive. */
  lemma SqrtPositive(sqrt: real -> real, x: real)
    requires IsSqrt(sqrt) && x > 0.0
    ensures sqrt(x) > 0.0
  {
  }

  /**
   * The axis lock's three outcomes: a nearly horizontal offset takes the
   * anchor's y, otherwise a nearly vertical one takes the anchor's x, and
   * anything else (including a zero offset) is left alone.
   */
  lemma AxisLockCases(sqrt: real -> real, w: Point, anchor: Point)
    requires IsSqrt(sqrt)
    ensures var dx, dy := w.x - anchor.x, w.y - anchor.y;
            var r := AxisLock(sqrt, w, anchor);
            (Abs(dy) < Abs(dx) * 0.2 ==> r == Point(w.x, anchor.y)) &&
            (!(Abs(dy) < Abs(dx) * 0.2) && Abs(dx) < Abs(dy) * 0.2 ==> r == Point(anchor.x, w.y)) &&
            (!(Abs(dy) < Abs(dx) * 0.2) && !(Abs(dx) < Abs(dy) * 0.2) ==> r == w)
  {
    var dx, dy := w.x - anchor.x, w.y - anchor.y;
    if dx != 0.0 || dy != 0.0 {
      SqrtPositive(sqrt, Sq(dx) + Sq(dy));
    }
  }

  /** Locking an already locked point against the same anchor changes nothing. */
  lemma AxisLockIdempotent(sqrt: real -> real, w: Point, anchor: Point)
    requires IsSqrt(sqrt)
    ensures AxisLock(sqrt, AxisLock(sqrt, w, anchor), anchor) == AxisLock(sqrt, w, anchor)
  {
    var r := AxisLock(sqrt, w, anchor);
    AxisLockCases(sqrt, w, anchor);
    AxisLockCases(sqrt, r, anchor);
  }

  // ------------------------------------------------------------------
  // Selecting, committing a drawn line, zooming
  // ------------------------------------------------------------------

  /** `selectLine(line)`: select it (or nothing) and stop any typed length. */
  function Selecting(s: StateValue, id: Option<int>): StateValue
  {
    s.(selectedLineId := id, isTypingLength := false, inlineLengthInput := "")
  }

  method SelectLine(st: AppState, line: Option<Line>)
    modifies st
    ensures st.Value() == Selecting(old(st.Value()), if line.Some? then Some(line.value.id) else None)
  {
    st.selectedLineId := if line.Some? then Some(line.value.id) else None;
    st.isTypingLength := false;
    st.inlineLengthInput := "";
  }

  /** The segment being drawn (`currentDrawing`). */
  datatype Drawing = Drawing(
    kind: Option<Kind>,
    heightInches: Option<real>,
    baseOffsetInches: Option<real>,
    x1: real, y1: real, x2: real, y2: real)

  /** A drawn segment is kept only when it is longer than this, in inches. */
  const MinCommitLength: real := 2.0

  function DrawingLength(sqrt: real -> real, d: Drawing): real
  {
    sqrt((d.x2 - d.x1) * (d.x2 - d.x1) + (d.y2 - d.y1) * (d.y2 - d.y1))
  }

  /** The line a drawing becomes: the given id, and a wall unless a kind was chosen. */
  function CommittedLine(d: Drawing, id: int): Line
  {
    Line(id, Some(if d.kind.Some? then d.kind.value else Wall), d.heightInches, d.baseOffsetInches,
         d.x1, d.y1, d.x2, d.y2, false)
  }

  /**
   * The mouse-up commit: a drawing longer than `MinCommitLength` saves the
   * state, becomes a line with id `nextLineId`, advances `nextLineId` and is
   * selected; a shorter one changes nothing.
   */
  function Committed(sqrt: real -> real, s: StateValue, d: Drawing): StateValue
  {
    if DrawingLength(sqrt, d) > MinCommitLength then
      var added := Saved(s).(lines := s.lines + [CommittedLine(d, s.nextLineId)], nextLineId := s.nextLineId + 1);
      Selecting(added, Some(s.nextLineId))
    else s
  }

  method CommitDrawing(st: AppState, sqrt: real -> real, d: Drawing)
    requires st.Valid()
    modifies st
    ensures st.Valid()
    ensures st.Value() == Committed(sqrt, old(st.Value()), d)
  {
    var len := DrawingLength(sqrt, d);
    ghost var s0 := st.Value();
    if len > 2.0 {
      st.SaveState();
      assert st.Value() == Saved(s0);
      var newLine := CommittedLine(d, st.nextLineId);
      st.nextLineId := st.nextLineId + 1;
      st.AddLine(newLine);
      assert st.Value() == Saved(s0).(lines := s0.lines + [newLine], nextLineId := s0.nextLineId + 1);
      SelectLine(st, Some(newLine));
    }
  }

  /** Every id is below `n`. */
  predicate IdsBelow(lines: seq<Line>, n: int)
  {
    forall i :: 0 <= i < |lines| ==> lines[i].id < n
  }

  /** No two lines share an id. */
  predicate UniqueIds(lines: seq<Line>)
  {
    forall i, j :: 0 <= i < j < |lines| ==> lines[i].id != lines[j].id
  }

  /**
   * Committing keeps ids unique and below `nextLineId`; a committed line is
   * appended with the old `nextLineId`, which advances by exactly one, and a
   * drawing without a kind becomes a wall.
   */
  lemma CommitKeepsIdsFresh(sqrt: real -> real, s: StateValue, d: Drawing)
    requires UniqueIds(s.lines) && IdsBelow(s.lines, s.nextLineId)
    ensures var r := Committed(sqrt, s, d);
            UniqueIds(r.lines) && IdsBelow(r.lines, r.nextLineId)
    ensures var r := Committed(sqrt, s, d);
            DrawingLength(sqrt, d) > MinCommitLength ==>
              |r.lines| == |s.lines| + 1 && r.lines[..|s.lines|] == s.lines &&
              r.lines[|s.lines|].id == s.nextLineId && r.nextLineId == s.nextLineId + 1 &&
              r.selectedLineId == Some(s.nextLineId) &&
              (d.kind.None? ==> LineKind(r.lines[|s.lines|]) == Wall)
    ensures DrawingLength(sqrt, d) <= MinCommitLength ==> Committed(sqrt, s, d) == s
  {
    var r := Committed(sqrt, s, d);
    if DrawingLength(sqrt, d) > MinCommitLength {
      assert r.lines == s.lines + [CommittedLine(d, s.nextLineId)];
      forall i, j | 0 <= i < j < |r.lines|
        ensures r.lines[i].id != r.lines[j].id
      {
        if j == |s.lines| {
          assert r.lines[i] == s.lines[i];
        }
      }
      assert r.lines[..|s.lines|] == s.lines;
    }
  }

  /** Wheel zoom bounds and step. */
  const MinScale: real := 0.1
  const MaxScale: real := 20.0
  const ZoomStep: real := 1.1

  /** The zoom factor: in for an upward wheel (`deltaY < 0`), out otherwise. */
  function ZoomFactor(deltaY: real): real
  {
    if deltaY < 0.0 then ZoomStep else 1.0 / ZoomStep
  }

  /** `Math.min(20, Math.max(0.1, scale * factor))`. */
  function ZoomedScale(scale: real, deltaY: real): (r: real)
    ensures MinScale <= r <= MaxScale
  {
    Render2D.Min(MaxScale, Render2D.Max(MinScale, scale * ZoomFactor(deltaY)))
  }

  /**
   * From a scale within bounds, zooming in never shrinks it and zooming out
   * never grows it, and an unclamped zoom is exactly the factor.
   */
  lemma ZoomDirection(scale: real, deltaY: real)
    requires MinScale <= scale <= MaxScale
    ensures deltaY < 0.0 ==> scale <= ZoomedScale(scale, deltaY)
    ensures deltaY >= 0.0 ==> ZoomedScale(scale, deltaY) <= scale
    ensures MinScale <= scale * ZoomFactor(deltaY) <= MaxScale ==>
              ZoomedScale(scale, deltaY) == scale * ZoomFactor(deltaY)
  {
  }

  /** Zooming in one notch and back out restores the scale unless the first step hit the upper bound. */
  lemma ZoomInThenOut(scale: real, up: real, down: real)
    requires MinScale <= scale && scale * ZoomStep <= MaxScale
    requires up < 0.0 <= down
    ensures ZoomedScale(ZoomedScale(scale, up), down) == scale
  {
    assert ZoomedScale(scale, up) == scale * ZoomStep;
    assert scale * ZoomStep * (1.0 / ZoomStep) == scale;
  }

  method HandleWheel(st: AppState, deltaY: real)
    modifies st
    ensures st.Value() == old(st.Value()).(viewScale := ZoomedScale(old(st.viewScale), deltaY))
  {
    var zoomFactor := if deltaY < 0.0 then 1.1 else 1.0 / 1.1;
    st.viewScale := Render2D.Min(20.0, Render2D.Max(0.1, st.viewScale * zoomFactor));
  }

  // ------------------------------------------------------------------
  // The keyboard handler
  // ------------------------------------------------------------------

  /** The keys that type a length. */
  const LengthChars: string := "0123456789.'\" "

  /** Which branch of the keyboard handler a key press takes. */
  datatype KeyAction = Ignore | UndoEdit | ApplyTypedLength | StopTyping | EraseChar | TypeChar(c: char) | DeleteSelected

  /**
   * The handler's dispatch, in its order: in a text field only Ctrl+Z acts;
   * Ctrl+Z undoes; with a selection, Enter applies a non-blank typed length,
   * Escape stops typing, Backspace erases while typing and a length key types;
   * Delete or Backspace removes the selected line when not typing.
   */
  function KeyActionOf(key: string, ctrl: bool, inTextField: bool, hasSelection: bool, typing: bool, buffer: string)
    : (r: KeyAction)
    ensures inTextField ==> r == Ignore || r == UndoEdit
    ensures r == UndoEdit <==> ctrl && key == "z"
    ensures r == ApplyTypedLength ==> hasSelection && typing && key == "Enter" && Trim(buffer) != ""
    ensures r == EraseChar ==> hasSelection && typing && key == "Backspace"
    ensures r.TypeChar? ==> hasSelection && key == [r.c] && r.c in LengthChars
    ensures r == DeleteSelected ==> hasSelection && !typing && (key == "Delete" || key == "Backspace")
  {
    if inTextField && !(ctrl && key == "z") then Ignore
    else if ctrl && key == "z" then UndoEdit
    else if hasSelection && key == "Enter" && typing && Trim(buffer) != "" then ApplyTypedLength
    else if hasSelection && key == "Escape" then StopTyping
    else if hasSelection && key == "Backspace" && typing then EraseChar
    else if hasSelection && |key| == 1 && key[0] in LengthChars then TypeChar(key[0])
    else if (key == "Delete" || key == "Backspace") && hasSelection && !typing then DeleteSelected
    else Ignore
  }

  /** `s.slice(0, -1)`: the string without its last character ("" stays ""). */
  function DropLast(s: string): (r: string)
    ensures s != [] ==> r + [s[|s| - 1]] == s
    ensures s == [] ==> r == []
  {
    if s == [] then [] else s[..|s| - 1]
  }

  /** Ctrl+Z: undo (which clears the selection only when something was undone), then stop typing. */
  function UndoKey(s: StateValue): StateValue
  {
    var u := Undone(s);
    var v := if s.undoHistory != [] then u.(selectedLineId := None) else u;
    v.(isTypingLength := false, inlineLengthInput := "")
  }

  /**
   * A typed length that can be applied: the index of the selected line and
   * the parsed inches, when the buffer parses to more than 0 and the selected
   * line exists.
   */
  function LengthEdit(s: StateValue): (r: Option<(nat, real)>)
    ensures r.Some? ==>
              s.selectedLineId.Some? && r.value.0 < |s.lines| && s.lines[r.value.0].id == s.selectedLineId.value &&
              Some(r.value.1) == ParseLengthToInches(s.inlineLengthInput) && r.value.1 > 0.0
    ensures r.None? ==>
              var inches := ParseLengthToInches(s.inlineLengthInput);
              inches.None? || inches.value <= 0.0 || s.selectedLineId.None? ||
              forall j :: 0 <= j < |s.lines| ==> s.lines[j].id != s.selectedLineId.value
  {
    var inches := ParseLengthToInches(s.inlineLengthInput);
    if inches.Some? && inches.value > 0.0 && s.selectedLineId.Some? && IndexOf(s.lines, s.selectedLineId.value).Some?
    then Some((IndexOf(s.lines, s.selectedLineId.value).value, inches.value))
    else None
  }

  /**
   * Enter with a typed length: an applicable edit saves the state and, when
   * the selected line has a length, rescales it from its start; either way
   * typing stops.
   */
  function TypedLength(sqrt: real -> real, s: StateValue): StateValue
  {
    var edit := LengthEdit(s);
    var t :=
      if edit.None? then s
      else
        var line := s.lines[edit.value.0];
        if LineLength(sqrt, line) > 0.0
        then Saved(s).(lines := s.lines[edit.value.0 := Resized(sqrt, line, edit.value.1)])
        else Saved(s);
    t.(isTypingLength := false, inlineLengthInput := "")
  }

  /** Delete or Backspace with a selection and no typing: save, remove the line, clear the selection. */
  function DeleteKey(s: StateValue): StateValue
    requires s.selectedLineId.Some?
  {
    Saved(s).(lines := RemoveFirst(s.lines, s.selectedLineId.value), selectedLineId := None)
  }

  /** The state after a key press. */
  function KeyDown(sqrt: real -> real, s: StateValue, key: string, ctrl: bool, inTextField: bool): StateValue
  {
    match KeyActionOf(key, ctrl, inTextField, s.selectedLineId.Some?, s.isTypingLength, s.inlineLengthInput)
    case Ignore => s
    case UndoEdit => UndoKey(s)
    case ApplyTypedLength => TypedLength(sqrt, s)
    case StopTyping => s.(isTypingLength := false, inlineLengthInput := "")
    case EraseChar =>
      var b := DropLast(s.inlineLengthInput);
      s.(inlineLengthInput := b, isTypingLength := b != "")
    case TypeChar(c) => s.(isTypingLength := true, inlineLengthInput := s.inlineLengthInput + [c])
    case DeleteSelected => DeleteKey(s)
  }

  /** Enter with a typed length (the body of that branch of the handler). */
  method ApplyLength(st: AppState, sqrt: real -> real)
    requires st.Valid()
    modifies st
    ensures st.Valid()
    ensures st.Value() == TypedLength(sqrt, old(st.Value()))
  {
    var inches := ParseLengthToInches(st.inlineLengthInput);
    if inches.Some? && inches.value > 0.0 {
      var line := st.GetSelectedLine();
      if line.Some? {
        st.SaveState();
        var currentLen := LineLength(sqrt, line.value);
        if currentLen > 0.0 {
          var i := FindIndex(st.lines, line.value.id);
          st.ReplaceLine(i.value, Resized(sqrt, line.value, inches.value));
        }
      }
    }
    st.isTypingLength := false;
    st.inlineLengthInput := "";
  }

  /** Ctrl+Z (the body of that branch of the handler). */
  method PressUndo(st: AppState)
    requires st.Valid()
    modifies st
    ensures st.Valid()
    ensures st.Value() == UndoKey(old(st.Value()))
  {
    var hadHistory := st.undoHistory != [];
    st.Undo();
    if hadHistory {
      st.selectedLineId := None;
    }
    st.isTypingLength := false;
    st.inlineLengthInput := "";
  }

  /** Delete or Backspace on a selection (the body of that branch of the handler). */
  method DeleteSelection(st: AppState)
    requires st.Valid() && st.selectedLineId.Some?
    modifies st
    ensures st.Valid()
    ensures st.Value() == DeleteKey(old(st.Value()))
  {
    st.SaveState();
    st.RemoveLine(st.selectedLineId.value);
    st.selectedLineId := None;
  }

  /** `handleKeyDown`, with the event reduced to its key, Ctrl and whether it came from a text field. */
  method HandleKeyDown(st: AppState, sqrt: real -> real, key: string, ctrl: bool, inTextField: bool)
    requires st.Valid()
    modifies st
    ensures st.Valid()
    ensures st.Value() == KeyDown(sqrt, old(st.Value()), key, ctrl, inTextField)
  {
    if inTextField && !(ctrl && key == "z") {
      return;
    }
    if ctrl && key == "z" {
      PressUndo(st);
      return;
    }
    if st.selectedLineId.Some? {
      if key == "Enter" && st.isTypingLength && Trim(st.inlineLengthInput) != "" {
        ApplyLength(st, sqrt);
        return;
      }
      if key == "Escape" {
        st.isTypingLength := false;
        st.inlineLengthInput := "";
        return;
      }
      if key == "Backspace" && st.isTypingLength {
        st.inlineLengthInput := DropLast(st.inlineLengthInput);
        if st.inlineLengthInput == "" {
          st.isTypingLength := false;
        }
        return;
      }
      if |key| == 1 && key[0] in LengthChars {
        st.isTypingLength := true;
        st.inlineLengthInput := st.inlineLengthInput + key;
        return;
      }
    }
    if (key == "Delete" || key == "Backspace") && st.selectedLineId.Some? && !st.isTypingLength {
      DeleteSelection(st);
    }
  }

  // ------------------------------------------------------------------
  // Properties of the keyboard handler
  // ------------------------------------------------------------------

  /** Outside Ctrl+Z, a key pressed in a text field changes nothing. */
  lemma TextFieldKeysIgnored(sqrt: real -> real, s: StateValue, key: string, ctrl: bool)
    requires !(ctrl && key == "z")
    ensures KeyDown(sqrt, s, key, ctrl, true) == s
  {
  }

  /** With a line selected, a length key switches typing on and appends itself to the buffer. */
  lemma LengthKeyTypes(sqrt: real -> real, s: StateValue, c: char, ctrl: bool)
    requires s.selectedLineId.Some? && c in LengthChars
    ensures KeyDown(sqrt, s, [c], ctrl, false) == s.(isTypingLength := true, inlineLengthInput := s.inlineLengthInput + [c])
  {
    assert [c] != "z" by { assert "z"[0] !in LengthChars; }
    assert [c] != "Enter" && [c] != "Escape" && [c] != "Backspace" by {
      assert |"Enter"| != 1 && |"Escape"| != 1 && |"Backspace"| != 1;
    }
  }

  /** Backspace while typing drops the last character and stops typing once the buffer is empty. */
  lemma BackspaceErases(sqrt: real -> real, s: StateValue, ctrl: bool)
    requires s.selectedLineId.Some? && s.isTypingLength
    ensures var b := DropLast(s.inlineLengthInput);
            KeyDown(sqrt, s, "Backspace", ctrl, false) == s.(inlineLengthInput := b, isTypingLength := b != "")
  {
    assert "Backspace" != "z" && "Backspace" != "Enter" && "Backspace" != "Escape" by {
      assert |"Backspace"| == 9;
    }
  }

  /** Escape with a selection clears the buffer and stops typing, and nothing else changes. */
  lemma EscapeStopsTyping(sqrt: real -> real, s: StateValue, ctrl: bool)
    requires s.selectedLineId.Some?
    ensures KeyDown(sqrt, s, "Escape", ctrl, false) == s.(isTypingLength := false, inlineLengthInput := "")
  {
    assert "Escape" != "z" && "Escape" != "Enter" by {
      assert |"Escape"| == 6;
    }
  }

  /**
   * Typing a length character and erasing it again restores the state, as
   * long as typing was on exactly when the buffer was non-empty.
   */
  lemma TypeThenErase(sqrt: real -> real, s: StateValue, c: char, ctrl: bool)
    requires s.selectedLineId.Some? && c in LengthChars
    requires s.isTypingLength <==> s.inlineLengthInput != ""
    ensures KeyDown(sqrt, KeyDown(sqrt, s, [c], ctrl, false), "Backspace", ctrl, false) == s
  {
    LengthKeyTypes(sqrt, s, c, ctrl);
    var t := s.(isTypingLength := true, inlineLengthInput := s.inlineLengthInput + [c]);
    BackspaceErases(sqrt, t, ctrl);
    assert DropLast(t.inlineLengthInput) == s.inlineLengthInput;
  }

  /**
   * Delete (or Backspace) removes the selected line only when no length is
   * being typed: then the state is saved, the line removed and the selection
   * cleared; while typing, the lines stay as they are.
   */
  lemma DeleteOnlyWhenNotTyping(sqrt: real -> real, s: StateValue, key: string, ctrl: bool)
    requires key == "Delete" || key == "Backspace"
    ensures s.selectedLineId.Some? && !s.isTypingLength ==>
              KeyDown(sqrt, s, key, ctrl, false) ==
              Saved(s).(lines := RemoveFirst(s.lines, s.selectedLineId.value), selectedLineId := None)
    ensures s.isTypingLength ==> KeyDown(sqrt, s, key, ctrl, false).lines == s.lines
    ensures s.selectedLineId.None? ==> KeyDown(sqrt, s, key, ctrl, false) == s
  {
    assert |"Delete"| == 6 && |"Backspace"| == 9;
    assert key != "z" && key != "Enter" && key != "Escape";
  }

  /** Enter while typing a non-blank length, with a line selected, is the typed-length edit. */
  lemma EnterAppliesTypedLength(sqrt: real -> real, s: StateValue, ctrl: bool)
    requires s.selectedLineId.Some? && s.isTypingLength && Trim(s.inlineLengthInput) != ""
    ensures KeyDown(sqrt, s, "Enter", ctrl, false) == TypedLength(sqrt, s)
  {
    assert "Enter" != "z" by { assert |"Enter"| == 5; }
  }

  /**
   * An applicable typed length on a line with a length: that line keeps its
   * id and start, keeps its direction and gets exactly the typed length;
   * every other line is unchanged, the state was saved first and typing stops.
   */
  lemma TypedLengthResizes(sqrt: real -> real, s: StateValue, i: nat, inches: real)
    requires IsSqrt(sqrt)
    requires LengthEdit(s) == Some((i, inches)) && LineLength(sqrt, s.lines[i]) > 0.0
    ensures var r := TypedLength(sqrt, s);
            |r.lines| == |s.lines| &&
            (forall j :: 0 <= j < |s.lines| && j != i ==> r.lines[j] == s.lines[j]) &&
            Rescaled(sqrt, r.lines[i], s.lines[i], inches) &&
            r.undoHistory == Saved(s).undoHistory && !r.isTypingLength && r.inlineLengthInput == ""
  {
    var r := TypedLength(sqrt, s);
    var n := Resized(sqrt, s.lines[i], inches);
    assert r == Saved(s).(lines := s.lines[i := n], isTypingLength := false, inlineLengthInput := "");
    assert r.lines[i] == n;
    ResizedLength(sqrt, s.lines[i], inches);
  }

  /**
   * A typed length that does not parse to more than 0, or whose selected
   * line is gone, only stops typing; one on a zero-length line saves the
   * state but leaves the lines alone.
   */
  lemma TypedLengthRejected(sqrt: real -> real, s: StateValue)
    ensures LengthEdit(s).None? ==> TypedLength(sqrt, s) == s.(isTypingLength := false, inlineLengthInput := "")
    ensures LengthEdit(s).Some? && LineLength(sqrt, s.lines[LengthEdit(s).value.0]) <= 0.0 ==>
              TypedLength(sqrt, s) == Saved(s).(isTypingLength := false, inlineLengthInput := "")
  {
  }

  /** Ctrl+Z restores the last snapshot, clears the selection and stops typing; with no history it only stops typing. */
  lemma UndoKeyRestores(sqrt: real -> real, s: StateValue, inTextField: bool)
    ensures var r := KeyDown(sqrt, s, "z", true, inTextField);
            !r.isTypingLength && r.inlineLengthInput == "" && r.viewScale == s.viewScale &&
            (s.undoHistory == [] ==> r == s.(isTypingLength := false, inlineLengthInput := "")) &&
            (s.undoHistory != [] ==>
               r.lines == RestoreAll(s.undoHistory[|s.undoHistory| - 1]) &&
               r.undoHistory == s.undoHistory[..|s.undoHistory| - 1] &&
               r.nextLineId == MaxId(r.lines) + 1 &&
               r.selectedLineId == None)
  {
  }
}

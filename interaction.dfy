/** The interaction layer (script.js:12-16, 331-389): the page's mutable
    state, the event handlers as transitions on it, and the redraw pass
    that reads it. Events arrive in canvas-local pixels. */
module Interaction {
  import opened Wrappers
  import opened Config
  import opened Transform
  import opened Lagrange
  import opened Sampler
  import opened Formatter

  /** The hit radius in plot units: 1.5 marker radii, converted with the
      horizontal scale (script.js:350, 355). */
  const HIT_RADIUS: real := (POINT_RADIUS / CANVAS_SIZE) * (X_MAX - X_MIN) * 1.5

  lemma HitRadiusIsAQuarter()
    ensures HIT_RADIUS == 0.25 && HIT_RADIUS * HIT_RADIUS == 1.0 / 16.0
  {
  }

  /** Math.hypot(dx, dy) squared. */
  function SquaredDistance(dx: real, dy: real): real
  {
    dx * dx + dy * dy
  }

  /** The click at c hits point p: Math.hypot(dx, dy) < HIT_RADIUS, stated
      on squares since both sides are non-negative. */
  predicate Hits(p: Point, c: Point)
  {
    SquaredDistance(c.x - p.x, c.y - p.y) < HIT_RADIUS * HIT_RADIUS
  }

  /** The lowest index of a point the click hits, if any. */
  function FirstHit(ps: seq<Point>, c: Point): (r: Option<nat>)
    ensures r.Some? ==> r.value < |ps| && Hits(ps[r.value], c) &&
                        forall k :: 0 <= k < r.value ==> !Hits(ps[k], c)
    ensures r.None? ==> forall k :: 0 <= k < |ps| ==> !Hits(ps[k], c)
  {
    if |ps| == 0 then None
    else if Hits(ps[0], c) then Some(0)
    else match FirstHit(ps[1..], c)
      case None => None
      case Some(i) => Some(i + 1)
  }

  /** The hit-test loop of the click handler; -1 when nothing is hit. */
  method HitTest(points: seq<Point>, c: Point) returns (removeIdx: int)
    ensures FirstHit(points, c).None? ==> removeIdx == -1
    ensures FirstHit(points, c).Some? ==> removeIdx == FirstHit(points, c).value
  {
    removeIdx := -1;
    for i := 0 to |points|
      invariant forall k :: 0 <= k < i ==> !Hits(points[k], c)
    {
      var dx := c.x - points[i].x;
      var dy := c.y - points[i].y;
      if SquaredDistance(dx, dy) < HIT_RADIUS * HIT_RADIUS {
        removeIdx := i;
        break;
      }
    }
  }

  /** The point list after a click at plot coordinate c: the first hit
      point removed (splice), or c appended (push). */
  function ClickUpdate(ps: seq<Point>, c: Point): seq<Point>
  {
    match FirstHit(ps, c)
    case Some(i) => ps[..i] + ps[i + 1..]
    case None => ps + [c]
  }

  /** ClickUpdate in terms of the hit-test loop's result. */
  lemma ClickUpdateByIndex(ps: seq<Point>, c: Point, removeIdx: int)
    requires FirstHit(ps, c).None? ==> removeIdx == -1
    requires FirstHit(ps, c).Some? ==> removeIdx == FirstHit(ps, c).value
    ensures 0 <= removeIdx ==> removeIdx < |ps| && ClickUpdate(ps, c) == ps[..removeIdx] + ps[removeIdx + 1..]
    ensures removeIdx < 0 ==> ClickUpdate(ps, c) == ps + [c]
  {
  }

  /** The points a redraw pass draws: the permanent ones, then the hover
      point, if any, at the end. */
  function Snapshot(points: seq<Point>, hoverPoint: Option<Point>): (all: seq<Point>)
    ensures |all| == |points| + (if hoverPoint.Some? then 1 else 0)
    ensures all[..|points|] == points
    ensures hoverPoint.Some? ==> all[|points|] == hoverPoint.value
  {
    if hoverPoint.Some? then points + [hoverPoint.value] else points
  }

  /** What one redraw pass computes. The axes and the markers are not part
      of the model. */
  datatype Frame = Frame(allPoints: seq<Point>, basisCurves: seq<Curve>,
                         polynomial: seq<seq<Pixel>>, mathHtml: string)

  /** The page state. */
  class PlotState {
    var points: seq<Point>
    var hoverPoint: Option<Point>
    var displayNumeric: bool
    var showBasisCurves: bool

    /** The initial state (script.js:13-16). */
    constructor ()
      ensures points == [] && hoverPoint == None
      ensures !displayNumeric && showBasisCurves
    {
      points := [];
      hoverPoint := None;
      displayNumeric := false;
      showBasisCurves := true;
    }

    /** Click: remove the first point within the hit radius, else add the
        clicked point at the end; the hover preview is cleared. */
    method Click(px: real, py: real)
      modifies this
      ensures points == ClickUpdate(old(points), CanvasToCoord(px, py))
      ensures hoverPoint == None
      ensures displayNumeric == old(displayNumeric) && showBasisCurves == old(showBasisCurves)
    {
      var c := CanvasToCoord(px, py);
      var removeIdx := HitTest(points, c);
      ClickUpdateByIndex(points, c, removeIdx);
      if removeIdx >= 0 {
        points := points[..removeIdx] + points[removeIdx + 1..];
      } else {
        points := points + [c];
      }
      hoverPoint := None;
    }

    /** Mouse move: the hover preview follows the pointer. */
    method MouseMove(px: real, py: real)
      modifies this
      ensures hoverPoint == Some(CanvasToCoord(px, py))
      ensures points == old(points)
      ensures displayNumeric == old(displayNumeric) && showBasisCurves == old(showBasisCurves)
    {
      var c := CanvasToCoord(px, py);
      hoverPoint := Some(c);
    }

    /** Mouse leave: no hover preview. */
    method MouseLeave()
      modifies this
      ensures hoverPoint == None
      ensures points == old(points)
      ensures displayNumeric == old(displayNumeric) && showBasisCurves == old(showBasisCurves)
    {
      hoverPoint := None;
    }

    /** The numeric-display checkbox changed: its value is assigned. */
    method ToggleNumeric(checked: bool)
      modifies this
      ensures displayNumeric == checked
      ensures points == old(points) && hoverPoint == old(hoverPoint)
      ensures showBasisCurves == old(showBasisCurves)
    {
      displayNumeric := checked;
    }

    /** The basis-curve checkbox changed: its value is assigned. */
    method ToggleBasisCurves(checked: bool)
      modifies this
      ensures showBasisCurves == checked
      ensures points == old(points) && hoverPoint == old(hoverPoint)
      ensures displayNumeric == old(displayNumeric)
    {
      showBasisCurves := checked;
    }

    /** The clear button: no points and no hover preview. */
    method Clear()
      modifies this
      ensures points == [] && hoverPoint == None
      ensures displayNumeric == old(displayNumeric) && showBasisCurves == old(showBasisCurves)
    {
      points := [];
      hoverPoint := None;
    }

    /** redrawAll: the curves are drawn for the snapshot with the hover
        point appended, the formula for the permanent points only. */
    method RedrawAll(fmt3: real -> string) returns (frame: Frame)
      ensures frame.allPoints == Snapshot(points, hoverPoint)
      ensures frame.basisCurves == BasisCurves(Snapshot(points, hoverPoint), showBasisCurves)
      ensures frame.polynomial == PolynomialCurve(Snapshot(points, hoverPoint))
      ensures frame.mathHtml == MathHtml(points, displayNumeric, fmt3)
    {
      var allPoints := points;
      if hoverPoint.Some? {
        allPoints := allPoints + [Point(hoverPoint.value.x, hoverPoint.value.y)];
      }
      var basis := DrawBasisCurves(allPoints, showBasisCurves);
      var poly := DrawFullPolynomial(allPoints);
      var html := UpdateMath(points, displayNumeric, fmt3);
      frame := Frame(allPoints, basis, poly, html);
    }
  }

  // ---------------------------------------------------------------------
  // Properties of the click transition

  /** When point i is the lowest-index point the click hits, exactly that
      point is removed and the others keep their order. */
  lemma ClickRemovesLowestHit(ps: seq<Point>, c: Point, i: nat)
    requires i < |ps| && Hits(ps[i], c)
    requires forall k :: 0 <= k < i ==> !Hits(ps[k], c)
    ensures |ClickUpdate(ps, c)| == |ps| - 1
    ensures forall k :: 0 <= k < i ==> ClickUpdate(ps, c)[k] == ps[k]
    ensures forall k :: i <= k < |ps| - 1 ==> ClickUpdate(ps, c)[k] == ps[k + 1]
  {
    var hit := FirstHit(ps, c);
    assert hit.Some?;
    assert hit.value == i;
    var r := ps[..i] + ps[i + 1..];
    assert ClickUpdate(ps, c) == r;
  }

  /** When the click hits no point, the clicked point is appended. */
  lemma ClickAppendsWhenNothingHit(ps: seq<Point>, c: Point)
    requires forall k :: 0 <= k < |ps| ==> !Hits(ps[k], c)
    ensures ClickUpdate(ps, c) == ps + [c]
  {
    assert FirstHit(ps, c).None?;
  }

  /** Clicking exactly on a point removes a point and adds none. */
  lemma ClickOnPointRemoves(ps: seq<Point>, k: nat)
    requires k < |ps|
    ensures |ClickUpdate(ps, ps[k])| == |ps| - 1
  {
    assert Hits(ps[k], ps[k]);
  }

  /** A click where nothing is hit, repeated at the same place, undoes itself:
      the first adds the point, the second removes it again. */
  lemma {:induction false} ClickTwiceRestores(ps: seq<Point>, c: Point)
    requires FirstHit(ps, c).None?
    ensures ClickUpdate(ClickUpdate(ps, c), c) == ps
  {
    var added := ps + [c];
    assert Hits(added[|ps|], c);
    assert forall k :: 0 <= k < |ps| ==> added[k] == ps[k];
    var i := FirstHit(added, c).value;
    assert i == |ps|;
    assert added[..i] == ps;
  }

  /** The hover point takes part in the curves as one extra point at the
      end: a single permanent point and a hover point draw a polynomial
      curve, while the formula still shows the single point. It follows
      from the definitions of Snapshot and MathHtml. */
  lemma HoverJoinsTheCurvesOnly(points: seq<Point>, h: Point, displayNumeric: bool, fmt3: real -> string)
    requires |points| == 1
    ensures DrawsPolynomial(|Snapshot(points, Some(h))|)
    ensures MathHtml(points, displayNumeric, fmt3) == Header(1) + ("$$P(x) = " + CssId(FxId(0), fmt3(points[0].y)) + "$$")
  {
  }
}

/**
 * The exact-arithmetic parts of the drawing code in src/NLGraph.js: the brush hit test
 * (`checkSelExtent`), the zoom transform (`getLocation`, `getPoint`, `translateTo`, the scale
 * clamp of `zoom`), and the endpoint and control-point ordering of single and multiple links.
 * Square roots, angles and rotations are inputs here.
 */
module Geometry {
  import opened Wrappers
  import opened Util

  /** `NLGraph.CONTROL_POINT_POS` of src/global.js. */
  const ControlPointPos: real := 0.25

  /** A brush extent `[[x0, y0], [x1, y1]]`: top-left corner, then bottom-right. */
  datatype Extent = Extent(x0: real, y0: real, x1: real, y1: real)

  /** `checkSelExtent`: undefined without an extent, else whether (x, y) lies in the half-open box. */
  function CheckSelExtent(extent: Option<Extent>, x: real, y: real): Option<bool>
  {
    match extent
    case None => None
    case Some(e) => Some(e.x0 <= x && x < e.x1 && e.y0 <= y && y < e.y1)
  }

  /**
   * The test answers only when there is an extent; the top-left corner of a non-empty box is
   * inside and the bottom-right corner is not; and two boxes that share a vertical edge never
   * both hold a point, while every point of their union lies in one of them.
   */
  lemma CheckSelExtentHalfOpen(e: Extent, x: real, y: real, split: real)
    requires e.x0 <= split <= e.x1
    ensures CheckSelExtent(None, x, y) == None
    ensures CheckSelExtent(Some(e), x, y).Some?
    ensures e.x0 < e.x1 && e.y0 < e.y1 ==>
      CheckSelExtent(Some(e), e.x0, e.y0) == Some(true) && CheckSelExtent(Some(e), e.x1, e.y1) == Some(false)
    ensures var left, right := Extent(e.x0, e.y0, split, e.y1), Extent(split, e.y0, e.x1, e.y1);
      CheckSelExtent(Some(e), x, y) == Some(true) <==>
        (CheckSelExtent(Some(left), x, y) == Some(true)) != (CheckSelExtent(Some(right), x, y) == Some(true))
  {
  }

  /** The clamp of `zoom` against `zoomScaleExtent` = [lo, hi]. */
  function Clamp(scale: real, lo: real, hi: real): real
  {
    if scale < lo then lo else if scale > hi then hi else scale
  }

  /** For lo <= hi the clamp lands in [lo, hi], keeps a scale already there, is idempotent and monotone. */
  lemma ClampProperties(scale: real, other: real, lo: real, hi: real)
    requires lo <= hi
    ensures lo <= Clamp(scale, lo, hi) <= hi
    ensures lo <= scale <= hi <==> Clamp(scale, lo, hi) == scale
    ensures Clamp(Clamp(scale, lo, hi), lo, hi) == Clamp(scale, lo, hi)
    ensures scale <= other ==> Clamp(scale, lo, hi) <= Clamp(other, lo, hi)
  {
  }

  /** A zoom transform: screen = world * scale + translate. */
  datatype Transform = Transform(tx: real, ty: real, scale: real)

  /** `getLocation`: the world location shown at screen point p. */
  function Location(t: Transform, p: Point): Point
    requires t.scale != 0.0
  {
    Point((p.x - t.tx) / t.scale, (p.y - t.ty) / t.scale)
  }

  /** `getPoint`: the screen point showing world location l. */
  function ScreenPoint(t: Transform, l: Point): Point
  {
    Point(l.x * t.scale + t.tx, l.y * t.scale + t.ty)
  }

  /** The two conversions are inverse to each other for a non-zero scale. */
  lemma LocationScreenPointInverse(t: Transform, p: Point, l: Point)
    requires t.scale != 0.0
    ensures Location(t, ScreenPoint(t, l)) == l
    ensures ScreenPoint(t, Location(t, p)) == p
  {
    assert (l.x * t.scale + t.tx - t.tx) / t.scale == l.x;
    assert (l.y * t.scale + t.ty - t.ty) / t.scale == l.y;
  }

  /** The translate of `translateTo(p, l)`: shifted by how far l's screen point is from p. */
  function TranslatedTo(t: Transform, p: Point, l: Point): (r: Transform)
    ensures r.scale == t.scale
    ensures ScreenPoint(r, l) == p
  {
    var loc := ScreenPoint(t, l);
    Transform(t.tx + (p.x - loc.x), t.ty + (p.y - loc.y), t.scale)
  }

  /** Translating a location onto the point where it already is changes nothing. */
  lemma TranslatedToFixedPoint(t: Transform, l: Point)
    ensures TranslatedTo(t, ScreenPoint(t, l), l) == t
  {
  }

  /**
   * The d3 zoom behaviour behind `zoomL` together with the options `zoom` reads: the view
   * size, `zoomScaleExtent` and `initialScale`, and whether the graph is rendered.
   */
  class ZoomState {
    var tx: real
    var ty: real
    var scale: real
    var width: real
    var height: real
    var scaleLo: real
    var scaleHi: real
    var initialScale: real
    var rendered: bool

    /** d3 keeps a positive scale, and `zoomScaleExtent` bounds are positive. */
    predicate Valid()
      reads this
    {
      scale > 0.0 && scaleLo > 0.0 && scaleHi > 0.0
    }

    function Current(): Transform
      reads this
    {
      Transform(tx, ty, scale)
    }

    function GetLocation(p: Point): Point
      reads this
      requires Valid()
    {
      Location(Current(), p)
    }

    function GetPoint(l: Point): Point
      reads this
    {
      ScreenPoint(Current(), l)
    }

    /** The view centre `[width / 2, height / 2]`. */
    function Center(): Point
      reads this
    {
      Point(width / 2.0, height / 2.0)
    }

    /** A fresh behaviour with the default `zoomScaleExtent` [0.2, 10] and identity transform. */
    constructor (width: real, height: real)
      ensures Valid() && !rendered
      ensures Current() == Transform(0.0, 0.0, 1.0)
      ensures this.width == width && this.height == height
      ensures scaleLo == 0.2 && scaleHi == 10.0 && initialScale == 1.0
    {
      tx, ty, scale := 0.0, 0.0, 1.0;
      this.width, this.height := width, height;
      scaleLo, scaleHi, initialScale := 0.2, 10.0, 1.0;
      rendered := false;
    }

    /** `translateTo(p, l)`: move the view so that location l is shown at screen point p. */
    method TranslateTo(p: Point, l: Point)
      modifies this
      ensures Current() == TranslatedTo(old(Current()), p, l)
      ensures GetPoint(l) == p && scale == old(scale)
      ensures width == old(width) && height == old(height) && scaleLo == old(scaleLo) && scaleHi == old(scaleHi)
      ensures initialScale == old(initialScale) && rendered == old(rendered)
    {
      var loc := GetPoint(l);
      tx := tx + (p.x - loc.x);
      ty := ty + (p.y - loc.y);
    }

    /**
     * `zoom(scale)`: nothing for undefined; before rendering only the initial scale is recorded;
     * otherwise the clamped scale is applied about the view centre, whose location stays put.
     */
    method Zoom(newScale: Option<real>)
      requires Valid()
      modifies this
      ensures Valid()
      ensures newScale.None? ==> Current() == old(Current()) && initialScale == old(initialScale)
      ensures newScale.Some? && !rendered ==> Current() == old(Current()) && initialScale == newScale.value
      ensures newScale.Some? && rendered ==>
        scale == Clamp(newScale.value, scaleLo, scaleHi) && initialScale == old(initialScale) &&
        GetLocation(Center()) == old(GetLocation(Center()))
      ensures width == old(width) && height == old(height) && scaleLo == old(scaleLo) && scaleHi == old(scaleHi)
      ensures rendered == old(rendered)
    {
      if newScale.None? {
        return;
      }
      if !rendered {
        initialScale := newScale.value;
        return;
      }
      var point := Center();
      var loc := GetLocation(point);
      scale := Clamp(newScale.value, scaleLo, scaleHi);
      TranslateTo(point, loc);
      LocationScreenPointInverse(Current(), point, loc);
    }
  }

  /** The endpoints of a single straight link: drawn from the left one, ties keeping the order. */
  function SingleEdgeEnds(srcOuter: Point, tgtOuter: Point): (Point, Point)
  {
    if srcOuter.x > tgtOuter.x then (tgtOuter, srcOuter) else (srcOuter, tgtOuter)
  }

  /** `isSrc2TgtAscending` of a single link, from the node centres. */
  function SingleEdgeAscending(sourceX: real, targetX: real): bool
  {
    !(sourceX > targetX)
  }

  /** `isSrc2TgtAscending` of one of several links between a pair. */
  function MultiEdgeAscending(sourceX: real, targetX: real): bool
  {
    sourceX < targetX
  }

  /** `c0`, `c1` of a single link of length dr between the ordered ends. */
  function SingleEdgeControls(ends: (Point, Point), dr: real): (Point, Point)
  {
    (Point(ends.0.x + ControlPointPos * dr, ends.0.y), Point(ends.1.x - dr * ControlPointPos, ends.1.y))
  }

  /**
   * The ordered ends are the outer points themselves or swapped, left one first, swapped only
   * when the source is strictly right of the target; each control point sits a quarter of the
   * length inside its own end, at that end's height.
   */
  lemma SingleEdgeLayout(srcOuter: Point, tgtOuter: Point, dr: real)
    ensures var e := SingleEdgeEnds(srcOuter, tgtOuter);
      e.0.x <= e.1.x &&
      (e == (srcOuter, tgtOuter) <==> !(srcOuter.x > tgtOuter.x) || srcOuter == tgtOuter) &&
      (e == (srcOuter, tgtOuter) || e == (tgtOuter, srcOuter))
    ensures var e := SingleEdgeEnds(srcOuter, tgtOuter);
      var c := SingleEdgeControls(e, dr);
      c.0.x - e.0.x == e.1.x - c.1.x == dr / 4.0 && c.0.y == e.0.y && c.1.y == e.1.y
  {
  }

  /** The two ascending flags disagree exactly for a vertical link, which only the single-link flag counts as ascending. */
  lemma AscendingFlagsDiffer(sourceX: real, targetX: real)
    ensures SingleEdgeAscending(sourceX, targetX) != MultiEdgeAscending(sourceX, targetX) <==> sourceX == targetX
  {
  }

  /**
   * The control points of a link at slot `linkPos` in the frame where its ends lie on a horizontal
   * line from (x0, y0), `dia` long; `dr` is `lineTensionDistance`.
   */
  function HorizontalControls(x0: real, y0: real, dia: real, dr: real, linkPos: int): (Point, Point)
  {
    var x1, y1 := x0 + dia, y0;
    var hc0, hc1 := Point(x0 + dia * ControlPointPos, y0), Point(x1 - dia * ControlPointPos, y1);
    (Point(hc0.x, hc0.y - dr * linkPos as real), Point(hc1.x, hc1.y - dr * linkPos as real))
  }

  /**
   * Both control points lie a quarter of the way in from their ends, on one line parallel to the
   * link at `linkPos` times `dr` from it: with `dr` non-zero, links at different slots get
   * different lines, and links at opposite slots get mirror-image lines.
   */
  lemma HorizontalControlsLayout(x0: real, y0: real, dia: real, dr: real, p: int, q: int)
    ensures var c := HorizontalControls(x0, y0, dia, dr, p);
      c.0.x - x0 == (x0 + dia) - c.1.x == dia / 4.0 && c.0.y == c.1.y == y0 - dr * p as real
    ensures dr != 0.0 && p != q ==> HorizontalControls(x0, y0, dia, dr, p).0.y != HorizontalControls(x0, y0, dia, dr, q).0.y
    ensures HorizontalControls(x0, y0, dia, dr, -p).0.y - y0 == y0 - HorizontalControls(x0, y0, dia, dr, p).0.y
  {
    if dr != 0.0 && p != q {
      assert dr * p as real - dr * q as real == dr * (p - q) as real;
    }
  }

  /** The polygon `[start, c0, c1, end]` of a multi-link and the `c0`, `c1` stored on the link. */
  datatype ControlPolygon = ControlPolygon(points: seq<Point>, c0: Point, c1: Point)

  /** The last step of `genControlPoints4MultiLinks_`: the polygon read from left to right. */
  function OrderControlPolygon(new0: Point, newC0: Point, newC1: Point, new1: Point): ControlPolygon
  {
    if new0.x < new1.x then ControlPolygon([new0, newC0, newC1, new1], newC0, newC1)
    else ControlPolygon([new1, newC1, newC0, new0], newC1, newC0)
  }

  /**
   * The result is the polygon or its reverse, never starting right of where it ends, reversed only
   * when it would otherwise not run strictly left to right; the link's c0 and c1 are its inner points.
   */
  lemma OrderControlPolygonLayout(new0: Point, newC0: Point, newC1: Point, new1: Point)
    ensures var r := OrderControlPolygon(new0, newC0, newC1, new1);
      |r.points| == 4 && r.points[0].x <= r.points[3].x && r.c0 == r.points[1] && r.c1 == r.points[2] &&
      (r.points == [new0, newC0, newC1, new1] <==> new0.x < new1.x || [new0, newC0, newC1, new1] == Reverse([new0, newC0, newC1, new1])) &&
      (r.points == [new0, newC0, newC1, new1] || r.points == Reverse([new0, newC0, newC1, new1]))
  {
    var s := [new0, newC0, newC1, new1];
    var rev := Reverse(s);
    assert rev == [new1, newC1, newC0, new0];
  }
}

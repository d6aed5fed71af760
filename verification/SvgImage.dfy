/** The loops that keep the bounds of shapes and of the image, and the in-place mapping into the view box. */
module SvgImage {
  import opened SvgGeometry
  import opened SvgBounds
  import opened SvgBoxes

  /** The loop of nsvg__addShape over the paths of a shape. */
  method ShapeBox(paths: seq<Path>) returns (bounds: Box)
    requires paths != []
    ensures bounds == Hull(PathBounds(paths))
  {
    ghost var boxes := PathBounds(paths);
    bounds := paths[0].bounds;
    assert boxes[..1] == [bounds];
    var i := 1;
    while i < |paths|
      invariant 1 <= i <= |paths| && bounds == Hull(boxes[..i])
    {
      assert boxes[..i + 1][..i] == boxes[..i];
      bounds := Union(bounds, paths[i].bounds);
      i := i + 1;
    }
    assert boxes[..i] == boxes;
  }

  method ImageBounds(shapes: seq<Shape>) returns (bounds: Box)
    ensures bounds == ImageBox(shapes)
  {
    if shapes == [] { return Box(0.0, 0.0, 0.0, 0.0); }
    ghost var boxes := ShapeBounds(shapes);
    bounds := shapes[0].bounds;
    assert boxes[..1] == [bounds];
    var i := 1;
    while i < |shapes|
      invariant 1 <= i <= |shapes| && bounds == Hull(boxes[..i])
    {
      assert boxes[..i + 1][..i] == boxes[..i];
      bounds := Union(bounds, shapes[i].bounds);
      i := i + 1;
    }
    assert boxes[..i] == boxes;
  }

  /** The loop of nsvg__scaleToViewbox over the points of one path. */
  method ScalePoints(pts: array<Point>, v: View)
    modifies pts
    ensures forall k | 0 <= k < pts.Length :: pts[k] == ViewPoint(v, old(pts[k]))
  {
    var i := 0;
    while i < pts.Length
      invariant 0 <= i <= pts.Length
      invariant forall k | 0 <= k < i :: pts[k] == ViewPoint(v, old(pts[k]))
      invariant forall k | i <= k < pts.Length :: pts[k] == old(pts[k])
    {
      pts[i] := Point((pts[i].x + v.tx) * v.sx, (pts[i].y + v.ty) * v.sy);
      i := i + 1;
    }
  }

  /** A stored path whose points and bounds have been scaled: its curves are the images of the old ones and
      lie in the scaled bounds. */
  lemma ScaledPathHoldsCurves(was: seq<Point>, pts: seq<Point>, v: View, n: nat, t: real, sqrt: real -> real)
    requires WellFormedPath(was) && |pts| == |was| && forall k | 0 <= k < |was| :: pts[k] == ViewPoint(v, was[k])
    requires IsSqrt(sqrt) && 0.0 <= t <= 1.0 && v.sx >= 0.0 && v.sy >= 0.0
    requires n < Segments(was) && Trusted(SegmentAt(was, n), sqrt)
    ensures SegmentPoint(SegmentAt(pts, n), t) == ViewPoint(v, SegmentPoint(SegmentAt(was, n), t))
    ensures InBox(SegmentPoint(SegmentAt(pts, n), t), ViewBounds(v, PathBox(was, sqrt)))
  {
    hide SegmentPoint, CurveBox, PathBox, Trusted, ViewBounds;
    var s := SegmentAt(was, n);
    ScaledSegment(was, pts, v, n);
    AffineCommutes(ViewXform(v), s, t);
    ViewIsAffine(v, SegmentPoint(s, t));
    PathHoldsSegment(was, n, t, sqrt);
    ViewKeepsPoint(v, PathBox(was, sqrt), SegmentPoint(s, t));
  }

  lemma ScaledSegment(was: seq<Point>, pts: seq<Point>, v: View, n: nat)
    requires WellFormedPath(was) && |pts| == |was| && forall k | 0 <= k < |was| :: pts[k] == ViewPoint(v, was[k])
    requires n < Segments(was)
    ensures SegmentAt(pts, n) == MapSegment(ViewXform(v), SegmentAt(was, n))
  {
    hide ViewPoint, ViewXform;
    forall k | 3 * n <= k < 3 * n + 4 ensures pts[k] == XformPoint(ViewXform(v), was[k]) {
      ViewIsAffine(v, was[k]);
    }
  }

  lemma PathHoldsSegment(pts: seq<Point>, n: nat, t: real, sqrt: real -> real)
    requires WellFormedPath(pts) && n < Segments(pts) && IsSqrt(sqrt) && 0.0 <= t <= 1.0
    requires Trusted(SegmentAt(pts, n), sqrt)
    ensures InBox(SegmentPoint(SegmentAt(pts, n), t), PathBox(pts, sqrt))
  {
    hide Trusted, CurveBox, SegmentPoint;
    BoxHoldsSegment(SegmentAt(pts, n), sqrt);
    HullHolds(SegmentBoxes(pts, sqrt), n);
    PointInLarger(SegmentPoint(SegmentAt(pts, n), t), CurveBox(SegmentAt(pts, n), sqrt), PathBox(pts, sqrt));
  }
}

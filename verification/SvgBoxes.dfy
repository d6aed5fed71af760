/** Boxes of segments, paths, shapes and the image, and the mapping into the view box. */
module SvgBoxes {
  import opened SvgGeometry
  import opened SvgBounds
  import opened SvgGaps

  /** A cubic segment of a path. */
  datatype Segment = Segment(v0: Point, v1: Point, v2: Point, v3: Point)

  function AxisX(s: Segment): Cubic { Cubic(s.v0.x, s.v1.x, s.v2.x, s.v3.x) }

  function AxisY(s: Segment): Cubic { Cubic(s.v0.y, s.v1.y, s.v2.y, s.v3.y) }

  function SegmentPoint(s: Segment, t: real): Point {
    Point(EvalBezier(t, AxisX(s)), EvalBezier(t, AxisY(s)))
  }

  function EndBox(s: Segment): Box {
    Box(Min(s.v0.x, s.v3.x), Min(s.v0.y, s.v3.y), Max(s.v0.x, s.v3.x), Max(s.v0.y, s.v3.y))
  }

  predicate ControlsInside(s: Segment) {
    InBox(s.v1, EndBox(s)) && InBox(s.v2, EndBox(s))
  }

  /** The box the source computes for one segment. */
  function CurveBox(s: Segment, sqrt: real -> real): Box {
    if ControlsInside(s) then EndBox(s)
    else
      var x, y := AxisRange(AxisX(s), sqrt), AxisRange(AxisY(s), sqrt);
      Box(x.lo, y.lo, x.hi, y.hi)
  }

  // ---------------------------------------------------------------- one segment

  function Weight(it: real, t: real, i: nat): real {
    if i == 0 then it * it * it
    else if i == 1 then 3.0 * it * it * t
    else if i == 2 then 3.0 * it * t * t
    else t * t * t
  }

  lemma WeightsSum(t: real)
    ensures Weight(1.0 - t, t, 0) + Weight(1.0 - t, t, 1) + Weight(1.0 - t, t, 2) + Weight(1.0 - t, t, 3) == 1.0
  {
    var it := 1.0 - t;
    assert it * it == 1.0 - 2.0 * t + t * t;
    assert it * it * it == 1.0 - 3.0 * t + 3.0 * (t * t) - t * t * t;
    assert it * it * t == t - 2.0 * (t * t) + t * t * t;
    assert it * t * t == t * t - t * t * t;
  }

  lemma WeightsPositive(it: real, t: real)
    requires it >= 0.0 && t >= 0.0
    ensures Weight(it, t, 0) >= 0.0 && Weight(it, t, 1) >= 0.0 && Weight(it, t, 2) >= 0.0 && Weight(it, t, 3) >= 0.0
  {
    SignOfMultiple(it, it);
    SignOfMultiple(it * it, it);
    SignOfMultiple(it * it, t);
    SignOfMultiple(it, t);
    SignOfMultiple(it * t, t);
    SignOfMultiple(t, t);
    SignOfMultiple(t * t, t);
  }

  lemma Excess(w0: real, w1: real, w2: real, w3: real, p0: real, p1: real, p2: real, p3: real, c: real)
    requires w0 + w1 + w2 + w3 == 1.0
    ensures w0 * p0 + w1 * p1 + w2 * p2 + w3 * p3 - c
         == w0 * (p0 - c) + w1 * (p1 - c) + w2 * (p2 - c) + w3 * (p3 - c)
  {
    UnitSum(w0, w1, w2, w3, c);
    assert w0 * (p0 - c) == w0 * p0 - w0 * c;
    assert w1 * (p1 - c) == w1 * p1 - w1 * c;
    assert w2 * (p2 - c) == w2 * p2 - w2 * c;
    assert w3 * (p3 - c) == w3 * p3 - w3 * c;
  }

  lemma MeanBounds(w0: real, w1: real, w2: real, w3: real, p0: real, p1: real, p2: real, p3: real, c: real)
    requires w0 >= 0.0 && w1 >= 0.0 && w2 >= 0.0 && w3 >= 0.0 && w0 + w1 + w2 + w3 == 1.0
    ensures c <= p0 && c <= p1 && c <= p2 && c <= p3 ==> c <= w0 * p0 + w1 * p1 + w2 * p2 + w3 * p3
    ensures c >= p0 && c >= p1 && c >= p2 && c >= p3 ==> c >= w0 * p0 + w1 * p1 + w2 * p2 + w3 * p3
  {
    Excess(w0, w1, w2, w3, p0, p1, p2, p3, c);
    var d0, d1, d2, d3 := p0 - c, p1 - c, p2 - c, p3 - c;
    SignOfMultiple(w0, d0);
    SignOfMultiple(w1, d1);
    SignOfMultiple(w2, d2);
    SignOfMultiple(w3, d3);
  }

  lemma UnitSum(w0: real, w1: real, w2: real, w3: real, c: real)
    requires w0 + w1 + w2 + w3 == 1.0
    ensures w0 * c + w1 * c + w2 * c + w3 * c == c
  {
    Gather(w0, w1, w2, w3, c);
  }

  lemma BlendInRange(it: real, t: real, k: Cubic, r: Range)
    requires Weight(it, t, 0) + Weight(it, t, 1) + Weight(it, t, 2) + Weight(it, t, 3) == 1.0
    requires it >= 0.0 && t >= 0.0
    requires Within(k.p0, r) && Within(k.p1, r) && Within(k.p2, r) && Within(k.p3, r)
    ensures Within(Blend(it, t, k), r)
  {
    WeightsPositive(it, t);
    BlendIsMean(it, t, k);
    MeanWithin(Weight(it, t, 0), Weight(it, t, 1), Weight(it, t, 2), Weight(it, t, 3), k, r, Blend(it, t, k));
  }

  lemma MeanWithin(w0: real, w1: real, w2: real, w3: real, k: Cubic, r: Range, e: real)
    requires w0 >= 0.0 && w1 >= 0.0 && w2 >= 0.0 && w3 >= 0.0 && w0 + w1 + w2 + w3 == 1.0
    requires Within(k.p0, r) && Within(k.p1, r) && Within(k.p2, r) && Within(k.p3, r)
    requires e == Mean(w0, w1, w2, w3, k)
    ensures Within(e, r)
  {
    MeanBounds(w0, w1, w2, w3, k.p0, k.p1, k.p2, k.p3, r.lo);
    MeanBounds(w0, w1, w2, w3, k.p0, k.p1, k.p2, k.p3, r.hi);
  }

  function Mean(w0: real, w1: real, w2: real, w3: real, k: Cubic): real {
    w0 * k.p0 + w1 * k.p1 + w2 * k.p2 + w3 * k.p3
  }

  lemma BlendIsMean(it: real, t: real, k: Cubic)
    ensures Blend(it, t, k) == Mean(Weight(it, t, 0), Weight(it, t, 1), Weight(it, t, 2), Weight(it, t, 3), k)
  {
  }

  /** A curve stays in any range that holds its four control values. */
  lemma ConvexHull(k: Cubic, r: Range)
    requires Within(k.p0, r) && Within(k.p1, r) && Within(k.p2, r) && Within(k.p3, r)
    ensures CurveWithin(k, r)
  {
    forall t | 0.0 <= t <= 1.0 ensures Within(EvalBezier(t, k), r) {
      WeightsSum(t);
      BlendInRange(1.0 - t, t, k, r);
    }
  }

  /** When the box of a segment can be trusted: the shortcut applies, or no turning point that the epsilons skip
      matters. */
  predicate Trusted(s: Segment, sqrt: real -> real) {
    ControlsInside(s) || (Harmless(AxisX(s), sqrt) && Harmless(AxisY(s), sqrt))
  }

  /** The box holds every point of the segment if and only if it can be trusted. */
  lemma BoxHoldsSegmentIff(s: Segment, sqrt: real -> real)
    requires IsSqrt(sqrt)
    ensures (forall t | 0.0 <= t <= 1.0 :: InBox(SegmentPoint(s, t), CurveBox(s, sqrt))) <==> Trusted(s, sqrt)
  {
    var b := CurveBox(s, sqrt);
    if ControlsInside(s) {
      ConvexHull(AxisX(s), Range(b.minX, b.maxX));
      ConvexHull(AxisY(s), Range(b.minY, b.maxY));
    } else {
      hide AxisRange, EvalBezier, Harmless, AxisX, AxisY;
      RangeHoldsIff(AxisX(s), sqrt);
      RangeHoldsIff(AxisY(s), sqrt);
      BothAxes(s, AxisRange(AxisX(s), sqrt), AxisRange(AxisY(s), sqrt));
    }
  }

  lemma BothAxes(s: Segment, x: Range, y: Range)
    ensures (forall t | 0.0 <= t <= 1.0 :: InBox(SegmentPoint(s, t), Box(x.lo, y.lo, x.hi, y.hi)))
       <==> CurveWithin(AxisX(s), x) && CurveWithin(AxisY(s), y)
  {
    hide EvalBezier, AxisX, AxisY;
    if forall t | 0.0 <= t <= 1.0 :: InBox(SegmentPoint(s, t), Box(x.lo, y.lo, x.hi, y.hi)) {
      forall t | 0.0 <= t <= 1.0 ensures Within(EvalBezier(t, AxisX(s)), x) && Within(EvalBezier(t, AxisY(s)), y) {
        assert InBox(SegmentPoint(s, t), Box(x.lo, y.lo, x.hi, y.hi));
      }
    }
  }

  lemma BoxHoldsSegment(s: Segment, sqrt: real -> real)
    requires IsSqrt(sqrt) && Trusted(s, sqrt)
    ensures forall t | 0.0 <= t <= 1.0 :: InBox(SegmentPoint(s, t), CurveBox(s, sqrt))
  {
    BoxHoldsSegmentIff(s, sqrt);
  }

  /** Whatever the epsilons do, the box of a segment is never too large. */
  lemma BoxIsTight(s: Segment, sqrt: real -> real)
    ensures var b := CurveBox(s, sqrt);
            && Attained(b.minX, Curve(AxisX(s))) && Attained(b.maxX, Curve(AxisX(s)))
            && Attained(b.minY, Curve(AxisY(s))) && Attained(b.maxY, Curve(AxisY(s)))
  {
    EndsAttained(AxisX(s));
    EndsAttained(AxisY(s));
    RangeIsTight(AxisX(s), sqrt);
    RangeIsTight(AxisY(s), sqrt);
  }

  lemma EndsAttained(k: Cubic)
    ensures Attained(k.p0, Curve(k)) && Attained(k.p3, Curve(k))
  {
    assert Curve(k)(0.0) == k.p0 && Curve(k)(1.0) == k.p3;
  }

  // ---------------------------------------------------------------- folding boxes

  /** The union of a non-empty list of boxes, first to last. */
  function Hull(boxes: seq<Box>): Box
    requires boxes != []
  {
    if |boxes| == 1 then boxes[0] else Union(Hull(boxes[..|boxes| - 1]), boxes[|boxes| - 1])
  }

  /** It is the least box that contains them all. */
  lemma {:induction false} HullIsLeast(boxes: seq<Box>, b: Box)
    requires boxes != []
    ensures BoxIn(Hull(boxes), b) <==> forall i | 0 <= i < |boxes| :: BoxIn(boxes[i], b)
  {
    if |boxes| > 1 {
      var rest := boxes[..|boxes| - 1];
      HullIsLeast(rest, b);
      assert forall i | 0 <= i < |rest| :: rest[i] == boxes[i];
    }
  }

  lemma HullHolds(boxes: seq<Box>, i: nat)
    requires i < |boxes|
    ensures BoxIn(boxes[i], Hull(boxes))
  {
    HullIsLeast(boxes, Hull(boxes));
  }

  predicate WellFormedPath(pts: seq<Point>) {
    |pts| >= 4 && |pts| % 3 == 1
  }

  function Segments(pts: seq<Point>): nat {
    if |pts| == 0 then 0 else (|pts| - 1) / 3
  }

  function SegmentAt(pts: seq<Point>, i: nat): Segment
    requires WellFormedPath(pts) && i < Segments(pts)
  {
    Segment(pts[3 * i], pts[3 * i + 1], pts[3 * i + 2], pts[3 * i + 3])
  }

  function SegmentBoxes(pts: seq<Point>, sqrt: real -> real): (boxes: seq<Box>)
    requires WellFormedPath(pts)
  {
    seq(Segments(pts), i requires 0 <= i < Segments(pts) => CurveBox(SegmentAt(pts, i), sqrt))
  }

  function PathBox(pts: seq<Point>, sqrt: real -> real): Box
    requires WellFormedPath(pts)
  {
    Hull(SegmentBoxes(pts, sqrt))
  }

  datatype Path = Path(pts: seq<Point>, closed: bool, bounds: Box)

  predicate ValidPath(p: Path, sqrt: real -> real) {
    WellFormedPath(p.pts) && p.bounds == PathBox(p.pts, sqrt)
  }

  datatype Shape = Shape(paths: seq<Path>, bounds: Box)

  predicate ValidShape(s: Shape, sqrt: real -> real) {
    && s.paths != [] && (forall p | p in s.paths :: ValidPath(p, sqrt))
    && s.bounds == Hull(PathBounds(s.paths))
  }

  function PathBounds(paths: seq<Path>): seq<Box> {
    seq(|paths|, i requires 0 <= i < |paths| => paths[i].bounds)
  }

  function ShapeBounds(shapes: seq<Shape>): seq<Box> {
    seq(|shapes|, i requires 0 <= i < |shapes| => shapes[i].bounds)
  }

  /** nsvg__imageBounds. */
  function ImageBox(shapes: seq<Shape>): Box {
    if shapes == [] then Box(0.0, 0.0, 0.0, 0.0) else Hull(ShapeBounds(shapes))
  }

  lemma PointInLarger(p: Point, a: Box, b: Box)
    requires InBox(p, a) && BoxIn(a, b)
    ensures InBox(p, b)
  {
  }

  ghost predicate HeldBy(s: Segment, b: Box) {
    forall t | 0.0 <= t <= 1.0 :: InBox(SegmentPoint(s, t), b)
  }

  /** The interior turning points lie in the box. */
  ghost predicate TurnsHeldBy(s: Segment, b: Box) {
    && (forall t | Critical(AxisX(s), t) :: b.minX <= EvalBezier(t, AxisX(s)) <= b.maxX)
    && (forall t | Critical(AxisY(s), t) :: b.minY <= EvalBezier(t, AxisY(s)) <= b.maxY)
  }

  /** A box around the segment's own holds it if and only if the segment is trusted or other boxes cover its turns. */
  lemma LargerBoxHoldsIff(s: Segment, b: Box, sqrt: real -> real)
    requires IsSqrt(sqrt) && BoxIn(CurveBox(s, sqrt), b)
    ensures HeldBy(s, b) <==> Trusted(s, sqrt) || TurnsHeldBy(s, b)
  {
    hide AxisX, AxisY, EvalBezier, Critical, Trusted, CurveBox;
    var own, x, y := CurveBox(s, sqrt), Range(b.minX, b.maxX), Range(b.minY, b.maxY);
    ExtremaAtTurns(AxisX(s), x, sqrt);
    ExtremaAtTurns(AxisY(s), y, sqrt);
    BothAxes(s, x, y);
    EndsInBox(s, sqrt);
    BoxHoldsSegmentIff(s, sqrt);
    if Trusted(s, sqrt) {
      assert HeldBy(s, own);
    }
  }

  lemma EndsInBox(s: Segment, sqrt: real -> real)
    ensures var x, y, b := AxisX(s), AxisY(s), CurveBox(s, sqrt);
            && b.minX <= x.p0 <= b.maxX && b.minX <= x.p3 <= b.maxX
            && b.minY <= y.p0 <= b.maxY && b.minY <= y.p3 <= b.maxY
  {
    EndsWithin(AxisX(s), sqrt);
    EndsWithin(AxisY(s), sqrt);
  }

  /** Which segments the boxes of their path, their shape and the image hold. */
  lemma ImageHoldsCurvesIff(shapes: seq<Shape>, i: nat, j: nat, n: nat, sqrt: real -> real)
    requires IsSqrt(sqrt)
    requires i < |shapes| && ValidShape(shapes[i], sqrt) && j < |shapes[i].paths|
    requires ValidPath(shapes[i].paths[j], sqrt) && n < Segments(shapes[i].paths[j].pts)
    ensures var s := SegmentAt(shapes[i].paths[j].pts, n);
            forall b | b in {shapes[i].paths[j].bounds, shapes[i].bounds, ImageBox(shapes)} ::
              HeldBy(s, b) <==> Trusted(s, sqrt) || TurnsHeldBy(s, b)
  {
    hide HeldBy, TurnsHeldBy, Trusted, CurveBox;
    var path := shapes[i].paths[j];
    var s := SegmentAt(path.pts, n);
    HullHolds(SegmentBoxes(path.pts, sqrt), n);
    HullHolds(PathBounds(shapes[i].paths), j);
    HullHolds(ShapeBounds(shapes), i);
    LargerBoxHoldsIff(s, path.bounds, sqrt);
    LargerBoxHoldsIff(s, shapes[i].bounds, sqrt);
    LargerBoxHoldsIff(s, ImageBox(shapes), sqrt);
  }

  /** Every point of every trusted segment lies in all three. */
  lemma ImageHoldsCurves(shapes: seq<Shape>, i: nat, j: nat, n: nat, t: real, sqrt: real -> real)
    requires IsSqrt(sqrt) && 0.0 <= t <= 1.0
    requires i < |shapes| && ValidShape(shapes[i], sqrt) && j < |shapes[i].paths|
    requires ValidPath(shapes[i].paths[j], sqrt) && n < Segments(shapes[i].paths[j].pts)
    requires Trusted(SegmentAt(shapes[i].paths[j].pts, n), sqrt)
    ensures var p := SegmentPoint(SegmentAt(shapes[i].paths[j].pts, n), t);
            InBox(p, shapes[i].paths[j].bounds) && InBox(p, shapes[i].bounds) && InBox(p, ImageBox(shapes))
  {
    hide CurveBox, Trusted, TurnsHeldBy;
    ImageHoldsCurvesIff(shapes, i, j, n, sqrt);
    var s := SegmentAt(shapes[i].paths[j].pts, n);
    assert HeldBy(s, shapes[i].paths[j].bounds) && HeldBy(s, shapes[i].bounds) && HeldBy(s, ImageBox(shapes));
  }

  // ---------------------------------------------------------------- affine maps

  function MapSegment(m: Xform, s: Segment): Segment {
    Segment(XformPoint(m, s.v0), XformPoint(m, s.v1), XformPoint(m, s.v2), XformPoint(m, s.v3))
  }

  lemma MeanOfAffine(w0: real, w1: real, w2: real, w3: real, k: Cubic, l: Cubic, m: real, n: real, c: real)
    requires w0 + w1 + w2 + w3 == 1.0
    ensures w0 * (k.p0 * m + l.p0 * n + c) + w1 * (k.p1 * m + l.p1 * n + c)
          + w2 * (k.p2 * m + l.p2 * n + c) + w3 * (k.p3 * m + l.p3 * n + c)
         == (w0 * k.p0 + w1 * k.p1 + w2 * k.p2 + w3 * k.p3) * m
          + (w0 * l.p0 + w1 * l.p1 + w2 * l.p2 + w3 * l.p3) * n + c
  {
    UnitSum(w0, w1, w2, w3, c);
    Spread(w0, k.p0, l.p0, m, n, c);
    Spread(w1, k.p1, l.p1, m, n, c);
    Spread(w2, k.p2, l.p2, m, n, c);
    Spread(w3, k.p3, l.p3, m, n, c);
    Gather(w0 * k.p0, w1 * k.p1, w2 * k.p2, w3 * k.p3, m);
    Gather(w0 * l.p0, w1 * l.p1, w2 * l.p2, w3 * l.p3, n);
  }

  lemma Spread(w: real, p: real, q: real, m: real, n: real, c: real)
    ensures w * (p * m + q * n + c) == (w * p) * m + (w * q) * n + w * c
  {
  }

  lemma Gather(a: real, b: real, c: real, d: real, m: real)
    ensures (a + b + c + d) * m == a * m + b * m + c * m + d * m
  {
  }

  predicate Combines(x: Cubic, k: Cubic, l: Cubic, m: real, n: real, c: real) {
    && x.p0 == Row(k.p0, l.p0, m, n, c) && x.p1 == Row(k.p1, l.p1, m, n, c)
    && x.p2 == Row(k.p2, l.p2, m, n, c) && x.p3 == Row(k.p3, l.p3, m, n, c)
  }

  lemma MeanCommutes(w0: real, w1: real, w2: real, w3: real, x: Cubic, k: Cubic, l: Cubic, m: real, n: real, c: real)
    requires w0 + w1 + w2 + w3 == 1.0 && Combines(x, k, l, m, n, c)
    ensures Mean(w0, w1, w2, w3, x) == Row(Mean(w0, w1, w2, w3, k), Mean(w0, w1, w2, w3, l), m, n, c)
  {
    MeanOfAffine(w0, w1, w2, w3, k, l, m, n, c);
  }

  lemma BlendCommutes(it: real, t: real, x: Cubic, k: Cubic, l: Cubic, m: real, n: real, c: real)
    requires Weight(it, t, 0) + Weight(it, t, 1) + Weight(it, t, 2) + Weight(it, t, 3) == 1.0
    requires Combines(x, k, l, m, n, c)
    ensures Blend(it, t, x) == Row(Blend(it, t, k), Blend(it, t, l), m, n, c)
  {
    BlendIsMean(it, t, x);
    BlendIsMean(it, t, k);
    BlendIsMean(it, t, l);
    MeanCommutes(Weight(it, t, 0), Weight(it, t, 1), Weight(it, t, 2), Weight(it, t, 3), x, k, l, m, n, c);
  }

  lemma AxisCommutes(t: real, x: Cubic, k: Cubic, l: Cubic, m: real, n: real, c: real)
    requires Combines(x, k, l, m, n, c)
    ensures EvalBezier(t, x) == Row(EvalBezier(t, k), EvalBezier(t, l), m, n, c)
  {
    WeightsSum(t);
    BlendCommutes(1.0 - t, t, x, k, l, m, n, c);
  }

  lemma MappedAxes(m: Xform, s: Segment)
    ensures Combines(AxisX(MapSegment(m, s)), AxisX(s), AxisY(s), m.t0, m.t2, m.t4)
    ensures Combines(AxisY(MapSegment(m, s)), AxisX(s), AxisY(s), m.t1, m.t3, m.t5)
  {
  }

  /** Mapping the control points maps the whole curve. */
  lemma AffineCommutes(m: Xform, s: Segment, t: real)
    ensures SegmentPoint(MapSegment(m, s), t) == XformPoint(m, SegmentPoint(s, t))
  {
    var x, y := AxisX(s), AxisY(s);
    var x', y' := AxisX(MapSegment(m, s)), AxisY(MapSegment(m, s));
    MappedAxes(m, s);
    AxisCommutes(t, x', x, y, m.t0, m.t2, m.t4);
    AxisCommutes(t, y', x, y, m.t1, m.t3, m.t5);
  }

  // ---------------------------------------------------------------- the view box

  datatype View = View(tx: real, ty: real, sx: real, sy: real)

  /** One coordinate moved by t and then scaled by s. */
  function Shifted(s: real, t: real, x: real): real { (x + t) * s }

  function ViewPoint(v: View, p: Point): Point {
    Point(Shifted(v.sx, v.tx, p.x), Shifted(v.sy, v.ty, p.y))
  }

  function ViewXform(v: View): Xform {
    Xform(v.sx, 0.0, 0.0, v.sy, v.tx * v.sx, v.ty * v.sy)
  }

  function ViewBounds(v: View, b: Box): Box {
    Box(Shifted(v.sx, v.tx, b.minX), Shifted(v.sy, v.ty, b.minY), Shifted(v.sx, v.tx, b.maxX),
        Shifted(v.sy, v.ty, b.maxY))
  }

  lemma ViewIsAffine(v: View, p: Point)
    ensures ViewPoint(v, p) == XformPoint(ViewXform(v), p)
  {
  }

  lemma ScaleKeepsOrder(s: real, x: real, y: real)
    requires s >= 0.0 && x <= y
    ensures x * s <= y * s
  {
    SignOfMultiple(s, y - x);
  }

  lemma ScaleReverses(s: real, x: real, y: real)
    requires s < 0.0 && x < y
    ensures x * s > y * s
  {
    StrictSign(y - x, s);
  }

  /** The scale does not turn the sides of the box around. */
  predicate Upright(v: View, b: Box) {
    (v.sx >= 0.0 || b.minX == b.maxX) && (v.sy >= 0.0 || b.minY == b.maxY)
  }

  lemma NegativeScaleLoses(v: View, b: Box)
    requires b.minX <= b.maxX && b.minY <= b.maxY && !Upright(v, b)
    ensures !InBox(ViewPoint(v, Point(b.minX, b.minY)), ViewBounds(v, b))
  {
    if v.sx < 0.0 && b.minX < b.maxX {
      ScaleReverses(v.sx, b.minX + v.tx, b.maxX + v.tx);
    } else {
      ScaleReverses(v.sy, b.minY + v.ty, b.maxY + v.ty);
    }
  }

  /** Scaling a box corner by corner keeps its points inside if and only if no scale is negative on an axis on which the
      box has some extent. */
  lemma ViewKeepsContainmentIff(v: View, b: Box)
    requires b.minX <= b.maxX && b.minY <= b.maxY
    ensures (forall p | InBox(p, b) :: InBox(ViewPoint(v, p), ViewBounds(v, b))) <==> Upright(v, b)
  {
    if Upright(v, b) {
      forall p | InBox(p, b) ensures InBox(ViewPoint(v, p), ViewBounds(v, b)) {
        ViewKeepsPoint(v, b, p);
      }
    } else {
      NegativeScaleLoses(v, b);
      assert InBox(Point(b.minX, b.minY), b);
    }
  }

  lemma ViewKeepsPoint(v: View, b: Box, p: Point)
    requires Upright(v, b) && InBox(p, b)
    ensures InBox(ViewPoint(v, p), ViewBounds(v, b))
  {
    hide Shifted;
    AxisKeepsPoint(v.sx, v.tx, b.minX, b.maxX, p.x);
    AxisKeepsPoint(v.sy, v.ty, b.minY, b.maxY, p.y);
  }

  lemma AxisKeepsPoint(s: real, t: real, lo: real, hi: real, x: real)
    requires (s >= 0.0 || lo == hi) && lo <= x <= hi
    ensures Shifted(s, t, lo) <= Shifted(s, t, x) <= Shifted(s, t, hi)
  {
    if s >= 0.0 {
      ScaleKeepsOrder(s, lo + t, x + t);
      ScaleKeepsOrder(s, x + t, hi + t);
    } else {
      assert x == lo;
    }
  }

  /** After nsvg__scaleToViewbox the scaled boxes still hold the scaled curves. */
  lemma ScaledImageHoldsCurves(shapes: seq<Shape>, i: nat, j: nat, n: nat, t: real, sqrt: real -> real, v: View)
    requires IsSqrt(sqrt) && 0.0 <= t <= 1.0 && v.sx >= 0.0 && v.sy >= 0.0
    requires i < |shapes| && ValidShape(shapes[i], sqrt) && j < |shapes[i].paths|
    requires ValidPath(shapes[i].paths[j], sqrt) && n < Segments(shapes[i].paths[j].pts)
    requires Trusted(SegmentAt(shapes[i].paths[j].pts, n), sqrt)
    ensures var p := SegmentPoint(MapSegment(ViewXform(v), SegmentAt(shapes[i].paths[j].pts, n)), t);
            InBox(p, ViewBounds(v, shapes[i].paths[j].bounds)) && InBox(p, ViewBounds(v, shapes[i].bounds))
  {
    var segment := SegmentAt(shapes[i].paths[j].pts, n);
    ImageHoldsCurves(shapes, i, j, n, t, sqrt);
    AffineCommutes(ViewXform(v), segment, t);
    ViewIsAffine(v, SegmentPoint(segment, t));
    ViewKeepsPoint(v, shapes[i].paths[j].bounds, SegmentPoint(segment, t));
    ViewKeepsPoint(v, shapes[i].bounds, SegmentPoint(segment, t));
  }

  datatype Align = AlignMin | AlignMid | AlignMax
  datatype AlignType = AlignNone | AlignMeet | AlignSlice

  function ViewAlign(content: real, container: real, align: Align): real {
    match align
    case AlignMin => 0.0
    case AlignMax => container - content
    case AlignMid => (container - content) * 0.5
  }

  /** Origin and extent of the view box on one axis, and the extent of the image. */
  datatype Axis = Axis(origin: real, extent: real, image: real, align: Align)

  function AxisScale(a: Axis): real {
    if a.extent > 0.0 then a.image / a.extent else 0.0
  }

  /** Translation on one axis once both axes share the scale s. */
  function AlignedOrigin(a: Axis, s: real): real
    requires s != 0.0
  {
    -a.origin + ViewAlign(a.extent * s, a.image, a.align) / s
  }

  /** The mapping before unit scaling.  The source divides by the scale, so the aligned cases need it
      to be non-zero. */
  function ViewOf(x: Axis, y: Axis, alignType: AlignType): View
    requires alignType.AlignMeet? ==> Min(AxisScale(x), AxisScale(y)) != 0.0
    requires alignType.AlignSlice? ==> Max(AxisScale(x), AxisScale(y)) != 0.0
  {
    match alignType
    case AlignNone => View(-x.origin, -y.origin, AxisScale(x), AxisScale(y))
    case AlignMeet =>
      var s := Min(AxisScale(x), AxisScale(y));
      View(AlignedOrigin(x, s), AlignedOrigin(y, s), s, s)
    case AlignSlice =>
      var s := Max(AxisScale(x), AxisScale(y));
      View(AlignedOrigin(x, s), AlignedOrigin(y, s), s, s)
  }

  predicate Proper(a: Axis) { a.extent > 0.0 && a.image > 0.0 }

  /** Where the mapping takes the two ends of the view box on one axis. */
  function LowEnd(a: Axis, translation: real, s: real): real { Shifted(s, translation, a.origin) }

  function HighEnd(a: Axis, translation: real, s: real): real { Shifted(s, translation, a.origin + a.extent) }

  lemma AlignedEnds(a: Axis, s: real)
    requires s > 0.0
    ensures LowEnd(a, AlignedOrigin(a, s), s) == ViewAlign(a.extent * s, a.image, a.align)
    ensures HighEnd(a, AlignedOrigin(a, s), s) == ViewAlign(a.extent * s, a.image, a.align) + a.extent * s
  {
    var al := ViewAlign(a.extent * s, a.image, a.align);
    assert al / s * s == al;
  }

  lemma ScaleCompares(a: Axis, s: real)
    requires Proper(a) && s > 0.0
    ensures s <= AxisScale(a) ==> a.extent * s <= a.image
    ensures s >= AxisScale(a) ==> a.extent * s >= a.image
  {
    assert AxisScale(a) * a.extent == a.image;
    SignOfMultiple(a.extent, AxisScale(a) - s);
  }

  lemma AxisMeetsOrCovers(a: Axis, s: real)
    requires Proper(a) && s > 0.0
    ensures s <= AxisScale(a) ==>
              0.0 <= LowEnd(a, AlignedOrigin(a, s), s) && HighEnd(a, AlignedOrigin(a, s), s) <= a.image
    ensures s >= AxisScale(a) ==>
              LowEnd(a, AlignedOrigin(a, s), s) <= 0.0 && a.image <= HighEnd(a, AlignedOrigin(a, s), s)
  {
    AlignedEnds(a, s);
    ScaleCompares(a, s);
  }

  /** The view box lies at the low end of the image, at its high end, or leaves equal gaps at both. */
  predicate AlignedAs(a: Axis, translation: real, s: real) {
    match a.align
    case AlignMin => LowEnd(a, translation, s) == 0.0
    case AlignMax => HighEnd(a, translation, s) == a.image
    case AlignMid => LowEnd(a, translation, s) == a.image - HighEnd(a, translation, s)
  }

  /** The view box fills the image on this axis. */
  predicate Fills(a: Axis, translation: real, s: real) {
    LowEnd(a, translation, s) == 0.0 && HighEnd(a, translation, s) == a.image
  }

  lemma AxisAligned(a: Axis, s: real)
    requires Proper(a) && s > 0.0
    ensures AlignedAs(a, AlignedOrigin(a, s), s)
    ensures s == AxisScale(a) ==> Fills(a, AlignedOrigin(a, s), s)
  {
    AlignedEnds(a, s);
    assert AxisScale(a) * a.extent == a.image;
  }

  lemma ScalesArePositive(a: Axis)
    requires Proper(a)
    ensures AxisScale(a) > 0.0
  {
  }

  /** "meet" and "slice" scale both axes alike and align them as they are told, filling the image on one of them. */
  lemma ViewAligns(x: Axis, y: Axis, alignType: AlignType)
    requires Proper(x) && Proper(y) && !alignType.AlignNone?
    ensures AxisScale(x) > 0.0 && AxisScale(y) > 0.0
    ensures var v := ViewOf(x, y, alignType);
            && v.sx == v.sy && AlignedAs(x, v.tx, v.sx) && AlignedAs(y, v.ty, v.sy)
            && (Fills(x, v.tx, v.sx) || Fills(y, v.ty, v.sy))
            && ViewPoint(v, Point(x.origin, y.origin)) == Point(LowEnd(x, v.tx, v.sx), LowEnd(y, v.ty, v.sy))
            && ViewPoint(v, Point(x.origin + x.extent, y.origin + y.extent))
               == Point(HighEnd(x, v.tx, v.sx), HighEnd(y, v.ty, v.sy))
  {
    hide AlignedAs, Fills, AlignedOrigin, Shifted, AxisScale;
    ScalesArePositive(x);
    ScalesArePositive(y);
    var u, w := AxisScale(x), AxisScale(y);
    var s := if alignType.AlignMeet? then Min(u, w) else Max(u, w);
    AxisAligned(x, s);
    AxisAligned(y, s);
  }

  /** Without an alignment the view box is stretched to the image. */
  lemma ViewStretches(x: Axis, y: Axis)
    requires Proper(x) && Proper(y)
    ensures var v := ViewOf(x, y, AlignNone); Fills(x, v.tx, v.sx) && Fills(y, v.ty, v.sy)
  {
    assert AxisScale(x) * x.extent == x.image && AxisScale(y) * y.extent == y.image;
  }

  /** "meet" fits the whole view box into the image. */
  lemma MeetFits(x: Axis, y: Axis)
    requires Proper(x) && Proper(y)
    ensures AxisScale(x) > 0.0 && AxisScale(y) > 0.0
    ensures var v := ViewOf(x, y, AlignMeet);
            && 0.0 <= LowEnd(x, v.tx, v.sx) && HighEnd(x, v.tx, v.sx) <= x.image
            && 0.0 <= LowEnd(y, v.ty, v.sy) && HighEnd(y, v.ty, v.sy) <= y.image
  {
    AxisMeetsOrCovers(x, Min(AxisScale(x), AxisScale(y)));
    AxisMeetsOrCovers(y, Min(AxisScale(x), AxisScale(y)));
  }

  /** "slice" covers the whole image with the view box. */
  lemma SliceCovers(x: Axis, y: Axis)
    requires Proper(x) && Proper(y)
    ensures AxisScale(x) > 0.0 && AxisScale(y) > 0.0
    ensures var v := ViewOf(x, y, AlignSlice);
            && LowEnd(x, v.tx, v.sx) <= 0.0 && x.image <= HighEnd(x, v.tx, v.sx)
            && LowEnd(y, v.ty, v.sy) <= 0.0 && y.image <= HighEnd(y, v.ty, v.sy)
  {
    AxisMeetsOrCovers(x, Max(AxisScale(x), AxisScale(y)));
    AxisMeetsOrCovers(y, Max(AxisScale(x), AxisScale(y)));
  }
}

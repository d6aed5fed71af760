/** The shape elements with fixed outlines: what nanosvg builds for them, and what it stores. */
module SvgShapes {
  import opened SvgGeometry
  import opened SvgBounds
  import opened SvgBoxes
  import opened SvgOutlines
  import opened SvgPathParser
  import P = SvgPath

  /** Length of a handle for a quarter of a unit circle. */
  const KAPPA90 := 0.5522847493

  // ---------------------------------------------------------------- outlines

  function EllipsePoints(cx: real, cy: real, rx: real, ry: real): seq<Point> {
    var kx, ky := rx * KAPPA90, ry * KAPPA90;
    var p0 := P.MoveTo([], Point(cx + rx, cy));
    var p1 := P.CubicTo(p0, Point(cx + rx, cy + ky), Point(cx + kx, cy + ry), Point(cx, cy + ry));
    var p2 := P.CubicTo(p1, Point(cx - kx, cy + ry), Point(cx - rx, cy + ky), Point(cx - rx, cy));
    var p3 := P.CubicTo(p2, Point(cx - rx, cy - ky), Point(cx - kx, cy - ry), Point(cx, cy - ry));
    P.CubicTo(p3, Point(cx + kx, cy - ry), Point(cx + rx, cy - ky), Point(cx + rx, cy))
  }

  function SharpRect(x: real, y: real, w: real, h: real): seq<Point> {
    P.LineTo(P.LineTo(P.LineTo(P.MoveTo([], Point(x, y)), Point(x + w, y)), Point(x + w, y + h)), Point(x, y + h))
  }

  function RoundRect(x: real, y: real, w: real, h: real, rx: real, ry: real): seq<Point> {
    var kx, ky := rx * (1.0 - KAPPA90), ry * (1.0 - KAPPA90);
    var p0 := P.LineTo(P.MoveTo([], Point(x + rx, y)), Point(x + w - rx, y));
    var p1 := P.CubicTo(p0, Point(x + w - kx, y), Point(x + w, y + ky), Point(x + w, y + ry));
    var p2 := P.LineTo(p1, Point(x + w, y + h - ry));
    var p3 := P.CubicTo(p2, Point(x + w, y + h - ky), Point(x + w - kx, y + h), Point(x + w - rx, y + h));
    var p4 := P.LineTo(p3, Point(x + rx, y + h));
    var p5 := P.CubicTo(p4, Point(x + kx, y + h), Point(x, y + h - ky), Point(x, y + h - ry));
    var p6 := P.LineTo(p5, Point(x, y + ry));
    P.CubicTo(p6, Point(x, y + ky), Point(x + kx, y), Point(x + rx, y))
  }

  /** The radii of a rectangle, -1 standing for one that is not given. */
  function Radii(w: real, h: real, rx: real, ry: real): (real, real) {
    var a := if rx < 0.0 && ry > 0.0 then ry else rx;
    var b := if ry < 0.0 && a > 0.0 then a else ry;
    var a0, b0 := if a < 0.0 then 0.0 else a, if b < 0.0 then 0.0 else b;
    (if a0 > w / 2.0 then w / 2.0 else a0, if b0 > h / 2.0 then h / 2.0 else b0)
  }

  predicate IsSharp(w: real, h: real, rx: real, ry: real) {
    Radii(w, h, rx, ry).0 < 0.00001 || Radii(w, h, rx, ry).1 < 0.0001
  }

  function RectPoints(x: real, y: real, w: real, h: real, rx: real, ry: real): seq<Point> {
    var (a, b) := Radii(w, h, rx, ry);
    if IsSharp(w, h, rx, ry) then SharpRect(x, y, w, h) else RoundRect(x, y, w, h, a, b)
  }

  // ---------------------------------------------------------------- what is stored

  /** A closed ellipse is five segments, the last of no length, whatever the transform; under an axis-parallel one its
      box is the image of the box of its radii. */
  lemma EllipseStored(env: P.Env, cx: real, cy: real, rx: real, ry: real, plist: seq<Path>)
    requires rx > 0.0 && ry > 0.0
    ensures Adds(env, EllipsePoints(cx, cy, rx, ry), true, plist, 16)
    ensures AxisParallel(env.xform) ==>
              StoredBox(env, EllipsePoints(cx, cy, rx, ry), true, plist)
              == MapBox(env.xform, Box(cx - rx, cy - ry, cx + rx, cy + ry))
  {
    hide AxisParallel, MapBox, Tame, Span, EllipsePoints, P.LineTo, P.Commit;
    var pts := EllipsePoints(cx, cy, rx, ry);
    EllipseIsTame(cx, cy, rx, ry);
    LineIsTame(pts, pts[0]);
    TameStored(env, pts, plist);
  }

  lemma EllipseIsTame(cx: real, cy: real, rx: real, ry: real)
    requires rx > 0.0 && ry > 0.0
    ensures var pts := EllipsePoints(cx, cy, rx, ry);
            && |pts| == 13 && pts[12] == pts[0] == Point(cx + rx, cy) && Tame(pts)
            && Union(Span(pts), PointBox(pts[0])) == Box(cx - rx, cy - ry, cx + rx, cy + ry)
  {
    hide Tame, Span, P.LineTo, P.CubicTo;
    var kx, ky := rx * KAPPA90, ry * KAPPA90;
    assert 0.0 < kx < rx && 0.0 < ky < ry;
    var p0 := [Point(cx + rx, cy)];
    StartIsTame(p0[0]);
    var p1 := P.CubicTo(p0, Point(cx + rx, cy + ky), Point(cx + kx, cy + ry), Point(cx, cy + ry));
    CubicIsTame(p0, Point(cx + rx, cy + ky), Point(cx + kx, cy + ry), Point(cx, cy + ry));
    var p2 := P.CubicTo(p1, Point(cx - kx, cy + ry), Point(cx - rx, cy + ky), Point(cx - rx, cy));
    CubicIsTame(p1, Point(cx - kx, cy + ry), Point(cx - rx, cy + ky), Point(cx - rx, cy));
    var p3 := P.CubicTo(p2, Point(cx - rx, cy - ky), Point(cx - kx, cy - ry), Point(cx, cy - ry));
    CubicIsTame(p2, Point(cx - rx, cy - ky), Point(cx - kx, cy - ry), Point(cx, cy - ry));
    var p4 := P.CubicTo(p3, Point(cx + kx, cy - ry), Point(cx + rx, cy - ky), Point(cx + rx, cy));
    CubicIsTame(p3, Point(cx + kx, cy - ry), Point(cx + rx, cy - ky), Point(cx + rx, cy));
    assert p4 == EllipsePoints(cx, cy, rx, ry);
  }

  // ---------------------------------------------------------------- how round it is

  /** How much of the starting axis and of the other one a quarter has at t. */
  function StartPart(t: real): real { W(t, 0) + W(t, 1) + W(t, 2) * KAPPA90 }

  function OtherPart(t: real): real { W(t, 3) + W(t, 2) + W(t, 1) * KAPPA90 }

  function W(t: real, i: nat): real { Weight(1.0 - t, t, i) }

  lemma Mix(w0: real, w1: real, w2: real, w3: real, c: real, a: real, b: real)
    requires w0 + w1 + w2 + w3 == 1.0
    ensures Mean(w0, w1, w2, w3, Cubic(c + a, c + a + b * KAPPA90, c + a * KAPPA90 + b, c + b))
         == Combined(c, w0 + w1 + w2 * KAPPA90, a, w3 + w2 + w1 * KAPPA90, b)
  {
    var k := KAPPA90;
    UnitSum(w0, w1, w2, w3, c);
    Share(w1, c, a, b, k);
    Share(w2, c, b, a, k);
    assert (w0 + w1 + w2 * k) * a == w0 * a + w1 * a + w2 * k * a;
    assert (w3 + w2 + w1 * k) * b == w3 * b + w2 * b + w1 * k * b;
  }

  lemma Share(w: real, c: real, a: real, b: real, k: real)
    ensures w * (c + a + b * k) == w * c + w * a + w * k * b
    ensures w * (c + b * k + a) == w * c + w * a + w * k * b
  {
  }

  lemma PartsSum(t: real)
    ensures var x, y, s := StartPart(t), OtherPart(t), t * (1.0 - t);
            x * x + y * y == 1.0 + s * s * (Excess0() + Excess1() * s)
  {
  }

  function Excess0(): real { 9.0 * KAPPA90 * KAPPA90 + 6.0 * KAPPA90 - 6.0 }

  function Excess1(): real { 24.0 * KAPPA90 - 8.0 - 18.0 * KAPPA90 * KAPPA90 }

  lemma ExcessBounds(s: real)
    requires 0.0 <= s <= 0.25
    ensures -0.000001 <= s * s * (Excess0() + Excess1() * s) <= 0.000546
  {
    var c, d, h := Excess0(), Excess1() + 4.0 * Excess0(), s * s * (1.0 - 4.0 * s);
    var cube := s * s * s;
    ExcessSizes();
    Hump(s);
    SignOfMultiple(c, h);
    SignOfMultiple(0.0589 - c, h);
    SignOfMultiple(s * s, s);
    SignOfMultiple(s * s, 0.25 - s);
    SignOfMultiple(s, s);
    SignOfMultiple(s, 0.25 - s);
    SignOfMultiple(d, cube);
    SignOfMultiple(0.000001 + d, cube);
    assert (0.0589 - c) * h == 0.0589 * h - c * h && (0.000001 + d) * cube == 0.000001 * cube + d * cube;
    ExcessSplits(s, c, Excess1());
  }

  lemma ExcessSizes()
    ensures 0.0588 <= Excess0() <= 0.0589 && -0.000001 <= Excess1() + 4.0 * Excess0() <= 0.0
  {
  }

  lemma ExcessSplits(s: real, c: real, e: real)
    ensures s * s * (c + e * s) == c * (s * s * (1.0 - 4.0 * s)) + (e + 4.0 * c) * (s * s * s)
  {
  }

  lemma Hump(s: real)
    requires 0.0 <= s <= 0.25
    ensures 0.0 <= s * s * (1.0 - 4.0 * s) <= 1.0 / 108.0
  {
    var d := (s - 1.0 / 6.0) * (s - 1.0 / 6.0);
    SignOfMultiple(s, s);
    SignOfMultiple(s * s, 1.0 - 4.0 * s);
    SignOfMultiple(s - 1.0 / 6.0, s - 1.0 / 6.0);
    SignOfMultiple(4.0 * d, s + 1.0 / 12.0);
    assert 1.0 / 108.0 - s * s * (1.0 - 4.0 * s) == 4.0 * d * (s + 1.0 / 12.0);
  }

  /** The cubic from c + a to c + b for a quarter turn. */
  function Quarter(c: Point, a: Point, b: Point): Segment {
    Segment(Point(c.x + a.x, c.y + a.y), Point(c.x + a.x + b.x * KAPPA90, c.y + a.y + b.y * KAPPA90),
            Point(c.x + a.x * KAPPA90 + b.x, c.y + a.y * KAPPA90 + b.y), Point(c.x + b.x, c.y + b.y))
  }

  /** The four quarters of an ellipse, from each half axis to the next. */
  lemma Quarters(cx: real, cy: real, rx: real, ry: real)
    ensures var pts, c := EllipsePoints(cx, cy, rx, ry), Point(cx, cy);
            && |pts| == 13
            && SegmentAt(pts, 0) == Quarter(c, Point(rx, 0.0), Point(0.0, ry))
            && SegmentAt(pts, 1) == Quarter(c, Point(0.0, ry), Point(-rx, 0.0))
            && SegmentAt(pts, 2) == Quarter(c, Point(-rx, 0.0), Point(0.0, -ry))
            && SegmentAt(pts, 3) == Quarter(c, Point(0.0, -ry), Point(rx, 0.0))
  {
  }

  /** From c, x times a and y times b. */
  function Combined(c: real, x: real, a: real, y: real, b: real): real { c + x * a + y * b }

  /** q lies u and v radii away from the centre. */
  predicate AwayBy(q: Point, c: Point, rx: real, ry: real, u: real, v: real) {
    q == Point(c.x + Times(u, rx), c.y + Times(v, ry))
  }

  predicate NearOne(u: real, v: real) { 0.999999 <= Times(u, u) + Times(v, v) <= 1.000546 }

  /** Measured in its radii the point is nearly at distance 1 from the centre. */
  ghost predicate NearEllipse(q: Point, c: Point, rx: real, ry: real) {
    exists u, v :: AwayBy(q, c, rx, ry, u, v) && NearOne(u, v)
  }

  lemma Axes(c: real, x: real, y: real, r: real)
    ensures Combined(c, x, r, y, 0.0) == c + Times(x, r) && Combined(c, x, -r, y, 0.0) == c + Times(-x, r)
    ensures Combined(c, x, 0.0, y, r) == c + Times(y, r) && Combined(c, x, 0.0, y, -r) == c + Times(-y, r)
  {
  }

  lemma NearEither(x: real, y: real)
    requires NearOne(x, y)
    ensures NearOne(-y, x) && NearOne(-x, -y) && NearOne(y, -x)
  {
  }

  lemma PartsNear(t: real)
    requires 0.0 <= t <= 1.0
    ensures NearOne(StartPart(t), OtherPart(t))
  {
    hide StartPart, OtherPart, Excess0, Excess1;
    QuarterBounds(t);
    PartsSum(t);
    ExcessBounds(t * (1.0 - t));
  }

  lemma QuarterBounds(t: real)
    requires 0.0 <= t <= 1.0
    ensures 0.0 <= t * (1.0 - t) <= 0.25
  {
    SignOfMultiple(t, 1.0 - t);
    SignOfMultiple(t - 0.5, t - 0.5);
    assert t * (1.0 - t) == 0.25 - (t - 0.5) * (t - 0.5);
  }

  /** Every point of the four cubics lies within 0.028 per cent of the ellipse. */
  lemma EllipseIsRound(cx: real, cy: real, rx: real, ry: real, i: nat, t: real)
    requires i < 4 && 0.0 <= t <= 1.0
    ensures var pts := EllipsePoints(cx, cy, rx, ry);
            |pts| == 13 && NearEllipse(SegmentPoint(SegmentAt(pts, i), t), Point(cx, cy), rx, ry)
  {
    hide Blend, Weight, Mean, EllipsePoints, Combined, Times, NearOne;
    Quarters(cx, cy, rx, ry);
    PartsNear(t);
    WeightsSum(t);
    var x, y, c := StartPart(t), OtherPart(t), Point(cx, cy);
    NearEither(x, y);
    Axes(cx, x, y, rx);
    Axes(cy, x, y, ry);
    var s := SegmentAt(EllipsePoints(cx, cy, rx, ry), i);
    var q := SegmentPoint(s, t);
    BlendIsMean(1.0 - t, t, AxisX(s));
    BlendIsMean(1.0 - t, t, AxisY(s));
    if i == 0 {
      Mix(W(t, 0), W(t, 1), W(t, 2), W(t, 3), cx, rx, 0.0);
      Mix(W(t, 0), W(t, 1), W(t, 2), W(t, 3), cy, 0.0, ry);
      assert AwayBy(q, c, rx, ry, x, y);
    } else if i == 1 {
      Mix(W(t, 0), W(t, 1), W(t, 2), W(t, 3), cx, 0.0, -rx);
      Mix(W(t, 0), W(t, 1), W(t, 2), W(t, 3), cy, ry, 0.0);
      assert AwayBy(q, c, rx, ry, -y, x);
    } else if i == 2 {
      Mix(W(t, 0), W(t, 1), W(t, 2), W(t, 3), cx, -rx, 0.0);
      Mix(W(t, 0), W(t, 1), W(t, 2), W(t, 3), cy, 0.0, -ry);
      assert AwayBy(q, c, rx, ry, -x, -y);
    } else {
      Mix(W(t, 0), W(t, 1), W(t, 2), W(t, 3), cx, 0.0, rx);
      Mix(W(t, 0), W(t, 1), W(t, 2), W(t, 3), cy, -ry, 0.0);
      assert AwayBy(q, c, rx, ry, y, -x);
    }
  }

  /** A radius that is not given is the other one, and both are capped by half the side. */
  lemma MissingRadius(w: real, h: real, r: real)
    requires r > 0.0
    ensures Radii(w, h, -1.0, r) == Radii(w, h, r, -1.0) == Radii(w, h, r, r) == (Min(r, w / 2.0), Min(r, h / 2.0))
    ensures Radii(w, h, -1.0, -1.0) == (Min(0.0, w / 2.0), Min(0.0, h / 2.0))
    ensures w >= 2.0 * r && h >= 2.0 * r ==> (IsSharp(w, h, r, -1.0) <==> r < 0.0001)
  {
  }

  /** The corners of a rectangle, in the order in which they are drawn. */
  function Corners(x: real, y: real, w: real, h: real): seq<Point> {
    [Point(x, y), Point(x + w, y), Point(x + w, y + h), Point(x, y + h)]
  }

  /** A rectangle is four lines, the last one drawn by closing it, or eight segments and one of no length. Under an
      axis-parallel transform its box is the image of the rectangle, in whichever direction it is drawn; that of a sharp
      one is the box of the images of its corners under any transform. */
  lemma RectStored(env: P.Env, x: real, y: real, w: real, h: real, rx: real, ry: real, plist: seq<Path>)
    requires w != 0.0 && h != 0.0
    ensures Adds(env, RectPoints(x, y, w, h, rx, ry), true, plist, if IsSharp(w, h, rx, ry) then 13 else 28)
    ensures AxisParallel(env.xform) ==>
              StoredBox(env, RectPoints(x, y, w, h, rx, ry), true, plist)
              == MapBox(env.xform, Box(Min(x, x + w), Min(y, y + h), Max(x, x + w), Max(y, y + h)))
    ensures IsSharp(w, h, rx, ry) ==>
              StoredBox(env, RectPoints(x, y, w, h, rx, ry), true, plist)
              == VertexBox(P.XformPoints(env.xform, Corners(x, y, w, h)))
  {
    hide AxisParallel, MapBox, Tame, Span, SharpRect, RoundRect, P.LineTo, P.Commit, VertexBox, Corners;
    var (a, b) := Radii(w, h, rx, ry);
    if IsSharp(w, h, rx, ry) {
      SharpIsTame(x, y, w, h);
      SharpIsOutline(x, y, w, h);
      OutlineStored(env, Corners(x, y, w, h), true, plist);
    } else {
      RoundIsTame(x, y, w, h, a, b);
    }
    var pts := RectPoints(x, y, w, h, rx, ry);
    LineIsTame(pts, pts[0]);
    TameStored(env, pts, plist);
  }

  lemma SharpIsOutline(x: real, y: real, w: real, h: real)
    ensures SharpRect(x, y, w, h) == Outline(Corners(x, y, w, h)) && |Corners(x, y, w, h)| == 4
  {
    hide P.LineTo, P.MoveTo;
    var vs := Corners(x, y, w, h);
    assert vs[..3][..2] == vs[..2] && vs[..3][2] == vs[2] && vs[..2][..1] == [vs[0]];
    assert Outline(vs[..2]) == P.LineTo(Outline([vs[0]]), vs[1]);
    assert Outline(vs[..3]) == P.LineTo(Outline(vs[..2]), vs[2]);
  }

  lemma SharpIsTame(x: real, y: real, w: real, h: real)
    ensures var pts := SharpRect(x, y, w, h);
            && Tame(pts) && |pts| == 10 && pts[0] == Point(x, y)
            && Span(pts) == Box(Min(x, x + w), Min(y, y + h), Max(x, x + w), Max(y, y + h))
  {
    hide Tame, Span, P.LineTo;
    StartIsTame(Point(x, y));
    var p1 := P.LineTo([Point(x, y)], Point(x + w, y));
    LineIsTame([Point(x, y)], Point(x + w, y));
    var p2 := P.LineTo(p1, Point(x + w, y + h));
    LineIsTame(p1, Point(x + w, y + h));
    LineIsTame(p2, Point(x, y + h));
  }

  lemma RoundIsTame(x: real, y: real, w: real, h: real, rx: real, ry: real)
    requires 0.0 < rx <= w / 2.0 && 0.0 < ry <= h / 2.0
    ensures var pts := RoundRect(x, y, w, h, rx, ry);
            && Tame(pts) && |pts| == 25 && pts[0] == Point(x + rx, y) && Span(pts) == Box(x, y, x + w, y + h)
  {
    hide Tame, Span, P.LineTo, P.CubicTo, Union;
    var kx, ky := rx * (1.0 - KAPPA90), ry * (1.0 - KAPPA90);
    assert 0.0 < kx < rx && 0.0 < ky < ry;
    var p := [Point(x + rx, y)];
    StartIsTame(p[0]);
    LineIsTame(p, Point(x + w - rx, y));
    p := P.LineTo(p, Point(x + w - rx, y));
    CubicIsTame(p, Point(x + w - kx, y), Point(x + w, y + ky), Point(x + w, y + ry));
    p := P.CubicTo(p, Point(x + w - kx, y), Point(x + w, y + ky), Point(x + w, y + ry));
    LineIsTame(p, Point(x + w, y + h - ry));
    p := P.LineTo(p, Point(x + w, y + h - ry));
    CubicIsTame(p, Point(x + w, y + h - ky), Point(x + w - kx, y + h), Point(x + w - rx, y + h));
    p := P.CubicTo(p, Point(x + w, y + h - ky), Point(x + w - kx, y + h), Point(x + w - rx, y + h));
    LineIsTame(p, Point(x + rx, y + h));
    p := P.LineTo(p, Point(x + rx, y + h));
    CubicIsTame(p, Point(x + kx, y + h), Point(x, y + h - ky), Point(x, y + h - ry));
    p := P.CubicTo(p, Point(x + kx, y + h), Point(x, y + h - ky), Point(x, y + h - ry));
    LineIsTame(p, Point(x, y + ry));
    p := P.LineTo(p, Point(x, y + ry));
    CubicIsTame(p, Point(x, y + ky), Point(x + kx, y), Point(x + rx, y));
    RoundSpan(x, y, w, h, rx, ry);
  }

  lemma RoundSpan(x: real, y: real, w: real, h: real, rx: real, ry: real)
    requires 0.0 < rx <= w / 2.0 && 0.0 < ry <= h / 2.0
    ensures Union(Union(Union(Union(Union(Union(Union(Union(PointBox(Point(x + rx, y)),
                PointBox(Point(x + w - rx, y))), PointBox(Point(x + w, y + ry))), PointBox(Point(x + w, y + h - ry))),
                PointBox(Point(x + w - rx, y + h))), PointBox(Point(x + rx, y + h))), PointBox(Point(x, y + h - ry))),
                PointBox(Point(x, y + ry))), PointBox(Point(x + rx, y)))
         == Box(x, y, x + w, y + h)
  {
  }

  // ---------------------------------------------------------------- the builders

  method ParseEllipse(p: Parser, env: P.Env, cx: real, cy: real, rx: real, ry: real)
    requires p.Valid()
    modifies p, p.pts
    ensures p.Valid()
    ensures p.plist == if rx > 0.0 && ry > 0.0 then P.Commit(env, EllipsePoints(cx, cy, rx, ry), true, old(p.plist))
                       else old(p.plist)
  {
    hide P.Commit, P.CubicTo;
    if rx > 0.0 && ry > 0.0 {
      var kx, ky := rx * KAPPA90, ry * KAPPA90;
      p.ResetPath();
      p.MoveTo(Point(cx + rx, cy));
      p.CubicBezTo(Point(cx + rx, cy + ky), Point(cx + kx, cy + ry), Point(cx, cy + ry));
      p.CubicBezTo(Point(cx - kx, cy + ry), Point(cx - rx, cy + ky), Point(cx - rx, cy));
      p.CubicBezTo(Point(cx - rx, cy - ky), Point(cx - kx, cy - ry), Point(cx, cy - ry));
      p.CubicBezTo(Point(cx + kx, cy - ry), Point(cx + rx, cy - ky), Point(cx + rx, cy));
      p.AddPath(env, true);
    }
  }

  method ParseRect(p: Parser, env: P.Env, x: real, y: real, w: real, h: real, rx0: real, ry0: real)
    requires p.Valid()
    modifies p, p.pts
    ensures p.Valid()
    ensures p.plist == if w != 0.0 && h != 0.0 then P.Commit(env, RectPoints(x, y, w, h, rx0, ry0), true, old(p.plist))
                       else old(p.plist)
  {
    hide P.Commit, P.LineTo, P.CubicTo;
    var rx, ry := rx0, ry0;
    if rx < 0.0 && ry > 0.0 { rx := ry; }
    if ry < 0.0 && rx > 0.0 { ry := rx; }
    if rx < 0.0 { rx := 0.0; }
    if ry < 0.0 { ry := 0.0; }
    if rx > w / 2.0 { rx := w / 2.0; }
    if ry > h / 2.0 { ry := h / 2.0; }
    assert (rx, ry) == Radii(w, h, rx0, ry0);
    if w != 0.0 && h != 0.0 {
      p.ResetPath();
      if rx < 0.00001 || ry < 0.0001 {
        p.MoveTo(Point(x, y));
        p.LineTo(Point(x + w, y));
        p.LineTo(Point(x + w, y + h));
        p.LineTo(Point(x, y + h));
      } else {
        DrawRound(p, x, y, w, h, rx, ry);
      }
      p.AddPath(env, true);
    }
  }

  method DrawRound(p: Parser, x: real, y: real, w: real, h: real, rx: real, ry: real)
    requires p.Valid() && p.npts == 0
    modifies p`pts, p`npts, p`cpts, p.pts
    ensures p.Valid() && (p.pts == old(p.pts) || fresh(p.pts)) && p.Points() == RoundRect(x, y, w, h, rx, ry)
  {
    hide P.LineTo, P.CubicTo;
    var kx, ky := rx * (1.0 - KAPPA90), ry * (1.0 - KAPPA90);
    p.MoveTo(Point(x + rx, y));
    SideAndCorner(p, Point(x + w - rx, y), Point(x + w - kx, y), Point(x + w, y + ky), Point(x + w, y + ry));
    SideAndCorner(p, Point(x + w, y + h - ry), Point(x + w, y + h - ky), Point(x + w - kx, y + h),
                  Point(x + w - rx, y + h));
    SideAndCorner(p, Point(x + rx, y + h), Point(x + kx, y + h), Point(x, y + h - ky), Point(x, y + h - ry));
    SideAndCorner(p, Point(x, y + ry), Point(x, y + ky), Point(x + kx, y), Point(x + rx, y));
  }

  method SideAndCorner(p: Parser, q: Point, c1: Point, c2: Point, r: Point)
    requires p.Valid()
    modifies p`pts, p`npts, p`cpts, p.pts
    ensures p.Valid() && (p.pts == old(p.pts) || fresh(p.pts))
    ensures p.Points() == P.CubicTo(P.LineTo(old(p.Points()), q), c1, c2, r)
  {
    hide P.LineTo, P.CubicTo;
    p.LineTo(q);
    p.CubicBezTo(c1, c2, r);
  }
}

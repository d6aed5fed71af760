/** Outlines of lines and tame curves: their boxes, and what a transform makes of them. */
module SvgOutlines {
  import opened SvgGeometry
  import opened SvgBounds
  import opened SvgBoxes
  import P = SvgPath

  // ---------------------------------------------------------------- boxes of tame outlines

  predicate TameAt(pts: seq<Point>, i: nat)
    requires 3 * i + 3 < |pts|
  {
    ControlsInside(Segment(pts[3 * i], pts[3 * i + 1], pts[3 * i + 2], pts[3 * i + 3]))
  }

  /** Every segment has its control points in the box of its ends. */
  predicate Tame(pts: seq<Point>) {
    |pts| % 3 == 1 && forall i | 0 <= i < Segments(pts) :: TameAt(pts, i)
  }

  function PointBox(p: Point): Box { Box(p.x, p.y, p.x, p.y) }

  /** The box of the points between segments. */
  function Span(pts: seq<Point>): Box
    requires |pts| % 3 == 1
  {
    if |pts| == 1 then PointBox(pts[0]) else Union(Span(pts[..|pts| - 3]), PointBox(pts[|pts| - 1]))
  }

  lemma TameAppends(pts: seq<Point>, c1: Point, c2: Point, p: Point)
    requires Tame(pts) && ControlsInside(Segment(pts[|pts| - 1], c1, c2, p))
    ensures Tame(pts + [c1, c2, p]) && Span(pts + [c1, c2, p]) == Union(Span(pts), PointBox(p))
  {
    var all := pts + [c1, c2, p];
    assert all[..|all| - 3] == pts;
    forall i | 0 <= i < Segments(all) ensures TameAt(all, i) {
      assert i < Segments(pts) ==> TameAt(pts, i);
    }
  }

  lemma LineIsTame(pts: seq<Point>, p: Point)
    requires Tame(pts)
    ensures |P.LineTo(pts, p)| == |pts| + 3 && P.LineTo(pts, p)[0] == pts[0] && P.LineTo(pts, p)[|pts| + 2] == p
    ensures Tame(P.LineTo(pts, p)) && Span(P.LineTo(pts, p)) == Union(Span(pts), PointBox(p))
  {
    hide Tame, Span;
    NotEmpty(pts);
    var q := pts[|pts| - 1];
    var c1 := Point(q.x + (p.x - q.x) / 3.0, q.y + (p.y - q.y) / 3.0);
    var c2 := Point(p.x - (p.x - q.x) / 3.0, p.y - (p.y - q.y) / 3.0);
    TameAppends(pts, c1, c2, p);
  }

  lemma NotEmpty(pts: seq<Point>)
    requires Tame(pts)
    ensures |pts| > 0
  {
  }

  lemma CubicIsTame(pts: seq<Point>, c1: Point, c2: Point, p: Point)
    requires Tame(pts) && ControlsInside(Segment(pts[|pts| - 1], c1, c2, p))
    ensures var r := P.CubicTo(pts, c1, c2, p); |r| == |pts| + 3 && r[0] == pts[0] && r[|pts| + 2] == p
    ensures Tame(P.CubicTo(pts, c1, c2, p)) && Span(P.CubicTo(pts, c1, c2, p)) == Union(Span(pts), PointBox(p))
  {
    TameAppends(pts, c1, c2, p);
  }

  /** The stored box of a tame outline is the box of its points between segments. */
  lemma {:induction false} TameBox(pts: seq<Point>, sqrt: real -> real)
    requires Tame(pts) && |pts| >= 4
    ensures WellFormedPath(pts) && PathBox(pts, sqrt) == Span(pts)
    decreases |pts|
  {
    hide Union, PointBox, ControlsInside, CurveBox;
    var n := Segments(pts);
    var init := pts[..|pts| - 3];
    var boxes := SegmentBoxes(pts, sqrt);
    var last := SegmentAt(pts, n - 1);
    assert TameAt(pts, n - 1);
    TameSegment(last, sqrt);
    if n == 1 {
      assert init == [pts[0]];
    } else {
      forall i | 0 <= i < Segments(init) ensures TameAt(init, i) {
        assert TameAt(pts, i);
      }
      TameBox(init, sqrt);
      assert boxes[..n - 1] == SegmentBoxes(init, sqrt);
      LastInSpan(init);
      UnionAssociates(Span(init), PointBox(last.v0), PointBox(last.v3));
    }
  }

  lemma TameSegment(s: Segment, sqrt: real -> real)
    requires ControlsInside(s)
    ensures CurveBox(s, sqrt) == Union(PointBox(s.v0), PointBox(s.v3))
  {
  }

  lemma UnionAssociates(a: Box, b: Box, c: Box)
    ensures Union(Union(a, b), c) == Union(a, Union(b, c))
  {
  }

  lemma LastInSpan(pts: seq<Point>)
    requires |pts| % 3 == 1
    ensures Union(Span(pts), PointBox(pts[|pts| - 1])) == Span(pts)
  {
  }

  lemma StartIsTame(p: Point)
    ensures Tame([p]) && Span([p]) == PointBox(p) && P.MoveTo([], p) == [p]
  {
  }

  // ---------------------------------------------------------------- straight outlines

  /** The outline through the given vertices. */
  function Outline(vs: seq<Point>): seq<Point>
    decreases |vs|
  {
    if vs == [] then []
    else if |vs| == 1 then P.MoveTo([], vs[0])
    else P.LineTo(Outline(vs[..|vs| - 1]), vs[|vs| - 1])
  }

  function PointBoxes(vs: seq<Point>): seq<Box> {
    seq(|vs|, i requires 0 <= i < |vs| => PointBox(vs[i]))
  }

  /** The least box that contains all vertices. */
  function VertexBox(vs: seq<Point>): Box
    requires vs != []
  {
    Hull(PointBoxes(vs))
  }

  lemma {:induction false} OutlineIsTame(vs: seq<Point>)
    requires vs != []
    ensures var pts := Outline(vs);
            |pts| == 3 * |vs| - 2 && pts[0] == vs[0] && Tame(pts) && Span(pts) == VertexBox(vs)
    decreases |vs|
  {
    if |vs| == 1 {
      StartIsTame(vs[0]);
    } else {
      hide Tame, Span, P.LineTo;
      var rest := vs[..|vs| - 1];
      OutlineIsTame(rest);
      LineIsTame(Outline(rest), vs[|vs| - 1]);
      assert PointBoxes(vs)[..|vs| - 1] == PointBoxes(rest);
    }
  }

  /** Closing an outline goes back to the first vertex, which is in the box already. */
  lemma ClosedBox(vs: seq<Point>)
    requires vs != []
    ensures VertexBox(vs + [vs[0]]) == VertexBox(vs) && Outline(vs + [vs[0]]) == P.LineTo(Outline(vs), vs[0])
  {
    var all := vs + [vs[0]];
    assert all[..|all| - 1] == vs;
    assert PointBoxes(all)[..|vs|] == PointBoxes(vs);
    HullIsLeast(PointBoxes(vs), VertexBox(vs));
    assert BoxIn(PointBoxes(vs)[0], VertexBox(vs));
  }

  // ---------------------------------------------------------------- transforms

  lemma ThirdsMap(x: real, y: real, u: real, v: real, a: real, b: real, c: real)
    ensures Row(x + (u - x) / 3.0, y + (v - y) / 3.0, a, b, c)
         == Row(x, y, a, b, c) + (Row(u, v, a, b, c) - Row(x, y, a, b, c)) / 3.0
    ensures Row(u - (u - x) / 3.0, v - (v - y) / 3.0, a, b, c)
         == Row(u, v, a, b, c) - (Row(u, v, a, b, c) - Row(x, y, a, b, c)) / 3.0
  {
  }

  lemma LineMaps(m: Xform, pts: seq<Point>, p: Point)
    requires pts != []
    ensures P.XformPoints(m, P.LineTo(pts, p)) == P.LineTo(P.XformPoints(m, pts), XformPoint(m, p))
  {
    hide Row;
    var q := pts[|pts| - 1];
    ThirdsMap(q.x, q.y, p.x, p.y, m.t0, m.t2, m.t4);
    ThirdsMap(q.x, q.y, p.x, p.y, m.t1, m.t3, m.t5);
  }

  /** A transform takes an outline to the outline of the images, whatever it does. */
  lemma {:induction false} OutlineMaps(m: Xform, vs: seq<Point>)
    ensures P.XformPoints(m, Outline(vs)) == Outline(P.XformPoints(m, vs))
    decreases |vs|
  {
    if |vs| > 1 {
      hide P.LineTo, XformPoint;
      var rest := vs[..|vs| - 1];
      OutlineMaps(m, rest);
      OutlineIsTame(rest);
      LineMaps(m, Outline(rest), vs[|vs| - 1]);
      assert P.XformPoints(m, vs)[..|vs| - 1] == P.XformPoints(m, rest);
    }
  }

  /** Axes go to axes. */
  predicate AxisParallel(m: Xform) {
    (m.t1 == 0.0 && m.t2 == 0.0) || (m.t0 == 0.0 && m.t3 == 0.0)
  }

  /** The box between the images of two opposite corners. */
  function MapBox(m: Xform, b: Box): Box {
    Union(PointBox(XformPoint(m, Point(b.minX, b.minY))), PointBox(XformPoint(m, Point(b.maxX, b.maxY))))
  }

  function Along(k: real, c: real, v: real): real { v * k + c }

  lemma AlongOrder(k: real, c: real, u: real, v: real)
    requires u <= v
    ensures if k >= 0.0 then Along(k, c, u) <= Along(k, c, v) else Along(k, c, v) <= Along(k, c, u)
  {
    SignOfMultiple(k, v - u);
    Difference(k, c, u, v);
  }

  lemma Difference(k: real, c: real, u: real, v: real)
    ensures Along(k, c, v) - Along(k, c, u) == k * (v - u)
  {
  }

  lemma AxesMap(m: Xform, p: Point)
    requires AxisParallel(m)
    ensures XformPoint(m, p) == if m.t1 == 0.0 && m.t2 == 0.0 then Point(Along(m.t0, m.t4, p.x), Along(m.t3, m.t5, p.y))
                                else Point(Along(m.t2, m.t4, p.y), Along(m.t1, m.t5, p.x))
  {
  }

  lemma BetweenMaps(k: real, c: real, a: real, b: real, v: real)
    requires Min(a, b) <= v <= Max(a, b)
    ensures Min(Along(k, c, a), Along(k, c, b)) <= Along(k, c, v) <= Max(Along(k, c, a), Along(k, c, b))
  {
    AlongOrder(k, c, Min(a, b), v);
    AlongOrder(k, c, v, Max(a, b));
  }

  lemma ControlsMap(m: Xform, s: Segment)
    requires AxisParallel(m) && ControlsInside(s)
    ensures ControlsInside(MapSegment(m, s))
  {
    hide Along, XformPoint;
    AxesMap(m, s.v0);
    AxesMap(m, s.v1);
    AxesMap(m, s.v2);
    AxesMap(m, s.v3);
    var (kx, cx) := if m.t1 == 0.0 && m.t2 == 0.0 then (m.t0, m.t4) else (m.t1, m.t5);
    var (ky, cy) := if m.t1 == 0.0 && m.t2 == 0.0 then (m.t3, m.t5) else (m.t2, m.t4);
    BetweenMaps(kx, cx, s.v0.x, s.v3.x, s.v1.x);
    BetweenMaps(kx, cx, s.v0.x, s.v3.x, s.v2.x);
    BetweenMaps(ky, cy, s.v0.y, s.v3.y, s.v1.y);
    BetweenMaps(ky, cy, s.v0.y, s.v3.y, s.v2.y);
  }

  lemma RangeMaps(k: real, c: real, lo: real, hi: real, v: real)
    requires lo <= hi
    ensures Min(Along(k, c, Min(lo, v)), Along(k, c, Max(hi, v)))
         == Min(Min(Along(k, c, lo), Along(k, c, hi)), Along(k, c, v))
    ensures Max(Along(k, c, Min(lo, v)), Along(k, c, Max(hi, v)))
         == Max(Max(Along(k, c, lo), Along(k, c, hi)), Along(k, c, v))
  {
    AlongOrder(k, c, lo, hi);
    AlongOrder(k, c, Min(lo, v), lo);
    AlongOrder(k, c, hi, Max(hi, v));
    AlongOrder(k, c, Min(lo, v), v);
    AlongOrder(k, c, v, Max(hi, v));
  }

  lemma UnionMaps(m: Xform, b: Box, p: Point)
    requires AxisParallel(m) && b.minX <= b.maxX && b.minY <= b.maxY
    ensures MapBox(m, Union(b, PointBox(p))) == Union(MapBox(m, b), PointBox(XformPoint(m, p)))
  {
    hide Along, XformPoint, Min, Max;
    var u := Union(b, PointBox(p));
    AxesMap(m, p);
    AxesMap(m, Point(b.minX, b.minY));
    AxesMap(m, Point(b.maxX, b.maxY));
    AxesMap(m, Point(u.minX, u.minY));
    AxesMap(m, Point(u.maxX, u.maxY));
    var (kx, cx) := if m.t1 == 0.0 && m.t2 == 0.0 then (m.t0, m.t4) else (m.t1, m.t5);
    var (ky, cy) := if m.t1 == 0.0 && m.t2 == 0.0 then (m.t3, m.t5) else (m.t2, m.t4);
    RangeMaps(kx, cx, b.minX, b.maxX, p.x);
    RangeMaps(ky, cy, b.minY, b.maxY, p.y);
  }

  /** An axis-parallel transform of a tame outline is tame, in the image of its box. */
  lemma {:induction false} TameMaps(m: Xform, pts: seq<Point>)
    requires AxisParallel(m) && Tame(pts)
    ensures Tame(P.XformPoints(m, pts)) && Span(P.XformPoints(m, pts)) == MapBox(m, Span(pts))
    ensures Span(pts).minX <= Span(pts).maxX && Span(pts).minY <= Span(pts).maxY
    decreases |pts|
  {
    hide XformPoint, AxisParallel, ControlsInside, MapBox;
    var mapped := P.XformPoints(m, pts);
    forall i | 0 <= i < Segments(mapped) ensures TameAt(mapped, i) {
      assert TameAt(pts, i);
      ControlsMap(m, Segment(pts[3 * i], pts[3 * i + 1], pts[3 * i + 2], pts[3 * i + 3]));
    }
    if |pts| == 1 {
      PointMaps(m, pts[0]);
    } else {
      var init := pts[..|pts| - 3];
      forall i | 0 <= i < Segments(init) ensures TameAt(init, i) {
        assert TameAt(pts, i);
      }
      TameMaps(m, init);
      assert mapped[..|pts| - 3] == P.XformPoints(m, init);
      UnionMaps(m, Span(init), pts[|pts| - 1]);
    }
  }

  lemma PointMaps(m: Xform, p: Point)
    ensures MapBox(m, PointBox(p)) == PointBox(XformPoint(m, p))
  {
  }

  // ---------------------------------------------------------------- what is stored

  /** One path more, in front, with n points. */
  predicate Adds(env: P.Env, pts: seq<Point>, closed: bool, plist: seq<Path>, n: nat) {
    var all := P.Commit(env, pts, closed, plist);
    |all| == |plist| + 1 && all[1..] == plist && all[0].closed == closed && |all[0].pts| == n
  }

  /** The box it is stored with. */
  function StoredBox(env: P.Env, pts: seq<Point>, closed: bool, plist: seq<Path>): Box
    requires P.Commit(env, pts, closed, plist) != []
  {
    P.Commit(env, pts, closed, plist)[0].bounds
  }

  /** A closed tame outline; under an axis-parallel transform its box is the image of the outline's box. */
  lemma TameStored(env: P.Env, pts: seq<Point>, plist: seq<Path>)
    requires Tame(pts) && |pts| >= 4 && Tame(P.LineTo(pts, pts[0]))
    ensures Adds(env, pts, true, plist, |pts| + 3)
    ensures AxisParallel(env.xform) ==>
              StoredBox(env, pts, true, plist) == MapBox(env.xform, Span(P.LineTo(pts, pts[0])))
  {
    hide XformPoint, MapBox, PathBox, Span;
    var all := P.LineTo(pts, pts[0]);
    if AxisParallel(env.xform) {
      TameMaps(env.xform, all);
      TameBox(P.XformPoints(env.xform, all), env.sqrt);
    }
  }

  /** An outline through at least two vertices, under any transform. */
  lemma OutlineStored(env: P.Env, vs: seq<Point>, closed: bool, plist: seq<Path>)
    requires |vs| >= 2
    ensures Adds(env, Outline(vs), closed, plist, 3 * |vs| - 2 + (if closed then 3 else 0))
    ensures StoredBox(env, Outline(vs), closed, plist) == VertexBox(P.XformPoints(env.xform, vs))
  {
    hide XformPoint, PathBox, VertexBox, Outline, P.LineTo, P.XformPoints;
    OutlineIsTame(vs);
    OutlinePath(env.xform, env.sqrt, vs);
    OutlinePath(env.xform, env.sqrt, vs + [vs[0]]);
    ClosedBox(vs);
    ClosedBox(P.XformPoints(env.xform, vs));
    LastMaps(env.xform, vs);
  }

  lemma LastMaps(m: Xform, vs: seq<Point>)
    requires vs != []
    ensures P.XformPoints(m, vs + [vs[0]]) == P.XformPoints(m, vs) + [P.XformPoints(m, vs)[0]]
  {
  }

  lemma OutlinePath(m: Xform, sqrt: real -> real, vs: seq<Point>)
    requires |vs| >= 2
    ensures var mapped := P.XformPoints(m, Outline(vs));
            && |mapped| == |Outline(vs)| == 3 * |vs| - 2 && WellFormedPath(mapped)
            && PathBox(mapped, sqrt) == VertexBox(P.XformPoints(m, vs))
  {
    hide XformPoint, PathBox, VertexBox, Outline, Tame, Span;
    OutlineMaps(m, vs);
    OutlineIsTame(vs);
    OutlineIsTame(P.XformPoints(m, vs));
    TameBox(P.XformPoints(m, Outline(vs)), sqrt);
  }
}

/** Points, affine maps and boxes over the reals. */
module SvgGeometry {

  datatype Point = Point(x: real, y: real)

  /** [t0 t2 t4; t1 t3 t5], acting on column vectors. */
  datatype Xform = Xform(t0: real, t1: real, t2: real, t3: real, t4: real, t5: real)

  const IDENTITY := Xform(1.0, 0.0, 0.0, 1.0, 0.0, 0.0)

  /** Below this the source treats a determinant as zero. */
  const DET_EPSILON := 0.000001

  function Row(x: real, y: real, m: real, n: real, c: real): real { x * m + y * n + c }

  function Dot(x: real, y: real, m: real, n: real): real { x * m + y * n }

  function XformPoint(t: Xform, p: Point): Point {
    Point(Row(p.x, p.y, t.t0, t.t2, t.t4), Row(p.x, p.y, t.t1, t.t3, t.t5))
  }

  /** First t, then s. */
  function Then(t: Xform, s: Xform): Xform {
    Xform(Dot(t.t0, t.t1, s.t0, s.t2), Dot(t.t0, t.t1, s.t1, s.t3),
          Dot(t.t2, t.t3, s.t0, s.t2), Dot(t.t2, t.t3, s.t1, s.t3),
          Row(t.t4, t.t5, s.t0, s.t2, s.t4), Row(t.t4, t.t5, s.t1, s.t3, s.t5))
  }

  function Det(t: Xform): real {
    t.t0 * t.t3 - t.t2 * t.t1
  }

  datatype Box = Box(minX: real, minY: real, maxX: real, maxY: real)

  function Abs(x: real): real { if x < 0.0 then -x else x }

  function Times(x: real, y: real): real { x * y }

  function Min(a: real, b: real): real { if a < b then a else b }

  function Max(a: real, b: real): real { if a > b then a else b }

  predicate InBox(p: Point, b: Box) {
    p.x >= b.minX && p.x <= b.maxX && p.y >= b.minY && p.y <= b.maxY
  }

  function Union(a: Box, b: Box): Box {
    Box(Min(a.minX, b.minX), Min(a.minY, b.minY), Max(a.maxX, b.maxX), Max(a.maxY, b.maxY))
  }

  predicate BoxIn(a: Box, b: Box) {
    b.minX <= a.minX && b.minY <= a.minY && a.maxX <= b.maxX && a.maxY <= b.maxY
  }

  lemma ComposedRow(x: real, y: real, a: real, b: real, c: real, d: real, e: real, f: real, m: real, n: real, o: real)
    ensures Row(Row(x, y, a, b, c), Row(x, y, d, e, f), m, n, o)
         == Row(x, y, Dot(a, d, m, n), Dot(b, e, m, n), Row(c, f, m, n, o))
  {
  }

  lemma ThenComposes(t: Xform, s: Xform, p: Point)
    ensures XformPoint(Then(t, s), p) == XformPoint(s, XformPoint(t, p))
  {
    ComposedRow(p.x, p.y, t.t0, t.t2, t.t4, t.t1, t.t3, t.t5, s.t0, s.t2, s.t4);
    ComposedRow(p.x, p.y, t.t0, t.t2, t.t4, t.t1, t.t3, t.t5, s.t1, s.t3, s.t5);
  }
}

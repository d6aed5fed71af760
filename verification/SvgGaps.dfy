/** When the range computed for one coordinate of a segment holds the curve: exactly, in terms of the coefficients of
    its slope. */
module SvgGaps {
  import opened SvgGeometry
  import opened SvgBounds

  // ---------------------------------------------------------------- the condition

  /** The roots of a slope a t^2 + b t + c with positive discriminant. */
  function Plus(a: real, b: real, c: real, sqrt: real -> real): real
    requires a != 0.0
  {
    (-b + sqrt(Disc(a, b, c))) / (2.0 * a)
  }

  function Minus(a: real, b: real, c: real, sqrt: real -> real): real
    requires a != 0.0
  {
    (-b - sqrt(Disc(a, b, c))) / (2.0 * a)
  }

  predicate WellInside(t: real) { 0.000000000001 < t < 1.0 - 0.000000000001 }

  /** The source samples this root of a quadratic slope. */
  predicate Sampled(a: real, b: real, c: real, root: real) {
    && (a >= 0.000000000001 || a <= -0.000000000001) && Disc(a, b, c) > 0.000000000001 && WellInside(root)
  }

  /** The curve turns at root and comes back to that height by parameter 1 or 0, other being the second root. */
  predicate ComesBack(root: real, other: real) {
    if root < other then 3.0 * other <= 2.0 + root else root <= 3.0 * other
  }

  predicate RootHarmless(a: real, b: real, c: real, root: real, other: real) {
    0.0 < root < 1.0 ==> Sampled(a, b, c, root) || ComesBack(root, other)
  }

  /** No turning point that the source skips leaves the range of the ends and of the points it samples. */
  predicate SlopeHarmless(a: real, b: real, c: real, sqrt: real -> real) {
    if a == 0.0 then
      || b == 0.0 || !(0.0 < -c / b < 1.0)
      || ((b > 0.000000000001 || b < -0.000000000001) && WellInside(-c / b))
    else
      Disc(a, b, c) <= 0.0
      || (var p, m := Plus(a, b, c, sqrt), Minus(a, b, c, sqrt);
          RootHarmless(a, b, c, p, m) && RootHarmless(a, b, c, m, p))
  }

  predicate Harmless(k: Cubic, sqrt: real -> real) {
    SlopeHarmless(A(k), B(k), C(k), sqrt)
  }

  /** Outside the gaps of the tests nothing is skipped. */
  lemma NoGapIsHarmless(k: Cubic, sqrt: real -> real)
    requires NoGap(k, sqrt)
    ensures Harmless(k, sqrt)
  {
  }

  // ---------------------------------------------------------------- the range as a set of samples

  /** v lies between two sampled values, or between the ends. */
  ghost predicate Covered(v: real, lo: real, hi: real, e: real -> real, ts: seq<real>) {
    (lo <= v || exists t | t in ts :: e(t) <= v) && (v <= hi || exists t | t in ts :: v <= e(t))
  }

  lemma {:induction false} WidenIff(r: Range, e: real -> real, ts: seq<real>, v: real)
    ensures Within(v, Widen(r, e, ts)) <==> Covered(v, r.lo, r.hi, e, ts)
    decreases |ts|
  {
    if ts != [] {
      var w := e(ts[0]);
      var s := Range(Min(r.lo, w), Max(r.hi, w));
      WidenIff(s, e, ts[1..], v);
      assert forall t :: t in ts <==> t == ts[0] || t in ts[1..];
      CoveredStep(v, r.lo, r.hi, e, ts);
    }
  }

  lemma CoveredStep(v: real, lo: real, hi: real, e: real -> real, ts: seq<real>)
    requires ts != []
    ensures Covered(v, lo, hi, e, ts) <==> Covered(v, Min(lo, e(ts[0])), Max(hi, e(ts[0])), e, ts[1..])
  {
    var rest := ts[1..];
    assert forall t | t in rest :: t in ts;
    assert forall t | t in ts :: t == ts[0] || t in rest;
    assert ts[0] in ts;
  }

  lemma RangeIff(k: Cubic, sqrt: real -> real, v: real)
    ensures Within(v, AxisRange(k, sqrt)) <==>
            Covered(v, Min(k.p0, k.p3), Max(k.p0, k.p3), Curve(k), Roots(k, sqrt))
  {
    WidenIff(Ends(k), Curve(k), Roots(k, sqrt), v);
  }

  lemma RootsInside(k: Cubic, sqrt: real -> real)
    ensures forall t | t in Roots(k, sqrt) :: 0.0 < t < 1.0
  {
  }

  // ---------------------------------------------------------------- heights seen from a turning point

  function Square(v: real): real { Times(v, v) }

  /** Its sign tells on which side of the height at x the curve is at u. */
  function Gauge(x: real, y: real, u: real): real { 2.0 * (u - x) - 3.0 * (y - x) }

  /** With slope a (t - x)(t - y), the curve seen from its height at x. */
  lemma FromRoot(p0: real, a: real, x: real, y: real, u: real)
    ensures Poly(p0, a, -a * (x + y), a * (x * y), u) - Poly(p0, a, -a * (x + y), a * (x * y), x)
         == a / 6.0 * (Square(u - x) * Gauge(x, y, u))
  {
    hide Poly, Height;
    var s := u - x;
    assert u == x + s;
    Expand(x, y, s);
    Heights(p0, a, x, y, u);
    Heights(p0, a, x, y, x);
  }

  /** Six times the height over p0, divided by a. */
  function Height(x: real, y: real, u: real): real {
    6.0 * (x * y) * u - 3.0 * (x + y) * (u * u) + 2.0 * (u * u * u)
  }

  lemma Heights(p0: real, a: real, x: real, y: real, u: real)
    ensures Poly(p0, a, -a * (x + y), a * (x * y), u) == p0 + a / 6.0 * Height(x, y, u)
  {
    var z, w := x + y, x * y;
    assert a * w * u == a / 6.0 * (6.0 * w * u);
    assert -a * z / 2.0 * u * u == a / 6.0 * (-3.0 * z * (u * u)) by {
      assert -a * z / 2.0 == a / 6.0 * (-3.0 * z);
      Regroup3(a / 6.0 * (-3.0 * z), u, u);
      Regroup3(a / 6.0, -3.0 * z, u * u);
    }
    assert a / 3.0 * u * u * u == a / 6.0 * (2.0 * (u * u * u)) by {
      Regroup3(a / 3.0, u, u);
      Regroup3(a / 3.0, u * u, u);
    }
  }

  lemma Regroup3(p: real, q: real, r: real)
    ensures p * q * r == p * (q * r)
  {
  }

  lemma Expand(x: real, y: real, s: real)
    ensures Height(x, y, x + s) - Height(x, y, x) == s * s * (2.0 * s - 3.0 * (y - x))
  {
    var u := x + s;
    assert u * u == x * x + 2.0 * (x * s) + s * s;
    assert u * u * u == x * x * x + 3.0 * (x * x * s) + 3.0 * (x * s * s) + s * s * s by {
      assert (x * x + 2.0 * (x * s) + s * s) * (x + s)
          == x * x * x + x * x * s + 2.0 * (x * x * s) + 2.0 * (x * s * s) + x * s * s + s * s * s;
    }
    assert (x * y) * u - (x * y) * x == x * y * s;
    assert (x + y) * (u * u) - (x + y) * (x * x) == 2.0 * (x * x * s) + x * s * s + 2.0 * (x * y * s) + y * s * s;
    assert s * s * (2.0 * s - 3.0 * (y - x)) == 2.0 * (s * s * s) - 3.0 * (y * s * s) + 3.0 * (x * s * s);
  }

  ghost predicate SeenFrom(e: real -> real, x: real, y: real, a: real) {
    forall u :: e(u) - e(x) == a / 6.0 * (Square(u - x) * Gauge(x, y, u))
  }

  lemma SignOfProduct(a: real, q: real, g: real)
    requires q > 0.0 && a != 0.0
    ensures var d := a / 6.0 * (q * g);
            if a > 0.0 then (d >= 0.0 <==> g >= 0.0) && (d <= 0.0 <==> g <= 0.0)
            else (d >= 0.0 <==> g <= 0.0) && (d <= 0.0 <==> g >= 0.0)
  {
    var h := q * g;
    assert g > 0.0 ==> h > 0.0;
    assert g < 0.0 ==> h < 0.0;
    assert g == 0.0 ==> h == 0.0;
  }

  lemma SquarePositive(v: real)
    requires v != 0.0
    ensures Square(v) > 0.0
  {
    hide Times;
    SameSign(v, v);
  }

  lemma SameSign(x: real, y: real)
    requires (x > 0.0 && y > 0.0) || (x < 0.0 && y < 0.0)
    ensures Times(x, y) > 0.0
  {
  }

  /** On which side of its height at x the curve is at u. */
  lemma SideOf(e: real -> real, x: real, y: real, a: real, u: real)
    requires SeenFrom(e, x, y, a) && a != 0.0
    ensures e(u) >= e(x) <==> u == x || (if a > 0.0 then Gauge(x, y, u) >= 0.0 else Gauge(x, y, u) <= 0.0)
    ensures e(u) <= e(x) <==> u == x || (if a > 0.0 then Gauge(x, y, u) <= 0.0 else Gauge(x, y, u) >= 0.0)
  {
    if u != x {
      hide Square, Gauge;
      SquarePositive(u - x);
      SignOfProduct(a, Square(u - x), Gauge(x, y, u));
    }
  }

  /** A simple turning point is covered by the ends and the samples if and only if it is a sample, or the curve comes
      back to its height by an end: no other sample helps. */
  lemma TurnCoveredIff(e: real -> real, x: real, y: real, a: real, ts: seq<real>)
    requires SeenFrom(e, x, y, a) && a != 0.0 && x != y && 0.0 < x < 1.0
    requires forall t | t in ts :: 0.0 < t < 1.0
    ensures Covered(e(x), Min(e(0.0), e(1.0)), Max(e(0.0), e(1.0)), e, ts) <==> x in ts || ComesBack(x, y)
  {
    hide SeenFrom;
    forall u ensures (e(u) >= e(x) <==> u == x || (if a > 0.0 then Gauge(x, y, u) >= 0.0 else Gauge(x, y, u) <= 0.0))
                  && (e(u) <= e(x) <==> u == x || (if a > 0.0 then Gauge(x, y, u) <= 0.0 else Gauge(x, y, u) >= 0.0)) {
      SideOf(e, x, y, a, u);
    }
  }

  // ---------------------------------------------------------------- cubic slopes

  /** Both roots of a slope with positive discriminant, as factors. */
  lemma Factors(a: real, b: real, c: real, sqrt: real -> real)
    requires IsSqrt(sqrt) && a != 0.0 && Disc(a, b, c) > 0.0
    ensures var p, m := Plus(a, b, c, sqrt), Minus(a, b, c, sqrt);
            p != m && b == -a * (p + m) && c == a * (p * m)
  {
    var s := sqrt(Disc(a, b, c));
    var p, m := Plus(a, b, c, sqrt), Minus(a, b, c, sqrt);
    assert s != 0.0;
    Halved(a, -b + s, p);
    Halved(a, -b - s, m);
    assert (2.0 * a * p) * (2.0 * a * m) == b * b - s * s == 4.0 * c * a;
    assert (2.0 * a * p) * (2.0 * a * m) == 4.0 * a * (a * (p * m)) by { FourFold(a, p, m); }
    Cancel(4.0 * a, c, a * (p * m));
  }

  lemma Halved(a: real, n: real, r: real)
    requires a != 0.0 && r == n / (2.0 * a)
    ensures 2.0 * a * r == n
  {
  }

  lemma FourFold(a: real, p: real, m: real)
    ensures (2.0 * a * p) * (2.0 * a * m) == 4.0 * a * (a * (p * m))
  {
    assert (a * p) * (a * m) == a * (a * (p * m));
    assert 2.0 * a * p == 2.0 * (a * p) && 2.0 * a * m == 2.0 * (a * m);
    assert (2.0 * (a * p)) * (2.0 * (a * m)) == 4.0 * ((a * p) * (a * m));
    assert 4.0 * a * (a * (p * m)) == 4.0 * (a * (a * (p * m)));
  }

  lemma CurveSeenFrom(k: Cubic, x: real, y: real)
    requires B(k) == -A(k) * (x + y) && C(k) == A(k) * (x * y)
    ensures SeenFrom(Curve(k), x, y, A(k))
  {
    forall u ensures Curve(k)(u) - Curve(k)(x) == A(k) / 6.0 * (Square(u - x) * Gauge(x, y, u)) {
      CurveFromRoot(k, x, y, u);
    }
  }

  lemma CurveFromRoot(k: Cubic, x: real, y: real, u: real)
    requires B(k) == -A(k) * (x + y) && C(k) == A(k) * (x * y)
    ensures EvalBezier(u, k) - EvalBezier(x, k) == A(k) / 6.0 * (Square(u - x) * Gauge(x, y, u))
  {
    PowerBasis(k, u);
    PowerBasis(k, x);
    FromRoot(k.p0, A(k), x, y, u);
    hide *;
  }

  /** Which roots are samples. */
  lemma RootSampledIff(a: real, b: real, c: real, sqrt: real -> real, root: real)
    requires IsSqrt(sqrt) && a != 0.0 && Disc(a, b, c) > 0.0
    requires (root == Plus(a, b, c, sqrt) || root == Minus(a, b, c, sqrt)) && 0.0 < root < 1.0
    ensures root in SlopeRoots(a, b, c, sqrt) <==> Sampled(a, b, c, root)
  {
    if Abs(a) < EPSILON && root in SlopeRoots(a, b, c, sqrt) {
      NoRootOfLine(a, b, c, sqrt, root);
    }
    assert forall t :: t in Keep(root) <==> t == root && Inside(t);
  }

  /** When the quadratic coefficient counts as zero, what is sampled is not a turning point. */
  lemma NoRootOfLine(a: real, b: real, c: real, sqrt: real -> real, root: real)
    requires IsSqrt(sqrt) && a != 0.0 && Disc(a, b, c) > 0.0 && b != 0.0
    requires (root == Plus(a, b, c, sqrt) || root == Minus(a, b, c, sqrt)) && 0.0 < root < 1.0
    ensures root != -c / b
  {
    var s := sqrt(Disc(a, b, c));
    Factored(a, b, c, s, root);
    assert a * root * root + b * root + c == 0.0;
    assert a * root != 0.0;
    assert b * root != -c;
  }

  lemma RootCoveredIff(k: Cubic, sqrt: real -> real, root: real, other: real)
    requires IsSqrt(sqrt) && A(k) != 0.0 && Disc(A(k), B(k), C(k)) > 0.0
    requires (root, other) == (Plus(A(k), B(k), C(k), sqrt), Minus(A(k), B(k), C(k), sqrt))
          || (other, root) == (Plus(A(k), B(k), C(k), sqrt), Minus(A(k), B(k), C(k), sqrt))
    ensures 0.0 < root < 1.0 ==>
              (Within(EvalBezier(root, k), AxisRange(k, sqrt)) <==> RootHarmless(A(k), B(k), C(k), root, other))
  {
    hide Plus, Minus, SlopeRoots, Sampled, ComesBack, Covered, Disc, EvalBezier, SeenFrom;
    Factors(A(k), B(k), C(k), sqrt);
    if 0.0 < root < 1.0 {
      CurveSeenFrom(k, root, other);
      RootsInside(k, sqrt);
      CurveEnds(k);
      TurnCoveredIff(Curve(k), root, other, A(k), Roots(k, sqrt));
      RangeIff(k, sqrt, Curve(k)(root));
      RootSampledIff(A(k), B(k), C(k), sqrt, root);
    }
  }

  lemma CurveEnds(k: Cubic)
    ensures Curve(k)(0.0) == k.p0 && Curve(k)(1.0) == k.p3
  {
  }

  // ---------------------------------------------------------------- exactly

  lemma CubicRangeIff(k: Cubic, sqrt: real -> real)
    requires IsSqrt(sqrt) && A(k) != 0.0 && Disc(A(k), B(k), C(k)) > 0.0
    ensures CurveWithin(k, AxisRange(k, sqrt)) <==> Harmless(k, sqrt)
  {
    hide AxisRange, RootHarmless, CurveWithin, EvalBezier, Disc;
    var r := AxisRange(k, sqrt);
    var p, m := Plus(A(k), B(k), C(k), sqrt), Minus(A(k), B(k), C(k), sqrt);
    ExtremaAtTurns(k, r, sqrt);
    EndsWithin(k, sqrt);
    RootCoveredIff(k, sqrt, p, m);
    RootCoveredIff(k, sqrt, m, p);
    CriticalAreRoots(k, sqrt);
    OutsideIsHarmless(k, p, m);
    OutsideIsHarmless(k, m, p);
  }

  lemma OutsideIsHarmless(k: Cubic, root: real, other: real)
    ensures !(0.0 < root < 1.0) ==> RootHarmless(A(k), B(k), C(k), root, other)
  {
  }

  lemma EndsWithin(k: Cubic, sqrt: real -> real)
    ensures Within(k.p0, AxisRange(k, sqrt)) && Within(k.p3, AxisRange(k, sqrt))
  {
    WidenContains(Ends(k), Curve(k), Roots(k, sqrt));
  }

  lemma CriticalAreRoots(k: Cubic, sqrt: real -> real)
    requires IsSqrt(sqrt) && A(k) != 0.0 && Disc(A(k), B(k), C(k)) > 0.0
    ensures forall t :: Critical(k, t) <==>
              0.0 < t < 1.0 && (t == Plus(A(k), B(k), C(k), sqrt) || t == Minus(A(k), B(k), C(k), sqrt))
  {
    var a, b, c := A(k), B(k), C(k);
    var s := sqrt(Disc(a, b, c));
    hide A, B, C, Disc;
    forall t ensures SlopeAt(a, b, c, t) == 0.0 <==> t == Plus(a, b, c, sqrt) || t == Minus(a, b, c, sqrt) {
      SlopeZeroIff(a, b, c, sqrt, t);
    }
  }

  lemma SlopeZeroIff(a: real, b: real, c: real, sqrt: real -> real, t: real)
    requires IsSqrt(sqrt) && a != 0.0 && Disc(a, b, c) > 0.0
    ensures SlopeAt(a, b, c, t) == 0.0 <==> t == Plus(a, b, c, sqrt) || t == Minus(a, b, c, sqrt)
  {
    var s := sqrt(Disc(a, b, c));
    Factored(a, b, c, s, t);
    var x, y := t - (-b - s) / (2.0 * a), t - (-b + s) / (2.0 * a);
    if x != 0.0 && y != 0.0 {
      assert x * y != 0.0;
      assert a * (x * y) != 0.0;
    }
  }

  /** Without a second-degree term there is at most one turning point, and nothing comes back to its height. */
  lemma QuadraticRangeIff(k: Cubic, sqrt: real -> real)
    requires IsSqrt(sqrt) && A(k) == 0.0 && B(k) != 0.0
    ensures CurveWithin(k, AxisRange(k, sqrt)) <==> Harmless(k, sqrt)
  {
    hide AxisRange, CurveWithin, EvalBezier;
    var v := -C(k) / B(k);
    ExtremaAtTurns(k, AxisRange(k, sqrt), sqrt);
    EndsWithin(k, sqrt);
    VertexOnly(k);
    if 0.0 < v < 1.0 {
      VertexCoveredIff(k, sqrt);
    }
  }

  lemma VertexOnly(k: Cubic)
    requires A(k) == 0.0 && B(k) != 0.0
    ensures forall t :: Critical(k, t) <==> 0.0 < t < 1.0 && t == -C(k) / B(k)
  {
    var b, c := B(k), C(k);
    hide B, C;
    forall t ensures SlopeAt(0.0, b, c, t) == 0.0 <==> t == -c / b {
      if b * t + c == 0.0 { RootOfLine(b, c, t); }
    }
  }

  lemma VertexCoveredIff(k: Cubic, sqrt: real -> real)
    requires A(k) == 0.0 && B(k) != 0.0 && 0.0 < -C(k) / B(k) < 1.0
    ensures var v := -C(k) / B(k);
            Within(EvalBezier(v, k), AxisRange(k, sqrt)) <==> Abs(B(k)) > EPSILON && Inside(v)
  {
    var v, b := -C(k) / B(k), B(k);
    hide EvalBezier, Covered;
    assert forall t :: t in Roots(k, sqrt) <==> t == v && Abs(b) > EPSILON && Inside(v);
    CurveEnds(k);
    RangeIff(k, sqrt, Curve(k)(v));
    VertexFurthest(k, v, Roots(k, sqrt));
  }

  /** Every other point of the curve is on one side of the vertex. */
  lemma VertexFurthest(k: Cubic, v: real, ts: seq<real>)
    requires A(k) == 0.0 && B(k) != 0.0 && v == -C(k) / B(k) && 0.0 < v < 1.0
    requires forall t | t in ts :: t == v
    ensures var e := Curve(k);
            Covered(e(v), Min(e(0.0), e(1.0)), Max(e(0.0), e(1.0)), e, ts) <==> v in ts
  {
    var e, b := Curve(k), B(k);
    VertexSide(k, v, 0.0);
    VertexSide(k, v, 1.0);
    hide EvalBezier, B, C, A;
  }

  lemma VertexSide(k: Cubic, v: real, u: real)
    requires A(k) == 0.0 && B(k) != 0.0 && v == -C(k) / B(k) && u != v
    ensures if B(k) > 0.0 then Curve(k)(u) > Curve(k)(v) else Curve(k)(u) < Curve(k)(v)
  {
    var b, c := B(k), C(k);
    PowerBasis(k, u);
    PowerBasis(k, v);
    hide EvalBezier, A, B, C;
    ParabolaSide(k.p0, b, c, v, u);
  }

  lemma ParabolaSide(p0: real, b: real, c: real, v: real, u: real)
    requires b != 0.0 && v == -c / b && u != v
    ensures if b > 0.0 then Poly(p0, 0.0, b, c, u) > Poly(p0, 0.0, b, c, v)
            else Poly(p0, 0.0, b, c, u) < Poly(p0, 0.0, b, c, v)
  {
    hide Poly, Square;
    ParabolaHeight(p0, b, c, v, u);
    SquarePositive(u - v);
    SideOfZero(b, Square(u - v));
  }

  lemma ParabolaHeight(p0: real, b: real, c: real, v: real, u: real)
    requires b != 0.0 && v == -c / b
    ensures Poly(p0, 0.0, b, c, u) - Poly(p0, 0.0, b, c, v) == b / 2.0 * Square(u - v)
  {
    hide Square;
    assert c == -(b * v);
    assert Poly(p0, 0.0, b, c, u) == p0 - (b * v) * u + b / 2.0 * u * u;
    assert Poly(p0, 0.0, b, c, v) == p0 - (b * v) * v + b / 2.0 * v * v;
    Parabola(b, v, u);
  }

  lemma Parabola(b: real, v: real, u: real)
    ensures (-(b * v) * u + b / 2.0 * u * u) - (-(b * v) * v + b / 2.0 * v * v) == b / 2.0 * Square(u - v)
  {
  }

  lemma SideOfZero(b: real, q: real)
    requires q > 0.0
    ensures b > 0.0 ==> b / 2.0 * q > 0.0
    ensures b < 0.0 ==> b / 2.0 * q < 0.0
  {
  }

  /** The range the source computes holds the curve if and only if no turning point it skips leaves the ends, which can
      be read off the coefficients of the slope. */
  lemma RangeHoldsIff(k: Cubic, sqrt: real -> real)
    requires IsSqrt(sqrt)
    ensures CurveWithin(k, AxisRange(k, sqrt)) <==> Harmless(k, sqrt)
  {
    if A(k) == 0.0 && B(k) != 0.0 {
      QuadraticRangeIff(k, sqrt);
    } else if A(k) != 0.0 && Disc(A(k), B(k), C(k)) > 0.0 {
      CubicRangeIff(k, sqrt);
    } else {
      MonotoneWithin(k, sqrt);
    }
  }

  lemma MonotoneWithin(k: Cubic, sqrt: real -> real)
    requires if A(k) == 0.0 then B(k) == 0.0 else Disc(A(k), B(k), C(k)) <= 0.0
    ensures CurveWithin(k, AxisRange(k, sqrt))
  {
    hide EvalBezier;
    CurveFollows(k);
    RangeHoldsSamples(k, sqrt);
    forall t | 0.0 <= t <= 1.0 ensures Within(EvalBezier(t, k), AxisRange(k, sqrt)) {
      StaysBetween(Curve(k), Derivative(k), A(k), B(k), C(k), AxisRange(k, sqrt), t);
    }
  }

  lemma StaysBetween(e: real -> real, d: real -> real, a: real, b: real, c: real, r: Range, t: real)
    requires Follows(e, d) && Within(e(0.0), r) && Within(e(1.0), r) && 0.0 <= t <= 1.0
    requires forall u :: d(u) == SlopeAt(a, b, c, u)
    requires if a == 0.0 then b == 0.0 else Disc(a, b, c) <= 0.0
    ensures Within(e(t), r)
  {
    if a == 0.0 {
      forall u ensures d(u) == c { assert d(u) == SlopeAt(a, b, c, u) && a * u * u == 0.0 && b * u == 0.0; }
      assert Rising(d, 0.0, 1.0) || Falling(d, 0.0, 1.0);
      BetweenEnds(e, d, 0.0, t, 1.0, r);
    } else {
      Turnless(e, d, a, b, c, r, t);
    }
  }
}

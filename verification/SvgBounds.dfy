/** The bounding box of a cubic segment, and when it is right. */
module SvgBounds {
  import opened SvgGeometry

  const EPSILON := 0.000000000001

  ghost predicate IsSqrt(sqrt: real -> real) {
    forall x | x >= 0.0 :: sqrt(x) >= 0.0 && sqrt(x) * sqrt(x) == x
  }

  /** One coordinate of a cubic segment. */
  datatype Cubic = Cubic(p0: real, p1: real, p2: real, p3: real)

  function Blend(it: real, t: real, k: Cubic): real {
    it * it * it * k.p0 + 3.0 * it * it * t * k.p1 + 3.0 * it * t * t * k.p2 + t * t * t * k.p3
  }

  function EvalBezier(t: real, k: Cubic): real {
    Blend(1.0 - t, t, k)
  }

  function A(k: Cubic): real { -3.0 * k.p0 + 9.0 * k.p1 - 9.0 * k.p2 + 3.0 * k.p3 }

  function B(k: Cubic): real { 6.0 * k.p0 - 12.0 * k.p1 + 6.0 * k.p2 }

  function C(k: Cubic): real { 3.0 * k.p1 - 3.0 * k.p0 }

  predicate Inside(t: real) { EPSILON < t < 1.0 - EPSILON }

  function Keep(t: real): seq<real> { if Inside(t) then [t] else [] }

  function Disc(a: real, b: real, c: real): real { b * b - 4.0 * c * a }

  /** The parameters at which the source samples a curve whose slope is a t^2 + b t + c. */
  function SlopeRoots(a: real, b: real, c: real, sqrt: real -> real): seq<real> {
    if Abs(a) < EPSILON then
      (if Abs(b) > EPSILON then Keep(-c / b) else [])
    else if Disc(a, b, c) > EPSILON then
      Keep((-b + sqrt(Disc(a, b, c))) / (2.0 * a)) + Keep((-b - sqrt(Disc(a, b, c))) / (2.0 * a))
    else []
  }

  function Roots(k: Cubic, sqrt: real -> real): seq<real> {
    SlopeRoots(A(k), B(k), C(k), sqrt)
  }

  datatype Range = Range(lo: real, hi: real)

  function Ends(k: Cubic): Range { Range(Min(k.p0, k.p3), Max(k.p0, k.p3)) }

  function Widen(r: Range, e: real -> real, ts: seq<real>): Range
    decreases |ts|
  {
    if ts == [] then r
    else
      var v := e(ts[0]);
      Widen(Range(Min(r.lo, v), Max(r.hi, v)), e, ts[1..])
  }

  predicate Within(v: real, r: Range) { r.lo <= v <= r.hi }

  // ---------------------------------------------------------------- the shape of a cubic

  /** The derivative. */
  function Slope(k: Cubic, t: real): real { SlopeAt(A(k), B(k), C(k), t) }

  function SlopeAt(a: real, b: real, c: real, t: real): real { a * t * t + b * t + c }

  /** The cubic in powers of t. */
  function Poly(p0: real, a: real, b: real, c: real, t: real): real {
    p0 + c * t + b / 2.0 * t * t + a / 3.0 * t * t * t
  }

  lemma PowerBasis(k: Cubic, t: real)
    ensures EvalBezier(t, k) == Poly(k.p0, A(k), B(k), C(k), t)
  {
    var t2 := t * t;
    var t3 := t2 * t;
    var it := 1.0 - t;
    assert it * it == 1.0 - 2.0 * t + t2;
    assert it * it * it == 1.0 - 3.0 * t + 3.0 * t2 - t3;
    assert it * it * t == t - 2.0 * t2 + t3;
    assert it * t * t == t2 - t3;
    assert EvalBezier(t, k) == (1.0 - 3.0 * t + 3.0 * t2 - t3) * k.p0 + 3.0 * (t - 2.0 * t2 + t3) * k.p1
                             + 3.0 * (t2 - t3) * k.p2 + t3 * k.p3;
    assert C(k) * t == 3.0 * (t * k.p1) - 3.0 * (t * k.p0);
    assert B(k) / 2.0 * t * t == 3.0 * (t2 * k.p0) - 6.0 * (t2 * k.p1) + 3.0 * (t2 * k.p2);
    assert A(k) / 3.0 * t * t * t == -(t3 * k.p0) + 3.0 * (t3 * k.p1) - 3.0 * (t3 * k.p2) + t3 * k.p3;
  }

  lemma PowerDifference(x: real, y: real)
    ensures (y - x) * (x * x + x * y + y * y) == y * y * y - x * x * x
    ensures (y - x) * (x + y) == y * y - x * x
  {
  }

  lemma Pull(u: real, v: real, w: real)
    ensures u * (v * w) == v * (u * w)
  {
  }

  lemma SlopeSum(a: real, b: real, c: real, x: real, y: real)
    ensures SlopeAt(a, b, c, x) + 4.0 * SlopeAt(a, b, c, (x + y) / 2.0) + SlopeAt(a, b, c, y)
         == 2.0 * a * (x * x + x * y + y * y) + 3.0 * b * (x + y) + 6.0 * c
  {
    var m := (x + y) / 2.0;
    assert 4.0 * (m * m) == x * x + 2.0 * (x * y) + y * y;
    assert 4.0 * (a * (m * m)) == a * (x * x + 2.0 * (x * y) + y * y);
    assert a * m * m == a * (m * m) && a * x * x == a * (x * x) && a * y * y == a * (y * y);
    assert a * (x * x) + a * (x * x + 2.0 * (x * y) + y * y) + a * (y * y) == 2.0 * a * (x * x + x * y + y * y);
  }

  lemma Integrated(a: real, b: real, c: real, x: real, y: real)
    ensures (y - x) * (2.0 * a * (x * x + x * y + y * y) + 3.0 * b * (x + y) + 6.0 * c)
         == 2.0 * a * (y * y * y - x * x * x) + 3.0 * b * (y * y - x * x) + 6.0 * c * (y - x)
  {
    PowerDifference(x, y);
    var h, cube, square := y - x, x * x + x * y + y * y, x + y;
    Pull(h, 2.0 * a, cube);
    Pull(h, 3.0 * b, square);
    assert h * (2.0 * a * cube + 3.0 * b * square + 6.0 * c)
        == h * (2.0 * a * cube) + h * (3.0 * b * square) + h * (6.0 * c);
  }

  lemma PolyDifference(p0: real, a: real, b: real, c: real, x: real, y: real)
    ensures 6.0 * (Poly(p0, a, b, c, y) - Poly(p0, a, b, c, x))
         == 2.0 * a * (y * y * y - x * x * x) + 3.0 * b * (y * y - x * x) + 6.0 * c * (y - x)
  {
  }

  /** Simpson's rule is exact for a quadratic slope. */
  lemma Simpson(p0: real, a: real, b: real, c: real, x: real, y: real)
    ensures 6.0 * (Poly(p0, a, b, c, y) - Poly(p0, a, b, c, x))
         == (y - x) * (SlopeAt(a, b, c, x) + 4.0 * SlopeAt(a, b, c, (x + y) / 2.0) + SlopeAt(a, b, c, y))
  {
    SlopeSum(a, b, c, x, y);
    Integrated(a, b, c, x, y);
    PolyDifference(p0, a, b, c, x, y);
  }

  lemma SignOfMultiple(m: real, v: real)
    ensures (m >= 0.0 && v >= 0.0) || (m <= 0.0 && v <= 0.0) ==> m * v >= 0.0
    ensures (m >= 0.0 && v <= 0.0) || (m <= 0.0 && v >= 0.0) ==> m * v <= 0.0
  {
  }

  // The argument about signs knows only a curve e and its slope d: e rises where d is positive.

  ghost predicate Rising(d: real -> real, x: real, y: real) {
    forall u | x <= u <= y :: d(u) >= 0.0
  }

  ghost predicate Falling(d: real -> real, x: real, y: real) {
    forall u | x <= u <= y :: d(u) <= 0.0
  }

  ghost predicate Follows(e: real -> real, d: real -> real) {
    forall x, y | x <= y :: (Rising(d, x, y) ==> e(x) <= e(y)) && (Falling(d, x, y) ==> e(x) >= e(y))
  }

  lemma BetweenEnds(e: real -> real, d: real -> real, x: real, t: real, y: real, r: Range)
    requires Follows(e, d) && x <= t <= y && (Rising(d, x, y) || Falling(d, x, y))
    requires Within(e(x), r) && Within(e(y), r)
    ensures Within(e(t), r)
  {
    if Rising(d, x, y) {
      assert Rising(d, x, t) && Rising(d, t, y);
    } else {
      assert Falling(d, x, t) && Falling(d, t, y);
    }
  }

  /** A finite check: the two ends and the interior points where the slope is zero lie in the range. */
  ghost predicate Turns(e: real -> real, d: real -> real, r: Range) {
    && Within(e(0.0), r) && Within(e(1.0), r)
    && forall t | 0.0 < t < 1.0 && d(t) == 0.0 :: Within(e(t), r)
  }

  /** The slope is m times something of one sign. */
  lemma MultipleSign(d: real -> real, m: real, f: real -> real, x: real, y: real)
    requires forall u :: d(u) == m * f(u)
    requires (forall u | x <= u <= y :: f(u) >= 0.0) || (forall u | x <= u <= y :: f(u) <= 0.0)
    ensures Rising(d, x, y) || Falling(d, x, y)
  {
    var up := forall u | x <= u <= y :: f(u) >= 0.0;
    if (m >= 0.0) == up {
      forall u | x <= u <= y ensures d(u) >= 0.0 { SignOfMultiple(m, f(u)); }
    } else {
      forall u | x <= u <= y ensures d(u) <= 0.0 { SignOfMultiple(m, f(u)); }
    }
  }

  /** f is negative up to its root and positive after it. */
  ghost predicate OneRoot(f: real -> real, root: real) {
    && (forall u | u <= root :: f(u) <= 0.0)
    && (forall u | root <= u :: f(u) >= 0.0)
  }

  /** f is negative between its roots and positive outside them. */
  ghost predicate TwoRoots(f: real -> real, r1: real, r2: real) {
    && r1 <= r2
    && (forall u | u <= r1 || r2 <= u :: f(u) >= 0.0)
    && (forall u | r1 <= u <= r2 :: f(u) <= 0.0)
  }

  lemma OneTurn(e: real -> real, d: real -> real, m: real, f: real -> real, root: real, r: Range, t: real)
    requires Follows(e, d) && Turns(e, d, r) && 0.0 <= t <= 1.0
    requires OneRoot(f, root) && forall u :: d(u) == m * f(u)
    ensures Within(e(t), r)
  {
    assert f(root) == 0.0;
    assert d(root) == 0.0;
    var x := if t <= root then 0.0 else Max(root, 0.0);
    var y := if t <= root then Min(root, 1.0) else 1.0;
    MultipleSign(d, m, f, x, y);
    BetweenEnds(e, d, x, t, y, r);
  }

  lemma TwoTurns(e: real -> real, d: real -> real, m: real, f: real -> real, r1: real, r2: real, r: Range, t: real)
    requires Follows(e, d) && Turns(e, d, r) && 0.0 <= t <= 1.0
    requires TwoRoots(f, r1, r2) && forall u :: d(u) == m * f(u)
    ensures Within(e(t), r)
  {
    assert f(r1) == 0.0 && f(r2) == 0.0;
    assert d(r1) == 0.0 && d(r2) == 0.0;
    var x := if t <= r1 then 0.0 else if t <= r2 then Max(r1, 0.0) else Max(r2, 0.0);
    var y := if t <= r1 then Min(r1, 1.0) else if t <= r2 then Min(r2, 1.0) else 1.0;
    MultipleSign(d, m, f, x, y);
    BetweenEnds(e, d, x, t, y, r);
  }

  // ---------------------------------------------------------------- the four shapes of a cubic

  /** Completing the square. */
  lemma CompletedSquare(a: real, b: real, c: real, u: real)
    ensures 4.0 * a * (a * u * u + b * u + c) == (2.0 * a * u + b) * (2.0 * a * u + b) - (b * b - 4.0 * c * a)
  {
  }

  lemma NoRoot(a: real, b: real, c: real, u: real)
    requires b * b - 4.0 * c * a <= 0.0
    ensures a > 0.0 ==> a * u * u + b * u + c >= 0.0
    ensures a < 0.0 ==> a * u * u + b * u + c <= 0.0
  {
    CompletedSquare(a, b, c, u);
    var v, w := 2.0 * a * u + b, a * u * u + b * u + c;
    assert v * v >= 0.0;
    assert 4.0 * a * w >= 0.0;
    if a > 0.0 && w < 0.0 {
      StrictSign(4.0 * a, w);
    } else if a < 0.0 && w > 0.0 {
      StrictSign(w, 4.0 * a);
    }
  }

  lemma StrictSign(u: real, v: real)
    requires u > 0.0 && v < 0.0
    ensures u * v < 0.0
  {
  }

  lemma Factored(a: real, b: real, c: real, s: real, u: real)
    requires a != 0.0 && s * s == b * b - 4.0 * c * a
    ensures a * u * u + b * u + c == a * ((u - (-b - s) / (2.0 * a)) * (u - (-b + s) / (2.0 * a)))
  {
    var d := 2.0 * a;
    var r1, r2 := (-b - s) / d, (-b + s) / d;
    assert d * r1 == -b - s && d * r2 == -b + s;
    var v := d * u + b;
    assert d * (u - r1) == v + s && d * (u - r2) == v - s;
    var x, y := u - r1, u - r2;
    calc {
      4.0 * a * (a * (x * y));
      (d * x) * (d * y);
      (v + s) * (v - s);
      v * v - s * s;
      { CompletedSquare(a, b, c, u); }
      4.0 * a * (a * u * u + b * u + c);
    }
    Cancel(4.0 * a, a * (x * y), a * u * u + b * u + c);
  }

  lemma Cancel(m: real, x: real, y: real)
    requires m != 0.0 && m * x == m * y
    ensures x == y
  {
    assert m * (x - y) == 0.0;
  }

  lemma SlopeIsLinear(b: real, c: real, u: real)
    requires b != 0.0
    ensures b * u + c == b * (u - -c / b)
  {
    assert b * (-c / b) == -c;
  }

  function Quadratic(r1: real, r2: real, u: real): real {
    (u - r1) * (u - r2)
  }

  lemma QuadraticSign(r1: real, r2: real, u: real)
    requires r1 <= r2
    ensures u <= r1 || r2 <= u ==> Quadratic(r1, r2, u) >= 0.0
    ensures r1 <= u <= r2 ==> Quadratic(r1, r2, u) <= 0.0
  {
    SignOfMultiple(u - r1, u - r2);
  }

  lemma Rectilinear(e: real -> real, d: real -> real, b: real, c: real, r: Range, t: real)
    requires Follows(e, d) && Turns(e, d, r) && 0.0 <= t <= 1.0
    requires forall u :: d(u) == b * u + c
    ensures Within(e(t), r)
  {
    if b == 0.0 {
      forall u ensures d(u) == c { assert d(u) == b * u + c; }
      assert Rising(d, 0.0, 1.0) || Falling(d, 0.0, 1.0);
      BetweenEnds(e, d, 0.0, t, 1.0, r);
    } else {
      var f := (u: real) => u - -c / b;
      forall u ensures d(u) == b * f(u) { SlopeIsLinear(b, c, u); }
      OneTurn(e, d, b, f, -c / b, r, t);
    }
  }

  lemma Turnless(e: real -> real, d: real -> real, a: real, b: real, c: real, r: Range, t: real)
    requires Follows(e, d) && Within(e(0.0), r) && Within(e(1.0), r) && 0.0 <= t <= 1.0
    requires forall u :: d(u) == SlopeAt(a, b, c, u)
    requires a != 0.0 && b * b - 4.0 * c * a <= 0.0
    ensures Within(e(t), r)
  {
    forall u ensures (a > 0.0 ==> d(u) >= 0.0) && (a < 0.0 ==> d(u) <= 0.0) { NoRoot(a, b, c, u); }
    BetweenEnds(e, d, 0.0, t, 1.0, r);
  }

  lemma TurnsAt(e: real -> real, d: real -> real, a: real, r1: real, r2: real, r: Range, t: real)
    requires Follows(e, d) && Turns(e, d, r) && 0.0 <= t <= 1.0
    requires r1 <= r2 && forall u :: d(u) == a * Quadratic(r1, r2, u)
    ensures Within(e(t), r)
  {
    var f := (u: real) => Quadratic(r1, r2, u);
    forall u ensures u <= r1 || r2 <= u ==> f(u) >= 0.0 ensures r1 <= u <= r2 ==> f(u) <= 0.0 {
      QuadraticSign(r1, r2, u);
    }
    TwoTurns(e, d, a, f, r1, r2, r, t);
  }

  lemma FactoredSlope(d: real -> real, a: real, b: real, c: real, s: real, r1: real, r2: real)
    requires a != 0.0 && s * s == b * b - 4.0 * c * a && r1 == (-b - s) / (2.0 * a) && r2 == (-b + s) / (2.0 * a)
    requires forall u :: d(u) == SlopeAt(a, b, c, u)
    ensures forall u :: d(u) == a * Quadratic(r1, r2, u)
    ensures forall u :: d(u) == a * Quadratic(r2, r1, u)
  {
    forall u ensures d(u) == a * Quadratic(r1, r2, u) && d(u) == a * Quadratic(r2, r1, u) {
      Factored(a, b, c, s, u);
      assert Quadratic(r1, r2, u) == Quadratic(r2, r1, u);
    }
  }

  lemma TurnsDecide(e: real -> real, d: real -> real, a: real, b: real, c: real,
                    sqrt: real -> real, r: Range, t: real)
    requires Follows(e, d) && Turns(e, d, r) && 0.0 <= t <= 1.0 && IsSqrt(sqrt)
    requires forall u :: d(u) == SlopeAt(a, b, c, u)
    ensures Within(e(t), r)
  {
    var disc := b * b - 4.0 * c * a;
    if a == 0.0 {
      forall u ensures d(u) == b * u + c { assert d(u) == SlopeAt(a, b, c, u) && a * u * u == 0.0; }
      Rectilinear(e, d, b, c, r, t);
    } else if disc <= 0.0 {
      Turnless(e, d, a, b, c, r, t);
    } else {
      var s := sqrt(disc);
      var r1, r2 := (-b - s) / (2.0 * a), (-b + s) / (2.0 * a);
      FactoredSlope(d, a, b, c, s, r1, r2);
      if r1 <= r2 {
        TurnsAt(e, d, a, r1, r2, r, t);
      } else {
        TurnsAt(e, d, a, r2, r1, r, t);
      }
    }
  }

  /** An interior point where the curve turns. */
  predicate Critical(k: Cubic, t: real) {
    0.0 < t < 1.0 && Slope(k, t) == 0.0
  }

  ghost predicate TurnsWithin(k: Cubic, r: Range) {
    Within(k.p0, r) && Within(k.p3, r) && forall t | Critical(k, t) :: Within(EvalBezier(t, k), r)
  }

  ghost predicate CurveWithin(k: Cubic, r: Range) {
    forall t | 0.0 <= t <= 1.0 :: Within(EvalBezier(t, k), r)
  }

  function PolyCurve(p0: real, a: real, b: real, c: real): real -> real { t => Poly(p0, a, b, c, t) }

  function SlopeCurve(a: real, b: real, c: real): real -> real { t => SlopeAt(a, b, c, t) }

  lemma SimpsonOnCurve(p0: real, a: real, b: real, c: real, x: real, y: real)
    ensures var e, d := PolyCurve(p0, a, b, c), SlopeCurve(a, b, c);
            6.0 * (e(y) - e(x)) == (y - x) * (d(x) + 4.0 * d((x + y) / 2.0) + d(y))
  {
    Simpson(p0, a, b, c, x, y);
  }

  lemma Monotone(e: real -> real, d: real -> real, x: real, y: real)
    requires x <= y && 6.0 * (e(y) - e(x)) == (y - x) * (d(x) + 4.0 * d((x + y) / 2.0) + d(y))
    ensures Rising(d, x, y) ==> e(x) <= e(y)
    ensures Falling(d, x, y) ==> e(x) >= e(y)
  {
    SignOfMultiple(y - x, d(x) + 4.0 * d((x + y) / 2.0) + d(y));
  }

  lemma PolyFollows(p0: real, a: real, b: real, c: real)
    ensures Follows(PolyCurve(p0, a, b, c), SlopeCurve(a, b, c))
  {
    var e, d := PolyCurve(p0, a, b, c), SlopeCurve(a, b, c);
    forall x, y | x <= y ensures (Rising(d, x, y) ==> e(x) <= e(y)) && (Falling(d, x, y) ==> e(x) >= e(y)) {
      SimpsonOnCurve(p0, a, b, c, x, y);
      Monotone(e, d, x, y);
    }
  }

  function Curve(k: Cubic): real -> real { t => EvalBezier(t, k) }

  function Derivative(k: Cubic): real -> real { SlopeCurve(A(k), B(k), C(k)) }

  lemma SameFollows(e: real -> real, f: real -> real, d: real -> real)
    requires Follows(e, d) && forall t :: f(t) == e(t)
    ensures Follows(f, d)
  {
  }

  lemma CurveIsPoly(k: Cubic, t: real)
    ensures Curve(k)(t) == PolyCurve(k.p0, A(k), B(k), C(k))(t)
  {
    PowerBasis(k, t);
  }

  lemma CurveFollows(k: Cubic)
    ensures Follows(Curve(k), Derivative(k))
  {
    PolyFollows(k.p0, A(k), B(k), C(k));
    forall t ensures Curve(k)(t) == PolyCurve(k.p0, A(k), B(k), C(k))(t) {
      CurveIsPoly(k, t);
    }
    SameFollows(PolyCurve(k.p0, A(k), B(k), C(k)), Curve(k), Derivative(k));
  }

  /** A cubic stays in a range over [0,1] if and only if its ends and turning points do. */
  lemma ExtremaAtTurns(k: Cubic, r: Range, sqrt: real -> real)
    requires IsSqrt(sqrt)
    ensures CurveWithin(k, r) <==> TurnsWithin(k, r)
  {
    assert EvalBezier(0.0, k) == k.p0 && EvalBezier(1.0, k) == k.p3;
    if TurnsWithin(k, r) {
      var e, d := Curve(k), Derivative(k);
      CurveFollows(k);
      assert Turns(e, d, r) by {
        forall t | 0.0 < t < 1.0 && d(t) == 0.0 ensures Within(e(t), r) {
          assert Critical(k, t);
        }
      }
      forall t | 0.0 <= t <= 1.0 ensures Within(EvalBezier(t, k), r) {
        TurnsDecide(e, d, A(k), B(k), C(k), sqrt, r, t);
        assert e(t) == EvalBezier(t, k);
      }
    }
  }

  // ---------------------------------------------------------------- the range the source computes

  function AxisRange(k: Cubic, sqrt: real -> real): Range {
    Widen(Ends(k), Curve(k), Roots(k, sqrt))
  }

  lemma {:induction false} WidenContains(r: Range, e: real -> real, ts: seq<real>)
    ensures Widen(r, e, ts).lo <= r.lo && r.hi <= Widen(r, e, ts).hi
    ensures forall t | t in ts :: Within(e(t), Widen(r, e, ts))
    decreases |ts|
  {
    if ts != [] {
      var v := e(ts[0]);
      WidenContains(Range(Min(r.lo, v), Max(r.hi, v)), e, ts[1..]);
      forall t | t in ts ensures Within(e(t), Widen(r, e, ts)) {
        assert t == ts[0] || t in ts[1..];
      }
    }
  }

  ghost predicate Attained(v: real, e: real -> real) {
    exists t :: 0.0 <= t <= 1.0 && e(t) == v
  }

  lemma {:induction false} WidenAttained(r: Range, e: real -> real, ts: seq<real>)
    requires Attained(r.lo, e) && Attained(r.hi, e) && forall t | t in ts :: 0.0 <= t <= 1.0
    ensures Attained(Widen(r, e, ts).lo, e) && Attained(Widen(r, e, ts).hi, e)
    decreases |ts|
  {
    if ts != [] {
      var v := e(ts[0]);
      var t := ts[0];
      assert t in ts;
      assert 0.0 <= t <= 1.0 && e(t) == v;
      forall u | u in ts[1..] ensures 0.0 <= u <= 1.0 { assert u in ts; }
      WidenAttained(Range(Min(r.lo, v), Max(r.hi, v)), e, ts[1..]);
    }
  }

  /** The range is never too large: the curve reaches both of its bounds. */
  lemma RangeIsTight(k: Cubic, sqrt: real -> real)
    ensures Attained(AxisRange(k, sqrt).lo, Curve(k)) && Attained(AxisRange(k, sqrt).hi, Curve(k))
  {
    assert Curve(k)(0.0) == k.p0 && Curve(k)(1.0) == k.p3;
    WidenAttained(Ends(k), Curve(k), Roots(k, sqrt));
  }

  /** None of the source's tests against EPSILON falls in its gap: a coefficient is zero or clearly not,
      the discriminant is clearly positive or not positive, and no root hides next to an end. */
  predicate NoSlopeGap(a: real, b: real, c: real, sqrt: real -> real) {
    if a == 0.0 then
      b == 0.0 || (Abs(b) > EPSILON && Clear(-c / b))
    else
      && Abs(a) >= EPSILON
      && (Disc(a, b, c) <= 0.0 || (&& Disc(a, b, c) > EPSILON
                                   && Clear((-b + sqrt(Disc(a, b, c))) / (2.0 * a))
                                   && Clear((-b - sqrt(Disc(a, b, c))) / (2.0 * a))))
  }

  predicate NoGap(k: Cubic, sqrt: real -> real) {
    NoSlopeGap(A(k), B(k), C(k), sqrt)
  }

  predicate Clear(t: real) {
    t <= 0.0 || t >= 1.0 || Inside(t)
  }

  lemma ZeroFactor(a: real, x: real, y: real)
    requires a != 0.0 && a * (x * y) == 0.0
    ensures x == 0.0 || y == 0.0
  {
  }

  lemma RootIsOneOfTwo(a: real, b: real, c: real, s: real, t: real)
    requires a != 0.0 && s * s == b * b - 4.0 * c * a && a * t * t + b * t + c == 0.0
    ensures t == (-b + s) / (2.0 * a) || t == (-b - s) / (2.0 * a)
  {
    Factored(a, b, c, s, t);
    ZeroFactor(a, t - (-b - s) / (2.0 * a), t - (-b + s) / (2.0 * a));
  }

  lemma RootOfLine(b: real, c: real, t: real)
    requires b != 0.0 && b * t + c == 0.0
    ensures t == -c / b
  {
    Cancel(b, t, -c / b);
  }

  /** Outside the gaps every turning point is sampled, unless the slope never changes sign. */
  lemma TurnSampled(a: real, b: real, c: real, sqrt: real -> real, t: real)
    requires IsSqrt(sqrt) && NoSlopeGap(a, b, c, sqrt)
    requires 0.0 < t < 1.0 && SlopeAt(a, b, c, t) == 0.0
    requires if a == 0.0 then b != 0.0 else Disc(a, b, c) > 0.0
    ensures t in SlopeRoots(a, b, c, sqrt)
  {
    if a == 0.0 {
      assert a * t * t == 0.0;
      RootOfLine(b, c, t);
      assert t in Keep(-c / b);
    } else {
      var s := sqrt(Disc(a, b, c));
      RootIsOneOfTwo(a, b, c, s, t);
      assert t in Keep((-b + s) / (2.0 * a)) + Keep((-b - s) / (2.0 * a));
    }
  }

  lemma SamplesSuffice(e: real -> real, d: real -> real, a: real, b: real, c: real,
                       sqrt: real -> real, r: Range, t: real)
    requires Follows(e, d) && Within(e(0.0), r) && Within(e(1.0), r) && 0.0 <= t <= 1.0
    requires forall u :: d(u) == SlopeAt(a, b, c, u)
    requires IsSqrt(sqrt) && NoSlopeGap(a, b, c, sqrt)
    requires forall u | u in SlopeRoots(a, b, c, sqrt) :: Within(e(u), r)
    ensures Within(e(t), r)
  {
    if a == 0.0 && b == 0.0 {
      forall u ensures d(u) == c { assert d(u) == SlopeAt(a, b, c, u) && a * u * u == 0.0 && b * u == 0.0; }
      assert Rising(d, 0.0, 1.0) || Falling(d, 0.0, 1.0);
      BetweenEnds(e, d, 0.0, t, 1.0, r);
    } else if a != 0.0 && Disc(a, b, c) <= 0.0 {
      Turnless(e, d, a, b, c, r, t);
    } else {
      forall u | 0.0 < u < 1.0 && d(u) == 0.0 ensures Within(e(u), r) {
        TurnSampled(a, b, c, sqrt, u);
      }
      TurnsDecide(e, d, a, b, c, sqrt, r, t);
    }
  }

  lemma CurveSamplesSuffice(k: Cubic, sqrt: real -> real, r: Range, t: real)
    requires IsSqrt(sqrt) && NoGap(k, sqrt) && 0.0 <= t <= 1.0
    requires Within(Curve(k)(0.0), r) && Within(Curve(k)(1.0), r)
    requires forall u | u in Roots(k, sqrt) :: Within(Curve(k)(u), r)
    ensures Within(Curve(k)(t), r)
  {
    CurveFollows(k);
    SamplesSuffice(Curve(k), Derivative(k), A(k), B(k), C(k), sqrt, r, t);
  }

  lemma RangeHoldsSamples(k: Cubic, sqrt: real -> real)
    ensures Within(Curve(k)(0.0), AxisRange(k, sqrt)) && Within(Curve(k)(1.0), AxisRange(k, sqrt))
    ensures forall u | u in Roots(k, sqrt) :: Within(Curve(k)(u), AxisRange(k, sqrt))
  {
    assert Curve(k)(0.0) == k.p0 && Curve(k)(1.0) == k.p3;
    WidenContains(Ends(k), Curve(k), Roots(k, sqrt));
  }

  /** Outside the gaps the computed range holds the whole curve. */
  lemma RangeHoldsCurve(k: Cubic, sqrt: real -> real)
    requires IsSqrt(sqrt) && NoGap(k, sqrt)
    ensures CurveWithin(k, AxisRange(k, sqrt))
  {
    RangeHoldsSamples(k, sqrt);
    forall t | 0.0 <= t <= 1.0 ensures Within(EvalBezier(t, k), AxisRange(k, sqrt)) {
      CurveSamplesSuffice(k, sqrt, AxisRange(k, sqrt), t);
    }
  }

  /** A gap matters: this curve rises above both of its ends and the range misses it. */
  lemma GapLosesCurve(sqrt: real -> real)
    ensures var k := Cubic(0.0, 0.0000000000001, 0.0000000000001, 0.0);
            !NoGap(k, sqrt) && !Within(EvalBezier(0.5, k), AxisRange(k, sqrt))
  {
    var k := Cubic(0.0, 0.0000000000001, 0.0000000000001, 0.0);
    assert A(k) == 0.0 && B(k) == -0.0000000000006;
    assert Roots(k, sqrt) == [];
    assert EvalBezier(0.5, k) == 0.000000000000075;
  }
}

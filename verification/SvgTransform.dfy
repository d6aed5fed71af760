/** Transforms: the in-place matrix operations, transform lists, and the attribute stack that
    nested elements push and pop. */
module SvgTransform {
  import opened SvgGeometry

  // ---------------------------------------------------------------- algebra

  lemma ThenAssociates(t: Xform, s: Xform, r: Xform)
    ensures Then(Then(t, s), r) == Then(t, Then(s, r))
  {
    AssociatedDot(t.t0, t.t1, s.t0, s.t1, s.t2, s.t3, r.t0, r.t2);
    AssociatedDot(t.t0, t.t1, s.t0, s.t1, s.t2, s.t3, r.t1, r.t3);
    AssociatedDot(t.t2, t.t3, s.t0, s.t1, s.t2, s.t3, r.t0, r.t2);
    AssociatedDot(t.t2, t.t3, s.t0, s.t1, s.t2, s.t3, r.t1, r.t3);
    AssociatedRow(t.t4, t.t5, s.t0, s.t1, s.t2, s.t3, s.t4, s.t5, r.t0, r.t2, r.t4);
    AssociatedRow(t.t4, t.t5, s.t0, s.t1, s.t2, s.t3, s.t4, s.t5, r.t1, r.t3, r.t5);
  }

  lemma AssociatedDot(x: real, y: real, a: real, b: real, c: real, d: real, m: real, n: real)
    ensures Dot(Dot(x, y, a, c), Dot(x, y, b, d), m, n) == Dot(x, y, Dot(a, b, m, n), Dot(c, d, m, n))
  {
  }

  lemma AssociatedRow(x: real, y: real, a: real, b: real, c: real, d: real, e: real, f: real, m: real, n: real, o: real)
    ensures Row(Row(x, y, a, c, e), Row(x, y, b, d, f), m, n, o)
         == Row(x, y, Dot(a, b, m, n), Dot(c, d, m, n), Row(e, f, m, n, o))
  {
  }

  lemma ThenIdentity(t: Xform)
    ensures Then(t, IDENTITY) == t && Then(IDENTITY, t) == t
  {
  }

  function Inverse(t: Xform): Xform
    requires Det(t) != 0.0
  {
    Adjugate(t, 1.0 / Det(t))
  }

  function Adjugate(t: Xform, d: real): Xform {
    Xform(Times(t.t3, d), Times(-t.t1, d), Times(-t.t2, d), Times(t.t0, d),
          Minor(t.t2, t.t5, t.t3, t.t4, d), Minor(t.t1, t.t4, t.t0, t.t5, d))
  }

  function Minor(a: real, b: real, c: real, e: real, d: real): real { (a * b - c * e) * d }

  /** Over the reals the inverse of any nonsingular transform undoes it, on either side. */
  lemma InverseUndoes(t: Xform)
    requires Det(t) != 0.0
    ensures Then(t, Inverse(t)) == IDENTITY && Then(Inverse(t), t) == IDENTITY
  {
    var det := Det(t);
    var d := 1.0 / det;
    assert det * d == 1.0;
    InverseEntries(t.t0, t.t1, t.t2, t.t3, t.t4, t.t5, d);
  }

  lemma InverseEntries(a: real, b: real, c: real, d: real, e: real, f: real, k: real)
    requires (a * d - c * b) * k == 1.0
    ensures a * (d * k) + b * (-c * k) == 1.0 && a * (-b * k) + b * (a * k) == 0.0
    ensures c * (d * k) + d * (-c * k) == 0.0 && c * (-b * k) + d * (a * k) == 1.0
    ensures e * (d * k) + f * (-c * k) + (c * f - d * e) * k == 0.0
    ensures e * (-b * k) + f * (a * k) + (b * e - a * f) * k == 0.0
    ensures d * k * a + -b * k * c == 1.0 && d * k * b + -b * k * d == 0.0
    ensures -c * k * a + a * k * c == 0.0 && -c * k * b + a * k * d == 1.0
    ensures (c * f - d * e) * k * a + (b * e - a * f) * k * c + e == 0.0
    ensures (c * f - d * e) * k * b + (b * e - a * f) * k * d + f == 0.0
  {
    assert (c * f - d * e) * k * a + (b * e - a * f) * k * c == -(e * ((a * d - c * b) * k));
    assert (c * f - d * e) * k * b + (b * e - a * f) * k * d == -(f * ((a * d - c * b) * k));
  }

  // ---------------------------------------------------------------- matrices in place

  predicate IsMatrix(a: array<real>) { a.Length == 6 }

  ghost function AsXform(a: seq<real>): Xform
    requires |a| == 6
  {
    Xform(a[0], a[1], a[2], a[3], a[4], a[5])
  }

  /** What the in-place product leaves when one matrix stands for both arguments: the second row is computed from
      entries already overwritten. */
  function Squared(t: Xform): Xform {
    var t1 := Dot(t.t0, t.t1, t.t1, t.t3);
    var t3 := Dot(t.t2, t.t3, t1, t.t3);
    Xform(Dot(t.t0, t.t1, t.t0, t.t2), t1, Dot(t.t2, t.t3, t.t0, t.t2), t3,
          Row(t.t4, t.t5, t.t0, t.t2, t.t4), Row(t.t4, t.t5, t1, t3, t.t5))
  }

  /** It is the product if and only if what the overwriting adds to the second row vanishes. */
  lemma SquaredIff(t: Xform)
    ensures var d, e := Squared(t).t1 - t.t1, Squared(t).t3 - t.t3;
            Squared(t) == Then(t, t) <==> t.t2 * d == 0.0 && t.t4 * d + t.t5 * e == 0.0
  {
    hide Dot, Row;
    DotMoves(t.t2, t.t3, Squared(t).t1, t.t3, t.t1, t.t3);
    RowMoves(t.t4, t.t5, Squared(t).t1, Squared(t).t3, t.t1, t.t3, t.t5);
  }

  lemma DotMoves(x: real, y: real, m: real, n: real, m': real, n': real)
    ensures Dot(x, y, m, n) - Dot(x, y, m', n') == x * (m - m') + y * (n - n')
  {
  }

  lemma RowMoves(x: real, y: real, m: real, n: real, m': real, n': real, c: real)
    ensures Row(x, y, m, n, c) - Row(x, y, m', n', c) == x * (m - m') + y * (n - n')
  {
  }

  /** nsvg__xformMultiply.  Every entry is computed from entries not yet overwritten, if there are two matrices. */
  method XformMultiply(t: array<real>, s: array<real>)
    requires IsMatrix(t) && IsMatrix(s)
    modifies t
    ensures AsXform(t[..])
         == if t != s then Then(old(AsXform(t[..])), old(AsXform(s[..]))) else Squared(old(AsXform(t[..])))
    ensures t != s ==> s[..] == old(s[..])
  {
    hide Dot, Row;
    var t0 := Dot(t[0], t[1], s[0], s[2]);
    var t2 := Dot(t[2], t[3], s[0], s[2]);
    var t4 := Row(t[4], t[5], s[0], s[2], s[4]);
    t[1] := Dot(t[0], t[1], s[1], s[3]);
    t[3] := Dot(t[2], t[3], s[1], s[3]);
    t[5] := Row(t[4], t[5], s[1], s[3], s[5]);
    t[0] := t0;
    t[2] := t2;
    t[4] := t4;
  }

  /** nsvg__xformPremultiply. */
  method XformPremultiply(t: array<real>, s: array<real>)
    requires IsMatrix(t) && IsMatrix(s)
    modifies t
    ensures AsXform(t[..]) == Then(old(AsXform(s[..])), old(AsXform(t[..])))
  {
    var s2 := new real[6](i requires 0 <= i < 6 reads s => s[i]);
    assert AsXform(s2[..]) == AsXform(s[..]);
    XformMultiply(s2, t);
    forall i | 0 <= i < 6 {
      t[i] := s2[i];
    }
    assert t[..] == s2[..];
  }

  /** What inverting a matrix into itself leaves: later entries are computed from inverted ones. */
  function InvertedInPlace(t: Xform, invdet: real): Xform {
    var t0, t2 := Times(t.t3, invdet), Times(-t.t2, invdet);
    var t4 := Minor(t2, t.t5, t.t3, t.t4, invdet);
    var t1 := Times(-t.t1, invdet);
    var t3 := Times(t0, invdet);
    Xform(t0, t1, t2, t3, t4, Minor(t1, t4, t0, t.t5, invdet))
  }

  predicate NearSingular(t: Xform) { -DET_EPSILON < Det(t) < DET_EPSILON }

  /** nsvg__xformInverse.  A determinant near zero resets the input and leaves the output untouched. */
  method XformInverse(inv: array<real>, t: array<real>)
    requires IsMatrix(inv) && IsMatrix(t)
    modifies inv, t
    ensures NearSingular(old(AsXform(t[..])))
       <==> -0.000001 < old(t[0]) * old(t[3]) - old(t[2]) * old(t[1]) < 0.000001
    ensures NearSingular(old(AsXform(t[..]))) ==>
              AsXform(t[..]) == IDENTITY && (inv != t ==> inv[..] == old(inv[..]))
    ensures !NearSingular(old(AsXform(t[..]))) && inv != t ==>
              t[..] == old(t[..]) && Then(AsXform(t[..]), AsXform(inv[..])) == IDENTITY
    ensures !NearSingular(old(AsXform(t[..]))) && inv == t ==>
              AsXform(t[..]) == InvertedInPlace(old(AsXform(t[..])), 1.0 / Det(old(AsXform(t[..]))))
  {
    ghost var m := AsXform(t[..]);
    var det := t[0] * t[3] - t[2] * t[1];
    assert det == Det(m);
    hide Det, Then, Adjugate, InvertedInPlace;
    if det > -DET_EPSILON && det < DET_EPSILON {
      t[0], t[1], t[2], t[3], t[4], t[5] := 1.0, 0.0, 0.0, 1.0, 0.0, 0.0;
      return;
    }
    InvertEntries(inv, t, 1.0 / det);
    if inv != t {
      assert AsXform(inv[..]) == Inverse(m);
      InverseUndoes(m);
    }
  }

  method InvertEntries(inv: array<real>, t: array<real>, invdet: real)
    requires IsMatrix(inv) && IsMatrix(t)
    modifies inv
    ensures inv != t ==> AsXform(inv[..]) == Adjugate(old(AsXform(t[..])), invdet) && t[..] == old(t[..])
    ensures inv == t ==> AsXform(inv[..]) == InvertedInPlace(old(AsXform(t[..])), invdet)
  {
    hide Times, Minor;
    inv[0] := Times(t[3], invdet);
    inv[2] := Times(-t[2], invdet);
    inv[4] := Minor(t[2], t[5], t[3], t[4], invdet);
    inv[1] := Times(-t[1], invdet);
    inv[3] := Times(t[0], invdet);
    inv[5] := Minor(t[1], t[4], t[0], t[5], invdet);
  }

  // ---------------------------------------------------------------- transform lists

  /** nsvg__parseTransform, once each entry has been turned into a matrix. */
  function Compose(list: seq<Xform>): Xform {
    if list == [] then IDENTITY else Then(list[|list| - 1], Compose(list[..|list| - 1]))
  }

  /** Maps a point by the last transform first, as SVG 1.1 section 7.6 nests the entries. */
  function MapThrough(list: seq<Xform>, p: Point): Point {
    if list == [] then p else MapThrough(list[..|list| - 1], XformPoint(list[|list| - 1], p))
  }

  lemma {:induction false} ComposeMaps(list: seq<Xform>, p: Point)
    ensures XformPoint(Compose(list), p) == MapThrough(list, p)
  {
    if list != [] {
      var last, rest := list[|list| - 1], list[..|list| - 1];
      ThenComposes(last, Compose(rest), p);
      ComposeMaps(rest, XformPoint(last, p));
    }
  }

  /** A list of transforms is the nesting of two shorter lists. */
  lemma {:induction false} ComposeAppend(outer: seq<Xform>, inner: seq<Xform>)
    ensures Compose(outer + inner) == Then(Compose(inner), Compose(outer))
  {
    if inner == [] {
      assert outer + inner == outer;
      ThenIdentity(Compose(outer));
    } else {
      var last, rest := inner[|inner| - 1], inner[..|inner| - 1];
      assert (outer + inner)[..|outer + inner| - 1] == outer + rest;
      ComposeAppend(outer, rest);
      ThenAssociates(last, Compose(rest), Compose(outer));
    }
  }
}

/** What each path command draws, in the terms of SVG 1.1 section 8.3: curves and their control points, not the way they
    are computed. */
module SvgDraws {
  import opened SvgGeometry
  import opened SvgBounds
  import opened SvgBoxes
  import opened SvgPath

  // ---------------------------------------------------------------- curves

  function OnLine(a: Point, b: Point, t: real): Point {
    Point(a.x + t * (b.x - a.x), a.y + t * (b.y - a.y))
  }

  /** On the quadratic from a to b with control c. */
  function OnQuadratic(a: Point, c: Point, b: Point, t: real): Point {
    Point(Quadratic(a.x, c.x, b.x, t), Quadratic(a.y, c.y, b.y, t))
  }

  function Quadratic(a: real, c: real, b: real, t: real): real {
    (1.0 - t) * (1.0 - t) * a + 2.0 * t * (1.0 - t) * c + t * t * b
  }

  lemma LineEval(a: real, b: real, t: real)
    ensures EvalBezier(t, Cubic(a, a + (b - a) / 3.0, b - (b - a) / 3.0, b)) == a + t * (b - a)
  {
  }

  lemma QuadraticEval(a: real, c: real, b: real, t: real)
    ensures EvalBezier(t, Cubic(a, a + 2.0 / 3.0 * (c - a), b + 2.0 / 3.0 * (c - b), b)) == Quadratic(a, c, b, t)
  {
  }

  // ---------------------------------------------------------------- commands

  /** How many arguments a command has. */
  function Needed(c: char): nat {
    if c in {'h', 'H', 'v', 'V'} then 1
    else if c in {'m', 'M', 'l', 'L', 't', 'T'} then 2
    else if c in {'s', 'S', 'q', 'Q'} then 4
    else if c in {'c', 'C'} then 6
    else if c in {'a', 'A'} then 7
    else 0
  }

  predicate Ready(s: State) {
    ArgsPerElement(s.cmd) >= 0 && |s.args| >= Needed(s.cmd)
  }

  lemma NeededIs(c: char)
    ensures Needed(c) > 0 ==> ArgsPerElement(c) == Needed(c)
    ensures ArgsPerElement(c) > 0 ==> Needed(c) > 0
  {
  }

  /** A number is kept until the command has all it needs; then it draws, and begins anew. */
  lemma NumberDraws(env: Env, s: State, v: real)
    requires Wf(env, s) && Needed(s.cmd) > 0 && |s.args| < Needed(s.cmd)
    ensures var t, all := Step(env, s, Number(v)), s.(args := s.args + [v]);
            if |all.args| < Needed(s.cmd) then t == all else Ready(all) && t == Fire(env, all).(args := [])
  {
    NeededIs(s.cmd);
    hide Fire;
  }

  /** The outline has been begun and ends at the current point. */
  predicate AtCurrent(s: State) {
    s.pts != [] && s.pts[|s.pts| - 1] == s.cp
  }

  /** The pair of arguments at i as a point: a lower-case command adds the current point. */
  function Given(s: State, i: nat): Point
    requires i + 1 < |s.args|
  {
    if 'a' <= s.cmd <= 'z' then Point(s.cp.x + s.args[i], s.cp.y + s.args[i + 1]) else Point(s.args[i], s.args[i + 1])
  }

  predicate AddsSegment(s: State, t: State) {
    s.pts != [] && |t.pts| == |s.pts| + 3 && t.pts[..|s.pts|] == s.pts
  }

  function NewSegment(s: State, t: State): Segment
    requires AddsSegment(s, t)
  {
    var n := |s.pts|;
    Segment(s.pts[n - 1], t.pts[n], t.pts[n + 1], t.pts[n + 2])
  }

  /** One segment more, the current point at p, and c as the control point a smooth command would mirror. */
  predicate Draws(s: State, t: State, c: Point, p: Point) {
    AddsSegment(s, t) && t == s.(pts := t.pts, cp := p, cp2 := c) && AtCurrent(t)
  }

  /** Where a line command goes. */
  function LineEnd(s: State): Point
    requires s.cmd in {'l', 'L', 'h', 'H', 'v', 'V'} && Ready(s)
  {
    match s.cmd
    case 'h' => Point(s.cp.x + s.args[0], s.cp.y)
    case 'H' => Point(s.args[0], s.cp.y)
    case 'v' => Point(s.cp.x, s.cp.y + s.args[0])
    case 'V' => Point(s.cp.x, s.args[0])
    case _ => Given(s, 0)
  }

  /** L, H and V draw straight lines, at constant speed. */
  lemma LineDraws(env: Env, s: State)
    requires s.cmd in {'l', 'L', 'h', 'H', 'v', 'V'} && Ready(s) && AtCurrent(s)
    ensures var t, p := Fire(env, s), LineEnd(s);
            Draws(s, t, p, p) && forall u :: SegmentPoint(NewSegment(s, t), u) == OnLine(s.cp, p, u)
  {
    hide LineTo, EvalBezier, OnLine;
    LineToDraws(s, LineEnd(s));
  }

  /** C has the control points and the end that are given. */
  lemma CubicDraws(env: Env, s: State)
    requires s.cmd in {'c', 'C'} && Ready(s) && AtCurrent(s)
    ensures var t := Fire(env, s);
            && Draws(s, t, Given(s, 2), Given(s, 4))
            && NewSegment(s, t) == Segment(s.cp, Given(s, 0), Given(s, 2), Given(s, 4))
  {
  }

  /** m is in the middle between a and b. */
  predicate Midpoint(m: Point, a: Point, b: Point) {
    a.x + b.x == 2.0 * m.x && a.y + b.y == 2.0 * m.y
  }

  /** S starts with the control point that has the current point in the middle between it and the last one. */
  lemma SmoothCubicDraws(env: Env, s: State)
    requires s.cmd in {'s', 'S'} && Ready(s) && AtCurrent(s)
    ensures var t := Fire(env, s);
            && Draws(s, t, Given(s, 0), Given(s, 2))
            && Midpoint(s.cp, NewSegment(s, t).v1, s.cp2)
            && NewSegment(s, t).v2 == Given(s, 0) && NewSegment(s, t).v3 == Given(s, 2)
  {
  }

  /** Q draws the quadratic that is given. */
  lemma QuadraticDraws(env: Env, s: State)
    requires s.cmd in {'q', 'Q'} && Ready(s) && AtCurrent(s)
    ensures var t := Fire(env, s);
            && Draws(s, t, Given(s, 0), Given(s, 2))
            && forall u :: SegmentPoint(NewSegment(s, t), u) == OnQuadratic(s.cp, Given(s, 0), Given(s, 2), u)
  {
    hide EvalBezier, Quadratic;
    var c, p := Given(s, 0), Given(s, 2);
    forall u ensures SegmentPoint(NewSegment(s, Fire(env, s)), u) == OnQuadratic(s.cp, c, p, u) {
      QuadraticEval(s.cp.x, c.x, p.x, u);
      QuadraticEval(s.cp.y, c.y, p.y, u);
    }
  }

  /** T draws the quadratic whose control point has the current point in the middle between it and the last one. */
  lemma SmoothQuadraticDraws(env: Env, s: State)
    requires s.cmd in {'t', 'T'} && Ready(s) && AtCurrent(s)
    ensures var t := Fire(env, s);
            && Draws(s, t, t.cp2, Given(s, 0)) && Midpoint(s.cp, t.cp2, s.cp2)
            && forall u :: SegmentPoint(NewSegment(s, t), u) == OnQuadratic(s.cp, t.cp2, Given(s, 0), u)
  {
    hide EvalBezier, Quadratic;
    var t := Fire(env, s);
    var c, p := t.cp2, Given(s, 0);
    forall u ensures SegmentPoint(NewSegment(s, t), u) == OnQuadratic(s.cp, c, p, u) {
      QuadraticEval(s.cp.x, c.x, p.x, u);
      QuadraticEval(s.cp.y, c.y, p.y, u);
    }
  }

  /** M begins an outline at the given point, and what follows are lines of the same kind. */
  lemma MoveDraws(env: Env, s: State)
    requires s.cmd in {'m', 'M'} && Ready(s)
    ensures var t, p := Fire(env, s), Given(s, 0);
            && t.cp == t.cp2 == p && t.plist == s.plist && t.init && t.rargs == 2
            && t.cmd == (if s.cmd == 'm' then 'l' else 'L')
            && t.pts == (if s.pts == [] then [p] else s.pts[..|s.pts| - 1] + [p])
  {
  }

  function Pieces(bends: seq<Bend>): seq<Point> {
    if bends == [] then [] else [bends[0].c1, bends[0].c2, bends[0].to] + Pieces(bends[1..])
  }

  lemma {:induction false} BendsArePieces(pts: seq<Point>, bends: seq<Bend>)
    requires pts != []
    ensures Bends(pts, bends) == pts + Pieces(bends)
    decreases |bends|
  {
    if bends != [] {
      var b := bends[0];
      BendsArePieces(pts + [b.c1, b.c2, b.to], bends[1..]);
      assert (pts + [b.c1, b.c2, b.to]) + Pieces(bends[1..]) == pts + Pieces(bends);
    }
  }

  /** A takes its radii without sign and its flags as nonzero or not. It draws the pieces of the arc, or a line when the
      ends or a radius vanish. */
  lemma ArcDraws(env: Env, s: State)
    requires s.cmd in {'a', 'A'} && Ready(s) && AtCurrent(s)
    ensures var t, p, a := Fire(env, s), Given(s, 5), s.args;
            var rx, ry := if a[0] < 0.0 then -a[0] else a[0], if a[1] < 0.0 then -a[1] else a[1];
            var dx, dy := p.x - s.cp.x, p.y - s.cp.y;
            && t == s.(pts := t.pts, cp := p, cp2 := p)
            && (if dx * dx + dy * dy < 0.000000000001 || rx < 0.000001 || ry < 0.000001 then
                  Draws(s, t, p, p) && forall u :: SegmentPoint(NewSegment(s, t), u) == OnLine(s.cp, p, u)
                else
                  t.pts == s.pts + Pieces(env.arc(s.cp, p, rx, ry, a[2], a[3] > 0.000001 || a[3] < -0.000001,
                                                  a[4] > 0.000001 || a[4] < -0.000001)))
  {
    hide EvalBezier, Bends, LineTo, OnLine;
    var p, a := Given(s, 5), s.args;
    SquaresAgree(s.cp.x, p.x);
    SquaresAgree(s.cp.y, p.y);
    LineToDraws(s, p);
    BendsArePieces(s.pts, env.arc(s.cp, p, Abs(a[0]), Abs(a[1]), a[2], Abs(a[3]) > 0.000001, Abs(a[4]) > 0.000001));
  }

  lemma LineToDraws(s: State, p: Point)
    requires AtCurrent(s)
    ensures var t := Moved(s, LineTo(s.pts, p), p);
            Draws(s, t, p, p) && forall u :: SegmentPoint(NewSegment(s, t), u) == OnLine(s.cp, p, u)
  {
    hide EvalBezier;
    forall u ensures SegmentPoint(NewSegment(s, Moved(s, LineTo(s.pts, p), p)), u) == OnLine(s.cp, p, u) {
      LineEval(s.cp.x, p.x, u);
      LineEval(s.cp.y, p.y, u);
    }
  }

  lemma SquaresAgree(x: real, y: real)
    ensures (x - y) * (x - y) == (y - x) * (y - x)
  {
  }

  // ---------------------------------------------------------------- over whole runs

  /** Every arc ends where it is told to. */
  ghost predicate ArcsEnd(env: Env) {
    forall from, to, rx, ry, rotation, large, sweep ::
      var pieces := ArcPieces(env, from, to, rx, ry, rotation, large, sweep);
      pieces != [] && pieces[|pieces| - 1].to == to
  }

  function ArcPieces(env: Env, from: Point, to: Point, rx: real, ry: real, rotation: real, large: bool, sweep: bool)
    : seq<Bend>
  {
    env.arc(from, to, rx, ry, rotation, large, sweep)
  }

  predicate Tip(s: State) { s.pts == [] || AtCurrent(s) }

  lemma {:induction false} PiecesEnd(bends: seq<Bend>)
    requires bends != []
    ensures Pieces(bends) != [] && Pieces(bends)[|Pieces(bends)| - 1] == bends[|bends| - 1].to
  {
    if |bends| > 1 { PiecesEnd(bends[1..]); }
  }

  lemma FireKeepsTip(env: Env, s: State)
    requires ArcsEnd(env) && Tip(s) && Ready(s) && (IsClose(s.cmd) ==> |s.args| < 2)
    ensures Tip(Fire(env, s))
  {
    if s.cmd in {'a', 'A'} {
      ArcKeepsTip(env, s);
    }
  }

  lemma ArcKeepsTip(env: Env, s: State)
    requires ArcsEnd(env) && Tip(s) && Ready(s) && s.cmd in {'a', 'A'}
    ensures Tip(Fire(env, s))
  {
    hide Bends, LineTo, Degenerate, Pieces, Draws;
    var p, a := Given(s, 5), s.args;
    var bends := ArcPieces(env, s.cp, p, Abs(a[0]), Abs(a[1]), a[2], Abs(a[3]) > 0.000001, Abs(a[4]) > 0.000001);
    PiecesEnd(bends);
    if s.pts != [] {
      LineToDraws(s, p);
      DrawsKeepsTip(s, Moved(s, LineTo(s.pts, p), p), p);
      BendsArePieces(s.pts, bends);
    } else {
      NothingFromNothing(bends, p);
    }
  }

  lemma DrawsKeepsTip(s: State, t: State, p: Point)
    requires Draws(s, t, p, p)
    ensures Tip(t)
  {
  }

  lemma {:induction false} NothingFromNothing(bends: seq<Bend>, p: Point)
    ensures Bends([], bends) == [] && LineTo([], p) == []
    decreases |bends|
  {
    if bends != [] { NothingFromNothing(bends[1..], p); }
  }

  /** In every run the outline ends at the current point, so each command draws from there. */
  lemma {:induction false} RunKeepsTip(env: Env, s: State, items: seq<Item>)
    requires ArcsEnd(env) && Wf(env, s) && Tip(s)
    ensures Tip(Run(env, s, items)) && Wf(env, Run(env, s, items))
    decreases |items|
  {
    if items != [] {
      hide Step, Tip, ArcsEnd;
      StepKeeps(env, s, items[0]);
      StepKeepsTip(env, s, items[0]);
      RunKeepsTip(env, Step(env, s, items[0]), items[1..]);
    }
  }

  lemma StepKeepsTip(env: Env, s: State, item: Item)
    requires ArcsEnd(env) && Wf(env, s) && Tip(s)
    ensures Tip(Step(env, s, item))
  {
    hide Fire, Commit, GoodPaths, ArcsEnd;
    if item.Number? && s.cmd != NO_COMMAND {
      var t := s.(args := s.args + [item.v]);
      if |t.args| >= t.rargs { FireKeepsTip(env, t); }
    }
  }

  // ---------------------------------------------------------------- ends of outlines

  /** Z closes the outline: it is stored, and the next one begins at its first point. */
  lemma CloseDraws(env: Env, s: State, c: char)
    requires Consistent(s) && c in {'z', 'Z'} && s.init && s.pts != []
    ensures var t := Step(env, s, Command(c));
            && t.plist == Commit(env, s.pts, true, s.plist) && t.pts == [s.pts[0]] && t.cp == t.cp2 == s.pts[0]
  {
  }

  /** M stores the outline before it, open, unless it has been closed already; other letters leave it as it is. */
  lemma LettersKeep(env: Env, s: State, c: char)
    requires Consistent(s) && !IsClose(c)
    ensures var t := Step(env, s, Command(c));
            && t.cp == s.cp && t.cp2 == s.cp2
            && t.pts == (if IsMove(c) then [] else s.pts)
            && t.plist == (if IsMove(c) && s.pts != [] then Commit(env, s.pts, s.closed, s.plist) else s.plist)
  {
  }

  /** The path in front of the list after a commit. */
  function Latest(env: Env, pts: seq<Point>, closed: bool, plist: seq<Path>): Path
    requires GoodPoints(pts) && |pts| >= 4
  {
    Commit(env, pts, closed, plist)[0]
  }

  /** A stored path is the image of what was drawn, segment by segment, and a line back to its start if it is closed. */
  lemma StoredIsImage(env: Env, pts: seq<Point>, closed: bool, plist: seq<Path>, k: nat, u: real)
    requires GoodPoints(pts) && |pts| >= 4
    ensures var path, n := Latest(env, pts, closed, plist), Segments(pts);
            && path.closed == closed && Commit(env, pts, closed, plist) == [path] + plist
            && WellFormedPath(path.pts) && Segments(path.pts) == (if closed then n + 1 else n)
            && (k < n ==>
                  SegmentPoint(SegmentAt(path.pts, k), u) == XformPoint(env.xform, SegmentPoint(SegmentAt(pts, k), u)))
            && (closed ==>
                  SegmentPoint(SegmentAt(path.pts, n), u) == XformPoint(env.xform, OnLine(pts[|pts| - 1], pts[0], u)))
  {
    hide EvalBezier, XformPoint, PathBox, OnLine;
    var n, m := Segments(pts), env.xform;
    if k < n { AffineCommutes(m, SegmentAt(pts, k), u); }
    if closed {
      var last, first := pts[|pts| - 1], pts[0];
      var all := LineTo(pts, first);
      var back := SegmentAt(all, n);
      AffineCommutes(m, back, u);
      BackToStart(last, first, u);
    }
  }

  lemma BackToStart(p: Point, q: Point, u: real)
    ensures LineTo([p], q)[0] == p && SegmentPoint(SegmentAt(LineTo([p], q), 0), u) == OnLine(p, q, u)
  {
    hide EvalBezier;
    ThirdsAre(p, q);
    LineEval(p.x, q.x, u);
    LineEval(p.y, q.y, u);
  }

  lemma ThirdsAre(p: Point, q: Point)
    ensures SegmentAt(LineTo([p], q), 0)
         == Segment(p, Point(p.x + (q.x - p.x) / 3.0, p.y + (q.y - p.y) / 3.0),
                    Point(q.x - (q.x - p.x) / 3.0, q.y - (q.y - p.y) / 3.0), q)
  {
  }

  // ---------------------------------------------------------------- smooth commands after others

  predicate IsCubic(c: char) { c in {'c', 'C', 's', 'S'} }

  predicate IsQuadratic(c: char) { c in {'q', 'Q', 't', 'T'} }

  /** SVG 1.1 section 8.3.6: S mirrors the last control point of a cubic, and after any other command starts with the
      current point. The code does so if and only if the command before is no quadratic, unless that one's control point
      is its end. */
  lemma SmoothCubicMeantIff(env: Env, before: State, args: seq<real>)
    requires Ready(before) && !IsClose(before.cmd) && |args| >= 4 && AtCurrent(Fire(env, before))
    ensures var s := Fire(env, before).(cmd := 'S', args := args);
            var q := NewSegment(s, Fire(env, s)).v1;
            (if IsCubic(before.cmd) then Midpoint(s.cp, q, s.cp2) else q == s.cp)
            <==> !IsQuadratic(before.cmd) || s.cp2 == s.cp
  {
    var s := Fire(env, before).(cmd := 'S', args := args);
    SmoothCubicDraws(env, s);
  }

  /** SVG 1.1 section 8.3.7: the same for T, which takes cubics for quadratics. */
  lemma SmoothQuadraticMeantIff(env: Env, before: State, args: seq<real>)
    requires Ready(before) && !IsClose(before.cmd) && |args| >= 2 && AtCurrent(Fire(env, before))
    ensures var s := Fire(env, before).(cmd := 'T', args := args);
            var c := Fire(env, s).cp2;
            (if IsQuadratic(before.cmd) then Midpoint(s.cp, c, s.cp2) else c == s.cp)
            <==> !IsCubic(before.cmd) || s.cp2 == s.cp
  {
    var s := Fire(env, before).(cmd := 'T', args := args);
    SmoothQuadraticDraws(env, s);
  }
}

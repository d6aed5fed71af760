/** SVG path data: the point buffer operations and the command machine of nsvg__parsePath,
    over the items the lexer delivers. */
module SvgPath {
  import opened SvgGeometry
  import opened SvgBoxes

  /** One cubic of an arc approximation: its control points and its end. */
  datatype Bend = Bend(c1: Point, c2: Point, to: Point)

  /** What parsing depends on besides the text: the current transform, a square root for bounds, and
      the arc geometry, given start, absolute end, radii, rotation and the two flags. */
  datatype Env = Env(xform: Xform, sqrt: real -> real,
                     arc: (Point, Point, real, real, real, bool, bool) -> seq<Bend>)

  datatype Item = Number(v: real) | Command(c: char)

  // ---------------------------------------------------------------- the point buffer

  function MoveTo(pts: seq<Point>, p: Point): seq<Point> {
    if pts == [] then [p] else pts[|pts| - 1 := p]
  }

  /** A line is stored as a cubic with its control points at one and two thirds. */
  function LineTo(pts: seq<Point>, p: Point): seq<Point> {
    if pts == [] then [] else
      var q := pts[|pts| - 1];
      var dx, dy := p.x - q.x, p.y - q.y;
      pts + [Point(q.x + dx / 3.0, q.y + dy / 3.0), Point(p.x - dx / 3.0, p.y - dy / 3.0), p]
  }

  function CubicTo(pts: seq<Point>, c1: Point, c2: Point, p: Point): seq<Point> {
    if pts == [] then [] else pts + [c1, c2, p]
  }

  function Bends(pts: seq<Point>, bends: seq<Bend>): seq<Point>
    decreases |bends|
  {
    if bends == [] then pts else Bends(CubicTo(pts, bends[0].c1, bends[0].c2, bends[0].to), bends[1..])
  }

  function XformPoints(m: Xform, pts: seq<Point>): (r: seq<Point>)
    ensures |r| == |pts|
  {
    seq(|pts|, i requires 0 <= i < |pts| => XformPoint(m, pts[i]))
  }

  /** nsvg__addPath: the paths afterwards, latest first. */
  function Commit(env: Env, pts: seq<Point>, closed: bool, plist: seq<Path>): seq<Path> {
    if |pts| < 4 then plist
    else
      var all := if closed then LineTo(pts, pts[0]) else pts;
      if |all| % 3 != 1 then plist
      else
        var mapped := XformPoints(env.xform, all);
        [Path(mapped, closed, PathBox(mapped, env.sqrt))] + plist
  }

  // ---------------------------------------------------------------- the command machine

  const NO_COMMAND := '\0'

  datatype State = State(
    pts: seq<Point>, plist: seq<Path>, cp: Point, cp2: Point,
    cmd: char, args: seq<real>, rargs: nat, init: bool, closed: bool)

  function Start(plist: seq<Path>): State {
    State([], plist, Point(0.0, 0.0), Point(0.0, 0.0), NO_COMMAND, [], 0, false, false)
  }

  function ArgsPerElement(cmd: char): int {
    match cmd
    case 'v' => 1 case 'V' => 1 case 'h' => 1 case 'H' => 1
    case 'm' => 2 case 'M' => 2 case 'l' => 2 case 'L' => 2 case 't' => 2 case 'T' => 2
    case 'q' => 4 case 'Q' => 4 case 's' => 4 case 'S' => 4
    case 'c' => 6 case 'C' => 6
    case 'a' => 7 case 'A' => 7
    case 'z' => 0 case 'Z' => 0
    case _ => -1
  }

  function Plus(p: Point, x: real, y: real): Point { Point(p.x + x, p.y + y) }

  /** A pair of arguments, relative to the current point or not. */
  function Target(rel: bool, cp: Point, x: real, y: real): Point {
    if rel then Plus(cp, x, y) else Point(x, y)
  }

  /** The control point mirrored in the current point. */
  function Reflect(cp: Point, cp2: Point): Point {
    Point(2.0 * cp.x - cp2.x, 2.0 * cp.y - cp2.y)
  }

  /** A control point of the cubic equal to a quadratic with control c, next to the end p. */
  function Raise(p: Point, c: Point): Point {
    Point(p.x + 2.0 / 3.0 * (c.x - p.x), p.y + 2.0 / 3.0 * (c.y - p.y))
  }

  function QuadTo(pts: seq<Point>, from: Point, c: Point, to: Point): seq<Point> {
    CubicTo(pts, Raise(from, c), Raise(to, c), to)
  }

  /** An arc with a vanishing chord or radius degenerates to a line. */
  predicate Degenerate(from: Point, to: Point, rx: real, ry: real) {
    (from.x - to.x) * (from.x - to.x) + (from.y - to.y) * (from.y - to.y) < 0.000000000001
    || rx < 0.000001 || ry < 0.000001
  }

  function ArcTo(env: Env, pts: seq<Point>, from: Point, to: Point, args: seq<real>): seq<Point>
    requires |args| >= 5
  {
    var rx, ry := Abs(args[0]), Abs(args[1]);
    if Degenerate(from, to, rx, ry) then LineTo(pts, to)
    else Bends(pts, env.arc(from, to, rx, ry, args[2], Abs(args[3]) > 0.000001, Abs(args[4]) > 0.000001))
  }

  predicate IsMove(c: char) { c == 'm' || c == 'M' }

  predicate IsClose(c: char) { c == 'z' || c == 'Z' }

  predicate IsRelative(c: char) { 'a' <= c <= 'z' }

  /** The state moved to p, with no control point to reflect. */
  function Moved(s: State, pts: seq<Point>, p: Point): State {
    s.(pts := pts, cp := p, cp2 := p)
  }

  /** A command that has all its arguments. */
  function Fire(env: Env, s: State): State
    requires ArgsPerElement(s.cmd) >= 0 && |s.args| >= ArgsPerElement(s.cmd)
  {
    var a, cp, rel := s.args, s.cp, IsRelative(s.cmd);
    match s.cmd
    case 'm' => FireMove(s, 'l')
    case 'M' => FireMove(s, 'L')
    case 'l' => FireLine(s)
    case 'L' => FireLine(s)
    case 'h' => Moved(s, LineTo(s.pts, Point(cp.x + a[0], cp.y)), Point(cp.x + a[0], cp.y))
    case 'H' => Moved(s, LineTo(s.pts, Point(a[0], cp.y)), Point(a[0], cp.y))
    case 'v' => Moved(s, LineTo(s.pts, Point(cp.x, cp.y + a[0])), Point(cp.x, cp.y + a[0]))
    case 'V' => Moved(s, LineTo(s.pts, Point(cp.x, a[0])), Point(cp.x, a[0]))
    case 'c' => FireCubic(s)
    case 'C' => FireCubic(s)
    case 's' => FireSmoothCubic(s)
    case 'S' => FireSmoothCubic(s)
    case 'q' => FireQuad(s)
    case 'Q' => FireQuad(s)
    case 't' => FireSmoothQuad(s)
    case 'T' => FireSmoothQuad(s)
    case 'a' => FireArc(env, s)
    case 'A' => FireArc(env, s)
    case _ =>
      if |a| >= 2 then
        var p := Point(a[|a| - 2], a[|a| - 1]);
        s.(cp := p, cp2 := p)
      else s
  }

  function FireMove(s: State, next: char): State
    requires |s.args| >= 2
  {
    var p := Target(IsRelative(s.cmd), s.cp, s.args[0], s.args[1]);
    Moved(s, MoveTo(s.pts, p), p).(cmd := next, rargs := 2, init := true)
  }

  function FireLine(s: State): State
    requires |s.args| >= 2
  {
    var p := Target(IsRelative(s.cmd), s.cp, s.args[0], s.args[1]);
    Moved(s, LineTo(s.pts, p), p)
  }

  function FireCubic(s: State): State
    requires |s.args| >= 6
  {
    var a, rel := s.args, IsRelative(s.cmd);
    var c1, c2, p := Target(rel, s.cp, a[0], a[1]), Target(rel, s.cp, a[2], a[3]), Target(rel, s.cp, a[4], a[5]);
    s.(pts := CubicTo(s.pts, c1, c2, p), cp := p, cp2 := c2)
  }

  function FireSmoothCubic(s: State): State
    requires |s.args| >= 4
  {
    var a, rel := s.args, IsRelative(s.cmd);
    var c2, p := Target(rel, s.cp, a[0], a[1]), Target(rel, s.cp, a[2], a[3]);
    s.(pts := CubicTo(s.pts, Reflect(s.cp, s.cp2), c2, p), cp := p, cp2 := c2)
  }

  function FireQuad(s: State): State
    requires |s.args| >= 4
  {
    var a, rel := s.args, IsRelative(s.cmd);
    var c, p := Target(rel, s.cp, a[0], a[1]), Target(rel, s.cp, a[2], a[3]);
    s.(pts := QuadTo(s.pts, s.cp, c, p), cp := p, cp2 := c)
  }

  function FireSmoothQuad(s: State): State
    requires |s.args| >= 2
  {
    var p := Target(IsRelative(s.cmd), s.cp, s.args[0], s.args[1]);
    var c := Reflect(s.cp, s.cp2);
    s.(pts := QuadTo(s.pts, s.cp, c, p), cp := p, cp2 := c)
  }

  function FireArc(env: Env, s: State): State
    requires |s.args| >= 7
  {
    var p := Target(IsRelative(s.cmd), s.cp, s.args[5], s.args[6]);
    Moved(s, ArcTo(env, s.pts, s.cp, p, s.args), p)
  }

  function TakeNumber(env: Env, s: State, v: real): State
    requires Consistent(s)
  {
    if s.cmd == NO_COMMAND then s.(rargs := 0)
    else
      var args := if |s.args| < 10 then s.args + [v] else s.args;
      if |args| >= s.rargs then Fire(env, s.(args := args)).(args := []) else s.(args := args)
  }

  /** The number of arguments awaited is the one of the current command. */
  predicate Consistent(s: State) {
    s.cmd != NO_COMMAND ==> s.rargs == ArgsPerElement(s.cmd)
  }

  function Select(env: Env, s: State, c: char): State {
    if IsMove(c) then
      s.(cmd := c, plist := if |s.pts| > 0 then Commit(env, s.pts, s.closed, s.plist) else s.plist,
         pts := [], closed := false, args := [])
    else if !s.init then s.(cmd := NO_COMMAND)
    else s.(cmd := c)
  }

  function Close(env: Env, s: State): State {
    var t := if |s.pts| > 0 then
               s.(cp := s.pts[0], cp2 := s.pts[0], plist := Commit(env, s.pts, true, s.plist))
             else s;
    t.(pts := [t.cp], closed := false, args := [])
  }

  function TakeCommand(env: Env, s: State, c: char): State {
    var t := Select(env, s, c);
    var u := if IsClose(t.cmd) then Close(env, t) else t;
    var n := ArgsPerElement(u.cmd);
    if n == -1 then u.(cmd := NO_COMMAND, rargs := 0) else u.(rargs := n)
  }

  function Step(env: Env, s: State, item: Item): State
    requires Consistent(s)
  {
    match item
    case Number(v) => TakeNumber(env, s, v)
    case Command(c) => TakeCommand(env, s, c)
  }

  lemma StepConsistent(env: Env, s: State, item: Item)
    requires Consistent(s)
    ensures Consistent(Step(env, s, item))
  {
  }

  function Run(env: Env, s: State, items: seq<Item>): State
    requires Consistent(s)
    decreases |items|
  {
    if items == [] then s
    else
      StepConsistent(env, s, items[0]);
      Run(env, Step(env, s, items[0]), items[1..])
  }

  /** The last commit, after the items have run out. */
  function Finish(env: Env, s: State): seq<Path> {
    if |s.pts| > 0 then Commit(env, s.pts, s.closed, s.plist) else s.plist
  }

  function ParseItems(env: Env, plist: seq<Path>, items: seq<Item>): seq<Path> {
    Finish(env, Run(env, Start(plist), items))
  }

  // ---------------------------------------------------------------- what every state keeps

  predicate GoodPoints(pts: seq<Point>) {
    pts == [] || |pts| % 3 == 1
  }

  ghost predicate GoodPaths(env: Env, plist: seq<Path>) {
    forall p | p in plist :: ValidPath(p, env.sqrt)
  }

  /** npts is 0 or 1 modulo 3, at most six arguments wait, and every stored path has 1 + 3n points and
      its own bounding box. */
  ghost predicate Wf(env: Env, s: State) {
    && Consistent(s) && GoodPoints(s.pts) && GoodPaths(env, s.plist) && |s.args| <= 6
    && ArgsPerElement(s.cmd) >= (if s.cmd == NO_COMMAND then -1 else 0)
    && (IsClose(s.cmd) ==> s.args == [])
    && (s.cmd != NO_COMMAND && !IsMove(s.cmd) ==> s.init)
  }

  lemma {:induction false} BendsKeep(pts: seq<Point>, bends: seq<Bend>)
    requires GoodPoints(pts)
    ensures GoodPoints(Bends(pts, bends))
    decreases |bends|
  {
    if bends != [] {
      BendsKeep(CubicTo(pts, bends[0].c1, bends[0].c2, bends[0].to), bends[1..]);
    }
  }

  /** The guard on the number of points never discards a path. */
  lemma CommitStores(env: Env, pts: seq<Point>, closed: bool, plist: seq<Path>)
    requires GoodPoints(pts) && GoodPaths(env, plist)
    ensures GoodPaths(env, Commit(env, pts, closed, plist))
    ensures |Commit(env, pts, closed, plist)| == |plist| + (if |pts| >= 4 then 1 else 0)
  {
  }

  lemma ArcKeeps(env: Env, pts: seq<Point>, from: Point, to: Point, args: seq<real>)
    requires GoodPoints(pts) && |args| >= 5
    ensures GoodPoints(ArcTo(env, pts, from, to, args))
  {
    var large, sweep := Abs(args[3]) > 0.000001, Abs(args[4]) > 0.000001;
    BendsKeep(pts, env.arc(from, to, Abs(args[0]), Abs(args[1]), args[2], large, sweep));
  }

  lemma BuildersKeep(pts: seq<Point>)
    requires GoodPoints(pts)
    ensures forall p :: GoodPoints(LineTo(pts, p)) && GoodPoints(MoveTo(pts, p))
    ensures forall c1, c2, p :: GoodPoints(CubicTo(pts, c1, c2, p))
  {
  }

  /** What firing leaves alone, and the two ways it changes the command. */
  lemma FireShape(env: Env, s: State)
    requires ArgsPerElement(s.cmd) >= 1 && |s.args| >= ArgsPerElement(s.cmd) && GoodPoints(s.pts)
    ensures var t := Fire(env, s); GoodPoints(t.pts) && t.plist == s.plist && t.args == s.args
    ensures var t := Fire(env, s);
            if IsMove(s.cmd) then t.cmd in "lL" && t.rargs == 2 && t.init
            else t.cmd == s.cmd && t.rargs == s.rargs && t.init == s.init
  {
    hide ArcTo, Target, Raise, Reflect, LineTo, CubicTo, MoveTo, GoodPoints;
    BuildersKeep(s.pts);
    if s.cmd in "aA" {
      ArcKeeps(env, s.pts, s.cp, Target(IsRelative(s.cmd), s.cp, s.args[5], s.args[6]), s.args);
    }
  }

  lemma FireKeeps(env: Env, s: State)
    requires Wf(env, s.(args := [])) && s.cmd != NO_COMMAND && |s.args| >= s.rargs
    requires IsClose(s.cmd) ==> |s.args| == 1
    ensures Wf(env, Fire(env, s).(args := []))
  {
    if !IsClose(s.cmd) {
      FireShape(env, s);
    }
  }

  /** What Select and Close keep; only the argument count is still that of the previous command. */
  ghost predicate Half(env: Env, s: State) {
    && GoodPoints(s.pts) && GoodPaths(env, s.plist) && |s.args| <= 6
    && (s.cmd != NO_COMMAND && !IsMove(s.cmd) ==> s.init)
  }

  lemma SelectKeeps(env: Env, s: State, c: char)
    requires Wf(env, s)
    ensures Half(env, Select(env, s, c))
  {
    CommitStores(env, s.pts, s.closed, s.plist);
  }

  lemma CloseKeeps(env: Env, s: State)
    requires Half(env, s)
    ensures Half(env, Close(env, s)) && Close(env, s).args == [] && Close(env, s).cmd == s.cmd
  {
    CommitStores(env, s.pts, true, s.plist);
  }

  lemma CommandKeeps(env: Env, s: State, c: char)
    requires Wf(env, s)
    ensures Wf(env, TakeCommand(env, s, c))
  {
    SelectKeeps(env, s, c);
    CloseKeeps(env, Select(env, s, c));
  }

  lemma StepKeeps(env: Env, s: State, item: Item)
    requires Wf(env, s)
    ensures Wf(env, Step(env, s, item))
  {
    match item {
      case Command(c) => CommandKeeps(env, s, c);
      case Number(v) =>
        if s.cmd != NO_COMMAND {
          var t := s.(args := s.args + [v]);
          if |t.args| >= t.rargs {
            assert t.(args := []) == s.(args := []);
            FireKeeps(env, t);
          }
        }
    }
  }

  lemma {:induction false} RunKeeps(env: Env, s: State, items: seq<Item>)
    requires Wf(env, s)
    ensures Wf(env, Run(env, s, items))
    decreases |items|
  {
    if items != [] {
      StepKeeps(env, s, items[0]);
      RunKeeps(env, Step(env, s, items[0]), items[1..]);
    }
  }

  /** Whatever the items: a stored path always has 1 + 3n points, n >= 1, with the right box; between
      items at most six arguments wait; and the final commit stores a path if and only if it has a segment. */
  lemma PathsAreWellFormed(env: Env, plist: seq<Path>, items: seq<Item>)
    requires GoodPaths(env, plist)
    ensures GoodPaths(env, ParseItems(env, plist, items))
    ensures var s := Run(env, Start(plist), items);
            |s.args| <= 6 && |Finish(env, s)| == |s.plist| + (if |s.pts| >= 4 then 1 else 0)
  {
    RunKeeps(env, Start(plist), items);
    var s := Run(env, Start(plist), items);
    CommitStores(env, s.pts, s.closed, s.plist);
  }

  /** A number after closepath is ignored: the branch that would move the current point is dead. */
  lemma NumberAfterClose(env: Env, s: State, v: real)
    requires Wf(env, s) && IsClose(s.cmd)
    ensures Step(env, s, Number(v)) == s
  {
  }

  // ---------------------------------------------------------------- absolute form

  function Numbers(vs: seq<real>): (items: seq<Item>)
    ensures |items| == |vs|
  {
    seq(|vs|, i requires 0 <= i < |vs| => Number(vs[i]))
  }

  function Upper(c: char): char {
    match c
    case 'm' => 'M' case 'l' => 'L' case 'h' => 'H' case 'v' => 'V' case 'c' => 'C'
    case 's' => 'S' case 'q' => 'Q' case 't' => 'T' case 'a' => 'A' case 'z' => 'Z'
    case _ => c
  }

  /** The arguments of the pending command, made absolute. */
  function AbsoluteArgs(s: State): seq<real>
    requires ArgsPerElement(s.cmd) >= 0 && |s.args| >= ArgsPerElement(s.cmd)
  {
    var a, cp, rel := s.args, s.cp, IsRelative(s.cmd);
    var dx, dy := if rel then cp.x else 0.0, if rel then cp.y else 0.0;
    match Upper(s.cmd)
    case 'H' => [dx + a[0]]
    case 'V' => [dy + a[0]]
    case 'C' => [dx + a[0], dy + a[1], dx + a[2], dy + a[3], dx + a[4], dy + a[5]]
    case 'S' => [dx + a[0], dy + a[1], dx + a[2], dy + a[3]]
    case 'Q' => [dx + a[0], dy + a[1], dx + a[2], dy + a[3]]
    case 'A' => [a[0], a[1], a[2], a[3], a[4], dx + a[5], dy + a[6]]
    case 'Z' => []
    case _ => [dx + a[0], dy + a[1]]
  }

  /** What a step contributes to the absolute form: a command letter whenever a command has all its
      arguments, a moveto or closepath letter when it arrives, and nothing for anything ignored. */
  function Emit(s: State, item: Item): seq<Item>
    requires Consistent(s) && (s.cmd != NO_COMMAND ==> ArgsPerElement(s.cmd) >= 0)
  {
    match item
    case Command(c) =>
      if IsMove(c) then [Command('M')] else if s.init && IsClose(c) then [Command('Z')] else []
    case Number(v) =>
      if s.cmd == NO_COMMAND || IsClose(s.cmd) then []
      else
        var t := s.(args := if |s.args| < 10 then s.args + [v] else s.args);
        if |t.args| < t.rargs then []
        else if IsMove(s.cmd) then Numbers(AbsoluteArgs(t))
        else [Command(Upper(s.cmd))] + Numbers(AbsoluteArgs(t))
  }

  function Absolute(env: Env, s: State, items: seq<Item>): seq<Item>
    requires Wf(env, s)
    decreases |items|
  {
    if items == [] then []
    else
      StepKeeps(env, s, items[0]);
      Emit(s, items[0]) + Absolute(env, Step(env, s, items[0]), items[1..])
  }

  predicate IsAbsolute(item: Item) {
    item.Command? ==> item.c in "MLHVCSQTAZ"
  }

  /** The absolute machine t keeps step with s: everything but the pending command is the same. */
  predicate InStep(s: State, t: State) {
    && t.pts == s.pts && t.plist == s.plist && t.cp == s.cp && t.cp2 == s.cp2
    && t.init == s.init && t.closed == s.closed && t.args == []
    && (IsMove(s.cmd) ==> t.cmd == 'M')
  }

  lemma {:induction false} RunAppend(env: Env, s: State, a: seq<Item>, b: seq<Item>)
    requires Wf(env, s)
    ensures Consistent(Run(env, s, a)) && Run(env, s, a + b) == Run(env, Run(env, s, a), b)
    decreases |a|
  {
    hide Step, GoodPoints, GoodPaths, ArgsPerElement;
    if a == [] {
      assert a + b == b;
    } else {
      StepKeeps(env, s, a[0]);
      RunAppend(env, Step(env, s, a[0]), a[1..], b);
      assert (a + b)[1..] == a[1..] + b;
    }
  }

  /** Feeding exactly the arguments a command awaits fires it. */
  lemma {:induction false} FeedNumbers(env: Env, t: State, vs: seq<real>)
    requires Wf(env, t) && t.cmd != NO_COMMAND && vs != [] && |t.args| + |vs| == t.rargs
    ensures Run(env, t, Numbers(vs)) == Fire(env, t.(args := t.args + vs)).(args := [])
    decreases |vs|
  {
    var items := Numbers(vs);
    var u := Step(env, t, items[0]);
    StepKeeps(env, t, items[0]);
    assert items[1..] == Numbers(vs[1..]);
    assert t.args + vs == (t.args + [vs[0]]) + vs[1..];
    if |vs| > 1 {
      assert u == t.(args := t.args + [vs[0]]);
      FeedNumbers(env, u, vs[1..]);
    } else {
      assert t.args + [vs[0]] == t.args + vs;
      assert Run(env, u, []) == u;
    }
  }

  predicate SameDrawing(s: State, t: State) {
    && t.pts == s.pts && t.plist == s.plist && t.cp == s.cp && t.cp2 == s.cp2
    && t.init == s.init && t.closed == s.closed
  }

  lemma UpperArgs(c: char)
    requires ArgsPerElement(c) >= 0
    ensures ArgsPerElement(Upper(c)) == ArgsPerElement(c) && !IsRelative(Upper(c))
  {
  }

  lemma LinesAgree(s: State, t: State)
    requires SameDrawing(s, t) && t.cmd == Upper(s.cmd) && s.cmd in "mMlL"
    requires |s.args| >= ArgsPerElement(s.cmd) && t.args == AbsoluteArgs(s)
    ensures forall env :: SameDrawing(Fire(env, s), Fire(env, t))
  {
    assert Target(IsRelative(s.cmd), s.cp, s.args[0], s.args[1]) == Target(false, t.cp, t.args[0], t.args[1]);
  }

  lemma AxesAgree(s: State, t: State)
    requires SameDrawing(s, t) && t.cmd == Upper(s.cmd) && s.cmd in "hHvV"
    requires |s.args| >= ArgsPerElement(s.cmd) && t.args == AbsoluteArgs(s)
    ensures forall env :: SameDrawing(Fire(env, s), Fire(env, t))
  {
  }

  lemma CurvesAgree(s: State, t: State)
    requires SameDrawing(s, t) && t.cmd == Upper(s.cmd) && s.cmd in "cCsS"
    requires |s.args| >= ArgsPerElement(s.cmd) && t.args == AbsoluteArgs(s)
    ensures forall env :: SameDrawing(Fire(env, s), Fire(env, t))
  {
  }

  lemma QuadsAgree(s: State, t: State)
    requires SameDrawing(s, t) && t.cmd == Upper(s.cmd) && s.cmd in "qQtT"
    requires |s.args| >= ArgsPerElement(s.cmd) && t.args == AbsoluteArgs(s)
    ensures forall env :: SameDrawing(Fire(env, s), Fire(env, t))
  {
  }

  lemma ArcsAgree(env: Env, s: State, t: State)
    requires SameDrawing(s, t) && t.cmd == Upper(s.cmd) && s.cmd in "aA"
    requires |s.args| >= ArgsPerElement(s.cmd) && t.args == AbsoluteArgs(s)
    ensures SameDrawing(Fire(env, s), Fire(env, t))
  {
    var a, b := s.args, t.args;
    assert a[0] == b[0] && a[1] == b[1] && a[2] == b[2] && a[3] == b[3] && a[4] == b[4];
    var p := Target(IsRelative(s.cmd), s.cp, a[5], a[6]);
    assert p == Target(false, t.cp, b[5], b[6]);
    assert ArcTo(env, s.pts, s.cp, p, a) == ArcTo(env, t.pts, t.cp, p, b);
  }

  /** A command with absolute arguments draws what the relative one drew. */
  lemma FireAgrees(env: Env, s: State, t: State)
    requires ArgsPerElement(s.cmd) >= 1 && |s.args| >= ArgsPerElement(s.cmd)
    requires SameDrawing(s, t) && t.cmd == Upper(s.cmd) && t.args == AbsoluteArgs(s)
    ensures SameDrawing(Fire(env, s), Fire(env, t))
  {
    if s.cmd in "mMlL" {
      LinesAgree(s, t);
    } else if s.cmd in "hHvV" {
      AxesAgree(s, t);
    } else if s.cmd in "cCsS" {
      CurvesAgree(s, t);
    } else if s.cmd in "qQtT" {
      QuadsAgree(s, t);
    } else {
      ArcsAgree(env, s, t);
    }
  }

  /** The absolute machine after reading the letter of a command that is about to fire. */
  lemma ReadLetter(env: Env, s: State, t: State)
    requires Wf(env, s) && Wf(env, t) && InStep(s, t) && s.cmd != NO_COMMAND && !IsClose(s.cmd)
    ensures var t1 := Run(env, t, Letter(s.cmd));
            Wf(env, t1) && t1.cmd == Upper(s.cmd) && t1.args == [] && SameDrawing(s, t1)
  {
    RunKeeps(env, t, Letter(s.cmd));
    UpperArgs(s.cmd);
    if !IsMove(s.cmd) {
      var u := Upper(s.cmd);
      assert Letter(s.cmd)[1..] == [];
      assert Run(env, t, Letter(s.cmd)) == Step(env, t, Command(u));
      assert !IsMove(u) && !IsClose(u);
      assert Select(env, t, u) == t.(cmd := u);
    }
  }

  function Letter(cmd: char): seq<Item> {
    if IsMove(cmd) then [] else [Command(Upper(cmd))]
  }

  lemma FiredStep(env: Env, s: State, v: real)
    requires Wf(env, s) && s.cmd != NO_COMMAND && !IsClose(s.cmd) && |s.args| + 1 >= s.rargs
    ensures var s1 := s.(args := s.args + [v]);
            && Step(env, s, Number(v)) == Fire(env, s1).(args := [])
            && Emit(s, Number(v)) == Letter(s.cmd) + Numbers(AbsoluteArgs(s1))
            && |AbsoluteArgs(s1)| == s.rargs > 0
  {
  }

  lemma EmitNumber(env: Env, s: State, t: State, v: real)
    requires Wf(env, s) && Wf(env, t) && InStep(s, t) && s.cmd != NO_COMMAND && !IsClose(s.cmd)
    requires |s.args| + 1 >= s.rargs
    ensures Wf(env, Run(env, t, Emit(s, Number(v)))) && InStep(Step(env, s, Number(v)), Run(env, t, Emit(s, Number(v))))
  {
    var s1 := s.(args := s.args + [v]);
    var abs := AbsoluteArgs(s1);
    FiredStep(env, s, v);
    ReadLetter(env, s, t);
    var t1 := Run(env, t, Letter(s.cmd));
    RunAppend(env, t, Letter(s.cmd), Numbers(abs));
    RunKeeps(env, t1, Numbers(abs));
    UpperArgs(s.cmd);
    assert t1.args + abs == abs;
    FeedNumbers(env, t1, abs);
    FireBoth(env, s1, t1.(args := abs));
  }

  lemma FireBoth(env: Env, s: State, t: State)
    requires ArgsPerElement(s.cmd) >= 1 && |s.args| >= ArgsPerElement(s.cmd) && GoodPoints(s.pts)
    requires SameDrawing(s, t) && t.cmd == Upper(s.cmd) && t.args == AbsoluteArgs(s)
    ensures |t.args| >= ArgsPerElement(t.cmd) >= 1
    ensures InStep(Fire(env, s).(args := []), Fire(env, t).(args := []))
  {
    UpperArgs(s.cmd);
    FireAgrees(env, s, t);
    FireShape(env, s);
  }

  lemma OneItem(env: Env, t: State, item: Item)
    requires Wf(env, t)
    ensures Run(env, t, [item]) == Step(env, t, item) && Wf(env, Step(env, t, item))
  {
    StepKeeps(env, t, item);
    assert [item][1..] == [];
  }

  lemma EmitMove(env: Env, s: State, t: State, c: char)
    requires Wf(env, s) && Wf(env, t) && InStep(s, t) && IsMove(c)
    ensures InStep(TakeCommand(env, s, c), TakeCommand(env, t, 'M'))
  {
  }

  lemma EmitClose(env: Env, s: State, t: State, c: char)
    requires Wf(env, s) && Wf(env, t) && InStep(s, t) && IsClose(c) && s.init
    ensures InStep(TakeCommand(env, s, c), TakeCommand(env, t, 'Z'))
  {
    var s1, t1 := Select(env, s, c), Select(env, t, 'Z');
    assert s1 == s.(cmd := c) && t1 == t.(cmd := 'Z');
    assert SameDrawing(Close(env, s1), Close(env, t1));
  }

  lemma EmitNothing(env: Env, s: State, t: State, c: char)
    requires Wf(env, s) && InStep(s, t) && !IsMove(c) && !(IsClose(c) && s.init)
    ensures InStep(TakeCommand(env, s, c), t)
  {
  }

  lemma EmitCommand(env: Env, s: State, t: State, c: char)
    requires Wf(env, s) && Wf(env, t) && InStep(s, t)
    ensures Wf(env, Run(env, t, Emit(s, Command(c))))
    ensures InStep(Step(env, s, Command(c)), Run(env, t, Emit(s, Command(c))))
  {
    if IsMove(c) {
      OneItem(env, t, Command('M'));
      EmitMove(env, s, t, c);
    } else if s.init && IsClose(c) {
      OneItem(env, t, Command('Z'));
      EmitClose(env, s, t, c);
    } else {
      EmitNothing(env, s, t, c);
    }
  }

  lemma EmitStep(env: Env, s: State, t: State, item: Item)
    requires Wf(env, s) && Wf(env, t) && InStep(s, t)
    ensures Wf(env, Run(env, t, Emit(s, item))) && InStep(Step(env, s, item), Run(env, t, Emit(s, item)))
  {
    match item {
      case Command(c) => EmitCommand(env, s, t, c);
      case Number(v) =>
        if s.cmd != NO_COMMAND && !IsClose(s.cmd) && |s.args| + 1 >= s.rargs {
          EmitNumber(env, s, t, v);
        } else {
          assert Emit(s, item) == [];
          if IsClose(s.cmd) {
            NumberAfterClose(env, s, v);
          }
        }
    }
  }

  lemma {:induction false} AbsoluteRuns(env: Env, s: State, t: State, items: seq<Item>)
    requires Wf(env, s) && Wf(env, t) && InStep(s, t)
    ensures InStep(Run(env, s, items), Run(env, t, Absolute(env, s, items)))
    decreases |items|
  {
    if items != [] {
      var head := Emit(s, items[0]);
      EmitStep(env, s, t, items[0]);
      StepKeeps(env, s, items[0]);
      RunAppend(env, t, head, Absolute(env, Step(env, s, items[0]), items[1..]));
      AbsoluteRuns(env, Step(env, s, items[0]), Run(env, t, head), items[1..]);
    }
  }

  /** For every sequence of items, well formed or not, the absolute form draws the same paths and leaves
      the same points pending and the same current and control points. */
  lemma AbsoluteFormDrawsSame(env: Env, plist: seq<Path>, items: seq<Item>)
    requires GoodPaths(env, plist)
    ensures ParseItems(env, plist, Absolute(env, Start(plist), items)) == ParseItems(env, plist, items)
    ensures SameDrawing(Run(env, Start(plist), items), Run(env, Start(plist), Absolute(env, Start(plist), items)))
  {
    AbsoluteRuns(env, Start(plist), Start(plist), items);
  }

  lemma {:induction false} AbsoluteFormIsAbsolute(env: Env, s: State, items: seq<Item>)
    requires Wf(env, s)
    ensures forall item | item in Absolute(env, s, items) :: IsAbsolute(item)
    decreases |items|
  {
    if items != [] {
      StepKeeps(env, s, items[0]);
      AbsoluteFormIsAbsolute(env, Step(env, s, items[0]), items[1..]);
      EmitIsAbsolute(s, items[0]);
    }
  }

  lemma EmitIsAbsolute(s: State, item: Item)
    requires Consistent(s) && (s.cmd != NO_COMMAND ==> ArgsPerElement(s.cmd) >= 0)
    ensures forall x | x in Emit(s, item) :: IsAbsolute(x)
  {
  }
}

/** The parser object's point buffer and the path builders that fill it in place, each proved against
    the functions of SvgPath. */
module SvgPathParser {
  import opened SvgGeometry
  import opened SvgBounds
  import opened SvgBoxes
  import P = SvgPath
  import L = SvgLexer

  class Parser {
    var pts: array<Point>
    var npts: nat
    var cpts: nat
    /** Stored paths, latest first. */
    var plist: seq<Path>

    ghost predicate Valid()
      reads this
    {
      pts.Length == cpts && npts <= cpts
    }

    ghost function Points(): seq<Point>
      reads this, pts
      requires Valid()
    {
      pts[..npts]
    }

    constructor ()
      ensures Valid() && fresh(pts) && Points() == [] && plist == []
    {
      pts := new Point[0];
      npts, cpts, plist := 0, 0, [];
    }

    method ResetPath()
      requires Valid()
      modifies this`npts
      ensures Valid() && Points() == []
    {
      npts := 0;
    }

    /** The buffer doubles when it is full, starting from eight points. */
    method AddPoint(p: Point)
      requires Valid()
      modifies this`pts, this`npts, this`cpts, pts
      ensures Valid() && (pts == old(pts) || fresh(pts))
      ensures Points() == old(Points()) + [p]
      ensures cpts == if old(npts) < old(cpts) then old(cpts) else if old(cpts) == 0 then 8 else 2 * old(cpts)
    {
      if npts + 1 > cpts {
        cpts := if cpts != 0 then cpts * 2 else 8;
        var bigger := new Point[cpts];
        var i := 0;
        while i < npts
          invariant 0 <= i <= npts <= bigger.Length
          invariant bigger[..i] == pts[..i]
          modifies bigger
        {
          bigger[i] := pts[i];
          i := i + 1;
        }
        pts := bigger;
      }
      pts[npts] := p;
      npts := npts + 1;
    }

    method MoveTo(p: Point)
      requires Valid()
      modifies this`pts, this`npts, this`cpts, pts
      ensures Valid() && (pts == old(pts) || fresh(pts))
      ensures Points() == P.MoveTo(old(Points()), p)
    {
      if npts > 0 {
        pts[npts - 1] := p;
      } else {
        AddPoint(p);
      }
    }

    method LineTo(p: Point)
      requires Valid()
      modifies this`pts, this`npts, this`cpts, pts
      ensures Valid() && (pts == old(pts) || fresh(pts))
      ensures Points() == P.LineTo(old(Points()), p)
    {
      if npts > 0 {
        var q := pts[npts - 1];
        var dx, dy := p.x - q.x, p.y - q.y;
        AddPoint(Point(q.x + dx / 3.0, q.y + dy / 3.0));
        AddPoint(Point(p.x - dx / 3.0, p.y - dy / 3.0));
        AddPoint(p);
      }
    }

    method CubicBezTo(c1: Point, c2: Point, p: Point)
      requires Valid()
      modifies this`pts, this`npts, this`cpts, pts
      ensures Valid() && (pts == old(pts) || fresh(pts))
      ensures Points() == P.CubicTo(old(Points()), c1, c2, p)
    {
      if npts > 0 {
        AddPoint(c1);
        AddPoint(c2);
        AddPoint(p);
      }
    }

    method BendTo(bends: seq<P.Bend>)
      requires Valid()
      modifies this`pts, this`npts, this`cpts, pts
      ensures Valid() && (pts == old(pts) || fresh(pts))
      ensures Points() == P.Bends(old(Points()), bends)
    {
      var i := 0;
      while i < |bends|
        invariant 0 <= i <= |bends|
        invariant Valid() && (pts == old(pts) || fresh(pts))
        invariant P.Bends(Points(), bends[i..]) == P.Bends(old(Points()), bends)
      {
        assert bends[i..][1..] == bends[i + 1..];
        CubicBezTo(bends[i].c1, bends[i].c2, bends[i].to);
        i := i + 1;
      }
    }

    /** Stores the pending points as a path, mapped by the current transform, with its bounding box. */
    method AddPath(env: P.Env, closed: bool)
      requires Valid()
      modifies this, pts
      ensures Valid() && (pts == old(pts) || fresh(pts))
      ensures plist == P.Commit(env, old(Points()), closed, old(plist))
    {
      hide PathBox, XformPoint;
      if npts < 4 { return; }
      if closed {
        LineTo(pts[0]);
      }
      if npts % 3 != 1 { return; }

      var mapped := new Point[npts];
      var i := 0;
      while i < npts
        invariant 0 <= i <= npts
        invariant forall k | 0 <= k < i :: mapped[k] == XformPoint(env.xform, pts[k])
        modifies mapped
      {
        mapped[i] := XformPoint(env.xform, pts[i]);
        i := i + 1;
      }
      assert mapped[..] == P.XformPoints(env.xform, Points());

      var bounds := FindBounds(mapped, env.sqrt);
      plist := [Path(mapped[..], closed, bounds)] + plist;
    }

    static method FindBounds(curve: array<Point>, sqrt: real -> real) returns (bounds: Box)
      requires WellFormedPath(curve[..])
      ensures bounds == PathBox(curve[..], sqrt)
    {
      hide CurveBox;
      ghost var boxes := SegmentBoxes(curve[..], sqrt);
      var i := 0;
      bounds := Box(0.0, 0.0, 0.0, 0.0);
      while i < curve.Length - 1
        invariant 0 <= i <= curve.Length - 1 && i % 3 == 0
        invariant i > 0 ==> bounds == Hull(boxes[..i / 3])
      {
        var box := CurveBounds(Segment(curve[i], curve[i + 1], curve[i + 2], curve[i + 3]), sqrt);
        assert boxes[i / 3] == box;
        assert boxes[..i / 3 + 1] == boxes[..i / 3] + [box];
        bounds := if i == 0 then box else Union(bounds, box);
        i := i + 3;
      }
      assert boxes[..i / 3] == boxes;
    }

    static method CurveBounds(s: Segment, sqrt: real -> real) returns (bounds: Box)
      ensures bounds == CurveBox(s, sqrt)
    {
      bounds := EndBox(s);
      if InBox(s.v1, bounds) && InBox(s.v2, bounds) {
        return;
      }
      var xs := WidenByRoots(Range(bounds.minX, bounds.maxX), AxisX(s), sqrt);
      var ys := WidenByRoots(Range(bounds.minY, bounds.maxY), AxisY(s), sqrt);
      bounds := Box(xs.lo, ys.lo, xs.hi, ys.hi);
    }

    static method WidenByRoots(start: Range, k: Cubic, sqrt: real -> real) returns (r: Range)
      ensures r == Widen(start, Curve(k), Roots(k, sqrt))
    {
      var roots := Roots(k, sqrt);
      var j := 0;
      r := start;
      while j < |roots|
        invariant 0 <= j <= |roots|
        invariant Widen(r, Curve(k), roots[j..]) == Widen(start, Curve(k), roots)
      {
        var v := EvalBezier(roots[j], k);
        assert roots[j..][1..] == roots[j + 1..];
        r := Range(Min(r.lo, v), Max(r.hi, v));
        j := j + 1;
      }
    }

    static method Target(rel: bool, cp: Point, x: real, y: real) returns (p: Point)
      ensures p == P.Target(rel, cp, x, y)
    {
      p := if rel then Point(cp.x + x, cp.y + y) else Point(x, y);
    }

    method PathCubicBezTo(cp: Point, a: seq<real>, rel: bool) returns (p: Point, p2: Point)
      requires Valid() && |a| >= 6
      modifies this`pts, this`npts, this`cpts, pts
      ensures Valid() && (pts == old(pts) || fresh(pts))
      ensures p2 == P.Target(rel, cp, a[2], a[3]) && p == P.Target(rel, cp, a[4], a[5])
      ensures Points() == P.CubicTo(old(Points()), P.Target(rel, cp, a[0], a[1]), p2, p)
    {
      var c1 := Target(rel, cp, a[0], a[1]);
      p2 := Target(rel, cp, a[2], a[3]);
      p := Target(rel, cp, a[4], a[5]);
      CubicBezTo(c1, p2, p);
    }

    method PathCubicBezShortTo(cp: Point, cp2: Point, a: seq<real>, rel: bool) returns (p: Point, p2: Point)
      requires Valid() && |a| >= 4
      modifies this`pts, this`npts, this`cpts, pts
      ensures Valid() && (pts == old(pts) || fresh(pts))
      ensures p2 == P.Target(rel, cp, a[0], a[1]) && p == P.Target(rel, cp, a[2], a[3])
      ensures Points() == P.CubicTo(old(Points()), P.Reflect(cp, cp2), p2, p)
    {
      p2 := Target(rel, cp, a[0], a[1]);
      p := Target(rel, cp, a[2], a[3]);
      CubicBezTo(Point(2.0 * cp.x - cp2.x, 2.0 * cp.y - cp2.y), p2, p);
    }

    method PathQuadBezTo(cp: Point, a: seq<real>, rel: bool) returns (p: Point, p2: Point)
      requires Valid() && |a| >= 4
      modifies this`pts, this`npts, this`cpts, pts
      ensures Valid() && (pts == old(pts) || fresh(pts))
      ensures p2 == P.Target(rel, cp, a[0], a[1]) && p == P.Target(rel, cp, a[2], a[3])
      ensures Points() == P.QuadTo(old(Points()), cp, p2, p)
    {
      p2 := Target(rel, cp, a[0], a[1]);
      p := Target(rel, cp, a[2], a[3]);
      CubicBezTo(P.Raise(cp, p2), P.Raise(p, p2), p);
    }

    method PathQuadBezShortTo(cp: Point, cp2: Point, a: seq<real>, rel: bool) returns (p: Point, p2: Point)
      requires Valid() && |a| >= 2
      modifies this`pts, this`npts, this`cpts, pts
      ensures Valid() && (pts == old(pts) || fresh(pts))
      ensures p2 == P.Reflect(cp, cp2) && p == P.Target(rel, cp, a[0], a[1])
      ensures Points() == P.QuadTo(old(Points()), cp, p2, p)
    {
      p := Target(rel, cp, a[0], a[1]);
      p2 := Point(2.0 * cp.x - cp2.x, 2.0 * cp.y - cp2.y);
      CubicBezTo(P.Raise(cp, p2), P.Raise(p, p2), p);
    }

    method PathArcTo(env: P.Env, cp: Point, a: seq<real>, rel: bool) returns (p: Point)
      requires Valid() && |a| >= 7
      modifies this`pts, this`npts, this`cpts, pts
      ensures Valid() && (pts == old(pts) || fresh(pts))
      ensures p == P.Target(rel, cp, a[5], a[6])
      ensures Points() == P.ArcTo(env, old(Points()), cp, p, a)
    {
      var rx, ry := Abs(a[0]), Abs(a[1]);
      p := Target(rel, cp, a[5], a[6]);
      if P.Degenerate(cp, p, rx, ry) {
        LineTo(p);
      } else {
        BendTo(env.arc(cp, p, rx, ry, a[2], Abs(a[3]) > 0.000001, Abs(a[4]) > 0.000001));
      }
    }

    /** The switch of nsvg__parsePath: draws a command whose arguments are complete. */
    method Draw(env: P.Env, cmd: char, a: seq<real>, cp: Point, cp2: Point, rargs: nat, init: bool, ghost closed: bool)
      returns (cmd': char, cp': Point, cp2': Point, rargs': nat, init': bool)
      requires Valid() && P.ArgsPerElement(cmd) >= 0 && |a| >= P.ArgsPerElement(cmd)
      modifies this`pts, this`npts, this`cpts, pts
      ensures Valid() && (pts == old(pts) || fresh(pts))
      ensures P.Fire(env, P.State(old(Points()), plist, cp, cp2, cmd, a, rargs, init, closed))
           == P.State(Points(), plist, cp', cp2', cmd', a, rargs', init', closed)
    {
      cmd', cp', cp2', rargs', init' := cmd, cp, cp2, rargs, init;
      var rel := P.IsRelative(cmd);
      match cmd {
        case 'm' =>
          cp' := Target(true, cp, a[0], a[1]);
          MoveTo(cp');
          // Further coordinate pairs are treated as linetos.
          cmd', rargs', cp2', init' := 'l', 2, cp', true;
        case 'M' =>
          cp' := Target(false, cp, a[0], a[1]);
          MoveTo(cp');
          cmd', rargs', cp2', init' := 'L', 2, cp', true;
        case 'l' => cp' := Target(true, cp, a[0], a[1]); LineTo(cp'); cp2' := cp';
        case 'L' => cp' := Target(false, cp, a[0], a[1]); LineTo(cp'); cp2' := cp';
        case 'h' => cp' := Point(cp.x + a[0], cp.y); LineTo(cp'); cp2' := cp';
        case 'H' => cp' := Point(a[0], cp.y); LineTo(cp'); cp2' := cp';
        case 'v' => cp' := Point(cp.x, cp.y + a[0]); LineTo(cp'); cp2' := cp';
        case 'V' => cp' := Point(cp.x, a[0]); LineTo(cp'); cp2' := cp';
        case 'c' => cp', cp2' := PathCubicBezTo(cp, a, true);
        case 'C' => cp', cp2' := PathCubicBezTo(cp, a, false);
        case 's' => cp', cp2' := PathCubicBezShortTo(cp, cp2, a, true);
        case 'S' => cp', cp2' := PathCubicBezShortTo(cp, cp2, a, false);
        case 'q' => cp', cp2' := PathQuadBezTo(cp, a, true);
        case 'Q' => cp', cp2' := PathQuadBezTo(cp, a, false);
        case 't' => cp', cp2' := PathQuadBezShortTo(cp, cp2, a, true);
        case 'T' => cp', cp2' := PathQuadBezShortTo(cp, cp2, a, false);
        case 'a' => cp' := PathArcTo(env, cp, a, true); cp2' := cp';
        case 'A' => cp' := PathArcTo(env, cp, a, false); cp2' := cp';
        case _ =>
          if |a| >= 2 {
            cp' := Point(a[|a| - 2], a[|a| - 1]);
            cp2' := cp';
          }
      }
    }

    /** The branch of nsvg__parsePath for a command letter. */
    method Letter(env: P.Env, c: char, cp: Point, cp2: Point, a: seq<real>, rargs: nat, init: bool, closed: bool,
                  ghost cmd: char)
      returns (cmd': char, cp': Point, cp2': Point, nargs: nat, rargs': nat, closed': bool)
      requires Valid()
      modifies this, pts
      ensures Valid() && (pts == old(pts) || fresh(pts)) && nargs <= |a|
      ensures P.TakeCommand(env, P.State(old(Points()), old(plist), cp, cp2, cmd, a, rargs, init, closed), c)
           == P.State(Points(), plist, cp', cp2', cmd', a[..nargs], rargs', init, closed')
    {
      cmd', cp', cp2', nargs, closed' := c, cp, cp2, |a|, closed;
      ghost var s0 := P.State(Points(), plist, cp, cp2, cmd, a, rargs, init, closed);
      if c == 'M' || c == 'm' {
        if npts > 0 {
          AddPath(env, closed);
        }
        ResetPath();
        closed', nargs := false, 0;
      } else if !init {
        cmd' := P.NO_COMMAND;
      }
      assert P.Select(env, s0, c) == P.State(Points(), plist, cp', cp2', cmd', a[..nargs], rargs, init, closed');
      if cmd' == 'Z' || cmd' == 'z' {
        closed' := true;
        if npts > 0 {
          cp' := pts[0];
          cp2' := cp';
          AddPath(env, closed');
        }
        ResetPath();
        MoveTo(cp');
        closed', nargs := false, 0;
      }
      var n := P.ArgsPerElement(cmd');
      if n == -1 {
        cmd', rargs' := P.NO_COMMAND, 0;
      } else {
        rargs' := n;
      }
    }

    /** The branch of nsvg__parsePath for a number. */
    method Argument(env: P.Env, v: real, args: array<real>, n: nat, cmd: char, cp: Point, cp2: Point, rargs: nat,
                    init: bool, ghost closed: bool)
      returns (cmd': char, cp': Point, cp2': Point, nargs: nat, rargs': nat, init': bool)
      requires Valid() && n <= args.Length == 10
      requires P.ArgsPerElement(cmd) >= 0 && rargs == P.ArgsPerElement(cmd)
      modifies this`pts, this`npts, this`cpts, pts, args
      ensures Valid() && (pts == old(pts) || fresh(pts)) && nargs <= 10
      ensures P.TakeNumber(env, P.State(old(Points()), plist, cp, cp2, cmd, old(args[..n]), rargs, init, closed), v)
           == P.State(Points(), plist, cp', cp2', cmd', args[..nargs], rargs', init', closed)
    {
      hide P.Fire;
      cmd', cp', cp2', nargs, rargs', init' := cmd, cp, cp2, n, rargs, init;
      if nargs < 10 {
        args[nargs] := v;
        nargs := nargs + 1;
        assert args[..nargs] == old(args[..n]) + [v];
      }
      if nargs >= rargs {
        cmd', cp', cp2', rargs', init' := Draw(env, cmd, args[..nargs], cp, cp2, rargs, init, closed);
        nargs := 0;
      }
    }

    /** The next item, reading an arc flag where one is due. */
    static method Lex(cmd: char, nargs: nat, s: string, i: nat) returns (item: string, j: nat)
      requires i <= |s|
      ensures (item, j) == L.NextItem(cmd, nargs, s, i)
    {
      item, j := "", i;
      if (cmd == 'A' || cmd == 'a') && (nargs == 3 || nargs == 4) {
        var flag := L.NextArcFlag(s, j);
        item, j := flag.0, flag.1;
      }
      if item == "" {
        var next := L.NextPathItem(s, j);
        item, j := next.0, next.1;
      }
    }

    /** One round of the loop of nsvg__parsePath, once the item is known. */
    method Take(env: P.Env, atof: string -> real, item: string, args: array<real>, n: nat, cmd: char, cp: Point,
                cp2: Point, rargs: nat, init: bool, closed: bool)
      returns (cmd': char, cp': Point, cp2': Point, nargs: nat, rargs': nat, init': bool, closed': bool)
      requires Valid() && n <= args.Length == 10 && item != ""
      requires P.Consistent(P.State(Points(), plist, cp, cp2, cmd, args[..n], rargs, init, closed))
      modifies this, pts, args
      ensures Valid() && (pts == old(pts) || fresh(pts)) && nargs <= 10
      ensures P.Step(env, P.State(old(Points()), old(plist), cp, cp2, cmd, old(args[..n]), rargs, init, closed),
                     L.Classify(item, atof))
           == P.State(Points(), plist, cp', cp2', cmd', args[..nargs], rargs', init', closed')
    {
      hide P.TakeNumber, P.TakeCommand, P.Commit, P.ArgsPerElement;
      cmd', cp', cp2', nargs, rargs', init', closed' := cmd, cp, cp2, n, rargs, init, closed;
      if cmd == P.NO_COMMAND && L.IsCoordinate(item) {
        L.IdleNumber(env, P.State(Points(), plist, cp, cp2, cmd, args[..n], rargs, init, closed), item, atof(item));
      }
      if cmd != P.NO_COMMAND && L.IsCoordinate(item) {
        cmd', cp', cp2', nargs, rargs', init' :=
          Argument(env, atof(item), args, n, cmd, cp, cp2, rargs, init, closed);
      } else {
        cmd', cp', cp2', nargs, rargs', closed' :=
          Letter(env, item[0], cp, cp2, args[..n], rargs, init, closed, cmd);
      }
    }

    /** Parses the "d" attribute: every character is consumed once, and the paths stored are those of
        the command machine. */
    method ParsePath(env: P.Env, atof: string -> real, s: string)
      requires Valid()
      modifies this, pts
      ensures Valid() && (pts == old(pts) || fresh(pts))
      ensures plist == L.ParseText(env, atof, old(plist), s)
    {
      hide P.Step, P.Commit, P.ArgsPerElement, L.NextItem, L.Classify;
      ResetPath();
      var cmd, cp, cp2 := P.NO_COMMAND, Point(0.0, 0.0), Point(0.0, 0.0);
      var args := new real[10];
      var nargs: nat, rargs: nat := 0, 0;
      var init, closed := false, false;
      var i := 0;
      ghost var st := P.Start(plist);
      ghost var result := L.ParseFrom(env, atof, st, s, 0);
      while i < |s|
        invariant Valid() && (pts == old(pts) || fresh(pts)) && 0 <= i <= |s|
        invariant nargs <= args.Length == 10 && fresh(args)
        invariant st == P.State(Points(), plist, cp, cp2, cmd, args[..nargs], rargs, init, closed)
        invariant P.Consistent(st) && L.ParseFrom(env, atof, st, s, i) == result
        decreases |s| - i
      {
        var item, j := Lex(cmd, nargs, s, i);
        if item == "" { break; }
        i := j;
        P.StepConsistent(env, st, L.Classify(item, atof));
        st := P.Step(env, st, L.Classify(item, atof));
        cmd, cp, cp2, nargs, rargs, init, closed :=
          Take(env, atof, item, args, nargs, cmd, cp, cp2, rargs, init, closed);
      }
      if npts > 0 {
        AddPath(env, closed);
      }
    }
  }
}

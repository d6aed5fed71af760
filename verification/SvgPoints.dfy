/** The "points" of polylines and polygons: the numbers in a text, the vertices they make, and what is stored. */
module SvgPoints {
  import opened Scanning
  import opened SvgGeometry
  import opened SvgBoxes
  import opened SvgOutlines
  import opened SvgPathParser
  import P = SvgPath
  import L = SvgLexer

  /** Pairs of numbers: the first moves, the others draw lines. A number left over is dropped. */
  function AddPairs(pts: seq<Point>, ns: seq<real>): seq<Point>
    decreases |ns|
  {
    if |ns| < 2 then pts
    else
      var p := Point(ns[0], ns[1]);
      AddPairs(if pts == [] then P.MoveTo(pts, p) else P.LineTo(pts, p), ns[2..])
  }

  /** The numbers of a "points" attribute: whatever the items are. Blanks at the end make one more, of no text. */
  function PointNumbers(atof: string -> real, s: string, i: nat): seq<real>
    requires i <= |s|
    decreases |s| - i
  {
    if i == |s| then []
    else
      var (item, j) := L.NextPathItem(s, i);
      Consumes(s, i);
      [atof(item)] + PointNumbers(atof, s, j)
  }

  lemma Consumes(s: string, i: nat)
    requires i < |s|
    ensures i < L.NextPathItem(s, i).1 <= |s|
  {
  }

  /** The points of all "points" attributes of one element. */
  function PolyPoints(atof: string -> real, texts: seq<string>): seq<Point> {
    if texts == [] then []
    else AddPairs(PolyPoints(atof, texts[..|texts| - 1]), PointNumbers(atof, texts[|texts| - 1], 0))
  }

  // ---------------------------------------------------------------- vertices

  function Pairs(ns: seq<real>): (r: seq<Point>)
    ensures |r| == |ns| / 2
  {
    if |ns| < 2 then [] else [Point(ns[0], ns[1])] + Pairs(ns[2..])
  }

  /** The pairs of each text, a number left over in one being dropped. */
  function Vertices(atof: string -> real, texts: seq<string>): seq<Point> {
    if texts == [] then []
    else Vertices(atof, texts[..|texts| - 1]) + Pairs(PointNumbers(atof, texts[|texts| - 1], 0))
  }

  lemma {:induction false} AddPairsIs(vs: seq<Point>, ns: seq<real>)
    ensures AddPairs(Outline(vs), ns) == Outline(vs + Pairs(ns))
    decreases |ns|
  {
    hide P.LineTo, Outline, AddPairs, Pairs;
    PairsUnfold(Outline(vs), ns);
    if |ns| < 2 {
      assert vs + [] == vs;
    } else {
      var p, rest := Point(ns[0], ns[1]), ns[2..];
      OutlineGrows(vs, p);
      AddPairsIs(vs + [p], rest);
      assert (vs + [p]) + Pairs(rest) == vs + ([p] + Pairs(rest));
    }
  }

  lemma PairsUnfold(pts: seq<Point>, ns: seq<real>)
    ensures |ns| < 2 ==> Pairs(ns) == [] && AddPairs(pts, ns) == pts
    ensures |ns| >= 2 ==>
              var p := Point(ns[0], ns[1]);
              && Pairs(ns) == [p] + Pairs(ns[2..])
              && AddPairs(pts, ns) == AddPairs(if pts == [] then P.MoveTo(pts, p) else P.LineTo(pts, p), ns[2..])
  {
  }

  lemma OutlineGrows(vs: seq<Point>, p: Point)
    ensures Outline(vs) == [] <==> vs == []
    ensures Outline(vs + [p]) == if vs == [] then P.MoveTo([], p) else P.LineTo(Outline(vs), p)
  {
    if vs != [] { OutlineIsTame(vs); }
    assert (vs + [p])[..|vs|] == vs;
  }

  /** The points are the outline through the vertices. */
  lemma {:induction false} PolyIsOutline(atof: string -> real, texts: seq<string>)
    ensures PolyPoints(atof, texts) == Outline(Vertices(atof, texts))
    decreases |texts|
  {
    if texts != [] {
      var rest := texts[..|texts| - 1];
      PolyIsOutline(atof, rest);
      AddPairsIs(Vertices(atof, rest), PointNumbers(atof, texts[|texts| - 1], 0));
    }
  }

  /** A path is stored if and only if there are two vertices or more, for any texts and under any transform; its box is
      the box of the images of the vertices. */
  lemma PolyStored(env: P.Env, atof: string -> real, texts: seq<string>, closed: bool, plist: seq<Path>)
    ensures var vs := Vertices(atof, texts);
            var pts := PolyPoints(atof, texts);
            if |vs| < 2 then P.Commit(env, pts, closed, plist) == plist
            else && Adds(env, pts, closed, plist, 3 * |vs| - 2 + (if closed then 3 else 0))
                 && StoredBox(env, pts, closed, plist) == VertexBox(P.XformPoints(env.xform, vs))
  {
    hide VertexBox;
    var vs := Vertices(atof, texts);
    PolyIsOutline(atof, texts);
    if |vs| >= 2 {
      OutlineStored(env, vs, closed, plist);
    } else if |vs| == 1 {
      OutlineIsTame(vs);
    }
  }

  // ---------------------------------------------------------------- what the text means

  predicate IsSeparator(c: char) { IsSpace(c) || c == ',' }

  /** The items in front of whatever blanks and commas end the text. */
  function Texts(s: string, i: nat): seq<string>
    requires i <= |s|
    decreases |s| - i
  {
    if L.SkipSeparators(s, i) == |s| then []
    else
      var (item, j) := L.NextPathItem(s, i);
      [item] + Texts(s, j)
  }

  function Values(atof: string -> real, items: seq<string>): seq<real> {
    seq(|items|, i requires 0 <= i < |items| => atof(items[i]))
  }

  /** The text ends with a blank or a comma. */
  predicate Trailing(s: string, i: nat) {
    i < |s| && IsSeparator(s[|s| - 1])
  }

  lemma {:induction false} SkipsSeparators(s: string, i: nat)
    requires i <= |s|
    ensures forall m | i <= m < L.SkipSeparators(s, i) :: IsSeparator(s[m])
    decreases |s| - i
  {
    if i < |s| && IsSeparator(s[i]) { SkipsSeparators(s, i + 1); }
  }

  lemma {:induction false} SkipsDigits(s: string, i: nat)
    requires i <= |s|
    ensures forall m | i <= m < L.SkipDigits(s, i) :: !IsSeparator(s[m])
    decreases |s| - i
  {
    if i < |s| && L.IsDigit(s[i]) { SkipsDigits(s, i + 1); }
  }

  lemma NumberIsSolid(s: string, k: nat)
    requires k <= |s|
    ensures forall m | k <= m < L.NumberEnd(s, k) :: !IsSeparator(s[m])
  {
    var digits := L.SkipSign(s, k);
    SkipsDigits(s, digits);
    var dot := L.SkipDigits(s, digits);
    if dot < |s| { SkipsDigits(s, dot + 1); }
    var exp := L.FractionEnd(s, dot);
    if exp < |s| { SkipsDigits(s, L.SkipSign(s, exp + 1)); }
  }

  lemma ItemEndsSolid(s: string, i: nat)
    requires i <= |s| && L.SkipSeparators(s, i) < |s|
    ensures var j := L.NextPathItem(s, i).1; i < j && !IsSeparator(s[j - 1])
  {
    NumberIsSolid(s, L.SkipSeparators(s, i));
  }

  lemma OnlySeparators(atof: string -> real, s: string, i: nat)
    requires i < |s| && L.SkipSeparators(s, i) == |s|
    ensures PointNumbers(atof, s, i) == [atof("")]
  {
  }

  /** The numbers read are those of the items, and one of no text if a blank or a comma ends the text. */
  lemma {:induction false} TrailingAddsNumber(atof: string -> real, s: string, i: nat)
    requires i <= |s|
    ensures PointNumbers(atof, s, i) == Values(atof, Texts(s, i)) + (if Trailing(s, i) then [atof("")] else [])
    decreases |s| - i
  {
    hide L.NextPathItem, IsSeparator;
    if i < |s| {
      if L.SkipSeparators(s, i) == |s| {
        SkipsSeparators(s, i);
        OnlySeparators(atof, s, i);
      } else {
        ItemEndsSolid(s, i);
        var (item, j) := L.NextPathItem(s, i);
        Consumes(s, i);
        TrailingAddsNumber(atof, s, j);
        assert Values(atof, [item] + Texts(s, j)) == [atof(item)] + Values(atof, Texts(s, j));
      }
    }
  }

  /** The vertices that the items of the texts make. */
  function Meant(atof: string -> real, texts: seq<string>): seq<Point> {
    if texts == [] then []
    else Meant(atof, texts[..|texts| - 1]) + Pairs(Values(atof, Texts(texts[|texts| - 1], 0)))
  }

  /** An odd number of items, with a blank or a comma after them. */
  predicate Misread(s: string) {
    Trailing(s, 0) && |Texts(s, 0)| % 2 == 1
  }

  function MisreadCount(texts: seq<string>): nat {
    if texts == [] then 0 else MisreadCount(texts[..|texts| - 1]) + (if Misread(texts[|texts| - 1]) then 1 else 0)
  }

  lemma {:induction false} PairsAppend(ns: seq<real>, v: real)
    ensures Pairs(ns + [v]) == if |ns| % 2 == 1 then Pairs(ns) + [Point(ns[|ns| - 1], v)] else Pairs(ns)
    decreases |ns|
  {
    if |ns| >= 2 {
      PairsAppend(ns[2..], v);
      assert (ns + [v])[2..] == ns[2..] + [v];
    }
  }

  lemma ReadOrMisread(atof: string -> real, s: string)
    ensures var ns, vs := PointNumbers(atof, s, 0), Values(atof, Texts(s, 0));
            if Misread(s) then |Pairs(ns)| == |Pairs(vs)| + 1 else Pairs(ns) == Pairs(vs)
  {
    var vs := Values(atof, Texts(s, 0));
    TrailingAddsNumber(atof, s, 0);
    PairsAppend(vs, atof(""));
    assert vs + [] == vs;
  }

  /** Each misread text adds a vertex. */
  lemma {:induction false} MisreadAddsVertex(atof: string -> real, texts: seq<string>)
    ensures |Vertices(atof, texts)| == |Meant(atof, texts)| + MisreadCount(texts)
    ensures MisreadCount(texts) == 0 ==> Vertices(atof, texts) == Meant(atof, texts)
    ensures MisreadCount(texts) == 0 <==> forall t | t in texts :: !Misread(t)
    decreases |texts|
  {
    if texts != [] {
      hide Misread;
      var rest, last := texts[..|texts| - 1], texts[|texts| - 1];
      MisreadAddsVertex(atof, rest);
      ReadOrMisread(atof, last);
      assert texts == rest + [last];
    }
  }

  /** The polyline goes through the vertices that its texts mean if and only if no text is misread. */
  lemma PolyIsMeantIff(atof: string -> real, texts: seq<string>)
    ensures PolyPoints(atof, texts) == Outline(Meant(atof, texts)) <==> forall t | t in texts :: !Misread(t)
  {
    hide Misread;
    var vs, meant := Vertices(atof, texts), Meant(atof, texts);
    PolyIsOutline(atof, texts);
    MisreadAddsVertex(atof, texts);
    if vs != [] { OutlineIsTame(vs); }
    if meant != [] { OutlineIsTame(meant); }
  }

  // ---------------------------------------------------------------- the builders

  method ParseLine(p: Parser, env: P.Env, a: Point, b: Point)
    requires p.Valid()
    modifies p, p.pts
    ensures p.Valid() && p.plist == P.Commit(env, Outline([a, b]), false, old(p.plist))
  {
    hide P.Commit;
    assert [a, b][..1] == [a];
    p.ResetPath();
    p.MoveTo(a);
    p.LineTo(b);
    p.AddPath(env, false);
  }

  /** nsvg__parsePoly on the texts of its "points" attributes. */
  method ParsePoly(p: Parser, env: P.Env, atof: string -> real, texts: seq<string>, closed: bool)
    requires p.Valid()
    modifies p, p.pts
    ensures p.Valid() && p.plist == P.Commit(env, PolyPoints(atof, texts), closed, old(p.plist))
  {
    hide P.Commit;
    p.ResetPath();
    var k := 0;
    while k < |texts|
      invariant 0 <= k <= |texts| && p.Valid() && (p.pts == old(p.pts) || fresh(p.pts))
      invariant p.Points() == PolyPoints(atof, texts[..k]) && p.plist == old(p.plist)
    {
      AddPoints(p, atof, texts[k]);
      assert texts[..k + 1][..k] == texts[..k];
      k := k + 1;
    }
    assert texts[..k] == texts;
    p.AddPath(env, closed);
  }

  /** The loop over one text. */
  method AddPoints(p: Parser, atof: string -> real, s: string)
    requires p.Valid()
    modifies p`pts, p`npts, p`cpts, p.pts
    ensures p.Valid() && (p.pts == old(p.pts) || fresh(p.pts))
    ensures p.Points() == AddPairs(old(p.Points()), PointNumbers(atof, s, 0))
  {
    hide L.NextPathItem, P.LineTo;
    var args := [];
    var i := 0;
    assert args + PointNumbers(atof, s, 0) == PointNumbers(atof, s, 0);
    while i < |s|
      invariant 0 <= i <= |s| && |args| < 2
      invariant p.Valid() && (p.pts == old(p.pts) || fresh(p.pts))
      invariant AddPairs(p.Points(), args + PointNumbers(atof, s, i))
             == AddPairs(old(p.Points()), PointNumbers(atof, s, 0))
      decreases |s| - i
    {
      var (item, j) := L.NextPathItem(s, i);
      Consumes(s, i);
      ghost var rest := PointNumbers(atof, s, j);
      assert args + ([atof(item)] + rest) == (args + [atof(item)]) + rest;
      args := args + [atof(item)];
      i := j;
      if |args| >= 2 {
        var q := Point(args[0], args[1]);
        assert (args + rest)[2..] == rest && [] + rest == rest;
        if p.npts == 0 {
          p.MoveTo(q);
        } else {
          p.LineTo(q);
        }
        args := [];
      }
    }
    assert args + [] == args;
  }
}

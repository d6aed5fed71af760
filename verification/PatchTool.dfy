/** Relative paths and patch names, as patchtool computes them. */
module PatchTool {
  import opened Scanning
  import opened PathText

  // ---------------------------------------------------------------- os.path on POSIX

  function StartsWith(s: string, p: string): bool { p <= s }

  /** os.path.join. */
  function JoinPath(a: string, b: string): string {
    if StartsWith(b, "/") then b
    else if a == "" || a[|a| - 1] == SLASH then a + b
    else a + "/" + b
  }

  /** The components normpath keeps: "." is dropped, ".." cancels the component before it, except that
      it stays at the start of a relative path and disappears at the root. */
  function NormComps(comps: seq<string>, rooted: bool, stack: seq<string>): seq<string>
    decreases |comps|
  {
    if comps == [] then stack
    else
      var c := comps[0];
      var next :=
        if c == "." then stack
        else if c != ".." || (!rooted && stack == []) || (stack != [] && stack[|stack| - 1] == "..") then stack + [c]
        else if stack != [] then stack[..|stack| - 1]
        else stack;
      NormComps(comps[1..], rooted, next)
  }

  /** Exactly two leading slashes are kept, any other number counts as one. */
  function Root(path: string): string {
    if !StartsWith(path, "/") then ""
    else if StartsWith(path, "//") && !StartsWith(path, "///") then "//"
    else "/"
  }

  /** os.path.normpath. */
  function NormPath(path: string): string {
    var r := Root(path) + Join(NormComps(Components(path), Root(path) != "", []));
    if r == "" then "." else r
  }

  /** os.path.abspath, given the current directory. */
  function AbsPath(cwd: string, path: string): string {
    NormPath(JoinPath(cwd, path))
  }

  lemma CleanConcat(a: seq<string>, b: seq<string>)
    ensures Clean(a + b) <==> Clean(a) && Clean(b)
  {
    assert forall c :: c in a || c in b <==> c in a + b;
  }

  lemma CleanPop(stack: seq<string>)
    requires Clean(stack) && stack != []
    ensures Clean(stack[..|stack| - 1]) && stack[|stack| - 1] != ".."
  {
    assert stack[|stack| - 1] in stack;
  }

  lemma {:induction false} NormCompsClean(comps: seq<string>, stack: seq<string>)
    requires Clean(stack) && forall c | c in comps :: Plain(c)
    ensures Clean(NormComps(comps, true, stack))
    decreases |comps|
  {
    if comps != [] {
      var c := comps[0];
      assert c in comps;
      if stack != [] { CleanPop(stack); }
      if c == "." {
        NormCompsClean(comps[1..], stack);
      } else if c != ".." {
        CleanConcat(stack, [c]);
        NormCompsClean(comps[1..], stack + [c]);
      } else {
        NormCompsClean(comps[1..], if stack == [] then [] else stack[..|stack| - 1]);
      }
    }
  }

  lemma {:induction false} NormCompsPush(comps: seq<string>, more: seq<string>, rooted: bool, stack: seq<string>)
    requires Clean(comps) && Clean(stack)
    ensures NormComps(comps + more, rooted, stack) == NormComps(more, rooted, stack + comps)
    decreases |comps|
  {
    if comps == [] {
      assert comps + more == more && stack + comps == stack;
    } else {
      var c := comps[0];
      assert c in comps;
      assert (comps + more)[1..] == comps[1..] + more;
      assert stack + comps == (stack + [c]) + comps[1..];
      if stack != [] { CleanPop(stack); }
      CleanConcat(stack, [c]);
      NormCompsPush(comps[1..], more, rooted, stack + [c]);
    }
  }

  function Ups(n: nat): (r: seq<string>)
    ensures |r| == n && forall c | c in r :: c == ".."
  {
    seq(n, _ => "..")
  }

  /** n times ".." takes n components off a clean stack. */
  lemma {:induction false} NormCompsUps(n: nat, more: seq<string>, rooted: bool, stack: seq<string>)
    requires Clean(stack) && n <= |stack|
    ensures NormComps(Ups(n) + more, rooted, stack) == NormComps(more, rooted, stack[..|stack| - n])
    decreases n
  {
    if n == 0 {
      assert Ups(0) + more == more && stack[..|stack|] == stack;
    } else {
      assert (Ups(n) + more)[1..] == Ups(n - 1) + more;
      CleanPop(stack);
      var popped := stack[..|stack| - 1];
      NormCompsUps(n - 1, more, rooted, popped);
      assert popped[..|popped| - (n - 1)] == stack[..|stack| - n];
    }
  }

  // ---------------------------------------------------------------- getrelpath

  /** ".." joined n times with os.path.join. */
  function Adjust(n: nat): string {
    if n == 0 then "" else JoinPath(Adjust(n - 1), "..")
  }

  lemma {:induction false} AdjustIs(n: nat)
    ensures Components(Adjust(n)) == Ups(n) && !StartsWith(Adjust(n), "/")
    ensures n > 0 ==> Adjust(n) != "" && Adjust(n)[|Adjust(n)| - 1] == '.'
  {
    hide Components;
    NoComponents();
    ComponentsOfPlain("..");
    if n > 0 {
      AdjustIs(n - 1);
      if n > 1 {
        ComponentsConcat(Adjust(n - 1), "..");
        assert Adjust(n) == Adjust(n - 1) + [SLASH] + "..";
        assert Ups(n - 1) + [".."] == Ups(n);
      } else {
        assert Adjust(1) == JoinPath("", "..") == ".." && ".."[0] != SLASH;
        assert [".."] == Ups(1);
      }
    }
  }

  /** The part of a path after a prefix that ends with a slash. */
  lemma ComponentsAfter(common: string, rest: string)
    requires common != "" && common[|common| - 1] == SLASH
    ensures Components(common + rest) == Components(common) + Components(rest)
  {
    hide Components;
    var c := common[..|common| - 1];
    assert common == c + [SLASH] + "";
    assert common + rest == c + [SLASH] + rest;
    ComponentsConcat(c, rest);
    ComponentsConcat(c, "");
    NoComponents();
  }

  lemma LoopText(w: string, n: nat)
    requires (w == "" || w[|w| - 1] == SLASH) && !StartsWith(w, "/")
    ensures Components(JoinPath(w, Adjust(n))) == Components(w) + Ups(n)
    ensures Root(JoinPath(w, Adjust(n))) == ""
  {
    hide Components;
    AdjustIs(n);
    assert JoinPath(w, Adjust(n)) == w + Adjust(n);
    if w == "" {
      assert w + Adjust(n) == Adjust(n);
      NoComponents();
      assert [] + Ups(n) == Ups(n);
    } else {
      ComponentsAfter(w, Adjust(n));
      assert (w + Adjust(n))[0] == w[0];
    }
  }

  /** What the loop condition looks at after n steps: with w left of wrksrc, "." appears after exactly
      as many steps as w has components. */
  lemma LoopTest(w: string, n: nat)
    requires (w == "" || w[|w| - 1] == SLASH) && !StartsWith(w, "/")
    requires Clean(Components(w)) && n <= |Components(w)|
    ensures NormPath(JoinPath(w, Adjust(n))) == "." <==> n == |Components(w)|
  {
    hide Components, NormComps, Clean, Ups;
    var comps := Components(w);
    LoopText(w, n);
    CleanEmpty();
    NormCompsPush(comps, Ups(n), false, []);
    assert [] + comps == comps;
    NormCompsUps(n, [], false, comps);
    assert Ups(n) + [] == Ups(n);
    var left := comps[..|comps| - n];
    assert comps == left + comps[|comps| - n..];
    CleanConcat(left, comps[|comps| - n..]);
    NormCompsRest(left);
    CleanPlain(left);
    JoinStart(left);
    CleanJoinIsNoDot(left);
    EmptyJoin();
  }

  lemma NormCompsRest(stack: seq<string>)
    ensures NormComps([], false, stack) == stack
  {
  }

  lemma CleanPlain(comps: seq<string>)
    requires Clean(comps)
    ensures forall c | c in comps :: Plain(c)
  {
  }

  lemma CleanJoinIsNoDot(comps: seq<string>)
    requires Clean(comps)
    ensures Join(comps) != "."
  {
    hide Components, Join;
    ComponentsOfJoin(comps);
    ComponentsOfPlain(".");
    assert comps == [] || comps[0] in comps;
  }

  /** What follows a text that does not end with a slash has no say in its root. */
  lemma RootOf(a: string, b: string)
    requires a != "" && a[0] == SLASH && a[|a| - 1] != SLASH
    ensures Root(a + b) == Root(a)
  {
    assert |a| >= 2;
    assert forall i | 0 <= i < |a| :: (a + b)[i] == a[i];
    assert StartsWith(a, "//") <==> a[1] == SLASH;
    assert StartsWith(a + b, "//") <==> (a + b)[1] == SLASH;
    if a[1] == SLASH {
      assert |a| >= 3;
      assert StartsWith(a, "///") <==> a[2] == SLASH;
      assert StartsWith(a + b, "///") <==> (a + b)[2] == SLASH;
    }
  }

  lemma RelComponents(n: nat, p: string)
    requires !StartsWith(p, "/")
    ensures Components(JoinPath(Adjust(n), p)) == Ups(n) + Components(p)
    ensures !StartsWith(JoinPath(Adjust(n), p), "/")
  {
    hide Components;
    AdjustIs(n);
    if n == 0 {
      assert "" + p == p && Ups(0) + Components(p) == Components(p);
    } else {
      ComponentsConcat(Adjust(n), p);
      assert Adjust(n) + [SLASH] + p == Adjust(n) + "/" + p;
    }
  }

  lemma NormCompsEnd(stack: seq<string>)
    ensures NormComps([], true, stack) == stack
  {
  }

  /** Down cs and ws, up |ws| levels, and down ps. */
  lemma ClimbAndDescend(cs: seq<string>, ws: seq<string>, ps: seq<string>)
    requires Clean(cs) && Clean(ws) && Clean(ps)
    ensures NormComps((cs + ws) + (Ups(|ws|) + ps), true, []) == cs + ps
  {
    hide NormComps, Clean, Ups;
    var n, down := |ws|, cs + ws;
    CleanConcat(cs, ws);
    CleanEmpty();
    calc {
      NormComps(down + (Ups(n) + ps), true, []);
      { NormCompsPush(down, Ups(n) + ps, true, []); assert [] + down == down; }
      NormComps(Ups(n) + ps, true, down);
      { NormCompsUps(n, ps, true, down); assert down[..|down| - n] == cs; }
      NormComps(ps, true, cs);
      { assert ps + [] == ps; NormCompsPush(ps, [], true, cs); }
      NormComps([], true, cs + ps);
      { NormCompsEnd(cs + ps); }
      cs + ps;
    }
  }

  lemma CleanEmpty()
    ensures Clean([])
  {
  }

  /** Climbing out of what is left of wrksrc and down what is left of path leads from wrksrc to path. */
  lemma Resolves(common: string, p: string, w: string, wrksrc: string)
    requires common != "" && common[|common| - 1] == SLASH
    requires Clean(Components(common + p)) && Clean(Components(common + w))
    requires wrksrc + "/" == common + w && !StartsWith(p, "/")
    requires wrksrc != "" && wrksrc[0] == SLASH && wrksrc[|wrksrc| - 1] != SLASH
    ensures var rel := JoinPath(Adjust(|Components(w)|), p);
            NormPath(JoinPath(wrksrc, rel)) == Root(wrksrc) + Join(Components(common + p))
  {
    hide Components, Join, NormComps, Adjust, Ups, Clean, Root;
    var cs, ps, ws := Components(common), Components(p), Components(w);
    var rel := JoinPath(Adjust(|ws|), p);
    ComponentsAfter(common, p);
    ComponentsAfter(common, w);
    RelComponents(|ws|, p);
    var target := (common + w) + rel;
    ResolvedText(wrksrc, rel);
    assert JoinPath(wrksrc, rel) == target;
    ComponentsAfter(common + w, rel);
    CleanConcat(cs, ps);
    CleanConcat(cs, ws);
    ClimbAndDescend(cs, ws, ps);
    SomeRoot(wrksrc);
  }

  lemma SomeRoot(t: string)
    requires t != "" && t[0] == SLASH
    ensures Root(t) == "/" || Root(t) == "//"
  {
  }

  lemma ResolvedText(wrksrc: string, rel: string)
    requires wrksrc != "" && wrksrc[0] == SLASH && wrksrc[|wrksrc| - 1] != SLASH
    requires !StartsWith(rel, "/")
    ensures JoinPath(wrksrc, rel) == (wrksrc + "/") + rel && Root((wrksrc + "/") + rel) == Root(wrksrc)
  {
    hide Root;
    RootOf(wrksrc, "/" + rel);
    assert wrksrc + ("/" + rel) == (wrksrc + "/") + rel;
  }

  /** os.path.commonprefix of two paths, character by character. */
  method CommonPrefix(a: string, b: string) returns (n: nat)
    ensures n <= |a| && n <= |b| && a[..n] == b[..n]
    ensures n < |a| && n < |b| ==> a[n] != b[n]
  {
    n := 0;
    while n < |a| && n < |b| && a[n] == b[n]
      invariant n <= |a| && n <= |b| && a[..n] == b[..n]
    {
      n := n + 1;
    }
  }

  /** A normalised absolute path has no empty component. */
  lemma {:induction false} JoinHasNoDoubleSlash(comps: seq<string>, i: nat)
    requires (forall c | c in comps :: Plain(c)) && i + 1 < |Join(comps)|
    ensures !(Join(comps)[i] == SLASH && Join(comps)[i + 1] == SLASH)
    ensures comps != [] ==> Join(comps)[|Join(comps)| - 1] != SLASH
  {
    var joined := Join(comps);
    if comps != [] {
      var last := comps[|comps| - 1];
      assert last in comps;
      if |comps| == 1 {
        assert joined[i] in last && joined[|joined| - 1] in last;
      } else {
        var rest := comps[..|comps| - 1];
        var cut := |Join(rest)|;
        JoinStart(rest);
        assert joined == Join(rest) + [SLASH] + last;
        assert joined[|joined| - 1] == last[|last| - 1] && last[|last| - 1] in last;
        LastIsNoSlash(rest);
        if i + 1 < cut {
          JoinHasNoDoubleSlash(rest, i);
          assert joined[i] == Join(rest)[i] && joined[i + 1] == Join(rest)[i + 1];
        } else if i + 1 > cut {
          assert joined[i + 1] == last[i - cut] && last[i - cut] in last;
        } else {
          assert joined[i] == Join(rest)[cut - 1];
        }
      }
    }
  }

  lemma {:induction false} LastIsNoSlash(comps: seq<string>)
    requires forall c | c in comps :: Plain(c)
    ensures comps != [] ==> Join(comps) != "" && Join(comps)[|Join(comps)| - 1] != SLASH
  {
    if comps != [] {
      var last := comps[|comps| - 1];
      assert last in comps;
      assert last[|last| - 1] in last;
    }
  }

  /** What abspath leaves of a path: one slash or two, and clean components. */
  predicate IsAbsolute(t: string) {
    && StartsWith(t, "/") && Clean(Components(t)) && t == Root(t) + Join(Components(t))
  }

  lemma AbsPathIsAbsolute(cwd: string, path: string)
    requires StartsWith(cwd, "/")
    ensures IsAbsolute(AbsPath(cwd, path))
  {
    hide Components, NormComps, Join, Root, Clean;
    var t := JoinPath(cwd, path);
    assert t[0] == SLASH;
    SomeRoot(t);
    var comps := NormComps(Components(t), true, []);
    CleanEmpty();
    NormCompsClean(Components(t), []);
    AbsoluteIs(Root(t), comps);
  }

  lemma AbsoluteIs(root: string, comps: seq<string>)
    requires (root == "/" || root == "//") && Clean(comps)
    ensures IsAbsolute(root + Join(comps)) && Root(root + Join(comps)) == root
    ensures Components(root + Join(comps)) == comps
  {
    hide Components, Join;
    var t := root + Join(comps);
    SkipSlashes(root, Join(comps));
    CleanPlain(comps);
    ComponentsOfJoin(comps);
    JoinStart(comps);
    EmptyJoin();
    RootBefore(root, Join(comps));
  }

  lemma RootBefore(root: string, rest: string)
    requires (root == "/" || root == "//") && (rest == "" || rest[0] != SLASH)
    ensures Root(root + rest) == root && StartsWith(root + rest, "/")
  {
    var t := root + rest;
    assert t[0] == SLASH;
    assert |t| > 1 ==> t[1] == if root == "/" then rest[0] else SLASH;
    assert StartsWith(t, "//") <==> |t| > 1 && t[1] == SLASH;
    assert |t| > 2 && root == "//" ==> t[2] == rest[0];
  }

  /** Two slashes meet only at the root; there is a component if and only if the last character is none. */
  lemma AbsoluteText(t: string)
    requires IsAbsolute(t)
    ensures |Root(t)| >= 1 && t[..|Root(t)|] == Root(t) && (Root(t) == "/" || Root(t) == "//")
    ensures forall i | |Root(t)| - 1 <= i < |t| - 1 :: !(t[i] == SLASH && t[i + 1] == SLASH)
    ensures if Components(t) == [] then t == Root(t) else t[|t| - 1] != SLASH && |t| > |Root(t)|
  {
    hide Components, Root;
    var comps, r := Components(t), |Root(t)|;
    SomeRoot(t);
    CleanPlain(comps);
    JoinStart(comps);
    LastIsNoSlash(comps);
    EmptyJoin();
    forall i | r - 1 <= i < |t| - 1 ensures !(t[i] == SLASH && t[i + 1] == SLASH) {
      if i >= r {
        JoinHasNoDoubleSlash(comps, i - r);
        assert t[i] == Join(comps)[i - r] && t[i + 1] == Join(comps)[i + 1 - r];
      } else {
        assert t[r] == Join(comps)[0];
      }
    }
  }

  predicate NoDoubleSlash(t: string) {
    forall i | 0 <= i < |t| - 1 :: !(t[i] == SLASH && t[i + 1] == SLASH)
  }

  /** The second loop of getrelpath: one ".." for each component left of wrksrc. */
  method Climb(w: string) returns (adjust: string)
    requires (w == "" || w[|w| - 1] == SLASH) && !StartsWith(w, "/") && Clean(Components(w))
    ensures adjust == Adjust(|Components(w)|)
  {
    hide Components, NormPath, JoinPath;
    adjust := "";
    ghost var n := 0;
    LoopTest(w, n);
    while NormPath(JoinPath(w, adjust)) != "."
      invariant n <= |Components(w)| && adjust == Adjust(n)
      invariant NormPath(JoinPath(w, adjust)) == "." <==> n == |Components(w)|
      decreases |Components(w)| - n
    {
      adjust := JoinPath(adjust, "..");
      n := n + 1;
      LoopTest(w, n);
    }
  }

  /** The first loop of getrelpath leaves the longest common prefix that ends with a slash. */
  predicate IsSplit(path: string, slashed: string, n: nat) {
    && 1 <= n <= |path| && n <= |slashed| && path[..n] == slashed[..n] && path[n - 1] == SLASH
    && forall m | n < m <= |path| && m <= |slashed| :: path[..m] != slashed[..m] || path[m - 1] != SLASH
  }

  /** The second loop ends: wrksrc has one leading slash and a component, or path has two and wrksrc is the root or
      has two and a component. */
  predicate Ends(path: string, wrksrc: string) {
    || (Root(wrksrc) == "/" && wrksrc != "/")
    || (Root(path) == "//" && (wrksrc == "/" || (Root(wrksrc) == "//" && wrksrc != "//")))
  }

  /** The result leads from wrksrc to path. */
  predicate Meets(path: string, wrksrc: string) {
    Root(path) == Root(wrksrc) && wrksrc != "/" && wrksrc != "//"
  }

  /** With both roots alike and a component in wrksrc, what is left of it is relative, and the split resolves. */
  lemma SplitAt(path: string, wrksrc: string, n: nat)
    requires IsAbsolute(path) && IsAbsolute(wrksrc) && Meets(path, wrksrc) && IsSplit(path, wrksrc + "/", n)
    ensures var w := (wrksrc + "/")[n..];
            && (w == "" || w[|w| - 1] == SLASH) && !StartsWith(w, "/") && Clean(Components(w))
            && NormPath(JoinPath(wrksrc, JoinPath(Adjust(|Components(w)|), path[n..]))) == path
    ensures !StartsWith(path[n..], "/")
  {
    hide Components, NormPath, JoinPath, Adjust, Join, Root, IsAbsolute;
    AbsoluteText(path);
    AbsoluteText(wrksrc);
    AbsoluteParts(path);
    AbsoluteParts(wrksrc);
    var slashed := wrksrc + "/";
    SplitPastRoot(path, wrksrc, n);
    var common, p, w := path[..n], path[n..], slashed[n..];
    assert path == common + p && slashed == common + w;
    ComponentsConcat(wrksrc, "");
    NoComponents();
    assert wrksrc + [SLASH] + "" == slashed && Components(wrksrc) + [] == Components(wrksrc);
    ComponentsAfter(common, w);
    CleanConcat(Components(common), Components(w));
    Resolves(common, p, w, wrksrc);
  }

  lemma AbsoluteParts(t: string)
    requires IsAbsolute(t)
    ensures t != "" && t[0] == SLASH && Clean(Components(t)) && t == Root(t) + Join(Components(t))
  {
  }

  /** The split lies past the root, so neither rest starts with a slash. */
  lemma SplitPastRoot(path: string, wrksrc: string, n: nat)
    requires IsAbsolute(path) && IsAbsolute(wrksrc) && Meets(path, wrksrc) && IsSplit(path, wrksrc + "/", n)
    ensures n >= |Root(path)| && !StartsWith(path[n..], "/") && !StartsWith((wrksrc + "/")[n..], "/")
    ensures wrksrc[|wrksrc| - 1] != SLASH
  {
    hide Components, Join, Root, IsAbsolute;
    var slashed, r := wrksrc + "/", |Root(path)|;
    AbsoluteText(path);
    AbsoluteText(wrksrc);
    assert slashed[..r] == wrksrc[..r] == path[..r];
    assert path[r - 1] == path[..r][r - 1] == SLASH;
    assert n >= r;
    assert slashed[n - 1] == slashed[..n][n - 1] == path[..n][n - 1] == SLASH;
    assert n < |path| ==> path[n..][0] == path[n] != SLASH;
    assert n < |slashed| - 1 ==> wrksrc[n - 1] == SLASH && wrksrc[n] == slashed[n] != SLASH;
  }

  lemma Agree(a: string, b: string, n: nat)
    requires n <= |a| && n <= |b| && a[..n] == b[..n]
    ensures forall i | 0 <= i < n :: a[i] == b[i]
  {
    forall i | 0 <= i < n ensures a[i] == b[i] {
      assert a[i] == a[..n][i];
    }
  }

  /** With two leading slashes in path only, the split is before the second, or leaves nothing of the root. */
  lemma SplitApart(path: string, wrksrc: string, n: nat)
    requires IsAbsolute(path) && IsAbsolute(wrksrc) && IsSplit(path, wrksrc + "/", n)
    requires Root(path) == "//" && Root(wrksrc) == "/"
    ensures if wrksrc == "/" then n == 2 && (wrksrc + "/")[n..] == ""
            else n == 1 && !StartsWith((wrksrc + "/")[n..], "/")
                 && path[n..] == "/" + Join(Components(path)) && (wrksrc + "/")[n..] != ""
  {
    hide Components, Join, Root, IsAbsolute;
    var slashed := wrksrc + "/";
    AbsoluteText(path);
    AbsoluteText(wrksrc);
    AbsoluteParts(path);
    assert path[0] == path[..2][0] && path[1] == path[..2][1];
    if wrksrc == "/" {
      assert slashed == "//" == path[..2];
    } else {
      assert wrksrc[0] == SLASH && slashed[1] == wrksrc[1] != SLASH;
      Agree(path, slashed, n);
      assert slashed[1..][0] == slashed[1];
      assert path[1..] == "/" + Join(Components(path));
    }
  }

  /** When the loop does not end, what is left of wrksrc starts with a slash. */
  lemma SplitLeavesSlash(path: string, wrksrc: string, n: nat)
    requires IsAbsolute(path) && IsAbsolute(wrksrc) && IsSplit(path, wrksrc + "/", n) && !Ends(path, wrksrc)
    ensures StartsWith((wrksrc + "/")[n..], "/")
  {
    hide Components, Join, Root, IsAbsolute;
    var slashed := wrksrc + "/";
    AbsoluteText(path);
    AbsoluteText(wrksrc);
    assert wrksrc[0] == wrksrc[..|Root(wrksrc)|][0] == SLASH;
    assert slashed[1] == SLASH by {
      assert wrksrc == "/" ==> slashed[1] == SLASH;
      assert Root(wrksrc) == "//" ==> wrksrc[1] == wrksrc[..2][1];
    }
    Agree(path, slashed, n);
    if Root(path) == "//" {
      assert wrksrc == "//" && slashed == "///" && path[..2] == slashed[..2] == "//";
      assert path[1] == path[..2][1];
    }
    assert slashed[n..][0] == slashed[n];
  }

  /** An absolute rest stays absolute, so the loop's condition never fails. */
  lemma AbsoluteIsNoDot(w: string, n: nat)
    requires StartsWith(w, "/")
    ensures NormPath(JoinPath(w, Adjust(n))) != "."
  {
    hide Components, NormComps, Join, Adjust;
    AdjustIs(n);
    var t := JoinPath(w, Adjust(n));
    assert t[0] == w[0] == SLASH;
    SomeRoot(t);
    assert NormPath(t)[0] == Root(t)[0];
  }

  /** The second loop of getrelpath ends if and only if one of the three conditions holds; otherwise no number of
      steps is enough. */
  lemma LoopEndsIff(path: string, wrksrc: string, n: nat)
    requires IsAbsolute(path) && IsAbsolute(wrksrc) && IsSplit(path, wrksrc + "/", n)
    ensures (exists k: nat :: NormPath(JoinPath((wrksrc + "/")[n..], Adjust(k))) == ".") <==> Ends(path, wrksrc)
  {
    hide Components, NormPath, JoinPath, Adjust, Root, IsAbsolute;
    var w := (wrksrc + "/")[n..];
    if Ends(path, wrksrc) {
      LeftIsRelative(path, wrksrc, n);
      LoopTest(w, |Components(w)|);
    } else {
      SplitLeavesSlash(path, wrksrc, n);
      forall k: nat ensures NormPath(JoinPath(w, Adjust(k))) != "." {
        AbsoluteIsNoDot(w, k);
      }
    }
  }

  lemma LeftIsRelative(path: string, wrksrc: string, n: nat)
    requires IsAbsolute(path) && IsAbsolute(wrksrc) && IsSplit(path, wrksrc + "/", n) && Ends(path, wrksrc)
    ensures var w := (wrksrc + "/")[n..];
            (w == "" || w[|w| - 1] == SLASH) && !StartsWith(w, "/") && Clean(Components(w))
  {
    hide Components, Root, IsAbsolute, Join, NormPath, JoinPath, Adjust;
    var slashed := wrksrc + "/";
    AbsoluteParts(path);
    AbsoluteParts(wrksrc);
    SomeRoot(path);
    SomeRoot(wrksrc);
    if Root(path) == Root(wrksrc) {
      AbsoluteText(wrksrc);
      SplitAt(path, wrksrc, n);
    } else {
      SplitApart(path, wrksrc, n);
      NoComponents();
      CleanEmpty();
      if wrksrc != "/" {
        var common := slashed[..n];
        ComponentsConcat(wrksrc, "");
        assert wrksrc + [SLASH] + "" == slashed && Components(wrksrc) + [] == Components(wrksrc);
        assert slashed == common + slashed[n..] && common[|common| - 1] == SLASH;
        ComponentsAfter(common, slashed[n..]);
        CleanConcat(Components(common), Components(slashed[n..]));
      }
    }
  }

  /** Where the roots differ the result misses path: it leads to the path with a single slash. */
  lemma RootsApart(path: string, wrksrc: string, n: nat, k: nat)
    requires IsAbsolute(path) && IsAbsolute(wrksrc) && IsSplit(path, wrksrc + "/", n)
    requires Root(path) == "//" && Root(wrksrc) == "/" && (wrksrc == "/" ==> k == 0)
    ensures NormPath(JoinPath(wrksrc, JoinPath(Adjust(k), path[n..]))) == "/" + Join(Components(path)) != path
  {
    hide Components, NormComps, Root, IsAbsolute, Join, Clean;
    var comps := Components(path);
    var single := "/" + Join(comps);
    SplitApart(path, wrksrc, n);
    AbsoluteParts(path);
    AbsoluteIs("/", comps);
    AbsoluteNorm(single);
    CleanPlain(comps);
    JoinStart(comps);
    EmptyJoin();
    if wrksrc == "/" {
      assert path[2..] == Join(comps);
      assert "" + path[2..] == path[2..];
      assert !StartsWith(path[2..], "/");
    } else {
      assert StartsWith(single, "/");
    }
  }

  /** A normalised path is left alone. */
  lemma AbsoluteNorm(t: string)
    requires IsAbsolute(t)
    ensures NormPath(t) == t
  {
    hide Components, NormComps, Root, Join, Clean;
    SomeRoot(t);
    var comps := Components(t);
    CleanEmpty();
    assert comps + [] == comps && [] + comps == comps;
    NormCompsPush(comps, [], true, []);
    NormCompsEnd(comps);
  }

  /** getrelpath, whenever its second loop ends. The result resolves from wrksrc to path if and only if wrksrc has a
      component and both have the same root; then it is relative. */
  method GetRelPath(cwd: string, path0: string, wrksrc0: string) returns (rel: string)
    requires StartsWith(cwd, "/")
    requires Ends(AbsPath(cwd, path0), AbsPath(cwd, wrksrc0))
    ensures var path, wrksrc := AbsPath(cwd, path0), AbsPath(cwd, wrksrc0);
            && (NormPath(JoinPath(wrksrc, rel)) == path <==> Meets(path, wrksrc))
            && (Meets(path, wrksrc) ==> !StartsWith(rel, "/"))
            && (!Meets(path, wrksrc) ==> NormPath(JoinPath(wrksrc, rel)) == "/" + Join(Components(path)))
  {
    hide Components, NormPath, JoinPath, Adjust, Join, Root, IsAbsolute, AbsPath;
    var path, wrksrc := AbsPath(cwd, path0), AbsPath(cwd, wrksrc0);
    AbsPathIsAbsolute(cwd, path0);
    AbsPathIsAbsolute(cwd, wrksrc0);
    AbsoluteParts(path);
    AbsoluteParts(wrksrc);
    var slashed := wrksrc + "/";
    var n := CommonPrefix(path, slashed);
    ghost var longest := n;
    while path[n - 1] != SLASH
      invariant 1 <= n <= longest <= |path| && longest <= |slashed| && path[..longest] == slashed[..longest]
      invariant forall i | n <= i < longest :: path[i] != SLASH
      decreases n
    {
      n := n - 1;
    }
    LongestIsSplit(path, slashed, longest, n);
    LeftIsRelative(path, wrksrc, n);
    var adjust := Climb(slashed[n..]);
    rel := JoinPath(adjust, path[n..]);
    Arrives(path, wrksrc, n);
  }

  lemma LongestIsSplit(path: string, slashed: string, longest: nat, n: nat)
    requires 1 <= n <= longest <= |path| && longest <= |slashed| && path[..longest] == slashed[..longest]
    requires longest < |path| && longest < |slashed| ==> path[longest] != slashed[longest]
    requires path[n - 1] == SLASH && forall i | n <= i < longest :: path[i] != SLASH
    ensures IsSplit(path, slashed, n)
  {
    assert path[..n] == path[..longest][..n] == slashed[..longest][..n] == slashed[..n];
    forall m | n < m <= |path| && m <= |slashed| ensures path[..m] != slashed[..m] || path[m - 1] != SLASH {
      if m > longest {
        assert path[..m][longest] == path[longest] && slashed[..m][longest] == slashed[longest];
      }
    }
  }

  /** Where the result leads. */
  lemma Arrives(path: string, wrksrc: string, n: nat)
    requires IsAbsolute(path) && IsAbsolute(wrksrc) && IsSplit(path, wrksrc + "/", n) && Ends(path, wrksrc)
    ensures var rel := JoinPath(Adjust(|Components((wrksrc + "/")[n..])|), path[n..]);
            && (NormPath(JoinPath(wrksrc, rel)) == path <==> Meets(path, wrksrc))
            && (Meets(path, wrksrc) ==> !StartsWith(rel, "/"))
            && (!Meets(path, wrksrc) ==> NormPath(JoinPath(wrksrc, rel)) == "/" + Join(Components(path)))
  {
    hide Components, NormPath, JoinPath, Adjust, Join, Root, IsAbsolute;
    var k := |Components((wrksrc + "/")[n..])|;
    AbsoluteParts(path);
    AbsoluteParts(wrksrc);
    SomeRoot(path);
    SomeRoot(wrksrc);
    if Meets(path, wrksrc) {
      SplitAt(path, wrksrc, n);
      RelComponents(k, path[n..]);
    } else {
      AbsoluteText(wrksrc);
      SplitApart(path, wrksrc, n);
      NoComponents();
      RootsApart(path, wrksrc, n, k);
    }
  }

  // ---------------------------------------------------------------- makepatchname

  /** str.replace of one character. */
  function Replace(s: string, c: char, with': string): string {
    if s == "" then "" else (if s[0] == c then with' else [s[0]]) + Replace(s[1..], c, with')
  }

  const SRS := '_'

  /** The name without its constant prefix and the directory it is joined to. */
  function PatchName(path: string): string {
    Replace(Replace(path, SRS, [SRS, SRS]), SLASH, [SRS])
  }

  function Code(c: char): string {
    if c == SRS then [SRS, SRS] else if c == SLASH then [SRS] else [c]
  }

  lemma {:induction false} ReplaceConcat(a: string, b: string, c: char, with': string)
    ensures Replace(a + b, c, with') == Replace(a, c, with') + Replace(b, c, with')
  {
    if a == "" {
      assert a + b == b;
    } else {
      assert (a + b)[1..] == a[1..] + b;
      ReplaceConcat(a[1..], b, c, with');
    }
  }

  /** The two replacements do not disturb each other: they encode character by character. */
  lemma PatchNameUnfold(path: string)
    requires path != ""
    ensures PatchName(path) == Code(path[0]) + PatchName(path[1..])
  {
    var rest := Replace(path[1..], SRS, [SRS, SRS]);
    var first := if path[0] == SRS then [SRS, SRS] else [path[0]];
    ReplaceConcat(first, rest, SLASH, [SRS]);
    assert first[1..] == if path[0] == SRS then [SRS] else "";
    assert [SRS][1..] == "";
  }

  lemma {:induction false} PatchNameConcat(a: string, b: string)
    ensures PatchName(a + b) == PatchName(a) + PatchName(b)
  {
    ReplaceConcat(a, b, SRS, [SRS, SRS]);
    ReplaceConcat(Replace(a, SRS, [SRS, SRS]), Replace(b, SRS, [SRS, SRS]), SLASH, [SRS]);
  }

  predicate IsSeparator(c: char) { c == SRS || c == SLASH }

  /** No two of '_' and '/' stand next to each other. */
  predicate Spaced(path: string) {
    forall i | 0 <= i < |path| - 1 :: !(IsSeparator(path[i]) && IsSeparator(path[i + 1]))
  }

  /** The decoder: two underscores stand for one, a single one for a slash. */
  function Decode(name: string): string {
    if name == "" then ""
    else if name[0] != SRS then [name[0]] + Decode(name[1..])
    else if |name| > 1 && name[1] == SRS then [SRS] + Decode(name[2..])
    else [SLASH] + Decode(name[1..])
  }

  lemma {:induction false} DecodeUndoes(path: string)
    requires Spaced(path)
    ensures Decode(PatchName(path)) == path
  {
    if path == "" {
      assert PatchName("") == "";
    } else {
      var rest := path[1..];
      PatchNameUnfold(path);
      DecodeUndoes(rest);
      if rest != "" {
        PatchNameUnfold(rest);
      }
      var name := PatchName(path);
      if path[0] == SRS {
        assert name[2..] == PatchName(rest);
      } else {
        assert name[1..] == PatchName(rest);
      }
    }
  }

  lemma FirstAgrees(p: string, q: string)
    requires p != "" && q != "" && Spaced(p) && NoDoubleSlash(q) && PatchName(p) == PatchName(q)
    ensures p[0] == q[0]
  {
    hide PatchName;
    var name, p', q' := PatchName(p), p[1..], q[1..];
    PatchNameUnfold(p);
    PatchNameUnfold(q);
    PatchNameEmpty();
    if p' != "" {
      PatchNameUnfold(p');
      assert !(IsSeparator(p[0]) && IsSeparator(p[1]));
    }
    if q' != "" {
      PatchNameUnfold(q');
      assert !(q[0] == SLASH && q[1] == SLASH);
    }
    var n := |Code(p[0])|;
    assert name[0] == (if IsSeparator(p[0]) then SRS else p[0]) == (if IsSeparator(q[0]) then SRS else q[0]);
    assert p[0] == SRS || q[0] == SRS ==> |name| > 1 && name[1] == SRS;
    assert IsSeparator(p[0]) ==> |name| == n || (name[n] == PatchName(p')[0] && name[n] != SRS);
    assert q[0] == SLASH ==> |name| == 1 || name[1] == PatchName(q')[0];
    assert q' != "" && q[1] == SRS ==> |PatchName(q')| > 1 && PatchName(q')[1] == SRS;
  }

  lemma PatchNameEmpty()
    ensures PatchName("") == ""
  {
  }

  /** A spaced path shares its name with no other path that has no empty component. */
  lemma {:induction false} SpacedIsUnique(p: string, q: string)
    requires Spaced(p) && NoDoubleSlash(q) && PatchName(p) == PatchName(q)
    ensures p == q
  {
    if p == "" || q == "" {
      if p != "" { PatchNameUnfold(p); }
      if q != "" { PatchNameUnfold(q); }
    } else {
      var p', q' := p[1..], q[1..];
      PatchNameUnfold(p);
      PatchNameUnfold(q);
      if p' != "" { PatchNameUnfold(p'); }
      if q' != "" { PatchNameUnfold(q'); }
      assert p[0] == q[0] by { FirstAgrees(p, q); }
      assert PatchName(p') == PatchName(p)[|Code(p[0])|..] == PatchName(q');
      SpacedIsUnique(p', q');
    }
  }

  lemma SwapMiddle(a: string, m: string, b: string, m': string)
    requires PatchName(m) == PatchName(m')
    ensures PatchName(a + m + b) == PatchName(a + m' + b)
  {
    PatchNameConcat(a + m, b);
    PatchNameConcat(a, m);
    PatchNameConcat(a + m', b);
    PatchNameConcat(a, m');
  }

  lemma SmallNames()
    ensures PatchName("/_") == PatchName("_/") && PatchName("__") == PatchName("/_/")
  {
    hide PatchName;
    PatchNameEmpty();
    PatchNameUnfold("_");
    PatchNameUnfold("/");
    PatchNameUnfold("/_");
    PatchNameUnfold("_/");
    PatchNameUnfold("__");
    PatchNameUnfold("/_/");
    assert "/_"[1..] == "_" && "_/"[1..] == "/" && "__"[1..] == "_" && "/_/"[1..] == "_/";
    assert "_"[1..] == "" && "/"[1..] == "";
  }

  /** Replacing the middle of a path by another text without a double slash, away from other slashes. */
  lemma NoDoubleSlashMiddle(a: string, m: string, b: string, m': string)
    requires NoDoubleSlash(a + m + b) && NoDoubleSlash(m') && m != "" && m' != ""
    requires a == "" || a[|a| - 1] != SLASH || m'[0] != SLASH
    requires b == "" || b[0] != SLASH || m'[|m'| - 1] != SLASH
    ensures NoDoubleSlash(a + m' + b)
  {
    var t, t' := a + m + b, a + m' + b;
    forall i | 0 <= i < |t'| - 1 ensures !(t'[i] == SLASH && t'[i + 1] == SLASH) {
      if i + 1 < |a| {
        assert t'[i] == t[i] && t'[i + 1] == t[i + 1];
      } else if |a| <= i && i + 1 < |a| + |m'| {
        assert t'[i] == m'[i - |a|] && t'[i + 1] == m'[i + 1 - |a|];
      } else if i >= |a| + |m'| {
        var j := i - |m'| + |m|;
        assert t'[i] == t[j] && t'[i + 1] == t[j + 1];
      }
    }
  }

  lemma CollideWith(p: string, a: string, m: string, b: string, m': string) returns (q: string)
    requires p == a + m + b && NoDoubleSlash(p) && NoDoubleSlash(m') && m != "" && m' != ""
    requires a == "" || a[|a| - 1] != SLASH || m'[0] != SLASH
    requires b == "" || b[0] != SLASH || m'[|m'| - 1] != SLASH
    requires PatchName(m) == PatchName(m') && (|m| != |m'| || m[0] != m'[0])
    ensures NoDoubleSlash(q) && q != p && PatchName(q) == PatchName(p)
  {
    q := a + m' + b;
    SwapMiddle(a, m, b, m');
    NoDoubleSlashMiddle(a, m, b, m');
    assert p[|a|] == m[0] && q[|a|] == m'[0];
  }

  /** Another path with the same name, made by exchanging a pair of adjacent separators. */
  lemma Collide(p: string, i: nat) returns (q: string)
    requires NoDoubleSlash(p) && i + 1 < |p| && IsSeparator(p[i]) && IsSeparator(p[i + 1])
    ensures NoDoubleSlash(q) && q != p && PatchName(q) == PatchName(p)
  {
    hide PatchName;
    SmallNames();
    var a := p[..i];
    if p[i] == SLASH && i + 2 < |p| && p[i + 2] == SLASH {
      q := CollideWith(p, a, "/_/", p[i + 3..], "__");
    } else if p[i] == SLASH {
      q := CollideWith(p, a, "/_", p[i + 2..], "_/");
    } else if p[i + 1] == SLASH && i > 0 && p[i - 1] == SLASH {
      q := CollideWith(p, p[..i - 1], "/_/", p[i + 2..], "__");
    } else if p[i + 1] == SLASH {
      q := CollideWith(p, a, "_/", p[i + 2..], "/_");
    } else if i + 2 < |p| && p[i + 2] == SLASH {
      q := CollideWith(p, p[..i + 1], "_/", p[i + 3..], "/_");
    } else if i > 0 && p[i - 1] == SLASH {
      q := CollideWith(p, p[..i - 1], "/_", p[i + 1..], "_/");
    } else {
      q := CollideWith(p, a, "__", p[i + 2..], "/_/");
    }
  }

  /** Among paths without empty components the name is one-to-one at a path if and only if no two of
      '_' and '/' stand next to each other in it. */
  lemma UniqueNameIff(p: string)
    requires NoDoubleSlash(p)
    ensures (forall q | NoDoubleSlash(q) && PatchName(q) == PatchName(p) :: q == p) <==> Spaced(p)
  {
    if Spaced(p) {
      forall q | NoDoubleSlash(q) && PatchName(q) == PatchName(p) ensures q == p {
        SpacedIsUnique(p, q);
      }
    } else {
      var i :| 0 <= i < |p| - 1 && IsSeparator(p[i]) && IsSeparator(p[i + 1]);
      var q := Collide(p, i);
    }
  }
}

/** Turning a path into a relative one in a bounded buffer. */
module SanitizePath {
  import opened Common
  import opened Scanning
  import opened PathText

  function Pop(stack: seq<string>): seq<string> {
    if stack == [] then [] else stack[..|stack| - 1]
  }

  /** The normal form: "." is dropped and ".." pops one component if there is one. */
  function Normal(comps: seq<string>, stack: seq<string>): seq<string>
    decreases |comps|
  {
    if comps == [] then stack
    else if comps[0] == "." then Normal(comps[1..], stack)
    else if comps[0] == ".." then Normal(comps[1..], Pop(stack))
    else Normal(comps[1..], stack + [comps[0]])
  }

  /** How the copy ends: with every component processed, or at one that does not fit. */
  datatype Ending = Whole(stack: seq<string>) | CutOff(stack: seq<string>, comp: string)

  function Bounded(comps: seq<string>, stack: seq<string>, size: nat): Ending
    decreases |comps|
  {
    if comps == [] then Whole(stack)
    else if comps[0] == "." then Bounded(comps[1..], stack, size)
    else if comps[0] == ".." then Bounded(comps[1..], Pop(stack), size)
    else if |Join(stack + [comps[0]])| < size then Bounded(comps[1..], stack + [comps[0]], size)
    else CutOff(stack, comps[0])
  }

  /** The string left in a buffer of the given size. */
  function Text(e: Ending, size: nat): string
    requires size > 0 && (e.CutOff? ==> |Join(e.stack + [e.comp])| >= size)
  {
    match e
    case Whole(stack) => Join(stack)
    case CutOff(stack, comp) => Join(stack + [comp])[..size - 1]
  }

  lemma {:induction false} BoundedCuts(comps: seq<string>, stack: seq<string>, size: nat)
    requires |Join(stack)| < size
    ensures var e := Bounded(comps, stack, size);
            && (e.CutOff? ==> |Join(e.stack + [e.comp])| >= size) && |Join(e.stack)| < size
    decreases |comps|
  {
    if comps != [] {
      if comps[0] == "." {
        BoundedCuts(comps[1..], stack, size);
      } else if comps[0] == ".." {
        PopShrinks(stack);
        BoundedCuts(comps[1..], Pop(stack), size);
      } else if |Join(stack + [comps[0]])| < size {
        BoundedCuts(comps[1..], stack + [comps[0]], size);
      }
    }
  }

  lemma PopShrinks(stack: seq<string>)
    ensures |Join(Pop(stack))| <= |Join(stack)|
  {
  }

  /** What copy_path_relative leaves in dest. */
  function Sanitized(src: string, size: nat): (r: string)
    requires size > 0
    ensures |r| < size
  {
    BoundedCuts(Components(src), [], size);
    Text(Bounded(Components(src), [], size), size)
  }

  // ---------------------------------------------------------------- sources that fit

  function Weight(comps: seq<string>): nat {
    if comps == [] then 0 else |comps[0]| + 1 + Weight(comps[1..])
  }

  lemma {:induction false} WeightPush(stack: seq<string>, c: string)
    ensures Weight(stack + [c]) == Weight(stack) + |c| + 1
  {
    if stack != [] {
      assert (stack + [c])[1..] == stack[1..] + [c];
      WeightPush(stack[1..], c);
    }
  }

  lemma {:induction false} JoinWeight(stack: seq<string>)
    ensures |Join(stack)| + 1 == if stack == [] then 1 else Weight(stack)
  {
    if stack != [] {
      var rest, last := stack[..|stack| - 1], stack[|stack| - 1];
      assert stack == rest + [last];
      WeightPush(rest, last);
      JoinPush(rest, last);
      JoinWeight(rest);
    }
  }

  lemma {:induction false} ComponentsWeight(s: string)
    ensures Weight(Components(s)) <= |s| + 1
    decreases |s|
  {
    hide Components, Until, From;
    var slashes, c, rest := SplitFirst(s);
    NoComponents();
    if c == "" {
      SkipSlashes(slashes, "");
      assert slashes + "" == s;
    } else {
      ComponentsUnfold(slashes, c, rest);
      if rest != "" {
        assert [SLASH] + rest[1..] == rest;
        SkipSlashes([SLASH], rest[1..]);
        ComponentsWeight(rest[1..]);
      }
    }
  }

  lemma {:induction false} FittingIsWhole(comps: seq<string>, stack: seq<string>, size: nat)
    requires Weight(stack) + Weight(comps) <= size
    ensures Bounded(comps, stack, size) == Whole(Normal(comps, stack))
    decreases |comps|
  {
    if comps != [] {
      if comps[0] == "." {
        FittingIsWhole(comps[1..], stack, size);
      } else if comps[0] == ".." {
        if stack != [] {
          assert stack == Pop(stack) + [stack[|stack| - 1]];
          WeightPush(Pop(stack), stack[|stack| - 1]);
        }
        FittingIsWhole(comps[1..], Pop(stack), size);
      } else {
        WeightPush(stack, comps[0]);
        JoinWeight(stack + [comps[0]]);
        FittingIsWhole(comps[1..], stack + [comps[0]], size);
      }
    }
  }

  lemma {:induction false} NormalIsClean(comps: seq<string>, stack: seq<string>)
    requires Clean(stack) && forall c | c in comps :: Plain(c)
    ensures Clean(Normal(comps, stack))
    decreases |comps|
  {
    if comps != [] {
      var next := if comps[0] == "." then stack else if comps[0] == ".." then Pop(stack) else stack + [comps[0]];
      NormalIsClean(comps[1..], next);
    }
  }

  lemma {:induction false} CleanIsNormal(comps: seq<string>, stack: seq<string>)
    requires Clean(comps)
    ensures Normal(comps, stack) == stack + comps
    decreases |comps|
  {
    if comps != [] {
      assert comps[0] in comps;
      CleanIsNormal(comps[1..], stack + [comps[0]]);
    }
  }

  lemma NoWeight()
    ensures Weight([]) == 0
  {
  }

  /** A source shorter than the buffer is replaced by the join of its normal form, which is clean, has no
      leading slash, and is left alone by a second pass. */
  lemma FittingSourceIsNormalised(src: string, size: nat)
    requires |src| < size
    ensures Sanitized(src, size) == Join(Normal(Components(src), []))
    ensures Clean(Components(Sanitized(src, size)))
    ensures Sanitized(Sanitized(src, size), size) == Sanitized(src, size)
  {
    hide Components, Normal, Join, Weight, Bounded, Sanitized;
    var comps := Components(src);
    var stack := Normal(comps, []);
    var out := Join(stack);
    FittingText(src, size);
    NormalIsClean(comps, []);
    ComponentsOfJoin(stack);
    FittingText(out, size);
    CleanIsNormal(stack, []);
    assert [] + stack == stack;
  }

  lemma FittingText(src: string, size: nat)
    requires |src| < size
    ensures Sanitized(src, size) == Join(Normal(Components(src), []))
  {
    hide Components, Normal, Join, Weight, Bounded;
    NoWeight();
    ComponentsWeight(src);
    FittingIsWhole(Components(src), [], size);
  }

  // ---------------------------------------------------------------- sources that are cut off

  /** What is kept of the component that does not fit. */
  function Kept(e: Ending, size: nat): string
    requires e.CutOff? && |Join(e.stack)| < size <= |Join(e.stack + [e.comp])|
  {
    JoinPush(e.stack, e.comp);
    if e.stack == [] then e.comp[..size - 1]
    else if size - 1 == |Join(e.stack)| then ""
    else e.comp[..size - 2 - |Join(e.stack)|]
  }

  lemma CutComponents(e: Ending, size: nat)
    requires e.CutOff? && |Join(e.stack)| < size <= |Join(e.stack + [e.comp])|
    requires Clean(e.stack) && Plain(e.comp)
    ensures Components(Text(e, size)) == e.stack + (if Kept(e, size) == "" then [] else [Kept(e, size)])
  {
    hide Components, Join, Text, Kept;
    var kept := Kept(e, size);
    CutText(e, size);
    ComponentsOfJoin(e.stack);
    NoComponents();
    ComponentsConcat(Join(e.stack), kept);
    if kept != "" {
      ComponentsOfPlain(kept);
    }
  }

  lemma CutText(e: Ending, size: nat)
    requires e.CutOff? && |Join(e.stack)| < size <= |Join(e.stack + [e.comp])| && SLASH !in e.comp
    ensures var kept := Kept(e, size);
            && SLASH !in kept
            && Text(e, size) == (if e.stack == [] then kept else if size - 1 == |Join(e.stack)| then Join(e.stack)
                                 else Join(e.stack) + [SLASH] + kept)
            && (size - 1 == |Join(e.stack)| && e.stack != [] ==> kept == "")
  {
    hide Join;
    JoinPush(e.stack, e.comp);
    EmptyJoin();
  }

  lemma {:induction false} BoundedIsClean(comps: seq<string>, stack: seq<string>, size: nat)
    requires Clean(stack) && forall c | c in comps :: Plain(c)
    ensures var e := Bounded(comps, stack, size);
            Clean(e.stack) && (e.CutOff? ==> Plain(e.comp) && e.comp != "." && e.comp != "..")
    decreases |comps|
  {
    if comps != [] {
      var c := comps[0];
      if c == "." {
        BoundedIsClean(comps[1..], stack, size);
      } else if c == ".." {
        BoundedIsClean(comps[1..], Pop(stack), size);
      } else if |Join(stack + [c])| < size {
        BoundedIsClean(comps[1..], stack + [c], size);
      }
    }
  }

  /** The result climbs out of its directory if and only if the buffer cuts a longer component to "..". */
  lemma ClimbsOutIff(src: string, size: nat)
    requires size > 0
    ensures var e := Bounded(Components(src), [], size);
            && (e.CutOff? ==> |Join(e.stack)| < size <= |Join(e.stack + [e.comp])|)
            && (".." in Components(Sanitized(src, size)) <==> e.CutOff? && Kept(e, size) == "..")
  {
    var e := Bounded(Components(src), [], size);
    BoundedCuts(Components(src), [], size);
    BoundedIsClean(Components(src), [], size);
    if e.CutOff? {
      CutComponents(e, size);
    } else {
      ComponentsOfJoin(e.stack);
    }
  }

  /** It can happen: three bytes for the name "..a". */
  lemma TruncationClimbsOut()
    ensures Sanitized("..a", 3) == ".."
  {
    ComponentsOfPlain("..a");
    assert Bounded(["..a"], [], 3) == CutOff([], "..a");
  }

  /** Whatever the size, the result is relative. */
  lemma NeverAbsolute(src: string, size: nat)
    requires size > 0
    ensures Sanitized(src, size) == "" || Sanitized(src, size)[0] != SLASH
  {
    var e := Bounded(Components(src), [], size);
    BoundedCuts(Components(src), [], size);
    BoundedIsClean(Components(src), [], size);
    JoinStart(e.stack);
    if e.CutOff? {
      JoinStart(e.stack + [e.comp]);
    }
  }

  // ---------------------------------------------------------------- the copy loop

  /** The position of the last slash before o, or o if there is none. */
  method LastSlash(dest: array<char>, o: nat) returns (t: nat)
    requires o <= dest.Length
    ensures t <= o && (t < o ==> dest[t] == SLASH) && forall i | t < i < o :: dest[i] != SLASH
    ensures t == o ==> forall i | 0 <= i < o :: dest[i] != SLASH
  {
    t := o;
    var i := o;
    while i > 0
      invariant 0 <= i <= o && t == o && forall k | i <= k < o :: dest[k] != SLASH
    {
      i := i - 1;
      if dest[i] == SLASH { return i; }
    }
  }

  /** The last slash of a joined stack separates its last component. */
  lemma LastSlashOfJoin(stack: seq<string>, t: nat)
    requires stack != [] && (forall c | c in stack :: Plain(c)) && t <= |Join(stack)|
    requires t < |Join(stack)| ==> Join(stack)[t] == SLASH
    requires forall i | t < i < |Join(stack)| :: Join(stack)[i] != SLASH
    requires t == |Join(stack)| ==> forall i | 0 <= i < |Join(stack)| :: Join(stack)[i] != SLASH
    ensures if t == |Join(stack)| then |stack| == 1 else |stack| > 1 && Join(stack)[..t] == Join(Pop(stack))
  {
    var joined, last := Join(stack), stack[|stack| - 1];
    assert last in stack;
    if |stack| == 1 {
      assert forall k | 0 <= k < |joined| :: joined[k] in last;
    } else {
      var cut := |Join(Pop(stack))|;
      assert joined == Join(Pop(stack)) + [SLASH] + last && joined[cut] == SLASH;
      assert forall k | cut < k < |joined| :: joined[k] == last[k - cut - 1] && joined[k] in last;
    }
  }

  lemma DropSlash(src: string, p: nat)
    requires p < |src| && src[p] == SLASH
    ensures Components(src[p..]) == Components(src[p + 1..])
  {
    assert src[p..] == [SLASH] + src[p + 1..];
    SkipSlashes([SLASH], src[p + 1..]);
  }

  method PassSlashes(src: string, p: nat) returns (q: nat)
    requires p <= |src|
    ensures p <= q <= |src| && (q < |src| ==> src[q] != SLASH)
    ensures Components(src[q..]) == Components(src[p..])
  {
    hide Components;
    q := p;
    while q < |src| && src[q] == SLASH
      invariant p <= q <= |src| && Components(src[q..]) == Components(src[p..])
    {
      DropSlash(src, q);
      q := q + 1;
    }
  }

  method EndOfComponent(src: string, p: nat) returns (q: nat)
    requires p < |src| && src[p] != SLASH
    ensures p < q <= |src| && (q < |src| ==> src[q] == SLASH) && Plain(src[p..q])
    ensures Components(src[p..]) == [src[p..q]] + Components(src[q..])
  {
    hide Components;
    q := p;
    while q < |src| && src[q] != SLASH
      invariant p <= q <= |src| && SLASH !in src[p..q] && (q == p ==> src[q] != SLASH)
    {
      assert src[p..q + 1] == src[p..q] + [src[q]];
      q := q + 1;
    }
    assert src[p..] == "" + (src[p..q] + src[q..]);
    ComponentsUnfold("", src[p..q], src[q..]);
  }

  /** Appends a component, and a slash in front of it unless it is the first, as far as there is room. */
  method AppendComponent(dest: array<char>, o: nat, room: nat, c: string, ghost stack: seq<string>)
    returns (o': nat, room': nat)
    requires o + room <= dest.Length && room > 0
    requires (forall c | c in stack :: Plain(c)) && dest[..o] == Join(stack)
    modifies dest
    ensures var all := Join(stack + [c]);
            o' + room' == o + room && o' == Min(|all|, o + room) && dest[..o'] == all[..o']
    ensures dest[o + room..] == old(dest[o + room..])
  {
    hide Join;
    JoinEmptyIff(stack);
    JoinPush(stack, c);
    o', room' := o, room;
    if o' != 0 {
      room' := room' - 1;
      dest[o'] := SLASH;
      o' := o' + 1;
    }
    var copy := Min(|c|, room');
    ghost var start := Join(stack) + (if o == 0 then "" else [SLASH]);
    var i := 0;
    while i < copy
      invariant 0 <= i <= copy
      invariant dest[..o' + i] == start + c[..i] && dest[o + room..] == old(dest[o + room..])
    {
      dest[o' + i] := c[i];
      assert dest[..o' + (i + 1)] == dest[..o' + i] + [c[i]];
      i := i + 1;
    }
    assert Join(stack + [c]) == start + c && (start + c)[..o' + copy] == start + c[..copy];
    room' := room' - copy;
    o' := o' + copy;
  }

  /** Cuts the last component off the joined stack in dest[..o]. */
  method PopComponent(dest: array<char>, o: nat, ghost stack: seq<string>) returns (o': nat)
    requires o < dest.Length && stack != [] && (forall c | c in stack :: Plain(c)) && dest[..o] == Join(stack)
    modifies dest
    ensures o' <= o && dest[..o'] == Join(Pop(stack)) && dest[o + 1..] == old(dest[o + 1..])
  {
    hide Join;
    dest[o] := NUL;
    var t := LastSlash(dest, o);
    assert forall i | 0 <= i < o :: dest[i] == dest[..o][i];
    LastSlashOfJoin(stack, t);
    if t == o {
      EmptyJoin();
      o' := 0;
    } else {
      assert dest[..t] == dest[..o][..t];
      o' := t;
    }
  }

  lemma JoinEmptyIff(stack: seq<string>)
    requires forall c | c in stack :: Plain(c)
    ensures Join(stack) == "" <==> stack == []
  {
    JoinStart(stack);
  }

  /** copy_path_relative.  It writes only the first len bytes of dest. */
  method CopyPathRelative(dest: array<char>, src: string, len: nat)
    requires 0 < len <= dest.Length
    modifies dest
    ensures var out := Sanitized(src, len);
            dest[..|out|] == out && dest[|out|] == NUL && dest[len..] == old(dest[len..])
  {
    hide Components, Bounded, Join, Sanitized;
    var o: nat, room: nat := 0, len;
    dest[0] := NUL;
    ghost var stack: seq<string> := [];
    ghost var ending := Bounded(Components(src), [], len);
    EmptyJoin();
    assert src[0..] == src;
    var p := PassSlashes(src, 0);
    while room > 0 && p < |src|
      invariant p <= |src| && (p < |src| ==> src[p] != SLASH)
      invariant o + room == len && dest[len..] == old(dest[len..])
      invariant room > 0 ==> dest[..o] == Join(stack) && (forall c | c in stack :: Plain(c))
                             && Bounded(Components(src[p..]), stack, len) == ending
      invariant room == 0 ==> ending.CutOff? && |Join(ending.stack + [ending.comp])| >= len
                              && dest[..len] == Join(ending.stack + [ending.comp])[..len]
      decreases |src| - p
    {
      var start := p;
      p := EndOfComponent(src, p);
      var c := src[start..p];
      BoundedUnfold(c, Components(src[p..]), stack, len);
      JoinEmptyIff(stack);
      if c == "." {
      } else if c == ".." {
        if o != 0 {
          o := PopComponent(dest, o, stack);
          room := len - o;
          stack := Pop(stack);
        }
      } else {
        o, room := AppendComponent(dest, o, room, c, stack);
        stack := stack + [c];
      }
      p := PassSlashes(src, p);
    }
    NoComponents();
    BoundedEnds(stack, len);
    if room != 0 {
      assert src[p..] == "";
      WholeText(src, len, stack);
      dest[o] := NUL;
    } else {
      CutOffText(src, len, dest[..len]);
      assert dest[..len][..len - 1] == dest[..len - 1];
      dest[o - 1] := NUL;
    }
  }

  lemma WholeText(src: string, size: nat, stack: seq<string>)
    requires size > 0 && Bounded(Components(src), [], size) == Whole(stack)
    ensures Sanitized(src, size) == Join(stack)
  {
  }

  lemma CutOffText(src: string, size: nat, full: string)
    requires size > 0 && Bounded(Components(src), [], size).CutOff?
    requires var e := Bounded(Components(src), [], size);
             |Join(e.stack + [e.comp])| >= size && full == Join(e.stack + [e.comp])[..size]
    ensures Sanitized(src, size) == full[..size - 1]
  {
  }

  lemma BoundedUnfold(c: string, rest: seq<string>, stack: seq<string>, size: nat)
    ensures Bounded([c] + rest, stack, size)
         == if c == "." then Bounded(rest, stack, size)
            else if c == ".." then Bounded(rest, Pop(stack), size)
            else if |Join(stack + [c])| < size then Bounded(rest, stack + [c], size)
            else CutOff(stack, c)
  {
  }

  lemma BoundedEnds(stack: seq<string>, size: nat)
    ensures Bounded([], stack, size) == Whole(stack)
  {
  }
}

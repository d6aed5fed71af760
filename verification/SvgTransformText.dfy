/** Transform attributes as text: nsvg__parseTransform, and what it makes of a printed transform list. */
module SvgTransformText {
  import opened Common
  import opened SvgGeometry
  import opened SvgTransform
  import opened Scanning
  import L = SvgLexer

  /** What the result depends on besides the text: number conversion, trigonometry in degrees, and the values
      found in array slots that were never written, by remaining text and slot. */
  datatype Env = Env(atof: string -> real, sin: real -> real, cos: real -> real, tan: real -> real,
                     leftover: (nat, nat) -> real)

  datatype Kind = Matrix | Translate | Scale | Rotate | SkewX | SkewY

  function Name(k: Kind): (r: string)
    ensures |r| >= 5
  {
    match k
    case Matrix => "matrix"
    case Translate => "translate"
    case Scale => "scale"
    case Rotate => "rotate"
    case SkewX => "skewX"
    case SkewY => "skewY"
  }

  function KindAt(s: string): Option<Kind> {
    if Name(Matrix) <= s then Some(Matrix)
    else if Name(Translate) <= s then Some(Translate)
    else if Name(Scale) <= s then Some(Scale)
    else if Name(Rotate) <= s then Some(Rotate)
    else if Name(SkewX) <= s then Some(SkewX)
    else if Name(SkewY) <= s then Some(SkewY)
    else None
  }

  function MaxArgs(k: Kind): nat {
    match k
    case Matrix => 6
    case Translate => 2
    case Scale => 2
    case Rotate => 3
    case SkewX => 1
    case SkewY => 1
  }

  // ---------------------------------------------------------------- arguments

  predicate StartsNumber(c: char) { L.IsSign(c) || c == '.' || L.IsDigit(c) }

  /** The position of c at or after i, or the length. */
  function Find(s: string, c: char, i: nat): (j: nat)
    requires i <= |s|
    ensures i <= j <= |s| && (j < |s| ==> s[j] == c)
    ensures forall k | i <= k < j :: s[k] != c
    decreases |s| - i
  {
    if i < |s| && s[i] != c then Find(s, c, i + 1) else i
  }

  /** The numbers from i up to end, at most room of them; the flag says that one more was there. */
  function Collect(s: string, i: nat, end: nat, room: nat): (seq<string>, bool)
    requires i <= |s| && end <= |s|
    decreases |s| - i
  {
    if i >= end then ([], false)
    else if StartsNumber(s[i]) then
      if room == 0 then ([], true)
      else
        var j := L.NumberEnd(s, i);
        var (more, over) := Collect(s, j, end, room - 1);
        ([L.Truncate(s[i..j])] + more, over)
    else Collect(s, i + 1, end, room)
  }

  /** nsvg__parseTransformArgs: the arguments, and by how much to advance; 0 when there are too many. */
  function Args(s: string, max: nat): (seq<string>, nat) {
    var open := Find(s, '(', 0);
    if open == |s| then ([], 1)
    else
      var end := Find(s, ')', open);
      if end == |s| then ([], 1)
      else
        var (args, over) := Collect(s, open, end, max);
        (args, if over then 0 else end)
  }

  // ---------------------------------------------------------------- one entry

  function Translation(x: real, y: real): Xform { Xform(1.0, 0.0, 0.0, 1.0, x, y) }

  function Scaling(x: real, y: real): Xform { Xform(x, 0.0, 0.0, y, 0.0, 0.0) }

  function Rotation(env: Env, a: real): Xform {
    Xform(env.cos(a), env.sin(a), -env.sin(a), env.cos(a), 0.0, 0.0)
  }

  /** A rotation about a point. */
  function About(env: Env, a: real, x: real, y: real): Xform {
    Then(Then(Then(IDENTITY, Translation(-x, -y)), Rotation(env, a)), Translation(x, y))
  }

  /** Argument i, or what its slot held before. */
  function Arg(env: Env, args: seq<string>, i: nat, rest: nat): real {
    if i < |args| then env.atof(args[i]) else env.leftover(rest, i)
  }

  /** The matrix after reading an entry; was is the one before, rest how much text was left. */
  function EntryMatrix(env: Env, k: Kind, args: seq<string>, was: Xform, rest: nat): Xform {
    var a := i requires 0 <= i => Arg(env, args, i, rest);
    match k
    case Matrix => if |args| == 6 then Xform(a(0), a(1), a(2), a(3), a(4), a(5)) else was
    case Translate => Translation(a(0), if |args| == 1 then 0.0 else a(1))
    case Scale => Scaling(a(0), if |args| == 1 then a(0) else a(1))
    case Rotate =>
      if |args| > 1 then About(env, a(0), a(1), a(2))
      else Then(IDENTITY, Rotation(env, a(0)))
    case SkewX => Xform(1.0, 0.0, env.tan(a(0)), 1.0, 0.0, 0.0)
    case SkewY => Xform(1.0, env.tan(a(0)), 0.0, 1.0, 0.0, 0.0)
  }

  /** nsvg__parseTransform from here on: t is the matrix of the last entry, xform the product so far. */
  function Parse(env: Env, s: string, t: Xform, xform: Xform): Xform
    decreases |s|
  {
    if s == "" then xform
    else
      match KindAt(s)
      case None => Parse(env, s[1..], t, xform)
      case Some(k) =>
        var (args, len) := Args(s, MaxArgs(k));
        var u := EntryMatrix(env, k, args, t, |s|);
        if len == 0 then Parse(env, s[1..], u, xform) else Parse(env, s[len..], u, Then(u, xform))
  }

  // ---------------------------------------------------------------- printed lists

  /** A number and the blanks and commas after it. */
  datatype Argument = Argument(number: string, gap: string)

  /** An entry with blanks and commas before its parenthesis, before its first number and after its end. */
  datatype Entry = Entry(kind: Kind, open: string, lead: string, args: seq<Argument>, after: string)

  /** A number text that is read back whole. */
  predicate NumberOk(n: string) {
    && n != "" && StartsNumber(n[0]) && L.NumberEnd(n, 0) == |n| <= L.ITEM_LENGTH
    && forall c | c in n :: c != '(' && c != ')'
  }

  /** As many arguments as SVG 1.1 section 7.6 allows. */
  predicate EnoughArgs(k: Kind, n: nat) {
    match k
    case Matrix => n == 6
    case Translate => n == 1 || n == 2
    case Scale => n == 1 || n == 2
    case Rotate => n == 1 || n == 3
    case SkewX => n == 1
    case SkewY => n == 1
  }

  predicate IsBlank(c: char) { IsSpace(c) || c == ',' }

  predicate IsGap(g: string) {
    forall c | c in g :: IsBlank(c)
  }

  /** Numbers are told apart by a gap; after the last one it may be missing. */
  predicate ArgsOk(args: seq<Argument>) {
    args == []
    || (NumberOk(args[0].number) && IsGap(args[0].gap) && (|args| > 1 ==> args[0].gap != "") && ArgsOk(args[1..]))
  }

  predicate LayoutOk(e: Entry) {
    ArgsOk(e.args) && IsGap(e.open) && IsGap(e.lead) && IsGap(e.after)
  }

  predicate EntryOk(e: Entry) {
    EnoughArgs(e.kind, |e.args|) && LayoutOk(e)
  }

  function Numbers(args: seq<Argument>): (ns: seq<string>)
    ensures |ns| == |args|
  {
    if args == [] then [] else [args[0].number] + Numbers(args[1..])
  }

  function PrintArgs(args: seq<Argument>): string {
    if args == [] then "" else args[0].number + (args[0].gap + PrintArgs(args[1..]))
  }

  function Print(e: Entry): string {
    Name(e.kind) + e.open + "(" + e.lead + PrintArgs(e.args) + ")" + e.after
  }

  function PrintList(es: seq<Entry>): string {
    if es == [] then "" else Print(es[0]) + PrintList(es[1..])
  }

  /** The matrix of an entry that depends on nothing but its text. */
  function Meaning(env: Env, e: Entry): Xform {
    EntryMatrix(env, e.kind, Numbers(e.args), IDENTITY, 0)
  }

  function Meanings(env: Env, es: seq<Entry>): (ms: seq<Xform>)
    ensures |ms| == |es|
  {
    seq(|es|, i requires 0 <= i < |es| => Meaning(env, es[i]))
  }

  // ---------------------------------------------------------------- reading numbers back

  /** n stands in s at i, and what follows it cannot belong to a number. */
  predicate Stands(s: string, i: nat, n: string) {
    && i + |n| < |s| && s[i..i + |n|] == n
    && (IsBlank(s[i + |n|]) || s[i + |n|] == ')')
  }

  lemma {:induction false} DigitsThere(s: string, i: nat, n: string, k: nat)
    requires Stands(s, i, n) && k <= |n|
    ensures L.SkipDigits(s, i + k) == i + L.SkipDigits(n, k)
    decreases |n| - k
  {
    if k < |n| {
      assert s[i + k] == s[i..i + |n|][k];
      if L.IsDigit(n[k]) { DigitsThere(s, i, n, k + 1); }
    }
  }

  lemma SameChar(s: string, i: nat, n: string, k: nat)
    requires Stands(s, i, n) && k <= |n|
    ensures if k < |n| then s[i + k] == n[k] else IsBlank(s[i + k]) || s[i + k] == ')'
  {
    if k < |n| {
      assert s[i + k] == s[i..i + |n|][k];
    }
  }

  lemma SignThere(s: string, i: nat, n: string, k: nat)
    requires Stands(s, i, n) && k <= |n|
    ensures L.SkipDigits(s, L.SkipSign(s, i + k)) == i + L.SkipDigits(n, L.SkipSign(n, k))
  {
    SameChar(s, i, n, k);
    DigitsThere(s, i, n, L.SkipSign(n, k));
  }

  lemma FractionThere(s: string, i: nat, n: string, k: nat)
    requires Stands(s, i, n) && k <= |n|
    ensures L.FractionEnd(s, i + k) == i + L.FractionEnd(n, k)
  {
    hide L.SkipDigits;
    SameChar(s, i, n, k);
    if k < |n| {
      DigitsThere(s, i, n, k + 1);
    }
  }

  lemma ExponentThere(s: string, i: nat, n: string, k: nat)
    requires Stands(s, i, n) && k <= |n|
    ensures L.ExponentEnd(s, i + k) == i + L.ExponentEnd(n, k)
  {
    hide L.SkipDigits, L.SkipSign;
    SameChar(s, i, n, k);
    if k < |n| {
      SameChar(s, i, n, k + 1);
      SignThere(s, i, n, k + 1);
    }
  }

  lemma NumberThere(s: string, i: nat, n: string)
    requires Stands(s, i, n)
    ensures L.NumberEnd(s, i) == i + L.NumberEnd(n, 0)
  {
    hide L.SkipDigits, L.SkipSign, L.FractionEnd, L.ExponentEnd;
    SignThere(s, i, n, 0);
    FractionThere(s, i, n, L.SkipDigits(n, L.SkipSign(n, 0)));
    ExponentThere(s, i, n, L.FractionEnd(n, L.SkipDigits(n, L.SkipSign(n, 0))));
  }

  lemma FirstOf(s: string, i: nat, n: string)
    requires i + |n| <= |s| && s[i..i + |n|] == n && n != ""
    ensures s[i] == n[0]
  {
    assert s[i] == s[i..i + |n|][0];
  }

  lemma SliceAt(s: string, i: nat, a: string, b: string)
    requires i + |a| + |b| <= |s| && s[i..i + |a| + |b|] == a + b
    ensures s[i..i + |a|] == a && s[i + |a|..i + |a| + |b|] == b
  {
    var whole := s[i..i + |a| + |b|];
    assert s[i..i + |a|] == whole[..|a|] == (a + b)[..|a|];
    assert s[i + |a|..i + |a| + |b|] == whole[|a|..] == (a + b)[|a|..];
  }

  /** The printed arguments stand in s at i, closed by a parenthesis. */
  predicate PrintedAt(s: string, i: nat, args: seq<Argument>) {
    && i + |PrintArgs(args)| < |s| && s[i..i + |PrintArgs(args)|] == PrintArgs(args)
    && s[i + |PrintArgs(args)|] == ')'
  }

  /** What fits into room slots, and whether there was more. */
  function Fitting(args: seq<Argument>, room: nat): (seq<string>, bool) {
    if |args| <= room then (Numbers(args), false) else (Numbers(args[..room]), true)
  }

  lemma {:induction false} CollectPrinted(s: string, i: nat, args: seq<Argument>, room: nat)
    requires ArgsOk(args) && PrintedAt(s, i, args)
    ensures i + |PrintArgs(args)| < |s|
    ensures Collect(s, i, i + |PrintArgs(args)|, room) == Fitting(args, room)
    decreases |args|
  {
    hide Collect, NumberOk, PrintArgs, Stands, PrintedAt, IsGap;
    PrintedEnd(s, i, args);
    if args == [] {
      CollectNone(s, i, room);
    } else {
      var n, g, end := args[0].number, args[0].gap, i + |PrintArgs(args)|;
      PrintedSplit(s, i, args);
      if room == 0 {
        CollectFull(s, i, n, end);
      } else {
        CollectNumber(s, i, n, end, room);
        CollectGap(s, i + |n|, g, end, room - 1);
        CollectPrinted(s, i + |n| + |g|, args[1..], room - 1);
        FittingStep(args, room);
      }
    }
  }

  lemma FittingStep(args: seq<Argument>, room: nat)
    requires args != [] && room > 0
    ensures Fitting(args, room) == ([args[0].number] + Fitting(args[1..], room - 1).0, Fitting(args[1..], room - 1).1)
  {
    if |args| > room { assert args[..room][1..] == args[1..][..room - 1]; }
  }

  lemma CollectFull(s: string, i: nat, n: string, end: nat)
    requires NumberOk(n) && Stands(s, i, n) && i + |n| <= end <= |s|
    ensures Collect(s, i, end, 0) == ([], true)
  {
    hide L.NumberEnd;
    FirstOf(s, i, n);
  }

  lemma PrintedEnd(s: string, i: nat, args: seq<Argument>)
    requires PrintedAt(s, i, args)
    ensures i + |PrintArgs(args)| < |s|
    ensures args == [] ==> |PrintArgs(args)| == 0
  {
  }

  lemma PrintedSplit(s: string, i: nat, args: seq<Argument>)
    requires args != [] && ArgsOk(args) && PrintedAt(s, i, args)
    ensures |PrintArgs(args)| == |args[0].number| + |args[0].gap| + |PrintArgs(args[1..])|
    ensures var at := i + |args[0].number|;
            && Stands(s, i, args[0].number) && s[at..at + |args[0].gap|] == args[0].gap
            && PrintedAt(s, at + |args[0].gap|, args[1..])
  {
    hide PrintArgs, NumberOk, IsGap, Stands;
    var n, g, rest := args[0].number, args[0].gap, PrintArgs(args[1..]);
    PrintedFirst(args);
    SliceAt(s, i, n, g + rest);
    SliceAt(s, i + |n|, g, rest);
    if |args| == 1 { NoArguments(); }
    FollowedByGap(s, i, n, g, rest);
  }

  lemma FollowedByGap(s: string, i: nat, n: string, g: string, rest: string)
    requires i + |n| + |g| + |rest| < |s| && s[i..i + |n|] == n && s[i + |n|..i + |n| + |g|] == g
    requires IsGap(g) && (g == "" ==> rest == "") && s[i + |n| + |g| + |rest|] == ')'
    ensures Stands(s, i, n)
  {
    hide IsBlank;
    if g != "" {
      FirstOf(s, i + |n|, g);
      assert g[0] in g;
    }
  }

  lemma PrintedFirst(args: seq<Argument>)
    requires args != []
    ensures PrintArgs(args) == args[0].number + (args[0].gap + PrintArgs(args[1..]))
  {
  }

  lemma NoArguments()
    ensures PrintArgs([]) == ""
  {
  }

  lemma {:induction false} CollectGap(s: string, i: nat, g: string, end: nat, room: nat)
    requires IsGap(g) && i + |g| <= end <= |s| && s[i..i + |g|] == g
    ensures Collect(s, i, end, room) == Collect(s, i + |g|, end, room)
    decreases |g|
  {
    if g != "" {
      hide Collect;
      FirstOf(s, i, g);
      assert g[0] in g;
      CollectSkip(s, i, end, room);
      assert s[i + 1..i + |g|] == s[i..i + |g|][1..];
      CollectGap(s, i + 1, g[1..], end, room);
    }
  }

  lemma CollectNone(s: string, i: nat, room: nat)
    requires i <= |s|
    ensures Collect(s, i, i, room) == ([], false)
  {
  }

  lemma CollectSkip(s: string, i: nat, end: nat, room: nat)
    requires i < end <= |s| && !StartsNumber(s[i])
    ensures Collect(s, i, end, room) == Collect(s, i + 1, end, room)
  {
  }

  lemma CollectNumber(s: string, i: nat, n: string, end: nat, room: nat)
    requires NumberOk(n) && Stands(s, i, n) && i + |n| <= end <= |s| && room > 0
    ensures Collect(s, i, end, room)
         == ([n] + Collect(s, i + |n|, end, room - 1).0, Collect(s, i + |n|, end, room - 1).1)
  {
    hide L.NumberEnd;
    NumberThere(s, i, n);
    FirstOf(s, i, n);
  }

  predicate NoParenthesis(s: string) {
    forall c | c in s :: c != '(' && c != ')'
  }

  lemma NoParenthesisJoins(a: string, b: string)
    requires NoParenthesis(a) && NoParenthesis(b)
    ensures NoParenthesis(a + b)
  {
  }

  lemma ArgumentPlain(a: Argument)
    requires NumberOk(a.number) && IsGap(a.gap)
    ensures NoParenthesis(a.number) && NoParenthesis(a.gap)
  {
  }

  lemma {:induction false} PrintedArgsPlain(args: seq<Argument>)
    requires ArgsOk(args)
    ensures NoParenthesis(PrintArgs(args))
    decreases |args|
  {
    if args != [] {
      hide NoParenthesis, NumberOk, IsGap;
      ArgumentPlain(args[0]);
      PrintedArgsPlain(args[1..]);
      NoParenthesisJoins(args[0].gap, PrintArgs(args[1..]));
      NoParenthesisJoins(args[0].number, args[0].gap + PrintArgs(args[1..]));
    }
  }

  lemma {:induction false} FindFirst(s: string, c: char, i: nat, j: nat)
    requires i <= j < |s| && s[j] == c && forall k | i <= k < j :: s[k] != c
    ensures Find(s, c, i) == j
    decreases j - i
  {
    if i < j { FindFirst(s, c, i + 1, j); }
  }

  lemma NamePlain(k: Kind)
    ensures forall c | c in Name(k) :: c != '(' && c != ')'
  {
  }

  /** The arguments of a printed entry, and the position of its closing parenthesis; or the first arguments, and no
      advance, if there are too many. */
  lemma ArgsOfPrinted(e: Entry, rest: string)
    requires LayoutOk(e)
    ensures var (args, more) := Fitting(e.args, MaxArgs(e.kind));
            Args(Print(e) + rest, MaxArgs(e.kind)) == (args, if more then 0 else |Print(e)| - |e.after| - 1)
  {
    hide NumberOk, Name, Collect, PrintArgs, Find, ArgsOk, StartsNumber, IsBlank;
    var head, inner := Name(e.kind) + e.open, PrintArgs(e.args);
    var body := e.lead + inner;
    var s := head + "(" + body + ")" + (e.after + rest);
    assert s == Print(e) + rest;
    var open, end := |head|, |head| + 1 + |body|;
    HeadPlain(e);
    BodyPlain(e);
    assert s[open] == '(' && s[end] == ')' && s[open + 1..end] == body;
    forall k | 0 <= k < open ensures s[k] != '(' {
      assert s[k] == head[k] && head[k] in head;
    }
    FindFirst(s, '(', 0, open);
    forall k | open <= k < end ensures s[k] != ')' {
      assert k > open ==> s[k] == body[k - open - 1] && body[k - open - 1] in body;
    }
    FindFirst(s, ')', open, end);
    ReadBody(e, s, open, end);
  }

  lemma HeadPlain(e: Entry)
    requires LayoutOk(e)
    ensures forall c | c in Name(e.kind) + e.open :: c != '('
  {
    NamePlain(e.kind);
  }

  lemma BodyPlain(e: Entry)
    requires LayoutOk(e)
    ensures forall c | c in e.lead + PrintArgs(e.args) :: c != ')'
  {
    PrintedArgsPlain(e.args);
  }

  lemma ReadBody(e: Entry, s: string, open: nat, end: nat)
    requires LayoutOk(e)
    requires open < end < |s| && s[open] == '(' && s[end] == ')' && s[open + 1..end] == e.lead + PrintArgs(e.args)
    ensures Collect(s, open, end, MaxArgs(e.kind)) == Fitting(e.args, MaxArgs(e.kind))
  {
    hide Collect, PrintArgs, ArgsOk, IsGap;
    var inner := PrintArgs(e.args);
    assert end == open + 1 + |e.lead| + |inner|;
    SliceAt(s, open + 1, e.lead, inner);
    CollectSkip(s, open, end, MaxArgs(e.kind));
    CollectGap(s, open + 1, e.lead, end, MaxArgs(e.kind));
    CollectPrinted(s, open + 1 + |e.lead|, e.args, MaxArgs(e.kind));
  }

  lemma KindOfPrinted(e: Entry, rest: string)
    ensures KindAt(Print(e) + rest) == Some(e.kind)
  {
    var name := Name(e.kind);
    var s := Print(e) + rest;
    assert s[..|name|] == name;
    assert s[0] == name[0] && s[1] == name[1] && s[4] == name[4];
  }

  /** With enough arguments nothing left over from before matters. */
  lemma EnoughIsDefined(env: Env, e: Entry, was: Xform, rest: nat)
    requires EnoughArgs(e.kind, |e.args|)
    ensures EntryMatrix(env, e.kind, Numbers(e.args), was, rest) == Meaning(env, e)
  {
    hide Then;
  }

  /** Reading an entry applies the matrix that its text and the memory give. */
  lemma ParsePrinted(env: Env, e: Entry, rest: string, t: Xform, xform: Xform)
    requires LayoutOk(e) && |e.args| <= MaxArgs(e.kind)
    ensures var m := EntryMatrix(env, e.kind, Numbers(e.args), t, |Print(e) + rest|);
            Parse(env, Print(e) + rest, t, xform) == Parse(env, rest, m, Then(m, xform))
  {
    hide Then, EntryMatrix, KindAt, Args, ArgsOk, IsGap;
    var s := Print(e) + rest;
    var m := EntryMatrix(env, e.kind, Numbers(e.args), t, |s|);
    KindOfPrinted(e, rest);
    ArgsOfPrinted(e, rest);
    assert s[|Print(e)| - |e.after| - 1..] == ")" + (e.after + rest);
    SkipChar(env, ')', e.after + rest, m, Then(m, xform));
    SkipGap(env, e.after, rest, m, Then(m, xform));
  }

  // ---------------------------------------------------------------- entries with too many arguments

  /** Characters of which no name of a kind begins. */
  predicate Quiet(c: char) { c != 'm' && c != 't' && c != 's' && c != 'r' }

  predicate BeginsKind(a: char, b: char, c: char) {
    (a, b, c) in {('m', 'a', 't'), ('t', 'r', 'a'), ('s', 'c', 'a'), ('s', 'k', 'e'), ('r', 'o', 't')}
  }

  lemma KindBegins(s: string)
    requires KindAt(s).Some?
    ensures |s| >= 3 && BeginsKind(s[0], s[1], s[2])
  {
    var k := KindAt(s).value;
    assert s[..|Name(k)|] == Name(k);
    assert s[0] == Name(k)[0] && s[1] == Name(k)[1] && s[2] == Name(k)[2];
  }

  lemma SkipQuiet(env: Env, c: char, rest: string, t: Xform, xform: Xform)
    requires KindAt([c] + rest).None?
    ensures Parse(env, [c] + rest, t, xform) == Parse(env, rest, t, xform)
  {
    hide KindAt, Args, EntryMatrix;
    assert ([c] + rest)[1..] == rest;
  }

  lemma {:induction false} SkipPlain(env: Env, text: string, rest: string, t: Xform, xform: Xform)
    requires forall c | c in text :: Quiet(c)
    ensures Parse(env, text + rest, t, xform) == Parse(env, rest, t, xform)
    decreases |text|
  {
    if text == "" {
      assert "" + rest == rest;
    } else {
      hide KindAt, Parse;
      var c, more := text[0], text[1..];
      assert c in text && text + rest == [c] + (more + rest) && ([c] + (more + rest))[0] == c;
      if KindAt([c] + (more + rest)).Some? { KindBegins([c] + (more + rest)); }
      SkipQuiet(env, c, more + rest, t, xform);
      SkipPlain(env, more, rest, t, xform);
    }
  }

  /** No name stands inside another one, whatever blank or parenthesis comes behind it. */
  lemma {:induction false} SkipName(env: Env, k: Kind, i: nat, rest: string, t: Xform, xform: Xform)
    requires 1 <= i <= |Name(k)| && rest != "" && Quiet(rest[0]) && rest[0] != 'a'
    ensures Parse(env, Name(k)[i..] + rest, t, xform) == Parse(env, rest, t, xform)
    decreases |Name(k)| - i
  {
    hide KindAt, Parse, Name;
    var tail := Name(k)[i..];
    if i == |Name(k)| {
      assert tail + rest == rest;
    } else {
      var more := Name(k)[i + 1..] + rest;
      assert tail + rest == [tail[0]] + more;
      if KindAt(tail + rest).Some? {
        KindBegins(tail + rest);
        Apart(k, i, rest);
      }
      SkipQuiet(env, tail[0], more, t, xform);
      SkipName(env, k, i + 1, rest, t, xform);
    }
  }

  lemma Apart(k: Kind, i: nat, rest: string)
    requires 1 <= i < |Name(k)| && rest != "" && Quiet(rest[0]) && rest[0] != 'a'
    ensures var s := Name(k)[i..] + rest;
            |s| >= 3 ==> !BeginsKind(s[0], s[1], s[2])
  {
    var s := Name(k)[i..] + rest;
    var n := |Name(k)|;
    assert s[0] == Name(k)[i];
    assert i + 1 < n ==> s[1] == Name(k)[i + 1];
    assert i + 2 < n ==> s[2] == Name(k)[i + 2];
    assert i + 1 == n ==> s[1] == rest[0];
  }

  lemma NumberQuiet(n: string)
    requires NumberOk(n)
    ensures forall c | c in n :: Quiet(c)
  {
    NumberCharacters(n);
  }

  lemma {:induction false} DigitsQuiet(s: string, i: nat)
    requires i <= |s|
    ensures forall m | i <= m < L.SkipDigits(s, i) :: Quiet(s[m])
    decreases |s| - i
  {
    if i < |s| && L.IsDigit(s[i]) { DigitsQuiet(s, i + 1); }
  }

  lemma NumberCharacters(s: string)
    ensures forall m | 0 <= m < L.NumberEnd(s, 0) :: Quiet(s[m])
  {
    var digits := L.SkipSign(s, 0);
    DigitsQuiet(s, digits);
    var dot := L.SkipDigits(s, digits);
    if dot < |s| { DigitsQuiet(s, dot + 1); }
    var exp := L.FractionEnd(s, dot);
    if exp < |s| { DigitsQuiet(s, L.SkipSign(s, exp + 1)); }
  }

  lemma {:induction false} ArgsQuiet(args: seq<Argument>)
    requires ArgsOk(args)
    ensures forall c | c in PrintArgs(args) :: Quiet(c)
    decreases |args|
  {
    if args != [] {
      NumberQuiet(args[0].number);
      ArgsQuiet(args[1..]);
    }
  }

  lemma AfterName(e: Entry, rest: string)
    requires LayoutOk(e)
    ensures var text := e.open + "(" + e.lead + PrintArgs(e.args) + ")" + e.after;
            && (forall c | c in text :: Quiet(c)) && text != "" && text[0] != 'a'
            && Print(e) + rest == Name(e.kind) + (text + rest)
  {
    ArgsQuiet(e.args);
    if e.open != "" { assert e.open[0] in e.open; }
  }

  /** An entry with more numbers than its kind has is not applied. What it read stays behind for a short matrix. */
  lemma TooManyIgnored(env: Env, e: Entry, rest: string, t: Xform, xform: Xform)
    requires LayoutOk(e) && |e.args| > MaxArgs(e.kind)
    ensures var m := EntryMatrix(env, e.kind, Numbers(e.args[..MaxArgs(e.kind)]), t, |Print(e) + rest|);
            Parse(env, Print(e) + rest, t, xform) == Parse(env, rest, m, xform)
  {
    hide Then, EntryMatrix, KindAt, Args, ArgsOk, IsGap, Print, PrintArgs, Name;
    var text := e.open + "(" + e.lead + PrintArgs(e.args) + ")" + e.after;
    var m := EntryMatrix(env, e.kind, Numbers(e.args[..MaxArgs(e.kind)]), t, |Print(e) + rest|);
    KindOfPrinted(e, rest);
    ArgsOfPrinted(e, rest);
    AfterName(e, rest);
    assert (Print(e) + rest)[1..] == Name(e.kind)[1..] + (text + rest);
    assert (text + rest)[0] == text[0] && text[0] in text;
    SkipName(env, e.kind, 1, text + rest, m, xform);
    SkipPlain(env, text, rest, m, xform);
  }

  // ---------------------------------------------------------------- what an entry does to a point

  /** The number of argument i. */
  function Value(env: Env, e: Entry, i: nat): real
    requires i < |e.args|
  {
    env.atof(e.args[i].number)
  }

  /** SVG 1.1 section 7.6: where an entry with the given text takes the point (x, y). */
  predicate Takes(env: Env, e: Entry, text: string, x: real, y: real, q: Point) {
    && ("matrix" <= text || "translate" <= text || "scale" <= text || "rotate" <= text || "skewX" <= text
        || "skewY" <= text)
    && ("matrix" <= text ==> ByMatrix(env, e, x, y, q))
    && ("translate" <= text ==> ByTranslate(env, e, x, y, q))
    && ("scale" <= text ==> ByScale(env, e, x, y, q))
    && ("rotate" <= text ==> ByRotate(env, e, x, y, q))
    && ("skewX" <= text ==> |e.args| == 1 && q == Point(x + env.tan(Value(env, e, 0)) * y, y))
    && ("skewY" <= text ==> |e.args| == 1 && q == Point(x, y + env.tan(Value(env, e, 0)) * x))
  }

  predicate ByMatrix(env: Env, e: Entry, x: real, y: real, q: Point) {
    && |e.args| == 6
    && q.x == Value(env, e, 0) * x + Value(env, e, 2) * y + Value(env, e, 4)
    && q.y == Value(env, e, 1) * x + Value(env, e, 3) * y + Value(env, e, 5)
  }

  predicate ByTranslate(env: Env, e: Entry, x: real, y: real, q: Point) {
    || (|e.args| == 1 && q == Point(x + Value(env, e, 0), y))
    || (|e.args| == 2 && q == Point(x + Value(env, e, 0), y + Value(env, e, 1)))
  }

  predicate ByScale(env: Env, e: Entry, x: real, y: real, q: Point) {
    || (|e.args| == 1 && q == Point(Value(env, e, 0) * x, Value(env, e, 0) * y))
    || (|e.args| == 2 && q == Point(Value(env, e, 0) * x, Value(env, e, 1) * y))
  }

  /** About the origin, or about the given point. */
  predicate ByRotate(env: Env, e: Entry, x: real, y: real, q: Point) {
    |e.args| >= 1 &&
    var cos, sin := env.cos(Value(env, e, 0)), env.sin(Value(env, e, 0));
    || (|e.args| == 1 && Rotated(q.x, q.y, cos, sin, x, y))
    || (|e.args| == 3 &&
        var u, v := Value(env, e, 1), Value(env, e, 2);
        Rotated(q.x - u, q.y - v, cos, sin, x - u, y - v))
  }

  predicate Rotated(u: real, v: real, cos: real, sin: real, x: real, y: real) {
    u == cos * x - sin * y && v == sin * x + cos * y
  }

  lemma MatrixTakes(env: Env, e: Entry, t: Xform, rest: nat, x: real, y: real)
    requires EntryOk(e)
    ensures var m := EntryMatrix(env, e.kind, Numbers(e.args), t, rest);
            Takes(env, e, Name(e.kind), x, y, XformPoint(m, Point(x, y)))
  {
    hide EntryMatrix, Takes, Name, Then;
    if e.kind.Rotate? { RotationTakes(env, e, t, rest, x, y); } else { PlainTakes(env, e, t, rest, x, y); }
  }

  /** What decides which line of Takes applies to an entry. */
  lemma OnlyName(k: Kind)
    ensures var s := Name(k);
            && (("matrix" <= s) <==> k == Matrix) && (("translate" <= s) <==> k == Translate)
            && (("scale" <= s) <==> k == Scale) && (("rotate" <= s) <==> k == Rotate)
            && (("skewX" <= s) <==> k == SkewX) && (("skewY" <= s) <==> k == SkewY)
  {
    hide KindAt;
    NameDecides(Name(k));
    KindOfName(k);
  }

  lemma PlainTakes(env: Env, e: Entry, t: Xform, rest: nat, x: real, y: real)
    requires EntryOk(e) && !e.kind.Rotate?
    ensures var m := EntryMatrix(env, e.kind, Numbers(e.args), t, rest);
            Takes(env, e, Name(e.kind), x, y, XformPoint(m, Point(x, y)))
  {
    hide Name, EntryMatrix, LayoutOk, XformPoint, ByMatrix, ByTranslate, ByScale, ByRotate;
    OnlyName(e.kind);
    match e.kind {
      case Matrix => MatrixKind(env, e, t, rest, x, y);
      case Translate => TranslateKind(env, e, t, rest, x, y);
      case Scale => ScaleKind(env, e, t, rest, x, y);
      case SkewX => SkewKind(env, e, t, rest, x, y);
      case SkewY => SkewKind(env, e, t, rest, x, y);
    }
  }

  lemma MatrixKind(env: Env, e: Entry, t: Xform, rest: nat, x: real, y: real)
    requires e.kind == Matrix && |e.args| == 6
    ensures ByMatrix(env, e, x, y, XformPoint(EntryMatrix(env, e.kind, Numbers(e.args), t, rest), Point(x, y)))
  {
    hide Numbers, XformPoint;
    NumbersAre(e.args);
    MatrixMaps(Value(env, e, 0), Value(env, e, 1), Value(env, e, 2), Value(env, e, 3), Value(env, e, 4),
               Value(env, e, 5), x, y);
  }

  lemma TranslateKind(env: Env, e: Entry, t: Xform, rest: nat, x: real, y: real)
    requires e.kind == Translate && 1 <= |e.args| <= 2
    ensures ByTranslate(env, e, x, y, XformPoint(EntryMatrix(env, e.kind, Numbers(e.args), t, rest), Point(x, y)))
  {
    hide Numbers, XformPoint, Translation;
    NumbersAre(e.args);
    TranslationMaps(Value(env, e, 0), if |e.args| == 1 then 0.0 else Value(env, e, 1), x, y);
  }

  lemma ScaleKind(env: Env, e: Entry, t: Xform, rest: nat, x: real, y: real)
    requires e.kind == Scale && 1 <= |e.args| <= 2
    ensures ByScale(env, e, x, y, XformPoint(EntryMatrix(env, e.kind, Numbers(e.args), t, rest), Point(x, y)))
  {
    hide Numbers, XformPoint, Scaling;
    NumbersAre(e.args);
    ScalingMaps(Value(env, e, 0), if |e.args| == 1 then Value(env, e, 0) else Value(env, e, 1), x, y);
  }

  lemma SkewKind(env: Env, e: Entry, t: Xform, rest: nat, x: real, y: real)
    requires (e.kind == SkewX || e.kind == SkewY) && |e.args| == 1
    ensures XformPoint(EntryMatrix(env, e.kind, Numbers(e.args), t, rest), Point(x, y))
         == (var tan := env.tan(Value(env, e, 0));
             if e.kind == SkewX then Point(x + tan * y, y) else Point(x, y + tan * x))
  {
    hide Numbers, XformPoint;
    NumbersAre(e.args);
    SkewsMap(env.tan(Value(env, e, 0)), x, y);
  }

  lemma MatrixMaps(a: real, b: real, c: real, d: real, e: real, f: real, x: real, y: real)
    ensures XformPoint(Xform(a, b, c, d, e, f), Point(x, y)) == Point(a * x + c * y + e, b * x + d * y + f)
  {
  }

  lemma TranslationMaps(u: real, v: real, x: real, y: real)
    ensures XformPoint(Translation(u, v), Point(x, y)) == Point(x + u, y + v)
  {
  }

  lemma ScalingMaps(u: real, v: real, x: real, y: real)
    ensures XformPoint(Scaling(u, v), Point(x, y)) == Point(u * x, v * y)
  {
  }

  lemma SkewsMap(tan: real, x: real, y: real)
    ensures XformPoint(Xform(1.0, 0.0, tan, 1.0, 0.0, 0.0), Point(x, y)) == Point(x + tan * y, y)
    ensures XformPoint(Xform(1.0, tan, 0.0, 1.0, 0.0, 0.0), Point(x, y)) == Point(x, y + tan * x)
  {
  }

  lemma RotationTakes(env: Env, e: Entry, t: Xform, rest: nat, x: real, y: real)
    requires EntryOk(e) && e.kind.Rotate?
    ensures var m := EntryMatrix(env, e.kind, Numbers(e.args), t, rest);
            Takes(env, e, Name(e.kind), x, y, XformPoint(m, Point(x, y)))
  {
    hide Name, EntryMatrix, LayoutOk, XformPoint, ByMatrix, ByTranslate, ByScale, ByRotate;
    OnlyName(e.kind);
    RotateKind(env, e, t, rest, x, y);
  }

  lemma RotateKind(env: Env, e: Entry, t: Xform, rest: nat, x: real, y: real)
    requires e.kind == Rotate && (|e.args| == 1 || |e.args| == 3)
    ensures ByRotate(env, e, x, y, XformPoint(EntryMatrix(env, e.kind, Numbers(e.args), t, rest), Point(x, y)))
  {
    hide About, Then, Rotated, XformPoint, Numbers;
    NumbersAre(e.args);
    var a := Value(env, e, 0);
    if |e.args| == 3 {
      AboutRotates(env, a, Value(env, e, 1), Value(env, e, 2), x, y);
    } else {
      AboutIs(env, a, 0.0, 0.0);
      OriginTakes(env.cos(a), env.sin(a), x, y);
    }
  }

  lemma AboutRotates(env: Env, a: real, cx: real, cy: real, x: real, y: real)
    ensures var q := XformPoint(About(env, a, cx, cy), Point(x, y));
            Rotated(q.x - cx, q.y - cy, env.cos(a), env.sin(a), x - cx, y - cy)
  {
    hide About;
    AboutIs(env, a, cx, cy);
    AboutTakes(env.cos(a), env.sin(a), cx, cy, x, y);
  }

  lemma OriginTakes(cos: real, sin: real, x: real, y: real)
    ensures var q := XformPoint(Xform(cos, sin, -sin, cos, 0.0, 0.0), Point(x, y)); Rotated(q.x, q.y, cos, sin, x, y)
  {
  }

  lemma AboutTakes(cos: real, sin: real, cx: real, cy: real, x: real, y: real)
    ensures var q := XformPoint(Xform(cos, sin, -sin, cos, cx - cx * cos + cy * sin, cy - cx * sin - cy * cos),
                                Point(x, y));
            Rotated(q.x - cx, q.y - cy, cos, sin, x - cx, y - cy)
  {
  }

  lemma {:induction false} NumbersAre(args: seq<Argument>)
    ensures forall i | 0 <= i < |args| :: Numbers(args)[i] == args[i].number
  {
    if args != [] { NumbersAre(args[1..]); }
  }

  /** A printed entry takes every point where its text says, whatever memory holds. */
  lemma EntryTakes(env: Env, e: Entry, t: Xform, x: real, y: real)
    requires EntryOk(e)
    ensures Takes(env, e, Print(e), x, y, XformPoint(Parse(env, Print(e), t, IDENTITY), Point(x, y)))
  {
    hide Then, EntryMatrix, Parse, ArgsOk, Takes;
    EnoughFits(e);
    assert Print(e) + "" == Print(e);
    ParsePrinted(env, e, "", t, IDENTITY);
    var m := EntryMatrix(env, e.kind, Numbers(e.args), t, |Print(e)|);
    NothingToRead(env, m, Then(m, IDENTITY));
    ThenIdentity(m);
    MatrixTakes(env, e, t, |Print(e)|, x, y);
    SameName(env, e, x, y, XformPoint(m, Point(x, y)));
  }

  lemma SameName(env: Env, e: Entry, x: real, y: real, q: Point)
    requires EntryOk(e) && Takes(env, e, Name(e.kind), x, y, q)
    ensures Takes(env, e, Print(e), x, y, q)
  {
    hide Print, Name, Value, ByMatrix, ByTranslate, ByScale, ByRotate;
    SameStarts(e);
  }

  /** The text of an entry starts with a name if and only if its own name does. */
  lemma SameStarts(e: Entry)
    requires EntryOk(e)
    ensures ("matrix" <= Print(e)) == ("matrix" <= Name(e.kind))
    ensures ("translate" <= Print(e)) == ("translate" <= Name(e.kind))
    ensures ("scale" <= Print(e)) == ("scale" <= Name(e.kind))
    ensures ("rotate" <= Print(e)) == ("rotate" <= Name(e.kind))
    ensures ("skewX" <= Print(e)) == ("skewX" <= Name(e.kind))
    ensures ("skewY" <= Print(e)) == ("skewY" <= Name(e.kind))
  {
    var s, name := Print(e), Name(e.kind);
    NameFirst(e);
    hide Print, Name, KindAt, EntryOk;
    OnlyName(e.kind);
    KindOfPrinted(e, "");
    assert s + "" == s;
    NameDecides(s);
    Longer("matrix", name, s);
    Longer("translate", name, s);
    Longer("scale", name, s);
    Longer("rotate", name, s);
    Longer("skewX", name, s);
    Longer("skewY", name, s);
  }

  lemma Longer(a: string, b: string, c: string)
    requires b <= c
    ensures a <= b ==> a <= c
  {
    if a <= b { assert c[..|a|] == b[..|a|] == a; }
  }

  lemma NameFirst(e: Entry)
    ensures Name(e.kind) <= Print(e)
  {
  }

  lemma NameDecides(s: string)
    ensures "matrix" <= s ==> KindAt(s) == Some(Matrix)
    ensures "translate" <= s ==> KindAt(s) == Some(Translate)
    ensures "scale" <= s ==> KindAt(s) == Some(Scale)
    ensures "rotate" <= s ==> KindAt(s) == Some(Rotate)
    ensures "skewX" <= s ==> KindAt(s) == Some(SkewX)
    ensures "skewY" <= s ==> KindAt(s) == Some(SkewY)
  {
    forall k | Name(k) <= s ensures s[0] == Name(k)[0] && s[1] == Name(k)[1] && s[4] == Name(k)[4] {
      assert s[..|Name(k)|] == Name(k);
    }
    assert Name(Matrix)[0] == 'm' && Name(Translate)[0] == 't' && Name(Rotate)[0] == 'r';
    assert Name(Scale)[1] == 'c' && Name(SkewX)[1] == Name(SkewY)[1] == 'k';
    assert Name(SkewX)[4] == 'X' && Name(SkewY)[4] == 'Y';
  }

  lemma OneOfSix(k: Kind)
    ensures var s := Name(k);
            || "matrix" <= s || "translate" <= s || "scale" <= s || "rotate" <= s || "skewX" <= s || "skewY" <= s
  {
  }

  lemma KindOfName(k: Kind)
    ensures KindAt(Name(k)) == Some(k)
  {
    NameDecides(Name(k));
  }

  lemma SkipChar(env: Env, c: char, rest: string, t: Xform, xform: Xform)
    requires c == ')' || IsBlank(c)
    ensures Parse(env, [c] + rest, t, xform) == Parse(env, rest, t, xform)
  {
    hide KindAt, Args, EntryMatrix;
    NoKind(c, rest);
    assert ([c] + rest)[1..] == rest;
  }

  lemma NoKind(c: char, rest: string)
    requires c == ')' || IsBlank(c)
    ensures KindAt([c] + rest).None?
  {
    assert ([c] + rest)[0] == c;
  }

  lemma {:induction false} SkipGap(env: Env, g: string, rest: string, t: Xform, xform: Xform)
    requires IsGap(g)
    ensures Parse(env, g + rest, t, xform) == Parse(env, rest, t, xform)
    decreases |g|
  {
    if g == "" {
      assert g + rest == rest;
    } else {
      assert g[0] in g && g + rest == [g[0]] + (g[1..] + rest);
      SkipChar(env, g[0], g[1..] + rest, t, xform);
      SkipGap(env, g[1..], rest, t, xform);
    }
  }

  /** A printed list is read back as the composition of its entries, whatever was in memory before. */
  lemma {:induction false} ListRoundTrip(env: Env, es: seq<Entry>, t: Xform, xform: Xform)
    requires forall e | e in es :: EntryOk(e)
    ensures Parse(env, PrintList(es), t, xform) == Then(Compose(Meanings(env, es)), xform)
    decreases |es|
  {
    hide Then, LayoutOk, Meaning, EntryMatrix, EnoughArgs, Parse;
    var ms := Meanings(env, es);
    if es == [] {
      NothingToRead(env, t, xform);
      ThenIdentity(xform);
    } else {
      var m, more := ms[0], es[1..];
      assert EntryOk(es[0]);
      EnoughFits(es[0]);
      ParsePrinted(env, es[0], PrintList(more), t, xform);
      EnoughIsDefined(env, es[0], t, |Print(es[0]) + PrintList(more)|);
      ListRoundTrip(env, more, m, Then(m, xform));
      assert ms == [m] + Meanings(env, more);
      ComposeAppend([m], Meanings(env, more));
      ComposeOne(m);
      ThenAssociates(Compose(Meanings(env, more)), m, xform);
    }
  }

  lemma NothingToRead(env: Env, t: Xform, xform: Xform)
    ensures Parse(env, "", t, xform) == xform
  {
  }

  lemma EnoughFits(e: Entry)
    requires EnoughArgs(e.kind, |e.args|)
    ensures |e.args| <= MaxArgs(e.kind)
  {
  }

  lemma ComposeOne(m: Xform)
    ensures Compose([m]) == m
  {
    assert [m][..0] == [];
    ThenIdentity(m);
  }

  /** A printed attribute means the composition of its entries, so it maps a point by the last entry first. */
  lemma PrintedAttribute(env: Env, lead: string, es: seq<Entry>, t: Xform, p: Point)
    requires IsGap(lead) && forall e | e in es :: EntryOk(e)
    ensures Parse(env, lead + PrintList(es), t, IDENTITY) == Compose(Meanings(env, es))
    ensures XformPoint(Parse(env, lead + PrintList(es), t, IDENTITY), p) == MapThrough(Meanings(env, es), p)
  {
    hide Then, EntryOk, Meaning, XformPoint, Parse;
    SkipGap(env, lead, PrintList(es), t, IDENTITY);
    ListRoundTrip(env, es, t, IDENTITY);
    ThenIdentity(Compose(Meanings(env, es)));
    ComposeMaps(Meanings(env, es), p);
  }

  // ---------------------------------------------------------------- too few arguments

  ghost predicate Constant(f: real -> real) {
    forall x, y :: f(x) == f(y)
  }

  /** When an entry depends on nothing but its text: it has enough arguments, or the missing ones cancel out. */
  ghost predicate Settled(env: Env, k: Kind, args: seq<string>) {
    || EnoughArgs(k, |args|)
    || (k.Rotate? && |args| == 2 && env.cos(env.atof(args[0])) == 1.0 && env.sin(env.atof(args[0])) == 0.0)
    || (k.Rotate? && |args| == 0 && Constant(env.cos) && Constant(env.sin))
    || ((k.SkewX? || k.SkewY?) && |args| == 0 && Constant(env.tan))
  }

  /** Its matrix is the same whatever the array slots and the matrix held before. */
  ghost predicate TextDecides(env: Env, k: Kind, args: seq<string>, rest: nat) {
    forall was, other, l: (nat, nat) -> real, m: (nat, nat) -> real ::
      EntryMatrix(env.(leftover := l), k, args, was, rest) == EntryMatrix(env.(leftover := m), k, args, other, rest)
  }

  lemma AboutIs(env: Env, a: real, x: real, y: real)
    ensures About(env, a, x, y)
         == Xform(env.cos(a), env.sin(a), -env.sin(a), env.cos(a),
                  x - x * env.cos(a) + y * env.sin(a), y - x * env.sin(a) - y * env.cos(a))
    ensures Then(IDENTITY, Rotation(env, a)) == Rotation(env, a)
  {
  }

  /** It leaves that point where it is, whatever the sine and cosine are. */
  lemma AboutFixes(env: Env, a: real, x: real, y: real)
    ensures XformPoint(About(env, a, x, y), Point(x, y)) == Point(x, y)
  {
    hide About;
    AboutIs(env, a, x, y);
  }

  /** An entry means something by itself if and only if it has enough arguments, or the missing ones cancel out:
      otherwise the result follows what the array slots or the matrix held before. */
  lemma DefinedIff(env: Env, k: Kind, args: seq<string>, rest: nat)
    requires |args| <= MaxArgs(k)
    ensures TextDecides(env, k, args, rest) <==> Settled(env, k, args)
  {
    hide EntryMatrix;
    if Settled(env, k, args) {
      forall was, other, l: (nat, nat) -> real, m: (nat, nat) -> real
        ensures EntryMatrix(env.(leftover := l), k, args, was, rest)
             == EntryMatrix(env.(leftover := m), k, args, other, rest) {
        SettledAgrees(env, k, args, rest, was, other, l, m);
      }
    } else {
      var was, other, l, m := UnsettledDiffers(env, k, args, rest);
    }
  }

  lemma SettledAgrees(env: Env, k: Kind, args: seq<string>, rest: nat, was: Xform, other: Xform,
                      l: (nat, nat) -> real, m: (nat, nat) -> real)
    requires |args| <= MaxArgs(k) && Settled(env, k, args)
    ensures EntryMatrix(env.(leftover := l), k, args, was, rest)
         == EntryMatrix(env.(leftover := m), k, args, other, rest)
  {
    var e, f := env.(leftover := l), env.(leftover := m);
    if k.Rotate? && |args| != 3 {
      var a, b := Arg(e, args, 0, rest), Arg(f, args, 0, rest);
      AboutIs(e, a, Arg(e, args, 1, rest), Arg(e, args, 2, rest));
      AboutIs(f, b, Arg(f, args, 1, rest), Arg(f, args, 2, rest));
      assert env.cos(a) == env.cos(b) && env.sin(a) == env.sin(b);
    }
    hide Then;
  }

  /** Without enough arguments two different leftovers give two different matrices. */
  lemma UnsettledDiffers(env: Env, k: Kind, args: seq<string>, rest: nat)
    returns (was: Xform, other: Xform, l: (nat, nat) -> real, m: (nat, nat) -> real)
    requires |args| <= MaxArgs(k) && !Settled(env, k, args)
    ensures EntryMatrix(env.(leftover := l), k, args, was, rest)
         != EntryMatrix(env.(leftover := m), k, args, other, rest)
  {
    was, other := Translation(0.0, 0.0), Translation(1.0, 0.0);
    var x, y := 0.0, 1.0;
    if k.SkewX? || k.SkewY? {
      x, y :| env.tan(x) != env.tan(y);
    } else if k.Rotate? && |args| == 0 {
      if Constant(env.cos) {
        x, y :| env.sin(x) != env.sin(y);
      } else {
        x, y :| env.cos(x) != env.cos(y);
      }
    }
    l, m := (_, _) => x, (_, _) => y;
    if k.Rotate? {
      AboutIs(env.(leftover := l), Arg(env.(leftover := l), args, 0, rest), Arg(env.(leftover := l), args, 1, rest), x);
      AboutIs(env.(leftover := m), Arg(env.(leftover := m), args, 0, rest), Arg(env.(leftover := m), args, 1, rest), y);
    }
  }

  /** A matrix entry with too few numbers repeats the entry before it. */
  lemma ShortMatrixRepeats(env: Env, e: Entry, rest: string, t: Xform, xform: Xform)
    requires e.kind == Matrix && LayoutOk(e) && |e.args| < 6
    ensures Parse(env, Print(e) + rest, t, xform) == Parse(env, rest, t, Then(t, xform))
  {
    hide Then, Parse, LayoutOk, Print;
    ParsePrinted(env, e, rest, t, xform);
  }

  // ---------------------------------------------------------------- the parser

  method Seek(s: string, c: char, i: nat) returns (j: nat)
    requires i <= |s|
    ensures j == Find(s, c, i)
  {
    j := i;
    while j < |s| && s[j] != c
      invariant i <= j <= |s| && Find(s, c, j) == Find(s, c, i)
    {
      j := j + 1;
    }
  }

  /** nsvg__parseTransformArgs: fills the first slots and leaves the others. */
  method ParseTransformArgs(env: Env, s: string, args: array<real>, max: nat) returns (na: nat, len: nat)
    requires max <= args.Length
    modifies args
    ensures var (texts, advance) := Args(s, max);
            na == |texts| <= max && len == advance && Read(env, texts, args[..])
    ensures forall i | na <= i < args.Length :: args[i] == old(args[i])
  {
    hide Find, Collect, Read;
    ReadNothing(env, args[..]);
    na, len := 0, 1;
    var ptr := Seek(s, '(', 0);
    if ptr == |s| { return; }
    var end := Seek(s, ')', ptr);
    if end == |s| { return; }
    var over: bool;
    na, over := ReadNumbers(env, s, ptr, end, args, max);
    len := if over then 0 else end;
  }

  /** Its loop. */
  method ReadNumbers(env: Env, s: string, open: nat, end: nat, args: array<real>, max: nat)
    returns (na: nat, over: bool)
    requires open <= end <= |s| && max <= args.Length
    modifies args
    ensures var (texts, more) := Collect(s, open, end, max);
            na == |texts| <= max && over == more && Read(env, texts, args[..])
    ensures forall i | na <= i < args.Length :: args[i] == old(args[i])
  {
    hide Collect, L.NumberEnd, Joined, StartsNumber, Read;
    na, over := 0, false;
    var ptr := open;
    ghost var texts: seq<string> := [];
    ReadNothing(env, args[..]);
    JoinedNothing(Collect(s, ptr, end, max));
    while ptr < end
      invariant open <= ptr <= |s| && |texts| == na <= max && Read(env, texts, args[..])
      invariant Collect(s, open, end, max) == Joined(texts, Collect(s, ptr, end, max - na))
      invariant forall i | na <= i < args.Length :: args[i] == old(args[i])
      decreases |s| - ptr
    {
      CollectUnfold(s, ptr, end, max - na, texts);
      if StartsNumber(s[ptr]) {
        if na >= max { return na, true; }
        var next := L.NumberEnd(s, ptr);
        var text := L.Truncate(s[ptr..next]);
        ghost var slots := args[..];
        args[na] := env.atof(text);
        ReadMore(env, texts, slots, text, args[..]);
        texts := texts + [text];
        ptr, na := next, na + 1;
      } else {
        ptr := ptr + 1;
      }
    }
    CollectEnds(s, ptr, end, max - na, texts);
  }

  lemma ReadNothing(env: Env, slots: seq<real>)
    ensures Read(env, [], slots)
  {
  }

  lemma ReadMore(env: Env, texts: seq<string>, slots: seq<real>, text: string, slots': seq<real>)
    requires Read(env, texts, slots) && |texts| < |slots| && slots' == slots[|texts| := env.atof(text)]
    ensures Read(env, texts + [text], slots')
  {
  }

  lemma JoinedNothing(more: (seq<string>, bool))
    ensures Joined([], more) == more
  {
    assert [] + more.0 == more.0;
  }

  /** The slots hold the numbers of these texts. */
  ghost predicate Read(env: Env, texts: seq<string>, slots: seq<real>) {
    |texts| <= |slots| && forall i | 0 <= i < |texts| :: slots[i] == env.atof(texts[i])
  }

  function Joined(texts: seq<string>, more: (seq<string>, bool)): (seq<string>, bool) {
    (texts + more.0, more.1)
  }

  lemma CollectUnfold(s: string, ptr: nat, end: nat, room: nat, texts: seq<string>)
    requires ptr < end <= |s|
    ensures if !StartsNumber(s[ptr]) then Collect(s, ptr, end, room) == Collect(s, ptr + 1, end, room)
            else if room == 0 then Joined(texts, Collect(s, ptr, end, room)) == (texts, true)
            else
              var next := L.NumberEnd(s, ptr);
              ptr < next <= |s| && Joined(texts, Collect(s, ptr, end, room))
                                == Joined(texts + [L.Truncate(s[ptr..next])], Collect(s, next, end, room - 1))
  {
    hide L.NumberEnd, L.Truncate;
    assert texts + [] == texts;
    if StartsNumber(s[ptr]) && room > 0 {
      var next := L.NumberEnd(s, ptr);
      var text, more := L.Truncate(s[ptr..next]), Collect(s, next, end, room - 1).0;
      assert texts + ([text] + more) == (texts + [text]) + more;
    }
  }

  lemma CollectEnds(s: string, ptr: nat, end: nat, room: nat, texts: seq<string>)
    requires end <= ptr <= |s|
    ensures Joined(texts, Collect(s, ptr, end, room)) == (texts, false)
  {
    assert texts + [] == texts;
  }

  method Assign(t: array<real>, m: Xform)
    requires IsMatrix(t)
    modifies t
    ensures AsXform(t[..]) == m
  {
    t[0], t[1], t[2], t[3], t[4], t[5] := m.t0, m.t1, m.t2, m.t3, m.t4, m.t5;
  }

  method Append(m: array<real>, x: Xform)
    requires IsMatrix(m)
    modifies m
    ensures AsXform(m[..]) == Then(old(AsXform(m[..])), x)
  {
    hide Then;
    var t := new real[6];
    Assign(t, x);
    XformMultiply(m, t);
  }

  /** The matrix of nsvg__parseRotate: a rotation about a point when one is given. */
  method ParseRotate(env: Env, args: array<real>, na: nat, t: array<real>)
    requires IsMatrix(t) && IsMatrix(args) && t != args
    modifies t
    ensures AsXform(t[..]) ==
            if na > 1 then About(env, args[0], args[1], args[2]) else Then(IDENTITY, Rotation(env, args[0]))
    ensures na > 1 ==> XformPoint(AsXform(t[..]), Point(args[1], args[2])) == Point(args[1], args[2])
  {
    hide Then, Translation, Rotation;
    var m := new real[6];
    Assign(m, IDENTITY);
    if na > 1 { Append(m, Translation(-args[1], -args[2])); }
    Append(m, Rotation(env, args[0]));
    if na > 1 { Append(m, Translation(args[1], args[2])); }
    Assign(t, Xform(m[0], m[1], m[2], m[3], m[4], m[5]));
    AboutFixes(env, args[0], args[1], args[2]);
  }

  /** nsvg__parseMatrix, nsvg__parseTranslate and the rest: the matrix of an entry, into t. */
  method ParseEntry(env: Env, k: Kind, s: string, t: array<real>) returns (len: nat)
    requires IsMatrix(t)
    modifies t
    ensures var (texts, advance) := Args(s, MaxArgs(k));
            len == advance && AsXform(t[..]) == EntryMatrix(env, k, texts, old(AsXform(t[..])), |s|)
  {
    hide Then, Args;
    var args := new real[6](i => env.leftover(|s|, i));
    var na: nat;
    na, len := ParseTransformArgs(env, s, args, MaxArgs(k));
    ghost var texts := Args(s, MaxArgs(k)).0;
    assert Read(env, texts, args[..]);
    assert forall i | 0 <= i < 6 :: args[i] == Arg(env, texts, i, |s|);
    match k {
      case Matrix =>
        if na != 6 { return; }
        Assign(t, Xform(args[0], args[1], args[2], args[3], args[4], args[5]));
      case Translate =>
        if na == 1 { args[1] := 0.0; }
        Assign(t, Translation(args[0], args[1]));
      case Scale =>
        if na == 1 { args[1] := args[0]; }
        Assign(t, Scaling(args[0], args[1]));
      case SkewX => Assign(t, Xform(1.0, 0.0, env.tan(args[0]), 1.0, 0.0, 0.0));
      case SkewY => Assign(t, Xform(1.0, env.tan(args[0]), 0.0, 1.0, 0.0, 0.0));
      case Rotate =>
        ParseRotate(env, args, na, t);
    }
  }

  /** nsvg__parseTransform; was is what its local matrix happens to hold at the start. */
  method ParseTransform(env: Env, xform: array<real>, was: Xform, str: string)
    requires IsMatrix(xform)
    modifies xform
    ensures AsXform(xform[..]) == Parse(env, str, was, IDENTITY)
  {
    hide Then, EntryMatrix, Args, KindAt;
    var t := new real[6];
    Assign(t, was);
    Assign(xform, IDENTITY);
    var i := 0;
    while i < |str|
      invariant 0 <= i <= |str|
      invariant Parse(env, str[i..], AsXform(t[..]), AsXform(xform[..])) == Parse(env, str, was, IDENTITY)
      decreases |str| - i
    {
      var s := str[i..];
      assert s[1..] == str[i + 1..];
      match KindAt(s) {
        case None => i := i + 1;
        case Some(k) =>
          var len := ParseEntry(env, k, s, t);
          ArgsInside(s, MaxArgs(k));
          if len == 0 {
            i := i + 1;
          } else {
            XformPremultiply(xform, t);
            assert s[len..] == str[i + len..];
            i := i + len;
          }
      }
    }
    assert str[i..] == "";
  }

  lemma ArgsInside(s: string, max: nat)
    requires s != ""
    ensures Args(s, max).1 <= |s|
  {
  }
}

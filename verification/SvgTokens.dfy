/** Path data as printed text: numerals by the grammar of SVG 1.1 section 8.3.9, and the lexer that cuts them out
    again. */
module SvgTokens {
  import opened Common
  import opened Scanning
  import opened SvgBoxes
  import opened SvgPath
  import opened SvgLexer
  import T = SvgTransformText

  // ---------------------------------------------------------------- text further on

  lemma {:induction false} SeparatorsShift(a: string, b: string, k: nat)
    requires k <= |b|
    ensures SkipSeparators(a + b, |a| + k) == |a| + SkipSeparators(b, k)
    decreases |b| - k
  {
    if k < |b| {
      assert (a + b)[|a| + k] == b[k];
      SeparatorsShift(a, b, k + 1);
    }
  }

  lemma {:induction false} DigitsShift(a: string, b: string, k: nat)
    requires k <= |b|
    ensures SkipDigits(a + b, |a| + k) == |a| + SkipDigits(b, k)
    decreases |b| - k
  {
    if k < |b| {
      assert (a + b)[|a| + k] == b[k];
      DigitsShift(a, b, k + 1);
    }
  }

  lemma SignShift(a: string, b: string, k: nat)
    requires k <= |b|
    ensures SkipSign(a + b, |a| + k) == |a| + SkipSign(b, k)
  {
    assert k < |b| ==> (a + b)[|a| + k] == b[k];
  }

  lemma FractionShift(a: string, b: string, k: nat)
    requires k <= |b|
    ensures FractionEnd(a + b, |a| + k) == |a| + FractionEnd(b, k)
  {
    hide SkipDigits;
    if k < |b| {
      assert (a + b)[|a| + k] == b[k];
      DigitsShift(a, b, k + 1);
    }
  }

  lemma ExponentShift(a: string, b: string, k: nat)
    requires k <= |b|
    ensures ExponentEnd(a + b, |a| + k) == |a| + ExponentEnd(b, k)
  {
    hide SkipDigits, SkipSign;
    if k < |b| {
      assert (a + b)[|a| + k] == b[k] && (k + 1 < |b| ==> (a + b)[|a| + k + 1] == b[k + 1]);
      SignShift(a, b, k + 1);
      DigitsShift(a, b, SkipSign(b, k + 1));
    }
  }

  lemma NumberShift(a: string, b: string, k: nat)
    requires k <= |b|
    ensures NumberEnd(a + b, |a| + k) == |a| + NumberEnd(b, k)
  {
    hide SkipDigits, SkipSign, FractionEnd, ExponentEnd;
    var sign := SkipSign(b, k);
    var dot := SkipDigits(b, sign);
    SignShift(a, b, k);
    DigitsShift(a, b, sign);
    FractionShift(a, b, dot);
    ExponentShift(a, b, FractionEnd(b, dot));
  }

  lemma ItemShift(cmd: char, nargs: nat, a: string, b: string, k: nat)
    requires k <= |b|
    ensures var (item, j) := NextItem(cmd, nargs, b, k); NextItem(cmd, nargs, a + b, |a| + k) == (item, |a| + j)
  {
    hide NumberEnd;
    SeparatorsShift(a, b, k);
    var j := SkipSeparators(b, k);
    SeparatorsShift(a, b, j);
    SkippedAlready(b, k);
    if j < |b| {
      NumberShift(a, b, j);
      SliceShift(a, b, j, NumberEnd(b, j));
    }
  }

  lemma SliceShift(a: string, b: string, i: nat, j: nat)
    requires i <= j <= |b|
    ensures (a + b)[|a| + i..|a| + j] == b[i..j]
  {
  }

  lemma {:induction false} SkippedAlready(s: string, i: nat)
    requires i <= |s|
    ensures SkipSeparators(s, SkipSeparators(s, i)) == SkipSeparators(s, i)
  {
  }

  lemma {:induction false} ItemsShift(env: Env, atof: string -> real, st: State, a: string, b: string, k: nat)
    requires Consistent(st) && k <= |b|
    ensures ItemsOf(env, atof, st, a + b, |a| + k) == ItemsOf(env, atof, st, b, k)
    decreases |b| - k
  {
    hide NextItem, Step;
    ItemShift(st.cmd, |st.args|, a, b, k);
    var (item, j) := NextItem(st.cmd, |st.args|, b, k);
    if item != "" {
      StepConsistent(env, st, Classify(item, atof));
      ItemsShift(env, atof, Step(env, st, Classify(item, atof)), a, b, j);
    }
  }

  // ---------------------------------------------------------------- numerals

  /** Sign, digits, point and digits, and an exponent with its letter. */
  datatype Numeral = Numeral(sign: string, whole: string, point: bool, fraction: string, exponent: string)

  predicate Digits(s: string) { forall c | c in s :: '0' <= c <= '9' }

  predicate SignOk(s: string) { s in {"", "+", "-"} }

  ghost predicate ExponentOk(e: string) {
    e == "" ||
    (e[0] in {'e', 'E'} && exists sign, digits :: IsSigned(e[1..], sign, digits) && digits != "")
  }

  predicate IsSigned(s: string, sign: string, digits: string) {
    s == sign + digits && SignOk(sign) && Digits(digits)
  }

  ghost predicate NumeralOk(n: Numeral) {
    && SignOk(n.sign) && Digits(n.whole) && Digits(n.fraction) && ExponentOk(n.exponent)
    && (n.whole != "" || n.fraction != "") && (!n.point ==> n.fraction == "")
  }

  function Text(n: Numeral): string {
    n.sign + (n.whole + ((if n.point then "." else "") + (n.fraction + n.exponent)))
  }

  /** What follows cannot be read as more of the numeral; "em" and "ex" are units, not exponents. */
  predicate Apart(n: Numeral, rest: string) {
    rest != "" ==>
      && !('0' <= rest[0] <= '9')
      && (n.exponent == "" ==> rest[0] !in {'e', 'E'} || (|rest| > 1 && rest[1] in {'m', 'x'}))
      && (n.exponent == "" && !n.point ==> rest[0] != '.')
  }

  lemma {:induction false} DigitsRun(a: string, d: string, b: string)
    requires Digits(d) && (b == "" || !IsDigit(b[0]))
    ensures SkipDigits(a + (d + b), |a|) == |a| + |d|
    decreases |d|
  {
    var s := a + (d + b);
    if d == "" {
      assert s == a + b;
    } else {
      assert d[0] in d && s[|a|] == d[0];
      assert forall c | c in d[1..] :: c in d;
      DigitsRun(a + [d[0]], d[1..], b);
      assert (a + [d[0]]) + (d[1..] + b) == s;
    }
  }

  /** The lexer reads the whole numeral, and no more, wherever it stands. */
  lemma NumeralEnds(n: Numeral, rest: string)
    requires NumeralOk(n) && Apart(n, rest)
    ensures NumberEnd(Text(n) + rest, 0) == |Text(n)|
  {
    hide SkipDigits, NumeralOk, Apart;
    var s := Text(n) + rest;
    SignEnds(n, rest);
    WholeEnds(n, rest);
    FractionEnds(n, rest);
    ExponentEnds(n, rest);
  }

  lemma SignEnds(n: Numeral, rest: string)
    requires NumeralOk(n)
    ensures SkipSign(Text(n) + rest, 0) == |n.sign|
  {
    var s := Text(n) + rest;
    if n.sign == "" {
      assert n.whole != "" ==> s[0] == n.whole[0] && n.whole[0] in n.whole;
    } else {
      assert s[0] == n.sign[0];
    }
  }

  function AfterWhole(n: Numeral, rest: string): string {
    (if n.point then "." else "") + (n.fraction + (n.exponent + rest))
  }

  lemma WholeEnds(n: Numeral, rest: string)
    requires NumeralOk(n) && Apart(n, rest)
    ensures SkipDigits(Text(n) + rest, |n.sign|) == |n.sign| + |n.whole|
  {
    var more := AfterWhole(n, rest);
    assert !n.point ==> more == n.exponent + rest;
    DigitsRun(n.sign, n.whole, more);
    assert Text(n) + rest == n.sign + (n.whole + more);
  }

  lemma FractionEnds(n: Numeral, rest: string)
    requires NumeralOk(n) && Apart(n, rest)
    ensures FractionEnd(Text(n) + rest, |n.sign| + |n.whole|) == |Text(n)| - |n.exponent|
  {
    var before, more := n.sign + n.whole, AfterWhole(n, rest);
    SplitAfterWhole(n, rest);
    hide FractionEnd, SkipDigits, Text;
    if n.point {
      FractionRead(before, n.fraction, n.exponent + rest);
    } else {
      assert more == n.exponent + rest;
      NoFraction(before, more);
    }
  }

  lemma SplitAfterWhole(n: Numeral, rest: string)
    requires n.point || n.fraction == ""
    ensures Text(n) + rest == (n.sign + n.whole) + AfterWhole(n, rest)
    ensures |Text(n)| == |n.sign| + |n.whole| + (if n.point then 1 else 0) + |n.fraction| + |n.exponent|
  {
  }

  lemma FractionRead(before: string, fraction: string, more: string)
    requires Digits(fraction) && (more == "" || !IsDigit(more[0]))
    ensures FractionEnd(before + ("." + (fraction + more)), |before|) == |before| + 1 + |fraction|
  {
    hide SkipDigits;
    DigitsRun(before + ".", fraction, more);
    assert before + ("." + (fraction + more)) == (before + ".") + (fraction + more);
    assert (before + ("." + (fraction + more)))[|before|] == '.';
  }

  lemma NoFraction(before: string, more: string)
    requires more == "" || more[0] != '.'
    ensures FractionEnd(before + more, |before|) == |before|
  {
    assert more != "" ==> (before + more)[|before|] == more[0];
  }

  lemma ExponentEnds(n: Numeral, rest: string)
    requires NumeralOk(n) && Apart(n, rest)
    ensures ExponentEnd(Text(n) + rest, |Text(n)| - |n.exponent|) == |Text(n)|
  {
    hide ExponentEnd, SkipDigits, SkipSign;
    var e, before := n.exponent, n.sign + (n.whole + ((if n.point then "." else "") + n.fraction));
    TextParts(n, rest);
    if e == "" {
      assert e + rest == rest;
      NoExponent(before, rest);
    } else {
      var sign, digits :| IsSigned(e[1..], sign, digits) && digits != "";
      assert e + rest == [e[0]] + (sign + (digits + rest)) by { assert e == [e[0]] + (sign + digits); }
      ExponentRead(before, e[0], sign, digits, rest);
    }
  }

  lemma TextParts(n: Numeral, rest: string)
    ensures var before := n.sign + (n.whole + ((if n.point then "." else "") + n.fraction));
            Text(n) + rest == before + (n.exponent + rest) && |before| == |Text(n)| - |n.exponent|
  {
  }

  lemma NoExponent(before: string, rest: string)
    requires rest == "" || rest[0] !in {'e', 'E'} || (|rest| > 1 && rest[1] in {'m', 'x'})
    ensures ExponentEnd(before + rest, |before|) == |before|
  {
    assert forall k | 0 <= k < |rest| :: (before + rest)[|before| + k] == rest[k];
  }

  lemma ExponentRead(before: string, c: char, sign: string, digits: string, rest: string)
    requires c in {'e', 'E'} && SignOk(sign) && digits != "" && Digits(digits) && (rest == "" || !IsDigit(rest[0]))
    ensures ExponentEnd(before + ([c] + (sign + (digits + rest))), |before|) == |before| + 1 + |sign| + |digits|
  {
    hide SkipDigits;
    var s, start := before + ([c] + (sign + (digits + rest))), before + [c];
    assert s == start + (sign + (digits + rest)) == (start + sign) + (digits + rest);
    assert digits[0] in digits;
    assert s[|before|] == c && s[|start|] == (if sign == "" then digits[0] else sign[0]);
    DigitsRun(start + sign, digits, rest);
  }

  /** So the numbers of transform attributes cover this grammar too. */
  lemma NumeralIsNumber(n: Numeral)
    requires NumeralOk(n) && |Text(n)| <= 63
    ensures T.NumberOk(Text(n))
  {
    assert Text(n) + "" == Text(n);
    NumeralEnds(n, "");
    NumeralStarts(n);
    NoParentheses(n);
  }

  lemma NumeralStarts(n: Numeral)
    requires NumeralOk(n)
    ensures Text(n) != "" && (IsSign(Text(n)[0]) || Text(n)[0] == '.' || IsDigit(Text(n)[0])) && IsCoordinate(Text(n))
  {
    var s, k := Text(n), |n.sign|;
    assert s[k..] == n.whole + ((if n.point then "." else "") + (n.fraction + n.exponent));
    assert s[k] == s[k..][0];
    if n.whole != "" {
      assert s[k] == n.whole[0] && n.whole[0] in n.whole;
    } else {
      assert s[k] == '.';
    }
  }

  lemma NoParentheses(n: Numeral)
    requires NumeralOk(n)
    ensures forall c | c in Text(n) :: c != '(' && c != ')'
  {
    if n.exponent != "" {
      var sign, digits :| IsSigned(n.exponent[1..], sign, digits) && digits != "";
      assert n.exponent == [n.exponent[0]] + (sign + digits);
    }
  }

  // ---------------------------------------------------------------- tokens

  /** A command letter, a number, or the flag of an arc, which is one digit even when others follow at once. */
  datatype Token = Letter(c: char) | Num(n: Numeral) | Flag(on: bool)

  /** A token and the blanks and commas in front of it. */
  datatype Spaced = Spaced(gap: string, token: Token)

  predicate IsSeparator(c: char) { IsSpace(c) || c == ',' }

  predicate IsGap(g: string) { forall c | c in g :: IsSeparator(c) }

  function TokenText(t: Token): string {
    match t
    case Letter(c) => [c]
    case Num(n) => Text(n)
    case Flag(on) => if on then "1" else "0"
  }

  function Print(ts: seq<Spaced>): string {
    if ts == [] then "" else ts[0].gap + (TokenText(ts[0].token) + Print(ts[1..]))
  }

  ghost predicate TokenOk(t: Token, rest: string) {
    match t
    case Letter(c) => !IsSeparator(c) && !IsSign(c) && c != '.' && !IsDigit(c)
    case Num(n) => NumeralOk(n) && |Text(n)| <= 63 && Apart(n, rest)
    case Flag(_) => true
  }

  /** The tokens can be told apart, with end behind them. */
  ghost predicate Legible(ts: seq<Spaced>, end: string) {
    ts == [] || (IsGap(ts[0].gap) && TokenOk(ts[0].token, Print(ts[1..]) + end) && Legible(ts[1..], end))
  }

  function Meaning(t: Token, atof: string -> real): Item {
    match t
    case Letter(c) => Command(c)
    case Num(n) => Number(atof(Text(n)))
    case Flag(on) => Number(atof(if on then "1" else "0"))
  }

  /** Flags stand exactly where the command before expects them. */
  predicate Placed(env: Env, atof: string -> real, st: State, ts: seq<Spaced>)
    requires Consistent(st)
    decreases |ts|
  {
    ts == [] ||
    (var t := ts[0].token;
     StepConsistent(env, st, Meaning(t, atof));
     && (if st.cmd in {'a', 'A'} && |st.args| in {3, 4} then !t.Num? else !t.Flag?)
     && Placed(env, atof, Step(env, st, Meaning(t, atof)), ts[1..]))
  }

  function Meanings(ts: seq<Spaced>, atof: string -> real): seq<Item> {
    if ts == [] then [] else [Meaning(ts[0].token, atof)] + Meanings(ts[1..], atof)
  }

  lemma {:induction false} GapSkipped(g: string, rest: string)
    requires IsGap(g) && (rest == "" || !IsSeparator(rest[0]))
    ensures SkipSeparators(g + rest, 0) == |g|
    decreases |g|
  {
    if g == "" {
      assert g + rest == rest;
    } else {
      assert g[0] in g;
      GapSkipped(g[1..], rest);
      assert g + rest == [g[0]] + (g[1..] + rest);
      SeparatorsShift([g[0]], g[1..] + rest, 0);
    }
  }

  lemma TokenStarts(t: Token, rest: string)
    requires TokenOk(t, rest)
    ensures TokenText(t) != "" && !IsSeparator(TokenText(t)[0])
  {
    if t.Num? { NumeralStarts(t.n); }
  }

  /** The next item is the token, and the position after it. */
  lemma TokenRead(cmd: char, nargs: nat, gap: string, t: Token, rest: string)
    requires IsGap(gap) && TokenOk(t, rest) && (if AtArcFlag(cmd, nargs) then !t.Num? else !t.Flag?)
    ensures NextItem(cmd, nargs, gap + (TokenText(t) + rest), 0) == (TokenText(t), |gap| + |TokenText(t)|)
  {
    hide NextItem;
    var body := TokenText(t) + rest;
    TokenStarts(t, rest);
    assert body[0] == TokenText(t)[0];
    GapSkipped(gap, body);
    SkippedAlready(gap + body, 0);
    assert (gap + body)[|gap|..] == body;
    match t {
      case Letter(c) => LetterRead(cmd, nargs, gap, c, rest);
      case Num(n) => NumRead(cmd, nargs, gap, n, rest);
      case Flag(on) => FlagRead(cmd, nargs, gap, on, rest);
    }
  }

  /** The item in s begins at g. */
  predicate BeginsAt(s: string, g: nat) {
    g < |s| && SkipSeparators(s, 0) == g && SkipSeparators(s, g) == g
  }

  lemma LetterRead(cmd: char, nargs: nat, gap: string, c: char, rest: string)
    requires BeginsAt(gap + ([c] + rest), |gap|) && !IsSign(c) && c != '.' && !IsDigit(c)
    ensures NextItem(cmd, nargs, gap + ([c] + rest), 0) == ([c], |gap| + 1)
  {
    hide SkipSeparators;
    assert (gap + ([c] + rest))[|gap|] == c;
  }

  lemma FlagRead(cmd: char, nargs: nat, gap: string, on: bool, rest: string)
    requires BeginsAt(gap + (TokenText(Flag(on)) + rest), |gap|) && AtArcFlag(cmd, nargs)
    ensures NextItem(cmd, nargs, gap + (TokenText(Flag(on)) + rest), 0) == (TokenText(Flag(on)), |gap| + 1)
  {
    hide SkipSeparators;
  }

  lemma NumRead(cmd: char, nargs: nat, gap: string, n: Numeral, rest: string)
    requires BeginsAt(gap + (Text(n) + rest), |gap|) && NumeralOk(n) && |Text(n)| <= ITEM_LENGTH && Apart(n, rest)
    requires !AtArcFlag(cmd, nargs)
    ensures NextItem(cmd, nargs, gap + (Text(n) + rest), 0) == (Text(n), |gap| + |Text(n)|)
  {
    hide NumberEnd, NumeralOk, Apart, SkipSeparators, Text;
    var body := Text(n) + rest;
    NumeralEnds(n, rest);
    NumeralStarts(n);
    NumberShift(gap, body, 0);
    SliceShift(gap, body, 0, |Text(n)|);
    assert body[0..|Text(n)|] == Text(n);
    assert (gap + body)[|gap|] == Text(n)[0];
  }

  /** Of a longer numeral the first 63 characters are kept, and all of it is passed over. */
  lemma LongNumeralCut(n: Numeral, rest: string)
    requires NumeralOk(n) && |Text(n)| > 63 && Apart(n, rest)
    ensures NextPathItem(Text(n) + rest, 0) == (Text(n)[..63], |Text(n)|)
  {
    NumeralEnds(n, rest);
    NumeralStarts(n);
    hide NumberEnd, NumeralOk, Apart, Text, NextPathItem;
    var s := Text(n) + rest;
    assert s[0] == Text(n)[0] && s[..|Text(n)|] == Text(n);
    NumberAtStart(s);
  }

  lemma NumberAtStart(s: string)
    requires s != "" && (IsSign(s[0]) || s[0] == '.' || IsDigit(s[0]))
    ensures NextPathItem(s, 0) == (Truncate(s[..NumberEnd(s, 0)]), NumberEnd(s, 0))
  {
    hide NumberEnd;
    assert s[0..NumberEnd(s, 0)] == s[..NumberEnd(s, 0)];
  }

  lemma TokenMeans(t: Token, rest: string, atof: string -> real)
    requires TokenOk(t, rest)
    ensures TokenText(t) != "" && Classify(TokenText(t), atof) == Meaning(t, atof)
  {
    if t.Num? { NumeralStarts(t.n); }
  }

  /** Printed path data is cut into exactly its tokens, arc flags included, whatever gaps they leave. */
  lemma {:induction false} TokensRead(env: Env, atof: string -> real, st: State, ts: seq<Spaced>, end: string)
    requires Consistent(st) && Legible(ts, end) && IsGap(end) && Placed(env, atof, st, ts)
    ensures ItemsOf(env, atof, st, Print(ts) + end, 0) == Meanings(ts, atof)
    decreases |ts|
  {
    hide NextItem, Step, TokenOk, IsGap, Classify, TokenText, Meaning, Consistent, ItemsOf, Print;
    if ts == [] {
      NothingPrinted(end);
      NothingLeft(env, atof, st, end);
    } else {
      var gap, t, rest := ts[0].gap, ts[0].token, Print(ts[1..]) + end;
      var head := gap + TokenText(t);
      TokenRead(st.cmd, |st.args|, gap, t, rest);
      TokenMeans(t, rest, atof);
      PrintUnfold(ts, end);
      assert gap + (TokenText(t) + rest) == head + rest;
      StepConsistent(env, st, Meaning(t, atof));
      var next := Step(env, st, Meaning(t, atof));
      ItemsUnfold(env, atof, st, head + rest);
      ItemsShift(env, atof, next, head, rest, 0);
      TokensRead(env, atof, next, ts[1..], end);
    }
  }

  lemma NothingPrinted(end: string)
    ensures Print([]) + end == end
  {
  }

  lemma PrintUnfold(ts: seq<Spaced>, end: string)
    requires ts != []
    ensures Print(ts) + end == ts[0].gap + (TokenText(ts[0].token) + (Print(ts[1..]) + end))
  {
    hide TokenText;
  }

  lemma ItemsUnfold(env: Env, atof: string -> real, st: State, s: string)
    requires Consistent(st) && NextItem(st.cmd, |st.args|, s, 0).0 != ""
    ensures var (item, j) := NextItem(st.cmd, |st.args|, s, 0);
            var next := Classify(item, atof);
            && Consistent(Step(env, st, next))
            && ItemsOf(env, atof, st, s, 0) == [next] + ItemsOf(env, atof, Step(env, st, next), s, j)
  {
    hide NextItem, Step, Classify;
    StepConsistent(env, st, Classify(NextItem(st.cmd, |st.args|, s, 0).0, atof));
  }

  lemma NothingLeft(env: Env, atof: string -> real, st: State, end: string)
    requires IsGap(end) && Consistent(st)
    ensures ItemsOf(env, atof, st, end, 0) == []
  {
    GapSkipped(end, "");
    assert end + "" == end;
    SkippedAlready(end, 0);
  }

  /** So a printed path draws what its tokens mean. */
  lemma PrintedPathDraws(env: Env, atof: string -> real, plist: seq<Path>, ts: seq<Spaced>, end: string)
    requires Legible(ts, end) && IsGap(end) && Placed(env, atof, Start(plist), ts)
    ensures ParseText(env, atof, plist, Print(ts) + end) == ParseItems(env, plist, Meanings(ts, atof))
  {
    ParseIsRunOfItems(env, atof, Start(plist), Print(ts) + end, 0);
    TokensRead(env, atof, Start(plist), ts, end);
  }
}

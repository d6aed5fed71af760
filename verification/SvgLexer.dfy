/** The lexer of path data: how nsvg__parsePath cuts a string into items. */
module SvgLexer {
  import opened Scanning
  import opened SvgPath
  import opened SvgBoxes

  predicate IsDigit(c: char) { '0' <= c <= '9' }

  predicate IsSign(c: char) { c == '-' || c == '+' }

  /** The longest number text the item buffer keeps. */
  const ITEM_LENGTH := 63

  function SkipSeparators(s: string, i: nat): (j: nat)
    requires i <= |s|
    ensures i <= j <= |s| && (j < |s| ==> !IsSpace(s[j]) && s[j] != ',')
    decreases |s| - i
  {
    if i < |s| && (IsSpace(s[i]) || s[i] == ',') then SkipSeparators(s, i + 1) else i
  }

  function SkipDigits(s: string, i: nat): (j: nat)
    requires i <= |s|
    ensures i <= j <= |s| && (j < |s| ==> !IsDigit(s[j]))
    ensures i < |s| && IsDigit(s[i]) ==> i < j
    decreases |s| - i
  {
    if i < |s| && IsDigit(s[i]) then SkipDigits(s, i + 1) else i
  }

  function SkipSign(s: string, i: nat): (j: nat)
    requires i <= |s|
    ensures i <= j <= |s| && (i < |s| && IsSign(s[i]) <==> j == i + 1) && j <= i + 1
  {
    if i < |s| && IsSign(s[i]) then i + 1 else i
  }

  /** The end of the number at i: sign, digits, fraction, and an exponent unless "em" or "ex" follows. */
  function NumberEnd(s: string, i: nat): (j: nat)
    requires i <= |s|
    ensures i <= j <= |s|
    ensures i < |s| && (IsSign(s[i]) || IsDigit(s[i]) || s[i] == '.') ==> i < j
  {
    ExponentEnd(s, FractionEnd(s, SkipDigits(s, SkipSign(s, i))))
  }

  function FractionEnd(s: string, i: nat): (j: nat)
    requires i <= |s|
    ensures i <= j <= |s| && (i < |s| && s[i] == '.' ==> i < j)
  {
    if i < |s| && s[i] == '.' then SkipDigits(s, i + 1) else i
  }

  function ExponentEnd(s: string, i: nat): (j: nat)
    requires i <= |s|
    ensures i <= j <= |s|
  {
    if i < |s| && (s[i] == 'e' || s[i] == 'E') && !(i + 1 < |s| && (s[i + 1] == 'm' || s[i + 1] == 'x'))
    then SkipDigits(s, SkipSign(s, i + 1))
    else i
  }

  function Truncate(item: string): string {
    if |item| > ITEM_LENGTH then item[..ITEM_LENGTH] else item
  }

  /** nsvg__getNextPathItem: the next item and the position after it; the item is empty at the end. */
  function NextPathItem(s: string, i: nat): (r: (string, nat))
    requires i <= |s|
    ensures i <= r.1 <= |s|
    ensures r.0 != "" <==> SkipSeparators(s, i) < |s|
    ensures r.0 != "" ==> i < r.1
  {
    var k := SkipSeparators(s, i);
    if k == |s| then ("", k)
    else if IsSign(s[k]) || s[k] == '.' || IsDigit(s[k]) then (Truncate(s[k..NumberEnd(s, k)]), NumberEnd(s, k))
    else ([s[k]], k + 1)
  }

  /** nsvg__getNextPathItemWhenArcFlag: a flag is one digit even with no separator after it. */
  function NextArcFlag(s: string, i: nat): (r: (string, nat))
    requires i <= |s|
    ensures i <= r.1 <= |s|
    ensures r.0 != "" ==> i < r.1
  {
    var k := SkipSeparators(s, i);
    if k < |s| && (s[k] == '0' || s[k] == '1') then ([s[k]], k + 1) else ("", k)
  }

  predicate AtArcFlag(cmd: char, nargs: nat) {
    (cmd == 'A' || cmd == 'a') && (nargs == 3 || nargs == 4)
  }

  function NextItem(cmd: char, nargs: nat, s: string, i: nat): (r: (string, nat))
    requires i <= |s|
    ensures i <= r.1 <= |s|
    ensures r.0 != "" ==> i < r.1
  {
    var (flag, j) := if AtArcFlag(cmd, nargs) then NextArcFlag(s, i) else ("", i);
    if flag != "" then (flag, j) else NextPathItem(s, j)
  }

  predicate IsCoordinate(item: string) {
    var k := if |item| > 0 && IsSign(item[0]) then 1 else 0;
    k < |item| && (IsDigit(item[k]) || item[k] == '.')
  }

  function Classify(item: string, atof: string -> real): Item
    requires item != ""
  {
    if IsCoordinate(item) then Number(atof(item)) else Command(item[0])
  }

  /** With no command pending a number is treated as an unknown command letter, and ignored. */
  lemma IdleNumber(env: Env, st: State, item: string, v: real)
    requires Consistent(st) && st.cmd == NO_COMMAND && IsCoordinate(item)
    ensures TakeNumber(env, st, v) == TakeCommand(env, st, item[0])
  {
  }

  /** The machine run over a text. */
  function ParseFrom(env: Env, atof: string -> real, st: State, s: string, i: nat): State
    requires Consistent(st) && i <= |s|
    decreases |s| - i
  {
    var (item, j) := NextItem(st.cmd, |st.args|, s, i);
    if item == "" then st
    else
      StepConsistent(env, st, Classify(item, atof));
      ParseFrom(env, atof, Step(env, st, Classify(item, atof)), s, j)
  }

  function ParseText(env: Env, atof: string -> real, plist: seq<Path>, s: string): seq<Path> {
    Finish(env, ParseFrom(env, atof, Start(plist), s, 0))
  }

  /** The items a text stands for. */
  function ItemsOf(env: Env, atof: string -> real, st: State, s: string, i: nat): seq<Item>
    requires Consistent(st) && i <= |s|
    decreases |s| - i
  {
    var (item, j) := NextItem(st.cmd, |st.args|, s, i);
    if item == "" then []
    else
      StepConsistent(env, st, Classify(item, atof));
      [Classify(item, atof)] + ItemsOf(env, atof, Step(env, st, Classify(item, atof)), s, j)
  }

  lemma {:induction false} ParseIsRunOfItems(env: Env, atof: string -> real, st: State, s: string, i: nat)
    requires Consistent(st) && i <= |s|
    ensures ParseFrom(env, atof, st, s, i) == Run(env, st, ItemsOf(env, atof, st, s, i))
    decreases |s| - i
  {
    var (item, j) := NextItem(st.cmd, |st.args|, s, i);
    if item != "" {
      var next := Classify(item, atof);
      StepConsistent(env, st, next);
      ParseIsRunOfItems(env, atof, Step(env, st, next), s, j);
      var items := ItemsOf(env, atof, st, s, i);
      assert items[1..] == ItemsOf(env, atof, Step(env, st, next), s, j);
    }
  }

  /** Any text draws what the absolute form of its items draws, and only well-formed paths are stored. */
  lemma TextDrawsLikeAbsoluteForm(env: Env, atof: string -> real, plist: seq<Path>, s: string)
    requires GoodPaths(env, plist)
    ensures var items := ItemsOf(env, atof, Start(plist), s, 0);
            ParseText(env, atof, plist, s) == ParseItems(env, plist, Absolute(env, Start(plist), items))
    ensures GoodPaths(env, ParseText(env, atof, plist, s))
  {
    var items := ItemsOf(env, atof, Start(plist), s, 0);
    ParseIsRunOfItems(env, atof, Start(plist), s, 0);
    AbsoluteFormDrawsSame(env, plist, items);
    PathsAreWellFormed(env, plist, items);
  }
}

/** Scanning a string up to a stop character. */
module Scanning {

  const NUL := '\0'

  /** White space in the C locale. */
  predicate IsSpace(c: char) {
    c == ' ' || c == '\t' || c == '\n' || c == '\U{000B}' || c == '\U{000C}' || c == '\r'
  }

  function Is(q: char): char -> bool { c => c == q }

  /** The longest prefix without a stop character. */
  function Until(s: string, stop: char -> bool): (r: string)
    ensures |r| <= |s| && r == s[..|r|] && (forall c | c in r :: !stop(c))
    ensures |r| < |s| ==> stop(s[|r|])
  {
    if s == "" || stop(s[0]) then "" else
      var rest := Until(s[1..], stop);
      assert forall c | c in [s[0]] + rest :: c == s[0] || c in rest;
      [s[0]] + rest
  }

  function From(s: string, stop: char -> bool): string {
    s[|Until(s, stop)|..]
  }

  /** Steps over one character, unless at the end. */
  function Skip(s: string): string {
    if s == "" then "" else s[1..]
  }

  lemma Splits(s: string, stop: char -> bool)
    ensures s == Until(s, stop) + From(s, stop)
    ensures From(s, stop) == "" || stop(From(s, stop)[0])
  {
  }

  lemma {:induction false} UntilStops(a: string, b: string, stop: char -> bool)
    requires forall c | c in a :: !stop(c)
    requires b == "" || stop(b[0])
    ensures Until(a + b, stop) == a && From(a + b, stop) == b
  {
    if a == "" {
      assert a + b == b;
    } else {
      assert (a + b)[1..] == a[1..] + b;
      UntilStops(a[1..], b, stop);
    }
  }
}

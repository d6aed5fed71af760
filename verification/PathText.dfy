/** Slash-separated paths: their components, and joining them again. */
module PathText {
  import opened Scanning

  const SLASH := '/'

  function NotSlash(c: char): bool { c != SLASH }

  /** The non-empty pieces between slashes. */
  function Components(s: string): (r: seq<string>)
    ensures forall c | c in r :: Plain(c)
    decreases |s|
  {
    var t := From(s, NotSlash);
    if t == "" then [] else [Until(t, Is(SLASH))] + Components(From(t, Is(SLASH)))
  }

  predicate Plain(c: string) {
    c != "" && SLASH !in c
  }

  function Join(stack: seq<string>): string {
    if stack == [] then ""
    else if |stack| == 1 then stack[0]
    else Join(stack[..|stack| - 1]) + [SLASH] + stack[|stack| - 1]
  }

  lemma JoinPush(stack: seq<string>, c: string)
    ensures Join(stack + [c]) == if stack == [] then c else Join(stack) + [SLASH] + c
  {
    assert (stack + [c])[..|stack + [c]| - 1] == stack;
  }

  // ---------------------------------------------------------------- joining and splitting

  lemma ComponentsUnfold(slashes: string, c: string, rest: string)
    requires (forall x | x in slashes :: x == SLASH) && Plain(c) && (rest == "" || rest[0] == SLASH)
    ensures Components(slashes + (c + rest)) == [c] + Components(rest)
  {
    assert c[0] in c && (c + rest)[0] == c[0];
    UntilStops(slashes, c + rest, NotSlash);
    UntilStops(c, rest, Is(SLASH));
  }

  /** Slashes, a component, and what follows it; or slashes only. */
  lemma SplitFirst(a: string) returns (slashes: string, c: string, rest: string)
    ensures a == slashes + (c + rest) && forall x | x in slashes :: x == SLASH
    ensures if c == "" then rest == "" else Plain(c) && (rest == "" || rest[0] == SLASH)
  {
    slashes := Until(a, NotSlash);
    var t := From(a, NotSlash);
    c, rest := Until(t, Is(SLASH)), From(t, Is(SLASH));
    assert t == c + rest;
  }

  lemma {:induction false} ComponentsConcat(a: string, b: string)
    ensures Components(a + [SLASH] + b) == Components(a) + Components(b)
    decreases |a|
  {
    hide Components, Until, From;
    var slashes, c, rest := SplitFirst(a);
    if c == "" {
      assert a + [SLASH] + b == (slashes + [SLASH]) + b;
      SkipSlashes(slashes + [SLASH], b);
      SkipSlashes(slashes, "");
      assert slashes + "" == a;
      NoComponents();
    } else {
      assert a + [SLASH] + b == slashes + (c + (rest + [SLASH] + b));
      ComponentsUnfold(slashes, c, rest);
      ComponentsUnfold(slashes, c, rest + [SLASH] + b);
      ComponentsConcat(rest, b);
    }
  }

  lemma NoComponents()
    ensures Components("") == []
  {
  }

  lemma SkipSlashes(slashes: string, b: string)
    requires forall c | c in slashes :: c == SLASH
    ensures Components(slashes + b) == Components(b)
  {
    hide Until, From;
    Splits(b, NotSlash);
    var more, t := Until(b, NotSlash), From(b, NotSlash);
    assert slashes + b == (slashes + more) + t;
    UntilStops(slashes + more, t, NotSlash);
  }

  lemma ComponentsOfPlain(c: string)
    requires Plain(c)
    ensures Components(c) == [c]
  {
    UntilStops("", c, NotSlash);
    UntilStops(c, "", Is(SLASH));
    assert "" + c == c && c + "" == c;
    assert Components("") == [];
  }

  lemma {:induction false} ComponentsOfJoin(stack: seq<string>)
    requires forall c | c in stack :: Plain(c)
    ensures Components(Join(stack)) == stack
  {
    hide Components;
    NoComponents();
    if |stack| == 1 {
      ComponentsOfPlain(stack[0]);
    } else if stack != [] {
      var rest, last := stack[..|stack| - 1], stack[|stack| - 1];
      ComponentsConcat(Join(rest), last);
      ComponentsOfPlain(last);
      ComponentsOfJoin(rest);
    }
  }

  predicate Clean(comps: seq<string>) {
    forall c | c in comps :: Plain(c) && c != "." && c != ".."
  }

  lemma {:induction false} JoinStart(stack: seq<string>)
    requires forall c | c in stack :: Plain(c)
    ensures stack != [] ==> Join(stack) != "" && Join(stack)[0] != SLASH
  {
    if |stack| > 1 {
      JoinStart(stack[..|stack| - 1]);
    } else if stack != [] {
      assert stack[0] in stack;
      assert stack[0][0] in stack[0];
    }
  }

  lemma EmptyJoin()
    ensures Join([]) == ""
  {
  }
}

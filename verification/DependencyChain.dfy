/** Dependency chains of ports: reachability, the lists get_rt_deps and get_bt_deps compute, and the
    two levels of caches that fill in while they are computed. */
module DependencyChain {
  import opened Common

  /** What make(1) and the file system say: the absolute form of a dependency's path, and the
      dependencies of the port at an absolute path. */
  datatype Ports = Ports(abspath: string -> string,
                         build: string -> seq<string>, lib: string -> seq<string>, run: string -> seq<string>)

  function RunTime(g: Ports, path: string): seq<string> {
    g.lib(path) + g.run(path)
  }

  function BuildTime(g: Ports, path: string): seq<string> {
    g.build(path) + g.lib(path)
  }

  // ---------------------------------------------------------------- reachability

  /** Each name is a LIB or RUN dependency of the port before it, starting from path. */
  predicate IsChain(g: Ports, path: string, chain: seq<string>)
    decreases |chain|
  {
    chain == [] || (chain[0] in RunTime(g, path) && IsChain(g, g.abspath(chain[0]), chain[1..]))
  }

  ghost predicate Reachable(g: Ports, path: string, dep: string) {
    exists chain :: chain != [] && IsChain(g, path, chain) && chain[|chain| - 1] == dep
  }

  /** No chain from path is longer than n; a cycle below path makes this false for every n. */
  ghost predicate Bounded(g: Ports, path: string, n: nat) {
    forall chain | IsChain(g, path, chain) :: |chain| <= n
  }

  ghost predicate Terminates(g: Ports, path: string) {
    exists n: nat :: Bounded(g, path, n)
  }

  lemma BoundedBelow(g: Ports, path: string, n: nat, dep: string)
    requires Bounded(g, path, n) && dep in RunTime(g, path)
    ensures n > 0 && Bounded(g, g.abspath(dep), n - 1)
  {
    assert IsChain(g, path, [dep]) by { assert [dep][1..] == []; }
    forall chain | IsChain(g, g.abspath(dep), chain) ensures |chain| <= n - 1 {
      assert ([dep] + chain)[1..] == chain;
      assert IsChain(g, path, [dep] + chain);
    }
  }

  lemma {:induction false} ReachableStep(g: Ports, path: string, dep: string)
    ensures Reachable(g, path, dep)
       <==> dep in RunTime(g, path) || exists d | d in RunTime(g, path) :: Reachable(g, g.abspath(d), dep)
  {
    if dep in RunTime(g, path) {
      assert [dep][1..] == [];
      assert IsChain(g, path, [dep]);
    }
    if d :| d in RunTime(g, path) && Reachable(g, g.abspath(d), dep) {
      var chain :| chain != [] && IsChain(g, g.abspath(d), chain) && chain[|chain| - 1] == dep;
      assert ([d] + chain)[1..] == chain;
      assert IsChain(g, path, [d] + chain);
    }
    if Reachable(g, path, dep) {
      var chain :| chain != [] && IsChain(g, path, chain) && chain[|chain| - 1] == dep;
      if |chain| > 1 {
        var d, rest := chain[0], chain[1..];
        assert rest != [] && IsChain(g, g.abspath(d), rest) && rest[|rest| - 1] == dep;
        assert Reachable(g, g.abspath(d), dep);
      }
    }
  }

  // ---------------------------------------------------------------- the lists

  function Missing(deps: seq<string>, known: seq<string>): (r: seq<string>)
    ensures forall d :: d in r <==> d in deps && d !in known
  {
    if deps == [] then []
    else (if deps[0] in known then [] else [deps[0]]) + Missing(deps[1..], known)
  }

  /** get_rt_deps: the direct dependencies, extended with what each of them needs and is not yet listed. */
  ghost function RtList(g: Ports, path: string, n: nat): seq<string>
    requires Bounded(g, path, n)
    decreases n, 1, 0
  {
    RtFold(g, path, n, RunTime(g, path), RunTime(g, path))
  }

  ghost function RtFold(g: Ports, path: string, n: nat, deps: seq<string>, acc: seq<string>): seq<string>
    requires Bounded(g, path, n) && forall d | d in deps :: d in RunTime(g, path)
    decreases n, 0, |deps|
  {
    if deps == [] then acc
    else
      BoundedBelow(g, path, n, deps[0]);
      var below := RtList(g, g.abspath(deps[0]), n - 1);
      RtFold(g, path, n, deps[1..], acc + Missing(below, acc))
  }

  lemma {:induction false} RtListUnique(g: Ports, path: string, n: nat, m: nat)
    requires Bounded(g, path, n) && Bounded(g, path, m)
    ensures RtList(g, path, n) == RtList(g, path, m)
    decreases n, 1, 0
  {
    RtFoldUnique(g, path, n, m, RunTime(g, path), RunTime(g, path));
  }

  lemma {:induction false} RtFoldUnique(g: Ports, path: string, n: nat, m: nat, deps: seq<string>, acc: seq<string>)
    requires Bounded(g, path, n) && Bounded(g, path, m) && forall d | d in deps :: d in RunTime(g, path)
    ensures RtFold(g, path, n, deps, acc) == RtFold(g, path, m, deps, acc)
    decreases n, 0, |deps|
  {
    hide Missing, Bounded;
    if deps != [] {
      BoundedBelow(g, path, n, deps[0]);
      BoundedBelow(g, path, m, deps[0]);
      RtListUnique(g, g.abspath(deps[0]), n - 1, m - 1);
      var below := RtList(g, g.abspath(deps[0]), n - 1);
      RtFoldUnique(g, path, n, m, deps[1..], acc + Missing(below, acc));
    }
  }

  /** The run-time dependencies of the port at path, whatever bound shows that the recursion ends. */
  ghost function Rt(g: Ports, path: string): seq<string>
    requires Terminates(g, path)
  {
    var n: nat :| Bounded(g, path, n);
    RtList(g, path, n)
  }

  lemma RtIs(g: Ports, path: string, n: nat)
    requires Bounded(g, path, n)
    ensures Rt(g, path) == RtList(g, path, n)
  {
    var m: nat :| Bounded(g, path, m) && Rt(g, path) == RtList(g, path, m);
    RtListUnique(g, path, n, m);
  }

  /** A fold over the dependencies deps of one port, each of which terminates. */
  ghost function Closure(g: Ports, deps: seq<string>, acc: seq<string>): seq<string>
    requires forall d | d in deps :: Terminates(g, g.abspath(d))
    decreases |deps|
  {
    if deps == [] then acc
    else Closure(g, deps[1..], acc + Missing(Rt(g, g.abspath(deps[0])), acc))
  }

  lemma ClosureUnfold(g: Ports, deps: seq<string>, acc: seq<string>)
    requires deps != [] && forall d | d in deps :: Terminates(g, g.abspath(d))
    ensures Closure(g, deps, acc) == Closure(g, deps[1..], acc + Missing(Rt(g, g.abspath(deps[0])), acc))
  {
  }

  lemma ClosureEnds(g: Ports, acc: seq<string>)
    ensures Closure(g, [], acc) == acc
  {
  }

  lemma {:induction false} RtFoldIsClosure(g: Ports, path: string, n: nat, deps: seq<string>, acc: seq<string>)
    requires Bounded(g, path, n) && forall d | d in deps :: d in RunTime(g, path)
    ensures forall d | d in deps :: Terminates(g, g.abspath(d))
    ensures RtFold(g, path, n, deps, acc) == Closure(g, deps, acc)
    decreases |deps|
  {
    forall d | d in deps ensures Terminates(g, g.abspath(d)) {
      BoundedBelow(g, path, n, d);
    }
    if deps != [] {
      BoundedBelow(g, path, n, deps[0]);
      RtIs(g, g.abspath(deps[0]), n - 1);
      var below := RtList(g, g.abspath(deps[0]), n - 1);
      RtFoldIsClosure(g, path, n, deps[1..], acc + Missing(below, acc));
    }
  }

  /** The recursion equation that get_rt_deps unfolds. */
  lemma RtUnfolds(g: Ports, path: string)
    requires Terminates(g, path)
    ensures forall d | d in RunTime(g, path) :: Terminates(g, g.abspath(d))
    ensures Rt(g, path) == Closure(g, RunTime(g, path), RunTime(g, path))
  {
    var n: nat :| Bounded(g, path, n);
    RtIs(g, path, n);
    RtFoldIsClosure(g, path, n, RunTime(g, path), RunTime(g, path));
  }

  /** get_bt_deps: BUILD and LIB dependencies, and the run-time closure of each. */
  ghost function Bt(g: Ports, path: string): seq<string>
    requires forall d | d in BuildTime(g, path) :: Terminates(g, g.abspath(d))
  {
    Closure(g, BuildTime(g, path), BuildTime(g, path))
  }

  lemma {:induction false} ClosureMembers(g: Ports, deps: seq<string>, acc: seq<string>, dep: string)
    requires forall d | d in deps :: Terminates(g, g.abspath(d))
    ensures dep in Closure(g, deps, acc) <==> dep in acc || exists d | d in deps :: dep in Rt(g, g.abspath(d))
    decreases |deps|
  {
    if deps != [] {
      var below := Rt(g, g.abspath(deps[0]));
      ClosureMembers(g, deps[1..], acc + Missing(below, acc), dep);
      if dep in below {
        assert deps[0] in deps;
      }
      if d :| d in deps[1..] && dep in Rt(g, g.abspath(d)) {
        assert d in deps;
      }
      if d :| d in deps && dep in Rt(g, g.abspath(d)) {
        assert d == deps[0] || d in deps[1..];
      }
    }
  }

  /** The run-time list holds exactly the ports reachable over LIB and RUN edges. */
  lemma {:induction false} RtIsReachability(g: Ports, path: string, n: nat, dep: string)
    requires Bounded(g, path, n)
    ensures dep in Rt(g, path) <==> Reachable(g, path, dep)
    decreases n
  {
    RtUnfolds(g, path);
    ClosureMembers(g, RunTime(g, path), RunTime(g, path), dep);
    ReachableStep(g, path, dep);
    forall d | d in RunTime(g, path) ensures dep in Rt(g, g.abspath(d)) <==> Reachable(g, g.abspath(d), dep) {
      BoundedBelow(g, path, n, d);
      RtIsReachability(g, g.abspath(d), n - 1, dep);
    }
  }

  /** The build-time list holds the BUILD and LIB dependencies and whatever they reach at run time. */
  lemma BtIsReachability(g: Ports, path: string, dep: string)
    requires forall d | d in BuildTime(g, path) :: Terminates(g, g.abspath(d))
    ensures dep in Bt(g, path)
       <==> dep in BuildTime(g, path) || exists d | d in BuildTime(g, path) :: Reachable(g, g.abspath(d), dep)
  {
    ClosureMembers(g, BuildTime(g, path), BuildTime(g, path), dep);
    forall d | d in BuildTime(g, path) ensures dep in Rt(g, g.abspath(d)) <==> Reachable(g, g.abspath(d), dep) {
      var n: nat :| Bounded(g, g.abspath(d), n);
      RtIsReachability(g, g.abspath(d), n, dep);
    }
  }

  // ---------------------------------------------------------------- order and repetitions

  predicate Distinct(names: seq<string>) {
    forall i, j | 0 <= i < j < |names| :: names[i] != names[j]
  }

  lemma {:induction false} ClosureExtends(g: Ports, deps: seq<string>, acc: seq<string>)
    requires forall d | d in deps :: Terminates(g, g.abspath(d))
    ensures acc <= Closure(g, deps, acc)
    decreases |deps|
  {
    hide Missing;
    if deps != [] {
      ClosureExtends(g, deps[1..], acc + Missing(Rt(g, g.abspath(deps[0])), acc));
    }
  }

  /** The direct dependencies come first, then what the first of them needs besides. */
  lemma DirectFirst(g: Ports, path: string)
    requires Terminates(g, path)
    ensures g.lib(path) + g.run(path) <= Rt(g, path)
    ensures RunTime(g, path) != [] ==>
              var first := g.abspath(RunTime(g, path)[0]);
              && Terminates(g, first)
              && RunTime(g, path) + Missing(Rt(g, first), RunTime(g, path)) <= Rt(g, path)
  {
    hide Missing;
    var deps := RunTime(g, path);
    RtUnfolds(g, path);
    ClosureExtends(g, deps, deps);
    if deps != [] {
      ClosureUnfold(g, deps, deps);
      ClosureExtends(g, deps[1..], deps + Missing(Rt(g, g.abspath(deps[0])), deps));
    }
  }

  lemma BuildFirst(g: Ports, path: string)
    requires forall d | d in BuildTime(g, path) :: Terminates(g, g.abspath(d))
    ensures g.build(path) + g.lib(path) <= Bt(g, path)
  {
    ClosureExtends(g, BuildTime(g, path), BuildTime(g, path));
  }

  lemma {:induction false} MissingDistinct(deps: seq<string>, known: seq<string>)
    requires Distinct(deps)
    ensures Distinct(Missing(deps, known))
  {
    if deps != [] {
      MissingDistinct(deps[1..], known);
      assert forall d | d in Missing(deps[1..], known) :: d in deps[1..];
    }
  }

  lemma {:induction false} ClosureDistinct(g: Ports, deps: seq<string>, acc: seq<string>)
    requires forall d | d in deps :: Terminates(g, g.abspath(d)) && Distinct(Rt(g, g.abspath(d)))
    requires Distinct(acc)
    ensures Distinct(Closure(g, deps, acc))
    decreases |deps|
  {
    if deps != [] {
      var below := Rt(g, g.abspath(deps[0]));
      MissingDistinct(below, acc);
      AppendDistinct(acc, Missing(below, acc));
      ClosureDistinct(g, deps[1..], acc + Missing(below, acc));
    }
  }

  lemma AppendDistinct(a: seq<string>, b: seq<string>)
    requires Distinct(a) && Distinct(b) && forall d | d in b :: d !in a
    ensures Distinct(a + b)
  {
    forall i, j | 0 <= i < j < |a + b| ensures (a + b)[i] != (a + b)[j] {
      if i < |a| <= j { assert (a + b)[j] in b && (a + b)[i] in a; }
    }
  }

  /** The port at q is the one at path or one that it needs. */
  ghost predicate Needs(g: Ports, path: string, q: string) {
    q == path || exists dep :: Reachable(g, path, dep) && q == g.abspath(dep)
  }

  lemma NeedsBelow(g: Ports, path: string, d: string, q: string)
    requires d in RunTime(g, path) && Needs(g, g.abspath(d), q)
    ensures Needs(g, path, q)
  {
    if q == g.abspath(d) {
      ReachableStep(g, path, d);
    } else {
      var dep :| Reachable(g, g.abspath(d), dep) && q == g.abspath(dep);
      ReachableStep(g, path, dep);
    }
  }

  ghost predicate ListedOnce(g: Ports, q: string) {
    Terminates(g, q) && Distinct(Rt(g, q))
  }

  lemma {:induction false} NeededTerminates(g: Ports, path: string, n: nat, q: string)
    requires Bounded(g, path, n) && Needs(g, path, q)
    ensures Terminates(g, q)
    decreases n
  {
    if q != path {
      var dep :| Reachable(g, path, dep) && q == g.abspath(dep);
      ReachableStep(g, path, dep);
      if dep in RunTime(g, path) {
        BoundedBelow(g, path, n, dep);
      } else {
        var d :| d in RunTime(g, path) && Reachable(g, g.abspath(d), dep);
        BoundedBelow(g, path, n, d);
        NeededTerminates(g, g.abspath(d), n - 1, q);
      }
    }
  }

  lemma {:induction false} DistinctBelow(g: Ports, path: string, n: nat)
    requires Bounded(g, path, n) && forall q | Needs(g, path, q) :: Distinct(RunTime(g, q))
    ensures ListedOnce(g, path)
    decreases n
  {
    hide Distinct, Needs;
    RtUnfolds(g, path);
    NeedsItself(g, path);
    forall d | d in RunTime(g, path) ensures ListedOnce(g, g.abspath(d)) {
      BoundedBelow(g, path, n, d);
      forall q | Needs(g, g.abspath(d), q) ensures Distinct(RunTime(g, q)) { NeedsBelow(g, path, d, q); }
      DistinctBelow(g, g.abspath(d), n - 1);
    }
    ClosureDistinct(g, RunTime(g, path), RunTime(g, path));
  }

  lemma NeedsItself(g: Ports, path: string)
    ensures Needs(g, path, path)
  {
  }

  lemma {:induction false} NeedsAgain(g: Ports, path: string, n: nat, p: string, q: string)
    requires Bounded(g, path, n) && Needs(g, path, p) && Needs(g, p, q)
    ensures Needs(g, path, q)
    decreases n
  {
    if p != path {
      var dep :| Reachable(g, path, dep) && p == g.abspath(dep);
      ReachableStep(g, path, dep);
      if dep in RunTime(g, path) {
        NeedsBelow(g, path, dep, q);
      } else {
        var d :| d in RunTime(g, path) && Reachable(g, g.abspath(d), dep);
        BoundedBelow(g, path, n, d);
        NeedsAgain(g, g.abspath(d), n - 1, p, q);
        NeedsBelow(g, path, d, q);
      }
    }
  }

  /** The lists of a port and of all that it needs name nothing twice if and only if their direct dependencies do not: a
      name under both LIB and RUN stays double, and can be handed on. */
  lemma ListedOnceIff(g: Ports, path: string, n: nat)
    requires Bounded(g, path, n)
    ensures (forall q | Needs(g, path, q) :: ListedOnce(g, q))
       <==> forall q | Needs(g, path, q) :: Distinct(RunTime(g, q))
  {
    hide Needs, Distinct;
    forall q | Needs(g, path, q) && ListedOnce(g, q) ensures Distinct(RunTime(g, q)) {
      DirectFirst(g, q);
      PrefixDistinct(RunTime(g, q), Rt(g, q));
    }
    if forall q | Needs(g, path, q) :: Distinct(RunTime(g, q)) {
      forall p | Needs(g, path, p) ensures ListedOnce(g, p) {
        NeededTerminates(g, path, n, p);
        var m: nat :| Bounded(g, p, m);
        forall q | Needs(g, p, q) ensures Distinct(RunTime(g, q)) { NeedsAgain(g, path, n, p, q); }
        DistinctBelow(g, p, m);
      }
    }
  }

  lemma PrefixDistinct(a: seq<string>, b: seq<string>)
    requires a <= b && Distinct(b)
    ensures Distinct(a)
  {
    assert forall i | 0 <= i < |a| :: a[i] == b[i];
  }

  // ---------------------------------------------------------------- when the recursion ends

  /** get_rt_deps ends within n levels of calls. */
  function RtCalls(g: Ports, path: string, n: nat): bool
    decreases n
  {
    forall d | d in RunTime(g, path) :: n > 0 && RtCalls(g, g.abspath(d), n - 1)
  }

  /** n levels suffice if and only if no chain is longer than n. */
  lemma {:induction false} CallsBounded(g: Ports, path: string, n: nat)
    ensures RtCalls(g, path, n) <==> Bounded(g, path, n)
    decreases n
  {
    if RtCalls(g, path, n) {
      forall chain | IsChain(g, path, chain) ensures |chain| <= n {
        if chain != [] {
          CallsBounded(g, g.abspath(chain[0]), n - 1);
          assert IsChain(g, g.abspath(chain[0]), chain[1..]) && |chain[1..]| == |chain| - 1;
        }
      }
    }
    if Bounded(g, path, n) {
      forall d | d in RunTime(g, path) ensures n > 0 && RtCalls(g, g.abspath(d), n - 1) {
        BoundedBelow(g, path, n, d);
        CallsBounded(g, g.abspath(d), n - 1);
      }
    }
  }

  function Repeat(cycle: seq<string>, n: nat): (r: seq<string>)
    ensures cycle != [] ==> |r| >= n
  {
    if n == 0 then [] else cycle + Repeat(cycle, n - 1)
  }

  /** The port a chain ends at. */
  function EndOf(g: Ports, path: string, chain: seq<string>): string {
    if chain == [] then path else g.abspath(chain[|chain| - 1])
  }

  lemma {:induction false} ChainAppend(g: Ports, path: string, a: seq<string>, b: seq<string>)
    requires IsChain(g, path, a)
    ensures IsChain(g, path, a + b) <==> IsChain(g, EndOf(g, path, a), b)
    decreases |a|
  {
    if a == [] {
      assert a + b == b;
    } else {
      assert (a + b)[1..] == a[1..] + b;
      ChainAppend(g, g.abspath(a[0]), a[1..], b);
    }
  }

  ghost predicate IsCycle(g: Ports, path: string, cycle: seq<string>) {
    cycle != [] && IsChain(g, path, cycle) && EndOf(g, path, cycle) == path
  }

  /** Some port reachable from path, or path itself, reaches itself. */
  ghost predicate Cyclic(g: Ports, path: string) {
    exists chain, cycle :: IsChain(g, path, chain) && IsCycle(g, EndOf(g, path, chain), cycle)
  }

  lemma {:induction false} CyclePumps(g: Ports, path: string, cycle: seq<string>, n: nat)
    requires IsCycle(g, path, cycle)
    ensures IsChain(g, path, Repeat(cycle, n))
  {
    if n > 0 {
      CyclePumps(g, path, cycle, n - 1);
      ChainAppend(g, path, cycle, Repeat(cycle, n - 1));
    }
  }

  lemma CyclicNeverBounded(g: Ports, path: string, n: nat)
    requires Cyclic(g, path)
    ensures !Bounded(g, path, n)
  {
    var chain, cycle :| IsChain(g, path, chain) && IsCycle(g, EndOf(g, path, chain), cycle);
    var pumped := Repeat(cycle, n + 1);
    CyclePumps(g, EndOf(g, path, chain), cycle, n + 1);
    ChainAppend(g, path, chain, pumped);
    assert |chain + pumped| > n;
  }

  /** The ports visited along a chain, the start included. */
  function Visited(g: Ports, path: string, chain: seq<string>): (r: seq<string>)
    ensures |r| == |chain| + 1
  {
    seq(|chain| + 1, i requires 0 <= i <= |chain| => EndOf(g, path, chain[..i]))
  }

  lemma {:induction false} PigeonHole(s: seq<string>, ports: set<string>)
    requires Distinct(s) && forall x | x in s :: x in ports
    ensures |s| <= |ports|
    decreases |s|
  {
    if s != [] {
      PigeonHole(s[1..], ports - {s[0]});
    }
  }

  lemma SplitMakesCycle(g: Ports, path: string, before: seq<string>, cycle: seq<string>, after: seq<string>)
    requires IsChain(g, path, before + (cycle + after)) && cycle != []
    requires EndOf(g, path, before) == EndOf(g, path, before + cycle)
    ensures Cyclic(g, path)
  {
    PrefixIsChain(g, path, before, cycle + after);
    ChainAppend(g, path, before, cycle + after);
    PrefixIsChain(g, EndOf(g, path, before), cycle, after);
    assert (before + cycle)[|before + cycle| - 1] == cycle[|cycle| - 1];
    assert IsCycle(g, EndOf(g, path, before), cycle);
  }

  /** A chain that visits a port twice runs through a cycle. */
  lemma RepeatMakesCycle(g: Ports, path: string, chain: seq<string>, i: nat, j: nat)
    requires IsChain(g, path, chain) && i < j <= |chain|
    requires EndOf(g, path, chain[..i]) == EndOf(g, path, chain[..j])
    ensures Cyclic(g, path)
  {
    hide IsChain, Cyclic, EndOf;
    assert chain == chain[..i] + (chain[i..j] + chain[j..]);
    assert chain[..j] == chain[..i] + chain[i..j];
    SplitMakesCycle(g, path, chain[..i], chain[i..j], chain[j..]);
  }

  lemma {:induction false} PrefixIsChain(g: Ports, path: string, a: seq<string>, b: seq<string>)
    requires IsChain(g, path, a + b)
    ensures IsChain(g, path, a)
    decreases |a|
  {
    if a != [] {
      assert (a + b)[1..] == a[1..] + b;
      PrefixIsChain(g, g.abspath(a[0]), a[1..], b);
    }
  }

  predicate Closed(g: Ports, ports: set<string>) {
    forall p, d | p in ports && d in RunTime(g, p) :: g.abspath(d) in ports
  }

  lemma {:induction false} ChainStaysIn(g: Ports, path: string, chain: seq<string>, ports: set<string>)
    requires path in ports && Closed(g, ports) && IsChain(g, path, chain)
    ensures EndOf(g, path, chain) in ports
    decreases |chain|
  {
    if chain != [] {
      ChainStaysIn(g, g.abspath(chain[0]), chain[1..], ports);
    }
  }

  lemma AcyclicIsBounded(g: Ports, path: string, ports: set<string>)
    requires path in ports && Closed(g, ports) && !Cyclic(g, path)
    ensures Bounded(g, path, |ports|)
  {
    forall chain | IsChain(g, path, chain) ensures |chain| <= |ports| {
      var visited := Visited(g, path, chain);
      forall i, j | 0 <= i < j < |visited| ensures visited[i] != visited[j] {
        if visited[i] == visited[j] {
          RepeatMakesCycle(g, path, chain, i, j);
        }
      }
      forall x | x in visited ensures x in ports {
        var i :| 0 <= i < |visited| && x == visited[i];
        assert chain == chain[..i] + chain[i..];
        PrefixIsChain(g, path, chain[..i], chain[i..]);
        ChainStaysIn(g, path, chain[..i], ports);
      }
      PigeonHole(visited, ports);
    }
  }

  /** Over finitely many ports, the recursion ends if and only if no port below path depends on itself. */
  lemma TerminatesIffAcyclic(g: Ports, path: string, ports: set<string>)
    requires path in ports && Closed(g, ports)
    ensures (exists n: nat :: RtCalls(g, path, n)) <==> !Cyclic(g, path)
  {
    if n: nat :| RtCalls(g, path, n) {
      CallsBounded(g, path, n);
      if Cyclic(g, path) {
        CyclicNeverBounded(g, path, n);
      }
    }
    if !Cyclic(g, path) {
      AcyclicIsBounded(g, path, ports);
      CallsBounded(g, path, |ports|);
    }
  }

  // ---------------------------------------------------------------- the caches

  class PortInfo {
    const path: string
    var deps: Option<(seq<string>, seq<string>, seq<string>)>
    var btDeps: Option<seq<string>>
    var rtDeps: Option<seq<string>>

    constructor (path: string)
      ensures this.path == path && deps.None? && btDeps.None? && rtDeps.None?
    {
      this.path := path;
      deps, btDeps, rtDeps := None, None, None;
    }

    /** Whatever is cached is right. */
    ghost predicate Good(g: Ports)
      reads this
    {
      && (deps.Some? ==> deps.value == (g.build(path), g.lib(path), g.run(path)))
      && (rtDeps.Some? ==> Terminates(g, path) && rtDeps.value == Rt(g, path))
      && (btDeps.Some? ==>
            (forall d | d in BuildTime(g, path) :: Terminates(g, g.abspath(d))) && btDeps.value == Bt(g, path))
    }
  }

  class Checker {
    const g: Ports
    var picache: map<string, PortInfo>

    ghost predicate Valid()
      reads this, picache.Values
    {
      forall p | p in picache :: picache[p].path == p && picache[p].Good(g)
    }

    constructor (g: Ports)
      ensures Valid() && this.g == g && picache == map[]
    {
      this.g := g;
      picache := map[];
    }

    /** The cache only grows, and only with new objects. */
    twostate predicate Grown()
      reads this
    {
      && old(picache).Keys <= picache.Keys
      && (forall p | p in old(picache) :: picache[p] == old(picache)[p])
      && (forall p | p in picache && p !in old(picache) :: fresh(picache[p]))
    }

    method GetPi(name: string) returns (pi: PortInfo)
      requires Valid()
      modifies this`picache
      ensures Valid() && Grown()
      ensures g.abspath(name) in picache && pi == picache[g.abspath(name)]
    {
      var path := g.abspath(name);
      if path !in picache {
        var created := new PortInfo(path);
        picache := picache[path := created];
      }
      pi := picache[path];
    }

    method GetDeps(pi: PortInfo) returns (r: (seq<string>, seq<string>, seq<string>))
      requires Valid() && pi in picache.Values
      modifies pi`deps
      ensures Valid() && r == (g.build(pi.path), g.lib(pi.path), g.run(pi.path))
    {
      if pi.deps.None? {
        pi.deps := Some((g.build(pi.path), g.lib(pi.path), g.run(pi.path)));
      }
      r := pi.deps.value;
    }

    /** topdeps extended, dependency by dependency, with what get_rt_deps says and is not yet there. */
    method Extend(start: seq<string>, ghost bounds: string -> nat) returns (topdeps: seq<string>)
      requires Valid() && forall d | d in start :: Bounded(g, g.abspath(d), bounds(d))
      requires forall d | d in start :: Terminates(g, g.abspath(d))
      modifies this`picache, picache.Values
      ensures Valid() && Grown() && topdeps == Closure(g, start, start)
      decreases Highest(start, bounds), 0
    {
      hide Bounded, Terminates, Rt, Highest, Missing, Closure;
      topdeps := start;
      var i := 0;
      while i < |start|
        invariant 0 <= i <= |start| && Valid() && Grown()
        invariant Closure(g, start[i..], topdeps) == Closure(g, start, start)
      {
        var dep := start[i];
        assert start[i..][1..] == start[i + 1..];
        HighestIs(start, bounds, dep);
        ClosureUnfold(g, start[i..], topdeps);
        var pi := GetPi(dep);
        var below := GetRtDeps(pi, bounds(dep));
        topdeps := topdeps + Missing(below, topdeps);
        i := i + 1;
      }
      ClosureEnds(g, topdeps);
    }

    /** get_rt_deps: ends whenever the dependencies are bounded, with the specified list, from any cache. */
    method GetRtDeps(pi: PortInfo, ghost n: nat) returns (r: seq<string>)
      requires Valid() && pi in picache.Values && Bounded(g, pi.path, n)
      modifies this`picache, picache.Values
      ensures Valid() && Grown() && Terminates(g, pi.path) && r == Rt(g, pi.path) && pi.rtDeps == Some(r)
      decreases n, 1
    {
      hide Bounded, Closure, Rt, Highest;
      TerminatesWithin(g, pi.path, n);
      if pi.rtDeps.None? {
        var deps := GetDeps(pi);
        ghost var bounds := OneLess(n);
        RunTimeBounds(g, pi.path, n);
        var topdeps := Extend(deps.1 + deps.2, bounds);
        pi.rtDeps := Some(topdeps);
      }
      r := pi.rtDeps.value;
    }

    /** get_bt_deps. */
    method GetBtDeps(pi: PortInfo, ghost bounds: string -> nat) returns (r: seq<string>)
      requires Valid() && pi in picache.Values
      requires forall d | d in BuildTime(g, pi.path) :: Bounded(g, g.abspath(d), bounds(d))
      modifies this`picache, picache.Values
      ensures Valid() && Grown()
      ensures forall d | d in BuildTime(g, pi.path) :: Terminates(g, g.abspath(d))
      ensures r == Bt(g, pi.path) && pi.btDeps == Some(r)
    {
      hide Bounded, Rt, Closure;
      if pi.btDeps.None? {
        var deps := GetDeps(pi);
        var topdeps := Extend(deps.0 + deps.1, bounds);
        pi.btDeps := Some(topdeps);
      }
      r := pi.btDeps.value;
    }
  }

  ghost function OneLess(n: nat): string -> nat {
    d => if n > 0 then n - 1 else 0
  }

  lemma TerminatesWithin(g: Ports, path: string, n: nat)
    requires Bounded(g, path, n)
    ensures Terminates(g, path)
  {
  }

  lemma RunTimeBounds(g: Ports, path: string, n: nat)
    requires Bounded(g, path, n)
    ensures forall d | d in RunTime(g, path) ::
              Terminates(g, g.abspath(d)) && Bounded(g, g.abspath(d), OneLess(n)(d))
    ensures Highest(RunTime(g, path), OneLess(n)) <= n
    ensures Rt(g, path) == Closure(g, RunTime(g, path), RunTime(g, path))
  {
    RtUnfolds(g, path);
    forall d | d in RunTime(g, path) ensures n > 0 && Bounded(g, g.abspath(d), OneLess(n)(d)) {
      BoundedBelow(g, path, n, d);
    }
    HighestBelow(RunTime(g, path), OneLess(n), n);
  }

  /** One more than the largest bound of a list of dependencies. */
  ghost function Highest(deps: seq<string>, bounds: string -> nat): nat {
    if deps == [] then 0
    else
      var rest := Highest(deps[1..], bounds);
      if bounds(deps[0]) + 1 > rest then bounds(deps[0]) + 1 else rest
  }

  lemma {:induction false} HighestIs(deps: seq<string>, bounds: string -> nat, d: string)
    requires d in deps
    ensures bounds(d) < Highest(deps, bounds)
  {
    if d != deps[0] {
      HighestIs(deps[1..], bounds, d);
    }
  }

  lemma {:induction false} HighestBelow(deps: seq<string>, bounds: string -> nat, n: nat)
    requires forall d | d in deps :: bounds(d) < n
    ensures Highest(deps, bounds) <= n
  {
    if deps != [] {
      HighestBelow(deps[1..], bounds, n);
    }
  }
}

/** The snapshot poller: a timer tick asks for the changes since the stored snapshot, stores a new one and
    publishes. The two native calls are asynchronous, so other steps come between them. */
module WatcherSnapshot {
  import opened Common

  /** File-system changes are numbered in the order in which they happen; a window holds lo, .., hi - 1. */
  datatype Window = Window(lo: nat, hi: nat) {
    predicate Has(c: nat) { lo <= c < hi }
  }

  /** A tick that waits for a native call which started when since changes had happened. */
  datatype Flight =
    | Baseline(since: nat)
    | Asking(since: nat, from: nat)
    | Saving(since: nat, updates: Window)

  /** now is the number of changes so far; mark, how many of them the stored snapshot already contains. */
  datatype State = State(now: nat, mark: Option<nat>, active: bool, ready: bool, running: bool,
                         flights: seq<Flight>, published: seq<Window>)

  /** Settle(i, ok, seen, found): the call that flight i waits for ends; it looked at the tree after seen changes, and
      found says whether the stored snapshot was still there when it was read. */
  datatype Step = Change | Timer | Settle(i: nat, ok: bool, seen: nat, found: bool) | Unsubscribe

  function Drop(flights: seq<Flight>, i: nat): seq<Flight>
    requires i < |flights|
  {
    flights[..i] + flights[i + 1..]
  }

  /** A native call sees the tree at some moment between its start and its end; the snapshot disappears only when
      the subscription ends. */
  predicate Enabled(s: State, step: Step) {
    step.Settle? ==>
      && step.i < |s.flights| && s.flights[step.i].since <= step.seen <= s.now
      && (s.mark.Some? ==> step.found)
  }

  function Tick(s: State): State {
    if !s.active || s.running then s
    else s.(running := true, flights := s.flights + [if s.ready then Asking(s.now, Base(s)) else Baseline(s.now)])
  }

  /** How many changes the stored snapshot contains. */
  function Base(s: State): nat { if s.mark.Some? then s.mark.value else s.now }

  function Settled(s: State, i: nat, ok: bool, seen: nat, found: bool): State
    requires i < |s.flights|
  {
    if !ok then s.(ready := false, running := false, flights := Drop(s.flights, i))
    else
      match s.flights[i]
      case Baseline(_) =>
        s.(mark := Some(seen), ready := true, running := false, flights := Drop(s.flights, i))
      case Asking(_, from) =>
        s.(flights := s.flights[i := Saving(s.now, Window(if found then from else seen, seen))])
      case Saving(_, updates) =>
        s.(mark := Some(seen), running := false, flights := Drop(s.flights, i), published := s.published + [updates])
  }

  function Apply(s: State, step: Step): State {
    if !Enabled(s, step) then s
    else
      match step
      case Change => s.(now := s.now + 1)
      case Timer => Tick(s)
      case Settle(i, ok, seen, found) => Settled(s, i, ok, seen, found)
      case Unsubscribe => s.(active := false, mark := None)
  }

  function Run(s: State, steps: seq<Step>): State
    decreases |steps|
  {
    if steps == [] then s else Run(Apply(s, steps[0]), steps[1..])
  }

  /** Subscribing stores a first snapshot before the timer starts; that may fail, and changes may happen meanwhile. */
  predicate Initial(s: State) {
    && s.active && !s.running && s.flights == [] && s.published == []
    && (if s.ready then s.mark.Some? && s.mark.value <= s.now else s.mark == None)
  }

  // ---------------------------------------------------------------- what every step keeps

  predicate Ordered(ws: seq<Window>) {
    && (forall i | 0 <= i < |ws| :: ws[i].lo <= ws[i].hi)
    && (forall i, j | 0 <= i < j < |ws| :: ws[i].hi <= ws[j].lo)
  }

  /** Windows that have been published or are about to be, oldest first. */
  function Windows(s: State): seq<Window> {
    s.published + (if |s.flights| == 1 && s.flights[0].Saving? then [s.flights[0].updates] else [])
  }

  /** No window that is yet to be formed starts below this. */
  function Floor(s: State): nat {
    if s.flights == [] then if s.active && s.ready then Base(s) else s.now
    else if s.flights[0].Asking? then s.flights[0].from
    else s.flights[0].since
  }

  predicate Inv(s: State) {
    && |s.flights| <= 1 && (s.running <==> |s.flights| == 1)
    && (s.flights != [] ==> s.flights[0].since <= s.now)
    && (s.flights != [] && s.flights[0].Asking? ==> s.flights[0].from <= s.flights[0].since)
    && (s.mark.Some? ==> s.mark.value <= s.now)
    && (s.active && s.ready ==> s.mark.Some?)
    && (s.flights != [] ==> (s.ready <==> !s.flights[0].Baseline?))
    && Ordered(Windows(s))
    && (forall i | 0 <= i < |Windows(s)| :: Windows(s)[i].hi <= Floor(s))
  }

  lemma OrderedAppend(ws: seq<Window>, w: Window)
    requires Ordered(ws) && w.lo <= w.hi && forall i | 0 <= i < |ws| :: ws[i].hi <= w.lo
    ensures Ordered(ws + [w])
  {
  }

  lemma StepKeepsInv(s: State, step: Step)
    requires Inv(s)
    ensures Inv(Apply(s, step)) && Floor(s) <= Floor(Apply(s, step))
  {
    if Enabled(s, step) && step.Settle? {
      SettleKeepsInv(s, step);
    } else {
      assert Windows(Apply(s, step)) == Windows(s);
    }
  }

  lemma SettleKeepsInv(s: State, step: Step)
    requires Inv(s) && step.Settle? && Enabled(s, step)
    ensures Inv(Apply(s, step)) && Floor(s) <= Floor(Apply(s, step))
  {
    hide Ordered;
    var t, w := Apply(s, step), s.flights[0];
    assert Drop(s.flights, 0) == [];
    if step.ok && w.Asking? {
      assert Windows(s) == s.published && Windows(t) == s.published + [t.flights[0].updates];
      OrderedAppend(s.published, t.flights[0].updates);
    } else if w.Saving? {
      assert Windows(s) == s.published + [w.updates];
      assert forall i | 0 <= i < |s.published| :: Windows(s)[i] == s.published[i];
      OrderedPrefix(s.published, w.updates);
      assert Windows(t) == if step.ok then Windows(s) else s.published;
    } else {
      assert Windows(t) == Windows(s);
    }
  }

  lemma OrderedPrefix(ws: seq<Window>, w: Window)
    requires Ordered(ws + [w])
    ensures Ordered(ws)
  {
    assert forall i | 0 <= i < |ws| :: (ws + [w])[i] == ws[i];
  }

  lemma {:induction false} RunKeepsInv(s: State, steps: seq<Step>)
    requires Inv(s)
    ensures Inv(Run(s, steps))
    decreases |steps|
  {
    if steps != [] {
      StepKeepsInv(s, steps[0]);
      RunKeepsInv(Apply(s, steps[0]), steps[1..]);
    }
  }

  /** In every run at most one tick is in flight, and the published windows are disjoint and go forward:
      no change is ever published twice. */
  lemma OneTickAndForwardWindows(s: State, steps: seq<Step>)
    requires Initial(s)
    ensures var t := Run(s, steps);
            |t.flights| <= 1 && Ordered(t.published)
            && forall i, j, c: nat | 0 <= i < |t.published| && 0 <= j < |t.published|
                 && t.published[i].Has(c) && t.published[j].Has(c) :: i == j
  {
    RunKeepsInv(s, steps);
    var t := Run(s, steps);
    assert forall i | 0 <= i < |t.published| :: Windows(t)[i] == t.published[i];
  }

  // ---------------------------------------------------------------- changes that nobody hears of

  predicate Held(s: State, c: nat) {
    exists w | w in Windows(s) :: w.Has(c)
  }

  lemma StepAddsNoOldChange(s: State, step: Step, c: nat)
    requires Inv(s) && c < Floor(s) && !Held(s, c)
    ensures !Held(Apply(s, step), c)
  {
    var t := Apply(s, step);
    assert forall w | w in s.published :: w in Windows(s);
    if Enabled(s, step) && step.Settle? && s.flights[0].Saving? {
      assert Windows(s) == s.published + [s.flights[0].updates];
      assert forall w | w in Windows(t) :: w in Windows(s);
    }
  }

  /** A change below the floor that no window holds is never published, whatever happens next. */
  lemma {:induction false} LostForGood(s: State, steps: seq<Step>, c: nat)
    requires Inv(s) && c < Floor(s) && !Held(s, c)
    ensures !Held(Run(s, steps), c)
    decreases |steps|
  {
    if steps != [] {
      StepAddsNoOldChange(s, steps[0], c);
      StepKeepsInv(s, steps[0]);
      LostForGood(Apply(s, steps[0]), steps[1..], c);
    }
  }

  /** The changes that a step passes over for good, read off the calls: what no window will hold. */
  predicate PassedOver(s: State, step: Step, c: nat)
    requires Inv(s)
  {
    Enabled(s, step) &&
    match step
    case Timer => false
    // Without a snapshot to compare with, a change goes unseen as it happens.
    case Change => s.flights == [] && !(s.active && s.ready) && c == s.now
    case Unsubscribe => s.flights == [] && s.active && s.ready && Base(s) <= c < s.now
    case Settle(_, ok, seen, found) =>
      var f := s.flights[0];
      // A failed call loses its window and whatever comes before the next baseline.
      if !ok then Floor(s) <= c < s.now || (f.Saving? && f.updates.Has(c))
      else
        match f
        // Changes before the moment at which a snapshot saw the tree, but after the window in hand.
        case Baseline(since) => since <= c < (if s.active then seen else s.now)
        case Asking(_, from) => (if found then seen else from) <= c < s.now
        case Saving(since, _) => since <= c < (if s.active then seen else s.now)
  }

  ghost predicate PassedIn(s: State, steps: seq<Step>, c: nat)
    requires Inv(s)
    decreases |steps|
  {
    steps != [] &&
    (PassedOver(s, steps[0], c) || (StepKeepsInv(s, steps[0]); PassedIn(Apply(s, steps[0]), steps[1..], c)))
  }

  lemma StepAccounts(s: State, step: Step, c: nat)
    requires Inv(s) && (c >= Floor(s) || Held(s, c))
    ensures var t := Apply(s, step);
            if PassedOver(s, step, c) then !Held(t, c) && c < Floor(t) else c >= Floor(t) || Held(t, c)
  {
    hide Ordered;
    if Enabled(s, step) && step.Settle? {
      SettleAccounts(s, step, c);
    } else {
      assert Windows(Apply(s, step)) == Windows(s);
      HeldBelowFloor(s, c);
    }
  }

  lemma HeldBelowFloor(s: State, c: nat)
    requires Inv(s)
    ensures Held(s, c) ==> c < Floor(s)
  {
    if Held(s, c) {
      var i :| 0 <= i < |Windows(s)| && Windows(s)[i].Has(c);
    }
  }

  lemma SettleAccounts(s: State, step: Step, c: nat)
    requires Inv(s) && Enabled(s, step) && step.Settle? && (c >= Floor(s) || Held(s, c))
    ensures var t := Apply(s, step);
            if PassedOver(s, step, c) then !Held(t, c) && c < Floor(t) else c >= Floor(t) || Held(t, c)
  {
    var t, f := Apply(s, step), s.flights[0];
    StepKeepsInv(s, step);
    HeldBelowFloor(s, c);
    assert Drop(s.flights, 0) == [];
    HeldIff(s, c);
    HeldIff(t, c);
    if f.Saving? {
      LastWindowApart(s, c);
      assert forall w :: w in t.published <==> w in s.published || (step.ok && w == f.updates);
    }
  }

  lemma HeldIff(s: State, c: nat)
    requires |s.flights| <= 1
    ensures Held(s, c) <==> (exists w | w in s.published :: w.Has(c))
                            || (s.flights != [] && s.flights[0].Saving? && s.flights[0].updates.Has(c))
  {
  }

  /** The window in hand and the published ones have nothing in common. */
  lemma LastWindowApart(s: State, c: nat)
    requires Inv(s) && s.flights != [] && s.flights[0].Saving?
    ensures s.flights[0].updates.Has(c) ==> forall w | w in s.published :: !w.Has(c)
  {
    var all := Windows(s);
    forall w | w in s.published && s.flights[0].updates.Has(c) ensures !w.Has(c) {
      var i :| 0 <= i < |s.published| && s.published[i] == w;
      assert all[i] == w && all[|s.published|] == s.flights[0].updates;
    }
  }

  /** Over every run: of the changes below the floor, those and only those are not held by a window that some step of
      the run passed over. */
  lemma {:induction false} HeldUnlessPassedOver(s: State, steps: seq<Step>, c: nat)
    requires Inv(s) && (c >= Floor(s) || Held(s, c))
    ensures c < Floor(Run(s, steps)) ==> (Held(Run(s, steps), c) <==> !PassedIn(s, steps, c))
    decreases |steps|
  {
    if steps == [] {
    } else {
      var t := Apply(s, steps[0]);
      StepKeepsInv(s, steps[0]);
      StepAccounts(s, steps[0], c);
      if PassedOver(s, steps[0], c) {
        LostForGood(t, steps[1..], c);
      } else {
        HeldUnlessPassedOver(t, steps[1..], c);
      }
    }
  }

  /** From the start of the subscription this accounts for every change below the floor. */
  lemma LostExactly(s: State, steps: seq<Step>)
    requires Initial(s)
    ensures Inv(s)
    ensures forall c: nat | Floor(s) <= c < Floor(Run(s, steps)) ::
              Held(Run(s, steps), c) <==> !PassedIn(s, steps, c)
  {
    forall c: nat | Floor(s) <= c < Floor(Run(s, steps))
      ensures Held(Run(s, steps), c) <==> !PassedIn(s, steps, c)
    {
      HeldUnlessPassedOver(s, steps, c);
    }
  }

  function Changes(n: nat): seq<Step> {
    seq(n, _ => Change)
  }

  lemma {:induction false} RunChanges(s: State, n: nat)
    ensures Run(s, Changes(n)) == s.(now := s.now + n)
    decreases n
  {
    if n > 0 {
      assert Changes(n)[1..] == Changes(n - 1);
      RunChanges(s.(now := s.now + 1), n - 1);
    }
  }

  lemma {:induction false} RunAppends(s: State, a: seq<Step>, b: seq<Step>)
    ensures Run(s, a + b) == Run(Run(s, a), b)
    decreases |a|
  {
    if a == [] {
      assert a + b == b;
    } else {
      assert (a + b)[1..] == a[1..] + b;
      RunAppends(Apply(s, a[0]), a[1..], b);
    }
  }

  lemma RunOne(s: State, step: Step)
    ensures Run(s, [step]) == Apply(s, step)
  {
    assert [step][1..] == [];
    assert Run(Apply(s, step), []) == Apply(s, step);
  }

  lemma RunTwo(s: State, a: Step, b: Step)
    ensures Run(s, [a, b]) == Apply(Apply(s, a), b)
  {
    assert [a, b][1..] == [b] && [b][1..] == [];
    assert Run(Apply(s, a), [b]) == Run(Apply(Apply(s, a), b), []);
  }

  /** One whole tick, with n changes during the first native call and m during the second. */
  function Cycle(n: nat, seen: nat, m: nat, stored: nat): seq<Step> {
    [Timer] + Changes(n) + ([Settle(0, true, seen, true)] + Changes(m) + [Settle(0, true, stored, true)])
  }

  lemma RunCycle(s: State, n: nat, seen: nat, m: nat, stored: nat)
    requires s.active && s.ready && !s.running && s.flights == [] && s.mark.Some?
    requires s.now <= seen <= s.now + n <= stored <= s.now + n + m
    ensures Run(s, Cycle(n, seen, m, stored)) ==
            s.(now := s.now + n + m, mark := Some(stored), published := s.published + [Window(s.mark.value, seen)])
  {
    hide Run;
    var s1 := Apply(s, Timer);
    var s2 := s1.(now := s.now + n);
    var s3 := Apply(s2, Settle(0, true, seen, true));
    var s4 := s3.(now := s.now + n + m);
    RunOne(s, Timer);
    RunChanges(s1, n);
    RunAppends(s, [Timer], Changes(n));
    RunOne(s2, Settle(0, true, seen, true));
    RunChanges(s3, m);
    RunAppends(s2, [Settle(0, true, seen, true)], Changes(m));
    RunOne(s4, Settle(0, true, stored, true));
    RunAppends(s2, [Settle(0, true, seen, true)] + Changes(m), [Settle(0, true, stored, true)]);
    RunAppends(s, [Timer] + Changes(n), [Settle(0, true, seen, true)] + Changes(m) + [Settle(0, true, stored, true)]);
    CycleStates(s, s1, s2, s3, s4, n, seen, m, stored);
  }

  lemma CycleStates(s: State, s1: State, s2: State, s3: State, s4: State, n: nat, seen: nat, m: nat, stored: nat)
    requires s.active && s.ready && !s.running && s.flights == [] && s.mark.Some?
    requires s.now <= seen <= s.now + n <= stored <= s.now + n + m
    requires s1 == Apply(s, Timer) && s2 == s1.(now := s.now + n)
    requires s3 == Apply(s2, Settle(0, true, seen, true)) && s4 == s3.(now := s.now + n + m)
    ensures s3.now == s.now + n
    ensures Apply(s4, Settle(0, true, stored, true)) ==
            s.(now := s.now + n + m, mark := Some(stored), published := s.published + [Window(s.mark.value, seen)])
  {
    assert s2.flights == [Asking(s.now, s.mark.value)];
    assert s3.flights == [Saving(s.now + n, Window(s.mark.value, seen))];
    assert Drop(s4.flights, 0) == [];
  }

  /** A tick that succeeds loses no change exactly when none falls between what its two native calls saw. */
  lemma CycleLosesNothingIff(s: State, n: nat, seen: nat, m: nat, stored: nat)
    requires Inv(s) && s.active && s.ready && s.flights == [] && s.mark.Some?
    requires s.now <= seen <= s.now + n <= stored <= s.now + n + m
    ensures var t := Run(s, Cycle(n, seen, m, stored));
            (forall c | s.mark.value <= c < Floor(t) :: Held(t, c)) <==> seen == stored
    ensures seen < stored ==>
              forall rest :: !Held(Run(Run(s, Cycle(n, seen, m, stored)), rest), seen)
  {
    RunCycle(s, n, seen, m, stored);
    var t := Run(s, Cycle(n, seen, m, stored));
    RunKeepsInv(s, Cycle(n, seen, m, stored));
    var w := Window(s.mark.value, seen);
    assert Windows(t) == t.published && w in t.published && Floor(t) == stored;
    assert Windows(s) == s.published;
    assert forall i | 0 <= i < |s.published| :: Windows(s)[i].hi <= s.mark.value;
    assert forall c: nat | s.mark.value <= c :: Held(t, c) <==> w.Has(c);
    if seen < stored {
      assert !Held(t, seen);
      forall rest ensures !Held(Run(t, rest), seen) {
        LostForGood(t, rest, seen);
      }
    }
  }

  /** When storing the new snapshot fails, the batch in hand is dropped and never published. */
  lemma FailedStoreLosesBatch(s: State, seen: nat, c: nat, rest: seq<Step>)
    requires Inv(s) && s.flights != [] && s.flights[0].Saving? && s.flights[0].updates.Has(c)
    requires s.flights[0].since <= seen <= s.now
    ensures !Held(Run(Apply(s, Settle(0, false, seen, true)), rest), c)
  {
    var t := Apply(s, Settle(0, false, seen, true));
    StepKeepsInv(s, Settle(0, false, seen, true));
    var all := Windows(s);
    assert all == s.published + [s.flights[0].updates] && Windows(t) == s.published;
    assert all[|s.published|].hi <= Floor(s);
    forall w | w in s.published ensures !w.Has(c) {
      var i :| 0 <= i < |s.published| && s.published[i] == w;
      assert all[i].hi <= all[|s.published|].lo;
    }
    LostForGood(t, rest, c);
  }

  // ---------------------------------------------------------------- after unsubscribing

  lemma InactiveStep(s: State, step: Step)
    requires Inv(s) && !s.active
    ensures var t := Apply(s, step);
            && !t.active && |t.published| + |t.flights| <= |s.published| + |s.flights|
            && (s.flights == [] ==> t.flights == [] && t.published == s.published && (s.mark.None? ==> t.mark.None?))
            && (s.flights != [] && s.flights[0].Baseline? ==>
                  t.published == s.published && (t.flights == [] || t.flights == s.flights))
  {
    if Enabled(s, step) && step.Settle? {
      assert Drop(s.flights, 0) == [];
    }
  }

  /** After unsubscribing, at most one more batch is published. */
  lemma {:induction false} AfterUnsubscribe(s: State, steps: seq<Step>)
    requires Inv(s) && !s.active
    ensures var t := Run(s, steps);
            && |t.published| + |t.flights| <= |s.published| + |s.flights|
            && (s.flights == [] || s.flights[0].Baseline? ==> t.published == s.published)
            && (s.flights == [] && s.mark.None? ==> t.mark.None?)
    decreases |steps|
  {
    if steps != [] {
      InactiveStep(s, steps[0]);
      StepKeepsInv(s, steps[0]);
      AfterUnsubscribe(Apply(s, steps[0]), steps[1..]);
    }
  }

  /** Unsubscribing between ticks deletes the snapshot file for good, and nothing more is published. */
  lemma UnsubscribeEnds(s: State, steps: seq<Step>)
    requires Inv(s) && s.flights == []
    ensures var t := Run(Apply(s, Unsubscribe), steps); t.mark.None? && t.published == s.published && !t.active
  {
    StepKeepsInv(s, Unsubscribe);
    AfterUnsubscribe(Apply(s, Unsubscribe), steps);
    StaysInactive(Apply(s, Unsubscribe), steps);
  }

  lemma {:induction false} StaysInactive(s: State, steps: seq<Step>)
    requires Inv(s) && !s.active
    ensures !Run(s, steps).active
    decreases |steps|
  {
    if steps != [] {
      StepKeepsInv(s, steps[0]);
      StaysInactive(Apply(s, steps[0]), steps[1..]);
    }
  }

  /** A batch still comes if and only if a tick past its baseline is in flight. */
  lemma LateBatchIff(s: State)
    requires Inv(s) && !s.active
    ensures (exists steps :: Run(s, steps).published != s.published) <==> s.flights != [] && !s.flights[0].Baseline?
  {
    if s.flights == [] || s.flights[0].Baseline? {
      forall steps ensures Run(s, steps).published == s.published {
        AfterUnsubscribe(s, steps);
      }
    } else {
      var steps := FinishTick(s);
    }
  }

  /** The snapshot file comes back if and only if any tick is in flight. */
  lemma FileComesBackIff(s: State)
    requires Inv(s) && !s.active && s.mark.None?
    ensures (exists steps :: Run(s, steps).mark.Some?) <==> s.flights != []
  {
    if s.flights == [] {
      forall steps ensures Run(s, steps).mark.None? {
        AfterUnsubscribe(s, steps);
      }
    } else {
      var steps := FinishTick(s);
    }
  }

  /** The run in which every call of the tick in flight succeeds. */
  lemma FinishTick(s: State) returns (steps: seq<Step>)
    requires Inv(s) && s.flights != []
    ensures var t := Run(s, steps);
            && t.flights == [] && t.mark == Some(s.now)
            && |t.published| == |s.published| + (if s.flights[0].Baseline? then 0 else 1)
  {
    var settle := Settle(0, true, s.now, true);
    assert forall u: State | |u.flights| == 1 :: Drop(u.flights, 0) == [];
    if s.flights[0].Asking? {
      steps := [settle, settle];
      RunTwo(s, settle, settle);
      assert Apply(s, settle).flights == [Saving(s.now, Window(s.flights[0].from, s.now))];
    } else {
      steps := [settle];
      RunOne(s, settle);
    }
  }

  /** Unsubscribing while a tick stores its snapshot: the batch is published all the same and the file is back. */
  lemma LateBatch(s: State)
    requires Inv(s) && |s.flights| == 1 && s.flights[0].Saving?
    ensures var t := Run(s, [Unsubscribe, Settle(0, true, s.now, true)]);
            !t.active && t.mark == Some(s.now) && t.published == s.published + [s.flights[0].updates]
  {
    RunTwo(s, Unsubscribe, Settle(0, true, s.now, true));
  }
}

/** The play or record position that an OSS plugin accumulates from a device's counters. */
module RingPointer {
  import opened Common

  datatype State = Running | Xrun | Other

  datatype Result = Frames(value: int) | BrokenPipe | Invalid

  // ---------------------------------------------------------------- remainders

  /** The remainder of a non-negative number; C's % on such numbers. */
  function Wrap(x: nat, n: nat): (r: nat)
    requires n > 0
    ensures r < n
  {
    x % n
  }

  function Laps(x: nat, n: nat): nat
    requires n > 0
  {
    x / n
  }

  /** C truncates towards zero. */
  function Rem(x: int, n: nat): (r: int)
    requires n > 0
    ensures 0 - n < r < n
  {
    if x >= 0 then Wrap(x, n) else 0 - Wrap(-x, n)
  }

  function Quot(x: int, n: nat): int
    requires n > 0
  {
    if x >= 0 then Laps(x, n) else 0 - Laps(-x, n)
  }

  lemma Division(x: nat, n: nat)
    requires n > 0
    ensures x == Laps(x, n) * n + Wrap(x, n)
  {
  }

  lemma OneStep(q: int, n: nat)
    requires n > 0
    ensures q >= 1 ==> q * n >= n
    ensures q <= -1 ==> q * n <= 0 - n
  {
  }

  /** Quotient and remainder are unique. */
  lemma WrapIs(x: nat, q: int, r: nat, n: nat)
    requires n > 0 && x == q * n + r && r < n
    ensures Wrap(x, n) == r
  {
    hide Wrap, Laps;
    Division(x, n);
    var d := Laps(x, n) - q;
    Spread(Laps(x, n), -q, n);
    OneStep(d, n);
  }

  lemma Spread(p: int, q: int, n: nat)
    ensures (p + q) * n == p * n + q * n
  {
  }

  lemma SmallWrap(x: nat, n: nat)
    requires x < n
    ensures Wrap(x, n) == x
  {
    WrapIs(x, 0, x, n);
  }

  lemma WrapAdds(a: nat, b: nat, n: nat)
    requires n > 0
    ensures Wrap(Wrap(a, n) + b, n) == Wrap(a + b, n)
  {
    hide Wrap, Laps;
    var s := Wrap(a, n) + b;
    Division(a, n);
    Division(s, n);
    Spread(Laps(a, n), Laps(s, n), n);
    WrapIs(a + b, Laps(a, n) + Laps(s, n), Wrap(s, n), n);
  }

  lemma WrapIgnoresLaps(x: nat, k: nat, n: nat)
    requires n > 0
    ensures k * n >= 0 && Wrap(x + k * n, n) == Wrap(x, n)
  {
    hide Wrap, Laps;
    OneStep(k, n);
    Division(x, n);
    Spread(Laps(x, n), k, n);
    WrapIs(x + k * n, Laps(x, n) + k, Wrap(x, n), n);
  }

  /** Two counts less than a buffer apart differ by what their remainders say. */
  lemma Unwrap(t: nat, u: nat, n: nat)
    requires n > 0 && t <= u < t + n
    ensures (if Wrap(u, n) < Wrap(t, n) then n else 0) + Wrap(u, n) - Wrap(t, n) == u - t
  {
    hide Wrap, Laps;
    var r, d := Wrap(t, n), u - t;
    Division(t, n);
    if r + d < n {
      WrapIs(u, Laps(t, n), r + d, n);
    } else {
      Spread(Laps(t, n), 1, n);
      WrapIs(u, Laps(t, n) + 1, r + d - n, n);
    }
  }

  lemma EqualWrapIff(a: nat, b: nat, n: nat)
    requires n > 0
    ensures Wrap(a, n) == Wrap(a + b, n) <==> Wrap(b, n) == 0
  {
    hide Wrap, Laps;
    WrapAdds(a, b, n);
    WrapAdds(b, Wrap(a, n), n);
    var r, s := Wrap(a, n), Wrap(b, n);
    if r + s < n {
      SmallWrap(s + r, n);
    } else {
      WrapIs(s + r, 1, s + r - n, n);
    }
  }

  // ---------------------------------------------------------------- the wrapped counter

  /** What one call adds to the position when the counter goes from was to is_. */
  function Advance(was: nat, is_: nat, bufsz: nat): int {
    (if is_ < was then bufsz else 0) + is_ - was
  }

  /** The position after a run of calls that found the device at the given total byte counts. */
  function Follow(ptr: nat, from: nat, totals: seq<nat>, bufsz: nat, align: nat): nat
    requires align > 0 && bufsz > 0
    decreases |totals|
  {
    if totals == [] then ptr
    else
      var step := Advance(Wrap(from, bufsz), Wrap(totals[0], bufsz), bufsz);
      Follow(Wrap(ptr + step, align), totals[0], totals[1..], bufsz, align)
  }

  /** The device only goes forward. */
  predicate Forward(from: nat, totals: seq<nat>)
    decreases |totals|
  {
    totals == [] || (from <= totals[0] && Forward(totals[0], totals[1..]))
  }

  /** It goes by less than its buffer between two calls. */
  predicate Tracks(from: nat, totals: seq<nat>, bufsz: nat)
    decreases |totals|
  {
    totals == [] || (from <= totals[0] < from + bufsz && Tracks(totals[0], totals[1..], bufsz))
  }

  /** The bytes of whole buffers that went by between two calls. */
  function Unseen(from: nat, totals: seq<nat>, bufsz: nat): nat
    requires bufsz > 0 && Forward(from, totals)
    decreases |totals|
  {
    if totals == [] then 0
    else LapBytes(totals[0] - from, bufsz) + Unseen(totals[0], totals[1..], bufsz)
  }

  function LapBytes(d: nat, bufsz: nat): (r: nat)
    requires bufsz > 0
    ensures r + Wrap(d, bufsz) == d
  {
    d - Wrap(d, bufsz)
  }

  function Last(from: nat, totals: seq<nat>): nat {
    if totals == [] then from else totals[|totals| - 1]
  }

  /** One call sees the distance modulo the device buffer. */
  lemma StepIs(from: nat, next: nat, bufsz: nat)
    requires bufsz > 0 && from <= next
    ensures Advance(Wrap(from, bufsz), Wrap(next, bufsz), bufsz) == Wrap(next - from, bufsz)
  {
    hide Wrap, Laps;
    var d := next - from;
    var seen := from + Wrap(d, bufsz);
    Division(d, bufsz);
    OneStep(Laps(d, bufsz), bufsz);
    LapsAreNatural(d, bufsz);
    WrapIgnoresLaps(seen, Laps(d, bufsz), bufsz);
    Unwrap(from, seen, bufsz);
  }

  lemma LapsAreNatural(d: nat, n: nat)
    requires n > 0
    ensures Laps(d, n) >= 0
  {
  }

  lemma {:induction false} FollowMisses(ptr: nat, from: nat, totals: seq<nat>, bufsz: nat, align: nat)
    requires align > 0 && bufsz > 0 && Forward(from, totals) && ptr < align
    ensures Last(from, totals) >= from + Unseen(from, totals, bufsz)
    ensures Follow(ptr, from, totals, bufsz, align)
         == Wrap(ptr + (Last(from, totals) - from - Unseen(from, totals, bufsz)), align)
    decreases |totals|
  {
    hide Wrap, Advance;
    if totals == [] {
      SmallWrap(ptr, align);
    } else {
      var next := totals[0];
      var step := Wrap(next - from, bufsz);
      StepIs(from, next, bufsz);
      FollowMisses(Wrap(ptr + step, align), next, totals[1..], bufsz, align);
      assert Last(from, totals) == Last(next, totals[1..]);
      WrapAdds(ptr + step, Last(next, totals[1..]) - next - Unseen(next, totals[1..], bufsz), align);
    }
  }

  /** Over any run the position is the device's total advance modulo the software buffer if and only if the whole
      device buffers that went by unseen add up to a multiple of the software buffer. */
  lemma FollowIsAdvanceIff(from: nat, totals: seq<nat>, bufsz: nat, align: nat)
    requires align > 0 && bufsz > 0 && Forward(from, totals)
    ensures Last(from, totals) >= from
    ensures Follow(0, from, totals, bufsz, align) == Wrap(Last(from, totals) - from, align)
       <==> Wrap(Unseen(from, totals, bufsz), align) == 0
  {
    hide Wrap;
    FollowMisses(0, from, totals, bufsz, align);
    var unseen := Unseen(from, totals, bufsz);
    EqualWrapIff(Last(from, totals) - from - unseen, unseen, align);
  }

  /** One call, from any position. */
  lemma OneCallIsExactIff(ptr: nat, from: nat, next: nat, bufsz: nat, align: nat)
    requires align > 0 && bufsz > 0 && from <= next && ptr < align
    ensures Rem(ptr + Advance(Wrap(from, bufsz), Wrap(next, bufsz), bufsz), align) == Wrap(ptr + (next - from), align)
       <==> Wrap(LapBytes(next - from, bufsz), align) == 0
  {
    hide Wrap, Advance, LapBytes;
    StepIs(from, next, bufsz);
    EqualWrapIff(ptr + Wrap(next - from, bufsz), LapBytes(next - from, bufsz), align);
  }

  lemma {:induction false} NothingUnseen(from: nat, totals: seq<nat>, bufsz: nat)
    requires bufsz > 0 && Tracks(from, totals, bufsz)
    ensures Forward(from, totals) && Unseen(from, totals, bufsz) == 0
    decreases |totals|
  {
    if totals != [] {
      SmallWrap(totals[0] - from, bufsz);
      NothingUnseen(totals[0], totals[1..], bufsz);
    }
  }

  /** While the device moves by less than its buffer between calls, the position is its total advance. */
  lemma FollowIsAdvance(from: nat, totals: seq<nat>, bufsz: nat, align: nat)
    requires align > 0 && bufsz > 0 && Tracks(from, totals, bufsz)
    ensures Last(from, totals) >= from
    ensures Follow(0, from, totals, bufsz, align) == (Last(from, totals) - from) % align
  {
    NothingUnseen(from, totals, bufsz);
    SmallWrap(0, align);
    FollowIsAdvanceIff(from, totals, bufsz, align);
  }

  // ---------------------------------------------------------------- the space counter

  function Rise(was: nat, is_: nat): nat { if is_ > was then is_ - was else 0 }

  /** The sum of the increments in a series of readings. */
  function Increments(was: nat, readings: seq<nat>): nat
    decreases |readings|
  {
    if readings == [] then 0 else Rise(was, readings[0]) + Increments(readings[0], readings[1..])
  }

  function Gained(ptr: int, was: nat, is_: nat, align: nat): int
    requires align > 0
  {
    if is_ > was then Rem(ptr + (is_ - was), align) else ptr
  }

  function Gather(ptr: int, was: nat, readings: seq<nat>, align: nat): int
    requires align > 0
    decreases |readings|
  {
    if readings == [] then ptr else Gather(Gained(ptr, was, readings[0], align), readings[0], readings[1..], align)
  }

  lemma GainedIs(ptr: nat, was: nat, is_: nat, align: nat)
    requires ptr < align
    ensures Gained(ptr, was, is_, align) == Wrap(ptr + Rise(was, is_), align)
  {
    SmallWrap(ptr, align);
  }

  /** The position is the sum of the positive increments, modulo the software buffer. */
  lemma {:induction false} GatherIsIncrements(ptr: nat, was: nat, readings: seq<nat>, align: nat)
    requires ptr < align
    ensures Gather(ptr, was, readings, align) == Wrap(ptr + Increments(was, readings), align)
    decreases |readings|
  {
    hide Wrap, Gained, Rise;
    if readings == [] {
      SmallWrap(ptr, align);
    } else {
      var up := Rise(was, readings[0]);
      GainedIs(ptr, was, readings[0], align);
      GatherIsIncrements(Wrap(ptr + up, align), readings[0], readings[1..], align);
      WrapAdds(ptr + up, Increments(readings[0], readings[1..]), align);
    }
  }

  // ---------------------------------------------------------------- the plugin

  /** What the device answers: its buffer size, and the bytes that could be moved without blocking. */
  datatype Space = Space(fragments: nat, bytes: nat)

  class Oss {
    var bufsz: nat
    var ptr: int
    var ptrAlign: nat
    var lastBytes: nat
    var frameBytes: nat

    predicate Valid()
      reads this
    {
      ptrAlign > 0 && frameBytes > 0 && 0 - ptrAlign < ptr < ptrAlign
    }

    /** The position and the last counter of a device that counts within its buffer. */
    predicate InRange()
      reads this
    {
      Valid() && 0 <= ptr && lastBytes <= bufsz
    }

    constructor (bufsz: nat, bufferFrames: nat, frameBytes: nat)
      requires bufferFrames > 0 && frameBytes > 0
      ensures InRange() && this.bufsz == bufsz && this.frameBytes == frameBytes
      ensures ptrAlign == bufferFrames * frameBytes && ptr == 0 && lastBytes == 0
    {
      this.bufsz, this.frameBytes := bufsz, frameBytes;
      ptr, lastBytes := 0, 0;
      ptrAlign := bufferFrames * frameBytes;
    }

    /** oss_start. The counter is read only in the build that follows it. */
    method Start(triggered: bool, space: Option<Space>, counter: Option<nat>, useCounter: bool) returns (ok: bool)
      requires Valid()
      modifies this
      ensures Valid() && ptrAlign == old(ptrAlign) && frameBytes == old(frameBytes)
      ensures ok == (triggered && space.Some? && (useCounter ==> counter.Some?))
      ensures bufsz == if triggered && space.Some? then space.value.fragments else old(bufsz)
      ensures ok ==> ptr == 0 && lastBytes == if useCounter then counter.value else space.value.bytes
      ensures ok && lastBytes <= bufsz ==> InRange()
      ensures !ok ==> ptr == old(ptr) && lastBytes == old(lastBytes)
    {
      if !triggered || space.None? { return false; }
      if bufsz != space.value.fragments {
        bufsz := space.value.fragments;
      }
      if useCounter {
        if counter.None? { return false; }
        lastBytes := counter.value;
      } else {
        lastBytes := space.value.bytes;
      }
      ptr := 0;
      return true;
    }

    /** oss_pointer with the wrapped counter. The test for an xrun comes after the return for every state but
        running, so an xrun reads as position 0. */
    method PointerByCounter(state: State, counter: Option<nat>, space: Option<Space>) returns (r: Result)
      requires Valid()
      modifies this`ptr, this`lastBytes
      ensures Valid()
      ensures r == if !state.Running? then Frames(0)
                   else if counter.None? then Invalid
                   else if counter.value == old(lastBytes) && (space.None? || space.value.bytes == bufsz)
                   then BrokenPipe
                   else Frames(Quot(ptr, frameBytes))
      ensures r.Frames? && state.Running? ==>
                ptr == Rem(old(ptr) + Advance(old(lastBytes), counter.value, bufsz), ptrAlign)
                && lastBytes == counter.value
      ensures old(InRange()) && (counter.Some? ==> counter.value <= bufsz) ==> InRange()
      ensures !(r.Frames? && state.Running?) ==> ptr == old(ptr) && lastBytes == old(lastBytes)
    {
      if state != Running { return Frames(0); }
      if counter.None? { return Invalid; }
      if counter.value == lastBytes && (space.None? || space.value.bytes == bufsz) { return BrokenPipe; }
      var next := ptr;
      if counter.value < lastBytes {
        next := next + bufsz;
      }
      next := next + counter.value;
      next := next - lastBytes;
      ptr := Rem(next, ptrAlign);
      lastBytes := counter.value;
      return Frames(Quot(ptr, frameBytes));
    }

    /** oss_pointer with the space counter. */
    method PointerBySpace(state: State, space: Option<Space>) returns (r: Result)
      requires Valid()
      modifies this`ptr, this`lastBytes
      ensures Valid()
      ensures r == if !state.Running? then Frames(0)
                   else if space.None? then Invalid
                   else if space.value.bytes == bufsz && space.value.bytes == old(lastBytes) then BrokenPipe
                   else Frames(Quot(ptr, frameBytes))
      ensures r.Frames? && state.Running? ==>
                ptr == Gained(old(ptr), old(lastBytes), space.value.bytes, ptrAlign) && lastBytes == space.value.bytes
      ensures old(ptr) >= 0 ==> ptr >= 0
      ensures !(r.Frames? && state.Running?) ==> ptr == old(ptr) && lastBytes == old(lastBytes)
    {
      if state != Running { return Frames(0); }
      if space.None? { return Invalid; }
      if space.value.bytes == bufsz && space.value.bytes == lastBytes { return BrokenPipe; }
      if space.value.bytes > lastBytes {
        ptr := Rem(ptr + (space.value.bytes - lastBytes), ptrAlign);
      }
      lastBytes := space.value.bytes;
      return Frames(Quot(ptr, frameBytes));
    }
  }
}

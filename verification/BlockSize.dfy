/** Sizing an OSS device: two ways of rounding up to a power of two, its logarithm, and the block count. */
module BlockSize {

  const BUFSZ_MAX := 131072
  const BLKCNT_MIN := 2
  const BLKSZ_MIN := 16
  const BLKCNT_MAX := BUFSZ_MAX / (BLKCNT_MIN * BLKSZ_MIN)
  const SHIFT_END := 24
  const RATE_MAX := 384000

  // ---------------------------------------------------------------- powers of two as machine words

  /** No bit is set below the highest one. Zero passes this test too. */
  predicate OneBit(x: bv32) {
    x & (x - 1) == 0
  }

  predicate PowerOfTwo(x: bv32) {
    x != 0 && OneBit(x)
  }

  /** r is the least power of two not below x. */
  ghost predicate RoundsUp(x: bv32, r: bv32) {
    PowerOfTwo(r) && x <= r && forall p: bv32 | PowerOfTwo(p) && x <= p :: r <= p
  }

  lemma RoundsUpOnce(x: bv32, a: bv32, b: bv32)
    requires RoundsUp(x, a) && RoundsUp(x, b)
    ensures a == b
  {
    assert a <= b && b <= a;
  }

  // ---------------------------------------------------------------- adding the lowest bit

  function AddLowestBit(x: bv32): bv32 {
    x + (x & !(x - 1))
  }

  /** Adding the lowest set bit of x never passes a power of two above x. */
  lemma StaysBelow(x: bv32, p: bv32)
    requires PowerOfTwo(p) && x <= p && !OneBit(x)
    ensures x < AddLowestBit(x) <= p
  {
  }

  /** The k lowest bits. */
  function Low(k: nat): bv32 {
    if k == 0 then 0 else (Low(k - 1) << 1) | 1
  }

  lemma {:induction false} LowIsMask(k: nat)
    ensures Low(k) & (Low(k) + 1) == 0
  {
    if k > 0 {
      LowIsMask(k - 1);
      MaskGrows(Low(k - 1));
    }
  }

  lemma MaskGrows(m: bv32)
    requires m & (m + 1) == 0
    ensures ((m << 1) | 1) & (((m << 1) | 1) + 1) == 0
  {
  }

  /** Each addition clears at least one more of the low bits. */
  lemma ClearsOneMore(x: bv32, m: bv32)
    requires m & (m + 1) == 0 && x & m == 0 && !OneBit(x)
    ensures AddLowestBit(x) & ((m << 1) | 1) == 0
  {
  }

  lemma AllLow(x: bv32)
    requires x & Low(32) == 0
    ensures OneBit(x)
  {
    LowValues();
  }

  lemma LowValues()
    ensures Low(32) == 0xffff_ffff
  {
    assert Low(8) == 0xff;
    assert Low(16) == 0xffff;
    assert Low(24) == 0xff_ffff;
  }

  method RoundUpByAdding(start: bv32) returns (tmp: bv32)
    requires start <= 0x8000_0000
    ensures start == 0 ==> tmp == 0
    ensures start != 0 ==> RoundsUp(start, tmp)
  {
    hide OneBit, PowerOfTwo, AddLowestBit, Low, RoundsUp;
    tmp := start;
    ghost var k := 0;
    Begin(start);
    while !OneBit(tmp)
      invariant k <= 32 && tmp & Low(k) == 0 && Reaches(start, tmp)
      decreases 32 - k
    {
      if k == 32 { AllLow(tmp); }
      Continue(start, tmp, k);
      tmp := AddLowestBit(tmp);
      k := k + 1;
    }
    Finish(start, tmp);
  }

  /** tmp has left no power of two behind. */
  ghost predicate Reaches(start: bv32, tmp: bv32) {
    start <= tmp && (start == 0 ==> tmp == 0) && forall p: bv32 | PowerOfTwo(p) && start <= p :: tmp <= p
  }

  lemma Begin(start: bv32)
    ensures Reaches(start, start) && start & Low(0) == 0
  {
  }

  lemma Continue(start: bv32, tmp: bv32, k: nat)
    requires start <= 0x8000_0000 && Reaches(start, tmp) && tmp & Low(k) == 0 && !OneBit(tmp)
    ensures Reaches(start, AddLowestBit(tmp)) && AddLowestBit(tmp) & Low(k + 1) == 0
  {
    hide OneBit, AddLowestBit, PowerOfTwo, Reaches, Low;
    LowIsMask(k);
    ClearsOneMore(tmp, Low(k));
    LowNext(k);
    ReachesMore(start, tmp);
  }

  lemma ReachesMore(start: bv32, tmp: bv32)
    requires start <= 0x8000_0000 && Reaches(start, tmp) && !OneBit(tmp)
    ensures Reaches(start, AddLowestBit(tmp))
  {
    hide OneBit, AddLowestBit, PowerOfTwo, Reaches, Passes;
    NextPasses(start, tmp);
    ReachesNext(start, tmp, AddLowestBit(tmp));
  }

  /** next is further on than tmp, with no power of two between them. */
  ghost predicate Passes(tmp: bv32, next: bv32) {
    tmp < next && forall p: bv32 | PowerOfTwo(p) && tmp <= p :: next <= p
  }

  lemma NextPasses(start: bv32, tmp: bv32)
    requires start <= 0x8000_0000 && Reaches(start, tmp) && !OneBit(tmp)
    ensures Passes(tmp, AddLowestBit(tmp))
  {
    hide OneBit, AddLowestBit, PowerOfTwo, Reaches;
    AllStaysBelow(tmp);
    Grows(start, tmp);
  }

  lemma Grows(start: bv32, tmp: bv32)
    requires start <= 0x8000_0000 && Reaches(start, tmp) && !OneBit(tmp)
    ensures tmp < AddLowestBit(tmp)
  {
    hide OneBit, AddLowestBit, PowerOfTwo, Reaches;
    TopBit();
    Below(start, tmp, 0x8000_0000);
    StaysBelow(tmp, 0x8000_0000);
  }

  lemma LowNext(k: nat)
    ensures Low(k + 1) == (Low(k) << 1) | 1
  {
  }

  lemma Below(start: bv32, tmp: bv32, p: bv32)
    requires Reaches(start, tmp) && PowerOfTwo(p) && start <= p
    ensures tmp <= p
  {
    hide PowerOfTwo;
  }

  lemma AllStaysBelow(tmp: bv32)
    requires !OneBit(tmp)
    ensures forall p: bv32 | PowerOfTwo(p) && tmp <= p :: AddLowestBit(tmp) <= p
  {
    hide OneBit, AddLowestBit, PowerOfTwo;
    forall p: bv32 | PowerOfTwo(p) && tmp <= p ensures AddLowestBit(tmp) <= p {
      StaysBelow(tmp, p);
    }
  }

  lemma ReachesNext(start: bv32, tmp: bv32, next: bv32)
    requires Reaches(start, tmp) && Passes(tmp, next) && !OneBit(tmp)
    ensures Reaches(start, next)
  {
    hide PowerOfTwo;
  }

  lemma TopBit()
    ensures PowerOfTwo(0x8000_0000)
  {
  }

  lemma Finish(start: bv32, tmp: bv32)
    requires Reaches(start, tmp) && OneBit(tmp)
    ensures start == 0 ==> tmp == 0
    ensures start != 0 ==> RoundsUp(start, tmp)
  {
    hide OneBit;
  }

  // ---------------------------------------------------------------- smearing the highest bit

  /** The audio buffer size is an unsigned 16-bit number; shifting it by 16 leaves nothing. */
  function Smear(n: bv16): bv16 {
    var a := n - 1;
    var b := a | (a >> 1);
    var c := b | (b >> 2);
    var d := c | (c >> 4);
    var e := d | (d >> 8);
    var f := e | (e >> 16);
    f + 1
  }

  method RoundUpBySmearing(n: bv16) returns (samples: bv16)
    ensures RoundsUp(n as bv32, samples as bv32) <==> 1 <= n <= 0x8000
    ensures !(1 <= n <= 0x8000) ==> samples == 0
  {
    hide RoundsUp;
    SmearRoundsUpIff(n);
    samples := n;
    samples := samples - 1;
    samples := samples | (samples >> 1);
    samples := samples | (samples >> 2);
    samples := samples | (samples >> 4);
    samples := samples | (samples >> 8);
    samples := samples | (samples >> 16);
    samples := samples + 1;
  }

  lemma SmearedBelow(n: bv16, p: bv32)
    requires 1 <= n <= 0x8000 && PowerOfTwo(p) && n as bv32 <= p
    ensures Smear(n) as bv32 <= p
  {
  }

  lemma SmearedPower(n: bv16)
    requires 1 <= n <= 0x8000
    ensures PowerOfTwo(Smear(n) as bv32) && n as bv32 <= Smear(n) as bv32
  {
  }

  /** The smear rounds up exactly for 1 to 2^15; any other 16-bit number wraps around to 0. */
  lemma SmearRoundsUpIff(n: bv16)
    ensures RoundsUp(n as bv32, Smear(n) as bv32) <==> 1 <= n <= 0x8000
    ensures !(1 <= n <= 0x8000) ==> Smear(n) == 0
  {
    if 1 <= n <= 0x8000 {
      hide Smear, PowerOfTwo;
      SmearedPower(n);
      forall p: bv32 | PowerOfTwo(p) && n as bv32 <= p ensures Smear(n) as bv32 <= p {
        SmearedBelow(n, p);
      }
    } else {
      SmearWraps(n);
    }
  }

  lemma SmearWraps(n: bv16)
    requires n == 0 || n > 0x8000
    ensures Smear(n) == 0
  {
  }

  /** Where the smear rounds up, the two programs compute the same number. */
  method BothRoundings(n: bv16) returns (added: bv32, smeared: bv16)
    requires 1 <= n <= 0x8000
    ensures added == smeared as bv32
  {
    hide RoundsUp, Smear;
    Widened(n);
    added := RoundUpByAdding(n as bv32);
    smeared := RoundUpBySmearing(n);
    RoundsUpOnce(n as bv32, added, smeared as bv32);
  }

  lemma Widened(n: bv16)
    requires 1 <= n <= 0x8000
    ensures 1 <= n as bv32 <= 0x8000_0000 && n as bv32 != 0
  {
  }

  // ---------------------------------------------------------------- words and numbers

  /** x written as 1 << k. */
  function Shifted(k: nat): bv32 {
    if k == 0 then 1 else Shifted(k - 1) << 1
  }

  function Power(k: nat): (r: nat)
    ensures r >= 1
  {
    if k == 0 then 1 else 2 * Power(k - 1)
  }

  function Number(x: bv32): nat { x as nat }

  predicate AtMost(x: bv32, y: bv32) { x <= y }

  lemma {:induction false} ShiftedIsPower(k: nat)
    requires k < 32
    ensures Number(Shifted(k)) == Power(k) && PowerOfTwo(Shifted(k))
    ensures k < 31 ==> Shifted(k) < 0x8000_0000
  {
    if k > 0 {
      ShiftedIsPower(k - 1);
      Doubles(Shifted(k - 1));
      DoublesPower(Shifted(k - 1));
      if k < 31 { PowerBound(k); NotTop(Shifted(k)); }
    }
  }

  lemma {:induction false} PowerBound(k: nat)
    requires k < 31
    ensures Power(k) < 0x8000_0000
  {
    assert Power(30) == 0x4000_0000 by {
      assert Power(10) == 0x400;
      assert Power(20) == 0x10_0000;
    }
    PowerGrows(k, 30);
  }

  lemma {:induction false} PowerGrows(i: nat, k: nat)
    requires i <= k
    ensures Power(i) <= Power(k)
    decreases k - i
  {
    if i < k { PowerGrows(i + 1, k); }
  }

  lemma Doubles(x: bv32)
    requires x < 0x8000_0000
    ensures (x << 1) as nat == 2 * (x as nat)
  {
  }

  lemma DoublesPower(x: bv32)
    requires x < 0x8000_0000 && PowerOfTwo(x)
    ensures PowerOfTwo(x << 1)
  {
  }

  lemma NotTop(x: bv32)
    requires PowerOfTwo(x) && x as nat < 0x8000_0000
    ensures x < 0x8000_0000
  {
    assert x < 0x8000_0000 || x == 0x8000_0000;
  }

  lemma DoublesOdd(x: bv32)
    requires x < 0x8000_0000
    ensures ((x << 1) | 1) as nat == 2 * (x as nat) + 1
  {
  }

  lemma LastBit(x: bv32)
    ensures x >> 1 < 0x8000_0000
    ensures x & 1 == 0 ==> x == (x >> 1) << 1
    ensures x & 1 != 0 ==> x == ((x >> 1) << 1) | 1
  {
  }

  lemma Halves(x: bv32)
    ensures x as nat == 2 * ((x >> 1) as nat) + (if x & 1 == 0 then 0 else 1)
  {
    LastBit(x);
    if x & 1 == 0 { Doubles(x >> 1); } else { DoublesOdd(x >> 1); }
  }

  function Half(x: bv32): bv32 { x >> 1 }

  predicate Even(x: bv32) { x & 1 == 0 }

  lemma NumberHalves(x: bv32)
    ensures Number(x) == 2 * Number(Half(x)) + (if Even(x) then 0 else 1)
  {
    Halves(x);
  }

  lemma HalvesOrder(x: bv32, y: bv32)
    requires AtMost(x, y)
    ensures AtMost(Half(x), Half(y)) && (Half(x) == Half(y) ==> Even(x) || !Even(y))
  {
  }

  lemma SameNumber(x: bv32, y: bv32)
    requires Number(x) == Number(y)
    ensures x == y
  {
    assert Number(x) as bv32 == x && Number(y) as bv32 == y;
  }

  lemma {:induction false} OrderGoesUp(x: bv32, y: bv32)
    requires AtMost(x, y)
    ensures Number(x) <= Number(y)
    ensures Half(x) != Half(y) ==> Number(Half(x)) < Number(Half(y))
    decreases Number(x) + Number(y)
  {
    hide *;
    NumberHalves(x);
    NumberHalves(y);
    HalvesOrder(x, y);
    if Number(x) + Number(y) > 0 {
      if Number(Half(x)) + Number(Half(y)) < Number(x) + Number(y) {
        OrderGoesUp(Half(x), Half(y));
      }
      if Number(Half(x)) == Number(Half(y)) { SameNumber(Half(x), Half(y)); }
    } else {
      SameNumber(Half(x), Half(y));
    }
  }

  /** Words are ordered like the numbers they stand for. */
  lemma OrderAgrees(x: bv32, y: bv32)
    ensures AtMost(x, y) <==> Number(x) <= Number(y)
  {
    hide Number;
    if x <= y {
      OrderGoesUp(x, y);
    } else {
      OrderGoesUp(y, x);
      if Number(x) == Number(y) { SameNumber(x, y); }
    }
  }

  // ---------------------------------------------------------------- the device parameters

  /** The machine word for a number, built bit by bit. */
  function Word(n: nat): bv32 {
    if n == 0 then 0
    else
      WithBit(Word(n / 2), n % 2 == 1)
  }

  function WithBit(high: bv32, bit: bool): bv32 {
    if bit then (high << 1) | 1 else high << 1
  }

  /** Bytes in 8 milliseconds of sound. */
  function StartBytes(rate: nat, frameBytes: nat): nat {
    8 * rate / 1000 * frameBytes
  }

  /** k is the rounded-up logarithm of n. */
  predicate LogOf(n: nat, k: nat) {
    n <= Power(k) && (k > 0 ==> Power(k - 1) < n)
  }

  /** What rounding up and taking the logarithm give, read as numbers. */
  lemma ShiftIsLog(start: bv32, k: nat)
    requires k < 32 && RoundsUp(start, Shifted(k))
    ensures LogOf(Number(start), k)
  {
    hide *;
    ShiftedIsPower(k);
    Rounded(start, Shifted(k));
    OrderAgrees(start, Shifted(k));
    if k > 0 {
      ShiftedIsPower(k - 1);
      PowerStep(k - 1);
      OrderAgrees(Shifted(k), Shifted(k - 1));
      NotSmaller(start, Shifted(k), Shifted(k - 1));
      OrderAgrees(start, Shifted(k - 1));
    }
    LogOfIs(Number(start), k);
  }

  lemma LogOfIs(n: nat, k: nat)
    requires n <= Power(k) && (k > 0 ==> Power(k - 1) < n)
    ensures LogOf(n, k)
  {
  }

  lemma PowerStep(k: nat)
    ensures Power(k + 1) == 2 * Power(k)
  {
  }

  lemma Rounded(x: bv32, r: bv32)
    requires RoundsUp(x, r)
    ensures AtMost(x, r) && PowerOfTwo(r)
  {
    hide PowerOfTwo;
  }

  lemma NotSmaller(x: bv32, r: bv32, p: bv32)
    requires RoundsUp(x, r) && PowerOfTwo(p)
    ensures AtMost(x, p) ==> AtMost(r, p)
  {
    hide PowerOfTwo;
  }

  /** Every power of two is 1 << k for some k. */
  lemma {:induction false} PowerIsShifted(x: bv32, n: nat)
    requires PowerOfTwo(x) && n < 32 && AtMost(x, Shifted(n))
    ensures exists k | 0 <= k <= n :: x == Shifted(k)
    decreases n
  {
    hide *;
    if x == Shifted(n) {
    } else if n == 0 {
      OnlyOne(x);
    } else {
      ShiftedIsPower(n - 1);
      NextPower(x, n - 1);
      PowerIsShifted(x, n - 1);
    }
  }

  lemma ShiftedNext(k: nat)
    ensures Shifted(k + 1) == Shifted(k) << 1
  {
  }

  lemma OnlyOne(x: bv32)
    requires PowerOfTwo(x) && AtMost(x, Shifted(0))
    ensures x == Shifted(0)
  {
  }

  lemma NextPower(x: bv32, k: nat)
    requires k < 31 && PowerOfTwo(x) && AtMost(x, Shifted(k + 1)) && x != Shifted(k + 1)
    ensures AtMost(x, Shifted(k))
  {
    hide OneBit, PowerOfTwo, Shifted, AtMost;
    ShiftedIsPower(k);
    ShiftedNext(k);
    NoPowerBetween(x, Shifted(k));
  }

  lemma NoPowerBetween(x: bv32, y: bv32)
    requires PowerOfTwo(x) && PowerOfTwo(y) && y < 0x8000_0000 && AtMost(x, y << 1) && x != y << 1
    ensures AtMost(x, y)
  {
  }

  /** The loop that looks for the logarithm; it gives up at SHIFT_END. */
  method Logarithm(tmp: bv32) returns (shift: nat)
    ensures shift <= SHIFT_END && (shift < SHIFT_END ==> tmp == Shifted(shift))
    ensures forall k | 0 <= k < shift :: tmp != Shifted(k)
  {
    hide Shifted;
    shift := 0;
    while shift < SHIFT_END
      invariant shift <= SHIFT_END && forall k | 0 <= k < shift :: tmp != Shifted(k)
    {
      if tmp == Shifted(shift) { break; }
      shift := shift + 1;
    }
  }

  /** The least power of two from 2 up, capped at the maximum, whose blocks hold the software buffer. */
  ghost predicate CountFor(bytes: nat, shift: nat, count: nat) {
    exists k: nat ::
      && count == Power(k) && BLKCNT_MIN <= count <= BLKCNT_MAX
      && (bytes <= count * Power(shift) || count == BLKCNT_MAX)
      && (count > BLKCNT_MIN ==> Power(k - 1) * Power(shift) < bytes)
  }

  /** The loop over the block count. None of the products it forms leaves the range of a signed 32-bit number. */
  method BlockCount(bytes: nat, shift: nat) returns (count: nat)
    requires bytes <= 0x4000_0000 && shift <= SHIFT_END
    ensures CountFor(bytes, shift, count)
  {
    hide Power, CountFor;
    CountBounds(shift);
    count := BLKCNT_MIN;
    ghost var k := 1;
    while count != BLKCNT_MAX
      invariant 1 <= k <= 12 && count == Power(k) && BLKCNT_MIN <= count <= BLKCNT_MAX
      invariant k > 1 ==> Power(k - 1) * Power(shift) < bytes
      decreases 12 - k
    {
      Products(bytes, shift, k);
      assert count * Power(shift) < 0x8000_0000;
      if count * Power(shift) >= bytes { break; }
      CountStep(k);
      count := count * 2;
      k := k + 1;
    }
    CountIs(bytes, shift, count, k);
  }

  lemma CountBounds(shift: nat)
    requires shift <= SHIFT_END
    ensures Power(1) == BLKCNT_MIN && Power(12) == BLKCNT_MAX && Power(shift) <= 0x100_0000
  {
    assert Power(8) == 256;
    assert Power(16) == 65536;
    assert Power(24) == 0x100_0000;
    PowerGrows(shift, 24);
  }

  lemma Products(bytes: nat, shift: nat, k: nat)
    requires bytes <= 0x4000_0000 && shift <= SHIFT_END && k >= 1
    requires k > 1 ==> Power(k - 1) * Power(shift) < bytes
    ensures Power(k) * Power(shift) < 0x8000_0000
  {
    hide Power;
    CountBounds(shift);
    PowerStep(k - 1);
    Twice(Power(k - 1), Power(shift));
  }

  lemma Twice(x: nat, y: nat)
    ensures 2 * x * y == 2 * (x * y)
  {
  }

  lemma CountStep(k: nat)
    requires 1 <= k <= 12 && Power(k) != BLKCNT_MAX
    ensures k < 12 && Power(k + 1) == 2 * Power(k) && BLKCNT_MIN <= Power(k + 1) <= BLKCNT_MAX
  {
    CountBounds(0);
    if k < 12 { PowerGrows(k + 1, 12); }
    PowerGrows(1, k + 1);
  }

  lemma CountIs(bytes: nat, shift: nat, count: nat, k: nat)
    requires k >= 1 && count == Power(k) && BLKCNT_MIN <= count <= BLKCNT_MAX
    requires bytes <= count * Power(shift) || count == BLKCNT_MAX
    requires k > 1 ==> Power(k - 1) * Power(shift) < bytes
    ensures CountFor(bytes, shift, count)
  {
    assert k == 1 ==> count == BLKCNT_MIN;
  }

  /** oss_hw_params up to the request for fragments. For every rate that fills at least one byte the block size
      is the 8 ms of sound rounded up to a power of two; below 125 Hz nothing is found and the shift is 24. */
  method HwParams(rate: nat, frameBytes: nat, bytes: nat) returns (shift: nat, count: nat)
    requires 1 <= rate <= RATE_MAX && 1 <= frameBytes <= 32 && bytes <= 0x4000_0000
    ensures if rate < 125 then shift == SHIFT_END else shift <= 17 && LogOf(StartBytes(rate, frameBytes), shift)
    ensures CountFor(bytes, shift, count)
  {
    hide *;
    StartBounds(rate, frameBytes);
    var n := 8 * rate / 1000 * frameBytes;
    SmallWord(n);
    var tmp := RoundUpByAdding(Word(n));
    shift := Logarithm(tmp);
    if rate < 125 {
      assert tmp == 0;
      ZeroHasNone(shift);
    } else {
      SmallShift(n, Word(n), tmp, shift);
    }
    count := BlockCount(bytes, shift);
  }

  lemma StartBounds(rate: nat, frameBytes: nat)
    requires 1 <= rate <= RATE_MAX && 1 <= frameBytes <= 32
    ensures 8 * rate / 1000 * frameBytes == StartBytes(rate, frameBytes) <= 98304
    ensures StartBytes(rate, frameBytes) == 0 <==> rate < 125
  {
    var ms := 8 * rate / 1000;
    assert ms <= 3072 && (ms == 0 <==> rate < 125);
    assert ms * frameBytes <= 3072 * 32;
  }

  lemma TopNumber()
    ensures Number(0x8000_0000) == 0x8000_0000 && Number(0) == 0
  {
  }

  lemma {:induction false} WordIs(n: nat)
    requires n < 0x1_0000_0000
    ensures Number(Word(n)) == n
  {
    hide Number, AtMost, WithBit;
    TopNumber();
    if n > 0 {
      WordIs(n / 2);
      OrderAgrees(0x8000_0000, Word(n / 2));
      AppendBit(Word(n / 2), n % 2 == 1);
    }
  }

  lemma AppendBit(w: bv32, bit: bool)
    requires !AtMost(0x8000_0000, w)
    ensures Number(WithBit(w, bit)) == 2 * Number(w) + (if bit then 1 else 0)
  {
    Doubles(w);
    DoublesOdd(w);
  }

  lemma SmallWord(n: nat)
    requires n <= 98304
    ensures Number(Word(n)) == n && Word(n) <= 0x8000_0000 && (Word(n) == 0 <==> n == 0)
  {
    hide Number, Word;
    WordIs(n);
    TopNumber();
    OrderAgrees(Word(n), 0x8000_0000);
    if n == 0 { SameNumber(Word(n), 0); }
  }

  lemma ZeroHasNone(shift: nat)
    requires shift <= SHIFT_END && (shift < SHIFT_END ==> 0 == Shifted(shift))
    ensures shift == SHIFT_END
  {
    if shift < SHIFT_END { ShiftedIsPower(shift); }
  }

  lemma SmallShift(n: nat, start: bv32, tmp: bv32, shift: nat)
    requires 0 < n <= 98304 && Number(start) == n && RoundsUp(start, tmp)
    requires shift <= SHIFT_END && (shift < SHIFT_END ==> tmp == Shifted(shift))
    requires forall k | 0 <= k < shift :: tmp != Shifted(k)
    ensures shift <= 17 && LogOf(n, shift)
  {
    hide OneBit, PowerOfTwo, Shifted, Power, RoundsUp, Number, AtMost, LogOf;
    ShiftedIsPower(17);
    SeventeenBits();
    OrderAgrees(start, Shifted(17));
    NotSmaller(start, tmp, Shifted(17));
    Rounded(start, tmp);
    PowerIsShifted(tmp, 17);
    ShiftIsLog(start, shift);
  }

  lemma SeventeenBits()
    ensures Power(17) == 131072
  {
    assert Power(8) == 256;
  }
}

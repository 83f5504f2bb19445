/** Two runs of an FT8 receiver in which a promise fails: a position after a retune,
    and a job close to the end of the 64-bit sample counter. */
module Ft8Runs {
  import opened Arith
  import opened Complex
  import opened Channelizer
  import opened ClockRate
  import opened SamplePosition
  import opened Ft8Window
  import opened Ft8Receiver
  import R = Rational

  /** 12 kHz and 48 kHz as binary64 numbers. */
  const TWELVE_KHZ: F64 := F64(false, 1036, 119 * 0x1000_0000_0000)
  const FORTY_EIGHT_KHZ: F64 := F64(false, 1038, 119 * 0x1000_0000_0000)

  lemma TwelveKhz()
    ensures TWELVE_KHZ.Valid() && TWELVE_KHZ.Mantissa() > 0 && InClockRange(TWELVE_KHZ)
    ensures TWELVE_KHZ.Num() == FT8_RATE * TWELVE_KHZ.Den()
  {
    SmallPowers();
    hide Pow2;
    assert TWELVE_KHZ.Shift() == -39;
  }

  lemma FortyEightKhz()
    ensures FORTY_EIGHT_KHZ.Valid() && FORTY_EIGHT_KHZ.Mantissa() > 0 && InClockRange(FORTY_EIGHT_KHZ)
    ensures FORTY_EIGHT_KHZ.Num() == 48000 * FORTY_EIGHT_KHZ.Den()
  {
    SmallPowers();
    hide Pow2;
    assert FORTY_EIGHT_KHZ.Shift() == -37;
  }

  lemma SmallPowers()
    ensures Pow2(37) == 0x20_0000_0000 && Pow2(39) == 0x80_0000_0000
  {
    Pow2Values();
    Pow2Add(32, 5);
    Pow2Add(32, 7);
    assert Pow2(5) == 32 && Pow2(7) == 128;
  }

  /** A whole-number rate has denominator one, so sample 0 has a coordinate. */
  lemma WholeRate(rate: F64, n: nat, origin: nat)
    requires InClockRange(rate) && rate.Num() == n * rate.Den() && n > 0 && origin < CLOCK
    ensures Lowest(rate.Num(), rate.Den()) == Ratio(n, 1) && Positionable(origin, rate, 0, FT8_RATE)
  {
    assert Gcd(n, 1) == Gcd(1, n % 1) == Gcd(1, 0);
    LowestIs(rate.Num(), rate.Den(), n, 1);
    assert 0 / FT8_RATE == 0;
  }

  function Silence(n: nat): (s: seq<C>)
    ensures |s| == n
  {
    seq(n, _ => Zero)
  }

  /** A 12 kHz receiver with an n sample window from which no job has been cut. */
  ghost predicate Waiting(receiver: Receiver, n: nat)
    reads receiver, receiver.window, receiver.Parts()
  {
    && receiver.Valid() && receiver.adapter.None? && !receiver.gap && receiver.delivered == []
    && receiver.inputOrigin == Some(InputClock(0, TWELVE_KHZ))
    && receiver.window.origin in {None, receiver.inputOrigin}
    && receiver.window.start == 0 && !receiver.window.early && |receiver.window.stream| == n
  }

  /** k further samples. */
  method More(receiver: Receiver, ghost n: nat, k: nat) returns (a: Answer)
    requires Waiting(receiver, n) && 0 < k <= 60000 && n <= HOP && InClockRange(TWELVE_KHZ) && TWELVE_KHZ.Valid()
    modifies receiver`inputOrigin, receiver`fed, receiver`delivered, receiver`stuck, receiver`gap, receiver`lost,
             receiver.window
    ensures receiver.Valid() && receiver.inputOrigin == Some(InputClock(0, TWELVE_KHZ))
    ensures n + k < HOP ==> Waiting(receiver, n + k)
    ensures receiver.window.origin == receiver.inputOrigin
    ensures n + k >= HOP ==> receiver.Tells(a, 0, HOP, false) && |receiver.window.stream| == n + k
    ensures receiver.delivered == if a.Delivered? then [a.job] else []
  {
    hide R.Resample, Adapts, Positionable, Ft8Window.Valid, InClockRange, IsPositionAt, CoveredBetween, SliceOf;
    a := receiver.Process(true, Silence(k), InputClock(0, TWELVE_KHZ), false, false);
  }

  /** A new receiver after one sample and a retune. */
  method Retuned() returns (receiver: Receiver)
    ensures fresh(receiver) && fresh(receiver.window) && Waiting(receiver, 0) && receiver.since == 1
    ensures InClockRange(TWELVE_KHZ) && TWELVE_KHZ.Valid() && Positionable(0, TWELVE_KHZ, 0, FT8_RATE)
  {
    TwelveKhz();
    WholeRate(TWELVE_KHZ, FT8_RATE, 0);
    hide R.Resample, Adapts, Positionable, Ft8Window.Valid, InClockRange, CoveredBetween, SliceOf;
    receiver := new Receiver(TWELVE_KHZ, None);
    var a := receiver.Process(true, Silence(1), InputClock(0, TWELVE_KHZ), false, false);
    receiver.Retune();
  }

  /** A job that is placed wrongly: one sample is converted, the receiver is retuned, and
      the first job of the new window is given the position of that earlier sample. */
  method RetunedRun() returns (receiver: Receiver, p: Position)
    ensures fresh(receiver) && receiver.Valid() && receiver.since == 1 && receiver.inputOrigin.Some?
    ensures receiver.adapter.None? && |receiver.delivered| == 1
    ensures receiver.delivered[0].start == 0 && receiver.delivered[0].position == p
    ensures receiver.AtSample(0, p) && !receiver.AtSample(receiver.since, p)
  {
    hide R.Resample, Adapts, Positionable, Ft8Window.Valid, InClockRange, IsPositionAt, CoveredBetween, SliceOf;
    receiver := Retuned();
    var a := More(receiver, 0, 60000);
    a := More(receiver, 60000, 60000);
    a := More(receiver, 120000, 60000);
    p := a.job.position;
    receiver.PlacedTruly(a.job, p);
  }

  /** The adapter from 48 kHz. */
  const QUARTER: R.Rate := R.Rate(1, 4, 96)

  lemma QuarterAdapts()
    ensures FORTY_EIGHT_KHZ.Valid() && FORTY_EIGHT_KHZ.Mantissa() > 0 && InClockRange(FORTY_EIGHT_KHZ)
    ensures Adapts(FORTY_EIGHT_KHZ, QUARTER) && Positionable(CLOCK - 1, FORTY_EIGHT_KHZ, 0, FT8_RATE)
  {
    FortyEightKhz();
    WholeRate(FORTY_EIGHT_KHZ, 48000, CLOCK - 1);
    var q := FORTY_EIGHT_KHZ.Den();
    hide *;
    assert Gcd(1, 4) == 1 by { GcdOfOne(4); }
    LowestIs(FT8_RATE * q, 48000 * q, 1, 4);
  }

  /** The input that the first output waits for is past the end of the counter. */
  lemma PastTheEnd(k: nat)
    requires InClockRange(FORTY_EIGHT_KHZ)
    ensures R.Causal(QUARTER, k) >= 48
    ensures !InputPositionable(CLOCK - 1, FORTY_EIGHT_KHZ, R.Causal(QUARTER, k), FORTY_EIGHT_KHZ)
  {
    CeilDivLe(R.Ticks(QUARTER, k), 2, 47);
    PastEnd(CLOCK - 1, FORTY_EIGHT_KHZ, R.Causal(QUARTER, k), FORTY_EIGHT_KHZ);
  }

  /** A 48 kHz receiver whose capture counter is about to end, after n samples. */
  ghost predicate Ending(receiver: Receiver, n: nat)
    reads receiver, receiver.window, receiver.Parts()
  {
    && receiver.Valid() && receiver.adapter.Some? && receiver.adapter.value.r == QUARTER
    && receiver.inputRate == FORTY_EIGHT_KHZ && !receiver.gap && !receiver.lost && receiver.delivered == []
    && receiver.since == 0 && |receiver.fed| == n
    && receiver.inputOrigin == (if n == 0 then None else Some(InputClock(CLOCK - 1, FORTY_EIGHT_KHZ)))
    && receiver.window.origin == receiver.inputOrigin && receiver.window.start == 0 && !receiver.window.early
  }

  /** One block of the largest size: nothing, until the first job is cut and lost. */
  method LateBlock(receiver: Receiver, ghost n: nat, spoiled: bool) returns (a: Answer)
    requires Ending(receiver, n) && n <= 655360 && InClockRange(FORTY_EIGHT_KHZ) && FORTY_EIGHT_KHZ.Valid()
    requires Positionable(CLOCK - 1, FORTY_EIGHT_KHZ, 0, FT8_RATE)
    modifies receiver`inputOrigin, receiver`fed, receiver`delivered, receiver`stuck, receiver`gap, receiver`lost,
             receiver.window, receiver.Parts()
    ensures R.Emitted(QUARTER, n + MAX_BLOCK) < HOP ==> Ending(receiver, n + MAX_BLOCK)
    ensures R.Emitted(QUARTER, n + MAX_BLOCK) >= HOP ==>
              a.Lost? && receiver.Valid() && receiver.lost && receiver.delivered == [] && receiver.window.early
  {
    PastTheEnd(0);
    hide R.OutputAt, Adapts, Positionable, InputPositionable, Ft8Window.Valid, InClockRange, CoveredBetween, SliceOf;
    a := receiver.Process(true, Silence(MAX_BLOCK), InputClock(CLOCK - 1, FORTY_EIGHT_KHZ), false, spoiled);
  }

  method Late() returns (receiver: Receiver)
    ensures fresh(receiver) && fresh(receiver.window) && fresh(receiver.Parts()) && Ending(receiver, 0)
    ensures FORTY_EIGHT_KHZ.Valid() && InClockRange(FORTY_EIGHT_KHZ)
    ensures Positionable(CLOCK - 1, FORTY_EIGHT_KHZ, 0, FT8_RATE)
  {
    QuarterAdapts();
    hide Adapts, Positionable, Ft8Window.Valid, InClockRange, CoveredBetween;
    var table := seq((R.PHASES + 1) * QUARTER.taps, _ => 0.0);
    var adapter := new R.Rational(QUARTER, table, false);
    receiver := new Receiver(FORTY_EIGHT_KHZ, Some(adapter));
  }

  /** A job that is lost: the cutter has a position for it and moves on, but the input
      that made it available lies past the end of the 64-bit capture counter, whether or
      not later steps of the calls fail as well. */
  method LosesFirstJob(spoiled: bool) returns (receiver: Receiver, a: Answer)
    ensures fresh(receiver) && receiver.Valid() && a.Lost? && receiver.delivered == [] && receiver.window.early
    ensures Positionable(CLOCK - 1, FORTY_EIGHT_KHZ, 0, FT8_RATE)
  {
    hide Ending, Adapts, Positionable, Ft8Window.Valid, InClockRange, Receiver.Valid;
    receiver := Late();
    for i := 0 to 10
      invariant fresh(receiver.window) && Ending(receiver, i * MAX_BLOCK)
    {
      a := LateBlock(receiver, i * MAX_BLOCK, spoiled);
    }
    a := LateBlock(receiver, 10 * MAX_BLOCK, spoiled);
  }
}

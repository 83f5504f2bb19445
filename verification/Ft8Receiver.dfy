/** The FT8 path of a receiver: block admission, the rational adapter to 12 kHz and
    the window cutter behind it. */
module Ft8Receiver {
  import opened Arith
  import opened Complex
  import opened Channelizer
  import opened ClockRate
  import opened SamplePosition
  import opened W = Ft8Window
  import R = Rational

  /** Largest block of complex samples that a receiver takes. */
  const MAX_BLOCK: nat := 65536
  /** Pass band that the adapter has to keep; half of both rates lies above it. */
  const PASSBAND: nat := 3200

  /** The adapter has the exact ratio of the rates, and its pass band fits below half
      of the input rate. */
  ghost predicate Adapts(inputRate: F64, r: R.Rate) {
    && inputRate.Valid() && inputRate.Mantissa() > 0 && r.Valid()
    && Lowest(FT8_RATE * inputRate.Den(), inputRate.Num()) == Ratio(r.up, r.down)
    && 2 * PASSBAND * inputRate.Den() < inputRate.Num()
  }

  /** Such an adapter gives less than 15 outputs for 8 inputs. */
  lemma RatioBound(inputRate: F64, r: R.Rate)
    requires Adapts(inputRate, r)
    ensures 8 * r.up < 15 * r.down
  {
    var p, q := FT8_RATE * inputRate.Den(), inputRate.Num();
    GcdReduce(p, q);
    DividesElim(Gcd(p, q), p);
    DividesElim(Gcd(p, q), q);
    LessByFactor(8 * r.up, 15 * r.down, Gcd(p, q), 8 * p, 15 * q) by {
      Scaled(8, r.up, Gcd(p, q));
      Scaled(15, r.down, Gcd(p, q));
    }
  }

  lemma Scaled(k: int, a: int, g: int)
    ensures (k * a) * g == k * (a * g)
  {
  }

  lemma LessByFactor(a: int, b: int, g: nat, ag: int, bg: int)
    requires a * g == ag < bg == b * g
    ensures a < b
  {
    if a >= b { MulMono(b, a, g); }
  }

  /** No admitted block can fill the space between a hop and a window. */
  lemma AdmittedBlock(r: R.Rate, n: nat, k: nat)
    requires r.Valid() && 8 * r.up < 15 * r.down && k <= MAX_BLOCK
    ensures R.Emitted(r, n) <= R.Emitted(r, n + k) <= R.Emitted(r, n) + (WINDOW - HOP)
  {
    hide R.Emitted;
    R.BlockOutputs(r, n, k);
    MulMono(k, MAX_BLOCK, r.up);
    DivGe(k * r.up, r.down, 122880);
  }

  /** What a call gives back. Stuck: the cutter has no position for its next job and
      keeps the samples. Lost: the cutter has moved on, but the call ends with an error.
      Spoiled: an error without a job. Overflowed: the converted block is not finite. */
  datatype Answer = Refused | Quiet | Overflowed | Spoiled | Stuck | Lost | Delivered(job: Job)

  class Receiver {
    const inputRate: F64
    const adapter: Option<R.Rational>
    var window: W.Ft8Window
    var inputOrigin: Option<InputClock>
    /** Everything taken in, and the 12 kHz samples before the current window began. */
    ghost var fed: seq<C>
    ghost var since: nat
    /** The jobs handed out since the current window began. */
    ghost var delivered: seq<Job>
    /** Since the current window began: the cutter was stuck; a block overflowed. */
    ghost var stuck: bool
    ghost var gap: bool
    /** A job was lost since the current pass began. */
    ghost var lost: bool

    ghost function Parts(): set<object> {
      if adapter.Some? then {adapter.value, adapter.value.hist} else {}
    }

    /** The 12 kHz stream of an input stream. */
    ghost function Converted(x: seq<C>): seq<C>
      requires adapter.Some? ==> adapter.value.r.Valid()
    {
      if adapter.Some? then R.Resample(adapter.value.r, adapter.value.table, x) else x
    }

    ghost predicate Adapted()
      reads this`fed, Parts()
    {
      adapter.Some? ==>
        && adapter.value.After(fed) && Adapts(inputRate, adapter.value.r)
        && 8 * adapter.value.r.up < 15 * adapter.value.r.down
    }

    /** The capture clock is known once the cutter has a block. */
    predicate Clocked()
      reads this`inputOrigin, this`window, window
    {
      && (window.origin.Some? ==> inputOrigin.Some?)
      && (inputOrigin.Some? ==>
            && inputOrigin.value.firstSampleIndex < CLOCK && inputOrigin.value.inputRate.Valid()
            && InClockRange(inputOrigin.value.inputRate))
    }

    /** Unless a job was lost, the jobs handed out cover what the cutter has passed. */
    ghost predicate Kept()
      reads this`lost, this`delivered, this`window, window
    {
      !lost ==> CoveredBetween(delivered, window.pass, window.start)
    }

    /** The cutter sees the converted stream since it began, unless a block overflowed,
        and unless it was stuck its buffer stays below the next job, hence a window. */
    ghost predicate Valid()
      reads this, window, Parts()
    {
      && inputRate.Valid() && inputRate.Mantissa() > 0 && Adapted() && window.Valid()
      && this !in Parts() && window !in Parts() && Clocked() && Kept()
      && since <= |Converted(fed)| && (!gap ==> window.stream == Converted(fed)[since..])
      && (!stuck ==> window.bounded)
    }

    constructor (inputRate: F64, adapter: Option<R.Rational>)
      requires inputRate.Valid() && inputRate.Mantissa() > 0
      requires adapter.Some? ==> adapter.value.After([]) && Adapts(inputRate, adapter.value.r)
      requires adapter.None? ==> inputRate.Num() == FT8_RATE * inputRate.Den()
      ensures Valid() && fed == [] && delivered == [] && !stuck && !gap && !lost && inputOrigin.None?
      ensures this.inputRate == inputRate && this.adapter == adapter && fresh(window)
      ensures window.stream == [] && window.origin.None? && window.start == 0 && !window.early
    {
      this.inputRate, this.adapter := inputRate, adapter;
      window := new W.Ft8Window();
      inputOrigin, fed, since, delivered, stuck, gap, lost := None, [], 0, [], false, false, false;
      new;
      if adapter.Some? {
        RatioBound(inputRate, adapter.value.r);
        R.NoOutputsYet(adapter.value.r);
      }
    }

    /** retune: a new window; adapter and clock go on. */
    method Retune()
      requires Valid()
      modifies this`window, this`since, this`delivered, this`stuck, this`gap, this`lost
      ensures Valid() && fresh(window) && since == |Converted(fed)| && delivered == [] && !stuck && !gap && !lost
      ensures window.stream == [] && window.origin.None? && window.start == 0 && !window.early
    {
      hide R.Resample, Adapts, Adapted, Converted, W.Ft8Window.Valid, InClockRange, CoveredBetween;
      AdapterIsValid();
      CoveredNothing([], 0);
      window := new W.Ft8Window();
      since, delivered, stuck, gap, lost := |Converted(fed)|, [], false, false, false;
    }

    lemma AdapterIsValid()
      requires Adapted()
      ensures adapter.Some? ==> adapter.value.r.Valid()
    {
    }

    /** The block at 12 kHz. */
    method Convert(iq: seq<C>) returns (converted: seq<C>)
      requires Adapted() && this !in Parts() && |iq| <= MAX_BLOCK
      modifies this`fed, Parts()
      ensures adapter.Some? ==> adapter.value.r.Valid()
      ensures Adapted() && fed == old(fed) + iq && Converted(fed) == Converted(old(fed)) + converted
      ensures |converted| <= WINDOW - HOP
    {
      if adapter.None? {
        fed := fed + iq;
        return iq;
      }
      AdmittedBlock(adapter.value.r, |fed|, |iq|);
      var frames := adapter.value.OutputFramesForInput(|iq|, fed);
      var out := new C[frames](_ => Zero);
      var count := adapter.value.Process(iq, out, fed);
      fed := fed + iq;
      converted := out[..count];
    }

    /** The blocks that are not refused. `complete` says that the samples are complete
        pairs of finite numbers and the clock's delay is finite and not negative. */
    ghost predicate Admits(complete: bool, iq: seq<C>, clock: InputClock)
      reads this`inputOrigin
    {
      && complete && |iq| <= MAX_BLOCK && InClockRange(clock.inputRate)
      && (inputOrigin.Some? ==> inputOrigin.value.inputRate == clock.inputRate)
    }

    /** The checks before a block is taken in. */
    method Refuse(complete: bool, iq: seq<C>, clock: InputClock) returns (refused: bool)
      requires clock.inputRate.Valid()
      ensures refused <==> !Admits(complete, iq, clock)
    {
      hide InClockRange;
      if !complete || |iq| > 65536 { return true; }
      var ratio := ClockRatio(clock.inputRate);
      if ratio.None? { return true; }
      refused := inputOrigin.Some? && inputOrigin.value.inputRate != clock.inputRate;
    }

    /** 12 kHz sample k, counted since the receiver opened, has a coordinate that fits:
        its adapter input exists, and no product, index or denominator is too wide. */
    predicate Placeable(k: nat)
      reads this`inputOrigin
      requires inputOrigin.Some? && (adapter.Some? ==> adapter.value.r.Valid())
    {
      var clock := inputOrigin.value;
      if adapter.Some? then
        R.CausalPositive(adapter.value.r, k);
        var index := R.Causal(adapter.value.r, k);
        index < CLOCK && InputPositionable(clock.firstSampleIndex, clock.inputRate, index, inputRate)
      else Positionable(clock.firstSampleIndex, clock.inputRate, k, FT8_RATE)
    }

    /** p is the coordinate of 12 kHz sample k, counted since the receiver opened. */
    ghost predicate AtSample(k: nat, p: Position)
      reads this`inputOrigin
      requires inputOrigin.Some? && (adapter.Some? ==> adapter.value.r.Valid())
    {
      var clock := inputOrigin.value;
      if adapter.Some? then
        R.CausalPositive(adapter.value.r, k);
        IsInputPosition(clock.firstSampleIndex, clock.inputRate, R.Causal(adapter.value.r, k), inputRate, p)
      else IsPositionAt(clock.firstSampleIndex, k, clock.inputRate, FT8_RATE, p)
    }

    /** The source position that a job is given: that of the sample whose number is the
        job's start in its window. It exists exactly when that sample is placeable. */
    method Place(job: Job) returns (p: Option<Position>)
      requires inputOrigin.Some? && inputOrigin.value.firstSampleIndex < CLOCK && inputOrigin.value.inputRate.Valid()
      requires inputRate.Valid() && (adapter.Some? ==> adapter.value.r.Valid()) && job.start < CLOCK
      ensures p.Some? <==> Placeable(job.start)
      ensures p.Some? ==> AtSample(job.start, p.value)
    {
      hide IsInputPosition, IsPositionAt, ProductsFit, Positionable, InputPositionable, R.Causal;
      var clock := inputOrigin.value;
      p := DecoderPosition(clock.firstSampleIndex, clock.inputRate, job.start, FT8_RATE, inputRate,
                           if adapter.Some? then Some(adapter.value.r) else None);
    }

    /** The answer once the cutter has a block, when `count` samples from `start` on make
        the next job and `spoiled` says that a later step of the call fails: the job that
        is handed out is that slice of the stream, at the coordinate of sample `start`. */
    ghost predicate Tells(a: Answer, start: nat, count: nat, spoiled: bool)
      reads this`inputOrigin, this`window, window
    {
      && window.origin.Some? && inputOrigin.Some? && (adapter.Some? ==> adapter.value.r.Valid())
      && var clock := window.origin.value;
      if |window.stream| < start + count then a == if spoiled then Spoiled else Quiet
      else if !Positionable(clock.firstSampleIndex, clock.inputRate, start, FT8_RATE) then a == Stuck
      else if spoiled || !Placeable(start) then a == Lost
      else
        && a.Delivered? && a.job.start == start && |a.job.iq| == count && SliceOf(window.stream, a.job)
        && AtSample(start, a.job.position) && a.job.clock.firstSampleIndex == a.job.position.index
    }

    /** The FT8 part of process. A refused block changes nothing; every other one is
        converted and, unless the conversion overflows, cut. A job is handed out, with
        the coordinate of its start, or lost exactly when that coordinate does not fit or
        a later step fails. While the cutter was never stuck, fewer samples are buffered
        than the next job needs. */
    method Process(complete: bool, iq: seq<C>, clock: InputClock, overflows: bool, spoiled: bool) returns (a: Answer)
      requires Valid() && clock.firstSampleIndex < CLOCK && clock.inputRate.Valid()
      requires |window.stream| + (WINDOW - HOP) < CLOCK
      modifies this`inputOrigin, this`fed, this`delivered, this`stuck, this`gap, this`lost, window, Parts()
      ensures Valid() && (a.Refused? <==> !old(Admits(complete, iq, clock)))
      ensures fed == if a.Refused? then old(fed) else old(fed) + iq
      ensures !a.Refused? && iq == [] ==> a.Quiet?
      ensures a.Overflowed? <==> old(Admits(complete, iq, clock)) && iq != [] && adapter.Some? && overflows
      ensures inputOrigin == if a.Refused? || iq == [] || old(inputOrigin).Some? then old(inputOrigin) else Some(clock)
      ensures if a.Refused? || iq == [] || a.Overflowed? then unchanged(window)
              else Tells(a, old(window.start), old(window.Due()), spoiled)
                   && window.origin == if old(window.origin).Some? then old(window.origin) else Some(clock)
      ensures a.Delivered? || a.Lost? ==>
                window.early && window.start == old(window.start) + if old(window.early) then HOP else 0
      ensures !(a.Delivered? || a.Lost?) ==> window.early == old(window.early) && window.start == old(window.start)
      ensures delivered == old(delivered) + if a.Delivered? then [a.job] else []
      ensures stuck == (old(stuck) || a.Stuck?) && gap == (old(gap) || a.Overflowed?) && lost == (old(lost) || a.Lost?)
      ensures !stuck ==> |window.samples| < window.Due() <= WINDOW
      ensures a.Stuck? ==> |window.samples| >= window.Due()
    {
      hide R.Resample, Adapts, CoveredBetween, W.Ft8Window.Valid, Converted, Adapted, InClockRange;
      var refused := Refuse(complete, iq, clock);
      if refused {
        if !stuck { window.BufferBounded(); }
        return Refused;
      }
      if iq == [] {
        assert fed == fed + [];
        if !stuck { window.BufferBounded(); }
        return Quiet;
      }
      a := Take(iq, clock, overflows, spoiled);
    }

    /** An admitted block: the adapter takes it in, then the cutter does. */
    method Take(iq: seq<C>, clock: InputClock, overflows: bool, spoiled: bool) returns (a: Answer)
      requires Valid() && clock.firstSampleIndex < CLOCK && clock.inputRate.Valid()
      requires |window.stream| + (WINDOW - HOP) < CLOCK
      requires |iq| <= MAX_BLOCK && InClockRange(clock.inputRate)
      modifies this`inputOrigin, this`fed, this`delivered, this`stuck, this`gap, this`lost, window, Parts()
      ensures Valid() && !a.Refused? && (a.Overflowed? <==> adapter.Some? && overflows)
      ensures fed == old(fed) + iq && inputOrigin == if old(inputOrigin).Some? then old(inputOrigin) else Some(clock)
      ensures if a.Overflowed? then unchanged(window)
              else Tells(a, old(window.start), old(window.Due()), spoiled)
                   && window.origin == if old(window.origin).Some? then old(window.origin) else Some(clock)
      ensures a.Delivered? || a.Lost? ==>
                window.early && window.start == old(window.start) + if old(window.early) then HOP else 0
      ensures !(a.Delivered? || a.Lost?) ==> window.early == old(window.early) && window.start == old(window.start)
      ensures delivered == old(delivered) + if a.Delivered? then [a.job] else []
      ensures stuck == (old(stuck) || a.Stuck?) && gap == (old(gap) || a.Overflowed?) && lost == (old(lost) || a.Lost?)
      ensures !stuck ==> |window.samples| < window.Due() <= WINDOW
      ensures a.Stuck? ==> |window.samples| >= window.Due()
    {
      hide R.Resample, Adapts, AtSample, CoveredBetween, Positionable, Placeable, W.Ft8Window.Valid, Converted,
           Adapted, InClockRange, Tells;
      if inputOrigin.None? { inputOrigin := Some(clock); }
      AdapterIsValid();
      ghost var before := Converted(fed);
      var converted := Convert(iq);
      assert !gap ==> Converted(fed)[since..] == before[since..] + converted;
      if adapter.Some? && overflows {
        gap := true;
        if !stuck { window.BufferBounded(); }
        return Overflowed;
      }
      a := Feed(converted, clock, spoiled);
    }

    /** Hands the converted block to the cutter, which may cut one job. */
    method Cut(converted: seq<C>, clock: InputClock) returns (o: Outcome)
      requires window.Valid() && Clocked() && inputOrigin.Some? && (!stuck ==> window.bounded)
      requires clock.firstSampleIndex < CLOCK && clock.inputRate.Valid()
      requires |window.stream| + |converted| < CLOCK && |converted| <= WINDOW - HOP
      modifies this`stuck, window
      ensures window.Valid() && Clocked() && (!stuck ==> window.bounded) && stuck == (old(stuck) || o.Failed?)
      ensures window.stream == old(window.stream) + converted && window.pass == old(window.pass) <= old(window.start)
      ensures window.origin == if old(window.origin).Some? then old(window.origin) else Some(clock)
      ensures o.Nothing? <==> |window.stream| < old(window.start) + old(window.Due())
      ensures o.Failed? <==>
              |window.stream| >= old(window.start) + old(window.Due())
              && !Positionable(window.origin.value.firstSampleIndex, window.origin.value.inputRate, old(window.start),
                               FT8_RATE)
      ensures o.Emitted? ==>
                && o.job.start == old(window.start) && |o.job.iq| == old(window.Due()) && SliceOf(window.stream, o.job)
                && window.early && window.start == old(window.start) + if old(window.early) then HOP else 0
      ensures !o.Emitted? ==> window.early == old(window.early) && window.start == old(window.start)
      ensures !stuck ==> |window.samples| < window.Due() <= WINDOW
      ensures o.Failed? ==> |window.samples| >= window.Due()
    {
      hide CoveredBetween, Positionable, IsPositionAt, SliceOf, W.Ft8Window.Valid, InClockRange;
      window.Buffered();
      o := window.Extract(converted, clock);
      stuck := stuck || o.Failed?;
      if !stuck { window.BufferBounded(); }
    }

    /** Has the converted block cut, and places the job. */
    method Feed(converted: seq<C>, clock: InputClock, spoiled: bool) returns (a: Answer)
      requires inputRate.Valid() && inputRate.Mantissa() > 0 && Adapted() && window.Valid()
      requires this !in Parts() && window !in Parts() && Clocked() && Kept() && (!stuck ==> window.bounded)
      requires adapter.Some? ==> adapter.value.r.Valid()
      requires since <= |Converted(fed)| && (!gap ==> Converted(fed)[since..] == window.stream + converted)
      requires inputOrigin.Some? && clock.firstSampleIndex < CLOCK && clock.inputRate.Valid()
      requires |window.stream| + |converted| < CLOCK && |converted| <= WINDOW - HOP
      modifies this`delivered, this`stuck, this`lost, window
      ensures Valid() && Tells(a, old(window.start), old(window.Due()), spoiled) && !a.Refused? && !a.Overflowed?
      ensures window.origin == if old(window.origin).Some? then old(window.origin) else Some(clock)
      ensures a.Delivered? || a.Lost? ==>
                window.early && window.start == old(window.start) + if old(window.early) then HOP else 0
      ensures !(a.Delivered? || a.Lost?) ==> window.early == old(window.early) && window.start == old(window.start)
      ensures delivered == old(delivered) + if a.Delivered? then [a.job] else []
      ensures stuck == (old(stuck) || a.Stuck?) && lost == (old(lost) || a.Lost?)
      ensures !stuck ==> |window.samples| < window.Due() <= WINDOW
      ensures a.Stuck? ==> |window.samples| >= window.Due()
    {
      hide R.Resample, Adapts, AtSample, CoveredBetween, Positionable, Placeable, W.Ft8Window.Valid, Converted,
           Adapted, InClockRange;
      var o := Cut(converted, clock);
      match o
      case Failed => a := Stuck;
      case Nothing => a := if spoiled then Spoiled else Quiet;
      case Emitted(job) =>
        a := HandOut(job, spoiled, window.pass, window.start);
    }

    /** The job as it is handed out, unless it has no position or a later step fails.
        The jobs then cover the messages that begin before `to`. */
    method HandOut(job: Job, spoiled: bool, ghost from: nat, ghost to: nat) returns (a: Answer)
      requires inputOrigin.Some? && inputOrigin.value.firstSampleIndex < CLOCK && inputOrigin.value.inputRate.Valid()
      requires inputRate.Valid() && (adapter.Some? ==> adapter.value.r.Valid()) && job.start < CLOCK
      requires job.start <= to && forall x :: job.start <= x < to ==> Inside(x, job)
      requires !lost ==> CoveredBetween(delivered, from, job.start)
      modifies this`delivered, this`lost
      ensures if spoiled || !Placeable(job.start) then a == Lost
              else a.Delivered? && a.job.start == job.start && a.job.iq == job.iq
                   && AtSample(job.start, a.job.position) && a.job.clock.firstSampleIndex == a.job.position.index
      ensures delivered == old(delivered) + if a.Delivered? then [a.job] else []
      ensures lost == (old(lost) || a.Lost?)
      ensures !lost ==> CoveredBetween(delivered, from, to)
    {
      hide AtSample, Placeable, CoveredBetween;
      var p := Place(job);
      if p.None? || spoiled {
        lost := true;
        return Lost;
      }
      var placed := job.(position := p.value, clock := job.clock.(firstSampleIndex := p.value.index));
      assert forall x :: Inside(x, job) <==> Inside(x, placed);
      if !lost { CoveredMore(delivered, placed, from, job.start, to); }
      delivered := delivered + [placed];
      a := Delivered(placed);
    }

    /** flush_ft8 hands out what is left. Unless a job was lost since the last flush or
        retune, or this one fails, every 12.64 s of the stream since then lie inside one
        job that was handed out. */
    method Flush() returns (a: Answer)
      requires Valid() && |window.stream| < CLOCK
      modifies this`delivered, this`lost, window
      ensures Valid() && window.stream == old(window.stream)
      ensures a.Quiet? <==> |old(window.samples)| < MESSAGE
      ensures !a.Quiet? ==> Tells(a, old(window.start), |old(window.samples)|, false)
      ensures delivered == old(delivered) + if a.Delivered? then [a.job] else []
      ensures !old(lost) && (a.Quiet? || a.Delivered?) ==>
                forall x :: old(window.pass) <= x && x + MESSAGE <= |window.stream| ==> Covered(delivered, x)
      ensures if a.Delivered? || a.Lost? then !lost && window.pass == |window.stream|
              else lost == old(lost) && window.pass == old(window.pass)
    {
      hide R.Resample, Adapts, AtSample, CoveredBetween, Covered, Positionable, Placeable, W.Ft8Window.Valid, Converted,
           Adapted, InClockRange;
      window.Buffered();
      AdapterIsValid();
      ghost var pass, start := window.pass, window.start;
      var o := window.Flush();
      match o
      case Failed => a := Stuck;
      case Nothing =>
        a := Quiet;
        if !lost { CoveredHere(delivered, pass, start, |window.stream|); }
      case Emitted(job) =>
        ghost var to := start + |job.iq| - MESSAGE + 1;
        a := HandOut(job, false, pass, to);
        if !lost { CoveredHere(delivered, pass, to, |window.stream|); }
        lost := false;
        CoveredNothing(delivered, window.pass);
    }

    /** A window numbers its samples from its own beginning, adapter and origin go on
        through a retune. The job's first sample is number since + job.start while no
        block overflowed. The position is that sample's exactly while nothing was
        converted before the window began or, behind an adapter, while both samples
        became available with the same input. */
    lemma PlacedTruly(job: Job, p: Position)
      requires inputOrigin.Some? && InClockRange(inputOrigin.value.inputRate)
      requires adapter.Some? ==> adapter.value.r.Valid()
      requires AtSample(job.start, p)
      ensures AtSample(since + job.start, p) <==>
              if adapter.Some? then R.Causal(adapter.value.r, since + job.start) == R.Causal(adapter.value.r, job.start)
              else since == 0
    {
      hide IsInputPosition, IsPositionAt, R.Causal, RateValue;
      var clock := inputOrigin.value;
      RateIsPositive(clock.inputRate);
      if adapter.Some? {
        var r := adapter.value.r;
        R.CausalPositive(r, job.start);
        R.CausalPositive(r, since + job.start);
        OneInput(clock.firstSampleIndex, clock.inputRate, R.Causal(r, since + job.start), R.Causal(r, job.start),
                 inputRate, p);
      } else {
        OneFrame(clock.firstSampleIndex, clock.inputRate, since + job.start, job.start, FT8_RATE, p);
      }
    }
  }

  lemma RateIsPositive(rate: F64)
    requires InClockRange(rate)
    ensures RateValue(rate) > 0.0
  {
    PositiveQuotient(rate.Num() as real, rate.Den() as real);
  }

  /** A coordinate belongs to one input sample only. */
  lemma OneInput(origin: nat, capture: F64, a: nat, b: nat, input: F64, p: Position)
    requires IsInputPosition(origin, capture, b, input, p) && RateValue(capture) > 0.0
    ensures IsInputPosition(origin, capture, a, input, p) <==> a == b
  {
    hide RateValue, Value;
    SameQuotient(a as real, b as real, RateValue(capture), RateValue(input));
  }

  lemma OneFrame(origin: nat, source: F64, a: nat, b: nat, pcm: nat, p: Position)
    requires IsPositionAt(origin, b, source, pcm, p) && RateValue(source) > 0.0
    ensures IsPositionAt(origin, a, source, pcm, p) <==> a == b
  {
    hide RateValue, Value;
    SameQuotient(a as real, b as real, RateValue(source), pcm as real);
  }

  lemma SameQuotient(a: real, b: real, c: real, d: real)
    requires c > 0.0 && d > 0.0
    ensures a * c / d == b * c / d <==> a == b
  {
    var x, y := a * c, b * c;
    assert x / d * d == x && y / d * d == y;
    if x == y { assert (a - b) * c == 0.0; }
  }
}

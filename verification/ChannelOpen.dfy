/** How channels are opened: the geometry of a decimation, the two-stage and the fused
    channel, and the planned cascade. Filter design is a parameter: coefficients for a
    length and a cutoff. */
module ChannelOpen {
  import opened Arith
  import opened Complex
  import opened Channelizer
  import opened Fir
  import opened Narrow
  import opened Oscillator
  import P = RatePlan

  type Design = (nat, real) -> seq<real>

  /** A design has the length that it was asked for. */
  ghost predicate Designs(design: Design) { forall n, cutoff :: |design(n, cutoff)| == n }

  // ---------------------------------------------------------------- geometry

  /** A first decimation that divides the whole and leaves a second one in range. */
  ghost predicate SplitsEvenly(fs: real, decimate: int, d1: int) {
    d1 > 0 && decimate % d1 == 0 && 2 <= decimate / d1 <= 24 && fs / d1 as real <= 4000000.0
  }

  /** The largest one, from the power of two that brings the rate near one megasample. */
  ghost predicate Split(fs: real, decimate: int, d1: nat) {
    && Quantum(d1) && SplitsEvenly(fs, decimate, d1)
    && exists q :: Quantum(q) && InBand(fs, q) && d1 <= q
         && forall e: nat :: Quantum(e) && d1 < e <= q ==> !SplitsEvenly(fs, decimate, e)
  }

  /** geometry: the split into two decimations and the length of the first filter. */
  method Geometry(fs: real, decimate: int) returns (g: Option<(nat, nat, nat)>)
    ensures g.Some? ==>
              var (d1, d2, n1) := g.value;
              && Split(fs, decimate, d1) && d1 * d2 == decimate && 2 <= d2 <= 24
              && n1 == NextMultipleOf8(12 * d1) && n1 > 0
    ensures g.None? ==> forall d1: nat :: !Split(fs, decimate, d1)
  {
    hide InBand, Quantum, NextMultipleOf8;
    var q := ChannelQuantum(fs);
    if q == 0 { return None; }
    var d1: nat := q;
    while d1 > 0
      invariant 0 <= d1 <= q && (d1 == 0 || Quantum(d1))
      invariant forall e: nat :: Quantum(e) && d1 < e <= q ==> !SplitsEvenly(fs, decimate, e)
    {
      if decimate % d1 == 0 && 2 <= decimate / d1 <= 24 && fs / d1 as real <= 4000000.0 {
        assert SplitsEvenly(fs, decimate, d1);
        assert Split(fs, decimate, d1);
        SplitFacts(fs, decimate, d1);
        return Some((d1, decimate / d1, NextMultipleOf8(12 * d1)));
      }
      NextQuantum(d1);
      d1 := d1 / 2;
    }
    forall e: nat
      ensures !Split(fs, decimate, e)
    {
      if Split(fs, decimate, e) {
        SplitBelow(fs, decimate, e, q);
        SplitFacts(fs, decimate, e);
      }
    }
    g := None;
  }

  lemma SplitBelow(fs: real, decimate: int, d1: nat, q: nat)
    requires Split(fs, decimate, d1) && Quantum(q) && InBand(fs, q)
    ensures Quantum(d1) && SplitsEvenly(fs, decimate, d1) && d1 <= q
    ensures forall e: nat :: Quantum(e) && d1 < e <= q ==> !SplitsEvenly(fs, decimate, e)
  {
    var r: nat :| Quantum(r) && InBand(fs, r) && d1 <= r
                  && forall e: nat :: Quantum(e) && d1 < e <= r ==> !SplitsEvenly(fs, decimate, e);
    OneQuantum(fs, q, r);
  }

  lemma SplitFacts(fs: real, decimate: int, d1: nat)
    requires SplitsEvenly(fs, decimate, d1)
    ensures d1 > 0 && d1 * (decimate / d1) == decimate && 2 <= decimate / d1 <= 24
    ensures NextMultipleOf8(12 * d1) > 0
  {
    assert decimate == (decimate / d1) * d1 + decimate % d1;
  }

  /** Below a power of two comes its half. */
  lemma NextQuantum(d: nat)
    requires Quantum(d)
    ensures d / 2 == 0 || Quantum(d / 2)
    ensures forall e: nat :: Quantum(e) && d / 2 < e ==> d <= e
  {
  }

  /** The band is narrower than an octave. */
  lemma OneQuantum(fs: real, a: nat, b: nat)
    requires Quantum(a) && Quantum(b) && InBand(fs, a) && InBand(fs, b)
    ensures a == b
  {
    if a < b {
      NextQuantum(b);
      HalfTheRate(fs, a, b);
    } else if b < a {
      NextQuantum(a);
      HalfTheRate(fs, b, a);
    }
  }

  lemma HalfTheRate(fs: real, a: nat, b: nat)
    requires 0 < a && 2 * a <= b && InBand(fs, a)
    ensures !InBand(fs, b)
  {
    var x, y := fs / a as real, fs / b as real;
    assert x * a as real == fs == y * b as real;
    if y > x / 2.0 { OverHalf(x, y, a as real, b as real); }
  }

  lemma OverHalf(x: real, y: real, a: real, b: real)
    requires x > 0.0 && a > 0.0 && 2.0 * a <= b && y > x / 2.0
    ensures y * b > x * a
  {
    assert (y - x / 2.0) * b > 0.0;
    assert x / 2.0 * (b - 2.0 * a) >= 0.0;
  }

  // ------------------------------------------------------------ two stages

  /** The offset of a channel lies inside its band. */
  ghost predicate OffsetInBand(fs: real, offset: real) { -(fs / 2.0) < offset < fs / 2.0 }

  /** channel_open. */
  method Open(fs: real, offset: real, step: C, decimate: int, design: Design, avx2: bool)
    returns (channel: Option<Channel>)
    requires Unit(step) && Designs(design)
    ensures channel.None? <==> !OffsetInBand(fs, offset) || forall d1: nat :: !Split(fs, decimate, d1)
    ensures channel.Some? ==>
              var c := channel.value;
              && fresh(c) && fresh(c.r1) && fresh(c.r2) && c.After([]) && c.step == step && c.fused.None?
              && Split(fs, decimate, c.d1) && c.d1 * c.d2 == decimate && c.d1 > 0 && c.d2 > 0
              && c.h1 == design(NextMultipleOf8(12 * c.d1), 0.40 / c.d1 as real)
              && c.h2 == design(32 * c.d2, 0.49 / c.d2 as real)
  {
    if offset >= fs / 2.0 || -offset >= fs / 2.0 { return None; }
    var g := Geometry(fs, decimate);
    if g.None? { return None; }
    var (d1, d2, n1) := g.value;
    var h1 := design(n1, 0.40 / d1 as real);
    var h2 := design(32 * d2, 0.49 / d2 as real);
    var c := new Channel(step, d1, d2, h1, h2, avx2);
    channel := Some(c);
  }

  /** channel_open_coarse: the same filters, fused, when no first decimation is needed. */
  method OpenCoarse(fs: real, offset: real, step: C, decimate: int, design: Design, avx2: bool)
    returns (channel: Option<Channel>)
    requires Unit(step) && Designs(design)
    ensures channel.Some? <==> OffsetInBand(fs, offset) && Split(fs, decimate, 1)
    ensures channel.Some? ==>
              var c := channel.value;
              && fresh(c) && fresh(c.r1) && fresh(c.r2) && c.After([]) && c.step == step && c.fused.Some?
              && c.d1 == 1 && c.d2 == decimate > 0 && c.h1 == design(16, 0.40)
              && c.h2 == design(32 * decimate, 0.49 / decimate as real)
  {
    hide Split, OffsetInBand, Channel.After, Unit;
    var base := Open(fs, offset, step, decimate, design, avx2);
    if base.None? { return None; }
    OneSplit(fs, decimate, base.value.d1, 1);
    if base.value.d1 != 1 { return None; }
    var c := new Channel.Coarse(step, base.value.d2, base.value.h1, base.value.h2, avx2);
    channel := Some(c);
  }

  lemma OneSplit(fs: real, decimate: int, a: nat, b: nat)
    requires Split(fs, decimate, a)
    ensures Split(fs, decimate, b) ==> a == b
  {
    if Split(fs, decimate, b) {
      var q: nat :| Quantum(q) && InBand(fs, q) && a <= q;
      SplitBelow(fs, decimate, a, q);
      SplitBelow(fs, decimate, b, q);
    }
  }

  // ------------------------------------------------------------ the cascade

  /** Every stage of a plan has a filter: the alias filters of the factors, each at its
      own rate, and the final one. */
  ghost predicate AllTaps(scale: real, rate: real, factors: seq<nat>, plan: P.Plan)
    requires forall i :: 0 <= i < |factors| ==> factors[i] > 0
    decreases |factors|
  {
    if factors == [] then P.FilterTaps(scale, rate, plan.occupied / 2.0, plan.stopband).Some?
    else
      var next := rate / factors[0] as real;
      && P.FilterTaps(scale, rate, plan.occupied / 2.0, next - plan.occupied / 2.0).Some?
      && AllTaps(scale, next, factors[1..], plan)
  }

  /** A stage for a factor of at most eight has a filter when its output keeps a quarter
      more than the occupied band. */
  lemma StageFits(scale: real, rate: real, factor: nat, next: real, occupied: real)
    requires 0.0 < scale <= 1600.0 && 2 <= factor <= 8 && rate == next * factor as real
    requires occupied > 0.0 && next >= 1.25 * occupied
    ensures P.FilterTaps(scale, rate, occupied / 2.0, next - occupied / 2.0).Some?
  {
    var width := next - occupied;
    assert next - occupied / 2.0 - occupied / 2.0 == width;
    StageLength(scale, factor as real, next, width);
  }

  lemma StageLength(scale: real, factor: real, next: real, width: real)
    requires 0.0 < scale <= 1600.0 && 0.0 < factor <= 8.0 && width > 0.0 && 0.0 < next <= 5.0 * width
    ensures next * factor > 0.0 && 0.0 <= scale * (next * factor) / width <= 64000.0
  {
    ProductAtMost(next, 5.0 * width, factor, 8.0);
    ProductAtMost(scale, 1600.0, next * factor, 40.0 * width);
    QuotientAtMost(scale * (next * factor), width, 64000.0);
  }

  lemma ProductAtMost(a: real, b: real, c: real, d: real)
    requires 0.0 < a <= b && 0.0 < c <= d
    ensures 0.0 < a * c <= b * d
  {
    RealScale(a, b, c);
    RealScale(c, d, b);
  }

  lemma RealScale(a: real, b: real, k: real)
    requires a <= b && k > 0.0
    ensures a * k <= b * k && (a > 0.0 ==> a * k > 0.0)
  {
  }

  lemma QuotientAtMost(n: real, d: real, bound: real)
    requires d > 0.0 && 0.0 <= n <= bound * d
    ensures 0.0 <= n / d <= bound
  {
  }

  /** The rate that a decimation by n brings down to `output`. */
  function Before(output: real, n: nat): real { output * n as real }

  /** Every stage of a plan that keeps a quarter more than its band has a filter. */
  lemma {:induction false} StagesFit(scale: real, rate: real, factors: seq<nat>, plan: P.Plan)
    requires 0.0 < scale <= 1600.0 && forall i :: 0 <= i < |factors| ==> 2 <= factors[i] <= 8
    requires plan.occupied > 0.0 && plan.outputRate >= 1.25 * plan.occupied
    requires rate == Before(plan.outputRate, P.Product(factors))
    requires P.FilterTaps(scale, plan.outputRate, plan.occupied / 2.0, plan.stopband).Some?
    ensures AllTaps(scale, rate, factors, plan)
    decreases |factors|
  {
    hide P.FilterTaps, Before;
    if factors == [] {
      OneStage(plan.outputRate);
    } else {
      var rest := P.Product(factors[1..]);
      P.ProductFirst(factors);
      NextRate(plan.outputRate, factors[0], rest);
      var next := Before(plan.outputRate, rest);
      hide P.Product;
      StageFits(scale, rate, factors[0], next, plan.occupied);
      StagesFit(scale, next, factors[1..], plan);
    }
  }

  lemma OneStage(output: real)
    ensures Before(output, 1) == output
  {
  }

  lemma NextRate(output: real, factor: nat, rest: nat)
    requires output > 0.0 && factor > 0 && rest > 0
    ensures factor * rest > 0 && Before(output, factor * rest) == Before(output, rest) * factor as real
    ensures Before(output, factor * rest) / factor as real == Before(output, rest) >= output
  {
    P.RealMono(1.0, rest as real, output);
    assert (factor * rest) as real == factor as real * rest as real;
    OverFactor(Before(output, rest), factor as real);
  }

  lemma OverFactor(x: real, f: real)
    requires f > 0.0
    ensures x * f / f == x
  {
  }

  /** Every plan that RatePlan::new returns has all its filters: the design formula's
      factor is about five. */
  lemma PlansOpen(plan: P.Plan, coarse: real, mode: string, occupied: real, scale: real)
    requires P.IsPlan(plan, coarse, mode, occupied, scale) && 0.0 < scale <= 1600.0
    ensures plan.Valid(coarse, scale) && AllTaps(scale, coarse, P.FactorsOf(plan.decimate), plan)
  {
    P.FactorsMultiply(plan.decimate);
    PlanKeeps(plan, coarse, mode, occupied, scale);
    hide P.FilterTaps, P.Smooth, P.Product, P.RuleOf, P.Slowest, P.FactorsFrom, Before;
    StagesFit(scale, coarse, P.FactorsOf(plan.decimate), plan);
  }

  /** All modes ask for transitions of an eighth of the band on either side. */
  lemma PlanKeeps(plan: P.Plan, coarse: real, mode: string, occupied: real, scale: real)
    requires P.IsPlan(plan, coarse, mode, occupied, scale)
    ensures plan.decimate > 0 && coarse == Before(plan.outputRate, plan.decimate)
    ensures plan.outputRate >= 1.25 * plan.occupied > 0.0
  {
    hide P.FilterTaps, P.Smooth;
  }

  /** The rate before stage i. */
  ghost function RateAt(fs: real, factors: seq<nat>, i: nat): real
    requires i <= |factors| && forall j :: 0 <= j < |factors| ==> factors[j] > 0
  {
    if i == 0 then fs else RateAt(fs, factors, i - 1) / factors[i - 1] as real
  }

  /** The filter of one stage: as long as its band edges ask for, cut off halfway between them. */
  ghost predicate FilterFor(taps: seq<real>, scale: real, rate: real, pass: real, stop: real, design: Design) {
    && P.FilterTaps(scale, rate, pass, stop).Some? && rate > 0.0
    && taps == design(P.FilterTaps(scale, rate, pass, stop).value, (pass / rate + stop / rate) / 2.0)
  }

  /** Stage i passes the occupied band and stops every alias image of it; the final stage
      stops at the plan's stopband. */
  ghost predicate StageFilter(taps: seq<real>, i: nat, fs: real, factors: seq<nat>, plan: P.Plan, scale: real,
                              design: Design)
    requires i <= |factors| && forall j :: 0 <= j < |factors| ==> factors[j] > 0
  {
    FilterFor(taps, scale, RateAt(fs, factors, i), plan.occupied / 2.0,
              if i < |factors| then RateAt(fs, factors, i + 1) - plan.occupied / 2.0 else plan.stopband, design)
  }

  /** Every stage of a plan has its own filter. */
  ghost predicate Designed(stages: seq<Decimator>, fs: real, plan: P.Plan, scale: real, design: Design) {
    var factors := P.FactorsOf(plan.decimate);
    && |stages| == |factors| + 1 && (forall j :: 0 <= j < |factors| ==> factors[j] > 0)
    && forall i :: 0 <= i < |stages| ==> StageFilter(stages[i].taps, i, fs, factors, plan, scale, design)
  }

  /** Stages that are new, apart from one another, and decimate by the given factors. */
  ghost predicate Built(stages: seq<Decimator>, factors: seq<nat>)
    reads stages, set i | 0 <= i < |stages| :: stages[i].hist
  {
    && |stages| == |factors|
    && (forall i :: 0 <= i < |stages| ==> stages[i].factor == factors[i] && stages[i].After([]))
    && Apart(stages)
  }

  ghost predicate Apart(stages: seq<Decimator>) {
    forall i, j :: 0 <= i < j < |stages| ==> stages[i] != stages[j] && stages[i].hist != stages[j].hist
  }

  /** The factor of a cascade is the product of the stage factors. */
  lemma {:induction false} StageProduct(stages: seq<Decimator>, factors: seq<nat>)
    requires |stages| == |factors| && forall i :: 0 <= i < |stages| ==> stages[i].factor == factors[i]
    ensures Factor(SpecsOf(stages)) == P.Product(factors)
  {
    if stages != [] {
      var last := |stages| - 1;
      StageProduct(stages[..last], factors[..last]);
      assert SpecsOf(stages)[..last] == SpecsOf(stages[..last]);
    }
  }

  /** One stage, if its filter has a length. */
  method NewStage(scale: real, rate: real, factor: nat, pass: real, stop: real, design: Design)
    returns (stage: Option<Decimator>)
    requires factor > 0 && Designs(design)
    ensures stage.Some? <==> P.FilterTaps(scale, rate, pass, stop).Some?
    ensures stage.Some? ==>
              && fresh(stage.value) && fresh(stage.value.hist) && stage.value.factor == factor && stage.value.After([])
              && FilterFor(stage.value.taps, scale, rate, pass, stop, design)
  {
    var n := P.CountTaps(scale, rate, pass, stop);
    if n.None? { return None; }
    assert rate > 0.0;
    var taps := design(n.value, (pass / rate + stop / rate) / 2.0);
    var s := new Decimator(factor, taps);
    stage := Some(s);
  }

  /** channel_open_planned: the cascade of the stage factors of a plan and a final
      filter. It opens exactly for a valid plan, an offset in the band and stages that
      all have a filter, and decimates by exactly the planned factor. */
  method OpenPlanned(fs: real, offset: real, step: C, plan: P.Plan, scale: real, design: Design, avx2: bool)
    returns (cascade: Option<Cascade>)
    requires Unit(step) && Designs(design)
    ensures cascade.Some? <==>
            plan.Valid(fs, scale) && OffsetInBand(fs, offset) && AllTaps(scale, fs, P.FactorsOf(plan.decimate), plan)
    ensures cascade.Some? ==>
              var c, factors := cascade.value, P.FactorsOf(plan.decimate) + [1];
              && fresh(c) && fresh(c.Repr()) && c.After([]) && c.step == step && c.decimate == plan.decimate
              && |c.stages| == |factors| && P.Product(factors) == plan.decimate
              && (forall i :: 0 <= i < |c.stages| ==> c.stages[i].factor == factors[i])
              && Designed(c.stages, fs, plan, scale, design)
  {
    hide P.FilterTaps, P.Supported, P.Plan.ValidFor, AllTaps, P.Product, P.FactorsOf, StageFilter, Decimator.After;
    var valid := P.CheckPlan(plan, fs, scale);
    if !valid || offset >= fs / 2.0 || -offset >= fs / 2.0 { return None; }
    var list := P.StageFactors(plan.decimate);
    if list.None? { assert false; }
    var stages := BuildStages(fs, list.value, plan, scale, design);
    if stages.None? { return None; }
    P.ProductAppend(list.value, 1);
    StageProduct(stages.value, list.value + [1]);
    var c := new Cascade(step, plan.decimate, stages.value, avx2);
    cascade := Some(c);
  }

  /** Alias stage i, down to the rate `next`. */
  method AliasStage(ghost fs: real, rate: real, factors: seq<nat>, i: nat, next: real, plan: P.Plan, scale: real,
                    design: Design) returns (stage: Option<Decimator>)
    requires Designs(design) && i < |factors| && forall j :: 0 <= j < |factors| ==> factors[j] > 0
    requires rate == RateAt(fs, factors, i) && next == rate / factors[i] as real
    ensures stage.Some? <==> P.FilterTaps(scale, rate, plan.occupied / 2.0, next - plan.occupied / 2.0).Some?
    ensures stage.Some? ==>
              && fresh(stage.value) && fresh(stage.value.hist)
              && stage.value.factor == factors[i] && stage.value.After([])
              && StageFilter(stage.value.taps, i, fs, factors, plan, scale, design)
  {
    hide P.FilterTaps, Decimator.After;
    stage := NewStage(scale, rate, factors[i], plan.occupied / 2.0, next - plan.occupied / 2.0, design);
  }

  /** The final stage, at the planned rate. */
  method FinalStage(ghost fs: real, rate: real, factors: seq<nat>, plan: P.Plan, scale: real, design: Design)
    returns (stage: Option<Decimator>)
    requires Designs(design) && forall j :: 0 <= j < |factors| ==> factors[j] > 0
    requires rate == RateAt(fs, factors, |factors|)
    ensures stage.Some? <==> P.FilterTaps(scale, rate, plan.occupied / 2.0, plan.stopband).Some?
    ensures stage.Some? ==>
              && fresh(stage.value) && fresh(stage.value.hist) && stage.value.factor == 1 && stage.value.After([])
              && StageFilter(stage.value.taps, |factors|, fs, factors, plan, scale, design)
  {
    hide P.FilterTaps, Decimator.After;
    stage := NewStage(scale, rate, 1, plan.occupied / 2.0, plan.stopband, design);
  }

  /** Alias stages and the final stage. */
  method BuildStages(fs: real, factors: seq<nat>, plan: P.Plan, scale: real, design: Design)
    returns (built: Option<seq<Decimator>>)
    requires Designs(design) && forall i :: 0 <= i < |factors| ==> factors[i] > 0
    ensures built.Some? <==> AllTaps(scale, fs, factors, plan)
    ensures built.Some? ==> Built(built.value, factors + [1])
    ensures built.Some? ==> forall k :: 0 <= k < |built.value| ==> fresh(built.value[k]) && fresh(built.value[k].hist)
    ensures built.Some? ==> forall k :: 0 <= k < |built.value| ==>
                              StageFilter(built.value[k].taps, k, fs, factors, plan, scale, design)
  {
    hide P.FilterTaps, Decimator.After, StageFilter;
    var stages: seq<Decimator> := [];
    var rate := fs;
    var i := 0;
    while i < |factors|
      invariant 0 <= i <= |factors|
      invariant Built(stages, factors[..i])
      invariant forall k :: 0 <= k < i ==> fresh(stages[k]) && fresh(stages[k].hist)
      invariant rate == RateAt(fs, factors, i)
      invariant forall k :: 0 <= k < i ==> StageFilter(stages[k].taps, k, fs, factors, plan, scale, design)
      invariant AllTaps(scale, fs, factors, plan) <==> AllTaps(scale, rate, factors[i..], plan)
    {
      var next := rate / factors[i] as real;
      assert factors[i..][0] == factors[i] && factors[i..][1..] == factors[i + 1..];
      var stage := AliasStage(fs, rate, factors, i, next, plan, scale, design);
      if stage.None? { return None; }
      stages := stages + [stage.value];
      rate := next;
      i := i + 1;
    }
    assert factors[i..] == [] && factors[..i] == factors;
    var final := FinalStage(fs, rate, factors, plan, scale, design);
    if final.None? { return None; }
    built := Some(stages + [final.value]);
  }
}

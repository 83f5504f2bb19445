/** The per-channel down-converters: an oscillator and, behind it, the two-stage
    channel or its fused form, the planned cascade, or the channel with a rational
    final stage. One handle stays in one mode for life, so each mode is a class of
    its own. */
module Narrow {
  import opened Arith
  import opened Complex
  import opened Fir
  import opened Channelizer
  import opened Oscillator
  import R = Rational

  function Opt(o: Option<C>): seq<C> { if o.Some? then [o.value] else [] }

  const MAX_PACKET: nat := 65536

  /** Output slots that a caller has to offer for n inputs. */
  ghost function Capacity(n: nat, d: nat): (slots: nat)
    requires d > 0
    ensures slots >= 2
  {
    DivGe(n, d, 0);
    n / d + 2
  }

  /** Appends a stage's output, if it gave one. */
  method Append(out: array<C>, produced: nat, o: Option<C>) returns (next: nat)
    requires produced < out.Length
    modifies out
    ensures produced <= next <= out.Length && next == produced + |Opt(o)|
    ensures out[..next] == old(out[..produced]) + Opt(o)
  {
    next := produced;
    if o.Some? {
      out[produced] := o.value;
      next := produced + 1;
    }
  }

  // --------------------------------------------------------- one decimator

  class Decimator {
    const factor: nat
    const taps: seq<real>
    const hist: array<C>
    var phase: nat
    var pos: nat

    ghost predicate Configured() {
      factor > 0 && |taps| > 0 && |taps| % 8 == 0 && hist.Length == 2 * |taps|
    }

    ghost predicate After(x: seq<C>)
      reads this, hist
    {
      Configured() && Ring(hist[..], pos, |taps|, x) && phase == |x| % factor
    }

    constructor (factor: nat, taps: seq<real>)
      requires factor > 0 && |taps| > 0 && |taps| % 8 == 0
      ensures this.factor == factor && this.taps == taps && After([]) && fresh(hist)
    {
      this.factor, this.taps := factor, taps;
      hist := new C[2 * |taps|](_ => Zero);
      phase, pos := 0, 0;
      new;
      RingStart(hist[..], |taps|);
      DivModUnique(0, factor, 0, 0);
    }

    /** One input; an output exactly when the phase wraps, and then the next
        output of the whole-stream stage. */
    method Push(v: C, avx2: bool, ghost x: seq<C>) returns (o: Option<C>)
      requires After(x)
      modifies this, hist
      ensures After(x + [v])
      ensures o.Some? <==> (|x| + 1) % factor == 0
      ensures Stage(taps, factor, x + [v]) == Stage(taps, factor, x) + Opt(o)
    {
      pos := PushSample(hist, pos, |taps|, v, x);
      PhaseStep(|x|, factor);
      StageStep(taps, factor, x, v);
      phase := phase + 1;
      if phase < factor { return None; }
      phase := 0;
      var acc := Dot(taps, hist, pos, avx2, x + [v]);
      o := Some(acc);
    }
  }

  // ------------------------------------------------------------ the cascade

  datatype Spec = Spec(taps: seq<real>, factor: nat)

  ghost predicate GoodSpecs(specs: seq<Spec>) { forall i :: 0 <= i < |specs| ==> specs[i].factor > 0 }

  /** Whole-stream meaning of a chain of stages, first stage first. */
  ghost function Chain(specs: seq<Spec>, x: seq<C>): seq<C>
    requires GoodSpecs(specs)
  {
    if specs == [] then x
    else
      var last := |specs| - 1;
      Stage(specs[last].taps, specs[last].factor, Chain(specs[..last], x))
  }

  function Factor(specs: seq<Spec>): nat {
    if specs == [] then 1 else Factor(specs[..|specs| - 1]) * specs[|specs| - 1].factor
  }

  /** A cascade emits floor(n / product) outputs for n inputs. */
  lemma {:induction false} ChainLength(specs: seq<Spec>, x: seq<C>)
    requires GoodSpecs(specs)
    ensures Factor(specs) > 0 && |Chain(specs, x)| == |x| / Factor(specs)
  {
    if specs != [] {
      var last := |specs| - 1;
      ChainLength(specs[..last], x);
      ModMod(|x|, Factor(specs[..last]), specs[last].factor);
    }
  }

  lemma ChainNext(specs: seq<Spec>, i: nat, x: seq<C>)
    requires GoodSpecs(specs) && i < |specs|
    ensures Chain(specs[..i + 1], x) == Stage(specs[i].taps, specs[i].factor, Chain(specs[..i], x))
  {
    assert specs[..i + 1][..i] == specs[..i];
  }

  /** Splitting the stream changes nothing: the outputs so far are a prefix. */
  lemma {:induction false} ChainPrefix(specs: seq<Spec>, x: seq<C>, y: seq<C>)
    requires GoodSpecs(specs)
    ensures Chain(specs, x) <= Chain(specs, x + y)
  {
    if specs != [] {
      var last := |specs| - 1;
      ChainPrefix(specs[..last], x, y);
      var a, b := Chain(specs[..last], x), Chain(specs[..last], x + y);
      assert b == a + b[|a|..];
      StagePrefix(specs[last].taps, specs[last].factor, a, b[|a|..]);
    }
  }

  /** Once a stage gives nothing, no later stage gives anything. */
  lemma {:induction false} ChainQuiet(specs: seq<Spec>, i: nat, j: nat, x: seq<C>, y: seq<C>)
    requires GoodSpecs(specs) && i <= j <= |specs| && Chain(specs[..i], y) == Chain(specs[..i], x)
    ensures Chain(specs[..j], y) == Chain(specs[..j], x)
    decreases j
  {
    if i < j {
      ChainQuiet(specs, i, j - 1, x, y);
      ChainNext(specs, j - 1, x);
      ChainNext(specs, j - 1, y);
    }
  }

  function SpecsOf(stages: seq<Decimator>): (specs: seq<Spec>)
    ensures |specs| == |stages|
  {
    seq(|stages|, i requires 0 <= i < |stages| => Spec(stages[i].taps, stages[i].factor))
  }

  class Cascade {
    const step: C
    const decimate: nat
    const stages: seq<Decimator>
    const avx2: bool
    var osc: Oscillator
    var inputSamples: nat
    var outputSamples: nat

    ghost const specs: seq<Spec>

    ghost predicate Wired() {
      && specs == SpecsOf(stages) && GoodSpecs(specs) && decimate == Factor(specs)
      && (forall i, j :: 0 <= i < j < |stages| ==>
            stages[i] != stages[j] && stages[i].hist != stages[j].hist)
    }

    ghost function Repr(): set<object> {
      (set i | 0 <= i < |stages| :: stages[i]) + (set i | 0 <= i < |stages| :: stages[i].hist)
    }

    ghost predicate StageAfter(i: nat, x: seq<C>)
      requires Wired() && i < |stages|
      reads stages[i], stages[i].hist
    {
      stages[i].After(Chain(specs[..i], x))
    }

    ghost predicate StagesAfter(x: seq<C>)
      reads Repr()
    {
      Wired() && forall i :: 0 <= i < |stages| ==> StageAfter(i, x)
    }

    /** Oscillator and stages have taken in exactly the samples x. */
    ghost predicate Taken(x: seq<C>)
      reads this`osc, Repr()
    {
      osc.step == step && osc.After(|x|) && StagesAfter(Mixed(step, x))
    }

    ghost predicate After(x: seq<C>)
      reads this, Repr()
    {
      Taken(x) && inputSamples == |x| && outputSamples == |Meaning(x)|
    }

    /** Whole-stream meaning: rotation, then the chain of stages. */
    ghost function Meaning(x: seq<C>): seq<C>
      requires GoodSpecs(specs)
    {
      Chain(specs, Mixed(step, x))
    }

    constructor (step: C, decimate: nat, stages: seq<Decimator>, avx2: bool)
      requires Unit(step) && decimate == Factor(SpecsOf(stages))
      requires forall i :: 0 <= i < |stages| ==> stages[i].After([])
      requires forall i, j :: 0 <= i < j < |stages| ==> stages[i] != stages[j] && stages[i].hist != stages[j].hist
      ensures this.step == step && this.decimate == decimate && this.stages == stages && After([])
    {
      this.step, this.decimate, this.stages, this.avx2 := step, decimate, stages, avx2;
      osc, inputSamples, outputSamples := Start(step), 0, 0;
      specs := SpecsOf(stages);
      new;
      forall i | 0 <= i <= |specs|
        ensures Chain(specs[..i], []) == []
      {
        EmptyChain(specs[..i]);
      }
      assert specs[..|specs|] == specs;
    }

    /** One mixed sample through the stages, until one of them holds it back. */
    method PushThrough(v: C, ghost x: seq<C>) returns (o: Option<C>)
      requires StagesAfter(x)
      modifies Repr()
      ensures StagesAfter(x + [v])
      ensures Chain(specs, x + [v]) == Chain(specs, x) + Opt(o)
    {
      hide Chain, Stage, Decimator.After;
      o := Some(v);
      ghost var y := x + [v];
      var i := 0;
      assert Chain(specs[..0], y) == y && Chain(specs[..0], x) == x by { NoStages(specs, x); NoStages(specs, y); }
      while i < |stages|
        invariant 0 <= i <= |stages|
        invariant forall j :: 0 <= j < i ==> StageAfter(j, y)
        invariant forall j :: i <= j < |stages| ==> StageAfter(j, x)
        invariant Chain(specs[..i], y) == Chain(specs[..i], x) + Opt(o)
      {
        if o.None? {
          forall j | i <= j < |stages|
            ensures StageAfter(j, y)
          {
            assert StageAfter(j, x);
            ChainQuiet(specs, i, j, x, y);
          }
          ChainQuiet(specs, i, |specs|, x, y);
          break;
        }
        assert StageAfter(i, x);
        ghost var before := Chain(specs[..i], x);
        ChainNext(specs, i, x);
        ChainNext(specs, i, y);
        o := stages[i].Push(o.value, avx2, before);
        i := i + 1;
      }
      assert specs[..|specs|] == specs;
    }

    /** channel_process: rejects oversized packets and outputs without slack, and
        otherwise appends the packet's outputs to the stream's. */
    method Process(iq: seq<C>, out: array<C>, ghost x: seq<C>) returns (code: int)
      requires After(x) && out !in Repr()
      modifies this`osc, this`inputSamples, this`outputSamples, Repr(), out
      ensures decimate > 0
      ensures code == -1 <==> |iq| > MAX_PACKET || out.Length < Capacity(|iq|, decimate)
      ensures code == -1 ==> After(x) && out[..] == old(out[..])
      ensures code != -1 ==> After(x + iq) && 0 <= code < out.Length
      ensures code != -1 ==> code == (|x| + |iq|) / decimate - |x| / decimate
      ensures code != -1 ==> Meaning(x + iq) == Meaning(x) + out[..code]
    {
      assert this !in Repr() && GoodSpecs(specs) && Factor(specs) == decimate;
      hide Taken, Chain, Factor, Repr, GoodSpecs;
      ChainLength(specs, Mixed(step, x));
      if |iq| > 65536 || out.Length < |iq| / decimate + 2 { return -1; }
      var produced := PushAll(iq, out, x);
      ChainLength(specs, Mixed(step, x + iq));
      inputSamples := inputSamples + |iq|;
      outputSamples := outputSamples + produced;
      code := produced;
    }

    /** One sample: rotation, then the stages. */
    method Push(v: C, ghost x: seq<C>) returns (o: Option<C>)
      requires Taken(x)
      modifies this`osc, Repr()
      ensures Taken(x + [v]) && Meaning(x + [v]) == Meaning(x) + Opt(o)
    {
      assert this !in Repr();
      hide Chain, StagesAfter, Repr, Mixed, Oscillator.After;
      MixedNext(step, x, v);
      var mixed;
      mixed, osc := Mix(osc, v, |x|);
      o := PushThrough(mixed, Mixed(step, x));
    }

    /** One sample, and its output at the end of those so far. */
    method PushInto(v: C, out: array<C>, at: nat, ghost x: seq<C>, ghost y: seq<C>) returns (next: nat)
      requires Taken(y) && out !in Repr() && at < out.Length && GoodSpecs(specs)
      requires Meaning(y) == Meaning(x) + out[..at]
      modifies this`osc, Repr(), out
      ensures Taken(y + [v]) && next <= out.Length && Meaning(y + [v]) == Meaning(x) + out[..next]
    {
      hide Meaning, GoodSpecs, StagesAfter, Oscillator.After;
      ghost var early := out[..at];
      var o := Push(v, y);
      next := Append(out, at, o);
      assert Meaning(x) + early + Opt(o) == Meaning(x) + (early + Opt(o));
    }

    lemma Room(x: seq<C>, iq: seq<C>, i: nat, produced: nat)
      requires GoodSpecs(specs) && i <= |iq| && Factor(specs) > 0
      requires |Meaning(x + iq[..i])| == |Meaning(x)| + produced
      ensures produced < Capacity(|iq|, Factor(specs))
    {
      RoomLeft(specs, step, x, iq, i, produced);
    }

    /** Sample i of a packet. */
    method PushNext(iq: seq<C>, i: nat, out: array<C>, produced: nat, ghost x: seq<C>) returns (next: nat)
      requires i < |iq| && Taken(x + iq[..i]) && out !in Repr() && GoodSpecs(specs) && Factor(specs) > 0
      requires produced < out.Length && Capacity(|iq|, Factor(specs)) <= out.Length
      requires Meaning(x + iq[..i]) == Meaning(x) + out[..produced]
      modifies this`osc, Repr(), out
      ensures Taken(x + iq[..i + 1]) && next < out.Length
      ensures Meaning(x + iq[..i + 1]) == Meaning(x) + out[..next]
    {
      hide Taken, Meaning, Factor, Repr, GoodSpecs, Capacity;
      assert x + iq[..i] + [iq[i]] == x + iq[..i + 1];
      next := PushInto(iq[i], out, produced, x, x + iq[..i]);
      Room(x, iq, i + 1, next);
    }

    method PushAll(iq: seq<C>, out: array<C>, ghost x: seq<C>) returns (produced: nat)
      requires Taken(x) && out !in Repr() && Factor(specs) > 0
      requires Capacity(|iq|, Factor(specs)) <= out.Length
      modifies this`osc, Repr(), out
      ensures Taken(x + iq) && produced < out.Length
      ensures Meaning(x + iq) == Meaning(x) + out[..produced]
    {
      assert GoodSpecs(specs);
      hide Taken, Meaning, Factor, Repr, GoodSpecs, Capacity;
      produced := 0;
      assert x + iq[..0] == x;
      for i := 0 to |iq|
        invariant Taken(x + iq[..i])
        invariant 0 <= produced < out.Length
        invariant Meaning(x + iq[..i]) == Meaning(x) + out[..produced]
      {
        produced := PushNext(iq, i, out, produced, x);
      }
      assert iq[..|iq|] == iq;
    }
  }

  lemma NoStages(specs: seq<Spec>, x: seq<C>)
    ensures Chain(specs[..0], x) == x
  {
  }

  lemma {:induction false} EmptyChain(specs: seq<Spec>)
    requires GoodSpecs(specs)
    ensures Chain(specs, []) == []
  {
    ChainLength(specs, []);
    DivModUnique(0, Factor(specs), 0, 0);
  }

  /** After i samples of a packet at most i / product + 1 outputs are written. */
  lemma RoomLeft(specs: seq<Spec>, step: C, x: seq<C>, iq: seq<C>, i: nat, produced: nat)
    requires GoodSpecs(specs) && i <= |iq| && Factor(specs) > 0
    requires |Chain(specs, Mixed(step, x + iq[..i]))| == |Chain(specs, Mixed(step, x))| + produced
    ensures produced < Capacity(|iq|, Factor(specs))
  {
    ChainLength(specs, Mixed(step, x));
    ChainLength(specs, Mixed(step, x + iq[..i]));
    CountBound(|x|, i, |iq|, Factor(specs));
  }

  lemma CountBound(n: nat, i: nat, m: nat, d: nat)
    requires d > 0 && i <= m
    ensures (n + i) / d - n / d < Capacity(m, d)
  {
    assert n == (n / d) * d + n % d;
    DivModShift(n % d + i, n / d, d);
    DivModShift(m, 1, d);
    DivMono(n % d + i, m + 1 * d, d);
  }

  // ---------------------------------------------- the two-stage channel

  /** Whole-stream meaning of the two-stage channel. */
  ghost function TwoStage(h1: seq<real>, d1: nat, h2: seq<real>, d2: nat, x: seq<C>): (y: seq<C>)
    requires d1 > 0 && d2 > 0
    ensures d1 * d2 > 0 && |y| == |x| / (d1 * d2)
  {
    ModMod(|x|, d1, d2);
    Stage(h2, d2, Stage(h1, d1, x))
  }

  lemma TwoStagePrefix(h1: seq<real>, d1: nat, h2: seq<real>, d2: nat, x: seq<C>, y: seq<C>)
    requires d1 > 0 && d2 > 0
    ensures TwoStage(h1, d1, h2, d2, x) <= TwoStage(h1, d1, h2, d2, x + y)
  {
    StagePrefix(h1, d1, x, y);
    var a, b := Stage(h1, d1, x), Stage(h1, d1, x + y);
    assert b == a + b[|a|..];
    StagePrefix(h2, d2, a, b[|a|..]);
  }

  class Channel {
    const step: C
    const d1: nat
    const d2: nat
    const h1: seq<real>
    const h2: seq<real>
    const fused: Option<seq<real>>
    const avx2: bool
    const r1: array<C>
    const r2: array<C>
    var osc: Oscillator
    var phase1: nat
    var phase2: nat
    var pos1: nat
    var pos2: nat
    var inputSamples: nat
    var outputSamples: nat

    function Width1(): nat { if fused.Some? then |fused.value| else |h1| }

    ghost predicate Configured() {
      && d1 > 0 && d2 > 0 && |h1| > 0 && |h2| > 0 && |h1| % 8 == 0 && |h2| % 8 == 0
      && r1.Length == 2 * Width1() && r2.Length == 2 * |h2| && r1 != r2
      && (fused.Some? ==> d1 == 1 && |fused.value| % 8 == 0 && ActsAs(fused.value, h1, h2, |h1|, 0))
    }

    ghost predicate StagesAfter(x: seq<C>)
      reads this, r1, r2
    {
      && Configured() && Ring(r1[..], pos1, Width1(), x)
      && if fused.Some? then phase2 == |x| % d2
         else
           && phase1 == |x| % d1 && phase2 == |Stage(h1, d1, x)| % d2
           && Ring(r2[..], pos2, |h2|, Stage(h1, d1, x))
    }

    /** Oscillator and stages have taken in exactly the samples x. */
    ghost predicate Taken(x: seq<C>)
      reads this, r1, r2
    {
      osc.step == step && osc.After(|x|) && StagesAfter(Mixed(step, x))
    }

    ghost predicate After(x: seq<C>)
      reads this, r1, r2
    {
      Taken(x) && inputSamples == |x| && outputSamples == |x| / (d1 * d2)
    }

    /** What the stages make of a mixed stream. */
    ghost function Filtered(m: seq<C>): seq<C>
      requires Configured()
    {
      TwoStage(h1, d1, h2, d2, m)
    }

    /** Whole-stream meaning: rotation, then the two stages. */
    ghost function Meaning(x: seq<C>): seq<C>
      requires Configured()
    {
      Filtered(Mixed(step, x))
    }

    /** channel_open: two stages, the second evaluated on the first one's output. */
    constructor (step: C, d1: nat, d2: nat, h1: seq<real>, h2: seq<real>, avx2: bool)
      requires Unit(step) && d1 > 0 && d2 > 0 && |h1| > 0 && |h2| > 0 && |h1| % 8 == 0 && |h2| % 8 == 0
      ensures this.step == step && this.d1 == d1 && this.d2 == d2 && this.h1 == h1 && this.h2 == h2 && fused.None?
      ensures After([]) && fresh(r1) && fresh(r2)
    {
      this.step, this.d1, this.d2, this.h1, this.h2, this.avx2 := step, d1, d2, h1, h2, avx2;
      osc := Start(step);
      fused := None;
      r1 := new C[2 * |h1|](_ => Zero);
      r2 := new C[2 * |h2|](_ => Zero);
      phase1, phase2, pos1, pos2, inputSamples, outputSamples := 0, 0, 0, 0, 0, 0;
      new;
      RingStart(r1[..], |h1|);
      RingStart(r2[..], |h2|);
      NothingYet(d1, d2);
    }

    /** channel_open_coarse: with one input per first-stage output the two filters
        are fused at setup. */
    constructor Coarse(step: C, d2: nat, h1: seq<real>, h2: seq<real>, avx2: bool)
      requires Unit(step) && d2 > 0 && |h1| > 0 && |h2| > 0 && |h1| % 8 == 0 && |h2| % 8 == 0
      ensures this.step == step && d1 == 1 && this.d2 == d2 && this.h1 == h1 && this.h2 == h2 && fused.Some?
      ensures After([]) && fresh(r1) && fresh(r2)
    {
      d1 := 1;
      this.step, this.d2, this.h1, this.h2, this.avx2 := step, d2, h1, h2, avx2;
      osc := Start(step);
      var g := Fuse(h1, h2);
      fused := Some(g);
      r1 := new C[2 * |g|](_ => Zero);
      r2 := new C[2 * |h2|](_ => Zero);
      phase1, phase2, pos1, pos2, inputSamples, outputSamples := 0, 0, 0, 0, 0, 0;
      new;
      RingStart(r1[..], |g|);
      NothingYet(1, d2);
    }

    /** One mixed sample; in both forms the next output of the two-stage meaning. */
    method PushThrough(v: C, ghost x: seq<C>) returns (o: Option<C>)
      requires StagesAfter(x)
      modifies this`phase1, this`phase2, this`pos1, this`pos2, r1, r2
      ensures StagesAfter(x + [v])
      ensures Filtered(x + [v]) == Filtered(x) + Opt(o)
    {
      if fused.Some? { o := PushFused(v, x); } else { o := PushStages(v, x); }
    }

    method PushFused(v: C, ghost x: seq<C>) returns (o: Option<C>)
      requires StagesAfter(x) && fused.Some?
      modifies this`phase2, this`pos1, r1
      ensures StagesAfter(x + [v])
      ensures Filtered(x + [v]) == Filtered(x) + Opt(o)
    {
      FusedIsCascade(fused.value, h1, h2, d2, x);
      FusedIsCascade(fused.value, h1, h2, d2, x + [v]);
      PhaseStep(|x|, d2);
      StageStep(fused.value, d2, x, v);
      hide Ring, Stage, ActsAs, FirAt;
      pos1 := PushSample(r1, pos1, |fused.value|, v, x);
      phase2 := phase2 + 1;
      if phase2 < d2 { return None; }
      phase2 := 0;
      var acc := Dot(fused.value, r1, pos1, avx2, x + [v]);
      o := Some(acc);
    }

    method PushStages(v: C, ghost x: seq<C>) returns (o: Option<C>)
      requires StagesAfter(x) && fused.None?
      modifies this`phase1, this`phase2, this`pos1, this`pos2, r1, r2
      ensures StagesAfter(x + [v])
      ensures Filtered(x + [v]) == Filtered(x) + Opt(o)
    {
      hide Ring, Stage;
      var first := PushFirst(v, x);
      if first.None? {
        assert Stage(h1, d1, x + [v]) == Stage(h1, d1, x);
        return None;
      }
      o := PushSecond(first.value, Stage(h1, d1, x));
    }

    method PushFirst(v: C, ghost x: seq<C>) returns (o: Option<C>)
      requires Configured() && fused.None? && Ring(r1[..], pos1, |h1|, x) && phase1 == |x| % d1
      modifies this`phase1, this`pos1, r1
      ensures Ring(r1[..], pos1, |h1|, x + [v]) && phase1 == (|x| + 1) % d1
      ensures Stage(h1, d1, x + [v]) == Stage(h1, d1, x) + Opt(o)
    {
      PhaseStep(|x|, d1);
      StageStep(h1, d1, x, v);
      hide Ring, Stage, FirAt;
      pos1 := PushSample(r1, pos1, |h1|, v, x);
      phase1 := phase1 + 1;
      if phase1 < d1 { return None; }
      phase1 := 0;
      var acc := Dot(h1, r1, pos1, avx2, x + [v]);
      o := Some(acc);
    }

    method PushSecond(v: C, ghost y: seq<C>) returns (o: Option<C>)
      requires Configured() && fused.None? && Ring(r2[..], pos2, |h2|, y) && phase2 == |y| % d2
      modifies this`phase2, this`pos2, r2
      ensures Ring(r2[..], pos2, |h2|, y + [v]) && phase2 == (|y| + 1) % d2
      ensures Stage(h2, d2, y + [v]) == Stage(h2, d2, y) + Opt(o)
    {
      PhaseStep(|y|, d2);
      StageStep(h2, d2, y, v);
      hide Ring, Stage, FirAt;
      pos2 := PushSample(r2, pos2, |h2|, v, y);
      phase2 := phase2 + 1;
      if phase2 < d2 { return None; }
      phase2 := 0;
      var acc := Dot(h2, r2, pos2, avx2, y + [v]);
      o := Some(acc);
    }

    /** The per-sample loop of one packet. */
    method Produce(iq: seq<C>, out: array<C>, ghost x: seq<C>) returns (produced: nat)
      requires Taken(x) && out != r1 && out != r2
      requires d1 * d2 > 0 && Capacity(|iq|, d1 * d2) <= out.Length
      modifies this`osc, this`phase1, this`phase2, this`pos1, this`pos2, r1, r2, out
      ensures Taken(x + iq) && produced < out.Length
      ensures Meaning(x + iq) == Meaning(x) + out[..produced]
    {
      hide Ring, Stage, ActsAs, FirAt, TwoStage, Capacity, Mixed, Oscillator.After;
      produced := 0;
      assert x + iq[..0] == x;
      for i := 0 to |iq|
        invariant Taken(x + iq[..i])
        invariant 0 <= produced < out.Length
        invariant Meaning(x + iq[..i]) == Meaning(x) + out[..produced]
      {
        ghost var y := x + iq[..i];
        assert y + [iq[i]] == x + iq[..i + 1];
        MixedNext(step, y, iq[i]);
        var v;
        v, osc := Mix(osc, iq[i], |y|);
        var o := PushThrough(v, Mixed(step, y));
        produced := Append(out, produced, o);
        CountBound(|x|, i + 1, |iq|, d1 * d2);
      }
      assert iq[..|iq|] == iq;
    }

    /** channel_process: rejects oversized packets and outputs without slack, and
        otherwise appends the packet's outputs to the stream's. */
    method Process(iq: seq<C>, out: array<C>, ghost x: seq<C>) returns (code: int)
      requires After(x) && out != r1 && out != r2
      modifies this`osc, this`phase1, this`phase2, this`pos1, this`pos2, this`inputSamples, this`outputSamples
      modifies r1, r2, out
      ensures d1 * d2 > 0
      ensures code == -1 <==> |iq| > MAX_PACKET || out.Length < Capacity(|iq|, d1 * d2)
      ensures code == -1 ==> After(x) && out[..] == old(out[..])
      ensures code != -1 ==> After(x + iq) && 0 <= code < out.Length
      ensures code != -1 ==> Meaning(x + iq) == Meaning(x) + out[..code]
    {
      MulMono(1, d1, d2);
      hide Ring, Stage, ActsAs, FirAt, TwoStage;
      if |iq| > 65536 || out.Length < |iq| / (d1 * d2) + 2 { return -1; }
      var produced := Produce(iq, out, x);
      inputSamples := inputSamples + |iq|;
      outputSamples := outputSamples + produced;
      code := produced;
    }
  }

  /** The room for outputs is a 32-bit count. */
  const MAX_ROOM: nat := 0x7fff_ffff

  /** The adapter's part of a packet: it asserts that its outputs fit. */
  method Adapt(rational: R.Rational, samples: seq<C>, out: array<C>, ghost m: seq<C>)
    returns (count: nat, panics: bool)
    requires rational.After(m) && out != rational.hist && out.Length <= MAX_ROOM
    modifies rational`pos, rational`inputIndex, rational`nextWhole, rational`nextRemainder, rational.hist, out
    ensures rational.Configured()
    ensures panics <==> |R.Resample(rational.r, rational.table, m + samples)|
                        > |R.Resample(rational.r, rational.table, m)| + out.Length
    ensures !panics ==> rational.After(m + samples) && count <= out.Length
    ensures !panics ==> R.Resample(rational.r, rational.table, m + samples)
                        == R.Resample(rational.r, rational.table, m) + out[..count]
  {
    hide R.Emitted, R.OutputAt;
    var room := rational.OutputFramesForInput(|samples|, m);
    if out.Length < room { return 0, true; }
    count := rational.Process(samples, out, m);
    panics := false;
  }

  /** channel_open_ratio: a two-stage channel whose output passes through the
      rational resampler. */
  class RatioChannel {
    const base: Channel
    const rational: R.Rational
    var inputSamples: nat
    var outputSamples: nat

    ghost predicate Wired() {
      && base.Configured() && rational.Configured()
      && rational.hist != base.r1 && rational.hist != base.r2
    }

    ghost function Meaning(x: seq<C>): seq<C>
      requires Wired()
    {
      R.Resample(rational.r, rational.table, base.Meaning(x))
    }

    ghost predicate After(x: seq<C>)
      reads this, base, base.r1, base.r2, rational, rational.hist
    {
      && Wired() && base.Taken(x) && rational.After(base.Meaning(x))
      && inputSamples == |x| && outputSamples == |Meaning(x)|
    }

    constructor (base: Channel, rational: R.Rational)
      requires base.After([]) && rational.After([])
      requires rational.hist != base.r1 && rational.hist != base.r2
      ensures this.base == base && this.rational == rational && After([])
    {
      this.base, this.rational := base, rational;
      inputSamples, outputSamples := 0, 0;
      new;
      NothingYet(base.d1, base.d2);
      R.NoOutputsYet(rational.r);
    }

    /** channel_process with an adapter. The size check knows the base decimation
        only; the adapter panics when the packet gives more outputs than there is room
        for, which a caller can compute before the call. */
    method Process(iq: seq<C>, out: array<C>, ghost x: seq<C>) returns (code: int, panics: bool)
      requires After(x) && out != base.r1 && out != base.r2 && out != rational.hist && out.Length <= MAX_ROOM
      modifies this, base`osc, base`phase1, base`phase2, base`pos1, base`pos2, base.r1, base.r2
      modifies rational`pos, rational`inputIndex, rational`nextWhole, rational`nextRemainder, rational.hist, out
      ensures base.d1 * base.d2 > 0
      ensures code == -1 <==> |iq| > MAX_PACKET || out.Length < Capacity(|iq|, base.d1 * base.d2)
      ensures code == -1 ==> After(x) && out[..] == old(out[..]) && !panics
      ensures code != -1 ==>
                (panics <==> |R.Resample(rational.r, rational.table, base.Meaning(x + iq))|
                             > |R.Resample(rational.r, rational.table, base.Meaning(x))| + out.Length)
      ensures code != -1 && !panics ==> After(x + iq) && 0 <= code <= out.Length
      ensures code != -1 && !panics ==> Meaning(x + iq) == Meaning(x) + out[..code]
    {
      MulMono(1, base.d1, base.d2);
      hide Ring, Stage, ActsAs, FirAt, TwoStage, R.Resample, R.Emitted, Channel.Taken, R.Rational.After, Mixed;
      panics := false;
      if |iq| > 65536 || out.Length < |iq| / (base.d1 * base.d2) + 2 { return -1, false; }
      DivGe(|iq|, base.d1 * base.d2, 0);
      var intermediate := new C[|iq| / (base.d1 * base.d2) + 2](_ => Zero);
      var produced := base.Produce(iq, intermediate, x);
      var count;
      count, panics := Adapt(rational, intermediate[..produced], out, base.Meaning(x));
      if panics { return 0, true; }
      inputSamples := inputSamples + |iq|;
      outputSamples := outputSamples + count;
      code := count;
    }
  }

  lemma NothingYet(d1: nat, d2: nat)
    requires d1 > 0 && d2 > 0
    ensures d1 * d2 > 0 && 0 % d1 == 0 && 0 % d2 == 0 && 0 / d1 == 0 && 0 / d2 == 0 && 0 / (d1 * d2) == 0
  {
    MulMono(1, d1, d2);
    DivModUnique(0, d1, 0, 0);
    DivModUnique(0, d2, 0, 0);
    DivModUnique(0, d1 * d2, 0, 0);
  }

  // ------------------------------------------------- first-stage geometry

  ghost predicate Quantum(q: nat) { q in {1, 2, 4, 8, 16, 32, 64, 128, 256, 512, 1024} }

  ghost predicate InBand(fs: real, q: nat)
    requires q > 0
  {
    800000.0 <= fs / q as real <= 1250000.0
  }

  lemma Halved(fs: real, q: nat)
    requires q > 0
    ensures fs / (q * 2) as real == fs / q as real / 2.0
  {
    HalvedReal(fs, q as real);
  }

  lemma HalvedReal(fs: real, q: real)
    requires q > 0.0
    ensures fs / (q * 2.0) == fs / q / 2.0
  {
    var a := fs / q;
    assert a * q == fs;
    assert (a / 2.0) * (q * 2.0) == a * q;
  }

  lemma Slower(fs: real, a: nat, b: nat)
    requires fs > 0.0 && 0 < a <= b
    ensures fs / b as real <= fs / a as real
  {
    SlowerReal(fs, a as real, b as real);
  }

  lemma SlowerReal(fs: real, a: real, b: real)
    requires fs > 0.0 && 0.0 < a <= b
    ensures fs / b <= fs / a
  {
    var x, y := fs / a, fs / b;
    assert x * a == fs == y * b;
    if y > x {
      assert y * b >= y * a;
      assert (y - x) * a > 0.0;
    }
  }

  /** The quantum search finds the power of two that brings the rate to about one
      megasample, and answers zero exactly when there is none up to 1024. */
  method ChannelQuantum(fs: real) returns (d1: nat)
    ensures d1 > 0 ==> Quantum(d1) && InBand(fs, d1)
    ensures d1 == 0 ==> forall q :: Quantum(q) ==> !InBand(fs, q)
  {
    if fs <= 0.0 {
      forall q: nat | Quantum(q)
        ensures !InBand(fs, q)
      {
        assert fs / q as real <= 0.0;
      }
      return 0;
    }
    var d := 1;
    while fs / (d * 2) as real >= 800000.0 && d < 1024
      invariant Quantum(d) && (d > 1 ==> fs / d as real >= 800000.0)
      decreases 1024 - d
    {
      d := d * 2;
    }
    if 800000.0 <= fs / d as real <= 1250000.0 { return d; }
    forall q: nat | Quantum(q)
      ensures !InBand(fs, q)
    {
      Halved(fs, d);
      if q < d {
        Slower(fs, q, d / 2);
        Halved(fs, d / 2);
        assert d == d / 2 * 2;
      } else if q > d {
        Slower(fs, d * 2, q);
      }
    }
    d1 := 0;
  }
}

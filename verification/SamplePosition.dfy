/** Exact capture coordinates: a whole sample index and a proper fraction. */
module SamplePosition {
  import opened Arith
  import opened Channelizer
  import opened ClockRate
  import R = Rational

  datatype Position = Position(index: nat, num: nat, den: nat) {
    predicate Proper() { num < den }
  }

  // --------------------------------------------------------- exact values

  function Fraction(n: int, d: int): real
    requires d > 0
  {
    n as real / d as real
  }

  function Value(p: Position): real
    requires p.Proper()
  {
    p.index as real + Fraction(p.num, p.den)
  }

  function RateValue(rate: F64): real { Fraction(rate.Num(), rate.Den()) }

  /** Source samples that pass during `frames` frames at rate `pcm`. */
  function Elapsed(frames: nat, source: F64, pcm: nat): real
    requires pcm > 0
  {
    frames as real * RateValue(source) / pcm as real
  }

  lemma TimesBack(n: real, d: real)
    requires d > 0.0
    ensures n / d * d == n
  {
  }

  lemma QuotientIs(q: real, n: real, d: real)
    requires d > 0.0 && q * d == n
    ensures n / d == q
  {
  }

  lemma FractionEq(a: int, b: int, c: int, d: int)
    requires b > 0 && d > 0 && a * d == c * b
    ensures Fraction(a, b) == Fraction(c, d)
  {
    CrossEq(a as real, b as real, c as real, d as real);
  }

  lemma CrossEq(a: real, b: real, c: real, d: real)
    requires b > 0.0 && d > 0.0 && a * d == c * b
    ensures a / b == c / d
  {
    var q := c / d;
    TimesBack(c, d);
    assert (q * b) * d == a * d by { assert (q * b) * d == (q * d) * b; }
    CancelReal(q * b, a, d);
    QuotientIs(q, a, b);
  }

  lemma CancelReal(x: real, y: real, d: real)
    requires d > 0.0 && x * d == y * d
    ensures x == y
  {
    assert (x - y) * d == 0.0;
  }

  /** Equal fractions cross-multiply to equal products. */
  lemma FractionCross(a: int, b: int, c: int, d: int)
    requires b > 0 && d > 0 && Fraction(a, b) == Fraction(c, d)
    ensures a * d == c * b
  {
    var q := Fraction(a, b);
    TimesBack(a as real, b as real);
    TimesBack(c as real, d as real);
    Exchange(q, b as real, d as real);
    assert (a * d) as real == (c * b) as real;
  }

  lemma Exchange(q: real, b: real, d: real)
    ensures (q * b) * d == (q * d) * b
  {
  }

  lemma FractionWhole(w: int, r: int, d: int)
    requires d > 0
    ensures Fraction(w * d + r, d) == w as real + Fraction(r, d)
  {
    TimesBack(r as real, d as real);
    SpreadFraction(w as real, Fraction(r, d), d as real);
    QuotientIs(w as real + Fraction(r, d), (w * d + r) as real, d as real);
  }

  lemma SpreadFraction(a: real, b: real, d: real)
    ensures (a + b) * d == a * d + b * d
  {
  }

  lemma FractionPlus(a: int, c: int, d: int)
    requires d > 0
    ensures Fraction(a, d) + Fraction(c, d) == Fraction(a + c, d)
  {
    TimesBack(a as real, d as real);
    TimesBack(c as real, d as real);
    SpreadFraction(Fraction(a, d), Fraction(c, d), d as real);
    QuotientIs(Fraction(a, d) + Fraction(c, d), (a + c) as real, d as real);
  }

  lemma FractionRange(n: nat, d: nat)
    requires n < d
    ensures 0.0 <= Fraction(n, d) < 1.0
  {
    TimesBack(n as real, d as real);
    UnitRange(Fraction(n, d), n as real, d as real);
  }

  lemma SignOf(a: real, d: real)
    requires d > 0.0
    ensures (a * d >= 0.0 ==> a >= 0.0) && (a * d > 0.0 ==> a > 0.0)
  {
  }

  lemma UnitRange(q: real, n: real, d: real)
    requires d > 0.0 && q * d == n && 0.0 <= n < d
    ensures 0.0 <= q < 1.0
  {
    assert (q - 1.0) * d == n - d;
    SignOf(q, d);
    SignOf(1.0 - q, d);
  }

  /** The elapsed source samples as one fraction of naturals. */
  lemma ElapsedFraction(frames: nat, source: F64, pcm: nat, num: nat, den: nat)
    requires pcm > 0 && den > 0 && num * source.Den() == source.Num() * den
    ensures pcm * den > 0
    ensures Elapsed(frames, source, pcm) == Fraction(frames * num, pcm * den)
  {
    MulMono(1, pcm, den);
    FractionEq(num, den, source.Num(), source.Den());
    ScaleFraction(frames as real, num as real, den as real, pcm as real);
  }

  lemma ScaleFraction(f: real, n: real, d: real, p: real)
    requires d > 0.0 && p > 0.0
    ensures p * d > 0.0 && f * (n / d) / p == (f * n) / (p * d)
  {
    var q := n / d;
    TimesBack(n, d);
    var e := f * q / p;
    TimesBack(f * q, p);
    assert e * (p * d) == (e * p) * d;
    assert (f * q) * d == f * (q * d);
    QuotientIs(e, f * n, p * d);
  }

  lemma ElapsedAdds(a: nat, b: nat, source: F64, pcm: nat)
    requires pcm > 0
    ensures Elapsed(a + b, source, pcm) == Elapsed(a, source, pcm) + Elapsed(b, source, pcm)
  {
    SumOver(a as real, b as real, RateValue(source), pcm as real);
  }

  lemma SumOver(a: real, b: real, r: real, p: real)
    requires p > 0.0
    ensures (a + b) * r / p == a * r / p + b * r / p
  {
    SpreadFraction(a, b, r);
    TimesBack(a * r, p);
    TimesBack(b * r, p);
    SpreadFraction(a * r / p, b * r / p, p);
    QuotientIs(a * r / p + b * r / p, (a + b) * r, p);
  }

  // ------------------------------------------------------- what is returned

  ghost predicate IsPositionAt(origin: nat, frames: nat, source: F64, pcm: nat, p: Position) {
    pcm > 0 && p.Proper() && Value(p) == origin as real + Elapsed(frames, source, pcm)
  }

  /** The three fields fit 64-bit words. */
  predicate Fits64(p: Position) { p.index < CLOCK && p.num < CLOCK && p.den < CLOCK }

  ghost predicate IsAdvance(p: Position, frames: nat, source: F64, pcm: nat, q: Position) {
    && p.Proper() && pcm > 0 && q.Proper() && Coprime(q.num, q.den)
    && Value(q) == Value(p) + Elapsed(frames, source, pcm)
  }

  lemma SplitValue(p: Position, q: Position)
    requires p.Proper() && q.Proper() && Value(p) == Value(q)
    ensures p.index == q.index && Fraction(p.num, p.den) == Fraction(q.num, q.den)
  {
    FractionRange(p.num, p.den);
    FractionRange(q.num, q.den);
  }

  /** A reduced position is determined by its value. */
  lemma ReducedUnique(p: Position, q: Position)
    requires p.Proper() && q.Proper() && Value(p) == Value(q)
    requires Coprime(p.num, p.den) && Coprime(q.num, q.den)
    ensures p == q
  {
    SplitValue(p, q);
    FractionCross(p.num, p.den, q.num, q.den);
    LowestTermsUnique(p.num, p.den, q.num, q.den);
  }

  /** Advancing by a and then by b is advancing by a + b. */
  lemma AdvanceComposes(p: Position, q: Position, r: Position, s: Position,
                        a: nat, b: nat, source: F64, pcm: nat)
    requires IsAdvance(p, a, source, pcm, q) && IsAdvance(q, b, source, pcm, r)
    requires IsAdvance(p, a + b, source, pcm, s)
    ensures r == s
  {
    ElapsedAdds(a, b, source, pcm);
    ReducedUnique(r, s);
  }

  /** Advancing a position is positioning at the sum: the same whole sample, and
      the same fraction in lowest terms. */
  lemma AdvanceIsPosition(origin: nat, p: Position, q: Position, s: Position,
                          a: nat, b: nat, source: F64, pcm: nat)
    requires IsPositionAt(origin, a, source, pcm, p) && IsAdvance(p, b, source, pcm, q)
    requires IsPositionAt(origin, a + b, source, pcm, s)
    ensures q.index == s.index && q.num * s.den == s.num * q.den
  {
    ElapsedAdds(a, b, source, pcm);
    SplitValue(q, s);
    FractionCross(q.num, q.den, s.num, s.den);
  }

  // ----------------------------------------------------------- operations

  lemma WholeAndRest(numerator: nat, denominator: nat)
    requires denominator > 0
    ensures numerator / denominator >= 0
    ensures Fraction(numerator, denominator)
            == (numerator / denominator) as real + Fraction(numerator % denominator, denominator)
  {
    DivGe(numerator, denominator, 0);
    assert numerator == (numerator / denominator) * denominator + numerator % denominator;
    FractionWhole(numerator / denominator, numerator % denominator, denominator);
  }

  function ClockNum(rate: F64): nat { Lowest(rate.Num(), rate.Den()).up }
  function ClockDen(rate: F64): nat { Lowest(rate.Num(), rate.Den()).down }

  /** The rate is in range, and the denominator and the index fit 64-bit words. */
  predicate Positionable(origin: nat, source: F64, frames: nat, rate: nat) {
    && InClockRange(source) && 0 < rate * ClockDen(source) < CLOCK
    && origin + frames * ClockNum(source) / (rate * ClockDen(source)) < CLOCK
  }

  method TryPositionAt(origin: nat, source: F64, frames: nat, rate: nat) returns (p: Option<Position>)
    requires source.Valid() && origin < CLOCK && frames < CLOCK && rate < 0x1_0000_0000
    ensures p.Some? ==> IsPositionAt(origin, frames, source, rate, p.value)
    ensures p.Some? <==> Positionable(origin, source, frames, rate)
  {
    var ratio := ClockRatio(source);
    if ratio.None? { return None; }
    var (num, den) := ratio.value;
    LowestIs(source.Num(), source.Den(), num, den);
    var numerator := frames * num;
    MulMono(0, frames, num);
    MulMono(0, rate, den);
    var d := rate * den;
    if d >= CLOCK || d == 0 { return None; }
    DivGe(numerator, d, 0);
    var whole := numerator / d;
    if whole >= CLOCK { return None; }
    if origin + whole >= CLOCK { return None; }
    p := Some(Position(origin + whole, numerator % d, d));
    if rate == 0 { assert false; }
    ElapsedFraction(frames, source, rate, num, den);
    WholeAndRest(numerator, d);
  }

  /** s is base + numerator / denominator, its fraction in lowest terms. */
  ghost predicate IsReduced(base: nat, numerator: nat, denominator: nat, s: Position)
    requires denominator > 0
  {
    && s.Proper() && Coprime(s.num, s.den)
    && Value(s) == base as real + Fraction(numerator, denominator)
  }

  /** The whole part added to base, and the reduced denominator, fit 64-bit words. */
  predicate ReducedFits(base: nat, numerator: nat, denominator: nat) {
    && denominator > 0 && base + numerator / denominator < CLOCK
    && denominator / Gcd(numerator % denominator, denominator) < CLOCK
  }

  /** What checked_advance and decoder_position do last: split off whole samples
      and reduce the rest. It fails exactly when the reduced result does not fit. */
  method Reduced(base: nat, numerator: nat, denominator: nat) returns (p: Option<Position>)
    requires denominator > 0 && base < CLOCK
    ensures p.Some? <==> ReducedFits(base, numerator, denominator)
    ensures p.Some? ==> IsReduced(base, numerator, denominator, p.value) && Fits64(p.value)
    ensures p.None? ==> forall s :: IsReduced(base, numerator, denominator, s) ==> !Fits64(s)
  {
    WholeAndRest(numerator, denominator);
    var whole := numerator / denominator;
    var rest := numerator % denominator;
    var common := GcdLoop(rest, denominator);
    GcdReduce(rest, denominator);
    DividesElim(common, rest);
    DividesElim(common, denominator);
    var num, den := rest / common, denominator / common;
    QuotientPositive(denominator, common);
    ReducedFraction(rest, denominator, num, den, common);
    var exact := Position(base + whole, num, den);
    forall s | IsReduced(base, numerator, denominator, s)
      ensures s == exact
    {
      ReducedUnique(s, exact);
    }
    if whole >= CLOCK { return None; }
    if base + whole >= CLOCK || num >= CLOCK || den >= CLOCK { return None; }
    p := Some(exact);
  }

  lemma ReducedFraction(rest: nat, denominator: nat, num: nat, den: nat, g: nat)
    requires rest < denominator && den > 0 && g > 0 && rest == num * g && denominator == den * g
    ensures num < den && Fraction(num, den) == Fraction(rest, denominator)
  {
    if num >= den { MulMono(den, num, g); }
    assert num * (den * g) == (num * g) * den;
    FractionEq(num, den, rest, denominator);
  }

  /** The 128-bit intermediate results of checked_advance do not overflow. */
  predicate StepFits(p: Position, frames: nat, source: F64, pcm: nat) {
    var stepDen := pcm * ClockDen(source);
    var g := Gcd(p.den, stepDen);
    && g > 0 && p.den / g * stepDen < R.U128
    && p.num * (stepDen / g) + frames * ClockNum(source) * (p.den / g) < R.U128
  }

  /** checked_advance returns the exact position, and fails exactly when its
      arguments are unusable, 128 bits are too few, or that position does not fit. */
  method CheckedAdvance(p: Position, frames: nat, source: F64, pcm: nat) returns (q: Option<Position>)
    requires source.Valid() && frames < CLOCK && pcm < 0x1_0000_0000
    requires p.index < CLOCK && p.num < CLOCK && p.den < CLOCK
    ensures q.Some? ==> IsAdvance(p, frames, source, pcm, q.value) && Fits64(q.value)
    ensures q.Some? ==> p.Proper() && pcm > 0 && InClockRange(source) && StepFits(p, frames, source, pcm)
    ensures q.None? && p.Proper() && pcm > 0 && InClockRange(source) && StepFits(p, frames, source, pcm) ==>
              forall s :: IsAdvance(p, frames, source, pcm, s) ==> !Fits64(s)
  {
    if p.den == 0 || p.num >= p.den || pcm == 0 { return None; }
    var ratio := ClockRatio(source);
    if ratio.None? { return None; }
    var (num, den) := ratio.value;
    LowestIs(source.Num(), source.Den(), num, den);
    var stepNum := frames * num;
    var stepDen := pcm * den;
    MulMono(0, frames, num);
    MulMono(1, pcm, den);
    var common := GcdLoop(p.den, stepDen);
    GcdReduce(p.den, stepDen);
    DividesElim(common, p.den);
    DividesElim(common, stepDen);
    QuotientPositive(p.den, common);
    QuotientPositive(stepDen, common);
    var a: nat, b: nat := p.den / common, stepDen / common;
    NonNegative(a, stepDen);
    NonNegative(p.num, b);
    NonNegative(stepNum, a);
    MulMono(1, a, stepDen);
    var denominator := a * stepDen;
    if denominator >= R.U128 || p.num * b >= R.U128 || stepNum * a >= R.U128
       || p.num * b + stepNum * a >= R.U128 {
      return None;
    }
    var numerator := p.num * b + stepNum * a;
    CommonDenominator(p.num, p.den, stepNum, stepDen, a, b, common);
    ElapsedFraction(frames, source, pcm, num, den);
    forall s | IsAdvance(p, frames, source, pcm, s)
      ensures IsReduced(p.index, numerator, denominator, s)
    {
    }
    q := Reduced(p.index, numerator, denominator);
  }

  lemma NonNegative(a: int, b: int)
    requires a >= 0 && b >= 0
    ensures a * b >= 0
  {
  }

  /** Adding over the least common denominator is adding. */
  lemma CommonDenominator(n: nat, d: nat, m: nat, e: nat, a: nat, b: nat, g: nat)
    requires d > 0 && e > 0 && g > 0 && a > 0 && b > 0 && d == a * g && e == b * g
    ensures a * e > 0 && Fraction(n * b + m * a, a * e) == Fraction(n, d) + Fraction(m, e)
  {
    MulMono(1, a, e);
    FractionEq(n, d, n * b, a * e) by {
      assert n * (a * (b * g)) == (n * b) * (a * g);
    }
    FractionEq(m, e, m * a, a * e) by {
      assert m * (a * e) == (m * a) * e;
    }
    FractionPlus(n * b, m * a, a * e);
  }

  /** Capture samples that pass during `index` samples at rate `input`. */
  function InputOffset(capture: F64, index: nat, input: F64): real
    requires RateValue(input) > 0.0
  {
    index as real * RateValue(capture) / RateValue(input)
  }

  /** s is the reduced capture coordinate of sample `index` at rate `input`. */
  ghost predicate IsInputPosition(origin: nat, capture: F64, index: nat, input: F64, s: Position) {
    && s.Proper() && Coprime(s.num, s.den) && RateValue(input) > 0.0
    && Value(s) == origin as real + InputOffset(capture, index, input)
  }

  /** Both rates are in range and the products of their terms fit 128 bits. */
  predicate ProductsFit(capture: F64, index: nat, input: F64) {
    && InClockRange(capture) && InClockRange(input)
    && index * ClockNum(capture) * ClockDen(input) < R.U128 && ClockDen(capture) * ClockNum(input) < R.U128
  }

  function Product(a: nat, b: nat): nat {
    NonNegative(a, b);
    a * b
  }

  /** The products fit 128 bits, and the reduced coordinate fits 64-bit words. */
  predicate InputPositionable(origin: nat, capture: F64, index: nat, input: F64) {
    && ProductsFit(capture, index, input)
    && ReducedFits(origin, Product(Product(index, ClockNum(capture)), ClockDen(input)),
                   Product(ClockDen(capture), ClockNum(input)))
  }

  /** decoder_position: behind an adapter the coordinate of a decoder frame is the
      coordinate of the adapter input that made it available. */
  method DecoderPosition(origin: nat, capture: F64, frames: nat, decoderRate: nat,
                         input: F64, adapter: Option<R.Rate>) returns (p: Option<Position>)
    requires capture.Valid() && input.Valid() && origin < CLOCK && frames < CLOCK && decoderRate < 0x1_0000_0000
    requires adapter.Some? ==> adapter.value.Valid()
    ensures p.Some? && adapter.None? ==> IsPositionAt(origin, frames, capture, decoderRate, p.value)
    ensures adapter.None? ==> (p.Some? <==> Positionable(origin, capture, frames, decoderRate))
    ensures adapter.Some? ==> R.Causal(adapter.value, frames) >= 0
    ensures p.Some? && adapter.Some? ==>
              IsInputPosition(origin, capture, R.Causal(adapter.value, frames), input, p.value)
    ensures p.Some? && adapter.Some? ==>
              R.Causal(adapter.value, frames) < CLOCK && ProductsFit(capture, R.Causal(adapter.value, frames), input)
              && Fits64(p.value)
    ensures adapter.Some? ==>
              (p.Some? <==> R.Causal(adapter.value, frames) < CLOCK
                            && InputPositionable(origin, capture, R.Causal(adapter.value, frames), input))
    ensures p.None? && adapter.Some? && R.Causal(adapter.value, frames) < CLOCK
            && ProductsFit(capture, R.Causal(adapter.value, frames), input) ==>
              forall s :: IsInputPosition(origin, capture, R.Causal(adapter.value, frames), input, s) ==> !Fits64(s)
  {
    hide R.Causal, Value, Lowest, RateValue, InClockRange, IsInputPosition, ProductsFit, Positionable,
         InputPositionable;
    if adapter.None? {
      p := TryPositionAt(origin, capture, frames, decoderRate);
      return;
    }
    R.CausalPositive(adapter.value, frames);
    var index := R.CausalInputIndex(adapter.value, frames);
    if index.None? { return None; }
    p := PositionOfInput(origin, capture, index.value, input);
  }

  /** The capture coordinate of one sample of the stream at rate `input`. */
  method PositionOfInput(origin: nat, capture: F64, index: nat, input: F64) returns (p: Option<Position>)
    requires capture.Valid() && input.Valid() && origin < CLOCK
    ensures p.Some? ==> IsInputPosition(origin, capture, index, input, p.value) && Fits64(p.value)
    ensures p.Some? <==> InputPositionable(origin, capture, index, input)
    ensures p.Some? ==> ProductsFit(capture, index, input)
    ensures p.None? && ProductsFit(capture, index, input) ==>
              forall s :: IsInputPosition(origin, capture, index, input, s) ==> !Fits64(s)
  {
    hide Lowest, IsInputPosition, IsReduced, InClockRange, Fraction, ReducedFits;
    var captureRatio := ClockRatio(capture);
    if captureRatio.None? { return None; }
    var inputRatio := ClockRatio(input);
    if inputRatio.None? { return None; }
    var (captureNum, captureDen) := captureRatio.value;
    var (inputNum, inputDen) := inputRatio.value;
    LowestIs(capture.Num(), capture.Den(), captureNum, captureDen);
    LowestIs(input.Num(), input.Den(), inputNum, inputDen);
    NonNegative(index, captureNum);
    NonNegative(index * captureNum, inputDen);
    MulMono(1, captureDen, inputNum);
    MulMono(1, inputDen, index * captureNum);
    var numerator := index * captureNum * inputDen;
    var denominator := captureDen * inputNum;
    if index * captureNum >= R.U128 || numerator >= R.U128 || denominator >= R.U128 { return None; }
    InputIsReduced(origin, capture, index, input, captureNum, captureDen, inputNum, inputDen);
    p := Reduced(origin, numerator, denominator);
  }

  lemma InputIsReduced(origin: nat, capture: F64, index: nat, input: F64, cn: nat, cd: nat, n: nat, d: nat)
    requires cn > 0 && cd > 0 && n > 0 && d > 0 && index * cn * d >= 0 && cd * n > 0
    requires cn * capture.Den() == capture.Num() * cd && n * input.Den() == input.Num() * d
    ensures forall s :: IsReduced(origin, index * cn * d, cd * n, s) <==>
                        IsInputPosition(origin, capture, index, input, s)
  {
    hide RateValue, Fraction, Coprime, Value, InputOffset;
    OffsetIs(capture, index, input, cn, cd, n, d);
  }

  lemma OffsetIs(capture: F64, index: nat, input: F64, cn: nat, cd: nat, n: nat, d: nat)
    requires cn > 0 && cd > 0 && n > 0 && d > 0 && cd * n > 0
    requires cn * capture.Den() == capture.Num() * cd && n * input.Den() == input.Num() * d
    ensures RateValue(input) > 0.0
    ensures InputOffset(capture, index, input) == Fraction(index * cn * d, cd * n)
  {
    hide RateValue, Fraction;
    IsRate(capture, cn, cd);
    IsRate(input, n, d);
    OverRates(index, cn, cd, n, d);
  }

  lemma OverRates(index: nat, cn: nat, cd: nat, n: nat, d: nat)
    requires cn > 0 && cd > 0 && n > 0 && d > 0
    ensures Fraction(n, d) > 0.0 && cd * n > 0
    ensures Fraction(index * cn * d, cd * n) == index as real * Fraction(cn, cd) / Fraction(n, d)
  {
    MulMono(1, cd, n);
    RateOverRate(index as real, cn as real, cd as real, n as real, d as real);
    assert (cd * n) as real == cd as real * n as real by { ProductAsReal(cd, n); }
    assert (index * cn * d) as real == index as real * cn as real * d as real by {
      ProductAsReal(index, cn);
      ProductAsReal(index * cn, d);
    }
  }

  lemma ProductAsReal(a: int, b: int)
    ensures (a * b) as real == a as real * b as real
  {
  }

  lemma IsRate(rate: F64, num: nat, den: nat)
    requires den > 0 && num * rate.Den() == rate.Num() * den
    ensures RateValue(rate) == Fraction(num, den)
  {
    FractionEq(num, den, rate.Num(), rate.Den());
  }

  lemma RateOverRate(k: real, cn: real, cd: real, n: real, d: real)
    requires cd > 0.0 && n > 0.0 && d > 0.0
    ensures n / d > 0.0 && cd * n > 0.0
    ensures k * (cn / cd) / (n / d) == (k * cn * d) / (cd * n)
  {
    var c, r := cn / cd, n / d;
    TimesBack(cn, cd);
    TimesBack(n, d);
    PositiveQuotient(n, d);
    var e := k * c / r;
    TimesBack(k * c, r);
    // e * r == k * c, r * d == n, c * cd == cn
    assert e * (cd * n) == (e * r) * (cd * d) by { Four(e, cd, r, d); }
    assert (k * c) * (cd * d) == k * cn * d by { Four2(k, c, cd, d); }
    QuotientIs(e, k * cn * d, cd * n);
  }

  lemma PositiveQuotient(n: real, d: real)
    requires n > 0.0 && d > 0.0
    ensures n / d > 0.0
  {
  }

  lemma Four(e: real, cd: real, r: real, d: real)
    ensures e * (cd * (r * d)) == (e * r) * (cd * d)
  {
    assert cd * (r * d) == r * (cd * d);
    assert e * (r * (cd * d)) == (e * r) * (cd * d);
  }

  lemma Four2(k: real, c: real, cd: real, d: real)
    ensures (k * c) * (cd * d) == k * (c * cd) * d
  {
    assert (k * c) * (cd * d) == ((k * c) * cd) * d;
    assert (k * c) * cd == k * (c * cd);
  }

  // -------------------------------------------------- a coordinate past the end

  /** The terms of a clock rate give its value. */
  lemma ClockTerms(rate: F64)
    requires InClockRange(rate)
    ensures ClockNum(rate) > 0 && ClockDen(rate) > 0
    ensures ClockNum(rate) * rate.Den() == rate.Num() * ClockDen(rate)
  {
    var p, q := rate.Num(), rate.Den();
    var g := Gcd(p, q);
    GcdReduce(p, q);
    DividesElim(g, p);
    DividesElim(g, q);
    QuotientPositive(p, g);
    QuotientPositive(q, g);
    SameTerms(p / g, q / g, g, p, q);
  }

  lemma SameTerms(a: int, b: int, g: int, p: int, q: int)
    requires p == a * g && q == b * g
    ensures a * q == p * b
  {
  }

  /** Behind an adapter that does not speed the capture clock up, an input sample lies at
      least its own number of capture samples after the origin. */
  lemma PastEnd(origin: nat, capture: F64, index: nat, input: F64)
    requires InClockRange(capture) && InClockRange(input) && origin + index >= CLOCK
    requires capture.Num() * input.Den() >= input.Num() * capture.Den()
    ensures !InputPositionable(origin, capture, index, input)
  {
    ClockTerms(capture);
    ClockTerms(input);
    var cn, cd, n, d := ClockNum(capture), ClockDen(capture), ClockNum(input), ClockDen(input);
    CrossTerms(cn, cd, n, d, capture.Num(), capture.Den(), input.Num(), input.Den());
    hide ClockNum, ClockDen;
    Outruns(cn, cd, n, d, index);
  }

  lemma Outruns(cn: nat, cd: nat, n: nat, d: nat, index: nat)
    requires cd > 0 && n > 0 && cn * d >= cd * n
    ensures cd * n > 0 && index * cn * d / (cd * n) >= index
  {
    MulMono(1, cd, n);
    MulMono(cd * n, cn * d, index);
    assert index * cn * d == (cn * d) * index;
    assert index * (cd * n) == (cd * n) * index;
    DivGe(index * cn * d, cd * n, index);
  }

  lemma CrossTerms(cn: nat, cd: nat, n: nat, d: nat, p: nat, q: nat, u: nat, v: nat)
    requires q > 0 && v > 0 && cn * q == p * cd && n * v == u * d && p * v >= u * q
    ensures cn * d >= cd * n
  {
    MulMono(1, q, v);
    Regroup(cn, d, q, v);
    Regroup(cd, n, q, v);
    Regroup2(p, cd, d, v);
    Regroup2(u, d, cd, q);
    R.NonNegative(cd, d);
    MulMono(u * q, p * v, cd * d);
    CancelLe(cd * n, cn * d, q * v);
  }

  lemma CancelLe(a: int, b: int, k: int)
    requires k > 0 && a * k <= b * k
    ensures a <= b
  {
    if a > b { MulMono(b + 1, a, k); }
  }

  lemma Regroup(a: int, b: int, c: int, d: int)
    ensures (a * b) * (c * d) == (a * c) * (b * d)
  {
    assert (a * b) * (c * d) == a * (b * (c * d)) == a * (c * (b * d));
  }

  lemma Regroup2(a: int, b: int, c: int, d: int)
    ensures (a * b) * (c * d) == (b * c) * (a * d)
    ensures (c * d) * (a * b) == (b * c) * (a * d)
  {
    Regroup(b, a, c, d);
    assert a * b == b * a;
  }
}

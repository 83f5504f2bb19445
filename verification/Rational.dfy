/** The fractional-rate resampler: an exact output clock over a windowed
    interpolating filter. */
module Rational {
  import opened Arith
  import opened Complex
  import opened Fir
  import opened Channelizer

  const PHASES: nat := 256
  const MAX_RATIO_TERM: nat := (CLOCK - 1) / 2
  const U128: int := 0x1_0000_0000_0000_0000_0000_0000_0000_0000

  datatype Rate = Rate(up: nat, down: nat, taps: nat) {
    predicate Valid() {
      && 0 < up <= MAX_RATIO_TERM && 0 < down <= MAX_RATIO_TERM
      && 96 <= taps <= 16384 && taps % 8 == 0
    }
  }

  // ------------------------------------------------------ the output clock

  /** Output k in ticks of 1 / (2 up) input samples: its signal position
      k * down / up plus the filter delay (taps - 1) / 2. */
  function Ticks(r: Rate, k: int): int { 2 * (k * r.down) + (r.taps - 1) * r.up }

  /** The first input sample at which output k can be computed. */
  function Causal(r: Rate, k: int): int
    requires r.up > 0
  {
    CeilDiv(Ticks(r, k), 2 * r.up)
  }

  /** Outputs after n inputs. */
  function Emitted(r: Rate, n: int): (k: nat)
    requires r.down > 0
  {
    var room := (2 * (n - 1) - (r.taps - 1)) * r.up;
    if room < 0 then 0
    else
      DivGe(room, 2 * r.down, 0);
      room / (2 * r.down) + 1
  }

  /** Output k has been emitted exactly when its causal input has arrived. */
  lemma EmittedExactly(r: Rate, n: int, k: nat)
    requires r.up > 0 && r.down > 0
    ensures k < Emitted(r, n) <==> Causal(r, k) < n
  {
    var room := (2 * (n - 1) - (r.taps - 1)) * r.up;
    CeilDivLe(Ticks(r, k), 2 * r.up, n - 1);
    RoomTicks(n - 1, r.taps - 1, r.up);
    assert Causal(r, k) < n <==> 2 * (k * r.down) <= room;
    DivGe(room, 2 * r.down, k);
    assert k * (2 * r.down) == 2 * (k * r.down);
    NonNegative(k, r.down);
  }

  lemma RoomTicks(n: int, lag: int, up: int)
    ensures n * (2 * up) - lag * up == (2 * n - lag) * up
  {
  }

  lemma NonNegative(a: int, b: int)
    requires a >= 0 && b >= 0
    ensures a * b >= 0
  {
  }

  lemma EmittedMonotone(r: Rate, n: int, m: int)
    requires r.up > 0 && r.down > 0 && n <= m
    ensures Emitted(r, n) <= Emitted(r, m)
  {
    if Emitted(r, n) > 0 {
      EmittedExactly(r, n, Emitted(r, n) - 1);
      EmittedExactly(r, m, Emitted(r, n) - 1);
    }
  }

  lemma NoOutputsYet(r: Rate)
    requires r.Valid()
    ensures Emitted(r, 0) == 0
  {
    MulMono(2 * (0 - 1) - (r.taps - 1), -1, r.up);
  }

  /** A block of inputs gives at most the outputs that fit its length, and one more. */
  lemma BlockOutputs(r: Rate, n: nat, k: nat)
    requires r.up > 0 && r.down > 0
    ensures k * r.up / r.down >= 0
    ensures Emitted(r, n) <= Emitted(r, n + k) <= Emitted(r, n) + k * r.up / r.down + 1
  {
    var early := (2 * (n - 1) - (r.taps - 1)) * r.up;
    var room := k * r.up;
    NonNegative(k, r.up);
    DivGe(room, r.down, 0);
    EmittedMonotone(r, n, n + k);
    BlockTicks(n, k, r.taps - 1, r.up);
    RoomShare(early, room, r.down);
  }

  lemma BlockTicks(n: int, k: int, lag: int, up: int)
    ensures (2 * (n + k - 1) - lag) * up == (2 * (n - 1) - lag) * up + 2 * (k * up)
  {
  }

  lemma RoomShare(early: int, room: nat, down: nat)
    requires down > 0
    ensures var late := early + 2 * room;
            && late / (2 * down) <= early / (2 * down) + room / down + 1
            && (early < 0 ==> late / (2 * down) <= room / down)
  {
    var q := room / down;
    DivGe(room, down, q + 1);
    assert (q + 1) * (2 * down) == 2 * ((q + 1) * down);
    DivMono(early + 2 * room, early + (q + 1) * (2 * down), 2 * down);
    DivModShift(early, q + 1, 2 * down);
    if early < 0 { DivGe(early + 2 * room, 2 * down, q + 1); }
  }

  /** The causal index that the code compares with, from the split coordinate. */
  lemma TargetIsCausal(r: Rate, k: nat, whole: int, rest: int)
    requires r.Valid() && whole * r.up + rest == k * r.down
    ensures whole + (r.taps - 1) / 2 + CeilDiv(2 * rest + r.up, 2 * r.up) == Causal(r, k)
  {
    var half := (r.taps - 1) / 2;
    assert r.taps - 1 == 2 * half + 1;
    SplitTicks(whole, half, r.up, rest, k * r.down);
    CeilDivShift(2 * rest + r.up, whole + half, 2 * r.up);
  }

  lemma SplitTicks(whole: int, half: int, up: int, rest: int, position: int)
    requires whole * up + rest == position
    ensures 2 * position + (2 * half + 1) * up == 2 * rest + up + (whole + half) * (2 * up)
  {
  }

  /** The lag of the input sample behind the output position, in ticks. */
  function Lag(r: Rate, k: int): int
    requires r.up > 0
  {
    Causal(r, k) * (2 * r.up) - Ticks(r, k)
  }

  /** The lag the code computes at the causal sample: no unsigned underflow, and
      the phase row and its successor are both in the table. */
  lemma LagInTable(r: Rate, k: nat, whole: int, rest: int, n: int)
    requires r.Valid() && whole * r.up + rest == k * r.down && 0 <= rest && n == Causal(r, k)
    ensures 2 * (n - whole) - (r.taps - 1) >= 0
    ensures (2 * (n - whole) - (r.taps - 1)) * r.up - 2 * rest == Lag(r, k)
    ensures 0 <= Lag(r, k) < 2 * r.up
    ensures 0 <= Lag(r, k) * PHASES / (2 * r.up) <= PHASES - 1
  {
    var room := 2 * (n - whole) - (r.taps - 1);
    LagTicks(n, whole, r.taps - 1, r.up, rest, k * r.down);
    assert n * (2 * r.up) >= Ticks(r, k) > (n - 1) * (2 * r.up);
    if room < 0 { MulMono(room, -1, r.up); }
    DivGe(Lag(r, k) * PHASES, 2 * r.up, 0);
    DivGe(Lag(r, k) * PHASES, 2 * r.up, PHASES);
  }

  lemma LagTicks(n: int, whole: int, lag: int, up: int, rest: int, position: int)
    requires whole * up + rest == position
    ensures (2 * (n - whole) - lag) * up - 2 * rest == n * (2 * up) - (2 * position + lag * up)
    ensures n * (2 * up) - (n - 1) * (2 * up) == 2 * up
  {
    assert (2 * (n - whole) - lag) * up == 2 * (n * up) - 2 * (whole * up) - lag * up;
  }

  /** One output later. */
  lemma NextPosition(r: Rate, k: nat, whole: nat, rest: nat)
    requires r.up > 0 && r.down > 0 && rest < r.up && whole * r.up + rest == k * r.down
    ensures var w := whole + r.down / r.up;
            var e := rest + r.down % r.up;
            var w' := if e >= r.up then w + 1 else w;
            var e' := if e >= r.up then e - r.up else e;
            0 <= w && e' < r.up && w' * r.up + e' == (k + 1) * r.down
  {
    DivGe(r.down, r.up, 0);
    assert r.down == (r.down / r.up) * r.up + r.down % r.up;
    Advance(whole, r.down / r.up, r.up, k, r.down);
  }

  lemma Advance(whole: int, step: int, up: int, k: int, down: int)
    ensures (whole + step) * up == whole * up + step * up
    ensures (whole + step + 1) * up == whole * up + step * up + up
    ensures (k + 1) * down == k * down + down
  {
  }

  /** causal_input_index: the 64-bit answer, or an error exactly when the index
      does not fit 64 bits; the 128-bit intermediate checks add no other error. */
  method CausalInputIndex(r: Rate, k: nat) returns (index: Option<nat>)
    requires r.Valid() && k < CLOCK
    ensures index.Some? <==> Causal(r, k) < CLOCK
    ensures index.Some? ==> index.value == Causal(r, k)
  {
    NonNegative(k, r.down);
    NonNegative(r.taps - 1, r.up);
    CausalPositive(r, k);
    var ticks := k * r.down;
    if ticks >= U128 { TicksTooLarge(r, k); return None; }
    ticks := 2 * ticks;
    if ticks >= U128 { TicksTooLarge(r, k); return None; }
    ticks := ticks + (r.taps - 1) * r.up;
    if ticks >= U128 { TicksTooLarge(r, k); return None; }
    var n := CeilDiv(ticks, 2 * r.up);
    index := if n < CLOCK then Some(n) else None;
  }

  lemma CausalPositive(r: Rate, k: nat)
    requires r.Valid()
    ensures Causal(r, k) >= 0
  {
    NonNegative(k, r.down);
    NonNegative(r.taps - 1, r.up);
    CeilDivLe(Ticks(r, k), 2 * r.up, -1);
  }

  lemma TicksTooLarge(r: Rate, k: nat)
    requires r.Valid() && Ticks(r, k) >= U128
    ensures Causal(r, k) >= CLOCK
  {
    var n := Causal(r, k);
    if n < CLOCK { MulMono(n, CLOCK - 1, 2 * r.up); MulMono(2 * r.up, CLOCK, CLOCK - 1); }
  }

  // --------------------------------------------------------- the filter

  ghost predicate TableFor(r: Rate, table: seq<real>) { |table| == (PHASES + 1) * r.taps }

  ghost function Phase(r: Rate, k: int): int
    requires r.up > 0
  {
    Lag(r, k) * PHASES / (2 * r.up)
  }

  ghost function Blend(r: Rate, k: int): real
    requires r.up > 0
  {
    (Lag(r, k) * PHASES % (2 * r.up)) as real / (2 * r.up) as real
  }

  /** Coefficient j of output k: linear interpolation between two table rows. */
  ghost function Coefficient(r: Rate, table: seq<real>, k: int, j: int): real
    requires r.up > 0
  {
    var a := Tap(table, Phase(r, k) * r.taps + j);
    var b := Tap(table, (Phase(r, k) + 1) * r.taps + j);
    a + Blend(r, k) * (b - a)
  }

  ghost function OutputTerm(r: Rate, table: seq<real>, x: seq<C>, k: int, j: int): C
    requires r.up > 0
  {
    Scale(Coefficient(r, table, k, j), At(x, Causal(r, k) - r.taps + 1 + j))
  }

  /** Output k of the whole stream. */
  ghost function OutputAt(r: Rate, table: seq<real>, x: seq<C>, k: int): C
    requires r.up > 0
  {
    Sum(r.taps, j => OutputTerm(r, table, x, k, j))
  }

  /** What the resampler makes of a whole stream. */
  ghost function Resample(r: Rate, table: seq<real>, x: seq<C>): seq<C>
    requires r.up > 0 && r.down > 0
  {
    seq(Emitted(r, |x|), k => OutputAt(r, table, x, k))
  }

  /** How far output k lies behind the input sample that completes it, in input samples. */
  ghost function Behind(r: Rate, k: int): real
    requires r.up > 0
  {
    Causal(r, k) as real - (k * r.down) as real / r.up as real - (r.taps - 1) as real / 2.0
  }

  /** Every coefficient of the table is an affine function of the phase, one row being a
      256th of an input sample. */
  ghost predicate Affine(r: Rate, table: seq<real>, at: int -> real, slope: int -> real) {
    forall p, j :: 0 <= p <= PHASES && 0 <= j < r.taps ==>
      Cell(r, table, p, j) == at(j) + slope(j) * (p as real / 256.0)
  }

  ghost function Cell(r: Rate, table: seq<real>, p: int, j: int): real { Tap(table, p * r.taps + j) }

  /** Output k with every coefficient taken at exactly the output's own place. */
  ghost function AffineOutput(r: Rate, x: seq<C>, k: int, at: int -> real, slope: int -> real): C
    requires r.up > 0
  {
    Sum(r.taps, j => AffineTerm(r, x, k, at, slope, j))
  }

  ghost function AffineTerm(r: Rate, x: seq<C>, k: int, at: int -> real, slope: int -> real, j: int): C
    requires r.up > 0
  {
    Scale(at(j) + slope(j) * Behind(r, k), At(x, Causal(r, k) - r.taps + 1 + j))
  }

  /** Interpolation between the rows loses nothing of an affine table. */
  lemma AffineIsExact(r: Rate, table: seq<real>, x: seq<C>, k: nat, at: int -> real, slope: int -> real)
    requires r.Valid() && TableFor(r, table) && Affine(r, table, at, slope)
    ensures 0.0 <= Behind(r, k) < 1.0 && OutputAt(r, table, x, k) == AffineOutput(r, x, k, at, slope)
  {
    PlaceInRow(r, k);
    hide Behind, Phase, Blend, OutputTerm, AffineTerm;
    forall j: int | 0 <= j < r.taps
      ensures OutputTerm(r, table, x, k, j) == AffineTerm(r, x, k, at, slope, j)
    {
      AffineCoefficient(r, table, k, j, at, slope);
      SameTerm(r, table, x, k, j, at, slope);
    }
    SumEq(r.taps, j => OutputTerm(r, table, x, k, j), j => AffineTerm(r, x, k, at, slope, j));
  }

  lemma SameTerm(r: Rate, table: seq<real>, x: seq<C>, k: nat, j: int, at: int -> real, slope: int -> real)
    requires r.up > 0 && Coefficient(r, table, k, j) == at(j) + slope(j) * Behind(r, k)
    ensures OutputTerm(r, table, x, k, j) == AffineTerm(r, x, k, at, slope, j)
  {
    hide Coefficient, Behind, Causal;
  }

  /** On an affine table every value is the output with its exact coefficients. */
  ghost predicate Exact(r: Rate, table: seq<real>, x: seq<C>, first: nat, out: seq<C>)
    requires r.up > 0
  {
    forall i, at, slope :: 0 <= i < |out| && Affine(r, table, at, slope) ==>
      out[i] == AffineOutput(r, x, first + i, at, slope)
  }

  lemma OutputsExact(r: Rate, table: seq<real>, x: seq<C>, first: nat, out: seq<C>)
    requires r.Valid() && TableFor(r, table)
    requires forall i :: 0 <= i < |out| ==> out[i] == OutputAt(r, table, x, first + i)
    ensures Exact(r, table, x, first, out)
  {
    hide OutputAt, AffineOutput, Affine, TableFor, Behind, Causal;
    forall i, at, slope | 0 <= i < |out| && Affine(r, table, at, slope)
      ensures out[i] == AffineOutput(r, x, first + i, at, slope)
    {
      AffineIsExact(r, table, x, first + i, at, slope);
    }
  }

  /** Row and remainder together are the output's own place. */
  lemma PlaceInRow(r: Rate, k: nat)
    requires r.Valid()
    ensures 0 <= Phase(r, k) < PHASES && Phase(r, k) as real + Blend(r, k) == 256.0 * Behind(r, k)
    ensures 0.0 <= Behind(r, k) < 1.0
  {
    PhaseInTable(r, k);
    hide Lag, Behind, Phase, Blend, Causal, Ticks;
    BehindIsLag(r, k);
    PhaseAndBlend(r, k);
  }

  lemma PhaseInTable(r: Rate, k: nat)
    requires r.Valid()
    ensures 0 <= Lag(r, k) < 2 * r.up && 0 <= Phase(r, k) < PHASES
  {
    DivModOf(k * r.down, r.up);
    LagInTable(r, k, k * r.down / r.up, k * r.down % r.up, Causal(r, k));
  }

  lemma PhaseAndBlend(r: Rate, k: nat)
    requires r.up > 0 && Behind(r, k) * (2 * r.up) as real == Lag(r, k) as real
    ensures Phase(r, k) as real + Blend(r, k) == 256.0 * Behind(r, k)
  {
    hide Lag, Behind;
    PhaseAndRest(Lag(r, k), 2 * r.up, Behind(r, k));
  }

  lemma CoefficientIs(r: Rate, table: seq<real>, k: nat, j: int)
    requires r.up > 0
    ensures var a, b := Cell(r, table, Phase(r, k), j), Cell(r, table, Phase(r, k) + 1, j);
            Coefficient(r, table, k, j) == a + Blend(r, k) * (b - a)
  {
    hide Phase, Blend, Tap;
  }

  lemma DivModOf(n: nat, m: nat)
    requires m > 0
    ensures n / m >= 0 && n / m * m + n % m == n && 0 <= n % m < m
  {
    DivGe(n, m, 0);
  }

  lemma BehindIsLag(r: Rate, k: nat)
    requires r.Valid() && 0 <= Lag(r, k) < 2 * r.up
    ensures Behind(r, k) * (2 * r.up) as real == Lag(r, k) as real && 0.0 <= Behind(r, k) < 1.0
  {
    var n, up := Causal(r, k), r.up as real;
    hide Causal;
    TicksBehind(n, k * r.down, r.taps - 1, r.up);
    QuotientIn(Behind(r, k), (2 * r.up) as real, Lag(r, k) as real);
  }

  lemma TicksBehind(n: int, position: int, lag: int, up: int)
    requires up > 0
    ensures (n as real - position as real / up as real - lag as real / 2.0) * (2 * up) as real
            == (n * (2 * up) - (2 * position + lag * up)) as real
  {
    var u := up as real;
    assert position as real / u * u == position as real;
    assert (n * (2 * up)) as real == n as real * (2.0 * u);
    assert (lag * up) as real == lag as real * u;
  }

  lemma QuotientIn(b: real, n: real, lag: real)
    requires n > 0.0 && b * n == lag && 0.0 <= lag < n
    ensures 0.0 <= b < 1.0
  {
    OrderTimes(0.0, b, n);
    OrderTimes(1.0, b, n);
  }

  lemma OrderTimes(a: real, b: real, c: real)
    requires c > 0.0
    ensures a <= b <==> a * c <= b * c
  {
    if a < b { PositiveTimes(b - a, c); } else if b < a { PositiveTimes(a - b, c); }
  }

  lemma PositiveTimes(a: real, b: real)
    requires a > 0.0 && b > 0.0
    ensures a * b > 0.0
  {
  }

  lemma AffineCoefficient(r: Rate, table: seq<real>, k: nat, j: int, at: int -> real, slope: int -> real)
    requires r.up > 0 && Affine(r, table, at, slope) && 0 <= j < r.taps
    requires 0 <= Phase(r, k) < PHASES && Phase(r, k) as real + Blend(r, k) == 256.0 * Behind(r, k)
    ensures Coefficient(r, table, k, j) == at(j) + slope(j) * Behind(r, k)
  {
    hide Coefficient, Cell, Blend, Behind, Phase;
    CoefficientIs(r, table, k, j);
    Interpolated(at(j), slope(j), Phase(r, k), Blend(r, k), Behind(r, k));
  }

  lemma PhaseAndRest(lag: int, n: int, behind: real)
    requires n > 0 && behind * n as real == lag as real
    ensures (lag * 256 / n) as real + (lag * 256 % n) as real / n as real == 256.0 * behind
  {
    var p, rest, m := lag * 256 / n, lag * 256 % n, n as real;
    assert lag * 256 == p * n + rest;
    assert (p * n) as real == p as real * m;
    SameQuotient(p as real, rest as real, m, 256.0 * behind);
  }

  lemma SameQuotient(p: real, rest: real, m: real, x: real)
    requires m > 0.0 && p * m + rest == x * m
    ensures p + rest / m == x
  {
    assert rest / m * m == rest;
    assert (p + rest / m - x) * m == 0.0;
  }

  lemma Interpolated(u: real, v: real, p: int, s: real, behind: real)
    requires p as real + s == 256.0 * behind
    ensures var a, b := u + v * (p as real / 256.0), u + v * ((p + 1) as real / 256.0);
            a + s * (b - a) == u + v * behind
  {
    var low, step := v * (p as real / 256.0), v / 256.0;
    assert v * ((p + 1) as real / 256.0) == low + step;
    assert low == p as real * step;
    RealSpread(p as real, s, step);
    assert (256.0 * behind) * step == v * behind;
  }

  lemma OutputStable(r: Rate, table: seq<real>, x: seq<C>, y: seq<C>, k: nat)
    requires r.up > 0 && Causal(r, k) < |x|
    ensures OutputAt(r, table, x + y, k) == OutputAt(r, table, x, k)
  {
    SumEq(r.taps, j => OutputTerm(r, table, x + y, k, j), j => OutputTerm(r, table, x, k, j));
  }

  /** Splitting the input changes no output: what came out stays. */
  lemma ResamplePrefix(r: Rate, table: seq<real>, x: seq<C>, y: seq<C>)
    requires r.up > 0 && r.down > 0
    ensures Resample(r, table, x) <= Resample(r, table, x + y)
  {
    EmittedMonotone(r, |x|, |x + y|);
    forall k | 0 <= k < Emitted(r, |x|)
      ensures OutputAt(r, table, x + y, k) == OutputAt(r, table, x, k)
    {
      EmittedExactly(r, |x|, k);
      OutputStable(r, table, x, y, k);
    }
  }

  function Row(r: Rate, table: seq<real>, phase: nat): (row: seq<real>)
    requires |table| == (PHASES + 1) * r.taps && phase <= PHASES
    ensures |row| == r.taps
    ensures forall j :: 0 <= j < r.taps ==> row[j] == Tap(table, phase * r.taps + j)
  {
    RowInTable(phase, r.taps);
    table[phase * r.taps..(phase + 1) * r.taps]
  }

  lemma RowInTable(phase: nat, taps: nat)
    requires phase <= PHASES
    ensures 0 <= phase * taps && (phase + 1) * taps == phase * taps + taps <= (PHASES + 1) * taps
  {
    MulMono(0, phase, taps);
    MulMono(phase + 1, PHASES + 1, taps);
  }

  /** Blending the two row outputs is filtering with the blended row. */
  lemma BlendedRows(r: Rate, table: seq<real>, x: seq<C>, k: nat, a: C, b: C)
    requires r.Valid() && TableFor(r, table) && 0 <= Phase(r, k) < PHASES
    requires a == FirAt(Row(r, table, Phase(r, k)), x, Causal(r, k))
    requires b == FirAt(Row(r, table, Phase(r, k) + 1), x, Causal(r, k))
    ensures Mixed(a, b, Blend(r, k)) == OutputAt(r, table, x, k)
  {
    var s, n := Blend(r, k), Causal(r, k);
    var low, high := Row(r, table, Phase(r, k)), Row(r, table, Phase(r, k) + 1);
    forall j: int | 0 <= j < r.taps
      ensures Mixed(FirTerm(low, x, n, j), FirTerm(high, x, n, j), s) == OutputTerm(r, table, x, k, j)
    {
      assert low[j] == Tap(table, Phase(r, k) * r.taps + j);
      assert high[j] == Tap(table, (Phase(r, k) + 1) * r.taps + j);
      BlendedTerm(r, table, low, high, x, k, j);
    }
    hide Mixed, OutputTerm, FirTerm, Row, Phase, Blend, Causal, TableFor;
    var f, g := j => FirTerm(low, x, n, j), j => FirTerm(high, x, n, j);
    MixedSum(r.taps, f, g, s);
    SumEq(r.taps, j => Mixed(f(j), g(j), s), j => OutputTerm(r, table, x, k, j));
  }

  lemma BlendedTerm(r: Rate, table: seq<real>, low: seq<real>, high: seq<real>, x: seq<C>, k: nat, j: int)
    requires r.up > 0 && |low| == |high| == r.taps
    requires Tap(low, j) == Tap(table, Phase(r, k) * r.taps + j)
    requires Tap(high, j) == Tap(table, (Phase(r, k) + 1) * r.taps + j)
    ensures Mixed(FirTerm(low, x, Causal(r, k), j), FirTerm(high, x, Causal(r, k), j), Blend(r, k))
            == OutputTerm(r, table, x, k, j)
  {
    hide Phase, Blend, Causal, Tap, Mixed, Scale;
    var v := At(x, Causal(r, k) - r.taps + 1 + j);
    var a, b, s := Tap(low, j), Tap(high, j), Blend(r, k);
    MixedTerm(a, b, s, v);
    assert FirTerm(low, x, Causal(r, k), j) == Scale(Tap(low, j), v);
    assert FirTerm(high, x, Causal(r, k), j) == Scale(Tap(high, j), v);
    assert Coefficient(r, table, k, j) == a + s * (b - a);
    assert OutputTerm(r, table, x, k, j) == Scale(a + s * (b - a), v);
    assert OutputTerm(r, table, x, k, j) == Mixed(Scale(a, v), Scale(b, v), s);
  }

  /** The blend of two row outputs. */
  function Mixed(a: C, b: C, s: real): C { C(a.re + s * (b.re - a.re), a.im + s * (b.im - a.im)) }

  lemma {:induction false} MixedSum(n: nat, f: int -> C, g: int -> C, s: real)
    ensures Sum(n, j => Mixed(f(j), g(j), s)) == Mixed(Sum(n, f), Sum(n, g), s)
  {
    if n > 0 {
      MixedSum(n - 1, f, g, s);
      MixedAdd(Sum(n - 1, f), Sum(n - 1, g), f(n - 1), g(n - 1), s);
    }
  }

  lemma MixedAdd(a: C, b: C, c: C, d: C, s: real)
    ensures Add(Mixed(a, b, s), Mixed(c, d, s)) == Mixed(Add(a, c), Add(b, d), s)
  {
    RealSpreadLeft(s, b.re - a.re, d.re - c.re);
    RealSpreadLeft(s, b.im - a.im, d.im - c.im);
  }

  lemma MixedTerm(a: real, b: real, s: real, v: C)
    ensures Mixed(Scale(a, v), Scale(b, v), s) == Scale(a + s * (b - a), v)
  {
    var m, c := Mixed(Scale(a, v), Scale(b, v), s), a + s * (b - a);
    assert m.re == c * v.re by { RealMix(a, b, s, v.re, a * v.re, b * v.re); }
    assert m.im == c * v.im by { RealMix(a, b, s, v.im, a * v.im, b * v.im); }
  }

  lemma RealMix(a: real, b: real, s: real, v: real, av: real, bv: real)
    requires av == a * v && bv == b * v
    ensures av + s * (bv - av) == (a + s * (b - a)) * v
  {
    RealSpread(a, s * (b - a), v);
    RealTimes(s, b - a, v);
    RealSpread(b, -a, v);
  }

  // --------------------------------------------------------- the stream

  class Rational {
    const r: Rate
    const table: seq<real>
    const hist: array<C>
    const avx2: bool
    var pos: nat
    var inputIndex: nat
    var nextWhole: nat
    var nextRemainder: nat

    /** The exact coordinate of output k. */
    ghost predicate NextIs(k: nat)
      reads this`nextWhole, this`nextRemainder
    {
      nextRemainder < r.up && nextWhole * r.up + nextRemainder == k * r.down
    }

    ghost predicate Configured() { r.Valid() && TableFor(r, table) && hist.Length == 2 * r.taps }

    /** The resampler has taken in exactly the samples x. */
    ghost predicate After(x: seq<C>)
      reads this, hist
    {
      && Configured() && Ring(hist[..], pos, r.taps, x)
      && inputIndex == |x|
      && NextIs(Emitted(r, |x|))
    }

    constructor (r: Rate, table: seq<real>, avx2: bool)
      requires r.Valid() && TableFor(r, table)
      ensures this.r == r && this.table == table && After([]) && fresh(hist)
    {
      this.r, this.table, this.avx2 := r, table, avx2;
      hist := new C[2 * r.taps](_ => Zero);
      pos, inputIndex, nextWhole, nextRemainder := 0, 0, 0, 0;
      new;
      RingStart(hist[..], r.taps);
      MulMono(2 * (0 - 1) - (r.taps - 1), -1, r.up);
    }

    /** Exact number of outputs of the next call, saturated at the word size. */
    method OutputFramesForInput(frames: nat, ghost x: seq<C>) returns (count: nat)
      requires After(x)
      ensures Emitted(r, |x| + frames) >= Emitted(r, |x|)
      ensures var exact := Emitted(r, |x| + frames) - Emitted(r, |x|);
              count == if exact < CLOCK then exact else CLOCK - 1
    {
      EmittedMonotone(r, |x|, |x| + frames);
      ghost var k := Emitted(r, |x|);
      EmittedFrom(r, |x| + frames, k, nextWhole, nextRemainder);
      var last := inputIndex + frames - 1;
      if last < 0 { return 0; }
      var room := last - nextWhole;
      if room < 0 { return 0; }
      var lag := 2 * room - (r.taps - 1);
      if lag < 0 { return 0; }
      var ticks := lag * r.up - 2 * nextRemainder;
      if ticks < 0 { return 0; }
      DivGe(ticks, 2 * r.down, 0);
      var exact := ticks / (2 * r.down) + 1;
      count := if exact < CLOCK then exact else CLOCK - 1;
    }

    /** One output, from the current window. */
    method Interpolate(ghost k: nat, ghost y: seq<C>) returns (v: C)
      requires Configured() && Ring(hist[..], pos, r.taps, y) && NextIs(k)
      requires inputIndex == |y| == Causal(r, k) + 1
      ensures v == OutputAt(r, table, y, k)
    {
      hide Ring;
      LagInTable(r, k, nextWhole, nextRemainder, inputIndex - 1);
      var lag := (2 * (inputIndex - 1 - nextWhole) - (r.taps - 1)) * r.up - 2 * nextRemainder;
      var scaled := lag * 256;
      var phase := scaled / (2 * r.up);
      var blend := (scaled % (2 * r.up)) as real / (2 * r.up) as real;
      assert lag == Lag(r, k) && phase == Phase(r, k) && blend == Blend(r, k);
      var a := Dot(Row(r, table, phase), hist, pos, avx2, y);
      var b := a;
      if blend != 0.0 {
        b := Dot(Row(r, table, phase + 1), hist, pos, avx2, y);
      }
      v := Mixed(a, b, blend);
      BlendOrSkip(r, table, y, k, a, b, v);
    }

    method AdvanceOutput(ghost k: nat)
      requires r.Valid() && NextIs(k)
      modifies this`nextWhole, this`nextRemainder
      ensures NextIs(k + 1)
    {
      NextPosition(r, k, nextWhole, nextRemainder);
      nextWhole := nextWhole + r.down / r.up;
      nextRemainder := nextRemainder + r.down % r.up;
      if nextRemainder >= r.up {
        nextRemainder := nextRemainder - r.up;
        nextWhole := nextWhole + 1;
      }
    }

    /** Emits every output that the newest sample makes due: each at exactly its
        causal input index. */
    method EmitDue(out: array<C>, at: nat, ghost y: seq<C>) returns (count: nat)
      requires Configured() && Ring(hist[..], pos, r.taps, y) && inputIndex == |y| > 0
      requires NextIs(Emitted(r, |y| - 1)) && out != hist
      requires Emitted(r, |y| - 1) <= Emitted(r, |y|)
      requires at + Emitted(r, |y|) - Emitted(r, |y| - 1) <= out.Length
      modifies this`nextWhole, this`nextRemainder, out
      ensures NextIs(Emitted(r, |y|)) && count == Emitted(r, |y|) - Emitted(r, |y| - 1)
      ensures forall i :: 0 <= i < out.Length && !(at <= i < at + count) ==> out[i] == old(out[i])
      ensures forall i :: at <= i < at + count ==> out[i] == OutputAt(r, table, y, Emitted(r, |y| - 1) + (i - at))
    {
      hide Ring, OutputAt, Row, Emitted, Causal;
      ghost var first := Emitted(r, |y| - 1);
      count := 0;
      var n := inputIndex - 1;
      while true
        invariant NextIs(first + count) && at + count <= out.Length && first + count <= Emitted(r, |y|)
        invariant forall i :: 0 <= i < out.Length && !(at <= i < at + count) ==> out[i] == old(out[i])
        invariant forall i :: at <= i < at + count ==> out[i] == OutputAt(r, table, y, first + (i - at))
        decreases Emitted(r, |y|) - first - count
      {
        var target := nextWhole + (r.taps - 1) / 2 + CeilDiv(2 * nextRemainder + r.up, 2 * r.up);
        TargetIsCausal(r, first + count, nextWhole, nextRemainder);
        EmittedExactly(r, |y|, first + count);
        EmittedExactly(r, |y| - 1, first + count);
        if n < target { break; }
        assert n == Causal(r, first + count);
        var v := Interpolate(first + count, y);
        out[at + count] := v;
        AdvanceOutput(first + count);
        count := count + 1;
      }
    }

    lemma RatesArePositive(x: seq<C>)
      requires After(x)
      ensures r.up > 0 && r.down > 0
    {
    }

    lemma TableIsThere(x: seq<C>)
      requires After(x)
      ensures r.Valid() && TableFor(r, table) && |Resample(r, table, x)| == Emitted(r, |x|)
    {
    }

    /** One input sample, and the outputs that it makes available. */
    method Push(v: C, out: array<C>, at: nat, ghost x: seq<C>) returns (count: nat)
      requires After(x) && out != hist
      requires at + Emitted(r, |x| + 1) - Emitted(r, |x|) <= out.Length
      modifies this`pos, this`inputIndex, this`nextWhole, this`nextRemainder, hist, out
      ensures After(x + [v]) && r.up > 0 && count == Emitted(r, |x| + 1) - Emitted(r, |x|)
      ensures forall i :: 0 <= i < out.Length && !(at <= i < at + count) ==> out[i] == old(out[i])
      ensures forall i :: at <= i < at + count ==> out[i] == OutputAt(r, table, x + [v], Emitted(r, |x|) + (i - at))
    {
      hide Ring, OutputAt, Emitted;
      EmittedMonotone(r, |x|, |x| + 1);
      pos := PushSample(hist, pos, r.taps, v, x);
      inputIndex := inputIndex + 1;
      count := EmitDue(out, at, x + [v]);
    }

    /** Sample i of a packet, behind `count` outputs of the samples before it. */
    method PushNext(iq: seq<C>, i: nat, out: array<C>, count: nat, ghost x: seq<C>) returns (next: nat)
      requires i < |iq| && After(x + iq[..i]) && out != hist && r.up > 0 && r.down > 0
      requires Emitted(r, |x| + |iq|) <= Emitted(r, |x|) + out.Length
      requires count <= out.Length && Emitted(r, |x|) + count == Emitted(r, |x| + i)
      requires forall j :: 0 <= j < count ==> out[j] == OutputAt(r, table, x + iq[..i], Emitted(r, |x|) + j)
      modifies this`pos, this`inputIndex, this`nextWhole, this`nextRemainder, hist, out
      ensures After(x + iq[..i + 1])
      ensures next <= out.Length && Emitted(r, |x|) + next == Emitted(r, |x| + i + 1)
      ensures forall j :: 0 <= j < next ==> out[j] == OutputAt(r, table, x + iq[..i + 1], Emitted(r, |x|) + j)
    {
      hide After, OutputAt, Emitted;
      ghost var before := x + iq[..i];
      assert before + [iq[i]] == x + iq[..i + 1];
      EmittedMonotone(r, |x| + i + 1, |x| + |iq|);
      KeepOutputs(r, table, before, [iq[i]], Emitted(r, |x|), out[..count]);
      var more := Push(iq[i], out, count, before);
      next := count + more;
    }

    /** The samples of one packet. */
    method PushAll(iq: seq<C>, out: array<C>, ghost x: seq<C>) returns (count: nat)
      requires After(x) && out != hist
      requires Emitted(r, |x| + |iq|) <= Emitted(r, |x|) + out.Length
      modifies this`pos, this`inputIndex, this`nextWhole, this`nextRemainder, hist, out
      ensures After(x + iq) && r.up > 0 && r.down > 0
      ensures count <= out.Length && Emitted(r, |x|) + count == Emitted(r, |x| + |iq|)
      ensures forall j :: 0 <= j < count ==> out[j] == OutputAt(r, table, x + iq, Emitted(r, |x|) + j)
    {
      RatesArePositive(x);
      hide After, OutputAt, Emitted;
      count := 0;
      assert x + iq[..0] == x;
      for i := 0 to |iq|
        invariant After(x + iq[..i])
        invariant count <= out.Length && Emitted(r, |x|) + count == Emitted(r, |x| + i)
        invariant forall j :: 0 <= j < count ==> out[j] == OutputAt(r, table, x + iq[..i], Emitted(r, |x|) + j)
      {
        count := PushNext(iq, i, out, count, x);
      }
      assert x + iq[..|iq|] == x + iq;
    }

    /** Takes in one packet. Whatever the packet boundaries, the outputs so far
        are what the resampler makes of the whole stream. */
    method Process(iq: seq<C>, out: array<C>, ghost x: seq<C>) returns (count: nat)
      requires After(x) && out != hist
      requires Emitted(r, |x| + |iq|) <= Emitted(r, |x|) + out.Length
      modifies this`pos, this`inputIndex, this`nextWhole, this`nextRemainder, hist, out
      ensures After(x + iq) && count <= out.Length
      ensures Resample(r, table, x + iq) == Resample(r, table, x) + out[..count]
      ensures Exact(r, table, x + iq, |Resample(r, table, x)|, out[..count])
    {
      RatesArePositive(x);
      TableIsThere(x);
      hide After, OutputAt, Emitted, Resample, Exact, TableFor, Rate.Valid;
      count := PushAll(iq, out, x);
      JoinOutputs(r, table, x, iq, out[..count]);
      OutputsExact(r, table, x + iq, Emitted(r, |x|), out[..count]);
    }
  }

  /** The count of the next outputs, from the split coordinate of output k. */
  lemma EmittedFrom(r: Rate, n: int, k: nat, whole: nat, rest: nat)
    requires r.Valid() && whole * r.up + rest == k * r.down && n >= 0 && Emitted(r, n) >= k
    ensures var room := n - 1 - whole;
            var ticks := (2 * room - (r.taps - 1)) * r.up - 2 * rest;
            Emitted(r, n) - k == if room < 0 || 2 * room - (r.taps - 1) < 0 || ticks < 0 then 0
                                 else ticks / (2 * r.down) + 1
  {
    hide Emitted;
    var lag := 2 * (n - 1 - whole) - (r.taps - 1);
    RoomFrom(n - 1, whole, r.taps - 1, r.up, rest, k, r.down);
    EmittedTicks(r, n, lag * r.up - 2 * rest, k);
    if lag < 0 { MulMono(lag, -1, r.up); }
  }

  lemma EmittedTicks(r: Rate, n: int, ticks: int, k: nat)
    requires r.down > 0 && (2 * (n - 1) - (r.taps - 1)) * r.up == ticks + k * (2 * r.down)
    ensures ticks >= 0 ==> Emitted(r, n) == ticks / (2 * r.down) + 1 + k
    ensures ticks < 0 ==> Emitted(r, n) <= k
  {
    var total := ticks + k * (2 * r.down);
    DivModShift(ticks, k, 2 * r.down);
    DivGe(total, 2 * r.down, k);
    NonNegative(k, 2 * r.down);
  }

  lemma RoomFrom(n: int, whole: int, lag: int, up: int, rest: int, k: int, down: int)
    requires whole * up + rest == k * down
    ensures (2 * n - lag) * up == (2 * (n - whole) - lag) * up - 2 * rest + k * (2 * down)
  {
  }

  lemma BlendOrSkip(r: Rate, table: seq<real>, y: seq<C>, k: nat, a: C, b: C, v: C)
    requires r.Valid() && TableFor(r, table) && 0 <= Phase(r, k) < PHASES
    requires a == FirAt(Row(r, table, Phase(r, k)), y, Causal(r, k))
    requires if Blend(r, k) == 0.0 then b == a else b == FirAt(Row(r, table, Phase(r, k) + 1), y, Causal(r, k))
    requires v == Mixed(a, b, Blend(r, k))
    ensures v == OutputAt(r, table, y, k)
  {
    var c := FirAt(Row(r, table, Phase(r, k) + 1), y, Causal(r, k));
    BlendedRows(r, table, y, k, a, c);
    hide FirAt, Row, OutputAt;
    assert Mixed(a, c, 0.0) == a == Mixed(a, a, 0.0);
  }

  /** The outputs of a packet continue those of the stream before it. */
  lemma JoinOutputs(r: Rate, table: seq<real>, x: seq<C>, v: seq<C>, out: seq<C>)
    requires r.up > 0 && r.down > 0 && Emitted(r, |x|) + |out| == Emitted(r, |x + v|)
    requires forall j :: 0 <= j < |out| ==> out[j] == OutputAt(r, table, x + v, Emitted(r, |x|) + j)
    ensures Resample(r, table, x + v) == Resample(r, table, x) + out
  {
    hide OutputAt, Emitted;
    ResamplePrefix(r, table, x, v);
  }

  lemma KeepOutputs(r: Rate, table: seq<real>, x: seq<C>, v: seq<C>, first: nat, out: seq<C>)
    requires r.up > 0 && r.down > 0 && first + |out| <= Emitted(r, |x|)
    requires forall j :: 0 <= j < |out| ==> out[j] == OutputAt(r, table, x, first + j)
    ensures forall j :: 0 <= j < |out| ==> out[j] == OutputAt(r, table, x + v, first + j)
  {
    forall j | 0 <= j < |out|
      ensures out[j] == OutputAt(r, table, x + v, first + j)
    {
      EmittedExactly(r, |x|, first + j);
      OutputStable(r, table, x, v, first + j);
    }
  }
}

/** The coarse polyphase filter bank: what it computes, and the two ring
    layouts in which it keeps its history.

    Masks and shifts by the power-of-two bin count are written as % and /. */
module Channelizer {
  import opened Arith
  import opened Complex

  datatype Geometry = Geometry(m: nat, hop: nat, oversample: nat, taps: nat) {
    function Len(): nat { taps * m }

    ghost predicate Valid() {
      && (oversample == 1 || oversample == 2 || oversample == 4)
      && (taps == 4 || taps == 8 || taps == 16)
      && IsPow2(m) && 2 <= m <= 4096
      && hop > 0 && hop * oversample == m
    }
  }

  /** Range of the 64-bit sample clock. */
  const CLOCK: int := 0x1_0000_0000_0000_0000

  datatype Option<T> = None | Some(value: T)

  /** Bin count and hop for a quantum; no geometry for an unsupported request. */
  function NewGeometry(quantum: nat, oversample: nat, taps: nat): Option<Geometry> {
    if quantum == 0 || !(oversample == 1 || oversample == 2 || oversample == 4)
       || !(taps == 4 || taps == 8 || taps == 16) then
      None
    else
      var m := (if oversample < 2 then 2 else oversample) * quantum;
      Some(Geometry(m, m / oversample, oversample, taps))
  }

  /** Every quantum the first-stage search can return gives a valid geometry. */
  lemma NewGeometryValid(quantum: nat, oversample: nat, taps: nat)
    requires IsPow2(quantum) && quantum <= 1024
    ensures NewGeometry(quantum, oversample, taps).Some? <==>
            oversample in {1, 2, 4} && taps in {4, 8, 16}
    ensures NewGeometry(quantum, oversample, taps).Some? ==>
            NewGeometry(quantum, oversample, taps).value.Valid()
  {
    assert IsPow2(2 * quantum);
    assert IsPow2(4 * quantum) by { assert (4 * quantum) / 2 == 2 * quantum; }
    assert quantum >= 1;
    hide IsPow2;
    if oversample == 1 { assert 2 * quantum / 1 == 2 * quantum; }
    if oversample == 2 { assert 2 * quantum / 2 == quantum; }
    if oversample == 4 { assert 4 * quantum / 4 == quantum; }
  }

  lemma GeometryFacts(g: Geometry)
    requires g.Valid()
    ensures IsPow2(g.hop) && g.m % g.hop == 0 && g.m / g.hop == g.oversample
    ensures g.hop >= 8 ==> g.hop % 8 == 0 && g.m % 8 == 0
  {
    HopPow2(g.m, g.hop, g.oversample);
    hide IsPow2;
    DivModUnique(g.m, g.hop, g.oversample, 0);
    if g.hop >= 8 {
      Pow2Eight(g.hop);
      MultipleOfEight(g.hop);
    }
  }

  lemma MultipleOfEight(hop: nat)
    requires hop % 8 == 0
    ensures 2 * hop % 8 == 0 && 4 * hop % 8 == 0
  {
  }

  lemma HopPow2(m: nat, hop: nat, oversample: nat)
    requires IsPow2(m) && hop > 0 && m == hop * oversample
    requires oversample == 1 || oversample == 2 || oversample == 4
    ensures IsPow2(hop)
  {
    if oversample == 1 {
      assert hop == m;
    } else if oversample == 2 {
      assert hop == m / 2;
    } else {
      assert IsPow2(m / 2);
      assert hop == m / 2 / 2;
    }
  }

  /** The history length divides the range of a 64-bit sample clock. */
  lemma HistoryDividesClock(g: Geometry)
    requires g.Valid()
    ensures 8 <= g.Len() <= 0x1_0000 && CLOCK % g.Len() == 0
  {
    TapsPow2(g.taps);
    hide IsPow2;
    Pow2Mul(g.taps, g.m);
    MulMono(2, g.m, g.taps);
    MulMono(g.m, 4096, g.taps);
    Pow2DividesClock(g.Len());
  }

  lemma TapsPow2(taps: nat)
    requires taps == 4 || taps == 8 || taps == 16
    ensures IsPow2(taps)
  {
    assert IsPow2(2);
    assert IsPow2(4);
    assert IsPow2(8);
  }

  // -------------------------------------------------- what the bank computes

  /** The direct windowed mixer of bin k at input instant t: the definition the
      filter bank has to agree with. */
  ghost function Mixer(g: Geometry, h: seq<real>, w: C, x: seq<C>, k: nat, t: int): C
    requires g.m > 0
  {
    Sum(g.Len(), lag => MixerTerm(g, h, w, x, k, t, lag))
  }

  ghost function MixerTerm(g: Geometry, h: seq<real>, w: C, x: seq<C>, k: nat, t: int, lag: int): C
    requires g.m > 0
  {
    Scale(Tap(h, lag), Mul(At(x, t - lag), Twiddle(w, g.m, -(k * (t - lag)))))
  }

  /** The input instant at which output group number `group` is complete. */
  function GroupInstant(g: Geometry, group: int): int { (group + 1) * g.hop - 1 }

  /** Output groups first, first+1, ..., time-major with one column per bin. */
  ghost function Bank(g: Geometry, h: seq<real>, w: C, x: seq<C>,
                      first: nat, groups: nat, bins: seq<nat>): seq<C>
    requires g.m > 0
  {
    seq(groups * |bins|, i requires 0 <= i < groups * |bins| =>
      assert |bins| > 0;
      Mixer(g, h, w, x, bins[i % |bins|], GroupInstant(g, first + i / |bins|)))
  }

  /** Later input does not change an output already due. */
  lemma MixerStable(g: Geometry, h: seq<real>, w: C, x: seq<C>, y: seq<C>, k: nat, t: int)
    requires g.m > 0 && t < |x|
    ensures Mixer(g, h, w, x + y, k, t) == Mixer(g, h, w, x, k, t)
  {
    SumEq(g.Len(), lag => MixerTerm(g, h, w, x + y, k, t, lag),
          lag => MixerTerm(g, h, w, x, k, t, lag));
  }

  /** The FIR sum of polyphase branch r at instant t. */
  ghost function BranchSum(g: Geometry, h: seq<real>, x: seq<C>, t: int, r: int): C {
    Sum(g.taps, j => BranchTerm(g, h, x, t, r, j))
  }

  ghost function BranchTerm(g: Geometry, h: seq<real>, x: seq<C>, t: int, r: int, j: int): C {
    Scale(Tap(h, r + (g.taps - 1 - j) * g.m), At(x, t - r - (g.taps - 1 - j) * g.m))
  }

  /** One bin of the inverse transform, as its defining sum. */
  ghost function Dft(buffer: seq<C>, w: C, m: nat, k: nat): C
    requires m > 0
  {
    Sum(m, r => DftTerm(buffer, w, m, k, r))
  }

  ghost function DftTerm(buffer: seq<C>, w: C, m: nat, k: nat, r: int): C
    requires m > 0
  {
    Mul(At(buffer, r), Twiddle(w, m, k * r))
  }

  /** Polyphase branches, inverse transform and phase factor together are the
      direct mixer. */
  lemma PolyphaseIsMixer(g: Geometry, h: seq<real>, w: C, x: seq<C>, k: nat, t: int, buffer: seq<C>)
    requires g.m > 0 && Root(w, g.m)
    requires |buffer| == g.m
    requires forall r :: 0 <= r < g.m ==> buffer[r] == BranchSum(g, h, x, t, r)
    ensures Mul(Dft(buffer, w, g.m, k), Twiddle(w, g.m, -(k * t))) == Mixer(g, h, w, x, k, t)
  {
    hide Mul, Twiddle, MixerTerm;
    var term := lag => MixerTerm(g, h, w, x, k, t, lag);
    forall r: int | 0 <= r < g.m
      ensures Mul(DftTerm(buffer, w, g.m, k, r), Twiddle(w, g.m, -(k * t)))
              == Sum(g.taps, j => term(j * g.m + r))
    {
      BranchIsMixerTerms(g, h, w, x, k, t, r, term);
    }
    RotatedSum(g.m, g.taps, r => DftTerm(buffer, w, g.m, k, r), Twiddle(w, g.m, -(k * t)), term);
    assert g.m * g.taps == g.Len();
  }

  lemma RotatedSum(m: nat, taps: nat, bins: int -> C, phase: C, term: int -> C)
    requires m * taps >= 0
    requires forall r: int :: 0 <= r < m ==> Mul(bins(r), phase) == Sum(taps, j => term(j * m + r))
    ensures Mul(Sum(m, bins), phase) == Sum(m * taps, term)
  {
    hide Mul;
    SumMul(m, bins, phase);
    SumEq(m, r => Mul(bins(r), phase), r => Sum(taps, j => term(j * m + r)));
    SumByResidue(m, taps, term);
  }

  /** Branch r, rotated into place, is the part of the mixer whose lags are
      congruent to r. */
  lemma BranchIsMixerTerms(g: Geometry, h: seq<real>, w: C, x: seq<C>, k: nat, t: int, r: int,
                           term: int -> C)
    requires g.m > 0 && Root(w, g.m)
    requires forall lag :: term(lag) == MixerTerm(g, h, w, x, k, t, lag)
    ensures Mul(Mul(BranchSum(g, h, x, t, r), Twiddle(w, g.m, k * r)), Twiddle(w, g.m, -(k * t)))
            == Sum(g.taps, j => term(j * g.m + r))
  {
    hide Mul, Twiddle, MixerTerm, BranchTerm;
    var c := Twiddle(w, g.m, k * r - k * t);
    Rotations(w, g.m, BranchSum(g, h, x, t, r), k * r, -(k * t));
    assert k * r + -(k * t) == k * r - k * t;
    var branch := j => BranchTerm(g, h, x, t, r, j);
    var lags := j => term(j * g.m + r);
    SumMul(g.taps, branch, c);
    forall j: int
      ensures Mul(branch(j), c) == lags(g.taps - 1 - j)
    {
      RotatedTerm(g, h, w, x, k, t, r, j);
    }
    SumEq(g.taps, j => Mul(branch(j), c), j => lags(g.taps - 1 - j));
    SumReverse(g.taps, lags);
  }

  lemma RotatedTerm(g: Geometry, h: seq<real>, w: C, x: seq<C>, k: nat, t: int, r: int, j: int)
    requires g.m > 0
    ensures Mul(BranchTerm(g, h, x, t, r, j), Twiddle(w, g.m, k * r - k * t))
            == MixerTerm(g, h, w, x, k, t, (g.taps - 1 - j) * g.m + r)
  {
    var age := g.taps - 1 - j;
    var lag := age * g.m + r;
    ScaleMul(Tap(h, lag), At(x, t - lag), Twiddle(w, g.m, k * r - k * t));
    RotationOfLag(k, t, r, age, g.m);
    TwiddleShift(w, g.m, k * r - k * t, k * age);
  }

  lemma RotationOfLag(k: int, t: int, r: int, age: int, m: int)
    ensures -(k * (t - (age * m + r))) == (k * r - k * t) + (k * age) * m
  {
    assert k * (t - (age * m + r)) == k * t - k * (age * m) - k * r;
    assert k * (age * m) == (k * age) * m;
  }

  /** The phase table has one row per group of the oversampling cycle; the row
      of a group is the rotation of that group's own instant. */
  lemma PhaseCycle(g: Geometry, w: C, k: nat, group: nat)
    requires g.m > 0 && g.oversample > 0 && g.hop * g.oversample == g.m
    ensures Twiddle(w, g.m, -(k * (g.hop - 1 + (group % g.oversample) * g.hop)))
            == Twiddle(w, g.m, -(k * GroupInstant(g, group)))
  {
    var q := group / g.oversample;
    var p := group % g.oversample;
    assert group * g.hop == p * g.hop + q * g.m by {
      assert group == q * g.oversample + p;
      assert (q * g.oversample + p) * g.hop == (q * g.oversample) * g.hop + p * g.hop;
      assert (q * g.oversample) * g.hop == q * (g.hop * g.oversample);
    }
    var t0 := g.hop - 1 + p * g.hop;
    assert GroupInstant(g, group) == t0 + q * g.m;
    assert -(k * (t0 + q * g.m)) == -(k * t0) + (-(k * q)) * g.m by {
      assert k * (t0 + q * g.m) == k * t0 + k * (q * g.m);
      assert k * (q * g.m) == (k * q) * g.m;
      assert (-(k * q)) * g.m == -((k * q) * g.m);
    }
    TwiddleShift(w, g.m, -(k * t0), -(k * q));
  }

  // ------------------------------------------------ what a bin's output means

  /** v is the output of bin k at instant t: the input filtered with the prototype, moved
      up to the bin, and the result moved down from it. Shifting v back up gives the
      filtered signal, so there is only one such v. */
  ghost predicate Demodulated(g: Geometry, h: seq<real>, w: C, x: seq<C>, k: nat, t: nat, v: C) {
    MulMono(0, k, t);
    Mul(v, Pow(w, k * t)) == Sum(g.Len(), lag => BandTerm(h, w, x, k, t, lag))
  }

  ghost function BandTerm(h: seq<real>, w: C, x: seq<C>, k: nat, t: nat, lag: int): C {
    if lag < 0 then Zero
    else
      MulMono(0, k, lag);
      Scale(Tap(h, lag), Mul(At(x, t - lag), Pow(w, k * lag)))
  }

  lemma MixerDemodulates(g: Geometry, h: seq<real>, w: C, x: seq<C>, k: nat, t: nat)
    requires g.m > 0 && Root(w, g.m)
    ensures Demodulated(g, h, w, x, k, t, Mixer(g, h, w, x, k, t))
  {
    MulMono(0, k, t);
    hide Mul, Scale, Twiddle;
    var up := Pow(w, k * t);
    var f, b := lag => MixerTerm(g, h, w, x, k, t, lag), lag => BandTerm(h, w, x, k, t, lag);
    forall lag: int | 0 <= lag < g.Len()
      ensures Mul(f(lag), up) == b(lag)
    {
      BandIsMixer(g, h, w, x, k, t, lag);
    }
    SumMul(g.Len(), f, up);
    SumEq(g.Len(), lag => Mul(f(lag), up), b);
  }

  lemma BandIsMixer(g: Geometry, h: seq<real>, w: C, x: seq<C>, k: nat, t: nat, lag: nat)
    requires g.m > 0 && Root(w, g.m)
    ensures k * t >= 0 && Mul(MixerTerm(g, h, w, x, k, t, lag), Pow(w, k * t)) == BandTerm(h, w, x, k, t, lag)
  {
    MulMono(0, k, t);
    MulMono(0, k, lag);
    UpAndDown(w, g.m, Tap(h, lag), At(x, t - lag), -(k * (t - lag)), k * t, k * lag) by {
      assert k * (t - lag) == k * t - k * lag;
    }
  }

  /** Down by one rotation and up by another is up by the difference. */
  lemma UpAndDown(w: C, m: nat, tap: real, v: C, back: int, up: nat, rest: nat)
    requires Root(w, m) && back + up == rest
    ensures Mul(Scale(tap, Mul(v, Twiddle(w, m, back))), Pow(w, up)) == Scale(tap, Mul(v, Pow(w, rest)))
  {
    hide Mul, Scale, Twiddle, Pow;
    TwiddleIsPow(w, m, up);
    TwiddleIsPow(w, m, rest);
    Rotations(w, m, v, back, up);
    ScaleMul(tap, Mul(v, Twiddle(w, m, back)), Twiddle(w, m, up));
  }

  /** The unit tone of bin k. */
  ghost predicate Tone(x: seq<C>, w: C, k: nat) {
    forall n: nat :: n < |x| ==> 0 <= k * n && x[n] == Pow(w, k * n)
  }

  /** Once the window is full, the tone of a bin gives the sum of the prototype there. */
  lemma ToneIsTotal(g: Geometry, h: seq<real>, w: C, x: seq<C>, k: nat, t: nat)
    requires g.m > 0 && Root(w, g.m) && |h| == g.Len() && Tone(x, w, k) && g.Len() - 1 <= t < |x|
    ensures Mixer(g, h, w, x, k, t) == C(Total(h), 0.0)
  {
    var f := lag => MixerTerm(g, h, w, x, k, t, lag);
    forall lag: int | 0 <= lag < g.Len()
      ensures f(lag) == C(h[lag], 0.0)
    {
      ToneTerm(g, h, w, x, k, t, lag);
    }
    SumTaps(h, g.Len(), f);
    assert h[..g.Len()] == h;
  }

  lemma ToneTerm(g: Geometry, h: seq<real>, w: C, x: seq<C>, k: nat, t: nat, lag: nat)
    requires g.m > 0 && Root(w, g.m) && lag < |h| && Tone(x, w, k) && lag <= t < |x|
    ensures MixerTerm(g, h, w, x, k, t, lag) == C(h[lag], 0.0)
  {
    hide Mul, Twiddle, Pow, Root;
    var n: nat := t - lag;
    MulMono(0, k, n);
    assert x[n] == Pow(w, k * n);
    TwiddleBack(w, g.m, k * n);
    assert Scale(h[lag], One) == C(h[lag], 0.0);
  }

  // ---------------------------------------------------- the two ring layouts

  /** Where the row layout keeps absolute sample n: rows of m descending branches. */
  function Slot(g: Geometry, n: int): int
    requires g.m > 0 && g.taps > 0
  {
    ((n / g.m) % g.taps) * g.m + (g.m - 1 - n % g.m)
  }

  lemma SlotRange(g: Geometry, n: int)
    requires g.m > 0 && g.taps > 0
    ensures 0 <= Slot(g, n) < g.Len()
    ensures Slot(g, n) / g.m == (n / g.m) % g.taps
    ensures Slot(g, n) % g.m == g.m - 1 - n % g.m
  {
    MulMono(0, (n / g.m) % g.taps, g.m);
    MulMono((n / g.m) % g.taps, g.taps - 1, g.m);
    assert g.taps * g.m == (g.taps - 1) * g.m + g.m;
    DivModUnique(Slot(g, n), g.m, (n / g.m) % g.taps, g.m - 1 - n % g.m);
  }

  /** Within one window of Len samples the row layout keeps every sample apart. */
  lemma SlotInjective(g: Geometry, a: int, b: int)
    requires g.m > 0 && g.taps > 0
    requires a - b < g.Len() && b - a < g.Len() && Slot(g, a) == Slot(g, b)
    ensures a == b
  {
    SlotRange(g, a);
    SlotRange(g, b);
    SameResidue(a, b, g.m);
    SameResidue(a / g.m, b / g.m, g.taps);
    var d := a / g.m / g.taps - b / g.m / g.taps;
    assert a - b == d * g.Len() by {
      assert (d * g.taps) * g.m == d * (g.taps * g.m);
    }
    SmallMultiple(d, g.Len());
  }

  /** Numbers with the same remainder differ by the difference of their quotients. */
  lemma SameResidue(a: int, b: int, m: nat)
    requires m > 0 && a % m == b % m
    ensures a - b == (a / m - b / m) * m
  {
    assert a == (a / m) * m + a % m;
    assert b == (b / m) * m + b % m;
  }

  /** The slot depends on n only modulo Len. */
  lemma SlotShift(g: Geometry, n: int, k: int)
    requires g.m > 0 && g.taps > 0
    ensures Slot(g, n + k * g.Len()) == Slot(g, n)
  {
    assert k * g.Len() == (k * g.taps) * g.m;
    DivModShift(n, k * g.taps, g.m);
    DivModShift(n / g.m, k, g.taps);
  }

  /** Row layout: both copies of the last Len samples of x are in their slots. */
  ghost predicate RowLayout(g: Geometry, hist: seq<C>, x: seq<C>)
    requires g.m > 0 && g.taps > 0
  {
    && |hist| == 2 * g.Len()
    && forall n :: |x| - g.Len() <= n < |x| ==> RowHolds(g, hist, n, At(x, n))
  }

  ghost predicate RowHolds(g: Geometry, hist: seq<C>, n: int, v: C)
    requires g.m > 0 && g.taps > 0 && |hist| == 2 * g.Len()
  {
    SlotRange(g, n);
    hist[Slot(g, n)] == v && hist[Slot(g, n) + g.Len()] == v
  }

  /** The newest sample of branch b among the first n samples. */
  function Newest(g: Geometry, n: int, b: int): int
    requires g.m > 0
  {
    n - 1 - (n - 1 - b) % g.m
  }

  /** Branch layout: branch b has a doubled ring whose oldest sample is at pos[b]. */
  ghost predicate BranchLayout(g: Geometry, hist: seq<C>, pos: seq<nat>, x: seq<C>)
    requires g.m > 0 && g.taps > 0
  {
    && |hist| == 2 * g.Len() && |pos| == g.m
    && (forall b :: 0 <= b < g.m ==> pos[b] < g.taps)
    && (forall b, i :: 0 <= b < g.m && 0 <= i < g.taps ==> BranchHolds(g, hist, pos[b], x, b, i))
  }

  /** Age i of branch b, oldest first, is in both copies of its ring cell. */
  ghost predicate BranchHolds(g: Geometry, hist: seq<C>, pos: nat, x: seq<C>, b: int, i: int)
    requires g.m > 0 && 0 <= b < g.m && 0 <= i < g.taps && |hist| == 2 * g.Len()
  {
    var cell := (pos + i) % g.taps;
    var v := At(x, Newest(g, |x|, b) - (g.taps - 1 - i) * g.m);
    BranchCell(g, b, cell);
    hist[b * 2 * g.taps + cell] == v && hist[b * 2 * g.taps + cell + g.taps] == v
  }

  lemma BranchCell(g: Geometry, b: int, i: int)
    requires g.m > 0 && 0 <= b < g.m && 0 <= i < g.taps
    ensures 0 <= b * 2 * g.taps + i && b * 2 * g.taps + i + g.taps < 2 * g.Len()
  {
    MulMono(0, b, 2 * g.taps);
    MulMono(b, g.m - 1, 2 * g.taps);
    assert b * 2 * g.taps == b * (2 * g.taps);
    assert g.m * (2 * g.taps) == 2 * g.Len();
  }
}

/** Exact sample-rate ratios from binary64 rates. A rate is its sign, exponent
    and fraction fields; its value is the dyadic number they denote. */
module ClockRate {
  import opened Arith
  import opened Channelizer
  import R = Rational

  const HIDDEN_BIT: nat := 0x10_0000_0000_0000

  datatype F64 = F64(negative: bool, exponent: nat, fraction: nat) {
    predicate Valid() { exponent < 2048 && fraction < HIDDEN_BIT }
    predicate Finite() { exponent != 2047 }
    predicate Positive() { !negative && Mantissa() > 0 }
    function Mantissa(): nat { if exponent == 0 then fraction else HIDDEN_BIT + fraction }
    /** The value is Mantissa * 2^Shift. */
    function Shift(): int { if exponent == 0 then -1074 else exponent - 1075 }
    /** The value as a quotient of two naturals. */
    function Num(): (n: nat)
      ensures Mantissa() > 0 ==> n > 0
    {
      if Shift() > 0 then
        MulMono(1, Pow2(Shift()), Mantissa());
        Mantissa() * Pow2(Shift())
      else
        Mantissa()
    }
    function Den(): (d: nat)
      ensures d > 0
    {
      if Shift() < 0 then Pow2(-Shift()) else 1
    }
  }

  /** The fields denote the binary64 number of section 3.4 of IEEE 754: a normal one is
      1.fraction * 2^(exponent - 1023), a subnormal one 0.fraction * 2^-1022. */
  lemma RateMeans(f: F64)
    ensures f.exponent > 0 ==> f.Num() * Pow2(1075) == (f.fraction + Pow2(52)) * Pow2(f.exponent) * f.Den()
    ensures f.exponent == 0 ==> f.Num() * Pow2(1074) == f.fraction * f.Den()
  {
    Pow2FiftyTwo();
    hide Pow2;
    if f.Shift() < 0 {
      Pow2Add(-f.Shift(), 1075 + f.Shift());
      if f.exponent > 0 {
        MulOrder(f.Mantissa(), Pow2(-f.Shift()), Pow2(f.exponent));
      }
    } else {
      Pow2Add(f.Shift(), 1075);
      Regroup(f.Mantissa(), Pow2(f.Shift()), Pow2(1075));
    }
  }

  lemma MulOrder(m: int, a: int, b: int)
    ensures m * (a * b) == m * b * a
  {
  }

  /** The Euclidean loop. */
  method GcdLoop(a: nat, b: nat) returns (g: nat)
    ensures g == Gcd(a, b)
  {
    var x, y := a, b;
    while y != 0
      invariant Gcd(x, y) == Gcd(a, b)
      decreases y
    {
      x, y := y, x % y;
    }
    g := x;
  }

  function TrailingZeros(n: nat): nat
    requires n > 0
  {
    if n % 2 == 1 then 0 else 1 + TrailingZeros(n / 2)
  }

  /** Shifting out at most the trailing zeros loses nothing; shifting out all of
      them leaves an odd number. */
  lemma {:induction false} ShiftOut(n: nat, c: nat)
    requires n > 0 && c <= TrailingZeros(n)
    ensures n / Pow2(c) > 0 && n == (n / Pow2(c)) * Pow2(c)
    ensures c == TrailingZeros(n) ==> (n / Pow2(c)) % 2 == 1
    decreases c
  {
    if c == 0 {
      assert n / 1 == n;
    } else {
      ShiftOut(n / 2, c - 1);
      var k := (n / 2) / Pow2(c - 1);
      Doubled(n, n / 2, k, Pow2(c - 1));
      assert Pow2(c) == 2 * Pow2(c - 1);
      hide Pow2;
      DivModUnique(n, Pow2(c), k, 0);
    }
  }

  lemma Doubled(n: int, h: int, k: int, p: int)
    requires n % 2 == 0 && h == n / 2 && h == k * p
    ensures n == k * (2 * p)
  {
  }

  lemma CoprimeFactor(a: nat, k: nat, b: nat)
    requires a > 0 && k > 0 && Coprime(a * k, b)
    ensures Coprime(a, b)
  {
    GcdDivides(a, b);
    DividesLinear(Gcd(a, b), a, 0, k, 0);
    assert k * a + 0 * 0 == a * k;
    GcdGreatest(a * k, b, Gcd(a, b));
    DividesLe(Gcd(a, b), 1);
  }

  lemma {:induction false} CoprimeTwos(a: nat, k: nat, b: nat)
    requires a > 0 && b % 2 == 1 && Coprime(a, b)
    ensures a * Pow2(k) > 0 && Coprime(a * Pow2(k), b)
  {
    if k == 0 {
      assert a * 1 == a;
    } else {
      CoprimeTwos(a, k - 1, b);
      var c := a * Pow2(k - 1);
      assert a * Pow2(k) == 2 * c;
      CoprimeDouble(c, b);
    }
  }

  lemma OddDivisor(g: nat, b: nat)
    requires Divides(g, b) && b % 2 == 1
    ensures g % 2 == 1
  {
    DividesElim(g, b);
    var k, h, low := b / g, g / 2, g % 2;
    assert b == 2 * (k * h) + k * low by { assert g == 2 * h + low; }
  }

  lemma CoprimeDouble(c: nat, b: nat)
    requires c > 0 && b % 2 == 1 && Coprime(c, b)
    ensures Coprime(2 * c, b)
  {
    var g := Gcd(2 * c, b);
    GcdDivides(2 * c, b);
    DividesElim(g, b);
    OddDivisor(g, b);
    assert Gcd(g, 2) == 1 by { assert Gcd(g, 2) == Gcd(2, 1) == Gcd(1, 0); }
    CoprimeDivides(g, 2, c);
    GcdGreatest(c, b, g);
    DividesLe(g, 1);
  }

  lemma CoprimeSwap(a: nat, b: nat)
    requires a > 0 && Coprime(a, b)
    ensures Coprime(b, a)
  {
    GcdSymmetric(a, b);
  }

  // -------------------------------------------------------------- from_rates

  datatype RatioError = BadRate | Bounds
  datatype Ratio = Ratio(up: nat, down: nat) | Failed(error: RatioError)

  /** p / q in lowest terms. */
  function Lowest(p: nat, q: nat): Ratio
    requires q > 0
  {
    DivGe(p, Gcd(p, q), 0);
    DivGe(q, Gcd(p, q), 0);
    Ratio(p / Gcd(p, q), q / Gcd(p, q))
  }

  predicate TooLarge(r: Ratio)
    requires r.Ratio?
  {
    r.up > R.MAX_RATIO_TERM || r.down > R.MAX_RATIO_TERM
  }

  /** Any coprime pair with the value p / q is p / q in lowest terms. */
  lemma LowestIs(p: nat, q: nat, up: nat, down: nat)
    requires p > 0 && q > 0 && up > 0 && down > 0
    requires Coprime(up, down) && up * q == down * p
    ensures Lowest(p, q) == Ratio(up, down)
  {
    var g := Gcd(p, q);
    GcdReduce(p, q);
    DividesElim(g, p);
    DividesElim(g, q);
    QuotientPositive(q, g);
    ReduceBoth(up, down, p, q, p / g, q / g, g);
    LowestTermsUnique(p / g, q / g, up, down);
  }

  lemma ReduceBoth(up: nat, down: nat, p: nat, q: nat, a: nat, b: nat, g: nat)
    requires up * q == down * p && p == a * g && q == b * g && g > 0
    ensures a * down == up * b
  {
    assert (up * b) * g == up * q;
    assert (a * down) * g == down * p;
    if up * b < a * down {
      MulMono(up * b + 1, a * down, g);
    } else if a * down < up * b {
      MulMono(a * down + 1, up * b, g);
    }
  }

  /** The clock ratio outputRate / fs, exact and in lowest terms. Powers of two
      are cancelled before they are shifted in, so the wide intermediates overflow
      only when the lowest terms are out of bounds anyway. */
  method FromRates(fs: F64, outputRate: nat) returns (r: Ratio)
    requires fs.Valid() && outputRate < 0x1_0000_0000
    ensures r == if !fs.Finite() || !fs.Positive() || outputRate == 0 then Failed(BadRate)
                 else if TooLarge(Lowest(outputRate * fs.Den(), fs.Num())) then Failed(Bounds)
                 else Lowest(outputRate * fs.Den(), fs.Num())
  {
    if fs.exponent == 2047 || fs.negative || outputRate == 0 || (fs.exponent == 0 && fs.fraction == 0) {
      return Failed(BadRate);
    }
    var mantissa, shift := fs.fraction, -1074;
    if fs.exponent != 0 { mantissa, shift := 0x10_0000_0000_0000 + mantissa, fs.exponent - 1023 - 52; }
    var common := GcdLoop(outputRate, mantissa);
    GcdReduce(outputRate, mantissa);
    QuotientPositive(outputRate, common);
    QuotientPositive(mantissa, common);
    var numerator: nat := outputRate / common;
    var denominator: nat := mantissa / common;
    DividesElim(common, outputRate);
    DividesElim(common, mantissa);
    if shift < 0 {
      r := ShiftNumerator(numerator, denominator, -shift, common, outputRate, mantissa);
    } else {
      r := ShiftDenominator(numerator, denominator, shift, common, outputRate, mantissa);
      assert shift == 0 ==> mantissa * Pow2(0) == mantissa;
      assert outputRate * 1 == outputRate;
    }
  }

  /** Rates below one unit of the mantissa: the target absorbs the shift. */
  method ShiftNumerator(a: nat, b: nat, s: nat, ghost g: nat, ghost out: nat, ghost m: nat) returns (r: Ratio)
    requires a > 0 && b > 0 && Coprime(a, b) && out == a * g && m == b * g && g > 0
    ensures out * Pow2(s) > 0 && m > 0
    ensures r == if TooLarge(Lowest(out * Pow2(s), m)) then Failed(Bounds) else Lowest(out * Pow2(s), m)
  {
    var cancel := if TrailingZeros(b) < s then TrailingZeros(b) else s;
    ShiftOut(b, cancel);
    var down := b / Pow2(cancel);
    var left := s - cancel;
    CoprimeSwap(a, b);
    CoprimeFactor(down, Pow2(cancel), a);
    CoprimeSwap(down, a);
    if left > 0 { CoprimeTwos(a, left, down); }
    MulMono(1, a, Pow2(left));
    assert left == 0 ==> a * Pow2(left) == a;
    Pow2Add(left, cancel);
    ShiftedValue(a, down, Pow2(left), Pow2(cancel), Pow2(s), g, out, m);
    LowestIs(out * Pow2(s), m, a * Pow2(left), down);
    r := Checked(a, left, down);
  }

  lemma ShiftedValue(a: nat, d: nat, pl: nat, pc: nat, ps: nat, g: nat, out: nat, m: nat)
    requires ps == pl * pc && out == a * g && m == (d * pc) * g && a > 0 && d > 0 && pl > 0 && pc > 0 && g > 0
    ensures out * ps > 0 && m > 0 && (a * pl) * m == d * (out * ps)
  {
    MulMono(1, a, g);
    MulMono(1, pl, pc);
    MulMono(1, out, ps);
    MulMono(1, d, pc);
    MulMono(1, d * pc, g);
    calc {
      (a * pl) * m;
      (a * pl) * ((d * pc) * g);
      { Shuffle(a, pl, d, pc, g); }
      d * ((a * g) * (pl * pc));
    }
  }

  lemma Shuffle(a: int, pl: int, d: int, pc: int, g: int)
    ensures (a * pl) * ((d * pc) * g) == d * ((a * g) * (pl * pc))
  {
    assert (d * pc) * g == d * (pc * g);
    assert (a * pl) * (d * (pc * g)) == d * ((a * pl) * (pc * g));
    assert (a * pl) * (pc * g) == a * (pl * (pc * g));
    assert pl * (pc * g) == (pl * pc) * g;
    assert (a * g) * (pl * pc) == a * (g * (pl * pc));
  }

  /** Rates that are integers after shifting: the rate absorbs the shift. */
  method ShiftDenominator(a: nat, b: nat, s: nat, ghost g: nat, ghost out: nat, ghost m: nat) returns (r: Ratio)
    requires a > 0 && b > 0 && Coprime(a, b) && out == a * g && m == b * g && g > 0
    ensures out > 0 && m * Pow2(s) > 0
    ensures r == if TooLarge(Lowest(out, m * Pow2(s))) then Failed(Bounds) else Lowest(out, m * Pow2(s))
  {
    var cancel := if TrailingZeros(a) < s then TrailingZeros(a) else s;
    ShiftOut(a, cancel);
    var up := a / Pow2(cancel);
    var left := s - cancel;
    CoprimeFactor(up, Pow2(cancel), b);
    CoprimeSwap(up, b);
    if left > 0 { CoprimeTwos(b, left, up); }
    MulMono(1, b, Pow2(left));
    assert left == 0 ==> b * Pow2(left) == b;
    CoprimeSwap(b * Pow2(left), up);
    Pow2Add(left, cancel);
    ShiftedValue(b, up, Pow2(left), Pow2(cancel), Pow2(s), g, m, out);
    LowestIs(out, m * Pow2(s), up, b * Pow2(left));
    var swapped := Checked(b, left, up);
    r := if swapped.Failed? then swapped else Ratio(swapped.down, swapped.up);
  }

  /** checked_shl, checked_mul and the bound test of with_ratio, for the pair
      (x * 2^left, y). */
  method Checked(x: nat, left: nat, y: nat) returns (r: Ratio)
    requires x > 0 && y > 0 && x * Pow2(left) > 0 && Coprime(x * Pow2(left), y)
    ensures r == if x * Pow2(left) > R.MAX_RATIO_TERM || y > R.MAX_RATIO_TERM then Failed(Bounds)
                 else Ratio(x * Pow2(left), y)
  {
    if left >= 128 {
      Pow2Huge(left);
      MulMono(1, x, Pow2(left));
      return Failed(Bounds);
    }
    var product := x * Pow2(left);
    if product >= R.U128 { return Failed(Bounds); }
    var common := GcdLoop(product, y);
    assert product / 1 == product && y / 1 == y;
    var up, down := product / common, y / common;
    if up > R.MAX_RATIO_TERM || down > R.MAX_RATIO_TERM { return Failed(Bounds); }
    r := Ratio(up, down);
  }

  lemma Pow2Huge(k: nat)
    requires k >= 128
    ensures Pow2(k) >= R.U128
  {
    Pow2Values();
    Pow2Add(64, 64);
    Pow2Add(128, k - 128);
    MulMono(1, Pow2(k - 128), Pow2(128));
  }

  // ------------------------------------------------------------- clock_ratio

  /** The rate is between one and a thousand million. */
  predicate InClockRange(rate: F64) {
    rate.Finite() && rate.Positive() && rate.Num() >= rate.Den() && rate.Num() <= 1_000_000_000 * rate.Den()
  }

  method CheckRange(rate: F64) returns (ok: bool)
    ensures ok <==> InClockRange(rate)
  {
    ok := rate.exponent != 2047 && !rate.negative && rate.Den() <= rate.Num() <= 1_000_000_000 * rate.Den();
  }

  /** The rate of a capture clock in lowest terms; none exactly when the rate is
      not finite or out of range. */
  method ClockRatio(rate: F64) returns (r: Option<(nat, nat)>)
    requires rate.Valid()
    ensures r.Some? <==> InClockRange(rate)
    ensures r.Some? ==>
              var (num, den) := r.value;
              && 0 < num < CLOCK && 0 < den < CLOCK
              && num * rate.Den() == rate.Num() * den && Coprime(num, den)
  {
    var inRange := CheckRange(rate);
    if !inRange { return None; }
    RateExponent(rate);
    var mantissa := HIDDEN_BIT + rate.fraction;
    var shift := rate.exponent - 1023 - 52;
    ghost var taken: nat := 0;
    while mantissa % 2 == 0
      invariant 0 < mantissa && mantissa * Pow2(taken) == rate.Mantissa() && shift == rate.Shift() + taken
      decreases mantissa
    {
      assert mantissa * Pow2(taken) == (mantissa / 2) * Pow2(taken + 1) by { assert mantissa == 2 * (mantissa / 2); }
      mantissa := mantissa / 2;
      shift := shift + 1;
      taken := taken + 1;
    }
    MantissaBound(rate, mantissa, taken);
    OddLowest(mantissa, if shift < 0 then -shift else 0);
    if shift >= 0 {
      ShiftIsTaken(rate, mantissa, taken, shift);
      r := Some((mantissa * Pow2(shift), 1));
    } else if shift >= -52 {
      FractionIsTaken(rate, mantissa, taken, shift);
      SmallPow2(-shift);
      r := Some((mantissa, Pow2(-shift)));
    } else {
      assert false;
    }
  }

  /** A rate of at least one is a normal number with at most 52 fraction bits,
      and one of at most a thousand million has a small exponent. */
  lemma RateExponent(rate: F64)
    requires rate.Valid() && InClockRange(rate)
    ensures 1023 <= rate.exponent <= 1053
  {
    Pow2FiftyTwo();
    Pow2TwentyOne();
    hide Pow2;
    if rate.exponent < 1023 {
      Pow2Mono(53, -rate.Shift());
    } else if 1053 < rate.exponent < 1075 {
      Pow2Mono(-rate.Shift(), 21);
    } else if rate.exponent > 1075 {
      MulMono(1, Pow2(rate.Shift()), rate.Mantissa());
    }
  }

  lemma Pow2FiftyTwo()
    ensures Pow2(52) == HIDDEN_BIT && Pow2(53) == 2 * HIDDEN_BIT
  {
    Pow2Values();
    Pow2Add(32, 20);
    Pow2Add(16, 4);
    assert Pow2(4) == 16;
  }

  lemma Pow2TwentyOne()
    ensures Pow2(21) == 2097152
  {
    Pow2Values();
    Pow2Add(16, 5);
    assert Pow2(5) == 32;
  }

  lemma SmallPow2(k: nat)
    requires k <= 52
    ensures 0 < Pow2(k) < CLOCK
  {
    Pow2Mono(k, 52);
    Pow2FiftyTwo();
  }

  lemma MantissaBound(rate: F64, mantissa: nat, taken: nat)
    requires rate.Valid() && mantissa * Pow2(taken) == rate.Mantissa()
    ensures mantissa < 2 * HIDDEN_BIT
  {
    MulMono(1, Pow2(taken), mantissa);
  }

  /** An odd numerator over a power of two is in lowest terms. */
  lemma OddLowest(n: nat, k: nat)
    requires n % 2 == 1
    ensures Coprime(n, Pow2(k)) && Coprime(n * 1, 1)
  {
    assert Gcd(1, n) == Gcd(n, 1 % n);
    assert Coprime(1, n) by { GcdOfOne(n); }
    CoprimeTwos(1, k, n);
    assert 1 * Pow2(k) == Pow2(k);
    CoprimeSwap(Pow2(k), n);
    CoprimeSwap(1, n);
  }

  lemma GcdOfOne(n: nat)
    ensures Gcd(1, n) == 1
  {
    GcdDivides(1, n);
    DividesLe(Gcd(1, n), 1);
  }

  lemma ShiftIsTaken(rate: F64, mantissa: nat, taken: nat, shift: nat)
    requires rate.Valid() && InClockRange(rate) && 1023 <= rate.exponent <= 1053
    requires mantissa > 0 && mantissa * Pow2(taken) == rate.Mantissa() && shift == rate.Shift() + taken
    ensures 0 < mantissa * Pow2(shift) <= 1_000_000_000
    ensures (mantissa * Pow2(shift)) * rate.Den() == rate.Num()
    ensures Coprime(mantissa * Pow2(shift), 1)
  {
    var s := -rate.Shift();
    Pow2Add(shift, s);
    hide Pow2;
    Regroup(mantissa, Pow2(shift), Pow2(s));
    MulMono(1, mantissa, Pow2(shift));
    var n, d := mantissa * Pow2(shift), Pow2(s);
    assert n * d == rate.Mantissa() == rate.Num() && rate.Den() == d;
    AtMost(n, 1_000_000_000, d);
    GcdOfOne(n);
    GcdSymmetric(1, n);
  }

  lemma Regroup(a: int, b: int, c: int)
    ensures a * (b * c) == (a * b) * c
  {
  }

  lemma AtMost(n: int, limit: int, d: int)
    requires d > 0 && n * d <= limit * d
    ensures n <= limit
  {
    if n > limit { MulMono(limit + 1, n, d); }
  }

  lemma FractionIsTaken(rate: F64, mantissa: nat, taken: nat, shift: int)
    requires rate.Valid() && 1023 <= rate.exponent <= 1053 && shift < 0
    requires mantissa > 0 && mantissa * Pow2(taken) == rate.Mantissa() && shift == rate.Shift() + taken
    ensures mantissa * rate.Den() == rate.Num() * Pow2(-shift)
  {
    Pow2Add(taken, -shift);
    Regroup(mantissa, Pow2(taken), Pow2(-shift));
  }
}

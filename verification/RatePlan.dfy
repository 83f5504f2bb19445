/** Integer channel clocks: which decimations are supported, how one is split
    into small filter stages, and which one a channel gets. */
module RatePlan {
  import opened Arith
  import opened Channelizer
  import opened Fir

  const MAX_DECIMATION: nat := 65536

  predicate Prime(p: int) {
    p > 1 && forall q :: 1 < q < p ==> p % q != 0
  }

  /** No prime factor above seven. */
  ghost predicate Smooth(n: int) {
    n > 0 && forall p :: Prime(p) && n % p == 0 ==> p <= 7
  }

  ghost predicate Supported(d: int) { 1 <= d <= MAX_DECIMATION && Smooth(d) }

  lemma {:induction false} PrimeFactor(n: int) returns (p: int)
    requires n > 1
    ensures Prime(p) && n % p == 0
  {
    p := n;
    if !Prime(n) {
      var q :| 1 < q < n && n % q == 0;
      p := PrimeFactor(q);
      DividesThrough(p, q, n);
    } else {
      DivModUnique(n, n, 1, 0);
    }
  }

  lemma DividesThrough(p: int, q: int, n: int)
    requires p > 0 && q > 0 && q % p == 0 && n % q == 0
    ensures n % p == 0
  {
    var a, b := q / p, n / q;
    assert q == a * p + q % p && n == b * q + n % q;
    assert b * (a * p) == (b * a) * p;
    DivModUnique(n, p, b * a, 0);
  }

  lemma SmallPrime(f: int)
    requires f == 2 || f == 3 || f == 5 || f == 7
    ensures Prime(f)
  {
  }

  /** A prime that divides a product divides one of the factors. */
  lemma PrimeDividesProduct(p: int, f: int, m: int)
    requires Prime(p) && Prime(f) && m > 0 && (f * m) % p == 0
    ensures p == f || m % p == 0
  {
    if p != f {
      GcdDivides(p, f);
      var g := Gcd(p, f);
      DividesLe(g, p);
      DividesLe(g, f);
      assert Divides(p, f * m);
      CoprimeDivides(p, f, m);
    }
  }

  lemma SmoothTimes(f: int, m: int)
    requires f == 2 || f == 3 || f == 5 || f == 7
    requires m > 0
    ensures f * m > 0 && (Smooth(f * m) <==> Smooth(m))
  {
    SmallPrime(f);
    forall p | Prime(p) && m % p == 0
      ensures (f * m) % p == 0
    {
      assert m == (m / p) * p + m % p;
      assert f * ((m / p) * p) == (f * (m / p)) * p;
      DivModUnique(f * m, p, f * (m / p), 0);
    }
    forall p | Prime(p) && (f * m) % p == 0 && m % p != 0
      ensures p <= 7
    {
      PrimeDividesProduct(p, f, m);
    }
  }

  /** What is left after taking out 2, 3, 5 and 7 is smooth only when it is one. */
  lemma SmoothRest(n: int)
    requires n > 0 && n % 2 != 0 && n % 3 != 0 && n % 5 != 0 && n % 7 != 0
    ensures Smooth(n) <==> n == 1
  {
    if n > 1 {
      var p := PrimeFactor(n);
      assert p % 2 != 0 || p == 2;
    } else {
      forall p | Prime(p)
        ensures 1 % p == 1
      {
        DivModUnique(1, p, 0, 1);
      }
    }
  }

  lemma Quotient(n: int, f: int)
    requires n > 0 && f > 1 && n % f == 0
    ensures n == f * (n / f) && 0 < n / f < n
  {
    assert n == (n / f) * f + n % f;
    DivGe(n, f, 1);
    if n < f { DivModUnique(n, f, 0, n); }
    MulMono(2, f, n / f);
  }

  /** Dividing by f does not bring back a factor that was taken out. */
  lemma StillCoprime(n: int, f: int, q: int)
    requires n > 0 && f > 1 && q > 0 && n % f == 0 && n % q != 0
    ensures (n / f) % q != 0
  {
    Quotient(n, f);
    if (n / f) % q == 0 {
      assert n % (n / f) == 0 by { DivModUnique(n, n / f, f, 0); }
      DividesThrough(q, n / f, n);
    }
  }

  const SMALL_PRIMES: seq<nat> := [2, 3, 5, 7]
  const STAGE_FACTORS: seq<nat> := [8, 7, 5, 4, 3, 2]

  /** supported_decimation accepts exactly the 7-smooth values in range. */
  method SupportedDecimation(decimate: int) returns (ok: bool)
    ensures ok <==> Supported(decimate)
  {
    if !(1 <= decimate <= MAX_DECIMATION) { return false; }
    var remaining := decimate;
    for i := 0 to |SMALL_PRIMES|
      invariant remaining > 0 && (Smooth(remaining) <==> Smooth(decimate))
      invariant forall j :: 0 <= j < i ==> remaining % SMALL_PRIMES[j] != 0
    {
      var factor := SMALL_PRIMES[i];
      hide Smooth;
      while remaining % factor == 0
        invariant remaining > 0 && (Smooth(remaining) <==> Smooth(decimate))
        invariant forall j :: 0 <= j < i ==> remaining % SMALL_PRIMES[j] != 0
        decreases remaining
      {
        Quotient(remaining, factor);
        SmoothTimes(factor, remaining / factor);
        forall j | 0 <= j < i
          ensures (remaining / factor) % SMALL_PRIMES[j] != 0
        {
          StillCoprime(remaining, factor, SMALL_PRIMES[j]);
        }
        remaining := remaining / factor;
      }
    }
    assert remaining % SMALL_PRIMES[0] != 0 && remaining % SMALL_PRIMES[1] != 0
           && remaining % SMALL_PRIMES[2] != 0 && remaining % SMALL_PRIMES[3] != 0;
    SmoothRest(remaining);
    ok := remaining == 1;
  }

  function Product(s: seq<nat>): nat {
    if s == [] then 1 else Product(s[..|s| - 1]) * s[|s| - 1]
  }

  lemma ProductAppend(s: seq<nat>, f: nat)
    ensures Product(s + [f]) == Product(s) * f
  {
    assert (s + [f])[..|s|] == s;
  }

  /** A stage factor is a product of small primes. */
  lemma SmoothFactor(f: int, m: int)
    requires f in STAGE_FACTORS && m > 0
    ensures f * m > 0 && (Smooth(f * m) <==> Smooth(m))
  {
    hide Smooth;
    if f == 8 {
      SmoothTimes(2, m);
      SmoothTimes(2, 2 * m);
      SmoothTimes(2, 2 * (2 * m));
    } else if f == 4 {
      SmoothTimes(2, m);
      SmoothTimes(2, 2 * m);
    } else {
      SmoothTimes(f, m);
    }
  }

  lemma {:induction false} ProductFirst(s: seq<nat>)
    requires s != [] && forall i :: 0 <= i < |s| ==> s[i] > 0
    ensures Product(s) == s[0] * Product(s[1..]) && Product(s[1..]) > 0
  {
    if |s| == 1 {
      assert s[..0] == [] && s[1..] == [];
    } else {
      var last := |s| - 1;
      ProductFirst(s[..last]);
      assert s[..last][1..] == s[1..][..last - 1];
    }
  }

  /** The stage factors that are taken out of n, largest first, from factor i on. */
  function FactorsFrom(n: nat, i: nat): (s: seq<nat>)
    ensures forall k :: 0 <= k < |s| ==> 2 <= s[k] <= 8
    decreases |STAGE_FACTORS| - i, n
  {
    if i >= |STAGE_FACTORS| then []
    else if n > 0 && n % STAGE_FACTORS[i] == 0 then
      Quotient(n, STAGE_FACTORS[i]);
      [STAGE_FACTORS[i]] + FactorsFrom(n / STAGE_FACTORS[i], i)
    else FactorsFrom(n, i + 1)
  }

  function FactorsOf(decimate: int): seq<nat> { if decimate < 0 then [] else FactorsFrom(decimate, 0) }

  lemma NextFactor(list: seq<nat>, n: nat, i: nat)
    requires n > 0 && i < |STAGE_FACTORS|
    ensures n % STAGE_FACTORS[i] == 0 ==>
              n / STAGE_FACTORS[i] > 0
              && list + FactorsFrom(n, i) == (list + [STAGE_FACTORS[i]]) + FactorsFrom(n / STAGE_FACTORS[i], i)
    ensures n % STAGE_FACTORS[i] != 0 ==> FactorsFrom(n, i) == FactorsFrom(n, i + 1)
  {
    if n % STAGE_FACTORS[i] == 0 { Quotient(n, STAGE_FACTORS[i]); }
  }

  /** Once every factor is taken out, a smooth number is one. */
  lemma NoFactors(n: nat)
    requires n > 0 && forall j :: 0 <= j < |STAGE_FACTORS| ==> n % STAGE_FACTORS[j] != 0
    ensures FactorsFrom(n, |STAGE_FACTORS|) == [] && (Smooth(n) <==> n == 1)
  {
    assert n % STAGE_FACTORS[1] != 0 && n % STAGE_FACTORS[2] != 0
           && n % STAGE_FACTORS[4] != 0 && n % STAGE_FACTORS[5] != 0;
    SmoothRest(n);
  }

  /** The factors that are left to take out of a smooth number multiply to it. */
  lemma {:induction false} FactorsSmooth(n: nat, i: nat)
    requires n > 0 && i <= |STAGE_FACTORS| && Smooth(n)
    requires forall j :: 0 <= j < i ==> n % STAGE_FACTORS[j] != 0
    ensures Product(FactorsFrom(n, i)) == n
    decreases |STAGE_FACTORS| - i, n
  {
    if i == |STAGE_FACTORS| {
      NoFactors(n);
    } else if n % STAGE_FACTORS[i] == 0 {
      hide Smooth, Product;
      var factor := STAGE_FACTORS[i];
      Quotient(n, factor);
      SmoothFactor(factor, n / factor);
      forall j | 0 <= j < i
        ensures (n / factor) % STAGE_FACTORS[j] != 0
      {
        StillCoprime(n, factor, STAGE_FACTORS[j]);
      }
      FactorsSmooth(n / factor, i);
      ProductFirst(FactorsFrom(n, i));
    } else {
      FactorsSmooth(n, i + 1);
    }
  }

  /** The factors of a supported decimation multiply to it. */
  lemma FactorsMultiply(decimate: int)
    requires Supported(decimate)
    ensures Product(FactorsOf(decimate)) == decimate
  {
    FactorsSmooth(decimate, 0);
  }

  /** Takes stage factor i out as often as it divides. */
  method TakeOut(list: seq<nat>, n: nat, i: nat) returns (more: seq<nat>, rest: nat)
    requires n > 0 && i < |STAGE_FACTORS| && forall j :: 0 <= j < i ==> n % STAGE_FACTORS[j] != 0
    ensures rest > 0 && (Smooth(rest) <==> Smooth(n))
    ensures more + FactorsFrom(rest, i + 1) == list + FactorsFrom(n, i)
    ensures forall j :: 0 <= j <= i ==> rest % STAGE_FACTORS[j] != 0
  {
    hide FactorsFrom, Smooth;
    more, rest := list, n;
    while rest % STAGE_FACTORS[i] == 0
      invariant rest > 0 && (Smooth(rest) <==> Smooth(n))
      invariant more + FactorsFrom(rest, i) == list + FactorsFrom(n, i)
      invariant forall j :: 0 <= j < i ==> rest % STAGE_FACTORS[j] != 0
      decreases rest
    {
      var factor := STAGE_FACTORS[i];
      Quotient(rest, factor);
      SmoothFactor(factor, rest / factor);
      forall j | 0 <= j < i
        ensures (rest / factor) % STAGE_FACTORS[j] != 0
      {
        StillCoprime(rest, factor, STAGE_FACTORS[j]);
      }
      NextFactor(more, rest, i);
      more, rest := more + [factor], rest / factor;
    }
    NextFactor(more, rest, i);
  }

  /** stage_factors succeeds for exactly the supported decimations and gives
      stages whose product is the decimation. */
  method StageFactors(decimate: int) returns (factors: Option<seq<nat>>)
    ensures factors.Some? <==> Supported(decimate)
    ensures factors.Some? ==> Product(factors.value) == decimate && factors.value == FactorsOf(decimate)
    ensures factors.Some? ==> forall i :: 0 <= i < |factors.value| ==> 2 <= factors.value[i] <= 8
  {
    hide FactorsFrom, Product, Smooth;
    if !(1 <= decimate <= MAX_DECIMATION) { return None; }
    var remaining: nat := decimate;
    var list: seq<nat> := [];
    for i := 0 to |STAGE_FACTORS|
      invariant remaining > 0 && (Smooth(remaining) <==> Smooth(decimate))
      invariant list + FactorsFrom(remaining, i) == FactorsOf(decimate)
      invariant forall j :: 0 <= j < i ==> remaining % STAGE_FACTORS[j] != 0
    {
      list, remaining := TakeOut(list, remaining, i);
    }
    NoFactors(remaining);
    assert list + [] == list;
    factors := if remaining == 1 then Some(list) else None;
    if remaining == 1 { FactorsMultiply(decimate); }
  }

  // ------------------------------------------------------------- the search

  ghost function RealMax(a: real, b: real): real { if a < b then b else a }

  /** Relative and least transition width and least output rate of a mode. */
  datatype ModeRule = ModeRule(minimumRate: real, relativeTransition: real, minimumTransition: real)

  ghost function Transition(rule: ModeRule, occupied: real): real {
    RealMax(occupied * rule.relativeTransition, rule.minimumTransition)
  }

  ghost function Needed(rule: ModeRule, occupied: real): real {
    RealMax(occupied + 2.0 * Transition(rule, occupied), rule.minimumRate)
  }

  /** The rules of the modes; any other mode is unsupported. */
  ghost function RuleOf(mode: string): Option<ModeRule> {
    if mode in {"am", "dsb", "usb", "lsb", "nfm", "pm"} then Some(ModeRule(0.0, 0.125, 100.0))
    else if mode == "cw" then Some(ModeRule(0.0, 0.125, 25.0))
    else if mode == "wfm" then Some(ModeRule(300000.0, 0.125, 2000.0))
    else if mode == "ft8" then Some(ModeRule(6000.0, 0.125, 100.0))
    else if mode == "sstv" then Some(ModeRule(8000.0, 0.125, 100.0))
    else if mode == "drm" then Some(ModeRule(0.0, 0.125, 250.0))
    else if mode == "radiofax" then Some(ModeRule(12000.0, 0.125, 100.0))
    else if mode == "drmplus" then Some(ModeRule(0.0, 0.125, 1000.0))
    else None
  }

  /** The rule that RatePlan::new looks up. */
  method LookUp(mode: string) returns (rule: Option<ModeRule>)
    ensures rule == RuleOf(mode)
  {
    match mode {
      case "am" => rule := Some(ModeRule(0.0, 0.125, 100.0));
      case "dsb" => rule := Some(ModeRule(0.0, 0.125, 100.0));
      case "usb" => rule := Some(ModeRule(0.0, 0.125, 100.0));
      case "lsb" => rule := Some(ModeRule(0.0, 0.125, 100.0));
      case "nfm" => rule := Some(ModeRule(0.0, 0.125, 100.0));
      case "pm" => rule := Some(ModeRule(0.0, 0.125, 100.0));
      case "cw" => rule := Some(ModeRule(0.0, 0.125, 25.0));
      case "wfm" => rule := Some(ModeRule(300000.0, 0.125, 2000.0));
      case "ft8" => rule := Some(ModeRule(6000.0, 0.125, 100.0));
      case "sstv" => rule := Some(ModeRule(8000.0, 0.125, 100.0));
      case "drm" => rule := Some(ModeRule(0.0, 0.125, 250.0));
      case "radiofax" => rule := Some(ModeRule(12000.0, 0.125, 100.0));
      case "drmplus" => rule := Some(ModeRule(0.0, 0.125, 1000.0));
      case _ => rule := None;
    }
  }

  /** d is the largest supported decimation that keeps the needed rate. */
  ghost predicate Slowest(d: int, coarse: real, rule: ModeRule, occupied: real) {
    && Supported(d) && coarse / d as real >= Needed(rule, occupied)
    && forall e :: Supported(e) && e > d ==> coarse / e as real < Needed(rule, occupied)
  }

  /** The width of a transition. */
  method Widen(rule: ModeRule, occupied: real) returns (transition: real)
    ensures transition == Transition(rule, occupied)
  {
    transition := occupied * rule.relativeTransition;
    if transition < rule.minimumTransition { transition := rule.minimumTransition; }
  }

  /** The band with both transitions, and no less than the mode asks for. */
  method CountNeeded(rule: ModeRule, occupied: real) returns (needed: real)
    ensures needed == Needed(rule, occupied)
  {
    hide Transition;
    var transition := Widen(rule, occupied);
    needed := occupied + 2.0 * transition;
    if needed < rule.minimumRate { needed := rule.minimumRate; }
  }

  /** The decimation search: the slowest supported clock that still carries the
      occupied band with its transitions and the mode's minimum rate. */
  method Decimation(coarse: real, rule: ModeRule, occupied: real) returns (d: Option<int>)
    requires rule.minimumTransition > 0.0
    ensures d.None? <==> coarse <= 0.0 || occupied <= 0.0 || Needed(rule, occupied) > coarse
    ensures d.Some? ==> d.value >= 1 && Slowest(d.value, coarse, rule, occupied)
  {
    if coarse <= 0.0 || occupied <= 0.0 { return None; }
    var needed := CountNeeded(rule, occupied);
    if needed > coarse { return None; }
    assert needed > 0.0;
    hide Needed;
    var ratio := coarse / needed;
    RatioAtLeastOne(coarse, needed);
    var ceiling := if ratio.Floor < MAX_DECIMATION then ratio.Floor else MAX_DECIMATION;
    var decimate := ceiling;
    OneIsSupported();
    assert Supported(1);
    while decimate >= 1
      invariant 0 <= decimate <= ceiling
      invariant forall e :: Supported(e) && e > decimate ==> e > ceiling
    {
      hide Smooth;
      var ok := SupportedDecimation(decimate);
      if ok { break; }
      decimate := decimate - 1;
    }
    assert decimate >= 1;
    RateKept(coarse, needed, decimate);
    forall e | Supported(e) && e > decimate
      ensures coarse / e as real < needed
    {
      RateLost(coarse, needed, e);
    }
    d := Some(decimate);
  }

  lemma OneIsSupported()
    ensures Supported(1)
  {
    SmoothRest(1);
  }

  lemma RatioAtLeastOne(coarse: real, needed: real)
    requires 0.0 < needed <= coarse
    ensures (coarse / needed).Floor >= 1
  {
    assert coarse / needed >= 1.0;
  }

  lemma RateKept(coarse: real, needed: real, d: int)
    requires needed > 0.0 && 1 <= d <= (coarse / needed).Floor
    ensures coarse / d as real >= needed
  {
    var r := coarse / needed;
    assert d as real <= r;
    assert r * needed == coarse;
    RealMono(d as real, r, needed);
    QuotientGe(coarse, d as real, needed);
  }

  lemma RateLost(coarse: real, needed: real, e: int)
    requires needed > 0.0 && e >= 1 && e > (coarse / needed).Floor
    ensures coarse / e as real < needed
  {
    var r := coarse / needed;
    assert e as real > r;
    assert r * needed == coarse;
    RealMono(r, e as real, needed);
    QuotientLess(coarse, r, e as real, needed);
  }

  lemma RealMono(a: real, b: real, c: real)
    requires a <= b && c >= 0.0
    ensures a * c <= b * c
  {
  }

  lemma QuotientGe(x: real, d: real, n: real)
    requires d > 0.0 && x >= d * n
    ensures x / d >= n
  {
  }

  lemma QuotientLess(x: real, r: real, d: real, n: real)
    requires d > r && d > 0.0 && n > 0.0 && x == r * n
    ensures x / d < n
  {
    assert (d - r) * n > 0.0;
    assert x < d * n;
  }

  // --------------------------------------------------------------- the plan

  function Ceil(x: real): (n: int)
    ensures n as real >= x > n as real - 1.0
  {
    if x.Floor as real == x then x.Floor else x.Floor + 1
  }

  const MAX_TAPS: nat := 65536

  /** Taps of a filter between two band edges: the design formula's positive factor
      `scale` times rate over width, in whole lanes. None when that is too many. */
  ghost function FilterTaps(scale: real, fs: real, pass: real, stop: real): (taps: Option<nat>)
    ensures taps.Some? ==> 8 <= taps.value <= MAX_TAPS && taps.value % 8 == 0
  {
    if fs <= 0.0 || pass <= 0.0 || stop - pass <= 0.0 then None
    else TapsOf(scale * fs / (stop - pass))
  }

  /** A filter exists exactly when the formula asks for fewer than 65536 taps, and then it
      is the shortest one in whole lanes with at least one tap more than that. */
  lemma TapsSuffice(scale: real, fs: real, pass: real, stop: real)
    requires scale > 0.0 && fs > 0.0 && pass > 0.0 && stop > pass
    ensures var taps := FilterTaps(scale, fs, pass, stop);
            && (taps.Some? <==> scale * fs <= 65535.0 * (stop - pass))
            && (taps.Some? ==>
                  && taps.value % 8 == 0 && (taps.value - 1) as real * (stop - pass) >= scale * fs
                  && (taps.value == 8 || (taps.value - 9) as real * (stop - pass) < scale * fs))
  {
    RealScale(scale, fs);
    var n, width := scale * fs, stop - pass;
    var x := n / width;
    assert x * width == n;
    assert FilterTaps(scale, fs, pass, stop) == TapsOf(x);
    hide FilterTaps, TapsOf;
    LengthFits(TapsOf(x), x, n, width);
  }

  lemma LengthFits(taps: Option<nat>, x: real, n: real, width: real)
    requires n > 0.0 && width > 0.0 && n == x * width && taps == TapsOf(x)
    ensures taps.Some? <==> n <= 65535.0 * width
    ensures taps.Some? ==> taps.value % 8 == 0 && (taps.value - 1) as real * width >= n
    ensures taps.Some? ==> taps.value == 8 || (taps.value - 9) as real * width < n
  {
    PositiveFactor(x, width);
    TapsOfBound(x);
    hide TapsOf, Ceil;
    Longest(x, n, width);
    if taps.Some? { LengthAround(taps.value, x, n, width); }
  }

  lemma Longest(x: real, n: real, width: real)
    requires width > 0.0 && n == x * width
    ensures x <= 65535.0 <==> n <= 65535.0 * width
  {
    ScaleOrder(x, 65535.0, width);
  }

  lemma LengthAround(taps: nat, x: real, n: real, width: real)
    requires width > 0.0 && n == x * width
    ensures (taps - 1) as real >= x ==> (taps - 1) as real * width >= n
    ensures (taps - 9) as real < x ==> (taps - 9) as real * width < n
  {
    ScaleOrder(x, (taps - 1) as real, width);
    ScaleOrder(x, (taps - 9) as real, width);
  }

  lemma PositiveFactor(x: real, width: real)
    requires width > 0.0 && x * width > 0.0
    ensures x > 0.0
  {
    ScaleOrder(x, 0.0, width);
  }

  /** The length for an estimate. */
  ghost function TapsOf(x: real): (taps: Option<nat>)
    ensures taps.Some? ==> 8 <= taps.value <= MAX_TAPS && taps.value % 8 == 0
  {
    var estimate := Ceil(x);
    if estimate < 0 || estimate >= MAX_TAPS then None
    else Some(NextMultipleOf8(if estimate + 1 < 8 then 8 else estimate + 1))
  }

  lemma TapsOfBound(x: real)
    requires x > 0.0
    ensures TapsOf(x).Some? <==> x <= 65535.0
    ensures TapsOf(x).Some? ==>
              (TapsOf(x).value - 1) as real >= x && (TapsOf(x).value == 8 || ((TapsOf(x).value - 9) as real < x))
  {
  }

  lemma RealScale(a: real, b: real)
    requires a > 0.0 && b > 0.0
    ensures a * b > 0.0
  {
  }

  lemma ScaleOrder(a: real, b: real, c: real)
    requires c > 0.0
    ensures a <= b <==> a * c <= b * c
  {
    if a < b { RealScale(b - a, c); } else if b < a { RealScale(a - b, c); }
  }

  /** The next multiple of eight. */
  method UpToEight(n: nat) returns (k: nat)
    ensures k == NextMultipleOf8(n)
  {
    k := if n % 8 == 0 then n else n + 8 - n % 8;
  }

  /** filter_taps. */
  method CountTaps(scale: real, fs: real, pass: real, stop: real) returns (taps: Option<nat>)
    ensures taps == FilterTaps(scale, fs, pass, stop)
  {
    var width := stop - pass;
    if fs <= 0.0 || pass <= 0.0 || width <= 0.0 { return None; }
    var estimate := Ceil(scale * fs / width);
    assert FilterTaps(scale, fs, pass, stop) == TapsOf(scale * fs / width);
    hide FilterTaps, Ceil;
    if !(0 <= estimate < 65536) { return None; }
    var n := estimate + 1;
    if n < 8 { n := 8; }
    n := UpToEight(n);
    taps := Some(n);
  }

  datatype Plan = Plan(decimate: int, outputRate: real, occupied: real, transition: real, stopband: real) {
    /** valid_for. */
    ghost predicate ValidFor(fs: real, scale: real) {
      && fs > 0.0 && 1 <= decimate <= MAX_DECIMATION && outputRate > 0.0
      && Near(outputRate, fs / decimate as real, fs)
      && occupied > 0.0 && transition > 0.0 && stopband <= outputRate / 2.0
      && stopband - occupied / 2.0 > 0.0
      && FilterTaps(scale, outputRate, occupied / 2.0, stopband).Some?
      && Near(stopband - occupied / 2.0, transition, fs)
    }

    /** Also supported_decimation, which is decided by a loop. */
    ghost predicate Valid(fs: real, scale: real) { ValidFor(fs, scale) && Supported(decimate) }
  }

  /** valid_for. */
  method CheckPlan(plan: Plan, fs: real, scale: real) returns (ok: bool)
    ensures ok <==> plan.Valid(fs, scale)
  {
    hide FilterTaps, Smooth;
    if fs <= 0.0 { return false; }
    var supported := SupportedDecimation(plan.decimate);
    if !supported || plan.outputRate <= 0.0 { return false; }
    var off := plan.outputRate - fs / plan.decimate as real;
    if (if off < 0.0 then -off else off) > fs * 0.000000000001 { return false; }
    if plan.occupied <= 0.0 || plan.transition <= 0.0 || plan.stopband > plan.outputRate / 2.0
       || plan.stopband - plan.occupied / 2.0 <= 0.0 {
      return false;
    }
    var taps := CountTaps(scale, plan.outputRate, plan.occupied / 2.0, plan.stopband);
    if taps.None? { return false; }
    var edge := plan.stopband - plan.occupied / 2.0 - plan.transition;
    ok := (if edge < 0.0 then -edge else edge) <= fs * 0.000000000001;
  }

  /** Equal up to a millionth of a millionth of the rate. */
  ghost predicate Near(a: real, b: real, fs: real) {
    -(fs * 0.000000000001) <= a - b <= fs * 0.000000000001
  }

  /** What RatePlan::new returns for a mode and an occupied bandwidth. */
  ghost predicate IsPlan(plan: Plan, coarse: real, mode: string, occupied: real, scale: real) {
    && RuleOf(mode).Some? && plan.Valid(coarse, scale)
    && Slowest(plan.decimate, coarse, RuleOf(mode).value, occupied)
    && plan.outputRate == coarse / plan.decimate as real && plan.occupied == occupied
    && plan.transition == Transition(RuleOf(mode).value, occupied)
    && plan.stopband == occupied / 2.0 + plan.transition
  }

  /** RatePlan::new. The plan is valid for its rate; apart from an unusable request,
      the only thing that can fail is the length of its final filter. */
  method NewPlan(coarse: real, mode: string, occupied: real, scale: real) returns (p: Option<Plan>)
    requires scale > 0.0
    ensures p.Some? ==> IsPlan(p.value, coarse, mode, occupied, scale)
    ensures p.None? <==>
            || RuleOf(mode).None? || coarse <= 0.0 || occupied <= 0.0 || Needed(RuleOf(mode).value, occupied) > coarse
            || forall d :: Slowest(d, coarse, RuleOf(mode).value, occupied) ==>
                 FilterTaps(scale, coarse / d as real, occupied / 2.0,
                            occupied / 2.0 + Transition(RuleOf(mode).value, occupied)).None?
  {
    hide Supported, FilterTaps;
    var rule := LookUp(mode);
    if rule.None? { return None; }
    var d := Decimation(coarse, rule.value, occupied);
    if d.None? { return None; }
    var transition := Widen(rule.value, occupied);
    var plan := Plan(d.value, coarse / d.value as real, occupied, transition, occupied / 2.0 + transition);
    PlanFits(plan, coarse, rule.value, scale);
    forall e | Slowest(e, coarse, rule.value, occupied)
      ensures e == d.value
    {
      OneSlowest(d.value, e, coarse, rule.value, occupied);
    }
    var valid := CheckPlan(plan, coarse, scale);
    if !valid { return None; }
    p := Some(plan);
  }

  lemma OneSlowest(d: int, e: int, coarse: real, rule: ModeRule, occupied: real)
    requires Slowest(d, coarse, rule, occupied) && Slowest(e, coarse, rule, occupied)
    ensures d == e
  {
  }

  /** Every other condition of valid_for holds of a plan that the search gave. */
  lemma PlanFits(plan: Plan, coarse: real, rule: ModeRule, scale: real)
    requires coarse > 0.0 && plan.occupied > 0.0 && rule.minimumTransition > 0.0
    requires Slowest(plan.decimate, coarse, rule, plan.occupied)
    requires plan.outputRate == coarse / plan.decimate as real && plan.transition == Transition(rule, plan.occupied)
    requires plan.stopband == plan.occupied / 2.0 + plan.transition
    ensures plan.ValidFor(coarse, scale) <==>
            FilterTaps(scale, plan.outputRate, plan.occupied / 2.0, plan.stopband).Some?
  {
    hide FilterTaps;
    assert plan.outputRate >= plan.occupied + 2.0 * plan.transition;
  }
}

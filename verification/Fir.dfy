/** Streaming FIR stages: the whole-stream definition, the doubled history that
    every stage keeps, the dot-product kernels and the fusion of two stages. */
module Fir {
  import opened Arith
  import opened Complex

  // --------------------------------------------------- whole-stream meaning

  /** FIR output at instant t; coefficients are stored oldest sample first. */
  ghost function FirAt(h: seq<real>, x: seq<C>, t: int): C {
    Sum(|h|, j => FirTerm(h, x, t, j))
  }

  ghost function FirTerm(h: seq<real>, x: seq<C>, t: int, j: int): C {
    Scale(Tap(h, j), At(x, t - |h| + 1 + j))
  }

  /** Outputs of a decimator after n inputs. */
  function Count(n: nat, d: nat): (k: nat)
    requires d > 0
    ensures k == n / d
  {
    DivGe(n, d, 0);
    n / d
  }

  /** FIR and keep every d-th output: what one stage makes of a whole stream. */
  ghost function Stage(h: seq<real>, d: nat, x: seq<C>): (y: seq<C>)
    requires d > 0
    ensures |y| == |x| / d
  {
    seq(Count(|x|, d), k => StageAt(h, d, x, k))
  }

  /** Output k of a stage: the FIR output at the last of (k + 1) * d inputs. */
  ghost function StageAt(h: seq<real>, d: nat, x: seq<C>, k: int): C {
    FirAt(h, x, (k + 1) * d - 1)
  }

  lemma FirStable(h: seq<real>, x: seq<C>, y: seq<C>, t: int)
    requires t < |x|
    ensures FirAt(h, x + y, t) == FirAt(h, x, t)
  {
    SumEq(|h|, j => FirTerm(h, x + y, t, j), j => FirTerm(h, x, t, j));
  }

  lemma FirBeforeStart(h: seq<real>, x: seq<C>, t: int)
    requires t < 0
    ensures FirAt(h, x, t) == Zero
  {
    SumZero(|h|, j => FirTerm(h, x, t, j));
  }

  /** One more input gives one more output exactly when the phase wraps. */
  lemma StageStep(h: seq<real>, d: nat, x: seq<C>, v: C)
    requires d > 0
    ensures Stage(h, d, x + [v]) ==
            Stage(h, d, x) + if (|x| + 1) % d == 0 then [FirAt(h, x + [v], |x|)] else []
  {
    var y := x + [v];
    PhaseStep(|x|, d);
    forall k | 0 <= k < |x| / d
      ensures StageAt(h, d, y, k) == StageAt(h, d, x, k)
    {
      OutputDue(|x|, d, k);
      FirStable(h, x, [v], (k + 1) * d - 1);
    }
    assert (|x| + 1) % d == 0 ==> StageAt(h, d, y, |x| / d) == FirAt(h, y, |x|);
    hide StageAt, FirAt;
    var z := Stage(h, d, x) + if (|x| + 1) % d == 0 then [FirAt(h, y, |x|)] else [];
    assert |Stage(h, d, y)| == |z|;
    forall k | 0 <= k < |z|
      ensures Stage(h, d, y)[k] == z[k]
    {
    }
  }

  lemma PhaseStep(n: nat, d: nat)
    requires d > 0
    ensures (n + 1) % d == (if n % d + 1 == d then 0 else n % d + 1)
    ensures (n + 1) / d == (if n % d + 1 == d then n / d + 1 else n / d)
    ensures (n + 1) % d == 0 ==> (n / d + 1) * d - 1 == n
  {
    assert n == (n / d) * d + n % d;
    assert (n / d + 1) * d == (n / d) * d + d;
    if n % d + 1 == d {
      DivModUnique(n + 1, d, n / d + 1, 0);
    } else {
      DivModUnique(n + 1, d, n / d, n % d + 1);
    }
  }

  /** Output k of a decimator is due once (k + 1) * d inputs have arrived. */
  lemma OutputDue(n: nat, d: nat, k: nat)
    requires d > 0 && k < n / d
    ensures 0 <= (k + 1) * d - 1 < n
  {
    assert n == (n / d) * d + n % d;
    MulMono(k + 1, n / d, d);
    MulMono(1, k + 1, d);
  }

  /** A stage's outputs so far never change when more input arrives. */
  lemma StagePrefix(h: seq<real>, d: nat, x: seq<C>, y: seq<C>)
    requires d > 0
    ensures Stage(h, d, x) <= Stage(h, d, x + y)
  {
    DivMono(|x|, |x + y|, d);
    forall k | 0 <= k < |x| / d
      ensures Stage(h, d, x + y)[k] == Stage(h, d, x)[k]
    {
      OutputDue(|x|, d, k);
      FirStable(h, x, y, (k + 1) * d - 1);
    }
  }

  // ------------------------------------------------------- doubled history

  /** hist holds the last n samples of x twice, the oldest at pos: the window
      hist[pos .. pos + n] is contiguous whatever pos is. */
  ghost predicate Ring(hist: seq<C>, pos: nat, n: nat, x: seq<C>) {
    && |hist| == 2 * n && pos < n
    && (forall c :: 0 <= c < n ==> hist[c] == hist[c + n])
    && (forall i :: pos <= i < pos + n ==> hist[i] == At(x, |x| - n + (i - pos)))
  }

  lemma RingStart(hist: seq<C>, n: nat)
    requires n > 0 && |hist| == 2 * n && forall i :: 0 <= i < |hist| ==> hist[i] == Zero
    ensures Ring(hist, 0, n, [])
  {
  }

  lemma RingPushed(hist: seq<C>, pos: nat, n: nat, x: seq<C>, v: C, hist': seq<C>, pos': nat)
    requires Ring(hist, pos, n, x)
    requires hist' == hist[pos := v][pos + n := v]
    requires pos' == if pos + 1 == n then 0 else pos + 1
    ensures Ring(hist', pos', n, x + [v])
  {
    forall c | 0 <= c < n
      ensures hist'[c] == hist'[c + n]
    {
      assert hist[c] == hist[c + n];
    }
    forall i | pos' <= i < pos' + n
      ensures hist'[i] == At(x + [v], |x| + 1 - n + (i - pos'))
    {
      if pos' == 0 && i < n - 1 {
        assert hist[i] == hist[i + n];
      }
    }
  }

  /** Writes one sample into both copies and moves the ring position. */
  method PushSample(a: array<C>, pos: nat, n: nat, v: C, ghost x: seq<C>) returns (next: nat)
    requires Ring(a[..], pos, n, x)
    modifies a
    ensures Ring(a[..], next, n, x + [v])
  {
    ghost var before := a[..];
    a[pos] := v;
    a[pos + n] := v;
    next := pos + 1;
    if next == n { next := 0; }
    assert a[..] == before[pos := v][pos + n := v];
    RingPushed(before, pos, n, x, v, a[..], next);
  }

  // ------------------------------------------------------------ dot products

  lemma WindowTerm(h: seq<real>, hist: seq<C>, pos: nat, x: seq<C>, j: nat)
    requires Ring(hist, pos, |h|, x) && j < |h|
    ensures Scale(h[j], hist[pos + j]) == FirTerm(h, x, |x| - 1, j)
  {
  }

  /** Scalar kernel. */
  method DotScalar(h: seq<real>, a: array<C>, pos: nat, ghost x: seq<C>) returns (acc: C)
    requires Ring(a[..], pos, |h|, x)
    ensures acc == FirAt(h, x, |x| - 1)
  {
    hide Scale, Add;
    acc := Zero;
    for j := 0 to |h|
      invariant acc == Sum(j, i => FirTerm(h, x, |x| - 1, i))
    {
      WindowTerm(h, a[..], pos, x, j);
      acc := Add(acc, Scale(h[j], a[pos + j]));
    }
  }

  /** Eight-lane kernel: lane l adds up the terms l, l + 8, l + 16, ... */
  method DotLanes(h: seq<real>, a: array<C>, pos: nat, ghost x: seq<C>) returns (acc: C)
    requires Ring(a[..], pos, |h|, x) && |h| % 8 == 0
    ensures acc == FirAt(h, x, |x| - 1)
  {
    ghost var f := j => FirTerm(h, x, |x| - 1, j);
    hide FirTerm, Scale, Add, Ring;
    var lanes := LaneSums(h, a, pos, x, f);
    acc := Zero;
    for l := 0 to 8
      invariant acc == Sum(l, i => LaneTotal(f, i, |h| / 8))
    {
      acc := Add(acc, lanes[l]);
    }
    SumByResidue(8, |h| / 8, f);
    SumEq(8, i => LaneTotal(f, i, |h| / 8), r => Sum(|h| / 8, j => f(j * 8 + r)));
    SumEq(|h|, f, j => FirTerm(h, x, |x| - 1, j));
  }

  method LaneSums(h: seq<real>, a: array<C>, pos: nat, ghost x: seq<C>, ghost f: int -> C) returns (lanes: seq<C>)
    requires Ring(a[..], pos, |h|, x) && |h| % 8 == 0
    requires forall j :: 0 <= j < |h| ==> f(j) == FirTerm(h, x, |x| - 1, j)
    ensures |lanes| == 8 && forall l :: 0 <= l < 8 ==> lanes[l] == LaneTotal(f, l, |h| / 8)
  {
    hide FirTerm, Scale, Add, Ring;
    lanes := seq(8, _ => Zero);
    var k := 0;
    while k < |h|
      invariant 0 <= k <= |h| && k % 8 == 0 && |lanes| == 8
      invariant forall l :: 0 <= l < 8 ==> lanes[l] == LaneTotal(f, l, k / 8)
    {
      ghost var before := lanes;
      var step := LaneProducts(h, a, pos, k, x);
      lanes := seq(8, l requires 0 <= l < 8 => Add(lanes[l], step[l]));
      forall l | 0 <= l < 8
        ensures lanes[l] == LaneTotal(f, l, k / 8 + 1)
      {
        assert lanes[l] == Add(before[l], step[l]);
        assert (k / 8) * 8 + l == k + l;
      }
      k := k + 8;
    }
  }

  ghost function LaneTotal(f: int -> C, lane: int, blocks: nat): C {
    Sum(blocks, j => f(j * 8 + lane))
  }

  method LaneProducts(h: seq<real>, a: array<C>, pos: nat, k: nat, ghost x: seq<C>) returns (step: seq<C>)
    requires Ring(a[..], pos, |h|, x) && k + 8 <= |h|
    ensures |step| == 8
    ensures forall l :: 0 <= l < 8 ==> step[l] == FirTerm(h, x, |x| - 1, k + l)
  {
    hide Scale, FirTerm;
    step := [];
    for l := 0 to 8
      invariant |step| == l
      invariant forall i :: 0 <= i < l ==> step[i] == FirTerm(h, x, |x| - 1, k + i)
    {
      WindowTerm(h, a[..], pos, x, k + l);
      step := step + [Scale(h[k + l], a[pos + (k + l)])];
    }
  }

  method Dot(h: seq<real>, a: array<C>, pos: nat, avx2: bool, ghost x: seq<C>) returns (acc: C)
    requires Ring(a[..], pos, |h|, x) && |h| % 8 == 0
    ensures acc == FirAt(h, x, |x| - 1)
  {
    if avx2 { acc := DotLanes(h, a, pos, x); } else { acc := DotScalar(h, a, pos, x); }
  }

  // ------------------------------------------------------- fusing two stages

  function NextMultipleOf8(n: nat): (k: nat)
    ensures k % 8 == 0 && n <= k < n + 8
  {
    (n + 7) / 8 * 8
  }

  /** Contribution of coefficient i of the first and j of the second stage. */
  ghost function PairTerm(h1: seq<real>, h2: seq<real>, x: seq<C>, t: int, i: int, j: int): C {
    Scale(Tap(h1, i) * Tap(h2, j), At(x, t - (|h1| + |h2| - 1) + 1 + i + j))
  }

  /** Everything contributed before pair (i, j), row by row. */
  ghost function PairSum(h1: seq<real>, h2: seq<real>, x: seq<C>, t: int, i: nat, j: nat): C {
    Add(Sum(i, a => RowSum(h1, h2, x, t, a, |h2|)), RowSum(h1, h2, x, t, i, j))
  }

  ghost function RowSum(h1: seq<real>, h2: seq<real>, x: seq<C>, t: int, i: int, n: nat): C {
    Sum(n, b => PairTerm(h1, h2, x, t, i, b))
  }

  ghost function ColumnSum(h1: seq<real>, h2: seq<real>, x: seq<C>, t: int, j: int): C {
    Sum(|h1|, a => PairTerm(h1, h2, x, t, a, j))
  }

  /** As a filter, g acts as all pairs before (i, j). */
  ghost predicate ActsAs(g: seq<real>, h1: seq<real>, h2: seq<real>, i: nat, j: nat) {
    forall x: seq<C>, t: int :: FirAt(g, x, t) == PairSum(h1, h2, x, t, i, j)
  }

  lemma {:induction false} SumBump(n: nat, f: int -> C, g: int -> C, c: nat, v: C)
    requires c < n && g(c) == Add(f(c), v)
    requires forall i :: 0 <= i < n && i != c ==> f(i) == g(i)
    ensures Sum(n, g) == Add(Sum(n, f), v)
  {
    if c == n - 1 {
      SumEq(n - 1, f, g);
    } else {
      SumBump(n - 1, f, g, c, v);
    }
  }

  /** Adding v to one coefficient adds v times that coefficient's sample. */
  lemma FirBump(g: seq<real>, g': seq<real>, c: nat, v: real, x: seq<C>, t: int)
    requires c < |g| && g' == g[c := g[c] + v]
    ensures FirAt(g', x, t) == Add(FirAt(g, x, t), Scale(v, At(x, t - |g| + 1 + c)))
  {
    var s := At(x, t - |g| + 1 + c);
    RealSpread(g[c], v, s.re);
    RealSpread(g[c], v, s.im);
    SumBump(|g|, j => FirTerm(g, x, t, j), j => FirTerm(g', x, t, j), c, Scale(v, s));
  }

  lemma ZeroFilter(g: seq<real>, x: seq<C>, t: int)
    requires forall i :: 0 <= i < |g| ==> g[i] == 0.0
    ensures FirAt(g, x, t) == Zero
  {
    SumZero(|g|, j => FirTerm(g, x, t, j));
  }

  lemma ActsAsStart(g: seq<real>, h1: seq<real>, h2: seq<real>)
    requires forall i :: 0 <= i < |g| ==> g[i] == 0.0
    ensures ActsAs(g, h1, h2, 0, 0)
  {
    forall x: seq<C>, t: int
      ensures FirAt(g, x, t) == PairSum(h1, h2, x, t, 0, 0)
    {
      ZeroFilter(g, x, t);
    }
  }

  lemma ActsAsStep(g: seq<real>, g': seq<real>, h1: seq<real>, h2: seq<real>, i: nat, j: nat, product: real)
    requires i < |h1| && j < |h2| && |g| >= |h1| + |h2| - 1 && product == h1[i] * h2[j]
    requires var c := |g| - (|h1| + |h2| - 1) + i + j; g' == g[c := g[c] + product]
    requires ActsAs(g, h1, h2, i, j)
    ensures ActsAs(g', h1, h2, i, j + 1)
  {
    var c := |g| - (|h1| + |h2| - 1) + i + j;
    hide FirAt, PairSum;
    forall x: seq<C>, t: int
      ensures FirAt(g', x, t) == PairSum(h1, h2, x, t, i, j + 1)
    {
      FirBump(g, g', c, product, x, t);
      assert FirAt(g, x, t) == PairSum(h1, h2, x, t, i, j);
      PairSumNext(h1, h2, x, t, i, j);
    }
  }

  lemma PairSumNext(h1: seq<real>, h2: seq<real>, x: seq<C>, t: int, i: nat, j: nat)
    ensures PairSum(h1, h2, x, t, i, j + 1) == Add(PairSum(h1, h2, x, t, i, j), PairTerm(h1, h2, x, t, i, j))
  {
    hide PairTerm;
  }

  lemma ActsAsRow(g: seq<real>, h1: seq<real>, h2: seq<real>, i: nat)
    requires ActsAs(g, h1, h2, i, |h2|)
    ensures ActsAs(g, h1, h2, i + 1, 0)
  {
    forall x: seq<C>, t: int
      ensures FirAt(g, x, t) == PairSum(h1, h2, x, t, i + 1, 0)
    {
      assert FirAt(g, x, t) == PairSum(h1, h2, x, t, i, |h2|);
      PairSumRow(h1, h2, x, t, i);
    }
  }

  lemma PairSumRow(h1: seq<real>, h2: seq<real>, x: seq<C>, t: int, i: nat)
    ensures PairSum(h1, h2, x, t, i + 1, 0) == PairSum(h1, h2, x, t, i, |h2|)
  {
    hide PairTerm;
  }

  /** Builds one filter out of two, zero-padded in front to whole lanes. */
  method Fuse(h1: seq<real>, h2: seq<real>) returns (g: seq<real>)
    requires |h1| > 0 && |h2| > 0
    ensures |g| == NextMultipleOf8(|h1| + |h2| - 1)
    ensures ActsAs(g, h1, h2, |h1|, 0)
  {
    hide ActsAs, NextMultipleOf8;
    var length := |h1| + |h2| - 1;
    var fused := new real[NextMultipleOf8(length)](_ => 0.0);
    ActsAsStart(fused[..], h1, h2);
    for i := 0 to |h1|
      invariant ActsAs(fused[..], h1, h2, i, 0)
    {
      FuseRow(fused, h1, h2, i);
    }
    g := fused[..];
  }

  /** Adds the products of one coefficient of the first stage. */
  method FuseRow(fused: array<real>, h1: seq<real>, h2: seq<real>, i: nat)
    requires i < |h1| && |h2| > 0 && fused.Length >= |h1| + |h2| - 1 && ActsAs(fused[..], h1, h2, i, 0)
    modifies fused
    ensures ActsAs(fused[..], h1, h2, i + 1, 0)
  {
    hide ActsAs;
    var pad := fused.Length - (|h1| + |h2| - 1);
    for j := 0 to |h2|
      invariant ActsAs(fused[..], h1, h2, i, j)
    {
      ghost var before := fused[..];
      var product := h1[i] * h2[j];
      fused[pad + i + j] := fused[pad + i + j] + product;
      ActsAsStep(before, fused[..], h1, h2, i, j, product);
    }
    ActsAsRow(fused[..], h1, h2, i);
  }

  /** The second stage over the first, term by term. */
  lemma TwoStages(h1: seq<real>, h2: seq<real>, x: seq<C>, t: int)
    requires t < |x| && |h1| > 0 && |h2| > 0
    ensures FirAt(h2, Stage(h1, 1, x), t) == PairSum(h1, h2, x, t, |h1|, 0)
  {
    var y := Stage(h1, 1, x);
    forall j: int | 0 <= j < |h2|
      ensures FirTerm(h2, y, t, j) == ColumnSum(h1, h2, x, t, j)
    {
      SecondStageTerm(h1, h2, x, t, j);
    }
    hide FirTerm, ColumnSum, RowSum;
    SumEq(|h2|, j => FirTerm(h2, y, t, j), j => ColumnSum(h1, h2, x, t, j));
    RowsAreColumns(h1, h2, x, t);
    RowSumEmpty(h1, h2, x, t);
  }

  lemma RowSumEmpty(h1: seq<real>, h2: seq<real>, x: seq<C>, t: int)
    ensures RowSum(h1, h2, x, t, |h1|, 0) == Zero
  {
  }

  lemma RowsAreColumns(h1: seq<real>, h2: seq<real>, x: seq<C>, t: int)
    ensures Sum(|h1|, a => RowSum(h1, h2, x, t, a, |h2|)) == Sum(|h2|, b => ColumnSum(h1, h2, x, t, b))
  {
    hide PairTerm;
    var f := (i, j) => PairTerm(h1, h2, x, t, i, j);
    forall i: int
      ensures RowSum(h1, h2, x, t, i, |h2|) == Sum(|h2|, j => f(i, j))
    {
      SumEq(|h2|, b => PairTerm(h1, h2, x, t, i, b), j => f(i, j));
    }
    forall j: int
      ensures ColumnSum(h1, h2, x, t, j) == Sum(|h1|, i => f(i, j))
    {
      SumEq(|h1|, a => PairTerm(h1, h2, x, t, a, j), i => f(i, j));
    }
    SumSwap(|h1|, |h2|, f);
    SumEq(|h1|, a => RowSum(h1, h2, x, t, a, |h2|), i => Sum(|h2|, j => f(i, j)));
    SumEq(|h2|, b => ColumnSum(h1, h2, x, t, b), j => Sum(|h1|, i => f(i, j)));
  }

  lemma SecondStageTerm(h1: seq<real>, h2: seq<real>, x: seq<C>, t: int, j: int)
    requires t < |x| && 0 <= j < |h2|
    ensures FirTerm(h2, Stage(h1, 1, x), t, j) == ColumnSum(h1, h2, x, t, j)
  {
    var n := t - |h2| + 1 + j;
    var k := Tap(h2, j);
    FirstStageSample(h1, x, n);
    assert FirTerm(h2, Stage(h1, 1, x), t, j) == Scale(k, FirAt(h1, x, n));
    hide Scale, PairTerm, Stage, FirTerm, Tap;
    SumScale(|h1|, i => FirTerm(h1, x, n, i), k);
    forall i: int
      ensures Scale(k, FirTerm(h1, x, n, i)) == PairTerm(h1, h2, x, t, i, j)
    {
      ScaledFirst(h1, h2, x, t, i, j);
    }
    SumEq(|h1|, i => Scale(k, (i => FirTerm(h1, x, n, i))(i)), i => PairTerm(h1, h2, x, t, i, j));
  }

  lemma ScaledFirst(h1: seq<real>, h2: seq<real>, x: seq<C>, t: int, i: int, j: int)
    ensures Scale(Tap(h2, j), FirTerm(h1, x, t - |h2| + 1 + j, i)) == PairTerm(h1, h2, x, t, i, j)
  {
    var s := At(x, t - |h2| + 1 + j - |h1| + 1 + i);
    ScaleScale(Tap(h2, j), Tap(h1, i), s);
    assert Tap(h2, j) * Tap(h1, i) == Tap(h1, i) * Tap(h2, j);
    assert s == At(x, t - (|h1| + |h2| - 1) + 1 + i + j);
  }

  lemma FirstStageSample(h: seq<real>, x: seq<C>, n: int)
    requires n < |x|
    ensures At(Stage(h, 1, x), n) == FirAt(h, x, n)
  {
    if n < 0 { FirBeforeStart(h, x, n); }
    assert |x| / 1 == |x|;
  }

  /** The fused filter gives the same outputs at the same instants as the two
      stages in sequence. */
  lemma FusedIsCascade(g: seq<real>, h1: seq<real>, h2: seq<real>, d: nat, x: seq<C>)
    requires d > 0 && |h1| > 0 && |h2| > 0 && ActsAs(g, h1, h2, |h1|, 0)
    ensures Stage(g, d, x) == Stage(h2, d, Stage(h1, 1, x))
  {
    var y := Stage(h1, 1, x);
    assert |x| / 1 == |x|;
    forall k | 0 <= k < |x| / d
      ensures StageAt(g, d, x, k) == StageAt(h2, d, y, k)
    {
      OutputDue(|x|, d, k);
      TwoStages(h1, h2, x, (k + 1) * d - 1);
    }
  }
}

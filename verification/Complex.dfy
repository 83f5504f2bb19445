/** Complex samples, finite sums over them and the twiddle factors of an
    M-point transform. Arithmetic is exact. */
module Complex {
  import opened Arith

  datatype C = C(re: real, im: real)

  const Zero := C(0.0, 0.0)
  const One := C(1.0, 0.0)

  function Add(a: C, b: C): C { C(a.re + b.re, a.im + b.im) }

  function Scale(k: real, a: C): C { C(k * a.re, k * a.im) }

  function Mul(a: C, b: C): C {
    C(a.re * b.re - a.im * b.im, a.re * b.im + a.im * b.re)
  }

  lemma MulAssoc(a: C, b: C, c: C)
    ensures Mul(Mul(a, b), c) == Mul(a, Mul(b, c))
  {
    RealTimes(a.re, b.re, c.re); RealTimes(a.im, b.im, c.re);
    RealTimes(a.re, b.im, c.im); RealTimes(a.im, b.re, c.im);
    RealTimes(a.re, b.re, c.im); RealTimes(a.im, b.im, c.im);
    RealTimes(a.re, b.im, c.re); RealTimes(a.im, b.re, c.re);
    RealSpread(a.re * b.re, -(a.im * b.im), c.re);
    RealSpread(a.re * b.im, a.im * b.re, c.im);
    RealSpread(a.re * b.re, -(a.im * b.im), c.im);
    RealSpread(a.re * b.im, a.im * b.re, c.re);
    RealSpreadLeft(a.re, b.re * c.re, -(b.im * c.im));
    RealSpreadLeft(a.im, b.re * c.im, b.im * c.re);
    RealSpreadLeft(a.re, b.re * c.im, b.im * c.re);
    RealSpreadLeft(a.im, b.re * c.re, -(b.im * c.im));
  }

  lemma RealTimes(a: real, b: real, c: real)
    ensures (a * b) * c == a * (b * c)
  {
  }

  lemma RealSpread(a: real, b: real, c: real)
    ensures (a + b) * c == a * c + b * c
  {
  }

  lemma RealSpreadLeft(a: real, b: real, c: real)
    ensures a * (b + c) == a * b + a * c
  {
  }

  lemma MulOne(a: C)
    ensures Mul(a, One) == a
  {
  }

  lemma MulAdd(a: C, b: C, c: C)
    ensures Mul(Add(a, b), c) == Add(Mul(a, c), Mul(b, c))
  {
    RealSpread(a.re, b.re, c.re); RealSpread(a.im, b.im, c.im);
    RealSpread(a.re, b.re, c.im); RealSpread(a.im, b.im, c.re);
  }

  lemma ScaleMul(k: real, a: C, b: C)
    ensures Mul(Scale(k, a), b) == Scale(k, Mul(a, b))
  {
    RealTimes(k, a.re, b.re); RealTimes(k, a.im, b.im);
    RealTimes(k, a.re, b.im); RealTimes(k, a.im, b.re);
    RealSpreadLeft(k, a.re * b.re, -(a.im * b.im));
    RealSpreadLeft(k, a.re * b.im, a.im * b.re);
  }

  lemma ScaleScale(j: real, k: real, a: C)
    ensures Scale(j, Scale(k, a)) == Scale(j * k, a)
  {
    RealTimes(j, k, a.re); RealTimes(j, k, a.im);
  }

  lemma ScaleAdd(k: real, a: C, b: C)
    ensures Scale(k, Add(a, b)) == Add(Scale(k, a), Scale(k, b))
  {
    RealSpreadLeft(k, a.re, b.re); RealSpreadLeft(k, a.im, b.im);
  }

  // ------------------------------------------------------------- streams

  /** Sample n of a stream that is zero before its start and after its end. */
  function At(x: seq<C>, n: int): C {
    if 0 <= n < |x| then x[n] else Zero
  }

  /** Tap n of a coefficient table, zero outside it. */
  function Tap(h: seq<real>, n: int): real {
    if 0 <= n < |h| then h[n] else 0.0
  }

  // ---------------------------------------------------------------- sums

  /** f(0) + f(1) + ... + f(n-1) */
  ghost function Sum(n: nat, f: int -> C): C {
    if n == 0 then Zero else Add(Sum(n - 1, f), f(n - 1))
  }

  lemma {:induction false} SumEq(n: nat, f: int -> C, g: int -> C)
    requires forall i :: 0 <= i < n ==> f(i) == g(i)
    ensures Sum(n, f) == Sum(n, g)
  {
    if n > 0 { SumEq(n - 1, f, g); }
  }

  lemma {:induction false} SumZero(n: nat, f: int -> C)
    requires forall i :: 0 <= i < n ==> f(i) == Zero
    ensures Sum(n, f) == Zero
  {
    if n > 0 { SumZero(n - 1, f); }
  }

  lemma {:induction false} SumPlus(n: nat, f: int -> C, g: int -> C)
    ensures Sum(n, i => Add(f(i), g(i))) == Add(Sum(n, f), Sum(n, g))
  {
    if n > 0 { SumPlus(n - 1, f, g); }
  }

  lemma {:induction false} SumMul(n: nat, f: int -> C, c: C)
    ensures Sum(n, i => Mul(f(i), c)) == Mul(Sum(n, f), c)
  {
    if n > 0 {
      SumMul(n - 1, f, c);
      MulAdd(Sum(n - 1, f), f(n - 1), c);
    }
  }

  lemma {:induction false} SumScale(n: nat, f: int -> C, k: real)
    ensures Sum(n, i => Scale(k, f(i))) == Scale(k, Sum(n, f))
  {
    if n > 0 {
      SumScale(n - 1, f, k);
      ScaleAdd(k, Sum(n - 1, f), f(n - 1));
    }
  }

  lemma {:induction false} SumAppend(n: nat, k: nat, f: int -> C)
    ensures Sum(n + k, f) == Add(Sum(n, f), Sum(k, i => f(n + i)))
  {
    if k > 0 {
      SumAppend(n, k - 1, f);
      assert n + k - 1 == n + (k - 1);
    }
  }

  lemma SumOne(f: int -> C)
    ensures Sum(1, f) == f(0)
  {
    assert Sum(0, f) == Zero;
  }

  lemma AddCommute(a: C, b: C)
    ensures Add(a, b) == Add(b, a)
  {
  }

  lemma {:induction false} SumReverse(n: nat, f: int -> C)
    ensures Sum(n, i => f(n - 1 - i)) == Sum(n, f)
  {
    hide Mul, Scale, Add;
    if n > 0 {
      var g := i => f(n - 1 - i);
      SumReverse(n - 1, f);
      SumAppend(1, n - 1, g);
      SumOne(g);
      SumEq(n - 1, i => g(1 + i), i => f(n - 1 - 1 - i));
      assert 1 + (n - 1) == n;
      AddCommute(f(n - 1), Sum(n - 1, f));
    }
  }

  /** A sum over n * k terms, taken in k blocks of n. */
  lemma {:induction false} SumBlocks(n: nat, k: nat, f: int -> C)
    ensures n * k >= 0
    ensures Sum(n * k, f) == Sum(k, j => Sum(n, i => f(j * n + i)))
  {
    if k > 0 {
      SumBlocks(n, k - 1, f);
      assert n * k == n * (k - 1) + n;
      SumAppend(n * (k - 1), n, f);
      SumEq(n, i => f(n * (k - 1) + i), i => f((k - 1) * n + i));
    }
  }

  lemma {:induction false} SumSwap(n: nat, k: nat, f: (int, int) -> C)
    ensures Sum(n, i => Sum(k, j => f(i, j))) == Sum(k, j => Sum(n, i => f(i, j)))
  {
    var rows := i => Sum(k, j => f(i, j));
    if n == 0 {
      SumZero(k, j => Sum(n, i => f(i, j)));
    } else {
      SumSwap(n - 1, k, f);
      SumEq(n - 1, rows, i => Sum(k, j => f(i, j)));
      var less := j => Sum(n - 1, i => f(i, j));
      SumPlus(k, less, j => f(n - 1, j));
      SumEq(k, j => Add(less(j), f(n - 1, j)), j => Sum(n, i => f(i, j)));
      SumEq(k, j => Add(less(j), (j => f(n - 1, j))(j)), j => Add(less(j), f(n - 1, j)));
    }
  }

  /** The same sum with its terms grouped by their remainder modulo n. */
  lemma SumByResidue(n: nat, k: nat, f: int -> C)
    requires n * k >= 0
    ensures Sum(n, r => Sum(k, j => f(j * n + r))) == Sum(n * k, f)
  {
    var g := (r, j) => f(j * n + r);
    var inner := r => Sum(k, j => f(j * n + r));
    forall r: int
      ensures inner(r) == Sum(k, j => g(r, j))
    {
      SumEq(k, j => f(j * n + r), j => g(r, j));
    }
    SumEq(n, inner, r => Sum(k, j => g(r, j)));
    SumSwap(n, k, g);
    var outer := j => Sum(n, r => f(j * n + r));
    forall j: int
      ensures outer(j) == Sum(n, r => g(r, j))
    {
      SumEq(n, r => f(j * n + r), r => g(r, j));
    }
    SumEq(k, outer, j => Sum(n, r => g(r, j)));
    SumBlocks(n, k, f);
  }

  // ------------------------------------------------------ twiddle factors

  function Pow(w: C, e: nat): C {
    if e == 0 then One else Mul(Pow(w, e - 1), w)
  }

  lemma {:induction false} PowAdd(w: C, a: nat, b: nat)
    ensures Pow(w, a + b) == Mul(Pow(w, a), Pow(w, b))
  {
    if b == 0 {
      MulOne(Pow(w, a));
    } else {
      PowAdd(w, a, b - 1);
      assert a + b - 1 == a + (b - 1);
      MulAssoc(Pow(w, a), Pow(w, b - 1), w);
    }
  }

  /** w is an m-th root of one. */
  predicate Root(w: C, m: nat) { m > 0 && Pow(w, m) == One }

  /** w to an integer power, for an m-th root of one. */
  function Twiddle(w: C, m: nat, e: int): C
    requires m > 0
  {
    Pow(w, e % m)
  }

  lemma TwiddleAdd(w: C, m: nat, a: int, b: int)
    requires Root(w, m)
    ensures Mul(Twiddle(w, m, a), Twiddle(w, m, b)) == Twiddle(w, m, a + b)
  {
    var p, q := a % m, b % m;
    PowAdd(w, p, q);
    assert a + b == (p + q) + (a / m + b / m) * m by {
      assert a == (a / m) * m + p && b == (b / m) * m + q;
      assert (a / m + b / m) * m == (a / m) * m + (b / m) * m;
    }
    DivModShift(p + q, a / m + b / m, m);
    if p + q >= m {
      PowAdd(w, p + q - m, m);
      MulOne(Pow(w, p + q - m));
      DivModUnique(p + q, m, 1, p + q - m);
    } else {
      DivModUnique(p + q, m, 0, p + q);
    }
  }

  /** Two rotations in a row are one rotation. */
  lemma Rotations(w: C, m: nat, v: C, a: int, b: int)
    requires Root(w, m)
    ensures Mul(Mul(v, Twiddle(w, m, a)), Twiddle(w, m, b)) == Mul(v, Twiddle(w, m, a + b))
  {
    MulAssoc(v, Twiddle(w, m, a), Twiddle(w, m, b));
    TwiddleAdd(w, m, a, b);
  }

  /** Exponents that differ by a multiple of m give the same factor. */
  lemma TwiddleShift(w: C, m: nat, e: int, k: int)
    requires m > 0
    ensures Twiddle(w, m, e + k * m) == Twiddle(w, m, e)
  {
    DivModShift(e, k, m);
  }

  /** A factor with an exponent that is not negative is that power. */
  lemma TwiddleIsPow(w: C, m: nat, e: nat)
    requires Root(w, m)
    ensures Twiddle(w, m, e) == Pow(w, e)
  {
    DivGe(e, m, 0);
    QuotientAndRest(e, m);
    PowWhole(w, m, e % m, e / m);
    hide Mul, Pow;
  }

  lemma QuotientAndRest(e: nat, m: nat)
    requires m > 0
    ensures e % m + (e / m) * m == e
  {
  }

  lemma {:induction false} PowWhole(w: C, m: nat, e: nat, q: nat)
    requires Root(w, m)
    ensures 0 <= q * m && Pow(w, e + q * m) == Pow(w, e)
  {
    if q > 0 {
      PowWhole(w, m, e, q - 1);
      assert q * m == (q - 1) * m + m;
      PowAdd(w, e + (q - 1) * m, m);
      MulOne(Pow(w, e));
    }
  }

  /** The factor with a negative exponent undoes that power. */
  lemma TwiddleBack(w: C, m: nat, e: nat)
    requires Root(w, m)
    ensures Mul(Pow(w, e), Twiddle(w, m, 0 - e)) == One
  {
    TwiddleIsPow(w, m, e);
    TwiddleAdd(w, m, e, 0 - e);
    TwiddleIsPow(w, m, 0);
    hide Mul, Twiddle;
    assert Twiddle(w, m, e + (0 - e)) == One;
  }

  /** The sum of a coefficient table. */
  function Total(h: seq<real>): real { if h == [] then 0.0 else Total(h[..|h| - 1]) + h[|h| - 1] }

  lemma {:induction false} SumTaps(h: seq<real>, n: nat, f: int -> C)
    requires n <= |h| && forall i :: 0 <= i < n ==> f(i) == C(h[i], 0.0)
    ensures Sum(n, f) == C(Total(h[..n]), 0.0)
  {
    if n > 0 {
      SumTaps(h, n - 1, f);
      assert h[..n][..n - 1] == h[..n - 1];
    }
  }
}

/** The numerically controlled oscillator of a channel: sample n of a stream is
    multiplied by the n-th power of a unit rotation, whatever packet it comes in. */
module Oscillator {
  import opened Complex

  /** Steps between two renormalisations. */
  const RENORMALIZE: nat := 4096

  /** A rotation: the exact cosine and sine of an angle. */
  predicate Unit(w: C) { w.re * w.re + w.im * w.im == 1.0 }

  lemma UnitMul(a: C, b: C)
    requires Unit(a) && Unit(b)
    ensures Unit(Mul(a, b))
  {
    NormMul(a.re, a.im, b.re, b.im);
  }

  lemma NormMul(a: real, b: real, c: real, d: real)
    ensures (a * c - b * d) * (a * c - b * d) + (a * d + b * c) * (a * d + b * c)
            == (a * a + b * b) * (c * c + d * d)
  {
    var p, q, r, s := a * c, b * d, a * d, b * c;
    assert p * q == r * s;
    assert p * p == (a * a) * (c * c) && q * q == (b * b) * (d * d);
    assert r * r == (a * a) * (d * d) && s * s == (b * b) * (c * c);
  }

  lemma {:induction false} PowUnit(w: C, n: nat)
    requires Unit(w)
    ensures Unit(Pow(w, n))
  {
    if n > 0 {
      PowUnit(w, n - 1);
      UnitMul(Pow(w, n - 1), w);
    }
  }

  /** A whole stream, rotated. */
  function Mixed(w: C, x: seq<C>): (m: seq<C>)
    ensures |m| == |x|
  {
    seq(|x|, i requires 0 <= i < |x| => Mul(x[i], Pow(w, i)))
  }

  /** The next sample is rotated by the next power, also across packets. */
  lemma MixedNext(w: C, x: seq<C>, v: C)
    ensures Mixed(w, x + [v]) == Mixed(w, x) + [Mul(v, Pow(w, |x|))]
  {
    hide Mul, Pow;
  }

  /** Without an offset mixing changes nothing. */
  lemma MixedByOne(x: seq<C>)
    ensures Mixed(One, x) == x
  {
    forall i | 0 <= i < |x|
      ensures Mixed(One, x)[i] == x[i]
    {
      PowOne(i);
      MulOne(x[i]);
    }
  }

  lemma {:induction false} PowOne(n: nat)
    ensures Pow(One, n) == One
  {
    hide Mul;
    if n > 0 {
      PowOne(n - 1);
      MulOne(One);
    }
  }

  datatype Oscillator = Oscillator(step: C, value: C, normalize: nat) {
    /** It has rotated n samples. */
    ghost predicate After(n: nat) {
      Unit(step) && value == Pow(step, n) && normalize == n % RENORMALIZE
    }
  }

  function Start(step: C): Oscillator { Oscillator(step, One, 0) }

  /** Rotates one sample and steps. The renormalisation divides by the magnitude,
      which exact arithmetic leaves at one. */
  method Mix(osc: Oscillator, v: C, ghost n: nat) returns (m: C, next: Oscillator)
    requires osc.After(n)
    ensures m == Mul(v, Pow(osc.step, n)) && next.step == osc.step && next.After(n + 1)
  {
    PowUnit(osc.step, n);
    UnitMul(osc.value, osc.step);
    hide Unit, Mul;
    m := Mul(v, osc.value);
    var value := Mul(osc.value, osc.step);
    var normalize := osc.normalize + 1;
    if normalize == RENORMALIZE {
      value := Renormalized(value);
      normalize := 0;
    }
    next := Oscillator(osc.step, value, normalize);
  }

  predicate IsMagnitude(m: real, w: C) { m > 0.0 && m * m == w.re * w.re + w.im * w.im }

  method Renormalized(w: C) returns (r: C)
    requires Unit(w)
    ensures r == w
  {
    assert IsMagnitude(1.0, w);
    var magnitude: real :| IsMagnitude(magnitude, w);
    assert IsMagnitude(magnitude, w);
    PositiveRoot(magnitude);
    r := C(w.re / magnitude, w.im / magnitude);
  }

  lemma PositiveRoot(m: real)
    requires m > 0.0 && m * m == 1.0
    ensures m == 1.0
  {
    assert (m - 1.0) * (m + 1.0) == 0.0;
  }
}

/** Integer facts shared by the models: quotients with a variable divisor,
    powers of two, greatest common divisors and lowest terms. */
module Arith {

  /** A quotient and a remainder in range are the quotient and the remainder. */
  lemma DivModUnique(n: int, m: int, q: int, r: int)
    requires m > 0 && 0 <= r < m && n == q * m + r
    ensures n / m == q && n % m == r
  {
    assert n == (n / m) * m + n % m;
    assert (n / m - q) * m == (n / m) * m - q * m;
    SmallMultiple(n / m - q, m);
  }

  /** The only multiple of m strictly between -m and m is zero. */
  lemma SmallMultiple(d: int, m: int)
    requires -m < d * m < m
    ensures d == 0
  {
    if d >= 1 { MulMono(1, d, m); } else if d <= -1 { MulMono(d, -1, m); }
  }

  lemma MulMono(a: int, b: int, c: int)
    requires a <= b && c >= 0
    ensures a * c <= b * c
  {
    assert (b - a) * c >= 0;
  }

  /** Adding a multiple of m shifts the quotient and keeps the remainder. */
  lemma DivModShift(n: int, k: int, m: int)
    requires m > 0
    ensures (n + k * m) / m == n / m + k && (n + k * m) % m == n % m
  {
    assert n + k * m == (n / m + k) * m + n % m by {
      assert n == (n / m) * m + n % m;
      assert (n / m + k) * m == (n / m) * m + k * m;
    }
    DivModUnique(n + k * m, m, n / m + k, n % m);
  }

  /** Reading a bounded sum: one step inside a block keeps the block. */
  lemma DivModStep(n: int, i: int, m: int)
    requires m > 0 && 0 <= i && n % m + i < m
    ensures (n + i) / m == n / m && (n + i) % m == n % m + i
  {
    assert n == (n / m) * m + n % m;
    DivModUnique(n + i, m, n / m, n % m + i);
  }

  /** x / m >= k exactly when x reaches k * m. */
  lemma DivGe(x: int, m: int, k: int)
    requires m > 0
    ensures x / m >= k <==> x >= k * m
  {
    assert x == (x / m) * m + x % m;
    if x / m >= k {
      MulMono(k, x / m, m);
    } else {
      MulMono(x / m + 1, k, m);
    }
  }

  /** Dividing in two steps is dividing once by the product, and the low part
      of the product's remainder is the first remainder. */
  lemma ModMod(n: int, a: int, b: int)
    requires a > 0 && b > 0
    ensures a * b > 0
    ensures (n % (a * b)) % a == n % a
    ensures (n % (a * b)) / a == (n / a) % b
    ensures (n / a) / b == n / (a * b)
  {
    MulMono(1, b, a);
    var m := a * b;
    var r := n % m;
    assert n == r + ((n / m) * b) * a by {
      assert n == (n / m) * m + r;
      assert (n / m) * m == ((n / m) * b) * a;
    }
    DivModShift(r, (n / m) * b, a);
    DivGe(r, a, b);
    DivGe(r, a, 0);
    DivModUnique(n / a, b, n / m, r / a);
  }

  /** Quotients are monotone. */
  lemma DivMono(a: int, b: int, m: int)
    requires m > 0 && a <= b
    ensures a / m <= b / m
  {
    if a / m > b / m {
      assert a == (a / m) * m + a % m;
      assert b == (b / m) * m + b % m;
      MulMono(b / m + 1, a / m, m);
    }
  }

  /** Integer division rounded towards plus infinity. */
  function CeilDiv(n: int, m: int): (q: int)
    requires m > 0
    ensures q * m >= n > (q - 1) * m
  {
    assert n == (n / m) * m + n % m;
    if n % m == 0 then n / m
    else
      assert (n / m + 1) * m == (n / m) * m + m;
      n / m + 1
  }

  /** The ceiling is the least integer whose multiple reaches n. */
  lemma CeilDivLe(n: int, m: int, x: int)
    requires m > 0
    ensures CeilDiv(n, m) <= x <==> n <= x * m
  {
    var q := CeilDiv(n, m);
    if q <= x {
      MulMono(q, x, m);
    } else {
      MulMono(x, q - 1, m);
    }
  }

  lemma CeilDivShift(n: int, k: int, m: int)
    requires m > 0
    ensures CeilDiv(n + k * m, m) == CeilDiv(n, m) + k
  {
    DivModShift(n, k, m);
  }

  ghost predicate IsPow2(n: int)
    decreases n
  {
    n == 1 || (n > 1 && n % 2 == 0 && IsPow2(n / 2))
  }

  function Pow2(k: nat): (p: nat)
    ensures p >= 1
  {
    if k == 0 then 1 else 2 * Pow2(k - 1)
  }

  lemma {:induction false} Pow2Add(a: nat, b: nat)
    ensures Pow2(a + b) == Pow2(a) * Pow2(b)
  {
    if b > 0 {
      Pow2Add(a, b - 1);
      assert a + b - 1 == a + (b - 1);
    }
  }

  lemma Pow2Mono(a: nat, b: nat)
    requires a <= b
    ensures Pow2(a) <= Pow2(b)
  {
    Pow2Add(a, b - a);
    MulMono(1, Pow2(b - a), Pow2(a));
  }

  lemma Pow2Values()
    ensures Pow2(8) == 0x100 && Pow2(16) == 0x1_0000 && Pow2(32) == 0x1_0000_0000
    ensures Pow2(64) == 0x1_0000_0000_0000_0000
  {
    assert Pow2(4) == 16;
    Pow2Add(4, 4);
    Pow2Add(8, 8);
    Pow2Add(16, 16);
    Pow2Add(32, 32);
  }

  lemma {:induction false} Pow2IsPow2(k: nat)
    ensures IsPow2(Pow2(k))
  {
    if k > 0 { Pow2IsPow2(k - 1); }
  }

  /** A smaller power of two divides a larger one. */
  lemma {:induction false} Pow2Divides(a: int, b: int)
    requires IsPow2(a) && IsPow2(b) && a <= b
    ensures b % a == 0
    decreases a
  {
    if a > 1 {
      Pow2Divides(a / 2, b / 2);
      var k := (b / 2) / (a / 2);
      assert b / 2 == k * (a / 2) + (b / 2) % (a / 2);
      assert b == k * a by { assert a == 2 * (a / 2); }
      DivModUnique(b, a, k, 0);
    }
  }

  /** Every power of two up to 2^16 divides the range of a 64-bit counter. */
  lemma Pow2DividesClock(n: int)
    requires IsPow2(n) && n <= 0x1_0000
    ensures 0x1_0000_0000_0000_0000 % n == 0
  {
    Pow2Values();
    Pow2IsPow2(64);
    hide IsPow2, Pow2;
    Pow2Divides(n, Pow2(64));
  }

  /** A power of two of at least eight is a multiple of eight. */
  lemma Pow2Eight(n: int)
    requires IsPow2(n) && n >= 8
    ensures n % 8 == 0
  {
    assert IsPow2(n / 2) && IsPow2(n / 2 / 2);
  }

  lemma DoubleProduct(a: int, h: int, b: int)
    requires a == 2 * h
    ensures a * b == 2 * (h * b) && a * b / 2 == h * b && a * b % 2 == 0
  {
  }

  lemma {:induction false} Pow2Mul(a: int, b: int)
    requires IsPow2(a) && IsPow2(b)
    ensures a * b > 0 && IsPow2(a * b)
    decreases a
  {
    if a > 1 {
      Pow2Mul(a / 2, b);
      DoubleProduct(a, a / 2, b);
    }
  }

  // ------------------------------------------------ greatest common divisors

  function Gcd(a: nat, b: nat): (g: nat)
    ensures a > 0 || b > 0 ==> g > 0
    decreases b
  {
    if b == 0 then a else Gcd(b, a % b)
  }

  /** d divides n. */
  predicate Divides(d: nat, n: int)
  {
    d > 0 && n % d == 0
  }

  lemma DividesIntro(d: nat, n: int, k: int)
    requires d > 0 && n == k * d
    ensures Divides(d, n) && n / d == k
  {
    DivModUnique(n, d, k, 0);
  }

  lemma DividesElim(d: nat, n: int)
    requires Divides(d, n)
    ensures n == (n / d) * d
  {
    assert n == (n / d) * d + n % d;
  }

  lemma DividesLinear(d: nat, x: int, y: int, a: int, b: int)
    requires Divides(d, x) && Divides(d, y)
    ensures Divides(d, a * x + b * y)
  {
    DividesElim(d, x);
    DividesElim(d, y);
    var k := a * (x / d) + b * (y / d);
    assert a * x + b * y == k * d by {
      assert a * x == (a * (x / d)) * d;
      assert b * y == (b * (y / d)) * d;
    }
    DividesIntro(d, a * x + b * y, k);
  }

  /** The gcd divides both arguments. */
  lemma {:induction false} GcdDivides(a: nat, b: nat)
    requires a > 0 || b > 0
    ensures Divides(Gcd(a, b), a) && Divides(Gcd(a, b), b)
    decreases b
  {
    var g := Gcd(a, b);
    if b == 0 {
      DividesIntro(g, a, 1);
      DividesIntro(g, b, 0);
    } else {
      GcdDivides(b, a % b);
      DividesLinear(g, b, a % b, a / b, 1);
      assert (a / b) * b + 1 * (a % b) == a;
    }
  }

  /** Bezout: the gcd is an integer combination of its arguments. */
  lemma {:induction false} Bezout(a: nat, b: nat) returns (x: int, y: int)
    ensures x * a + y * b == Gcd(a, b)
    decreases b
  {
    if b == 0 {
      x, y := 1, 0;
    } else {
      var u, v := Bezout(b, a % b);
      x, y := v, u - v * (a / b);
      BezoutStep(a, b, a / b, a % b, u, v);
    }
  }

  lemma BezoutStep(a: int, b: int, q: int, r: int, u: int, v: int)
    requires a == q * b + r
    ensures v * a + (u - v * q) * b == u * b + v * r
  {
    assert v * (q * b + r) == v * (q * b) + v * r;
    assert v * (q * b) == (v * q) * b;
    assert (u - v * q) * b == u * b - (v * q) * b;
  }

  predicate Coprime(a: nat, b: nat) { Gcd(a, b) == 1 }

  /** Euclid's lemma for coprime factors. */
  lemma CoprimeDivides(d: nat, a: nat, b: int)
    requires d > 0 && Coprime(d, a) && Divides(d, a * b)
    ensures Divides(d, b)
  {
    var x, y := Bezout(d, a);
    // b == (x*d + y*a)*b == (x*b)*d + y*(a*b)
    DividesIntro(d, d, 1);
    DividesLinear(d, d, a * b, x * b, y);
    assert (x * b) * d + y * (a * b) == b by {
      assert (x * d + y * a) * b == b;
      assert (x * d + y * a) * b == (x * d) * b + (y * a) * b;
      assert (x * d) * b == (x * b) * d;
      assert (y * a) * b == y * (a * b);
    }
  }

  /** Every common divisor divides the gcd. */
  lemma GcdGreatest(a: nat, b: nat, d: nat)
    requires Divides(d, a) && Divides(d, b)
    ensures Divides(d, Gcd(a, b))
  {
    var x, y := Bezout(a, b);
    DividesLinear(d, a, b, x, y);
  }

  lemma DividesLe(d: nat, n: nat)
    requires Divides(d, n) && n > 0
    ensures d <= n
  {
    DividesElim(d, n);
    if n / d <= 0 {
      MulMono(n / d, 0, d);
    } else {
      MulMono(1, n / d, d);
    }
  }

  /** A factor of a quotient, times the divisor, divides the whole. */
  lemma DividesNested(e: nat, g: nat, x: nat)
    requires Divides(g, x) && Divides(e, x / g)
    ensures e * g > 0 && Divides(e * g, x)
  {
    var k := (x / g) / e;
    DividesElim(g, x);
    DividesElim(e, x / g);
    MulMono(1, e, g);
    NestedProduct(x, x / g, k, e, g);
    DividesIntro(e * g, x, k);
  }

  lemma NestedProduct(x: int, p: int, k: int, e: int, g: int)
    requires x == p * g && p == k * e
    ensures x == k * (e * g)
  {
    assert (k * e) * g == k * (e * g);
  }

  lemma QuotientPositive(x: nat, g: nat)
    requires Divides(g, x)
    ensures x / g >= 0 && (x > 0 ==> x / g > 0)
  {
    DividesElim(g, x);
    DivGe(x, g, 0);
  }

  /** Dividing two numbers by their gcd leaves coprime quotients. */
  lemma GcdReduce(a: nat, b: nat)
    requires a > 0 || b > 0
    ensures Divides(Gcd(a, b), a) && Divides(Gcd(a, b), b)
    ensures a / Gcd(a, b) >= 0 && b / Gcd(a, b) >= 0
    ensures Coprime(a / Gcd(a, b), b / Gcd(a, b))
  {
    GcdDivides(a, b);
    QuotientPositive(a, Gcd(a, b));
    QuotientPositive(b, Gcd(a, b));
    QuotientsCoprime(a, b, Gcd(a, b));
  }

  lemma QuotientsCoprime(a: nat, b: nat, g: nat)
    requires (a > 0 || b > 0) && g == Gcd(a, b) && Divides(g, a) && Divides(g, b)
    requires a / g >= 0 && b / g >= 0 && (a / g > 0 || b / g > 0)
    ensures Coprime(a / g, b / g)
  {
    var e := Gcd(a / g, b / g);
    GcdDivides(a / g, b / g);
    DividesNested(e, g, a);
    DividesNested(e, g, b);
    GcdGreatest(a, b, e * g);
    DividesLe(e * g, g);
    if e > 1 { MulMono(2, e, g); }
  }

  lemma GcdSymmetric(a: nat, b: nat)
    requires a > 0 || b > 0
    ensures Gcd(a, b) == Gcd(b, a)
  {
    GcdDivides(a, b);
    GcdDivides(b, a);
    GcdGreatest(a, b, Gcd(b, a));
    GcdGreatest(b, a, Gcd(a, b));
    DividesLe(Gcd(a, b), Gcd(b, a));
    DividesLe(Gcd(b, a), Gcd(a, b));
  }

  /** A fraction in lowest terms is determined by its value. */
  lemma LowestTermsUnique(a: nat, b: nat, c: nat, d: nat)
    requires b > 0 && d > 0 && Coprime(a, b) && Coprime(c, d) && a * d == c * b
    ensures a == c && b == d
  {
    GcdSymmetric(a, b);
    GcdSymmetric(c, d);
    // b | a*d, coprime to a, hence b | d; symmetrically d | b.
    DividesIntro(b, a * d, c);
    CoprimeDivides(b, a, d);
    DividesIntro(d, c * b, a);
    CoprimeDivides(d, c, b);
    DividesLe(b, d);
    DividesLe(d, b);
    assert a * b == c * b;
    if a < c { MulMono(a + 1, c, b); } else if c < a { MulMono(c + 1, a, b); }
  }
}

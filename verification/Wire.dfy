/** The baseband wire format: numbers as their bits, little-endian frames, and
    the coalescing framer. */
module Wire {
  import opened Arith
  import opened Channelizer
  import opened ClockRate

  type Byte = n: nat | n < 256

  // --------------------------------------------------------- little endian

  function Le(n: nat, k: nat): (s: seq<Byte>)
    ensures |s| == k
  {
    if k == 0 then [] else [n % 256] + Le(n / 256, k - 1)
  }

  /** Byte i holds the digit of weight 256^i. */
  lemma {:induction false} LeDigits(n: nat, k: nat, i: nat)
    requires i < k
    ensures Pow2(8 * i) > 0 && Le(n, k)[i] == n / Pow2(8 * i) % 256
    decreases i
  {
    if i == 0 {
      assert n / 1 == n;
    } else {
      LeDigits(n / 256, k - 1, i - 1);
      Pow2Add(8, 8 * (i - 1));
      Pow2Values();
      DivDiv(n, 256, Pow2(8 * (i - 1)));
    }
  }

  lemma DivDiv(n: nat, a: nat, b: nat)
    requires a > 0 && b > 0
    ensures a * b > 0 && n / a / b == n / (a * b)
  {
    var q, r := n / a / b, n / a % b;
    assert n / a == q * b + r && n == (n / a) * a + n % a;
    Spread(a, b, q, r);
    MulMono(r, b - 1, a);
    DivModUnique(n, a * b, q, r * a + n % a);
  }

  lemma Spread(a: int, b: int, q: int, r: int)
    ensures (q * b + r) * a == q * (a * b) + r * a && (b - 1) * a == a * b - a
  {
  }

  ghost function FromLe(s: seq<Byte>): nat {
    if s == [] then 0 else s[0] + 256 * FromLe(s[1..])
  }

  lemma {:induction false} LeRoundTrip(n: nat, k: nat)
    requires n < Pow2(8 * k)
    ensures FromLe(Le(n, k)) == n
  {
    if k > 0 {
      Pow2Add(8 * (k - 1), 8);
      Pow2Values();
      assert Pow2(8 * k) == Pow2(8 * (k - 1)) * 256;
      LeRoundTrip(n / 256, k - 1);
      assert Le(n, k)[1..] == Le(n / 256, k - 1);
    }
  }

  // -------------------------------------------------------------- numbers

  /** The bits of a binary64 value. */
  function Bits64(f: F64): nat {
    (if f.negative then 0x8000_0000_0000_0000 else 0) + f.exponent * HIDDEN_BIT + f.fraction
  }

  function FromBits64(n: nat): F64 {
    F64(n / 0x8000_0000_0000_0000 % 2 == 1, n / HIDDEN_BIT % 2048, n % HIDDEN_BIT)
  }

  lemma BitsRoundTrip(f: F64)
    requires f.Valid()
    ensures Bits64(f) < CLOCK && FromBits64(Bits64(f)) == f
  {
  }

  predicate NotNegative(f: F64) { !f.negative || f.Mantissa() == 0 }

  /** A binary32 value is its 32 bits. */
  const WORD: nat := 0x1_0000_0000
  const FRACTION32: nat := 0x80_0000

  function Sign32(bits: nat): nat { bits / 0x8000_0000 }
  function Exponent32(bits: nat): nat { bits / FRACTION32 % 256 }
  function Fraction32(bits: nat): nat { bits % FRACTION32 }
  predicate Finite32(bits: nat) { Exponent32(bits) != 255 }

  /** Magnitude of a finite value in units of 2^-149. */
  function Units32(bits: nat): nat {
    var e := Exponent32(bits);
    if e == 0 then Fraction32(bits) else (FRACTION32 + Fraction32(bits)) * Pow2(e - 1)
  }

  function RoundHalfEven(n: nat, d: nat): (q: nat)
    requires d > 0 && d % 2 == 0
    ensures q * d <= n + d / 2 && n <= q * d + d / 2
    ensures (q * d == n + d / 2 || n == q * d + d / 2) ==> q % 2 == 0
  {
    DivGe(n, d, 0);
    assert n == (n / d) * d + n % d;
    assert (n / d + 1) * d == (n / d) * d + d;
    if n % d < d / 2 || (n % d == d / 2 && n / d % 2 == 0) then n / d else n / d + 1
  }

  /** value * (1 / 32768) in binary32, rounding to nearest even. */
  function Scaled(bits: nat): (r: nat) {
    var e := Exponent32(bits);
    var sign := Sign32(bits) * 0x8000_0000;
    if e >= 16 then sign + (e - 15) * FRACTION32 + Fraction32(bits)
    else
      var m := if e == 0 then Fraction32(bits) else FRACTION32 + Fraction32(bits);
      var shift := if e == 0 then 15 else 16 - e;
      EvenPow2(shift);
      sign + RoundHalfEven(m, Pow2(shift))
  }

  lemma EvenPow2(k: nat)
    requires k > 0
    ensures Pow2(k) % 2 == 0
  {
  }

  /** Scaling a finite value gives a finite value of the same sign; it is exact
      for every value that stays normal, and correctly rounded below. */
  lemma ScaledValue(bits: nat)
    requires bits < WORD && Finite32(bits)
    ensures Scaled(bits) < WORD && Finite32(Scaled(bits)) && Sign32(Scaled(bits)) == Sign32(bits)
    ensures Exponent32(bits) >= 16 ==> Units32(Scaled(bits)) * 32768 == Units32(bits)
    ensures Units32(Scaled(bits)) * 32768 <= Units32(bits) + 16384
    ensures Units32(bits) <= Units32(Scaled(bits)) * 32768 + 16384
    // ties go to the even value
    ensures Units32(Scaled(bits)) * 32768 - Units32(bits) in {16384, -16384} ==> Scaled(bits) % 2 == 0
  {
    if Exponent32(bits) >= 16 { ScaledNormal(bits); } else { ScaledSmall(bits); }
  }

  lemma ScaledNormal(bits: nat)
    requires bits < WORD && Finite32(bits) && Exponent32(bits) >= 16
    ensures Scaled(bits) < WORD && Finite32(Scaled(bits)) && Sign32(Scaled(bits)) == Sign32(bits)
    ensures Units32(Scaled(bits)) * 32768 == Units32(bits)
  {
    var e := Exponent32(bits);
    FieldsOf(Sign32(bits), e - 15, Fraction32(bits), Scaled(bits));
    Pow2Add(e - 16, 15);
    Pow2Fifteen();
    Regroup(FRACTION32 + Fraction32(bits), Pow2(e - 16), 32768);
  }

  lemma Pow2Fifteen()
    ensures Pow2(15) == 32768
  {
    Pow2Add(8, 7);
    Pow2Values();
    assert Pow2(7) == 128;
  }

  lemma FieldsOf(sign: nat, e: nat, f: nat, bits: nat)
    requires sign < 2 && e < 256 && f < FRACTION32 && bits == sign * 0x8000_0000 + e * FRACTION32 + f
    ensures bits < WORD && Sign32(bits) == sign && Exponent32(bits) == e && Fraction32(bits) == f
  {
  }

  lemma ScaledSmall(bits: nat)
    requires bits < WORD && Exponent32(bits) < 16
    ensures Scaled(bits) < WORD && Finite32(Scaled(bits)) && Sign32(Scaled(bits)) == Sign32(bits)
    ensures Units32(Scaled(bits)) * 32768 <= Units32(bits) + 16384
    ensures Units32(bits) <= Units32(Scaled(bits)) * 32768 + 16384
    ensures Units32(Scaled(bits)) * 32768 - Units32(bits) in {16384, -16384} ==> Scaled(bits) % 2 == 0
  {
    var m, d, q, up := ScaledRounds(bits);
    hide Scaled, Units32, Sign32;
    RoundedUnits(q, m, d, up);
  }

  /** A small value loses low bits: its mantissa m is divided by d, rounding to q. */
  lemma ScaledRounds(bits: nat) returns (m: nat, d: nat, q: nat, up: nat)
    requires bits < WORD && Exponent32(bits) < 16
    ensures d > 0 && d % 2 == 0 && d * up == 32768 && up > 0 && q == RoundHalfEven(m, d)
    ensures Scaled(bits) < WORD && Finite32(Scaled(bits)) && Sign32(Scaled(bits)) == Sign32(bits)
    ensures Units32(Scaled(bits)) == q && Scaled(bits) % 2 == q % 2 && Units32(bits) == m * up
  {
    var e := Exponent32(bits);
    m := if e == 0 then Fraction32(bits) else FRACTION32 + Fraction32(bits);
    var shift := if e == 0 then 15 else 16 - e;
    EvenPow2(shift);
    d := Pow2(shift);
    q := RoundHalfEven(m, d);
    RoundedBound(m, d, q);
    var k := if e == 0 then 0 else e - 1;
    up := Pow2(k);
    FieldsOf(Sign32(bits), q / FRACTION32, q % FRACTION32, Scaled(bits));
    Parity(Sign32(bits), q);
    assert Pow2(0) == 1;
    Pow2Add(shift, k);
    Pow2Fifteen();
  }

  lemma Parity(sign: nat, q: nat)
    ensures (sign * 0x8000_0000 + q) % 2 == q % 2
  {
    DivModUnique(sign * 0x8000_0000 + q, 2, sign * 0x4000_0000 + q / 2, q % 2);
  }

  lemma RoundedBound(m: nat, d: nat, q: nat)
    requires m < 2 * FRACTION32 && d >= 2 && q * d <= m + d / 2
    ensures q <= FRACTION32
  {
    if q > FRACTION32 {
      MulMono(FRACTION32 + 1, q, d);
      MulMono(2, d, FRACTION32);
    }
  }

  /** A rounding error of at most half a step, at the scale of the input. */
  lemma RoundedUnits(q: nat, m: nat, d: nat, up: nat)
    requires d % 2 == 0 && d * up == 32768 && up > 0 && q * d <= m + d / 2 && m <= q * d + d / 2
    ensures q * 32768 <= m * up + 16384 && m * up <= q * 32768 + 16384
    ensures q * 32768 == m * up + 16384 ==> q * d == m + d / 2
    ensures m * up == q * 32768 + 16384 ==> m == q * d + d / 2
  {
    HalfStep(d, up);
    Regroup(q, d, up);
    StillNear(q * d, m, d / 2, up);
  }

  lemma HalfStep(d: nat, up: nat)
    requires d % 2 == 0 && d * up == 32768
    ensures (d / 2) * up == 16384
  {
    assert d == 2 * (d / 2);
    Regroup(2, d / 2, up);
  }

  lemma StillNear(a: int, b: int, h: int, c: int)
    requires c > 0 && a <= b + h && b <= a + h
    ensures a * c <= b * c + h * c && b * c <= a * c + h * c
    ensures (a * c == b * c + h * c ==> a == b + h) && (b * c == a * c + h * c ==> b == a + h)
  {
    NotLess(b + h - a, c);
    NotLess(a + h - b, c);
  }

  lemma NotLess(a: int, c: int)
    requires a >= 0 && c > 0
    ensures a * c >= 0 && (a * c == 0 ==> a == 0)
  {
    if a > 0 { MulMono(1, a, c); }
  }

  // --------------------------------------------------------------- frames

  const MAX_SAMPLES: nat := 65536
  const VERSION: nat := 2

  datatype Magic = Primary | Aux

  ghost function MagicBytes(m: Magic): (s: seq<Byte>)
    ensures |s| == 4
  {
    // "IQBF" and "IQAX"
    if m == Primary then [73, 81, 66, 70] else [73, 81, 65, 88]
  }

  datatype Header = Header(magic: Magic, seqno: nat, samples: nat, rate: F64, center: F64,
                           channel: nat, epoch: nat, inputIndex: nat, delay: F64) {
    predicate Fits() {
      && seqno < WORD && samples < WORD && channel < WORD && epoch < WORD && inputIndex < CLOCK
      && rate.Valid() && center.Valid() && delay.Valid()
    }
  }

  ghost function EncodeHeader(h: Header): (s: seq<Byte>)
    ensures |s| == 56
  {
    MagicBytes(h.magic) + Le(VERSION, 4) + Le(h.seqno, 4) + Le(h.samples, 4)
      + Le(Bits64(h.rate), 8) + Le(Bits64(h.center), 8) + Le(h.channel, 4) + Le(h.epoch, 4)
      + Le(h.inputIndex, 8) + Le(Bits64(h.delay), 8)
  }

  ghost function EncodeWords(ws: seq<nat>): (s: seq<Byte>)
    ensures |s| == 4 * |ws|
  {
    if ws == [] then [] else EncodeWords(ws[..|ws| - 1]) + Le(ws[|ws| - 1], 4)
  }

  ghost function DecodeWords(s: seq<Byte>): seq<nat> {
    if |s| < 4 then [] else DecodeWords(s[..|s| - 4]) + [FromLe(s[|s| - 4..])]
  }

  lemma WordRoundTrip(w: nat)
    requires w < WORD
    ensures FromLe(Le(w, 4)) == w
  {
    Pow2Values();
    LeRoundTrip(w, 4);
  }

  lemma {:induction false} WordsRoundTrip(ws: seq<nat>)
    requires forall i :: 0 <= i < |ws| ==> ws[i] < WORD
    ensures DecodeWords(EncodeWords(ws)) == ws
  {
    if ws != [] {
      var last := |ws| - 1;
      var s := EncodeWords(ws);
      WordsRoundTrip(ws[..last]);
      WordRoundTrip(ws[last]);
      hide Le, FromLe;
      assert s[..|s| - 4] == EncodeWords(ws[..last]);
      assert s[|s| - 4..] == Le(ws[last], 4);
    }
  }

  /** What a reader makes of the bytes of a frame. */
  ghost function Decode(s: seq<Byte>): Option<(Header, seq<nat>)> {
    if |s| < 56 || FromLe(s[4..8]) != VERSION || (s[..4] != MagicBytes(Primary) && s[..4] != MagicBytes(Aux)) then
      None
    else
      Some((Header(if s[..4] == MagicBytes(Primary) then Primary else Aux,
                   FromLe(s[8..12]), FromLe(s[12..16]), FromBits64(FromLe(s[16..24])),
                   FromBits64(FromLe(s[24..32])), FromLe(s[32..36]), FromLe(s[36..40]),
                   FromLe(s[40..48]), FromBits64(FromLe(s[48..56]))),
            DecodeWords(s[56..])))
  }

  lemma HeaderFields(h: Header, rest: seq<Byte>)
    ensures var s := EncodeHeader(h) + rest;
            && s[..4] == MagicBytes(h.magic) && s[4..8] == Le(VERSION, 4)
            && s[8..12] == Le(h.seqno, 4) && s[12..16] == Le(h.samples, 4)
            && s[16..24] == Le(Bits64(h.rate), 8) && s[24..32] == Le(Bits64(h.center), 8)
            && s[32..36] == Le(h.channel, 4) && s[36..40] == Le(h.epoch, 4)
            && s[40..48] == Le(h.inputIndex, 8) && s[48..56] == Le(Bits64(h.delay), 8)
            && s[56..] == rest
  {
    hide Le, MagicBytes, Bits64;
  }

  lemma WordBack(n: nat)
    requires n < WORD
    ensures FromLe(Le(n, 4)) == n
  {
    Pow2Values();
    LeRoundTrip(n, 4);
  }

  lemma LongBack(n: nat)
    requires n < CLOCK
    ensures FromLe(Le(n, 8)) == n
  {
    Pow2Values();
    LeRoundTrip(n, 8);
  }

  lemma RateBack(f: F64)
    requires f.Valid()
    ensures FromBits64(FromLe(Le(Bits64(f), 8))) == f
  {
    BitsRoundTrip(f);
    LongBack(Bits64(f));
  }

  lemma MagicsDiffer()
    ensures MagicBytes(Primary) != MagicBytes(Aux)
  {
    assert MagicBytes(Primary)[2] != MagicBytes(Aux)[2];
  }

  lemma DecodedFields(s: seq<Byte>, h: Header, payload: seq<nat>)
    requires |s| >= 56 && s[..4] == MagicBytes(h.magic) && FromLe(s[4..8]) == VERSION
    requires FromLe(s[8..12]) == h.seqno && FromLe(s[12..16]) == h.samples
    requires FromBits64(FromLe(s[16..24])) == h.rate && FromBits64(FromLe(s[24..32])) == h.center
    requires FromLe(s[32..36]) == h.channel && FromLe(s[36..40]) == h.epoch
    requires FromLe(s[40..48]) == h.inputIndex && FromBits64(FromLe(s[48..56])) == h.delay
    requires DecodeWords(s[56..]) == payload
    ensures Decode(s) == Some((h, payload))
  {
    MagicsDiffer();
    hide FromLe, FromBits64, DecodeWords;
    assert (if s[..4] == MagicBytes(Primary) then Primary else Aux) == h.magic;
  }

  /** Header and payload can be read back. */
  lemma FrameRoundTrip(h: Header, payload: seq<nat>)
    requires h.Fits() && forall i :: 0 <= i < |payload| ==> payload[i] < WORD
    ensures Decode(EncodeHeader(h) + EncodeWords(payload)) == Some((h, payload))
  {
    hide Le, FromLe, Bits64, FromBits64, EncodeHeader, EncodeWords, DecodeWords, Decode, MagicBytes;
    HeaderFields(h, EncodeWords(payload));
    WordsRoundTrip(payload);
    WordBack(VERSION);
    WordBack(h.seqno);
    WordBack(h.samples);
    WordBack(h.channel);
    WordBack(h.epoch);
    LongBack(h.inputIndex);
    RateBack(h.rate);
    RateBack(h.center);
    RateBack(h.delay);
    DecodedFields(EncodeHeader(h) + EncodeWords(payload), h, payload);
  }

  ghost predicate Encodable(h: Header, payload: seq<nat>) {
    && |payload| % 2 == 0 && h.samples == |payload| / 2 <= MAX_SAMPLES
    && h.channel < WORD && h.epoch < WORD
    && InClockRange(h.rate) && h.center.Finite() && h.channel != 0 && h.epoch != 0
    && h.delay.Finite() && NotNegative(h.delay) && h.inputIndex != CLOCK - 1
    && (h.seqno == 0 <==> payload == [])
    && forall i :: 0 <= i < |payload| ==> Finite32(payload[i])
  }

  /** encode_baseband: rejects exactly what is not encodable. */
  method EncodeBaseband(h: Header, payload: seq<nat>) returns (frame: Option<seq<Byte>>)
    requires h.samples == |payload| / 2
    ensures frame.Some? <==> Encodable(h, payload)
    ensures frame.Some? ==> frame.value == EncodeHeader(h) + EncodeWords(payload)
  {
    if |payload| / 2 > 0xFFFF_FFFF || h.channel > 0xFFFF_FFFF || h.epoch > 0xFFFF_FFFF { return None; }
    if |payload| % 2 != 0 || |payload| / 2 > 65536 || h.rate.exponent == 2047 || h.rate.negative
       || h.rate.Num() < h.rate.Den() || h.rate.Num() > 1_000_000_000 * h.rate.Den() || h.center.exponent == 2047
       || h.channel == 0 || h.epoch == 0 || h.delay.exponent == 2047 || (h.delay.negative && h.delay.Mantissa() != 0)
       || h.inputIndex == 0xFFFF_FFFF_FFFF_FFFF || (h.seqno == 0) != (payload == []) {
      return None;
    }
    var bytes: seq<Byte> := match h.magic case Primary => [73, 81, 66, 70] case Aux => [73, 81, 65, 88];
    bytes := bytes + Le(2, 4);
    bytes := bytes + Le(h.seqno, 4);
    bytes := bytes + Le(h.samples, 4);
    bytes := bytes + Le(Bits64(h.rate), 8);
    bytes := bytes + Le(Bits64(h.center), 8);
    bytes := bytes + Le(h.channel, 4);
    bytes := bytes + Le(h.epoch, 4);
    bytes := bytes + Le(h.inputIndex, 8);
    bytes := bytes + Le(Bits64(h.delay), 8);
    assert bytes == EncodeHeader(h);
    hide EncodeHeader;
    for i := 0 to |payload|
      invariant bytes == EncodeHeader(h) + EncodeWords(payload[..i])
      invariant forall k :: 0 <= k < i ==> Finite32(payload[k])
    {
      if payload[i] / 0x80_0000 % 256 == 255 { return None; }
      bytes := bytes + Le(payload[i], 4);
      assert payload[..i + 1][..i] == payload[..i];
    }
    assert payload[..|payload|] == payload;
    frame := Some(bytes);
  }
}

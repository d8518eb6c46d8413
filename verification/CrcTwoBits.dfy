/** Two changed bits and CRC16: the powers of x modulo x^16 + x^12 + x^5 + 1 repeat only after 32767
    steps, so every two changed bits less than that apart are seen (src-rp/lib/sd_card/sd_driver/crc.c). */
module CrcTwoBits {
  import opened Gf2
  import opened Crc

  /** x^n modulo the generator: `n` clocks from 1. */
  function Power(n: nat): Word {
    if n == 0 then W(1) else Clock16(Power(n - 1), false)
  }

  // ------------------------------------------------------------------
  // Periods

  predicate IsPeriod(d: nat) { Power(d) == Power(0) }

  lemma ClockInjective(a: Word, b: Word)
    requires Clock16(a, false) == Clock16(b, false)
    ensures a == b
  { }

  lemma {:induction false} PowerAfter(n: nat, d: nat)
    requires IsPeriod(d)
    ensures Power(n + d) == Power(n)
    decreases n
  {
    if n == 0 {
    } else {
      PowerAfter(n - 1, d);
    }
  }

  lemma {:induction false} PowerBack(n: nat, d: nat)
    requires Power(n + d) == Power(n)
    ensures IsPeriod(d)
    decreases n
  {
    if n == 0 {
    } else {
      ClockInjective(Power(n + d - 1), Power(n - 1));
      PowerBack(n - 1, d);
    }
  }

  lemma {:induction false} PeriodTimes(p: nat, k: nat)
    requires IsPeriod(p)
    ensures IsPeriod(k * p)
    decreases k
  {
    if k == 0 {
    } else {
      PeriodTimes(p, k - 1);
      PowerAfter((k - 1) * p, p);
      assert (k - 1) * p + p == k * p;
    }
  }

  // ------------------------------------------------------------------
  // Powers by repeated squaring

  /** The square of a polynomial modulo the generator. */
  function Square(w: Word): Word {
    Word(Byte(w.hi.b5,
              w.hi.b5 != (w.hi.b3 != (w.hi.b1 != w.lo.b7)),
              w.hi.b4,
              w.hi.b4 != (w.hi.b2 != (w.hi.b0 != w.lo.b6)),
              w.hi.b7 != (w.hi.b5 != w.hi.b3),
              w.hi.b7 != (w.hi.b5 != w.lo.b5),
              w.hi.b6 != (w.hi.b4 != w.hi.b2),
              w.hi.b7 != (w.hi.b6 != (w.hi.b4 != w.lo.b4))),
         Byte(w.hi.b7 != (w.hi.b5 != (w.hi.b3 != w.hi.b1)),
              w.hi.b7 != (w.hi.b6 != (w.hi.b5 != (w.hi.b3 != w.lo.b3))),
              w.hi.b6 != (w.hi.b4 != (w.hi.b2 != w.hi.b0)),
              w.hi.b6 != (w.hi.b4 != (w.hi.b2 != w.lo.b2)),
              w.hi.b7,
              w.hi.b7 != (w.hi.b5 != (w.hi.b3 != (w.hi.b1 != w.lo.b1))),
              w.hi.b6,
              w.hi.b6 != (w.hi.b4 != (w.hi.b2 != (w.hi.b0 != w.lo.b0)))))
  }

  lemma SquareClockHigh(w: Word)
    ensures Square(Clock16(w, false)).hi == Clock16(Clock16(Square(w), false), false).hi
  { }

  lemma SquareClockLow(w: Word)
    ensures Square(Clock16(w, false)).lo == Clock16(Clock16(Square(w), false), false).lo
  { }

  lemma {:induction false} SquareOfPower(n: nat)
    ensures Square(Power(n)) == Power(2 * n)
    decreases n
  {
    if n == 0 {
    } else {
      SquareOfPower(n - 1);
      SquareClockHigh(Power(n - 1));
      SquareClockLow(Power(n - 1));
      assert Power(2 * n - 1) == Clock16(Power(2 * n - 2), false);
    }
  }

  /** From x^n to x^2n or x^(2n + 1). */
  lemma DoublePower(n: nat, odd: bool, next: Word) returns (m: nat)
    requires next == if odd then Clock16(Square(Power(n)), false) else Square(Power(n))
    ensures m == (if odd then 2 * n + 1 else 2 * n) && Power(m) == next
  {
    m := if odd then 2 * n + 1 else 2 * n;
    SquareOfPower(n);
  }

  lemma FirstPower() returns (one: nat)
    ensures one == 1 && Power(one) == W(0x0002)
  {
    one := 1;
    assert Power(0) == W(1);
  }

  // Each exponent is given in terms of the one before it, so that no power is expanded step by step.

  lemma Step1To8(n: nat) returns (m: nat)
    requires Power(n) == W(0x0002)
    ensures m == 8 * n + 0 && Power(m) == W(0x0100)
  {
    m := n;
    m := DoublePower(m, false, W(0x0004));
    m := DoublePower(m, false, W(0x0010));
    m := DoublePower(m, false, W(0x0100));
  }

  lemma Step8To16(n: nat) returns (m: nat)
    requires Power(n) == W(0x0100)
    ensures m == 2 * n + 0 && Power(m) == W(0x1021)
  {
    m := n;
    m := DoublePower(m, false, W(0x1021));
  }

  lemma Step1To13(n: nat) returns (m: nat)
    requires Power(n) == W(0x0002)
    ensures m == 8 * n + 5 && Power(m) == W(0x2000)
  {
    m := n;
    m := DoublePower(m, true, W(0x0008));
    m := DoublePower(m, false, W(0x0040));
    m := DoublePower(m, true, W(0x2000));
  }

  lemma Step13To108(n: nat) returns (m: nat)
    requires Power(n) == W(0x2000)
    ensures m == 8 * n + 4 && Power(m) == W(0x3750)
  {
    m := n;
    m := DoublePower(m, true, W(0x89A9));
    m := DoublePower(m, false, W(0x1168));
    m := DoublePower(m, false, W(0x3750));
  }

  lemma Step108To217(n: nat) returns (m: nat)
    requires Power(n) == W(0x3750)
    ensures m == 2 * n + 1 && Power(m) == W(0x48E3)
  {
    m := n;
    m := DoublePower(m, true, W(0x48E3));
  }

  lemma Step8To66(n: nat) returns (m: nat)
    requires Power(n) == W(0x0100)
    ensures m == 8 * n + 2 && Power(m) == W(0xC1C6)
  {
    m := n;
    m := DoublePower(m, false, W(0x1021));
    m := DoublePower(m, true, W(0x6E60));
    m := DoublePower(m, false, W(0xC1C6));
  }

  lemma Step66To528(n: nat) returns (m: nat)
    requires Power(n) == W(0xC1C6)
    ensures m == 8 * n + 0 && Power(m) == W(0x78B3)
  {
    m := n;
    m := DoublePower(m, false, W(0x4E8A));
    m := DoublePower(m, false, W(0x5946));
    m := DoublePower(m, false, W(0x78B3));
  }

  lemma Step528To1057(n: nat) returns (m: nat)
    requires Power(n) == W(0x78B3)
    ensures m == 2 * n + 1 && Power(m) == W(0xF2AF)
  {
    m := n;
    m := DoublePower(m, true, W(0xF2AF));
  }

  lemma Step1To9(n: nat) returns (m: nat)
    requires Power(n) == W(0x0002)
    ensures m == 8 * n + 1 && Power(m) == W(0x0200)
  {
    m := n;
    m := DoublePower(m, false, W(0x0004));
    m := DoublePower(m, false, W(0x0010));
    m := DoublePower(m, true, W(0x0200));
  }

  lemma Step9To73(n: nat) returns (m: nat)
    requires Power(n) == W(0x0200)
    ensures m == 8 * n + 1 && Power(m) == W(0x8FA6)
  {
    m := n;
    m := DoublePower(m, false, W(0x4084));
    m := DoublePower(m, false, W(0x4363));
    m := DoublePower(m, true, W(0x8FA6));
  }

  lemma Step73To585(n: nat) returns (m: nat)
    requires Power(n) == W(0x8FA6)
    ensures m == 8 * n + 1 && Power(m) == W(0x4500)
  {
    m := n;
    m := DoublePower(m, false, W(0x4388));
    m := DoublePower(m, false, W(0x1396));
    m := DoublePower(m, true, W(0x4500));
  }

  lemma Step585To4681(n: nat) returns (m: nat)
    requires Power(n) == W(0x4500)
    ensures m == 8 * n + 1 && Power(m) == W(0x2C42)
  {
    m := n;
    m := DoublePower(m, false, W(0x0163));
    m := DoublePower(m, false, W(0x0424));
    m := DoublePower(m, true, W(0x2C42));
  }

  lemma Step1To15(n: nat) returns (m: nat)
    requires Power(n) == W(0x0002)
    ensures m == 8 * n + 7 && Power(m) == W(0x8000)
  {
    m := n;
    m := DoublePower(m, true, W(0x0008));
    m := DoublePower(m, true, W(0x0080));
    m := DoublePower(m, true, W(0x8000));
  }

  lemma Step15To127(n: nat) returns (m: nat)
    requires Power(n) == W(0x8000)
    ensures m == 8 * n + 7 && Power(m) == W(0x577E)
  {
    m := n;
    m := DoublePower(m, true, W(0x1B98));
    m := DoublePower(m, true, W(0xD420));
    m := DoublePower(m, true, W(0x577E));
  }

  lemma Step127To1023(n: nat) returns (m: nat)
    requires Power(n) == W(0x577E)
    ensures m == 8 * n + 7 && Power(m) == W(0x1B62)
  {
    m := n;
    m := DoublePower(m, true, W(0xCF04));
    m := DoublePower(m, true, W(0x09FE));
    m := DoublePower(m, true, W(0x1B62));
  }

  lemma Step1023To8191(n: nat) returns (m: nat)
    requires Power(n) == W(0x1B62)
    ensures m == 8 * n + 7 && Power(m) == W(0x440E)
  {
    m := n;
    m := DoublePower(m, true, W(0x7EA8));
    m := DoublePower(m, true, W(0x554F));
    m := DoublePower(m, true, W(0x440E));
  }

  lemma Step8191To32767(n: nat) returns (m: nat)
    requires Power(n) == W(0x440E)
    ensures m == 4 * n + 3 && Power(m) == W(0x0001)
  {
    m := n;
    m := DoublePower(m, true, W(0x222C));
    m := DoublePower(m, true, W(0x0001));
  }

  lemma Power16(one: nat) returns (n: nat)
    requires Power(one) == W(0x0002)
    ensures n == 16 * one + 0 && Power(n) == W(0x1021)
  {
    n := one;
    n := Step1To8(n);
    n := Step8To16(n);
  }

  lemma Power217(one: nat) returns (n: nat)
    requires Power(one) == W(0x0002)
    ensures n == 128 * one + 89 && Power(n) == W(0x48E3)
  {
    n := one;
    n := Step1To13(n);
    n := Step13To108(n);
    n := Step108To217(n);
  }

  lemma Power1057(one: nat) returns (n: nat)
    requires Power(one) == W(0x0002)
    ensures n == 1024 * one + 33 && Power(n) == W(0xF2AF)
  {
    n := one;
    n := Step1To8(n);
    n := Step8To66(n);
    n := Step66To528(n);
    n := Step528To1057(n);
  }

  lemma Power4681(one: nat) returns (n: nat)
    requires Power(one) == W(0x0002)
    ensures n == 4096 * one + 585 && Power(n) == W(0x2C42)
  {
    n := one;
    n := Step1To9(n);
    n := Step9To73(n);
    n := Step73To585(n);
    n := Step585To4681(n);
  }

  lemma Power32767(one: nat) returns (n: nat)
    requires Power(one) == W(0x0002)
    ensures n == 16384 * one + 16383 && Power(n) == W(1)
  {
    n := one;
    n := Step1To15(n);
    n := Step15To127(n);
    n := Step127To1023(n);
    n := Step1023To8191(n);
    n := Step8191To32767(n);
  }

  // ------------------------------------------------------------------
  // The least period is 32767

  function Gcd(a: nat, b: nat): nat
    decreases b
  {
    if b == 0 then a else Gcd(b, a % b)
  }

  predicate Splits(n: nat, k: nat, q: nat) { n == k * q }

  lemma {:induction false} GcdDivides(a: nat, b: nat) returns (p: nat, q: nat)
    ensures Splits(a, Gcd(a, b), p) && Splits(b, Gcd(a, b), q)
    decreases b
  {
    if b == 0 {
      p, q := 1, 0;
    } else {
      var k := a / b;
      var r;
      p, r := GcdDivides(b, a % b);
      var g := Gcd(a, b);
      q, p := p, k * p + r;
      assert a == k * b + a % b;
      assert k * (g * q) == g * (k * q);
      assert g * p == g * (k * q) + g * r;
    }
  }

  /** If `a` and `b` times `m` are periods then so is their greatest common divisor times `m`. */
  lemma {:induction false} GcdPeriod(a: nat, b: nat, m: nat)
    requires IsPeriod(a * m) && IsPeriod(b * m)
    ensures IsPeriod(Gcd(a, b) * m)
    decreases b
  {
    if b == 0 {
    } else {
      var k := a / b;
      PeriodTimes(b * m, k);
      assert a * m == k * (b * m) + (a % b) * m by {
        assert a == k * b + a % b;
        assert (k * b) * m == k * (b * m);
      }
      PeriodDifference((a % b) * m, k * (b * m));
      GcdPeriod(b, a % b, m);
    }
  }

  lemma PeriodDifference(n: nat, d: nat)
    requires IsPeriod(n + d) && IsPeriod(d)
    ensures IsPeriod(n)
  {
    PowerAfter(n, d);
  }

  ghost predicate Prime(r: nat) { forall k: nat, q: nat :: Splits(r, k, q) ==> k == 1 || k == r }

  /** x^m has the prime order `r`, so `r` divides every period. */
  lemma PrimeDivides(m: nat, r: nat, d: nat) returns (q: nat)
    requires IsPeriod(r * m) && !IsPeriod(m) && IsPeriod(d) && Prime(r)
    ensures d == r * q
  {
    PeriodTimes(d, m);
    assert d * m == m * d;
    GcdPeriod(r, d, m);
    var p;
    p, q := GcdDivides(r, d);
    assert Splits(r, Gcd(r, d), p);
    assert Gcd(r, d) == 1 ==> Gcd(r, d) * m == m;
  }

  function Times(k: nat, q: nat): nat {
    match k
    case 0 => 0
    case 1 => q
    case 2 => 2 * q
    case 3 => 3 * q
    case 4 => 4 * q
    case 5 => 5 * q
    case 6 => 6 * q
    case 7 => 7 * q
    case 8 => 8 * q
    case 9 => 9 * q
    case 10 => 10 * q
    case 11 => 11 * q
    case 12 => 12 * q
    case _ => k * q
  }

  lemma TimesIs(k: nat, q: nat)
    ensures Times(k, q) == k * q
  { }

  lemma SmallFactor(k: nat, q: nat, r: nat)
    requires r == Times(k, q) && k <= 12 && (r == 7 || r == 31 || r == 151)
    ensures k == 1 || (k == 7 && r == 7)
  { }

  lemma LargeFactors(k: nat, q: nat)
    requires k > 12 && q > 12
    ensures k * q >= 169
  {
    assert k * q >= 13 * q;
  }

  lemma Primes(r: nat)
    requires r == 7 || r == 31 || r == 151
    ensures Prime(r)
  {
    forall k: nat, q: nat | Splits(r, k, q) ensures k == 1 || k == r {
      TimesIs(k, q);
      TimesIs(q, k);
      if k <= 12 {
        SmallFactor(k, q, r);
      } else if q <= 12 {
        SmallFactor(q, k, r);
      } else {
        LargeFactors(k, q);
      }
    }
  }

  lemma Combine(d: nat, a: nat, b: nat, c: nat)
    requires d == 7 * a == 31 * b == 151 * c
    ensures d % 32767 == 0
  {
    var e := 9 * b - 2 * a;
    assert d == 217 * e;
    assert d == 32767 * (23 * e - 16 * c);
  }

  lemma PeriodDivides(n: nat, m: nat, r: nat, d: nat) returns (q: nat)
    requires n == r * m && Power(n) == W(1) && Power(m) != W(1) && Prime(r) && IsPeriod(d)
    ensures d == r * q
  {
    q := PrimeDivides(m, r, d);
  }

  lemma Divides7(one: nat, d: nat) returns (q: nat)
    requires one == 1 && Power(one) == W(0x0002) && IsPeriod(d)
    ensures d == 7 * q
  {
    var n := Power32767(one);
    var m := Power4681(one);
    assert W(0x2C42) != W(1);
    Primes(7);
    q := PeriodDivides(n, m, 7, d);
  }

  lemma Divides31(one: nat, d: nat) returns (q: nat)
    requires one == 1 && Power(one) == W(0x0002) && IsPeriod(d)
    ensures d == 31 * q
  {
    var n := Power32767(one);
    var m := Power1057(one);
    assert W(0xF2AF) != W(1);
    Primes(31);
    q := PeriodDivides(n, m, 31, d);
  }

  lemma Divides151(one: nat, d: nat) returns (q: nat)
    requires one == 1 && Power(one) == W(0x0002) && IsPeriod(d)
    ensures d == 151 * q
  {
    var n := Power32767(one);
    var m := Power217(one);
    assert W(0x48E3) != W(1);
    Primes(151);
    q := PeriodDivides(n, m, 151, d);
  }

  /** Every d with x^d == 1 modulo the generator is a multiple of 32767... */
  lemma PeriodsAreMultiples(d: nat)
    requires IsPeriod(d)
    ensures d % 32767 == 0
  {
    var one := FirstPower();
    var a := Divides7(one, d);
    var b := Divides31(one, d);
    var c := Divides151(one, d);
    Combine(d, a, b, c);
  }

  /** ...and 32767 is one of them. */
  lemma FullPeriod() returns (n: nat)
    ensures n == 32767 && IsPeriod(n)
  {
    var one := FirstPower();
    n := Power32767(one);
  }

  // ------------------------------------------------------------------
  // Two changed bits

  /** `g` is a divisor whose clocks take one power to the next. */
  ghost predicate ClocksPowers(g: Bits) {
    Generator(g) && |g| == 17 && forall n: nat :: Clock(Bits16(Power(n)), false, g) == Bits16(Power(n + 1))
  }

  lemma GeneratorClocksPowers()
    ensures ClocksPowers(G16())
  {
    Generators();
    forall n: nat ensures Clock(Bits16(Power(n)), false, G16()) == Bits16(Power(n + 1)) {
      Clock16IsClock(Power(n), false);
    }
  }

  lemma FeedStep(r: Bits, r': Bits, d: nat, g: Bits)
    requires Generator(g) && |r| == |g| - 1 && d > 0 && Clock(r, false, g) == r'
    ensures Feed(r, Zeros(d), g) == Feed(r', Zeros(d - 1), g)
  {
    FeedZero(r, d, g);
  }

  lemma {:induction false} FeedPower(n: nat, d: nat, g: Bits)
    requires ClocksPowers(g)
    ensures Feed(Bits16(Power(n)), Zeros(d), g) == Bits16(Power(n + d))
    decreases d
  {
    if d == 0 {
      assert Zeros(0) == [];
    } else {
      FeedStep(Bits16(Power(n)), Bits16(Power(n + 1)), d, g);
      FeedPower(n + 1, d - 1, g);
    }
  }

  lemma LowPart() returns (n: nat)
    ensures Generator(G16()) && G16()[1..] == Bits16(Power(n))
  {
    Generators();
    var one := FirstPower();
    n := Power16(one);
    assert W(0x1021) == Poly16();
    assert G16()[1..] == Bits16(Poly16());
  }

  /** `d` clocks take the low part of the generator to itself exactly when `d` is a period. */
  lemma ReturnsIff(d: nat)
    ensures Generator(G16())
    ensures Feed(G16()[1..], Zeros(d), G16()) == G16()[1..] <==> IsPeriod(d)
  {
    var n := LowPart();
    GeneratorClocksPowers();
    FeedPower(n, d, G16());
    if Bits16(Power(n + d)) == Bits16(Power(n)) {
      WordOfBits(Power(n + d), Power(n));
      PowerBack(n, d);
    }
    if IsPeriod(d) { PowerAfter(n, d); }
  }

  lemma NoReturn(d: nat)
    requires 0 < d < 32767
    ensures Generator(G16()) && Feed(G16()[1..], Zeros(d), G16()) != G16()[1..]
  {
    ReturnsIff(d);
    if IsPeriod(d) { PeriodsAreMultiples(d); }
  }

  /** `a` and `b` differ at `i` and `j` and nowhere else. */
  predicate DifferAtTwo(a: Bits, b: Bits, i: nat, j: nat)
    requires |a| == |b|
  {
    i < j < |a| && forall k :: 0 <= k < |a| ==> (a[k] != b[k] <==> k == i || k == j)
  }

  /** Any two changed bits less than 32767 apart change the CRC16; in particular any two in a block of
      up to 4095 bytes. */
  lemma TwoBitsChangeCrc16(a: seq<Byte>, b: seq<Byte>, i: nat, j: nat, ca: Word, cb: Word)
    requires |a| == |b| && DifferAtTwo(BitsOf(a), BitsOf(b), i, j) && j - i < 32767
    requires IsCrc16(ca, a) && IsCrc16(cb, b)
    ensures ca != cb
  {
    NoReturn(j - i);
    TwoBitsDetected(BitsOf(a), BitsOf(b), i, j, G16());
  }

  /** Bits 32767 apart are the first that it cannot tell apart. */
  lemma TwoBitsMissed(a: seq<Byte>, b: seq<Byte>, i: nat, j: nat, ca: Word, cb: Word)
    requires |a| == |b| && DifferAtTwo(BitsOf(a), BitsOf(b), i, j) && j - i == 32767
    requires IsCrc16(ca, a) && IsCrc16(cb, b)
    ensures ca == cb
  {
    var n := FullPeriod();
    ReturnsIff(n);
    TwoBitsDetected(BitsOf(a), BitsOf(b), i, j, G16());
    WordOfBits(ca, cb);
  }
}

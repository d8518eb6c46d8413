/** Polynomials over GF(2) as bit strings, highest power first: schoolbook long
    division, the shift register that performs it, and what a remainder detects. */
module Gf2 {

  type Bits = seq<bool>

  function Xor(a: Bits, b: Bits): (r: Bits)
    requires |a| == |b|
    ensures |r| == |a| && forall i :: 0 <= i < |a| ==> r[i] == (a[i] != b[i])
  {
    seq(|a|, i requires 0 <= i < |a| => a[i] != b[i])
  }

  function Zeros(n: nat): (r: Bits)
    ensures |r| == n && forall i :: 0 <= i < n ==> !r[i]
  {
    seq(n, i => false)
  }

  lemma XorZero(a: Bits, b: Bits)
    requires |a| == |b|
    ensures Xor(a, b) == Zeros(|a|) <==> a == b
  {
    if Xor(a, b) == Zeros(|a|) {
      assert forall i :: 0 <= i < |a| ==> !Xor(a, b)[i];
    }
  }

  /** A divisor: monic of degree |g| - 1 with a constant term. */
  predicate Generator(g: Bits) {
    |g| >= 2 && g[0] && g[|g| - 1]
  }

  // ------------------------------------------------------------------
  // Division

  /** One step of long division: cancel the leading term and drop it. */
  function Cancel(d: Bits, g: Bits): (r: Bits)
    requires Generator(g) && |d| >= |g|
    ensures |r| == |d| - 1
    ensures forall k :: 0 <= k < |r| ==> r[k] == (d[k + 1] != (d[0] && k + 1 < |g| && g[k + 1]))
  {
    if d[0] then Xor(d[..|g|], g)[1..] + d[|g|..] else d[1..]
  }

  /** Long division, one quotient bit at a time; what is left is the remainder. */
  function Remainder(d: Bits, g: Bits): (r: Bits)
    requires Generator(g)
    ensures |d| >= |g| - 1 ==> |r| == |g| - 1
    decreases |d|
  {
    if |d| < |g| then d else Remainder(Cancel(d, g), g)
  }

  /** The product of two polynomials; `q` contributes a shifted copy of `g` for every set bit. */
  function Product(q: Bits, g: Bits): (r: Bits)
    requires |g| >= 1
    ensures |r| == |q| + |g| - 1
  {
    if q == [] then Zeros(|g| - 1)
    else
      var rest := [false] + Product(q[1..], g);
      if q[0] then Xor(g + Zeros(|q| - 1), rest) else rest
  }

  lemma ProductAt(q: Bits, g: Bits, k: nat)
    requires |g| >= 1 && q != [] && k < |q| + |g| - 1
    ensures Product(q, g)[k] == ((q[0] && k < |g| && g[k]) != (k > 0 && Product(q[1..], g)[k - 1]))
  {
    var rest := [false] + Product(q[1..], g);
    assert rest[k] == (k > 0 && Product(q[1..], g)[k - 1]);
    assert (g + Zeros(|q| - 1))[k] == (k < |g| && g[k]);
  }

  /** `q` and `r` are quotient and remainder of `d`: d = q * g + r with r below the degree of g. */
  predicate Divides(d: Bits, q: Bits, r: Bits, g: Bits)
    requires Generator(g)
  {
    && |r| == |g| - 1 && |d| == |q| + |r|
    && forall k :: 0 <= k < |d| ==> d[k] == (Product(q, g)[k] != (k >= |q| && r[k - |q|]))
  }

  lemma DivisionStepAt(d: Bits, q: Bits, more: Bits, r: Bits, g: Bits, k: nat)
    requires Generator(g) && |d| >= |g| && k < |d| && Divides(Cancel(d, g), q, r, g) && more == [d[0]] + q
    ensures d[k] == (Product(more, g)[k] != (k >= |more| && r[k - |more|]))
  {
    assert more[1..] == q;
    ProductAt(more, g, k);
    if k > 0 {
      assert Cancel(d, g)[k - 1] == (Product(q, g)[k - 1] != (k - 1 >= |q| && r[k - 1 - |q|]));
    }
  }

  lemma DivisionStep(d: Bits, q: Bits, more: Bits, r: Bits, g: Bits)
    requires Generator(g) && |d| >= |g| && Divides(Cancel(d, g), q, r, g) && more == [d[0]] + q
    ensures Divides(d, more, r, g)
  {
    forall k | 0 <= k < |d|
      ensures d[k] == (Product(more, g)[k] != (k >= |more| && r[k - |more|]))
    {
      DivisionStepAt(d, q, more, r, g, k);
    }
  }

  /** Remainder is what long division promises. */
  lemma {:induction false} DivisionIdentity(d: Bits, g: Bits) returns (q: Bits)
    requires Generator(g) && |d| >= |g| - 1
    ensures Divides(d, q, Remainder(d, g), g)
    decreases |d|
  {
    if |d| < |g| {
      q := [];
    } else {
      var q' := DivisionIdentity(Cancel(d, g), g);
      q := [d[0]] + q';
      DivisionStep(d, q', q, Remainder(d, g), g);
    }
  }

  /** A product that vanishes in its leading |q| places vanishes altogether. */
  lemma {:induction false} ProductTopZero(q: Bits, g: Bits, k: nat)
    requires Generator(g) && k < |q| + |g| - 1
    requires forall i :: 0 <= i < |q| ==> !Product(q, g)[i]
    ensures !Product(q, g)[k]
  {
    if q == [] {
    } else {
      ProductAt(q, g, k);
      ProductAt(q, g, 0);
      assert !Product(q, g)[0];
      if k > 0 {
        forall i | 0 <= i < |q| - 1
          ensures !Product(q[1..], g)[i]
        {
          ProductAt(q, g, i + 1);
          assert !Product(q, g)[i + 1];
        }
        ProductTopZero(q[1..], g, k - 1);
      }
    }
  }

  lemma {:induction false} ProductXor(p: Bits, q: Bits, g: Bits, k: nat)
    requires |p| == |q| && |g| >= 1 && k < |q| + |g| - 1
    ensures Product(Xor(p, q), g)[k] == (Product(p, g)[k] != Product(q, g)[k])
    decreases |p|
  {
    var x := Xor(p, q);
    if p == [] {
      assert x == p == q;
    } else {
      var rest := Xor(p[1..], q[1..]);
      assert x[1..] == rest && x[0] == (p[0] != q[0]);
      ProductAt(p, g, k);
      ProductAt(q, g, k);
      ProductAt(x, g, k);
      if k > 0 { ProductXor(p[1..], q[1..], g, k - 1); }
    }
  }

  lemma EqualQuotients(d: Bits, g: Bits, q: Bits, r: Bits, q0: Bits, r0: Bits)
    requires Generator(g) && Divides(d, q, r, g) && Divides(d, q0, r0, g)
    ensures r == r0
  {
    var x := Xor(q, q0);
    forall k | 0 <= k < |d|
      ensures Product(x, g)[k] == (Product(q, g)[k] != Product(q0, g)[k])
    {
      ProductXor(q, q0, g, k);
    }
    forall k | 0 <= k < |d|
      ensures !Product(x, g)[k]
    {
      ProductTopZero(x, g, k);
    }
    forall i | 0 <= i < |r|
      ensures r[i] == r0[i]
    {
      var k := |q| + i;
      assert d[k] == (Product(q, g)[k] != r[k - |q|]) == (Product(q0, g)[k] != r0[k - |q|]);
    }
  }

  /** The remainder is the only value that fits the division identity. */
  lemma RemainderUnique(d: Bits, g: Bits, q: Bits, r: Bits)
    requires Generator(g) && Divides(d, q, r, g)
    ensures r == Remainder(d, g)
  {
    var q0 := DivisionIdentity(d, g);
    var r0 := Remainder(d, g);
    EqualQuotients(d, g, q, r, q0, r0);
  }

  /** Appending |g| - 1 zeros multiplies by x^(|g|-1): the CRC of message `m`. */
  function Crc(m: Bits, g: Bits): (r: Bits)
    requires Generator(g)
    ensures |r| == |g| - 1
  {
    Remainder(m + Zeros(|g| - 1), g)
  }

  // ------------------------------------------------------------------
  // The shift register

  /** One clock: shift left, and subtract the generator when the bit shifted out differs from the input. */
  function Clock(reg: Bits, bit: bool, g: Bits): (r: Bits)
    requires Generator(g) && |reg| == |g| - 1
    ensures |r| == |reg|
    ensures forall k :: 0 <= k < |r| ==>
      r[k] == ((k + 1 < |reg| && reg[k + 1]) != (reg[0] != bit && g[k + 1]))
  {
    var shifted := reg[1..] + [false];
    if reg[0] != bit then Xor(shifted, g[1..]) else shifted
  }

  function Feed(reg: Bits, m: Bits, g: Bits): (r: Bits)
    requires Generator(g) && |reg| == |g| - 1
    ensures |r| == |reg|
    decreases |m|
  {
    if m == [] then reg else Feed(Clock(reg, m[0], g), m[1..], g)
  }

  /** The dividend a register stands for when `m` is still to come: its content xored into the leading bits. */
  function Augment(reg: Bits, m: Bits): (d: Bits)
    ensures |d| == |reg| + |m|
  {
    Xor(reg + Zeros(|m|), m + Zeros(|reg|))
  }

  lemma CancelIsClock(reg: Bits, m: Bits, g: Bits)
    requires Generator(g) && |reg| == |g| - 1 && m != []
    ensures Cancel(Augment(reg, m), g) == Augment(Clock(reg, m[0], g), m[1..])
  {
    var next, want := Cancel(Augment(reg, m), g), Augment(Clock(reg, m[0], g), m[1..]);
    forall k | 0 <= k < |next|
      ensures next[k] == want[k]
    {
      assert (m + Zeros(|reg|))[k + 1] == (m[1..] + Zeros(|reg|))[k];
      assert (reg + Zeros(|m|))[k + 1] == (k + 1 < |reg| && reg[k + 1]);
    }
  }

  /** The register performs the division. */
  lemma {:induction false} FeedIsRemainder(reg: Bits, m: Bits, g: Bits)
    requires Generator(g) && |reg| == |g| - 1
    ensures Feed(reg, m, g) == Remainder(Augment(reg, m), g)
    decreases |m|
  {
    if m == [] {
      assert Augment(reg, m) == reg;
    } else {
      FeedIsRemainder(Clock(reg, m[0], g), m[1..], g);
      CancelIsClock(reg, m, g);
    }
  }

  lemma CrcIsFeed(m: Bits, g: Bits)
    requires Generator(g)
    ensures Crc(m, g) == Feed(Zeros(|g| - 1), m, g)
  {
    FeedIsRemainder(Zeros(|g| - 1), m, g);
    assert Augment(Zeros(|g| - 1), m) == m + Zeros(|g| - 1);
  }

  lemma {:induction false} FeedAppend(reg: Bits, a: Bits, b: Bits, g: Bits)
    requires Generator(g) && |reg| == |g| - 1
    ensures Feed(reg, a + b, g) == Feed(Feed(reg, a, g), b, g)
    decreases |a|
  {
    if a == [] {
      assert a + b == b;
    } else {
      assert (a + b)[1..] == a[1..] + b;
      FeedAppend(Clock(reg, a[0], g), a[1..], b, g);
    }
  }

  /** Extending a message continues from the CRC of its prefix. */
  lemma CrcExtends(a: Bits, b: Bits, g: Bits)
    requires Generator(g)
    ensures Crc(a + b, g) == Feed(Crc(a, g), b, g)
  {
    CrcIsFeed(a, g);
    CrcIsFeed(a + b, g);
    FeedAppend(Zeros(|g| - 1), a, b, g);
  }

  // ------------------------------------------------------------------
  // Linearity and detection

  lemma ClockDifference(r: Bits, s: Bits, x: bool, y: bool, g: Bits)
    requires Generator(g) && |r| == |s| == |g| - 1
    ensures Xor(Clock(r, x, g), Clock(s, y, g)) == Clock(Xor(r, s), x != y, g)
  {
    var left, right := Xor(Clock(r, x, g), Clock(s, y, g)), Clock(Xor(r, s), x != y, g);
    forall k | 0 <= k < |left|
      ensures left[k] == right[k]
    {
      assert Clock(r, x, g)[k] == ((k + 1 < |r| && r[k + 1]) != (r[0] != x && g[k + 1]));
      assert Clock(s, y, g)[k] == ((k + 1 < |s| && s[k + 1]) != (s[0] != y && g[k + 1]));
    }
  }

  lemma {:induction false} FeedDifference(r: Bits, s: Bits, a: Bits, b: Bits, g: Bits)
    requires Generator(g) && |r| == |s| == |g| - 1 && |a| == |b|
    ensures Xor(Feed(r, a, g), Feed(s, b, g)) == Feed(Xor(r, s), Xor(a, b), g)
    decreases |a|
  {
    if a == [] {
    } else {
      var r', s' := Clock(r, a[0], g), Clock(s, b[0], g);
      FeedDifference(r', s', a[1..], b[1..], g);
      assert Xor(a, b)[1..] == Xor(a[1..], b[1..]);
      ClockDifference(r, s, a[0], b[0], g);
    }
  }

  lemma CrcDifference(a: Bits, b: Bits, g: Bits)
    requires Generator(g) && |a| == |b|
    ensures Xor(Crc(a, g), Crc(b, g)) == Crc(Xor(a, b), g)
  {
    CrcIsFeed(a, g);
    CrcIsFeed(b, g);
    CrcIsFeed(Xor(a, b), g);
    FeedDifference(Zeros(|g| - 1), Zeros(|g| - 1), a, b, g);
    assert Xor(Zeros(|g| - 1), Zeros(|g| - 1)) == Zeros(|g| - 1);
  }

  lemma FeedZero(reg: Bits, n: nat, g: Bits)
    requires Generator(g) && |reg| == |g| - 1 && n > 0
    ensures Feed(reg, Zeros(n), g) == Feed(Clock(reg, false, g), Zeros(n - 1), g)
  {
    assert Zeros(n)[1..] == Zeros(n - 1);
  }

  /** Clocking zeros is a bijection that fixes zero, because the generator has a constant term. */
  lemma {:induction false} ZeroClocksKeepNonzero(reg: Bits, n: nat, g: Bits)
    requires Generator(g) && |reg| == |g| - 1
    ensures Feed(reg, Zeros(n), g) == Zeros(|reg|) <==> reg == Zeros(|reg|)
    decreases n
  {
    if n == 0 {
    } else {
      var reg' := Clock(reg, false, g);
      assert Zeros(n)[1..] == Zeros(n - 1);
      ZeroClocksKeepNonzero(reg', n - 1, g);
      if reg == Zeros(|reg|) {
        assert reg' == Zeros(|reg|);
      }
      if reg' == Zeros(|reg|) {
        assert reg'[|reg| - 1] == reg[0];
        assert forall i :: 1 <= i < |reg| ==> reg[i] == reg'[i - 1];
        assert reg == Zeros(|reg|);
      }
    }
  }

  lemma ClockAbsorbs(reg: Bits, m: Bits, g: Bits)
    requires Generator(g) && |reg| == |g| - 1 && 1 <= |m| <= |reg|
    ensures Clock(Xor(reg, m + Zeros(|reg| - |m|)), false, g)
         == Xor(Clock(reg, m[0], g), m[1..] + Zeros(|reg| - |m| + 1))
  {
    var x := Xor(reg, m + Zeros(|reg| - |m|));
    var left, right := Clock(x, false, g), Xor(Clock(reg, m[0], g), m[1..] + Zeros(|reg| - |m| + 1));
    forall k | 0 <= k < |reg|
      ensures left[k] == right[k]
    {
      assert (m[1..] + Zeros(|reg| - |m| + 1))[k] == (k + 1 < |m| && m[k + 1]);
    }
  }

  /** One message bit, when the rest acts as if xored into the register `next`. */
  lemma AbsorbsOne(reg: Bits, m: Bits, next: Bits, x: Bits, n: nat, g: Bits)
    requires Generator(g) && |reg| == |x| == |g| - 1 && 1 <= |m| && next == Clock(reg, m[0], g) && n == |m|
    requires Feed(next, m[1..], g) == Feed(Clock(x, false, g), Zeros(n - 1), g)
    ensures Feed(reg, m, g) == Feed(x, Zeros(n), g)
  {
    FeedZero(x, n, g);
  }

  /** Up to |reg| message bits act as if xored into the register and followed by zeros. */
  lemma {:induction false} FeedAbsorbs(reg: Bits, m: Bits, g: Bits)
    requires Generator(g) && |reg| == |g| - 1 && |m| <= |reg|
    ensures Feed(reg, m, g) == Feed(Xor(reg, m + Zeros(|reg| - |m|)), Zeros(|m|), g)
    decreases |m|
  {
    if m == [] {
      assert Xor(reg, m + Zeros(|reg|)) == reg;
    } else {
      var next, rest := Clock(reg, m[0], g), m[1..];
      FeedAbsorbs(next, rest, g);
      ClockAbsorbs(reg, m, g);
      assert |reg| - |rest| == |reg| - |m| + 1;
      AbsorbsOne(reg, m, next, Xor(reg, m + Zeros(|reg| - |m|)), |m|, g);
    }
  }

  lemma ClockPushesUp(m: Bits, n: nat, g: Bits)
    requires Generator(g) && n > 0 && n + |m| == |g| - 1
    ensures Clock(Zeros(n) + m, false, g) == Zeros(n - 1) + (m + [false])
  {
    assert (Zeros(n) + m)[1..] == Zeros(n - 1) + m;
  }

  /** A register whose first `n` bits are clear is only shifted by `n` zeros. */
  lemma {:induction false} FeedPushesUp(m: Bits, n: nat, g: Bits)
    requires Generator(g) && n + |m| == |g| - 1
    ensures Feed(Zeros(n) + m, Zeros(n), g) == m + Zeros(n)
    decreases n
  {
    if n == 0 {
      assert Zeros(0) + m == m + Zeros(0);
    } else {
      FeedZero(Zeros(n) + m, n, g);
      ClockPushesUp(m, n, g);
      FeedPushesUp(m + [false], n - 1, g);
      assert m + [false] + Zeros(n - 1) == m + Zeros(n);
    }
  }

  lemma XorQuarters(hi: Bits, lo: Bits, d: Bits)
    requires |d| == |hi|
    ensures Xor(hi + lo, d + Zeros(|lo|)) == Xor(Xor(hi, d) + Zeros(|lo|), Zeros(|hi|) + lo)
  {
  }

  lemma FeedTopPart(x: Bits, n: nat, g: Bits)
    requires Generator(g) && |x| + n == |g| - 1
    ensures Feed(x + Zeros(n), Zeros(|x|), g) == Feed(Zeros(|g| - 1), x, g)
  {
    FeedAbsorbs(Zeros(|g| - 1), x, g);
    assert Xor(Zeros(|g| - 1), x + Zeros(n)) == x + Zeros(n);
  }

  /** Feeding a message shorter than the register: the part it meets is divided, the rest moves up. */
  lemma FeedSplits(hi: Bits, lo: Bits, d: Bits, g: Bits)
    requires Generator(g) && |hi| + |lo| == |g| - 1 && |d| == |hi|
    ensures Feed(hi + lo, d, g) == Xor(Feed(Zeros(|g| - 1), Xor(hi, d), g), lo + Zeros(|hi|))
  {
    var z := Zeros(|hi|);
    var top, bottom := Xor(hi, d) + Zeros(|lo|), z + lo;
    FeedAbsorbs(hi + lo, d, g);
    XorQuarters(hi, lo, d);
    XorZero(z, z);
    FeedDifference(top, bottom, z, z, g);
    FeedTopPart(Xor(hi, d), |lo|, g);
    FeedPushesUp(lo, |hi|, g);
  }

  /** A codeword checks to zero exactly when its tail is the CRC of its head. */
  lemma ResidueZero(m: Bits, c: Bits, g: Bits)
    requires Generator(g) && |c| == |g| - 1
    ensures Crc(m + c, g) == Zeros(|c|) <==> c == Crc(m, g)
  {
    var w := |c|;
    var r := Crc(m, g);
    CrcExtends(m, c, g);
    FeedAbsorbs(r, c, g);
    assert c + Zeros(0) == c;
    ZeroClocksKeepNonzero(Xor(r, c), w, g);
    XorZero(r, c);
  }

  /** All differences between `a` and `b` lie in `w` consecutive bits starting at `at`. */
  predicate DiffersWithin(a: Bits, b: Bits, at: nat, w: nat)
    requires |a| == |b|
  {
    forall j :: 0 <= j < |a| && a[j] != b[j] ==> at <= j < at + w
  }

  lemma ShortNonzero(m: Bits, j: nat, g: Bits)
    requires Generator(g) && j < |m| <= |g| - 1 && m[j]
    ensures Feed(Zeros(|g| - 1), m, g) != Zeros(|g| - 1)
  {
    var z := Zeros(|g| - 1);
    var padded := m + Zeros(|g| - 1 - |m|);
    FeedAbsorbs(z, m, g);
    assert Xor(z, padded)[j];
    ZeroClocksKeepNonzero(Xor(z, padded), |m|, g);
  }

  lemma PaddedBurst(lead: nat, m: Bits, tail: nat, j: nat, g: Bits)
    requires Generator(g) && j < |m| <= |g| - 1 && m[j]
    ensures Crc(Zeros(lead) + m + Zeros(tail), g) != Zeros(|g| - 1)
  {
    var z := Zeros(|g| - 1);
    CrcIsFeed(Zeros(lead) + m + Zeros(tail), g);
    FeedAppend(z, Zeros(lead) + m, Zeros(tail), g);
    FeedAppend(z, Zeros(lead), m, g);
    ZeroClocksKeepNonzero(z, lead, g);
    ShortNonzero(m, j, g);
    ZeroClocksKeepNonzero(Feed(z, m, g), tail, g);
  }

  lemma BurstNonzero(e: Bits, at: nat, stop: nat, j: nat, g: Bits)
    requires Generator(g) && at <= j < stop <= |e| && stop - at <= |g| - 1
    requires e[j] && forall i :: 0 <= i < |e| && e[i] ==> at <= i < stop
    ensures Crc(e, g) != Zeros(|g| - 1)
  {
    var m := e[at..stop];
    assert m[j - at];
    assert e == Zeros(at) + m + Zeros(|e| - stop);
    PaddedBurst(at, m, |e| - stop, j - at, g);
  }

  /** Every burst no longer than the CRC is detected. */
  lemma BurstDetected(a: Bits, b: Bits, at: nat, g: Bits)
    requires Generator(g) && |a| == |b| && a != b
    requires DiffersWithin(a, b, at, |g| - 1)
    ensures Crc(a, g) != Crc(b, g)
  {
    var j :| 0 <= j < |a| && a[j] != b[j];
    var stop := if at + |g| - 1 <= |a| then at + |g| - 1 else |a|;
    BurstNonzero(Xor(a, b), at, stop, j, g);
    CrcDifference(a, b, g);
    XorZero(Crc(a, g), Crc(b, g));
  }

  lemma FeedSnoc(reg: Bits, m: Bits, bit: bool, g: Bits)
    requires Generator(g) && |reg| == |g| - 1
    ensures Feed(reg, m + [bit], g) == Clock(Feed(reg, m, g), bit, g)
  {
    FeedAppend(reg, m, [bit], g);
    assert [bit][1..] == [];
  }

  lemma FirstBit(m: Bits, g: Bits)
    requires Generator(g)
    ensures Feed(Zeros(|g| - 1), [true] + m, g) == Feed(g[1..], m, g)
  {
    assert ([true] + m)[1..] == m;
    assert Clock(Zeros(|g| - 1), true, g) == g[1..];
  }

  lemma SecondBit(r: Bits, g: Bits)
    requires Generator(g) && |r| == |g| - 1
    ensures Clock(r, true, g) == Xor(Clock(r, false, g), g[1..])
  {
    var left, right := Clock(r, true, g), Xor(Clock(r, false, g), g[1..]);
    forall k | 0 <= k < |left| ensures left[k] == right[k] {
      assert g[1..][k] == g[k + 1];
    }
  }

  lemma OneMoreZero(n: nat)
    ensures Zeros(n) + [false] == Zeros(n + 1)
  { }

  /** A set bit, then `d` clocks up to and including the next set bit. */
  lemma FeedTwo(d: nat, g: Bits)
    requires Generator(g) && d > 0
    ensures Feed(Zeros(|g| - 1), [true] + Zeros(d - 1) + [true], g) == Xor(Feed(g[1..], Zeros(d), g), g[1..])
  {
    FeedSnoc(Zeros(|g| - 1), [true] + Zeros(d - 1), true, g);
    FirstBit(Zeros(d - 1), g);
    SecondBit(Feed(g[1..], Zeros(d - 1), g), g);
    FeedSnoc(g[1..], Zeros(d - 1), false, g);
    OneMoreZero(d - 1);
  }

  /** Two changed bits `d` apart go unseen exactly when `d` clocks take the generator's low part to itself. */
  lemma TwoBitsDetected(a: Bits, b: Bits, i: nat, j: nat, g: Bits)
    requires Generator(g) && |a| == |b| && i < j < |a|
    requires forall k :: 0 <= k < |a| ==> (a[k] != b[k] <==> k == i || k == j)
    ensures Crc(a, g) == Crc(b, g) <==> Feed(g[1..], Zeros(j - i), g) == g[1..]
  {
    var z, e, d, tail := Zeros(|g| - 1), Xor(a, b), j - i, |a| - j - 1;
    var m := [true] + Zeros(d - 1) + [true];
    assert e == Zeros(i) + m + Zeros(tail);
    CrcDifference(a, b, g);
    XorZero(Crc(a, g), Crc(b, g));
    CrcIsFeed(e, g);
    FeedAppend(z, Zeros(i) + m, Zeros(tail), g);
    FeedAppend(z, Zeros(i), m, g);
    ZeroClocksKeepNonzero(z, i, g);
    ZeroClocksKeepNonzero(Feed(z, m, g), tail, g);
    FeedTwo(d, g);
    XorZero(Feed(g[1..], Zeros(d), g), g[1..]);
  }

  /** True for an odd number of set bits. */
  function Odd(b: Bits): bool {
    if b == [] then false else b[0] != Odd(b[1..])
  }

  lemma {:induction false} OddXor(a: Bits, b: Bits)
    requires |a| == |b|
    ensures Odd(Xor(a, b)) == (Odd(a) != Odd(b))
  {
    if a == [] {
    } else {
      OddXor(a[1..], b[1..]);
      assert Xor(a, b)[1..] == Xor(a[1..], b[1..]);
    }
  }

  lemma {:induction false} OddAppend(a: Bits, b: Bits)
    ensures Odd(a + b) == (Odd(a) != Odd(b))
  {
    if a == [] {
      assert a + b == b;
    } else {
      OddAppend(a[1..], b);
      assert (a + b)[1..] == a[1..] + b;
    }
  }

  lemma {:induction false} OddSnoc(a: Bits, x: bool)
    ensures Odd(a + [x]) == (Odd(a) != x)
  {
    if a == [] {
      assert [x][1..] == [];
    } else {
      OddSnoc(a[1..], x);
      assert (a + [x])[1..] == a[1..] + [x];
    }
  }

  /** When the generator has an even number of terms the register carries the parity of its input. */
  lemma {:induction false} FeedParity(reg: Bits, m: Bits, g: Bits)
    requires Generator(g) && |reg| == |g| - 1 && !Odd(g)
    ensures Odd(Feed(reg, m, g)) == (Odd(reg) != Odd(m))
    decreases |m|
  {
    if m == [] {
    } else {
      var shifted := reg[1..] + [false];
      OddSnoc(reg[1..], false);
      assert Odd(g[1..]);
      OddXor(shifted, g[1..]);
      FeedParity(Clock(reg, m[0], g), m[1..], g);
    }
  }

  lemma {:induction false} OddZeros(n: nat)
    ensures !Odd(Zeros(n))
  {
    if n == 0 {
    } else {
      assert Zeros(n)[1..] == Zeros(n - 1);
      OddZeros(n - 1);
    }
  }

  /** Any odd number of changed bits is detected by a generator with an even number of terms. */
  lemma OddDetected(a: Bits, b: Bits, g: Bits)
    requires Generator(g) && !Odd(g) && |a| == |b| && Odd(Xor(a, b))
    ensures Crc(a, g) != Crc(b, g)
  {
    CrcIsFeed(a, g);
    CrcIsFeed(b, g);
    OddXor(a, b);
    OddZeros(|g| - 1);
    FeedParity(Zeros(|g| - 1), a, g);
    FeedParity(Zeros(|g| - 1), b, g);
  }
}

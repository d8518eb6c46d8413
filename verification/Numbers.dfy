/**
  Parsing and printing of numbers in a default base (src-rp/number/num.c).

  The `%u`, `%o` and `%x` conversions of the C library appear as the function `Numeral` with the
  padding its format asks for.
*/
module Numbers {

  const WORD32: int := 0x1_0000_0000

  type Uint32 = x: int | 0 <= x < WORD32

  /** 32-bit arithmetic. */
  function Wrap(v: nat): Uint32 { v % WORD32 }

  datatype Base = Binary | Octal | Decimal | Hex

  function Radix(b: Base): nat {
    match b
    case Binary => 2
    case Octal => 8
    case Decimal => 10
    case Hex => 16
  }

  function Times(v: int, b: Base): int {
    match b
    case Binary => 2 * v
    case Octal => 8 * v
    case Decimal => 10 * v
    case Hex => 16 * v
  }

  function Quotient(v: nat, b: Base): nat {
    match b
    case Binary => v / 2
    case Octal => v / 8
    case Decimal => v / 10
    case Hex => v / 16
  }

  function Remainder(v: nat, b: Base): (r: nat)
    ensures r < Radix(b) && Times(Quotient(v, b), b) + r == v
  {
    v - Times(Quotient(v, b), b)
  }

  /** Representation sizes; the 32-bit one is not part of this model. */
  datatype Size = Unlimited | ByteSize | WordSize

  function Max(s: Size): nat
    requires !s.Unlimited?
  {
    if s.ByteSize? then 0xFF else 0xFFFF
  }

  predicate Fits(v: int, s: Size) { s.Unlimited? || v <= Max(s) }

  // ---------------------------------------------------------------- digits

  predicate IsDigit(c: char) { '0' <= c <= '9' }

  function ToLower(c: char): char { if 'A' <= c <= 'Z' then c + 32 as char else c }

  /** The value of a digit in a base, -1 if the base does not have it. */
  function DigitValue(c: char, b: Base): (d: int)
    ensures -1 <= d < Radix(b)
  {
    if IsDigit(c) then if (c - '0') as int < Radix(b) then (c - '0') as int else -1
    else if b.Hex? && 'a' <= ToLower(c) <= 'f' then (ToLower(c) - 'a') as int + 10
    else -1
  }

  predicate Legal(s: string, b: Base) { forall i :: 0 <= i < |s| ==> DigitValue(s[i], b) >= 0 }

  /** The number a digit string stands for. */
  function Value(s: string, b: Base): int {
    if s == "" then 0 else Times(Value(s[..|s| - 1], b), b) + DigitValue(s[|s| - 1], b)
  }

  lemma {:induction false} ValueAppend(s: string, c: char, b: Base)
    ensures Value(s + [c], b) == Times(Value(s, b), b) + DigitValue(c, b)
  {
    assert (s + [c])[..|s|] == s;
  }

  lemma LegalPrefix(s: string, k: nat, b: Base)
    requires Legal(s, b) && k <= |s|
    ensures Legal(s[..k], b)
  { }

  /** Each digit more makes the number no smaller. */
  lemma {:induction false} ValueGrows(s: string, k: nat, b: Base)
    requires Legal(s, b) && k <= |s|
    ensures 0 <= Value(s[..k], b) <= Value(s, b)
    decreases |s|
  {
    if k == |s| {
      assert s[..k] == s;
      if s != "" {
        LegalPrefix(s, |s| - 1, b);
        ValueGrows(s[..|s| - 1], |s| - 1, b);
      }
    } else {
      LegalPrefix(s, |s| - 1, b);
      ValueGrows(s[..|s| - 1], k, b);
      assert s[..|s| - 1][..k] == s[..k];
    }
  }

  // ---------------------------------------------------------------- parsing

  datatype Status = Ok | InvalidDigit | InvalidSize

  datatype Parsed = Parsed(v: Uint32, status: Status)

  /** The base a trailing letter names. */
  function Indicated(c: char): Option {
    var l := ToLower(c);
    if l == 'h' || l == 'x' then Some(Hex)
    else if l == 'o' || l == 'q' then Some(Octal)
    else if l == 't' || l == '.' then Some(Decimal)
    else if l == '\'' then Some(Binary)
    else None
  }

  datatype Option = Some(base: Base) | None

  /** The base a number is in, and its digits. */
  function BaseOf(s: string, default: Base): Base {
    if s == "" || Indicated(s[|s| - 1]).None? then default else Indicated(s[|s| - 1]).base
  }

  function DigitsOf(s: string): string {
    if s == "" || Indicated(s[|s| - 1]).None? then s else s[..|s| - 1]
  }

  /** Which letters name a base, in either case; without one the number is in the default base. */
  lemma IndicatorNames(digits: string, c: char, default: Base)
    ensures BaseOf(digits + [c], default) ==
      if c in {'h', 'H', 'x', 'X'} then Hex
      else if c in {'o', 'O', 'q', 'Q'} then Octal
      else if c in {'t', 'T', '.'} then Decimal
      else if c == '\'' then Binary
      else default
    ensures DigitsOf(digits + [c]) ==
      if c in {'h', 'H', 'x', 'X', 'o', 'O', 'q', 'Q', 't', 'T', '.', '\''} then digits else digits + [c]
  {
    assert (digits + [c])[..|digits|] == digits;
  }

  /** The digit loop from index `i` on, with `v` made of the digits before. */
  function ParseFrom(s: string, i: nat, v: Uint32, size: Size, b: Base): Parsed
    requires i <= |s|
    decreases |s| - i
  {
    if i == |s| then Parsed(v, Ok)
    else if DigitValue(s[i], b) < 0 then Parsed(Wrap(i), InvalidDigit)
    else
      var next := Wrap(Times(v, b) + DigitValue(s[i], b));
      if !Fits(next, size) then Parsed(next, InvalidSize) else ParseFrom(s, i + 1, next, size, b)
  }

  function Parse(s: string, size: Size, default: Base): Parsed {
    if s == "" || !IsDigit(s[0]) then Parsed(0, InvalidDigit)
    else ParseFrom(DigitsOf(s), 0, 0, size, BaseOf(s, default))
  }

  /** The base indicator at the end, and how many characters come before it. */
  method BaseIndicator(s: string, default: Base) returns (nb: Base, l: nat)
    requires s != ""
    ensures nb == BaseOf(s, default) && l <= |s| && s[..l] == DigitsOf(s)
  {
    nb, l := default, |s|;
    if !IsDigit(s[l - 1]) {
      var lc := ToLower(s[l - 1]);
      if lc == 'h' || lc == 'x' {
        nb, l := Hex, l - 1;
      } else if lc == 'o' || lc == 'q' {
        nb, l := Octal, l - 1;
      } else if lc == 't' || lc == '.' {
        nb, l := Decimal, l - 1;
      } else if lc == '\'' {
        nb, l := Binary, l - 1;
      }
    }
  }

  method ReadDigit(c: char, nb: Base) returns (dv: int)
    ensures dv == DigitValue(c, nb)
  {
    if !IsDigit(c) {
      if nb != Hex { return -1; }
      dv := ToLower(c) as int - 'a' as int + 10;
      if dv < 10 || dv > 15 { return -1; }
    } else {
      dv := (c - '0') as int;
      if dv >= Radix(nb) { return -1; }
    }
  }

  /** `num_valprovider` */
  method NumValprovider(s: string, size: Size, default: Base) returns (r: Parsed)
    ensures r == Parse(s, size, default)
  {
    if s == "" || !IsDigit(s[0]) { return Parsed(0, InvalidDigit); }
    var nb, l := BaseIndicator(s, default);
    ghost var digits := s[..l];
    var v: Uint32, i := 0, 0;
    while i < l
      invariant 0 <= i <= l
      invariant ParseFrom(digits, 0, 0, size, nb) == ParseFrom(digits, i, v, size, nb)
    {
      assert digits[i] == s[i];
      var dv := ReadDigit(s[i], nb);
      if dv < 0 { return Parsed(Wrap(i), InvalidDigit); }
      v := Wrap(Times(v, nb) + dv);
      if size != Unlimited && v > Max(size) { return Parsed(v, InvalidSize); }
      i := i + 1;
    }
    return Parsed(v, Ok);
  }

  lemma LongerPrefix(s: string, i: nat, b: Base)
    requires i < |s|
    ensures Value(s[..i + 1], b) == Times(Value(s[..i], b), b) + DigitValue(s[i], b)
    ensures Legal(s[..i], b) && DigitValue(s[i], b) >= 0 ==> Legal(s[..i + 1], b)
  {
    assert s[..i + 1] == s[..i] + [s[i]];
    ValueAppend(s[..i], s[i], b);
  }

  lemma NoWrap(v: int, d: int, b: Base)
    requires 0 <= v <= 0xFFFF && 0 <= d < Radix(b)
    ensures 0 <= Times(v, b) + d < WORD32 && Wrap(Times(v, b) + d) == Times(v, b) + d
  { }

  lemma OneDigit(s: string, i: nat, v: Uint32, next: int, size: Size, b: Base)
    requires i < |s| && !size.Unlimited? && DigitValue(s[i], b) >= 0
    requires v <= 0xFFFF && next == Times(v, b) + DigitValue(s[i], b)
    ensures 0 <= next < WORD32
    ensures ParseFrom(s, i, v, size, b)
         == if next <= Max(size) then ParseFrom(s, i + 1, next, size, b) else Parsed(next, InvalidSize)
  {
    NoWrap(v, DigitValue(s[i], b), b);
  }

  /** For byte and word sizes a step of the digit loop does not wrap round 32 bits. */
  lemma ParseStep(s: string, i: nat, size: Size, b: Base)
    requires i < |s| && !size.Unlimited? && Legal(s[..i], b) && 0 <= Value(s[..i], b) <= Max(size)
    requires DigitValue(s[i], b) >= 0
    ensures Legal(s[..i + 1], b) && 0 <= Value(s[..i + 1], b) < WORD32
    ensures ParseFrom(s, i, Value(s[..i], b), size, b)
         == if Value(s[..i + 1], b) <= Max(size) then ParseFrom(s, i + 1, Value(s[..i + 1], b), size, b)
            else Parsed(Value(s[..i + 1], b), InvalidSize)
  {
    LongerPrefix(s, i, b);
    OneDigit(s, i, Value(s[..i], b), Value(s[..i + 1], b), size, b);
  }

  /** A number is accepted, with its true value, exactly when all its digits are legal and it fits. */
  lemma {:induction false} AcceptsExactly(s: string, i: nat, size: Size, b: Base)
    requires i <= |s| && !size.Unlimited? && Legal(s[..i], b) && 0 <= Value(s[..i], b) <= Max(size)
    ensures ParseFrom(s, i, Value(s[..i], b), size, b).status == Ok <==> Legal(s, b) && Value(s, b) <= Max(size)
    ensures Legal(s, b) && Value(s, b) <= Max(size) ==> ParseFrom(s, i, Value(s[..i], b), size, b).v == Value(s, b)
    decreases |s| - i
  {
    if i == |s| {
      assert s[..i] == s;
    } else if DigitValue(s[i], b) >= 0 {
      ParseStep(s, i, size, b);
      if Value(s[..i + 1], b) <= Max(size) {
        AcceptsExactly(s, i + 1, size, b);
      } else if Legal(s, b) {
        ValueGrows(s, i + 1, b);
      }
    }
  }

  /** The first digit that is illegal, or makes the number too large, is at `k`. */
  predicate RejectedAt(s: string, k: nat, size: Size, b: Base, r: Parsed)
    requires k < |s| && !size.Unlimited?
  {
    && Legal(s[..k], b)
    && Value(s[..k], b) <= Max(size)
    && (if DigitValue(s[k], b) < 0 then r == Parsed(Wrap(k), InvalidDigit)
        else r.status == InvalidSize && r.v == Value(s[..k + 1], b) > Max(size))
  }

  /** A number that is not accepted is rejected for its first offending digit. */
  lemma {:induction false} RejectsFirst(s: string, i: nat, size: Size, b: Base) returns (k: nat)
    requires i <= |s| && !size.Unlimited? && Legal(s[..i], b) && 0 <= Value(s[..i], b) <= Max(size)
    requires ParseFrom(s, i, Value(s[..i], b), size, b).status != Ok
    ensures i <= k < |s| && RejectedAt(s, k, size, b, ParseFrom(s, i, Value(s[..i], b), size, b))
    decreases |s| - i
  {
    k := i;
    if DigitValue(s[i], b) >= 0 {
      ParseStep(s, i, size, b);
      if Value(s[..i + 1], b) <= Max(size) {
        k := RejectsFirst(s, i + 1, size, b);
      }
    }
  }

  /** The number is legal in its base and small enough. */
  predicate Acceptable(s: string, size: Size, default: Base)
    requires !size.Unlimited?
  {
    s != "" && IsDigit(s[0]) && Legal(DigitsOf(s), BaseOf(s, default)) && Value(DigitsOf(s), BaseOf(s, default)) <= Max(size)
  }

  /** `num_valprovider` says OK exactly when it should, and the value is then the true one. */
  lemma OkIff(s: string, size: Size, default: Base)
    requires !size.Unlimited?
    ensures Parse(s, size, default).status == Ok <==> Acceptable(s, size, default)
    ensures Acceptable(s, size, default) ==> Parse(s, size, default).v == Value(DigitsOf(s), BaseOf(s, default))
  {
    var digits := DigitsOf(s);
    assert digits[..0] == "";
    AcceptsExactly(digits, 0, size, BaseOf(s, default));
  }

  lemma WrapNext(v: nat, d: nat, b: Base)
    ensures Wrap(Times(Wrap(v), b) + d) == Wrap(Times(v, b) + d)
  {
    var k := v / WORD32;
    assert v == Wrap(v) + k * WORD32;
    WrapShift(Times(Wrap(v), b) + d, Times(k, b));
  }

  lemma WrapShift(w: nat, k: nat)
    ensures Wrap(w + k * WORD32) == Wrap(w)
  { }

  /** Without a size the value is the true one modulo 2^32, for every legal number. */
  lemma {:induction false} UnlimitedWraps(s: string, i: nat, b: Base)
    requires i <= |s| && Legal(s, b) && Value(s, b) >= 0 && Value(s[..i], b) >= 0
    ensures ParseFrom(s, i, Wrap(Value(s[..i], b)), Unlimited, b) == Parsed(Wrap(Value(s, b)), Ok)
    decreases |s| - i
  {
    if i == |s| {
      assert s[..i] == s;
    } else {
      LongerPrefix(s, i, b);
      LegalPrefix(s, i + 1, b);
      ValueGrows(s, i, b);
      ValueGrows(s, i + 1, b);
      WrapNext(Value(s[..i], b), DigitValue(s[i], b), b);
      UnlimitedWraps(s, i + 1, b);
    }
  }

  // ---------------------------------------------------------------- printing

  function DigitChar(d: int, upper: bool): char
    requires 0 <= d < 16
  {
    if d < 10 then '0' + d as char else if upper then 'A' + (d - 10) as char else 'a' + (d - 10) as char
  }

  /** The digits of a number in a base, without leading zeros. */
  function Numeral(v: nat, b: Base, upper: bool): (s: string)
    ensures |s| >= 1
  {
    if v < Radix(b) then [DigitChar(v, upper)] else Numeral(Quotient(v, b), b, upper) + [DigitChar(Remainder(v, b), upper)]
  }

  function Fill(c: char, n: nat): (s: string)
    ensures |s| == n && forall i :: 0 <= i < n ==> s[i] == c
  {
    seq(n, _ => c)
  }

  function Padded(s: string, width: nat, c: char): (r: string)
    ensures |r| >= |s|
  {
    (if |s| < width then Fill(c, width - |s|) else "") + s
  }

  /** The width a format asks for: %3u, %5u; %02x, %04x; %03o, %06o, and %#o for any size. */
  function Width(v: Uint32, size: Size, b: Base, digits: nat): nat {
    if size.Unlimited? then if b.Octal? && v != 0 then digits + 1 else 0
    else if size.ByteSize? then if b.Hex? then 2 else 3
    else if b.Hex? then 4 else if b.Decimal? then 5 else 6
  }

  /** How a value of a size is printed in decimal, hexadecimal and octal. */
  function Printed(v: Uint32, size: Size, b: Base, upper: bool): string {
    var s := Numeral(v, b, upper);
    Padded(s, Width(v, size, b, |s|), if b.Decimal? then ' ' else '0')
  }

  /** What is left of a value that is too large for its size. */
  function Reduced(v: Uint32, size: Size): Uint32 {
    if size.ByteSize? then v % 0x100 else if size.WordSize? then v % 0x1_0000 else v
  }

  /** `num_decstr`, `num_hexstr` and `num_octstr`; true when the value did not fit. */
  method NumStr(v: Uint32, size: Size, b: Base, upper: bool) returns (s: string, ovf: bool)
    requires !b.Binary?
    ensures s == Printed(Reduced(v, size), size, b, upper)
    ensures ovf <==> !Fits(v, size)
  {
    ovf := false;
    var vc := v;
    if size == ByteSize {
      if v > 0xFF { ovf, vc := true, v % 0x100; }
    } else if size == WordSize {
      if v > 0xFFFF { ovf, vc := true, v % 0x1_0000; }
    }
    s := Printed(vc, size, b, upper);
  }

  lemma DigitCharReads(d: int, b: Base, upper: bool)
    requires 0 <= d < Radix(b)
    ensures DigitValue(DigitChar(d, upper), b) == d && Indicated(DigitChar(d, upper)).None?
  { }

  lemma {:induction false} NumeralReads(v: nat, b: Base, upper: bool)
    ensures var s := Numeral(v, b, upper);
      Legal(s, b) && Value(s, b) == v && Indicated(s[|s| - 1]).None?
    decreases v
  {
    var s := Numeral(v, b, upper);
    if v < Radix(b) {
      DigitCharReads(v, b, upper);
      assert s[..|s| - 1] == "";
    } else {
      NumeralReads(Quotient(v, b), b, upper);
      DigitCharReads(Remainder(v, b), b, upper);
      ValueAppend(Numeral(Quotient(v, b), b, upper), DigitChar(Remainder(v, b), upper), b);
    }
  }

  lemma {:induction false} LeadingZeros(n: nat, s: string, b: Base)
    requires Legal(s, b)
    ensures Legal(Fill('0', n) + s, b) && Value(Fill('0', n) + s, b) == Value(s, b)
    decreases |s|, n
  {
    var z := Fill('0', n) + s;
    if s != "" {
      LegalPrefix(s, |s| - 1, b);
      LeadingZeros(n, s[..|s| - 1], b);
      assert z[..|z| - 1] == Fill('0', n) + s[..|s| - 1];
    } else if n > 0 {
      LeadingZeros(n - 1, "", b);
      assert z[..n - 1] == Fill('0', n - 1) + "";
    }
  }

  /** A padded numeral has the value of the numeral when its first character is a digit. */
  lemma PaddedReads(v: nat, b: Base, upper: bool, width: nat, c: char)
    requires c == '0' || c == ' '
    ensures var s := Padded(Numeral(v, b, upper), width, c);
      && s != "" && Indicated(s[|s| - 1]).None?
      && (IsDigit(s[0]) ==> Legal(s, b) && Value(s, b) == v)
  {
    var numeral := Numeral(v, b, upper);
    NumeralReads(v, b, upper);
    if |numeral| < width {
      LeadingZeros(width - |numeral|, numeral, b);
    } else {
      assert "" + numeral == numeral;
    }
  }

  /**
    Printing and parsing in the same base: the number comes back exactly when the printed text
    starts with a digit, which padding blanks and hexadecimal letters prevent; otherwise the
    parser rejects its first character.
  */
  lemma PrintedReadsIff(v: Uint32, size: Size, b: Base, upper: bool)
    requires !b.Binary? && Fits(v, size)
    ensures Printed(v, size, b, upper) != ""
    ensures Parse(Printed(v, size, b, upper), size, b)
         == if IsDigit(Printed(v, size, b, upper)[0]) then Parsed(v, Ok) else Parsed(0, InvalidDigit)
  {
    var s := Printed(v, size, b, upper);
    PaddedReads(v, b, upper, Width(v, size, b, |Numeral(v, b, upper)|), if b.Decimal? then ' ' else '0');
    if IsDigit(s[0]) {
      ReadsBack(s, v, size, b);
    }
  }

  lemma UnlimitedReadsBack(s: string, v: Uint32, i: nat, w: Uint32, b: Base)
    requires Legal(s, b) && Value(s, b) == v && i == 0 && w == 0
    ensures ParseFrom(s, i, w, Unlimited, b) == Parsed(v, Ok)
  {
    assert s[..i] == "" && Value(s[..i], b) == w == Wrap(Value(s[..i], b));
    UnlimitedWraps(s, i, b);
  }

  /** Legal digits of a number that fits are read back as the number. */
  lemma ReadsBack(s: string, v: Uint32, size: Size, b: Base)
    requires s != "" && IsDigit(s[0]) && Indicated(s[|s| - 1]).None? && Fits(v, size)
    requires Legal(s, b) && Value(s, b) == v
    ensures Parse(s, size, b) == Parsed(v, Ok)
  {
    if size.Unlimited? {
      UnlimitedReadsBack(s, v, 0, 0, b);
    } else {
      OkIff(s, size, b);
    }
  }

  /** The digits alone are read back in decimal and octal... */
  lemma NumeralReadsBack(v: Uint32, size: Size, b: Base, upper: bool)
    requires Fits(v, size) && (b.Decimal? || b.Octal? || b.Binary?)
    ensures Parse(Numeral(v, b, upper), size, b) == Parsed(v, Ok)
  {
    var s := Numeral(v, b, upper);
    NumeralReads(v, b, upper);
    assert DigitValue(s[0], b) >= 0;
    ReadsBack(s, v, size, b);
  }

  /** ...and in hexadecimal behind a 0, whatever they are. */
  lemma HexReadsBack(v: Uint32, size: Size, upper: bool)
    requires Fits(v, size)
    ensures Parse("0" + Numeral(v, Hex, upper), size, Hex) == Parsed(v, Ok)
  {
    var s := Numeral(v, Hex, upper);
    NumeralReads(v, Hex, upper);
    LeadingZeros(1, s, Hex);
    assert Fill('0', 1) == "0";
    assert ("0" + s)[|"0" + s| - 1] == s[|s| - 1];
    ReadsBack("0" + s, v, size, Hex);
  }

  /** The letters of a hexadecimal numeral are in the case asked for. */
  lemma {:induction false} LetterCase(v: nat, upper: bool)
    ensures forall c :: c in Numeral(v, Hex, upper) ==> IsDigit(c) || (if upper then 'A' <= c <= 'F' else 'a' <= c <= 'f')
    decreases v
  {
    if v >= 16 { LetterCase(Quotient(v, Hex), upper); }
  }

  /** A numeral followed by the letter of its base is read as its number, whatever the default base. */
  lemma MarkedReadsBack(v: Uint32, b: Base, c: char, default: Base)
    requires !b.Hex?
    requires c in (match b case Octal => {'o', 'O', 'q', 'Q'} case Decimal => {'t', 'T', '.'} case _ => {'\''})
    ensures Parse(Numeral(v, b, true) + [c], Unlimited, default) == Parsed(v, Ok)
  {
    var s := Numeral(v, b, true);
    IndicatorNames(s, c, default);
    NumeralReads(v, b, true);
    NumeralReadsBack(v, Unlimited, b, true);
    assert DigitValue(s[0], b) >= 0;
  }

  /** ...and a hexadecimal one behind a 0. */
  lemma MarkedHexReadsBack(v: Uint32, c: char, default: Base, upper: bool)
    requires c in {'h', 'H', 'x', 'X'}
    ensures Parse("0" + Numeral(v, Hex, upper) + [c], Unlimited, default) == Parsed(v, Ok)
  {
    var s := "0" + Numeral(v, Hex, upper);
    IndicatorNames(s, c, default);
    NumeralReads(v, Hex, upper);
    HexReadsBack(v, Unlimited, upper);
    assert Indicated(s[|s| - 1]).None? by { assert s[|s| - 1] == Numeral(v, Hex, upper)[|Numeral(v, Hex, upper)| - 1]; }
  }

  function Power(b: Base, n: nat): nat { if n == 0 then 1 else Times(Power(b, n - 1), b) }

  /** A number below the n-th power of its base has at most n digits. */
  lemma {:induction false} NumeralLength(v: nat, b: Base, upper: bool, n: nat)
    requires n > 0 && v < Power(b, n)
    ensures |Numeral(v, b, upper)| <= n
    decreases n
  {
    if v >= Radix(b) {
      if n > 1 { NumeralLength(Quotient(v, b), b, upper, n - 1); }
    }
  }

  /** What is left of a value is its low part, and all of one that fits. */
  lemma ReducedIsLowPart(v: Uint32, size: Size) returns (k: nat)
    ensures Fits(Reduced(v, size), size) && (Fits(v, size) ==> Reduced(v, size) == v)
    ensures !size.Unlimited? ==> v == Reduced(v, size) + k * (Max(size) + 1)
  {
    k := if size.Unlimited? then 0 else v / (Max(size) + 1);
  }

  /** In front of the digits there are only blanks in decimal, and zeros in the other bases. */
  lemma PrintedEnds(v: Uint32, size: Size, b: Base, upper: bool, i: nat)
    ensures var s, digits := Printed(v, size, b, upper), Numeral(v, b, upper);
      var n := |s| - |digits|;
      n >= 0 && s[n..] == digits && (i < n ==> s[i] == if b.Decimal? then ' ' else '0')
  { }

  /** Without a size there is no padding, but a 0 in front of an octal number other than 0. */
  lemma UnlimitedPrinted(v: Uint32, b: Base, upper: bool)
    ensures Printed(v, Unlimited, b, upper) ==
      if b.Octal? && v > 0 then "0" + Numeral(v, b, upper) else Numeral(v, b, upper)
  {
    var s := Numeral(v, b, upper);
    assert "" + s == s && Fill('0', 1) == "0";
  }

  /** A value that fits its size is printed in a field of fixed width. */
  lemma PrintedWidth(v: Uint32, size: Size, b: Base, upper: bool)
    requires !b.Binary? && !size.Unlimited? && Fits(v, size)
    ensures |Printed(v, size, b, upper)| ==
      if b.Decimal? then if size.ByteSize? then 3 else 5
      else if b.Hex? then if size.ByteSize? then 2 else 4
      else if size.ByteSize? then 3 else 6
  {
    var n := if b.Decimal? then if size.ByteSize? then 3 else 5
             else if b.Hex? then if size.ByteSize? then 2 else 4
             else if size.ByteSize? then 3 else 6;
    PowersSuffice(size, b, n);
    NumeralLength(v, b, upper, n);
  }

  lemma PowersSuffice(size: Size, b: Base, n: nat)
    requires !b.Binary? && !size.Unlimited?
    requires n == if b.Decimal? then if size.ByteSize? then 3 else 5
                  else if b.Hex? then if size.ByteSize? then 2 else 4
                  else if size.ByteSize? then 3 else 6
    ensures n > 0 && Max(size) < Power(b, n)
  {
    assert Power(b, 1) == Radix(b) && Power(b, 2) == Times(Radix(b), b) && Power(b, 3) == Times(Power(b, 2), b);
    assert Power(b, 4) == Times(Power(b, 3), b) && Power(b, 5) == Times(Power(b, 4), b);
  }

  // ---------------------------------------------------------------- binary

  /** `v >> 4 * i` */
  function Shift(v: nat, i: nat): nat {
    if i == 0 then v else Shift(v, i - 1) / 16
  }

  /** The `i`-th group of four bits. */
  function Nibble(v: nat, i: nat): (n: nat)
    ensures n < 16
  {
    Shift(v, i) % 16
  }

  /** Printing has started at group `i`, of `top` groups: all are wanted, or one so far is not 0. */
  predicate Started(v: nat, top: nat, i: nat, all: bool)
    decreases top - i
  {
    if i >= top then all else Started(v, top, i + 1, all) || Nibble(v, i) > 0
  }

  function Bit(n: nat, weight: nat): char
    requires weight > 0
  {
    if n / weight % 2 == 1 then '1' else '0'
  }

  function Quad(n: nat): string { [Bit(n, 8), Bit(n, 4), Bit(n, 2), Bit(n, 1)] }

  /** The separator after group `i`. */
  function Separator(i: nat): string { if i == 0 then "" else if i % 2 == 1 then "." else " " }

  /** The printed groups from the highest down to group `i`. */
  function Groups(v: nat, top: nat, i: nat, all: bool): string
    decreases top - i
  {
    if i >= top then ""
    else if Started(v, top, i, all) then Groups(v, top, i + 1, all) + Quad(Nibble(v, i)) + Separator(i)
    else Groups(v, top, i + 1, all)
  }

  function GroupCount(size: Size): nat { if size.Unlimited? then 8 else if size.ByteSize? then 2 else 4 }

  /** A value that does not fit keeps, of all its bits, the one just above its size. */
  function Kept(v: Uint32, size: Size): nat {
    if Fits(v, size) then v else v / (Max(size) + 1) % 2 * (Max(size) + 1)
  }

  /** `num_binstr`; true when the value did not fit. */
  method NumBinstr(v: Uint32, size: Size) returns (buf: string, ovf: bool)
    ensures buf == Groups(Kept(v, size), GroupCount(size), 0, !size.Unlimited?)
    ensures ovf <==> !Fits(v, size)
  {
    ovf := false;
    var nbls, lz, vc := 8, false, v;
    if size != Unlimited {
      lz, nbls := true, if size == ByteSize then 2 else 4;
      var ubnd := Max(size) + 1;
      if v >= ubnd { ovf, vc := true, v / ubnd % 2 * ubnd; }
    }
    buf := "";
    var i: nat := nbls;
    while i > 0
      invariant i <= nbls
      invariant buf == Groups(vc, nbls, i, !size.Unlimited?)
      invariant lz == Started(vc, nbls, i, !size.Unlimited?)
    {
      i := i - 1;
      var n := Nibble(vc, i);
      lz := lz || n > 0;
      if lz {
        var quad := Quad(n);
        buf := buf + quad;
        buf := buf + Separator(i);
      }
    }
  }

  lemma {:induction false} AllGroupsLength(v: nat, top: nat, i: nat)
    requires i < top
    ensures |Groups(v, top, i, true)| == (if i == 0 then 5 * top - 1 else 5 * (top - i)) && Started(v, top, i, true)
    decreases top - i
  {
    if i + 1 < top {
      AllGroupsLength(v, top, i + 1);
    } else {
      assert Groups(v, top, top, true) == "" && Started(v, top, top, true);
    }
  }

  /** A byte is printed with a dot in its middle, and bytes with a blank between them: the separator behind
      group `j`, when all groups are wanted. */
  lemma {:induction false} SeparatorAt(v: nat, top: nat, i: nat, j: nat)
    requires i <= j < top && j > 0
    ensures 5 * (top - j) <= |Groups(v, top, i, true)|
    ensures Groups(v, top, i, true)[5 * (top - j) - 1] == if j % 2 == 1 then '.' else ' '
    decreases j - i
  {
    AllGroupsLength(v, top, i);
    if i < j { SeparatorAt(v, top, i + 1, j); }
  }

  function Stripped(s: string): string {
    if s == "" then ""
    else Stripped(s[..|s| - 1]) + if s[|s| - 1] == '.' || s[|s| - 1] == ' ' then "" else [s[|s| - 1]]
  }

  lemma StripAppend(s: string, c: char)
    ensures Stripped(s + [c]) == Stripped(s) + if c == '.' || c == ' ' then "" else [c]
  {
    assert (s + [c])[..|s|] == s;
  }

  lemma {:induction false} StripAll(s: string, t: string)
    requires '.' !in t && ' ' !in t
    ensures Stripped(s + t) == Stripped(s) + t
  {
    if t == "" {
      assert s + t == s;
    } else {
      var u := t[..|t| - 1];
      StripAll(s, u);
      StripAppend(s + u, t[|t| - 1]);
      assert s + t == s + u + [t[|t| - 1]];
      assert t == u + [t[|t| - 1]];
    }
  }

  lemma StripQuad(s: string, n: nat, i: nat)
    ensures Stripped(s + Quad(n) + Separator(i)) == Stripped(s) + Quad(n)
  {
    StripAll(s, Quad(n));
    if i == 0 {
      assert s + Quad(n) + Separator(i) == s + Quad(n);
    } else {
      StripAppend(s + Quad(n), Separator(i)[0]);
      assert [Separator(i)[0]] == Separator(i);
    }
  }

  lemma OneBit(s: string, n: nat, w: nat)
    requires Legal(s, Binary) && w > 0
    ensures Legal(s + [Bit(n, w)], Binary) && Value(s + [Bit(n, w)], Binary) == 2 * Value(s, Binary) + n / w % 2
  {
    ValueAppend(s, Bit(n, w), Binary);
  }

  lemma TwoBits(s: string, n: nat, v: nat, w: nat)
    requires Legal(s, Binary) && v > 0 && w > 0
    ensures var t := s + [Bit(n, v), Bit(n, w)];
      Legal(t, Binary) && Value(t, Binary) == 4 * Value(s, Binary) + 2 * (n / v % 2) + n / w % 2
  {
    OneBit(s, n, v);
    OneBit(s + [Bit(n, v)], n, w);
    assert s + [Bit(n, v), Bit(n, w)] == s + [Bit(n, v)] + [Bit(n, w)];
  }

  lemma QuadWeights(n: nat)
    requires n < 16
    ensures n == n / 8 % 2 * 8 + n / 4 % 2 * 4 + n / 2 % 2 * 2 + n / 1 % 2
  { }

  lemma QuadValue(s: string, n: nat)
    requires Legal(s, Binary) && n < 16
    ensures Legal(s + Quad(n), Binary) && Value(s + Quad(n), Binary) == 16 * Value(s, Binary) + n
  {
    var t := s + [Bit(n, 8), Bit(n, 4)];
    TwoBits(s, n, 8, 4);
    TwoBits(t, n, 2, 1);
    assert s + Quad(n) == t + [Bit(n, 2), Bit(n, 1)];
    QuadWeights(n);
  }

  /** The groups down to group `i`, without their separators, are the number without its low groups. */
  lemma {:induction false} GroupsRead(v: nat, top: nat, i: nat, all: bool)
    requires Shift(v, top) == 0 && i <= top
    ensures Legal(Stripped(Groups(v, top, i, all)), Binary)
    ensures Value(Stripped(Groups(v, top, i, all)), Binary) == Shift(v, i)
    ensures Started(v, top, i, all) <==> all || Shift(v, i) > 0
    decreases top - i
  {
    if i == top {
    } else {
      GroupsRead(v, top, i + 1, all);
      if Started(v, top, i, all) {
        StripQuad(Groups(v, top, i + 1, all), Nibble(v, i), i);
        QuadValue(Stripped(Groups(v, top, i + 1, all)), Nibble(v, i));
      }
    }
  }

  /** A value that fits has no bits above its groups. */
  lemma NothingAbove(v: Uint32, size: Size)
    requires Fits(v, size)
    ensures Shift(v, GroupCount(size)) == 0
  {
    if size.Unlimited? {
      var h := Shift(v, 4);
      assert Shift(v, 1) == v / 16 && Shift(v, 2) == v / 0x100 && Shift(v, 3) == v / 0x1000 && h == v / 0x1_0000;
      assert Shift(v, 5) == h / 16 && Shift(v, 6) == h / 0x100 && Shift(v, 7) == h / 0x1000;
    } else {
      assert Shift(v, 1) == v / 16 && Shift(v, 2) == v / 0x100 && Shift(v, 3) == v / 0x1000;
    }
  }

  /**
    A value that fits is printed in binary so that, without the separators, it is read back; only
    0 of no size, printed as nothing, is not.
  */
  lemma BinaryReadsIff(v: Uint32, size: Size)
    requires Fits(v, size)
    ensures var s := Stripped(Groups(Kept(v, size), GroupCount(size), 0, !size.Unlimited?));
      Parse(s, size, Binary) == if size.Unlimited? && v == 0 then Parsed(0, InvalidDigit) else Parsed(v, Ok)
  {
    var all, top := !size.Unlimited?, GroupCount(size);
    var s := Stripped(Groups(v, top, 0, all));
    NothingAbove(v, size);
    GroupsRead(v, top, 0, all);
    StartedShows(v, top, 0, all);
    if s != "" {
      LegalDigits(s);
      ReadsBack(s, v, size, Binary);
    }
  }

  lemma LegalDigits(s: string)
    requires s != "" && Legal(s, Binary)
    ensures IsDigit(s[0]) && Indicated(s[|s| - 1]).None?
  {
    assert DigitValue(s[0], Binary) >= 0 && DigitValue(s[|s| - 1], Binary) >= 0;
  }

  lemma {:induction false} StartedShows(v: nat, top: nat, i: nat, all: bool)
    requires i < top
    ensures Stripped(Groups(v, top, i, all)) != "" <==> Started(v, top, i, all)
    decreases top - i
  {
    if i + 1 == top {
    } else {
      StartedShows(v, top, i + 1, all);
    }
    if Started(v, top, i, all) {
      StripQuad(Groups(v, top, i + 1, all), Nibble(v, i), i);
    }
  }

  /** A value that does not fit loses every bit that would be printed: all its groups are zeros. */
  lemma OverflowShowsZero(v: Uint32, size: Size)
    requires !Fits(v, size)
    ensures Groups(Kept(v, size), GroupCount(size), 0, true) == Groups(0, GroupCount(size), 0, true)
  {
    var k := Kept(v, size);
    assert k == 0 || k == Max(size) + 1;
    if k != 0 {
      LowNibbles(k, size);
      SameGroups(k, 0, GroupCount(size), 0);
    }
  }

  lemma LowNibbles(k: nat, size: Size)
    requires !size.Unlimited? && k == Max(size) + 1
    ensures forall i :: 0 <= i < GroupCount(size) ==> Nibble(k, i) == 0 == Nibble(0, i)
  {
    assert Shift(k, 1) == k / 16 && Shift(k, 2) == k / 0x100 && Shift(k, 3) == k / 0x1000;
    assert Shift(0, 1) == 0 && Shift(0, 2) == 0 && Shift(0, 3) == 0;
  }

  lemma {:induction false} SameGroups(v: nat, w: nat, top: nat, i: nat)
    requires i <= top && forall j :: i <= j < top ==> Nibble(v, j) == Nibble(w, j)
    ensures Groups(v, top, i, true) == Groups(w, top, i, true)
    ensures Started(v, top, i, true) && Started(w, top, i, true)
    decreases top - i
  {
    if i == top {
    } else {
      SameGroups(v, w, top, i + 1);
    }
  }
}

/** The checksums of src-rp/lib/sd_card/sd_driver/crc.c: table-driven CRC7 and CRC16
    against bitwise polynomial division (SD Physical Layer Simplified Specification, section 4.5). */
module Crc {
  import opened Gf2

  // ------------------------------------------------------------------
  // Machine words, bit by bit

  datatype Byte = Byte(b7: bool, b6: bool, b5: bool, b4: bool, b3: bool, b2: bool, b1: bool, b0: bool)

  datatype Word = Word(hi: Byte, lo: Byte)

  function B(n: bv8): Byte {
    Byte(n & 0x80 != 0, n & 0x40 != 0, n & 0x20 != 0, n & 0x10 != 0,
         n & 0x08 != 0, n & 0x04 != 0, n & 0x02 != 0, n & 0x01 != 0)
  }

  function W(n: bv16): Word {
    Word(Byte(n & 0x8000 != 0, n & 0x4000 != 0, n & 0x2000 != 0, n & 0x1000 != 0,
              n & 0x0800 != 0, n & 0x0400 != 0, n & 0x0200 != 0, n & 0x0100 != 0),
         Byte(n & 0x0080 != 0, n & 0x0040 != 0, n & 0x0020 != 0, n & 0x0010 != 0,
              n & 0x0008 != 0, n & 0x0004 != 0, n & 0x0002 != 0, n & 0x0001 != 0))
  }

  function XorByte(x: Byte, y: Byte): Byte {
    Byte(x.b7 != y.b7, x.b6 != y.b6, x.b5 != y.b5, x.b4 != y.b4,
         x.b3 != y.b3, x.b2 != y.b2, x.b1 != y.b1, x.b0 != y.b0)
  }

  function XorWord(x: Word, y: Word): Word {
    Word(XorByte(x.hi, y.hi), XorByte(x.lo, y.lo))
  }

  /** x << 1 in a byte */
  function Shl1(x: Byte): Byte {
    Byte(x.b6, x.b5, x.b4, x.b3, x.b2, x.b1, x.b0, false)
  }

  /** x << 8 in an unsigned short */
  function Shl8(x: Word): Word {
    Word(x.lo, B(0))
  }

  /** x >> 8 */
  function Shr8(x: Word): Word {
    Word(B(0), x.hi)
  }

  /** A byte promoted to a word. */
  function Wide(x: Byte): Word {
    Word(B(0), x)
  }

  // ------------------------------------------------------------------
  // The look-up tables, sixteen entries to a row

  /** Row look-up by the low four bits of the index. */
  function Pick8(i: Byte, e0: bv8, e1: bv8, e2: bv8, e3: bv8, e4: bv8, e5: bv8, e6: bv8, e7: bv8,
      e8: bv8, e9: bv8, eA: bv8, eB: bv8, eC: bv8, eD: bv8, eE: bv8, eF: bv8): Byte
  {
    var n := if i.b3 then
               if i.b2 then (if i.b1 then (if i.b0 then eF else eE) else (if i.b0 then eD else eC))
               else (if i.b1 then (if i.b0 then eB else eA) else (if i.b0 then e9 else e8))
             else
               if i.b2 then (if i.b1 then (if i.b0 then e7 else e6) else (if i.b0 then e5 else e4))
               else (if i.b1 then (if i.b0 then e3 else e2) else (if i.b0 then e1 else e0));
    B(n)
  }

  /** Row look-up by the low four bits of the index. */
  function Pick16(i: Byte, e0: bv16, e1: bv16, e2: bv16, e3: bv16, e4: bv16, e5: bv16, e6: bv16, e7: bv16,
      e8: bv16, e9: bv16, eA: bv16, eB: bv16, eC: bv16, eD: bv16, eE: bv16, eF: bv16): Word
  {
    var n := if i.b3 then
               if i.b2 then (if i.b1 then (if i.b0 then eF else eE) else (if i.b0 then eD else eC))
               else (if i.b1 then (if i.b0 then eB else eA) else (if i.b0 then e9 else e8))
             else
               if i.b2 then (if i.b1 then (if i.b0 then e7 else e6) else (if i.b0 then e5 else e4))
               else (if i.b1 then (if i.b0 then e3 else e2) else (if i.b0 then e1 else e0));
    W(n)
  }

  function Crc7Table(i: Byte): Byte {
    if !i.b7 && !i.b6 && !i.b5 && !i.b4 then
      Pick8(i, 0x00, 0x09, 0x12, 0x1B, 0x24, 0x2D, 0x36, 0x3F,
          0x48, 0x41, 0x5A, 0x53, 0x6C, 0x65, 0x7E, 0x77)
    else if !i.b7 && !i.b6 && !i.b5 && i.b4 then
      Pick8(i, 0x19, 0x10, 0x0B, 0x02, 0x3D, 0x34, 0x2F, 0x26,
          0x51, 0x58, 0x43, 0x4A, 0x75, 0x7C, 0x67, 0x6E)
    else if !i.b7 && !i.b6 && i.b5 && !i.b4 then
      Pick8(i, 0x32, 0x3B, 0x20, 0x29, 0x16, 0x1F, 0x04, 0x0D,
          0x7A, 0x73, 0x68, 0x61, 0x5E, 0x57, 0x4C, 0x45)
    else if !i.b7 && !i.b6 && i.b5 && i.b4 then
      Pick8(i, 0x2B, 0x22, 0x39, 0x30, 0x0F, 0x06, 0x1D, 0x14,
          0x63, 0x6A, 0x71, 0x78, 0x47, 0x4E, 0x55, 0x5C)
    else if !i.b7 && i.b6 && !i.b5 && !i.b4 then
      Pick8(i, 0x64, 0x6D, 0x76, 0x7F, 0x40, 0x49, 0x52, 0x5B,
          0x2C, 0x25, 0x3E, 0x37, 0x08, 0x01, 0x1A, 0x13)
    else if !i.b7 && i.b6 && !i.b5 && i.b4 then
      Pick8(i, 0x7D, 0x74, 0x6F, 0x66, 0x59, 0x50, 0x4B, 0x42,
          0x35, 0x3C, 0x27, 0x2E, 0x11, 0x18, 0x03, 0x0A)
    else if !i.b7 && i.b6 && i.b5 && !i.b4 then
      Pick8(i, 0x56, 0x5F, 0x44, 0x4D, 0x72, 0x7B, 0x60, 0x69,
          0x1E, 0x17, 0x0C, 0x05, 0x3A, 0x33, 0x28, 0x21)
    else if !i.b7 && i.b6 && i.b5 && i.b4 then
      Pick8(i, 0x4F, 0x46, 0x5D, 0x54, 0x6B, 0x62, 0x79, 0x70,
          0x07, 0x0E, 0x15, 0x1C, 0x23, 0x2A, 0x31, 0x38)
    else if i.b7 && !i.b6 && !i.b5 && !i.b4 then
      Pick8(i, 0x41, 0x48, 0x53, 0x5A, 0x65, 0x6C, 0x77, 0x7E,
          0x09, 0x00, 0x1B, 0x12, 0x2D, 0x24, 0x3F, 0x36)
    else if i.b7 && !i.b6 && !i.b5 && i.b4 then
      Pick8(i, 0x58, 0x51, 0x4A, 0x43, 0x7C, 0x75, 0x6E, 0x67,
          0x10, 0x19, 0x02, 0x0B, 0x34, 0x3D, 0x26, 0x2F)
    else if i.b7 && !i.b6 && i.b5 && !i.b4 then
      Pick8(i, 0x73, 0x7A, 0x61, 0x68, 0x57, 0x5E, 0x45, 0x4C,
          0x3B, 0x32, 0x29, 0x20, 0x1F, 0x16, 0x0D, 0x04)
    else if i.b7 && !i.b6 && i.b5 && i.b4 then
      Pick8(i, 0x6A, 0x63, 0x78, 0x71, 0x4E, 0x47, 0x5C, 0x55,
          0x22, 0x2B, 0x30, 0x39, 0x06, 0x0F, 0x14, 0x1D)
    else if i.b7 && i.b6 && !i.b5 && !i.b4 then
      Pick8(i, 0x25, 0x2C, 0x37, 0x3E, 0x01, 0x08, 0x13, 0x1A,
          0x6D, 0x64, 0x7F, 0x76, 0x49, 0x40, 0x5B, 0x52)
    else if i.b7 && i.b6 && !i.b5 && i.b4 then
      Pick8(i, 0x3C, 0x35, 0x2E, 0x27, 0x18, 0x11, 0x0A, 0x03,
          0x74, 0x7D, 0x66, 0x6F, 0x50, 0x59, 0x42, 0x4B)
    else if i.b7 && i.b6 && i.b5 && !i.b4 then
      Pick8(i, 0x17, 0x1E, 0x05, 0x0C, 0x33, 0x3A, 0x21, 0x28,
          0x5F, 0x56, 0x4D, 0x44, 0x7B, 0x72, 0x69, 0x60)
    else
      Pick8(i, 0x0E, 0x07, 0x1C, 0x15, 0x2A, 0x23, 0x38, 0x31,
          0x46, 0x4F, 0x54, 0x5D, 0x62, 0x6B, 0x70, 0x79)
  }

  function Crc16Table(i: Byte): Word {
    if !i.b7 && !i.b6 && !i.b5 && !i.b4 then
      Pick16(i, 0x0000, 0x1021, 0x2042, 0x3063, 0x4084, 0x50A5, 0x60C6, 0x70E7,
          0x8108, 0x9129, 0xA14A, 0xB16B, 0xC18C, 0xD1AD, 0xE1CE, 0xF1EF)
    else if !i.b7 && !i.b6 && !i.b5 && i.b4 then
      Pick16(i, 0x1231, 0x0210, 0x3273, 0x2252, 0x52B5, 0x4294, 0x72F7, 0x62D6,
          0x9339, 0x8318, 0xB37B, 0xA35A, 0xD3BD, 0xC39C, 0xF3FF, 0xE3DE)
    else if !i.b7 && !i.b6 && i.b5 && !i.b4 then
      Pick16(i, 0x2462, 0x3443, 0x0420, 0x1401, 0x64E6, 0x74C7, 0x44A4, 0x5485,
          0xA56A, 0xB54B, 0x8528, 0x9509, 0xE5EE, 0xF5CF, 0xC5AC, 0xD58D)
    else if !i.b7 && !i.b6 && i.b5 && i.b4 then
      Pick16(i, 0x3653, 0x2672, 0x1611, 0x0630, 0x76D7, 0x66F6, 0x5695, 0x46B4,
          0xB75B, 0xA77A, 0x9719, 0x8738, 0xF7DF, 0xE7FE, 0xD79D, 0xC7BC)
    else if !i.b7 && i.b6 && !i.b5 && !i.b4 then
      Pick16(i, 0x48C4, 0x58E5, 0x6886, 0x78A7, 0x0840, 0x1861, 0x2802, 0x3823,
          0xC9CC, 0xD9ED, 0xE98E, 0xF9AF, 0x8948, 0x9969, 0xA90A, 0xB92B)
    else if !i.b7 && i.b6 && !i.b5 && i.b4 then
      Pick16(i, 0x5AF5, 0x4AD4, 0x7AB7, 0x6A96, 0x1A71, 0x0A50, 0x3A33, 0x2A12,
          0xDBFD, 0xCBDC, 0xFBBF, 0xEB9E, 0x9B79, 0x8B58, 0xBB3B, 0xAB1A)
    else if !i.b7 && i.b6 && i.b5 && !i.b4 then
      Pick16(i, 0x6CA6, 0x7C87, 0x4CE4, 0x5CC5, 0x2C22, 0x3C03, 0x0C60, 0x1C41,
          0xEDAE, 0xFD8F, 0xCDEC, 0xDDCD, 0xAD2A, 0xBD0B, 0x8D68, 0x9D49)
    else if !i.b7 && i.b6 && i.b5 && i.b4 then
      Pick16(i, 0x7E97, 0x6EB6, 0x5ED5, 0x4EF4, 0x3E13, 0x2E32, 0x1E51, 0x0E70,
          0xFF9F, 0xEFBE, 0xDFDD, 0xCFFC, 0xBF1B, 0xAF3A, 0x9F59, 0x8F78)
    else if i.b7 && !i.b6 && !i.b5 && !i.b4 then
      Pick16(i, 0x9188, 0x81A9, 0xB1CA, 0xA1EB, 0xD10C, 0xC12D, 0xF14E, 0xE16F,
          0x1080, 0x00A1, 0x30C2, 0x20E3, 0x5004, 0x4025, 0x7046, 0x6067)
    else if i.b7 && !i.b6 && !i.b5 && i.b4 then
      Pick16(i, 0x83B9, 0x9398, 0xA3FB, 0xB3DA, 0xC33D, 0xD31C, 0xE37F, 0xF35E,
          0x02B1, 0x1290, 0x22F3, 0x32D2, 0x4235, 0x5214, 0x6277, 0x7256)
    else if i.b7 && !i.b6 && i.b5 && !i.b4 then
      Pick16(i, 0xB5EA, 0xA5CB, 0x95A8, 0x8589, 0xF56E, 0xE54F, 0xD52C, 0xC50D,
          0x34E2, 0x24C3, 0x14A0, 0x0481, 0x7466, 0x6447, 0x5424, 0x4405)
    else if i.b7 && !i.b6 && i.b5 && i.b4 then
      Pick16(i, 0xA7DB, 0xB7FA, 0x8799, 0x97B8, 0xE75F, 0xF77E, 0xC71D, 0xD73C,
          0x26D3, 0x36F2, 0x0691, 0x16B0, 0x6657, 0x7676, 0x4615, 0x5634)
    else if i.b7 && i.b6 && !i.b5 && !i.b4 then
      Pick16(i, 0xD94C, 0xC96D, 0xF90E, 0xE92F, 0x99C8, 0x89E9, 0xB98A, 0xA9AB,
          0x5844, 0x4865, 0x7806, 0x6827, 0x18C0, 0x08E1, 0x3882, 0x28A3)
    else if i.b7 && i.b6 && !i.b5 && i.b4 then
      Pick16(i, 0xCB7D, 0xDB5C, 0xEB3F, 0xFB1E, 0x8BF9, 0x9BD8, 0xABBB, 0xBB9A,
          0x4A75, 0x5A54, 0x6A37, 0x7A16, 0x0AF1, 0x1AD0, 0x2AB3, 0x3A92)
    else if i.b7 && i.b6 && i.b5 && !i.b4 then
      Pick16(i, 0xFD2E, 0xED0F, 0xDD6C, 0xCD4D, 0xBDAA, 0xAD8B, 0x9DE8, 0x8DC9,
          0x7C26, 0x6C07, 0x5C64, 0x4C45, 0x3CA2, 0x2C83, 0x1CE0, 0x0CC1)
    else
      Pick16(i, 0xEF1F, 0xFF3E, 0xCF5D, 0xDF7C, 0xAF9B, 0xBFBA, 0x8FD9, 0x9FF8,
          0x6E17, 0x7E36, 0x4E55, 0x5E74, 0x2E93, 0x3EB2, 0x0ED1, 0x1EF0)
  }

  // ------------------------------------------------------------------
  // Words as bit strings, high bit first

  function Bit(b: Byte, k: nat): bool
    requires k < 8
  {
    match k
    case 0 => b.b7 case 1 => b.b6 case 2 => b.b5 case 3 => b.b4
    case 4 => b.b3 case 5 => b.b2 case 6 => b.b1 case 7 => b.b0
  }

  function Bits8(b: Byte): (r: Bits)
    ensures |r| == 8 && forall k :: 0 <= k < 8 ==> r[k] == Bit(b, k)
  {
    seq(8, k requires 0 <= k < 8 => Bit(b, k))
  }

  /** The CRC7 register, which occupies the low seven bits of a byte. */
  function Bits7(b: Byte): (r: Bits)
    ensures |r| == 7 && forall k :: 0 <= k < 7 ==> r[k] == Bit(b, k + 1)
  {
    seq(7, k requires 0 <= k < 7 => Bit(b, k + 1))
  }

  function Bits16(w: Word): (r: Bits)
    ensures |r| == 16
  {
    Bits8(w.hi) + Bits8(w.lo)
  }

  /** The bits of a block, first byte first. */
  function BitsOf(data: seq<Byte>): (r: Bits)
    ensures |r| == 8 * |data|
  {
    if data == [] then [] else BitsOf(data[..|data| - 1]) + Bits8(data[|data| - 1])
  }

  /** 0x1021 */
  function Poly16(): Word {
    Word(Byte(false, false, false, true, false, false, false, false),
         Byte(false, false, true, false, false, false, false, true))
  }

  /** 0x09 */
  function Poly7(): Byte {
    Byte(false, false, false, false, true, false, false, true)
  }

  /** x^16 + x^12 + x^5 + 1 */
  function G16(): (g: Bits)
    ensures |g| == 17
  {
    [true] + Bits16(Poly16())
  }

  /** x^7 + x^3 + 1 */
  function G7(): (g: Bits)
    ensures |g| == 8
  {
    [true] + Bits7(Poly7())
  }

  lemma Generators()
    ensures Generator(G16()) && Generator(G7()) && !Odd(G16())
  {
    assert Bit(Poly16().lo, 7) && Bit(Poly7(), 7);
    OddByte(Poly16().hi);
    OddByte(Poly16().lo);
    OddAppend(Bits8(Poly16().hi), Bits8(Poly16().lo));
    assert G16()[1..] == Bits16(Poly16());
  }

  lemma OddByte(b: Byte)
    ensures Odd(Bits8(b)) ==
      (b.b7 != (b.b6 != (b.b5 != (b.b4 != (b.b3 != (b.b2 != (b.b1 != b.b0)))))))
  {
    var s := Bits8(b);
    OddFour(s, 0);
    OddFour(s, 4);
    assert s[0..] == s;
  }

  lemma OddAt(s: Bits, k: nat)
    requires k < |s|
    ensures Odd(s[k..]) == (s[k] != Odd(s[k + 1..]))
  {
    assert s[k..][1..] == s[k + 1..];
  }

  lemma OddFour(s: Bits, k: nat)
    requires k + 4 <= |s|
    ensures Odd(s[k..]) == (s[k] != (s[k + 1] != (s[k + 2] != (s[k + 3] != Odd(s[k + 4..])))))
  {
    OddAt(s, k);
    OddAt(s, k + 1);
    OddAt(s, k + 2);
    OddAt(s, k + 3);
  }

  lemma XorByteBits(x: Byte, y: Byte)
    ensures Bits8(XorByte(x, y)) == Xor(Bits8(x), Bits8(y))
  {
    forall k | 0 <= k < 8
      ensures Bit(XorByte(x, y), k) == (Bit(x, k) != Bit(y, k))
    {
      match k
      case 0 => case 1 => case 2 => case 3 => case 4 => case 5 => case 6 => case 7 =>
    }
  }

  lemma XorAppend(a: Bits, b: Bits, c: Bits, d: Bits)
    requires |a| == |c| && |b| == |d|
    ensures Xor(a + b, c + d) == Xor(a, c) + Xor(b, d)
  {
  }

  lemma XorWordBits(x: Word, y: Word)
    ensures Bits16(XorWord(x, y)) == Xor(Bits16(x), Bits16(y))
  {
    XorByteBits(x.hi, y.hi);
    XorByteBits(x.lo, y.lo);
    XorAppend(Bits8(x.hi), Bits8(x.lo), Bits8(y.hi), Bits8(y.lo));
  }

  lemma ZeroBits()
    ensures Bits8(B(0)) == Zeros(8) && Bits7(B(0)) == Zeros(7) && Bits16(W(0)) == Zeros(16)
  {
    assert W(0) == Word(B(0), B(0));
    forall k | 0 <= k < 8
      ensures !Bit(B(0), k)
    {
    }
  }

  // ------------------------------------------------------------------
  // One table look-up is eight clocks of the register

  function Clock16(c: Word, bit: bool): Word {
    var h, l, tap := c.hi, c.lo, c.hi.b7 != bit;
    Word(Byte(h.b6, h.b5, h.b4, h.b3 != tap, h.b2, h.b1, h.b0, l.b7),
         Byte(l.b6, l.b5, l.b4 != tap, l.b3, l.b2, l.b1, l.b0, tap))
  }

  function Clock7(c: Byte, bit: bool): Byte {
    var tap := c.b6 != bit;
    Byte(false, c.b5, c.b4, c.b3, c.b2 != tap, c.b1, c.b0, tap)
  }

  /** The register after the first `k` bits of `b`. */
  function Clocks16(c: Word, b: Byte, k: nat): Word
    requires k <= 8
  {
    if k == 0 then c else Clock16(Clocks16(c, b, k - 1), Bit(b, k - 1))
  }

  function Clocks7(c: Byte, b: Byte, k: nat): Byte
    requires k <= 8
  {
    if k == 0 then c else Clock7(Clocks7(c, b, k - 1), Bit(b, k - 1))
  }

  /** Eight clocks from zero, worked out: an entry is linear in the bits of its index. */
  function Entry16(i: Byte): Word {
    var p, q, r, s := i.b7 != i.b3, i.b6 != i.b2, i.b5 != i.b1, i.b4 != i.b0;
    Word(Byte(p, q, r, s != i.b7, i.b6, i.b5, i.b4, p),
         Byte(q != i.b7, r != i.b6, s != i.b5, i.b4, p, q, r, s))
  }

  function Entry7(i: Byte): Byte {
    var q, r, s := i.b6 != i.b2, i.b5 != i.b1, i.b4 != i.b0;
    Byte(false, (i.b7 != i.b6) != i.b3, i.b5 != q, i.b4 != r, i.b3 != s, q, r, s != i.b7)
  }

  lemma TwoClocks16(c: Word, i: Byte, k: nat)
    requires k < 7
    ensures Clocks16(c, i, k + 2) == Clock16(Clock16(Clocks16(c, i, k), Bit(i, k)), Bit(i, k + 1))
  {
    assert Clocks16(c, i, k + 1) == Clock16(Clocks16(c, i, k), Bit(i, k));
  }

  lemma TwoClocks7(c: Byte, i: Byte, k: nat)
    requires k < 7
    ensures Clocks7(c, i, k + 2) == Clock7(Clock7(Clocks7(c, i, k), Bit(i, k)), Bit(i, k + 1))
  {
    assert Clocks7(c, i, k + 1) == Clock7(Clocks7(c, i, k), Bit(i, k));
  }

  lemma Table16Entries(i: Byte)
    ensures Crc16Table(i) == Entry16(i)
  { }

  lemma Table7Entries(i: Byte)
    ensures Crc7Table(i) == Entry7(i)
  { }

  /** The register when the high half of an index has been clocked in. */
  function Half16(i: Byte): Word {
    Word(Byte(i.b7, i.b6, i.b5, i.b4, false, false, false, i.b7),
         Byte(i.b6, i.b5, i.b4, false, i.b7, i.b6, i.b5, i.b4))
  }

  function Half7(i: Byte): Byte {
    Byte(false, i.b7, i.b6, i.b5, i.b7 != i.b4, i.b6, i.b5, i.b4)
  }

  lemma Halves16(i: Byte)
    ensures Clock16(Clock16(Clock16(Clock16(W(0), i.b7), i.b6), i.b5), i.b4) == Half16(i)
    ensures Clock16(Clock16(Clock16(Clock16(Half16(i), i.b3), i.b2), i.b1), i.b0) == Entry16(i)
  { }

  lemma Halves7(i: Byte)
    ensures Clock7(Clock7(Clock7(Clock7(B(0), i.b7), i.b6), i.b5), i.b4) == Half7(i)
    ensures Clock7(Clock7(Clock7(Clock7(Half7(i), i.b3), i.b2), i.b1), i.b0) == Entry7(i)
  { }

  lemma EightClocks16(i: Byte)
    ensures Clocks16(W(0), i, 8) == Entry16(i)
  {
    Halves16(i);
    TwoClocks16(W(0), i, 0);
    TwoClocks16(W(0), i, 2);
    TwoClocks16(W(0), i, 4);
    TwoClocks16(W(0), i, 6);
  }

  lemma EightClocks7(i: Byte)
    ensures Clocks7(B(0), i, 8) == Entry7(i)
  {
    Halves7(i);
    TwoClocks7(B(0), i, 0);
    TwoClocks7(B(0), i, 2);
    TwoClocks7(B(0), i, 4);
    TwoClocks7(B(0), i, 6);
  }

  /** Every entry of both tables is what eight clocks make of its index. */
  lemma TablesAreClocks(i: Byte)
    ensures Crc16Table(i) == Clocks16(W(0), i, 8)
    ensures Crc7Table(i) == Clocks7(B(0), i, 8)
  {
    Table16Entries(i);
    EightClocks16(i);
    Table7Entries(i);
    EightClocks7(i);
  }

  lemma Clock16IsClock(c: Word, bit: bool)
    ensures Generator(G16()) && Bits16(Clock16(c, bit)) == Clock(Bits16(c), bit, G16())
  {
    Generators();
    var left, right := Bits16(Clock16(c, bit)), Clock(Bits16(c), bit, G16());
    forall k | 0 <= k < 16
      ensures left[k] == right[k]
    {
      if k < 8 {
        Clock16High(c, bit, k);
      } else {
        Clock16Low(c, bit, k);
      }
    }
  }

  lemma Clock16High(c: Word, bit: bool, k: nat)
    requires k < 8
    ensures Bit(Clock16(c, bit).hi, k)
         == ((if k < 7 then Bit(c.hi, k + 1) else Bit(c.lo, 0)) != (c.hi.b7 != bit && Bit(Poly16().hi, k)))
  {
    match k
    case 0 => case 1 => case 2 => case 3 => case 4 => case 5 => case 6 => case 7 =>
  }

  lemma Clock16Low(c: Word, bit: bool, k: nat)
    requires 8 <= k < 16
    ensures Bit(Clock16(c, bit).lo, k - 8)
         == ((k < 15 && Bit(c.lo, k - 7)) != (c.hi.b7 != bit && Bit(Poly16().lo, k - 8)))
  {
    match k
    case 8 => case 9 => case 10 => case 11 => case 12 => case 13 => case 14 => case 15 =>
  }

  lemma Clock7IsClock(c: Byte, bit: bool)
    ensures Generator(G7()) && Bits7(Clock7(c, bit)) == Clock(Bits7(c), bit, G7())
  {
    Generators();
    var left, right := Bits7(Clock7(c, bit)), Clock(Bits7(c), bit, G7());
    forall k | 0 <= k < 7
      ensures left[k] == right[k]
    {
      Clock7Bit(c, bit, k + 1);
    }
  }

  lemma Clock7Bit(c: Byte, bit: bool, k: nat)
    requires 1 <= k < 8
    ensures Bit(Clock7(c, bit), k) == ((if k < 7 then Bit(c, k + 1) else false) != (c.b6 != bit && Bit(Poly7(), k)))
  {
  }

  lemma FeedBit16(c: Word, b: Byte, k: nat)
    requires k < 8 && Generator(G16())
    ensures Feed(Bits16(c), Bits8(b)[k..], G16())
         == Feed(Bits16(Clock16(c, Bit(b, k))), Bits8(b)[k + 1..], G16())
  {
    assert Bits8(b)[k..][1..] == Bits8(b)[k + 1..];
    Clock16IsClock(c, Bit(b, k));
  }

  lemma FeedBit7(c: Byte, b: Byte, k: nat)
    requires k < 8 && Generator(G7())
    ensures Feed(Bits7(c), Bits8(b)[k..], G7())
         == Feed(Bits7(Clock7(c, Bit(b, k))), Bits8(b)[k + 1..], G7())
  {
    assert Bits8(b)[k..][1..] == Bits8(b)[k + 1..];
    Clock7IsClock(c, Bit(b, k));
  }

  lemma {:induction false} FeedByte16(c: Word, b: Byte, k: nat)
    requires k <= 8 && Generator(G16())
    ensures Feed(Bits16(c), Bits8(b), G16()) == Feed(Bits16(Clocks16(c, b, k)), Bits8(b)[k..], G16())
    ensures k == 8 ==> Feed(Bits16(c), Bits8(b), G16()) == Bits16(Clocks16(c, b, k))
  {
    if k == 0 {
      assert Bits8(b)[0..] == Bits8(b);
    } else {
      FeedByte16(c, b, k - 1);
      FeedBit16(Clocks16(c, b, k - 1), b, k - 1);
    }
  }

  lemma {:induction false} FeedByte7(c: Byte, b: Byte, k: nat)
    requires k <= 8 && Generator(G7())
    ensures Feed(Bits7(c), Bits8(b), G7()) == Feed(Bits7(Clocks7(c, b, k)), Bits8(b)[k..], G7())
    ensures k == 8 ==> Feed(Bits7(c), Bits8(b), G7()) == Bits7(Clocks7(c, b, k))
  {
    if k == 0 {
      assert Bits8(b)[0..] == Bits8(b);
    } else {
      FeedByte7(c, b, k - 1);
      FeedBit7(Clocks7(c, b, k - 1), b, k - 1);
    }
  }

  /** What a look-up yields, in terms of the register. */
  method LookUp16(i: Byte) returns (t: Word)
    ensures Generator(G16()) && Bits16(t) == Feed(Zeros(16), Bits8(i), G16())
  {
    t := Crc16Table(i);
    TablesAreClocks(i);
    Generators();
    ZeroBits();
    FeedByte16(W(0), i, 8);
  }

  method LookUp7(i: Byte) returns (t: Byte)
    ensures Generator(G7()) && Bits7(t) == Feed(Zeros(7), Bits8(i), G7()) && !t.b7
  {
    t := Crc7Table(i);
    TablesAreClocks(i);
    Generators();
    ZeroBits();
    FeedByte7(B(0), i, 8);
  }

  /** One update of crc16 and update_crc16 feeds one byte to the register. */
  lemma Update16IsFeed(c: Word, d: Byte, t: Word)
    requires Generator(G16()) && Bits16(t) == Feed(Zeros(16), Bits8(XorByte(c.hi, d)), G16())
    ensures Bits16(XorWord(Shl8(c), t)) == Feed(Bits16(c), Bits8(d), G16())
  {
    XorByteBits(c.hi, d);
    FeedSplits(Bits8(c.hi), Bits8(c.lo), Bits8(d), G16());
    XorWordBits(Shl8(c), t);
    ZeroBits();
    XorSymmetric(Bits16(t), Bits8(c.lo) + Zeros(8));
  }

  lemma XorSymmetric(a: Bits, b: Bits)
    requires |a| == |b|
    ensures Xor(a, b) == Xor(b, a)
  {
  }

  lemma Shl1Bits(c: Byte)
    ensures Bits8(Shl1(c)) == Bits7(c) + [false]
  {
    forall k | 0 <= k < 8
      ensures Bit(Shl1(c), k) == (k < 7 && Bit(c, k + 1))
    {
      match k
      case 0 => case 1 => case 2 => case 3 => case 4 => case 5 => case 6 => case 7 =>
    }
  }

  /** One update of crc7 feeds one byte to the register, which it has already moved up one place. */
  lemma Index7IsFeed(c: Byte, d: Byte)
    requires Generator(G7())
    ensures Feed(Zeros(7), Bits8(XorByte(Shl1(c), d)), G7()) == Feed(Bits7(c), Bits8(d), G7())
  {
    var i := XorByte(Shl1(c), d);
    XorByteBits(Shl1(c), d);
    Shl1Bits(c);
    FeedIsRemainder(Bits7(c), Bits8(d), G7());
    FeedIsRemainder(Zeros(7), Bits8(i), G7());
    AugmentShifted(Bits7(c), Bits8(d));
  }

  lemma AugmentShifted(r: Bits, d: Bits)
    requires |d| == |r| + 1
    ensures Augment(Zeros(|r|), Xor(r + [false], d)) == Augment(r, d)
  {
  }

  // ------------------------------------------------------------------
  // The routines

  /** crc << 8 ^ table[(crc >> 8 ^ d) & 0xFF] */
  method AddByte16(crc: Word, d: Byte) returns (next: Word)
    ensures Generator(G16()) && Bits16(next) == Feed(Bits16(crc), Bits8(d), G16())
  {
    var t := LookUp16(XorWord(Shr8(crc), Wide(d)).lo);
    Update16IsFeed(crc, d, t);
    next := XorWord(Shl8(crc), t);
  }

  /** table[crc << 1 ^ d]; the register never reaches the top bit, so the shift loses nothing. */
  method AddByte7(crc: Byte, d: Byte) returns (next: Byte)
    requires !crc.b7
    ensures Generator(G7()) && Bits7(next) == Feed(Bits7(crc), Bits8(d), G7()) && !next.b7
  {
    next := LookUp7(XorByte(Shl1(crc), d));
    Index7IsFeed(crc, d);
  }

  /** The bytes the routines look at: none for a length of zero or less. */
  function Block(data: array<Byte>, length: int): seq<Byte>
    requires length <= data.Length
    reads data
  {
    if length < 0 then [] else data[..length]
  }

  lemma BitsOfSnoc(data: seq<Byte>, d: Byte)
    ensures BitsOf(data + [d]) == BitsOf(data) + Bits8(d)
  {
    assert (data + [d])[..|data|] == data;
  }

  /** `crc` is the remainder the standard defines for a block. */
  predicate IsCrc7(crc: Byte, data: seq<Byte>) {
    Generator(G7()) && Bits7(crc) == Crc(BitsOf(data), G7()) && !crc.b7
  }

  predicate IsCrc16(crc: Word, data: seq<Byte>) {
    Generator(G16()) && Bits16(crc) == Crc(BitsOf(data), G16())
  }

  /** That is: the block times x^16 is a multiple of the generator plus the checksum. */
  lemma Crc16Divides(crc: Word, data: seq<Byte>)
    ensures Generator(G16())
    ensures IsCrc16(crc, data) <==> exists q :: Divides(BitsOf(data) + Zeros(16), q, Bits16(crc), G16())
  {
    Generators();
    assert |G16()| - 1 == 16;
    var d := BitsOf(data) + Zeros(16);
    assert Crc(BitsOf(data), G16()) == Remainder(d, G16());
    if IsCrc16(crc, data) {
      var q := DivisionIdentity(d, G16());
      assert Divides(d, q, Bits16(crc), G16());
    }
    if q :| Divides(d, q, Bits16(crc), G16()) {
      RemainderUnique(d, G16(), q, Bits16(crc));
    }
  }

  lemma Empty()
    ensures IsCrc7(B(0), []) && IsCrc16(W(0), [])
  {
    Generators();
    ZeroBits();
    CrcIsFeed([], G7());
    CrcIsFeed([], G16());
  }

  lemma Next7(data: seq<Byte>, crc: Byte, d: Byte, next: Byte)
    requires IsCrc7(crc, data)
    requires Generator(G7()) && Bits7(next) == Feed(Bits7(crc), Bits8(d), G7()) && !next.b7
    ensures IsCrc7(next, data + [d])
  {
    BitsOfSnoc(data, d);
    CrcExtends(BitsOf(data), Bits8(d), G7());
  }

  method Crc7(data: array<Byte>, length: int) returns (crc: Byte)
    requires length <= data.Length
    ensures IsCrc7(crc, Block(data, length))
  {
    crc := B(0);
    var i := 0;
    Empty();
    while i < length
      invariant 0 <= i <= data.Length && (i <= length || i == 0)
      invariant IsCrc7(crc, data[..i])
    {
      var next := AddByte7(crc, data[i]);
      Next7(data[..i], crc, data[i], next);
      assert data[..i + 1] == data[..i] + [data[i]];
      crc := next;
      i := i + 1;
    }
  }

  lemma Next16(data: seq<Byte>, crc: Word, d: Byte, next: Word)
    requires IsCrc16(crc, data)
    requires Generator(G16()) && Bits16(next) == Feed(Bits16(crc), Bits8(d), G16())
    ensures IsCrc16(next, data + [d])
  {
    BitsOfSnoc(data, d);
    CrcExtends(BitsOf(data), Bits8(d), G16());
  }

  method Crc16(data: array<Byte>, length: int) returns (crc: Word)
    requires length <= data.Length
    ensures IsCrc16(crc, Block(data, length))
  {
    crc := W(0);
    var i := 0;
    Empty();
    while i < length
      invariant 0 <= i <= data.Length && (i <= length || i == 0)
      invariant IsCrc16(crc, data[..i])
    {
      var next := AddByte16(crc, data[i]);
      Next16(data[..i], crc, data[i], next);
      assert data[..i + 1] == data[..i] + [data[i]];
      crc := next;
      i := i + 1;
    }
  }

  /** The variable behind the pointer given to update_crc16. */
  class CrcCell {
    var value: Word

    constructor (start: Word)
      ensures value == start
    {
      value := start;
    }
  }

  method UpdateCrc16(p: CrcCell, data: array<Byte>, length: nat)
    requires length <= data.Length
    modifies p
    ensures Generator(G16())
    ensures Bits16(p.value) == Feed(old(Bits16(p.value)), BitsOf(data[..length]), G16())
  {
    var i := 0;
    ghost var start := Bits16(p.value);
    Generators();
    while i < length
      invariant i <= length
      invariant Bits16(p.value) == Feed(start, BitsOf(data[..i]), G16())
    {
      FeedAppend(start, BitsOf(data[..i]), Bits8(data[i]), G16());
      BitsOfSnoc(data[..i], data[i]);
      p.value := AddByte16(p.value, data[i]);
      i := i + 1;
      assert data[..i] == data[..i - 1] + [data[i - 1]];
    }
  }

  // ------------------------------------------------------------------
  // What the checksums promise about blocks of bytes

  lemma {:induction false} BitsOfAppend(a: seq<Byte>, b: seq<Byte>)
    ensures BitsOf(a + b) == BitsOf(a) + BitsOf(b)
  {
    if b == [] {
      assert a + b == a;
    } else {
      var front, last := b[..|b| - 1], b[|b| - 1];
      BitsOfAppend(a, front);
      assert a + b == a + front + [last] && b == front + [last];
      BitsOfSnoc(a + front, last);
      BitsOfSnoc(front, last);
    }
  }

  /** update_crc16 started from the checksum of `a` and run over `b` ends at the checksum of a + b. */
  lemma UpdateContinues(a: seq<Byte>, b: seq<Byte>, before: Word, after: Word)
    requires Generator(G16()) && IsCrc16(before, a)
    requires Bits16(after) == Feed(Bits16(before), BitsOf(b), G16())
    ensures IsCrc16(after, a + b)
  {
    BitsOfAppend(a, b);
    CrcExtends(BitsOf(a), BitsOf(b), G16());
  }

  lemma ByteOfBits(x: Byte, y: Byte)
    requires forall k :: 0 <= k < 8 ==> Bit(x, k) == Bit(y, k)
    ensures x == y
  {
    assert Bit(x, 0) == Bit(y, 0) && Bit(x, 1) == Bit(y, 1) && Bit(x, 2) == Bit(y, 2) && Bit(x, 3) == Bit(y, 3);
    assert Bit(x, 4) == Bit(y, 4) && Bit(x, 5) == Bit(y, 5) && Bit(x, 6) == Bit(y, 6) && Bit(x, 7) == Bit(y, 7);
  }

  lemma WordOfBits(x: Word, y: Word)
    requires Bits16(x) == Bits16(y)
    ensures x == y
  {
    var xs, ys := Bits8(x.hi) + Bits8(x.lo), Bits8(y.hi) + Bits8(y.lo);
    forall k | 0 <= k < 8 ensures Bit(x.hi, k) == Bit(y.hi, k) && Bit(x.lo, k) == Bit(y.lo, k) {
      assert xs[k] == ys[k] && xs[8 + k] == ys[8 + k];
    }
    ByteOfBits(x.hi, y.hi);
    ByteOfBits(x.lo, y.lo);
  }

  /** A block has only one CRC16... */
  lemma Crc16Unique(data: seq<Byte>, x: Word, y: Word)
    requires IsCrc16(x, data) && IsCrc16(y, data)
    ensures x == y
  {
    WordOfBits(x, y);
  }

  /** ...and only one CRC7. */
  lemma Crc7Unique(data: seq<Byte>, x: Byte, y: Byte)
    requires IsCrc7(x, data) && IsCrc7(y, data)
    ensures x == y
  {
    forall k | 0 <= k < 8 ensures Bit(x, k) == Bit(y, k) {
      if k > 0 { assert Bits7(x)[k - 1] == Bits7(y)[k - 1]; }
    }
    ByteOfBits(x, y);
  }

  /** A block followed by two bytes checks to zero exactly when they are its checksum, high byte first. */
  lemma BlockChecks(data: seq<Byte>, crc: Word)
    ensures IsCrc16(W(0), data + [crc.hi, crc.lo]) <==> IsCrc16(crc, data)
  {
    Generators();
    ZeroBits();
    BitsOfAppend(data, [crc.hi, crc.lo]);
    BitsOfSnoc([], crc.hi);
    BitsOfSnoc([crc.hi], crc.lo);
    assert [] + [crc.hi] == [crc.hi] && [crc.hi] + [crc.lo] == [crc.hi, crc.lo];
    assert BitsOf([crc.hi, crc.lo]) == Bits16(crc);
    ResidueZero(BitsOf(data), Bits16(crc), G16());
  }

  /** So the checksum computed over a block and its checksum is zero. */
  lemma CodewordIsZero(data: seq<Byte>, crc: Word, check: Word)
    requires IsCrc16(crc, data) && IsCrc16(check, data + [crc.hi, crc.lo])
    ensures check == W(0)
  {
    BlockChecks(data, crc);
    Crc16Unique(data + [crc.hi, crc.lo], check, W(0));
  }

  /** Blocks that differ, but only within 16 consecutive bits, have different CRC16 values. */
  lemma BurstsChangeCrc16(a: seq<Byte>, b: seq<Byte>, at: nat, ca: Word, cb: Word)
    requires |a| == |b| && BitsOf(a) != BitsOf(b) && DiffersWithin(BitsOf(a), BitsOf(b), at, 16)
    requires IsCrc16(ca, a) && IsCrc16(cb, b)
    ensures ca != cb
  {
    BurstDetected(BitsOf(a), BitsOf(b), at, G16());
  }

  /** Blocks that differ in an odd number of bits have different CRC16 values. */
  lemma OddChangesCrc16(a: seq<Byte>, b: seq<Byte>, ca: Word, cb: Word)
    requires |a| == |b| && Odd(Xor(BitsOf(a), BitsOf(b)))
    requires IsCrc16(ca, a) && IsCrc16(cb, b)
    ensures ca != cb
  {
    Generators();
    OddDetected(BitsOf(a), BitsOf(b), G16());
  }

  /** CRC7, which guards commands, sees every burst of up to seven bits. */
  lemma BurstsChangeCrc7(a: seq<Byte>, b: seq<Byte>, at: nat, ca: Byte, cb: Byte)
    requires |a| == |b| && BitsOf(a) != BitsOf(b) && DiffersWithin(BitsOf(a), BitsOf(b), at, 7)
    requires IsCrc7(ca, a) && IsCrc7(cb, b)
    ensures ca != cb
  {
    BurstDetected(BitsOf(a), BitsOf(b), at, G7());
  }
}

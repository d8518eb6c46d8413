/**
  The streaming Z80 decoder of src-rp/lib/z80dasm/z80disasm.c and the loop in
  src-rp/dc/cmd/cmds.c that feeds it from target memory.

  Only control flow and byte counting are modelled, not the text of the statements.  A function
  that formats a statement and finishes is `Finish`; one that first needs argument bytes is told
  apart by how many it needs.
*/
module Z80 {

  type Byte = x: int | 0 <= x < 256

  const CB: Byte := 0xCB
  const DD: Byte := 0xDD
  const ED: Byte := 0xED
  const FD: Byte := 0xFD

  const DONE: int := 0
  const UNINITIALIZED: int := -1
  const UNKNOWN: int := -2
  const UNNEEDED: int := -3
  const TOO_MANY_BYTES: int := -4
  const INVALID: int := -5
  const DF_NULL: int := -6

  const MAX_BYTES: nat := 4

  // ---------------------------------------------------------------- what the opcode tables say

  predicate Prefix(op: Byte) { op == CB || op == DD || op == ED || op == FD }

  /** The argument bytes of the opcode in row `k` and column `i` of the first-byte table. */
  function ArgsAt(k: nat, i: nat): nat {
    if k < 4 then
      if i == 1 || (k >= 2 && (i == 2 || i == 10)) then 2
      else if i == 6 || i == 14 || (k >= 1 && (i == 0 || i == 8)) then 1
      else 0
    else if k < 12 then 0
    else if i == 2 || i == 4 || i == 10 || i == 12 || (k == 12 && (i == 3 || i == 13)) then 2
    else if i == 6 || i == 14 || (k == 13 && (i == 3 || i == 11)) then 1
    else 0
  }

  /** The argument bytes the function in the first-byte table asks for. */
  function ArgBytes(op: Byte): nat { ArgsAt(op / 16, op % 16) }

  /** The functions of the first-byte table. */
  datatype FirstFn = Nop | LdRpNn | LdcRpA | IncRp | IncReg | DecReg | LdRegN | Rlca | ExAf | AddHlRp
    | LdAcRp | DecRp | Rrca | Djnz | Rla | Jr | Rra | JrCc | LdcNnHl | Daa | LdHlcNn | Cpl | LdcNnA | Scf
    | LdAcNn | Ccf | LdRegReg | Halt | AddAr | AdcAr | SubAr | SbcAr | AndAr | XorAr | OrAr | CpAr | RetCc
    | PopRp | JpCc | Jp | CallCc | PushRp | OpAn | RstN | Ret | TwoByte | Call | OutNa | Exx | InAn | ExcSpHl
    | JpcHl | ExDeHl | Di | LdSpHl | Ei

  /** The first-byte table, opcodes 00 to 3F: row `k`, column `i`. */
  function LowFn(k: nat, i: nat): FirstFn {
    match i
    case 0 => if k == 0 then Nop else if k == 1 then Djnz else JrCc
    case 1 => LdRpNn
    case 2 => if k < 2 then LdcRpA else if k == 2 then LdcNnHl else LdcNnA
    case 3 => IncRp
    case 4 => IncReg
    case 5 => DecReg
    case 6 => LdRegN
    case 7 => if k == 0 then Rlca else if k == 1 then Rla else if k == 2 then Daa else Scf
    case 8 => if k == 0 then ExAf else if k == 1 then Jr else JrCc
    case 9 => AddHlRp
    case 10 => if k < 2 then LdAcRp else if k == 2 then LdHlcNn else LdAcNn
    case 11 => DecRp
    case 12 => IncReg
    case 13 => DecReg
    case 14 => LdRegN
    case _ => if k == 0 then Rrca else if k == 1 then Rra else if k == 2 then Cpl else Ccf
  }

  /** Opcodes 40 to BF. */
  function MiddleFn(k: nat, i: nat): FirstFn {
    match k
    case 8 => if i < 8 then AddAr else AdcAr
    case 9 => if i < 8 then SubAr else SbcAr
    case 10 => if i < 8 then AndAr else XorAr
    case 11 => if i < 8 then OrAr else CpAr
    case _ => if k == 7 && i == 6 then Halt else LdRegReg
  }

  /** Opcodes C0 to FF. */
  function HighFn(k: nat, i: nat): FirstFn {
    match i
    case 0 => RetCc
    case 1 => PopRp
    case 2 => JpCc
    case 3 => if k == 12 then Jp else if k == 13 then OutNa else if k == 14 then ExcSpHl else Di
    case 4 => CallCc
    case 5 => PushRp
    case 6 => OpAn
    case 7 => RstN
    case 8 => RetCc
    case 9 => if k == 12 then Ret else if k == 13 then Exx else if k == 14 then JpcHl else LdSpHl
    case 10 => JpCc
    case 11 => if k == 12 then TwoByte else if k == 13 then InAn else if k == 14 then ExDeHl else Ei
    case 12 => CallCc
    case 13 => if k == 12 then Call else TwoByte
    case 14 => OpAn
    case _ => RstN
  }

  /** The first-byte table, in rows of sixteen. */
  function FirstByteFn(op: Byte): FirstFn {
    var k, i := op / 16, op % 16;
    if k < 4 then LowFn(k, i) else if k < 12 then MiddleFn(k, i) else HighFn(k, i)
  }

  /** The argument bytes a function of the table asks for before it can finish. */
  function Asks(f: FirstFn): nat {
    match f
    case LdRegN | Djnz | Jr | JrCc | OpAn | OutNa | InAn => 1
    case LdRpNn | LdcNnHl | LdHlcNn | LdcNnA | LdAcNn | JpCc | Jp | CallCc | Call => 2
    case _ => 0
  }

  lemma TableAsks(k: nat, i: nat)
    requires k < 16 && i < 16
    ensures var f := if k < 4 then LowFn(k, i) else if k < 12 then MiddleFn(k, i) else HighFn(k, i);
      if (k == 12 && i == 11) || (k > 12 && i == 13) then f == TwoByte else f != TwoByte && Asks(f) == ArgsAt(k, i)
  { }

  /** Both ways: a prefix has the function for two-byte instructions, and any other opcode has one that
      asks for just its argument bytes. */
  lemma FirstByteTable(op: Byte)
    ensures FirstByteFn(op) == TwoByte <==> Prefix(op)
    ensures !Prefix(op) ==> Asks(FirstByteFn(op)) == ArgBytes(op)
  {
    TableAsks(op / 16, op % 16);
  }

  /** The opcodes with an address or a word behind them, and those with a byte or a displacement. */
  lemma ArgumentOpcodes(op: Byte)
    requires !Prefix(op)
    ensures ArgBytes(op) == 2 <==> op in {0x01, 0x11, 0x21, 0x31, 0x22, 0x2A, 0x32, 0x3A, 0xC2, 0xCA, 0xD2, 0xDA, 0xE2,
      0xEA, 0xF2, 0xFA, 0xC3, 0xC4, 0xCC, 0xD4, 0xDC, 0xE4, 0xEC, 0xF4, 0xFC, 0xCD}
    ensures ArgBytes(op) == 1 <==> op in {0x06, 0x0E, 0x16, 0x1E, 0x26, 0x2E, 0x36, 0x3E, 0x10, 0x18, 0x20, 0x28, 0x30,
      0x38, 0xC6, 0xCE, 0xD6, 0xDE, 0xE6, 0xEE, 0xF6, 0xFE, 0xD3, 0xDB}
  { }

  /** Movements 6 of the CB group do not exist. */
  predicate BadMovement(op: Byte) { op / 64 == 0 && op / 8 % 8 == 6 }

  lemma BadMovements(op: Byte)
    ensures BadMovement(op) <==> 0x30 <= op < 0x38
  { }

  /** The second bytes the IX/IY table lists, with the argument bytes each one needs. */
  function IndexNeeds(op: Byte): (n: int)
    ensures -1 <= n <= 2
  {
    if op == 0x21 || op == 0x22 || op == 0x2A || op == 0x36 then 2
    else if op == 0x34 || op == 0x35 then 1
    else if 0x40 <= op < 0x70 && op % 8 == 6 then 1
    else if 0x70 <= op < 0x78 && op != 0x76 then 1
    else if op == 0x7E then 1
    else if 0x80 <= op < 0xC0 && op % 8 == 6 then 1
    else if op == 0x09 || op == 0x19 || op == 0x29 || op == 0x39 || op == 0x23 || op == 0x2B then 0
    else if op == 0xE1 || op == 0xE3 || op == 0xE5 || op == 0xE9 || op == 0xF9 then 0
    else -1
  }

  /** A row of the IX/IY table: the second byte, and whether it takes an index, a byte or a word. */
  datatype IndexEntry = IndexEntry(inst: Byte, ndx: bool, n: bool, nn: bool)

  const INDEX_ENTRIES: nat := 39

  function IndexRow(i: nat): IndexEntry
    requires i < INDEX_ENTRIES
  {
    match i
    case 0 => IndexEntry(0x09, false, false, false)
    case 1 => IndexEntry(0x19, false, false, false)
    case 2 => IndexEntry(0x21, false, false, true)
    case 3 => IndexEntry(0x22, false, false, true)
    case 4 => IndexEntry(0x23, false, false, false)
    case 5 => IndexEntry(0x29, false, false, false)
    case 6 => IndexEntry(0x2A, false, false, true)
    case 7 => IndexEntry(0x2B, false, false, false)
    case 8 => IndexEntry(0x34, true, false, false)
    case 9 => IndexEntry(0x35, true, false, false)
    case 10 => IndexEntry(0x36, true, true, false)
    case 11 => IndexEntry(0x39, false, false, false)
    case 12 => IndexEntry(0x46, true, false, false)
    case 13 => IndexEntry(0x4E, true, false, false)
    case 14 => IndexEntry(0x56, true, false, false)
    case 15 => IndexEntry(0x5E, true, false, false)
    case 16 => IndexEntry(0x66, true, false, false)
    case 17 => IndexEntry(0x6E, true, false, false)
    case 18 => IndexEntry(0x70, true, false, false)
    case 19 => IndexEntry(0x71, true, false, false)
    case 20 => IndexEntry(0x72, true, false, false)
    case 21 => IndexEntry(0x73, true, false, false)
    case 22 => IndexEntry(0x74, true, false, false)
    case 23 => IndexEntry(0x75, true, false, false)
    case 24 => IndexEntry(0x77, true, false, false)
    case 25 => IndexEntry(0x7E, true, false, false)
    case 26 => IndexEntry(0x86, true, false, false)
    case 27 => IndexEntry(0x8E, true, false, false)
    case 28 => IndexEntry(0x96, true, false, false)
    case 29 => IndexEntry(0x9E, true, false, false)
    case 30 => IndexEntry(0xA6, true, false, false)
    case 31 => IndexEntry(0xAE, true, false, false)
    case 32 => IndexEntry(0xB6, true, false, false)
    case 33 => IndexEntry(0xBE, true, false, false)
    case 34 => IndexEntry(0xE1, false, false, false)
    case 35 => IndexEntry(0xE3, false, false, false)
    case 36 => IndexEntry(0xE5, false, false, false)
    case 37 => IndexEntry(0xE9, false, false, false)
    case _ => IndexEntry(0xF9, false, false, false)
  }

  /** The row a listed second byte is in. */
  function RowOf(op: Byte): nat {
    match op
    case 0x09 => 0
    case 0x19 => 1
    case 0x21 => 2
    case 0x22 => 3
    case 0x23 => 4
    case 0x29 => 5
    case 0x2A => 6
    case 0x2B => 7
    case 0x34 => 8
    case 0x35 => 9
    case 0x36 => 10
    case 0x39 => 11
    case 0x46 => 12
    case 0x4E => 13
    case 0x56 => 14
    case 0x5E => 15
    case 0x66 => 16
    case 0x6E => 17
    case 0x70 => 18
    case 0x71 => 19
    case 0x72 => 20
    case 0x73 => 21
    case 0x74 => 22
    case 0x75 => 23
    case 0x77 => 24
    case 0x7E => 25
    case 0x86 => 26
    case 0x8E => 27
    case 0x96 => 28
    case 0x9E => 29
    case 0xA6 => 30
    case 0xAE => 31
    case 0xB6 => 32
    case 0xBE => 33
    case 0xE1 => 34
    case 0xE3 => 35
    case 0xE5 => 36
    case 0xE9 => 37
    case 0xF9 => 38
    case _ => 0
  }

  function RowBytes(e: IndexEntry): nat { (if e.ndx then 1 else 0) + (if e.n then 1 else 0) + if e.nn then 2 else 0 }

  /** Every row of the table is a second byte that `IndexNeeds` accepts, with its argument bytes. */
  lemma TableSound(i: nat)
    requires i < INDEX_ENTRIES
    ensures IndexNeeds(IndexRow(i).inst) == RowBytes(IndexRow(i))
  { }

  /** Every second byte that `IndexNeeds` accepts has a row, with its argument bytes. */
  lemma TableComplete(op: Byte)
    requires IndexNeeds(op) >= 0
    ensures RowOf(op) < INDEX_ENTRIES
    ensures IndexRow(RowOf(op)).inst == op && RowBytes(IndexRow(RowOf(op))) == IndexNeeds(op)
  {
    assert IndexRow(RowOf(op)).inst == op;
    TableSound(RowOf(op));
  }

  /** The table ascends, which is why the search may stop early. */
  lemma {:induction false} TableAscends(i: nat, j: nat)
    requires i < j < INDEX_ENTRIES
    ensures IndexRow(i).inst < IndexRow(j).inst
    decreases j - i
  {
    NextRowIsLater(i);
    if i + 1 < j { TableAscends(i + 1, j); }
  }

  lemma NextRowIsLater(i: nat)
    requires i + 1 < INDEX_ENTRIES
    ensures IndexRow(i).inst < IndexRow(i + 1).inst
  { }

  /** A byte between two rows is in neither half of the table. */
  lemma NotListed(op: Byte, i: nat)
    requires i <= INDEX_ENTRIES && (forall j :: 0 <= j < i ==> IndexRow(j).inst < op)
    requires i < INDEX_ENTRIES ==> IndexRow(i).inst > op
    ensures IndexNeeds(op) == -1
  {
    if IndexNeeds(op) >= 0 {
      TableComplete(op);
      var k := RowOf(op);
      if i < k { TableAscends(i, k); }
    }
  }

  /** The ED loads, which take an address. */
  predicate ExtendedLoad(op: Byte) { op / 64 == 1 && op % 8 == 3 }

  predicate ExtendedValid(op: Byte) {
    if op / 64 == 1 && (op % 8 == 0 || op % 8 == 1) then op / 8 % 8 != 6
    else if op / 64 == 1 && op % 8 == 2 then true
    else if op / 32 == 5 then op / 4 % 2 == 0
    else op == 0x44 || op == 0x45 || op == 0x4D || op == 0x67 || op == 0x6F
         || op == 0x46 || op == 0x56 || op == 0x5E || op == 0x47 || op == 0x57
  }

  lemma ExtendedLoads(op: Byte)
    ensures ExtendedLoad(op) <==> op in {0x43, 0x4B, 0x53, 0x5B, 0x63, 0x6B, 0x73, 0x7B}
    ensures Length(0xED, op) == if op in {0x43, 0x4B, 0x53, 0x5B, 0x63, 0x6B, 0x73, 0x7B} then 4 else 2
  { }

  /** The second bytes of the other ED instructions: IN, OUT, SBC and ADC, the block instructions, the rest. */
  lemma ExtendedOpcodes(op: Byte)
    ensures ExtendedValid(op) <==>
      || op in {0x40, 0x48, 0x50, 0x58, 0x60, 0x68, 0x78}
      || op in {0x41, 0x49, 0x51, 0x59, 0x61, 0x69, 0x79}
      || op in {0x42, 0x4A, 0x52, 0x5A, 0x62, 0x6A, 0x72, 0x7A}
      || op in {0xA0, 0xA1, 0xA2, 0xA3, 0xA8, 0xA9, 0xAA, 0xAB, 0xB0, 0xB1, 0xB2, 0xB3, 0xB8, 0xB9, 0xBA, 0xBB}
      || op in {0x44, 0x45, 0x4D, 0x67, 0x6F, 0x46, 0x56, 0x5E, 0x47, 0x57}
  { }

  // ---------------------------------------------------------------- the reference

  /**
    What the decoder should answer after the bytes `bs` of one instruction: 0 when it is
    complete, the number of bytes still certain to come, or INVALID.
  */
  function Wanted(bs: seq<Byte>): int {
    if bs == [] then 1 else WantedBehind(bs[0], bs)
  }

  function WantedBehind(op: Byte, bs: seq<Byte>): int
    requires 1 <= |bs|
  {
    if |bs| == 1 then if Prefix(op) then 1 else ArgBytes(op)
    else if !Prefix(op) then ArgBytes(op) - (|bs| - 1)
    else if op == CB then if BadMovement(bs[1]) then INVALID else DONE
    else if op == ED then
      if ExtendedLoad(bs[1]) then 2 - (|bs| - 2) else if ExtendedValid(bs[1]) then DONE else INVALID
    else if bs[1] == CB then
      if |bs| < 4 then 4 - |bs|
      else if bs[3] % 8 == 6 && !BadMovement(bs[3]) then DONE else INVALID
    else if IndexNeeds(bs[1]) < 0 then INVALID
    else IndexNeeds(bs[1]) - (|bs| - 2)
  }

  /** The number of bytes a Z80 instruction has, from its first two. */
  function Length(b0: Byte, b1: Byte): (n: nat)
    ensures 1 <= n <= MAX_BYTES
  {
    match b0
    case 0xCB => 2
    case 0xED => if ExtendedLoad(b1) then 4 else 2
    case 0xDD => if b1 == CB then 4 else if IndexNeeds(b1) < 0 then 2 else 2 + IndexNeeds(b1)
    case 0xFD => if b1 == CB then 4 else if IndexNeeds(b1) < 0 then 2 else 2 + IndexNeeds(b1)
    case _ => 1 + ArgBytes(b0)
  }

  /** Bit and shift instructions of an indexed byte: two more bytes behind the prefixes, the last of them one
      of the forms that take (HL). */
  lemma IndexedBits(prefix: Byte, index: Byte, op: Byte)
    requires prefix == 0xDD || prefix == 0xFD
    ensures Wanted([prefix, 0xCB]) == 2 && Length(prefix, 0xCB) == 4
    ensures Wanted([prefix, 0xCB, index, op]) ==
      if op in {0x06, 0x0E, 0x16, 0x1E, 0x26, 0x2E, 0x3E, 0x46, 0x4E, 0x56, 0x5E, 0x66, 0x6E, 0x76, 0x7E,
        0x86, 0x8E, 0x96, 0x9E, 0xA6, 0xAE, 0xB6, 0xBE, 0xC6, 0xCE, 0xD6, 0xDE, 0xE6, 0xEE, 0xF6, 0xFE} then DONE else INVALID
  { }

  /** `bs` is a first part of an instruction that the decoder has not finished with. */
  predicate Unfinished(bs: seq<Byte>) {
    |bs| >= 1 && Wanted(bs) > 0 && forall k :: 1 <= k < |bs| ==> Wanted(bs[..k]) > 0
  }

  /** `bs` is the bytes of one instruction: the decoder finishes with the last of them, not before. */
  predicate Complete(bs: seq<Byte>) {
    |bs| >= 1 && Wanted(bs) <= 0 && (|bs| > 1 ==> Unfinished(bs[..|bs| - 1]))
  }

  /** Asked-for bytes are needed: while more than one is asked for, the next one is not the last. */
  lemma AsksForNoMore(bs: seq<Byte>, b: Byte)
    requires Unfinished(bs) && Wanted(bs) >= 2
    ensures Wanted(bs + [b]) == Wanted(bs) - 1
  {
    assert bs[..|bs|] == bs;
    if |bs| >= 2 { assert Wanted(bs[..1]) > 0 && bs[..1][0] == bs[0]; }
    if |bs| >= 3 { assert Wanted(bs[..2]) > 0; }
    if |bs| >= 4 { assert Wanted(bs[..3]) > 0; }
  }

  lemma FourBytesFinish(bs: seq<Byte>)
    requires |bs| >= MAX_BYTES
    ensures !Unfinished(bs)
  {
    var w1, w2, w3, w4 := Wanted(bs[..1]), Wanted(bs[..2]), Wanted(bs[..3]), Wanted(bs[..4]);
    assert w1 <= 0 || w2 <= 0 || w3 <= 0 || w4 <= 0;
  }

  lemma UnfinishedShort(bs: seq<Byte>)
    requires Unfinished(bs)
    ensures |bs| < MAX_BYTES && Wanted(bs) <= MAX_BYTES - |bs|
  {
    if |bs| >= MAX_BYTES { FourBytesFinish(bs); }
    assert bs[..|bs|] == bs;
  }

  /** A complete instruction is as long as its first two bytes say; at most four bytes. */
  lemma CompleteLength(bs: seq<Byte>, b1: Byte)
    requires Complete(bs) && (|bs| > 1 ==> bs[1] == b1)
    ensures |bs| == Length(bs[0], b1)
  {
    if |bs| > 1 {
      UnfinishedShort(bs[..|bs| - 1]);
      assert bs[..|bs| - 1][..1] == bs[..1];
    }
    if |bs| > 2 { assert bs[..|bs| - 1][..2] == bs[..2] && Wanted(bs[..2]) > 0; }
    if |bs| > 3 { assert bs[..|bs| - 1][..3] == bs[..3] && Wanted(bs[..3]) > 0; }
  }

  /** The only error an instruction can end with is that it is invalid. */
  lemma OnlyInvalid(bs: seq<Byte>)
    requires Complete(bs) || Unfinished(bs)
    ensures Wanted(bs) >= DONE || Wanted(bs) == INVALID
  {
    if Complete(bs) && |bs| > 1 {
      UnfinishedShort(bs[..|bs| - 1]);
      assert bs[..|bs| - 1][..1] == bs[..1];
      if |bs| > 2 { assert bs[..|bs| - 1][..2] == bs[..2] && Wanted(bs[..2]) > 0; }
      if |bs| > 3 { assert bs[..|bs| - 1][..3] == bs[..3] && Wanted(bs[..3]) > 0; }
    }
  }

  // ---------------------------------------------------------------- the decoder

  /** The functions a context can have put in place. */
  datatype Fn = Null | FirstByte | CbByte | IndexByte | ExtendedByte | Gather | Finish | FinishExtendedLoad | FinishIndex | FinishIndexCb

  /** `zda_ctx_t` without the statement text. */
  class Context {
    const d: array<Byte>
    var bi: nat
    var iNdx: nat
    var ab: nat
    var abn: nat
    var status: int
    var df: Fn
    var cf: Fn
    var xy: bool

    constructor ()
      ensures fresh(d) && d.Length == MAX_BYTES && status == DONE
    {
      d := new Byte[MAX_BYTES](_ => 0);
      bi, iNdx, ab, abn, status, df, cf, xy := 0, 0, 0, 0, DONE, Null, Null, false;
    }

    /** The context waits for the rest of `n` argument bytes, to go on with `f`. */
    ghost predicate Gathering(n: nat, f: Fn)
      reads this
    {
      df == Gather && cf == f && abn == n && ab < n && status == n - ab
    }

    /** The bytes received stand in `d`. */
    ghost predicate Stored(bs: seq<Byte>)
      reads this, d
    {
      && d.Length == MAX_BYTES && 1 <= |bs| <= MAX_BYTES && bi == |bs|
      && (forall i :: 0 <= i < |bs| ==> d[i] == bs[i])
    }

    /** The bytes received stand in `d`, except that a CB instruction's second byte replaces its first. */
    ghost predicate Recorded(bs: seq<Byte>)
      reads this, d
    {
      && d.Length == MAX_BYTES && 1 <= |bs| <= MAX_BYTES && bi == |bs|
      && (forall i :: 0 < i < |bs| ==> d[i] == bs[i])
      && d[0] == if bs[0] == CB && |bs| == 2 then bs[1] else bs[0]
    }

    /** How an unfinished instruction is going to be continued. */
    ghost predicate Continues(bs: seq<Byte>)
      requires |bs| >= 1
      reads this
    {
      if |bs| == 1 && Prefix(bs[0]) then
        iNdx == 0 && ab == 0 && status == 1
        && df == if bs[0] == CB then CbByte else if bs[0] == ED then ExtendedByte else IndexByte
      else if !Prefix(bs[0]) then
        iNdx == 0 && ab == |bs| - 1 && Gathering(ArgBytes(bs[0]), Finish)
      else
        bs[0] != CB && iNdx == 1 && ab == |bs| - 2
        && if bs[0] == ED then ExtendedLoad(bs[1]) && Gathering(2, FinishExtendedLoad)
           else if bs[1] == CB then Gathering(2, FinishIndexCb)
           else IndexNeeds(bs[1]) >= 0 && Gathering(IndexNeeds(bs[1]), FinishIndex)
    }

    /** The context after the bytes `bs`: it answers what the reference wants. */
    ghost predicate Fed(bs: seq<Byte>)
      reads this, d
    {
      Recorded(bs) && status == Wanted(bs) && (status > 0 ==> Continues(bs))
    }

    /** The macro DONE. */
    method Finished()
      modifies this`status, this`df
      ensures status == DONE && df == Null
    {
      status, df := 0, Null;
    }

    /** `_assure_argbytes`; when nothing is missing it goes straight on, which only finishing does. */
    method AssureArgBytes(n: nat, f: Fn)
      requires ab >= n ==> f == Finish
      modifies this`abn, this`cf, this`df, this`status
      ensures ab < n ==> Gathering(n, f)
      ensures ab >= n ==> status == DONE
    {
      if ab < n {
        abn, cf, df := n, f, Gather;
        status := abn - ab;
      } else {
        cf, df := Null, f;
        Finished();
      }
    }

    /** `_d_2bi` */
    method TwoByteInstruction()
      requires d.Length == MAX_BYTES
      modifies this`status, this`df
      ensures Prefix(d[0]) ==> status == 1
      ensures Prefix(d[0]) ==> df == if d[0] == CB then CbByte else if d[0] == ED then ExtendedByte else IndexByte
      ensures !Prefix(d[0]) ==> status == UNKNOWN
    {
      status := 1;
      if d[0] == CB {
        df := CbByte;
      } else if d[0] == DD {
        df := IndexByte;
      } else if d[0] == ED {
        df := ExtendedByte;
      } else if d[0] == FD {
        df := IndexByte;
      } else {
        status, df := UNKNOWN, Null;
      }
    }

    /** `_dis_b1`: the function the table has for the instruction byte. */
    method DisB1()
      requires d.Length == MAX_BYTES && iNdx < MAX_BYTES
      modifies this`abn, this`cf, this`df, this`status
      ensures Prefix(d[iNdx]) && iNdx == 0 ==> status == 1
      ensures Prefix(d[iNdx]) && iNdx == 0 ==> df == if d[0] == CB then CbByte else if d[0] == ED then ExtendedByte else IndexByte
      ensures !Prefix(d[iNdx]) ==> if ab < ArgBytes(d[iNdx]) then Gathering(ArgBytes(d[iNdx]), Finish) else status == DONE
    {
      var f := FirstByteFn(d[iNdx]);
      FirstByteTable(d[iNdx]);
      if f == TwoByte {
        TwoByteInstruction();
      } else if Asks(f) == 0 {
        Finished();
      } else {
        AssureArgBytes(Asks(f), Finish);
      }
    }

    /** `_d_cb_process` */
    method CbProcess()
      requires d.Length == MAX_BYTES && iNdx < MAX_BYTES
      modifies this`status, this`df
      ensures status == if BadMovement(d[iNdx]) then INVALID else DONE
    {
      var inst := d[iNdx];
      if inst / 64 == 0 && inst / 8 % 8 == 6 {
        df, status := Null, INVALID;
        return;
      }
      Finished();
    }

    /** `_d_cb2` */
    method Cb2()
      requires d.Length == MAX_BYTES && iNdx == 0
      modifies this`status, this`df, d
      ensures status == if BadMovement(old(d[1])) then INVALID else DONE
      ensures d[0] == old(d[1]) && d[1] == old(d[1])
    {
      d[iNdx] := d[1];
      CbProcess();
    }

    /** `_d_ed2` */
    method Ed2()
      requires d.Length == MAX_BYTES && ab == 0
      modifies this`iNdx, this`abn, this`cf, this`df, this`status
      ensures iNdx == 1
      ensures if ExtendedLoad(d[1]) then Gathering(2, FinishExtendedLoad)
              else status == if ExtendedValid(d[1]) then DONE else INVALID
    {
      iNdx := 1;
      var if2 := d[1];
      var key, r := (if2 / 64, if2 % 8), if2 / 8 % 8;
      if key == (1, 3) {
        AssureArgBytes(2, FinishExtendedLoad);
        return;
      }
      if key == (1, 0) {
        if r == 6 { status := INVALID; return; }
      } else if key == (1, 1) {
        if r == 6 { status := INVALID; return; }
      } else if key == (1, 2) {
      } else if if2 / 32 == 5 {
        if if2 / 4 % 2 == 1 { status := INVALID; return; }
      } else if !(if2 in {0x44, 0x45, 0x4D, 0x67, 0x6F, 0x46, 0x56, 0x5E, 0x47, 0x57}) {
        status := INVALID;
        return;
      }
      Finished();
    }

    /** `_d_ixiy` */
    method IxIy()
      requires d.Length == MAX_BYTES && iNdx == 1 && ab == 0
      modifies this`abn, this`cf, this`df, this`status
      ensures IndexNeeds(d[1]) < 0 ==> status == INVALID
      ensures IndexNeeds(d[1]) == 0 ==> status == DONE
      ensures IndexNeeds(d[1]) > 0 ==> Gathering(IndexNeeds(d[1]), FinishIndex)
    {
      status := 0;
      var i := 0;
      while i < INDEX_ENTRIES
        invariant i <= INDEX_ENTRIES && forall j :: 0 <= j < i ==> IndexRow(j).inst < d[1]
      {
        if IndexRow(i).inst >= d[1] {
          if IndexRow(i).inst > d[1] {
            NotListed(d[1], i);
            status := INVALID;
            return;
          }
          break;
        }
        i := i + 1;
      }
      if i == INDEX_ENTRIES {
        NotListed(d[1], i);
        status := INVALID;
        return;
      }
      TableSound(i);
      var needs := RowBytes(IndexRow(i));
      if needs > 0 {
        AssureArgBytes(needs, FinishIndex);
      } else {
        DisB1();
      }
    }

    /** `_d_ddfd2` */
    method DdFd2()
      requires d.Length == MAX_BYTES && ab == 0
      modifies this`xy, this`iNdx, this`abn, this`cf, this`df, this`status
      ensures iNdx == 1
      ensures d[1] == CB ==> Gathering(2, FinishIndexCb)
      ensures d[1] != CB && IndexNeeds(d[1]) < 0 ==> status == INVALID
      ensures d[1] != CB && IndexNeeds(d[1]) == 0 ==> status == DONE
      ensures d[1] != CB && IndexNeeds(d[1]) > 0 ==> Gathering(IndexNeeds(d[1]), FinishIndex)
    {
      xy := true;
      iNdx := 1;
      if d[iNdx] == CB {
        AssureArgBytes(2, FinishIndexCb);
        return;
      }
      IxIy();
    }

    /** `_d_ixiycb_c` */
    method IxIyCbFinish()
      requires d.Length == MAX_BYTES
      modifies this`iNdx, this`status, this`df
      ensures status == if d[3] % 8 == 6 && !BadMovement(d[3]) then DONE else INVALID
    {
      if d[3] % 8 != 6 { status := INVALID; return; }
      iNdx := 3;
      CbProcess();
    }

    /** `_gab`, which counts one more argument byte and goes on when it was the last. */
    method GatherByte(ghost bs: seq<Byte>, b: Byte)
      requires d.Length == MAX_BYTES && |bs| >= 1 && Continues(bs) && df == Gather && Stored(bs + [b])
      modifies this`ab, this`iNdx, this`abn, this`cf, this`df, this`status
      ensures status == Wanted(bs + [b]) && (status > 0 ==> Continues(bs + [b]))
    {
      ghost var now := bs + [b];
      assert now[0] == bs[0] && (|bs| > 1 ==> now[1] == bs[1]) && (|bs| == 3 ==> d[3] == now[3]);
      assert |bs| > 1 ==> d[1] == now[1];
      ab := ab + 1;
      if ab < abn {
        status := abn - ab;
        return;
      }
      df := cf;
      if df == Finish {
        Finished();
      } else if df == FinishExtendedLoad {
        iNdx := 1;
        Finished();
      } else if df == FinishIndexCb {
        IxIyCbFinish();
      } else {
        DisB1();
      }
    }

    /** `_disassemble`, with the byte `b` just stored behind `bs`. */
    method Disassemble(ghost bs: seq<Byte>, b: Byte)
      requires Stored(bs + [b]) && |bs| >= 1 && Unfinished(bs) && (df != Null ==> Continues(bs))
      modifies this`ab, this`iNdx, this`abn, this`cf, this`df, this`status, this`xy, d
      ensures old(df) == Null ==> status == DF_NULL
      ensures old(df) != Null ==> Fed(bs + [b])
    {
      if df == Null { status := DF_NULL; return; }
      assert (bs + [b])[0] == bs[0] && (bs + [b])[|bs|] == b && bs[..|bs|] == bs;
      if df == CbByte {
        Cb2();
      } else if df == ExtendedByte {
        Ed2();
      } else if df == IndexByte {
        DdFd2();
      } else {
        GatherByte(bs, b);
      }
    }

    /** `zda_begin` */
    method Begin(initialized: bool, data: Byte) returns (r: int)
      requires d.Length == MAX_BYTES
      modifies this, d
      ensures r == status
      ensures initialized ==> Fed([data]) && r >= 0
      ensures !initialized ==> r == UNINITIALIZED
    {
      if !initialized {
        status := UNINITIALIZED;
        return status;
      }
      bi, iNdx, ab, abn, status, df, cf, xy := 0, 0, 0, 0, 0, Null, Null, false;
      forall i | 0 <= i < d.Length { d[i] := 0; }
      d[bi] := data;
      bi := bi + 1;
      d[iNdx] := data;
      df := FirstByte;
      DisB1();
      return status;
    }

    /** `zda_next` after the bytes `bs`. */
    method Next(data: Byte, ghost bs: seq<Byte>) returns (r: int)
      requires d.Length == MAX_BYTES && (status > 0 && bi < MAX_BYTES ==> Fed(bs) && Unfinished(bs))
      modifies this, d
      ensures r == status
      ensures old(status) > 0 && old(bi) < MAX_BYTES ==> Fed(bs + [data])
      ensures old(status) > 0 && old(bi) >= MAX_BYTES ==> r == TOO_MANY_BYTES
      ensures old(status) == DONE ==> r == UNNEEDED
      ensures old(status) < 0 ==> r == old(status)
    {
      if status < 0 { return status; }
      if status == DONE {
        status := UNNEEDED;
        return status;
      }
      if bi >= MAX_BYTES {
        status := TOO_MANY_BYTES;
        return status;
      }
      assert bs[..|bs|] == bs;
      d[bi] := data;
      bi := bi + 1;
      Disassemble(bs, data);
      return status;
    }
  }

  // ---------------------------------------------------------------- the driver

  const ADDRESSES: nat := 0x1_0000

  const BLANK: seq<Byte> := seq(ADDRESSES, _ => 0)

  /** Target memory; addresses wrap round at 16 bits. */
  type Memory = m: seq<Byte> | |m| == ADDRESSES witness BLANK

  /** An address cut to 16 bits. */
  function Address(a: nat): (r: nat)
    ensures r < ADDRESSES
  {
    if a < ADDRESSES then a else Address(a - ADDRESSES)
  }

  lemma {:induction false} AddressIsRemainder(a: nat)
    ensures Address(a) == a % ADDRESSES
    decreases a
  {
    if a >= ADDRESSES { AddressIsRemainder(a - ADDRESSES); }
  }

  lemma {:induction false} AddressGoesOn(a: nat, k: nat)
    ensures Address(Address(a) + k) == Address(a + k)
    decreases a
  {
    if a >= ADDRESSES { AddressGoesOn(a - ADDRESSES, k); }
  }

  function At(mem: Memory, a: nat): Byte { mem[Address(a)] }

  /** `n` bytes of memory from `a` on. */
  function Bytes(mem: Memory, a: nat, n: nat): (bs: seq<Byte>)
    ensures |bs| == n && forall i :: 0 <= i < n ==> bs[i] == At(mem, a + i)
  {
    if n == 0 then [] else Bytes(mem, a, n - 1) + [At(mem, a + n - 1)]
  }

  /** `bs` is what memory holds from `a` on. */
  predicate ReadFrom(mem: Memory, a: nat, bs: seq<Byte>) { forall i :: 0 <= i < |bs| ==> bs[i] == At(mem, a + i) }

  /** The instruction at `a`. */
  function Chunk(mem: Memory, a: nat): (bs: seq<Byte>)
    ensures 1 <= |bs| <= MAX_BYTES
  {
    Bytes(mem, a, Length(At(mem, a), At(mem, a + 1)))
  }

  /** The instructions from `a` on, at most `count` of them and none behind an invalid one. */
  function Split(mem: Memory, a: nat, count: int): (chunks: seq<seq<Byte>>)
    ensures chunks != []
    decreases count
  {
    var chunk := Chunk(mem, a);
    if Wanted(chunk) < 0 || count <= 1 then [chunk] else [chunk] + Split(mem, a + |chunk|, count - 1)
  }

  function TotalLength(chunks: seq<seq<Byte>>): nat {
    if chunks == [] then 0 else TotalLength(chunks[..|chunks| - 1]) + |chunks[|chunks| - 1]|
  }

  /** Reading on from an unfinished instruction ends exactly at the end of the chunk. */
  lemma ChunkReached(mem: Memory, a: nat, bs: seq<Byte>)
    requires ReadFrom(mem, a, bs) && Complete(bs)
    ensures bs == Chunk(mem, a)
  {
    assert |bs| > 1 ==> bs[1] == At(mem, a + 1);
    CompleteLength(bs, At(mem, a + 1));
  }

  lemma {:induction false} SplitValid(mem: Memory, a: nat, count: int)
    ensures var chunks := Split(mem, a, count);
      |chunks| >= 1 && forall i :: 0 <= i < |chunks| - 1 ==> Wanted(chunks[i]) >= 0
    decreases count
  {
    var chunk := Chunk(mem, a);
    if Wanted(chunk) >= 0 && count > 1 {
      SplitValid(mem, a + |chunk|, count - 1);
      FirstValid(chunk, Split(mem, a + |chunk|, count - 1));
    }
  }

  lemma FirstValid(chunk: seq<Byte>, rest: seq<seq<Byte>>)
    requires Wanted(chunk) >= 0 && forall i :: 0 <= i < |rest| - 1 ==> Wanted(rest[i]) >= 0
    ensures var chunks := [chunk] + rest; forall i :: 0 <= i < |chunks| - 1 ==> Wanted(chunks[i]) >= 0
  { }

  /** A run decodes as many statements as asked for, unless an invalid one ends it; and one at least. */
  lemma {:induction false} SplitCount(mem: Memory, a: nat, count: int)
    ensures var n, chunks := if count < 1 then 1 else count, Split(mem, a, count);
      |chunks| <= n && (|chunks| < n ==> Wanted(chunks[|chunks| - 1]) < 0)
    decreases count
  {
    var chunk := Chunk(mem, a);
    if Wanted(chunk) >= 0 && count > 1 {
      SplitCount(mem, a + |chunk|, count - 1);
      var rest := Split(mem, a + |chunk|, count - 1);
      var chunks := [chunk] + rest;
      assert chunks[|chunks| - 1] == rest[|rest| - 1];
    }
  }

  predicate AllValid(chunks: seq<seq<Byte>>) { forall i :: 0 <= i < |chunks| ==> Wanted(chunks[i]) >= 0 }

  /** Only the last instruction of a run can be invalid. */
  lemma LastDecides(mem: Memory, a: nat, count: int)
    ensures var chunks := Split(mem, a, count);
      |chunks| >= 1 && (Wanted(chunks[|chunks| - 1]) >= 0 <==> AllValid(chunks))
  {
    SplitValid(mem, a, count);
  }

  /**
    How far a run over `mem` from `base` on has come: the instructions decoded, the bytes `bs` read
    of the one at `start`, the statements still due and the number of bytes fetched.
  */
  datatype Job = Job(mem: Memory, base: nat, start: nat, bs: seq<Byte>, chunks: seq<seq<Byte>>, due: int, fetched: nat)

  predicate Consistent(j: Job) {
    && ReadFrom(j.mem, j.start, j.bs)
    && j.start == j.base + TotalLength(j.chunks)
    && j.fetched == TotalLength(j.chunks) + |j.bs|
  }

  /** Between two exchanges of data. */
  predicate Idle(j: Job) { Consistent(j) && (j.bs == [] || Unfinished(j.bs)) }

  /** Between two bytes, with `n` more at hand: only as many as are wanted. */
  predicate Feeding(j: Job, n: nat) {
    Consistent(j) && j.bs != [] && (if Wanted(j.bs) > 0 then Unfinished(j.bs) else Complete(j.bs))
    && (n > 0 ==> n == Wanted(j.bs))
  }

  /** The address of the next byte. */
  function Here(j: Job): nat { Address(j.start + |j.bs|) }

  function Take(j: Job, b: Byte): Job { j.(bs := j.bs + [b], fetched := j.fetched + 1) }

  function Close(j: Job): Job { j.(chunks := j.chunks + [j.bs], start := j.start + |j.bs|, bs := [], due := j.due - 1) }

  /** All the instructions of the run, those still to come included. */
  function Goal(j: Job): seq<seq<Byte>> { j.chunks + Split(j.mem, j.start, j.due) }

  lemma FirstTaken(j: Job, b: Byte)
    requires Idle(j) && j.bs == [] && b == At(j.mem, j.start)
    ensures Feeding(Take(j, b), 0) && Take(j, b).bs == [b] && Here(Take(j, b)) == Address(Here(j) + 1)
  {
    AddressGoesOn(j.start, 1);
  }

  lemma OneTaken(j: Job, n: nat, b: Byte)
    requires Feeding(j, n) && n > 0 && b == At(j.mem, j.start + |j.bs|)
    ensures |j.bs| < MAX_BYTES && Feeding(Take(j, b), n - 1) && Here(Take(j, b)) == Address(Here(j) + 1)
  {
    UnfinishedShort(j.bs);
    Extended(j.bs, b);
    if n > 1 { AsksForNoMore(j.bs, b); }
    AddressGoesOn(j.start + |j.bs|, 1);
  }

  lemma ClosedIdle(j: Job)
    requires Feeding(j, 0) && Wanted(j.bs) <= 0
    ensures Idle(Close(j)) && Here(Close(j)) == Here(j)
  {
    var done := j.chunks + [j.bs];
    assert done[..|done| - 1] == j.chunks;
  }

  lemma ClosedGoal(j: Job)
    requires Feeding(j, 0) && Wanted(j.bs) <= 0
    ensures if Wanted(j.bs) == DONE && j.due > 1 then Goal(Close(j)) == Goal(j) else Close(j).chunks == Goal(j)
  {
    ChunkReached(j.mem, j.start, j.bs);
    var done := j.chunks + [j.bs];
    if Wanted(j.bs) == DONE && j.due > 1 {
      var rest := Split(j.mem, j.start + |j.bs|, j.due - 1);
      assert j.chunks + ([j.bs] + rest) == done + rest;
    }
  }

  lemma RunEnds(j: Job, mem: Memory, addr: nat, count: int, at: nat)
    requires at == Here(j) && Idle(j) && j.bs == [] && j.base == addr && j.chunks == Split(mem, addr, count)
    ensures at == (addr + TotalLength(j.chunks)) % ADDRESSES && j.fetched == TotalLength(j.chunks)
    ensures |j.chunks| >= 1
    ensures Wanted(j.chunks[|j.chunks| - 1]) >= 0 <==> AllValid(j.chunks)
  {
    LastDecides(mem, addr, count);
    AddressIsRemainder(addr + TotalLength(j.chunks));
  }

  lemma StartGoal(mem: Memory, addr: nat, count: int)
    requires addr < ADDRESSES
    ensures var j := Job(mem, addr, addr, [], [], count, 0); Goal(j) == Split(mem, addr, count) && Idle(j) && Here(j) == addr
  {
    assert [] + Split(mem, addr, count) == Split(mem, addr, count);
  }

  /** One byte more keeps what is read a first part of an instruction, or completes it. */
  lemma Extended(bs: seq<Byte>, b: Byte)
    requires Unfinished(bs)
    ensures Wanted(bs + [b]) > 0 ==> Unfinished(bs + [b])
    ensures Wanted(bs + [b]) <= 0 ==> Complete(bs + [b])
  {
    var now := bs + [b];
    assert now[..|now| - 1] == bs;
    forall k | 1 <= k < |now| ensures Wanted(now[..k]) > 0 {
      assert now[..k] == bs[..k];
      if k == |bs| { assert bs[..k] == bs; }
    }
  }

  lemma ByteWraps(mem: Memory, a: nat, here: nat, i: nat)
    requires here == Address(a)
    ensures At(mem, here + i) == At(mem, a + i)
  {
    AddressGoesOn(a, i);
  }

  lemma ReadWraps(mem: Memory, a: nat, here: nat, bs: seq<Byte>)
    requires here == Address(a) && ReadFrom(mem, here, bs)
    ensures ReadFrom(mem, a, bs)
  {
    forall i | 0 <= i < |bs| ensures bs[i] == At(mem, a + i) {
      ByteWraps(mem, a, here, i);
    }
  }

  /** `cmddasm_ctx_s`: the decoder context, the read address and the bytes and statements still due. */
  class Driver {
    const ctx: Context
    var caddr: nat
    var bc: nat
    var stmtCnt: int
    ghost var job: Job

    constructor ()
      ensures fresh(ctx) && fresh(ctx.d) && ctx.d.Length == MAX_BYTES
    {
      ctx := new Context();
      caddr, bc, stmtCnt := 0, 0, 0;
      job := Job(BLANK, 0, 0, [], [], 0, 0);
    }

    /** Bytes are asked for: one to begin with, or as many as the decoder still wants. */
    ghost predicate Waiting()
      reads this, ctx, ctx.d
    {
      && ctx.d.Length == MAX_BYTES && Idle(job) && caddr == Here(job) && bc == Wanted(job.bs) && stmtCnt == job.due
      && if job.bs == [] then ctx.status == 0 else ctx.Fed(job.bs)
    }

    /** The decoder has had the bytes read, and `bc` more are at hand. */
    ghost predicate Busy()
      reads this, ctx, ctx.d
    {
      ctx.d.Length == MAX_BYTES && Feeding(job, bc) && caddr == Here(job) && stmtCnt == job.due && ctx.Fed(job.bs)
    }

    /** One round of the loop in `_disasm_c_d`. */
    method FeedNext(b: Byte)
      requires Busy() && bc > 0 && b == At(job.mem, job.start + |job.bs|)
      modifies this`caddr, this`bc, this`job, ctx, ctx.d
      ensures Busy() && job == Take(old(job), b) && bc == old(bc) - 1
    {
      ghost var bs := job.bs;
      OneTaken(job, bc, b);
      bc := bc - 1;
      caddr := Address(caddr + 1);
      job := Take(job, b);
      var s := ctx.Next(b, bs);
    }

    /** The first lines of `_disasm_c_d`, when a new instruction begins. */
    method FeedFirst(b: Byte)
      requires Waiting() && job.bs == [] && b == At(job.mem, job.start)
      modifies this`caddr, this`bc, this`job, ctx, ctx.d
      ensures Busy() && job == Take(old(job), b) && bc == 0
    {
      FirstTaken(job, b);
      bc := bc - 1;
      caddr := Address(caddr + 1);
      job := Take(job, b);
      var s := ctx.Begin(true, b);
    }

    /** The loop of `_disasm_c_d`, which gives the decoder the bytes at hand. */
    method FeedRest(vbuf: seq<Byte>)
      requires Busy() && (bc > 0 ==> |vbuf| == bc && ReadFrom(job.mem, job.start + |job.bs|, vbuf))
      modifies this`caddr, this`bc, this`job, ctx, ctx.d
      ensures Busy() && bc == 0 && job == old(job).(bs := job.bs, fetched := job.fetched)
      ensures |job.bs| == |old(job.bs)| + old(bc)
    {
      ghost var j0, n := job, bc;
      var k := 0;
      while ctx.status > 0 && bc > 0
        invariant Busy() && k + bc == n && |job.bs| == |j0.bs| + k
        invariant job == j0.(bs := job.bs, fetched := job.fetched)
        decreases bc
      {
        assert vbuf[k] == At(j0.mem, j0.start + |j0.bs| + k);
        FeedNext(vbuf[k]);
        k := k + 1;
      }
    }

    /** The decoder gets its first byte if it has had none yet. */
    method FeedStart(vbuf: seq<Byte>)
      requires Waiting() && |vbuf| == bc && ReadFrom(job.mem, job.start + |job.bs|, vbuf)
      modifies this`caddr, this`bc, this`job, ctx, ctx.d
      ensures Busy() && job == old(job).(bs := job.bs, fetched := job.fetched)
      ensures if old(job.bs) == [] then |job.bs| == 1 && bc == 0 else job == old(job) && bc == old(bc) > 0
    {
      if ctx.status == 0 { FeedFirst(vbuf[0]); }
    }

    /** The part of `_disasm_c_d` before it looks at the outcome: the decoder gets all the bytes. */
    method FeedAll(vbuf: seq<Byte>)
      requires Waiting() && |vbuf| == bc && ReadFrom(job.mem, job.start + |job.bs|, vbuf)
      modifies this`caddr, this`bc, this`job, ctx, ctx.d
      ensures Busy() && bc == 0 && job == old(job).(bs := job.bs, fetched := job.fetched)
      ensures |job.bs| > |old(job.bs)|
    {
      ghost var j := job;
      FeedStart(vbuf);
      if bc > 0 { assert job == j; }
      FeedRest(vbuf);
    }

    /** The part of `_disasm_c_d` for a complete statement or an invalid instruction. */
    method Conclude() returns (more: bool)
      requires Busy() && bc == 0 && ctx.status <= 0
      modifies this`bc, this`stmtCnt, this`job
      ensures job == Close(old(job)) && caddr == Here(job)
      ensures more == (ctx.status == DONE && old(job.due) > 1) && (more ==> Waiting())
    {
      more := false;
      ClosedIdle(job);
      job := Close(job);
      if ctx.status == 0 {
        stmtCnt := stmtCnt - 1;
        if stmtCnt > 0 {
          bc := 1;
          more := true;
        }
      }
    }

    /** The part of `_disasm_c_d` that looks at the outcome. */
    method Outcome() returns (more: bool)
      requires Busy() && bc == 0
      modifies this`bc, this`stmtCnt, this`job
      ensures job.mem == old(job.mem) && job.base == old(job.base) && Idle(job) && caddr == Here(job)
      ensures more ==> Waiting() && Goal(job) == Goal(old(job))
      ensures more ==> job == old(job) || 0 < job.due < old(job.due)
      ensures !more ==> job.bs == [] && job.chunks == Goal(old(job)) && ctx.status == Wanted(job.chunks[|job.chunks| - 1]) <= 0
    {
      if ctx.status > 0 {
        bc := ctx.status;
        more := true;
      } else {
        ClosedIdle(job);
        ClosedGoal(job);
        OnlyInvalid(job.bs);
        more := Conclude();
      }
    }

    /**
      `_disasm_c_d`: the `bc` bytes asked for have arrived.  Either the instruction is longer and
      more of it is asked for, or it is complete and the next one begins.  False when that was the
      last statement or it is invalid.
    */
    method OnData(vbuf: seq<Byte>) returns (more: bool)
      requires Waiting() && |vbuf| == bc && ReadFrom(job.mem, caddr, vbuf)
      modifies this`caddr, this`bc, this`stmtCnt, this`job, ctx, ctx.d
      ensures job.mem == old(job.mem) && job.base == old(job.base) && Idle(job) && caddr == Here(job)
      ensures more ==> Waiting() && Goal(job) == Goal(old(job))
      ensures ctx.status >= DONE || ctx.status == INVALID
      ensures more ==> 0 < job.due < old(job.due) || (job.due == old(job.due) && |job.bs| > |old(job.bs)|)
      ensures !more ==> job.bs == [] && job.chunks == Goal(old(job)) && ctx.status == Wanted(job.chunks[|job.chunks| - 1]) <= 0
    {
      ReadWraps(job.mem, job.start + |job.bs|, caddr, vbuf);
      FeedAll(vbuf);
      OnlyInvalid(job.bs);
      more := Outcome();
    }

    /** The exchange of requests and data until the run is over. */
    method Exchange(memory: Memory)
      requires Waiting() && memory == job.mem && job.due >= 0
      modifies this`caddr, this`bc, this`stmtCnt, this`job, ctx, ctx.d
      ensures job.mem == old(job.mem) && job.base == old(job.base) && Idle(job) && caddr == Here(job)
      ensures job.bs == [] && job.chunks == Goal(old(job)) && ctx.status == Wanted(job.chunks[|job.chunks| - 1])
      ensures ctx.status == DONE || ctx.status == INVALID
    {
      var more := true;
      while more
        invariant job.mem == memory && job.base == old(job.base) && Idle(job) && caddr == Here(job)
        invariant more ==> Waiting() && Goal(job) == Goal(old(job)) && job.due >= 0
        invariant !more ==> job.bs == [] && job.chunks == Goal(old(job)) && ctx.status == Wanted(job.chunks[|job.chunks| - 1])
        invariant !more ==> ctx.status == DONE || ctx.status == INVALID
        decreases more, if job.due < 0 then 0 else job.due, MAX_BYTES - |job.bs|
      {
        var vbuf := Bytes(memory, caddr, bc);
        more := OnData(vbuf);
      }
    }

    /** `_disasm` up to its first request. */
    method Start(memory: Memory, addr: nat, count: nat)
      requires addr < ADDRESSES && ctx.d.Length == MAX_BYTES
      modifies this, ctx`status
      ensures Waiting() && job.mem == memory && job.base == addr && job.due == count
      ensures Goal(job) == Split(memory, addr, count)
    {
      stmtCnt, caddr, bc := count, addr, 1;
      ctx.status := 0;
      job := Job(memory, addr, addr, [], [], count, 0);
      StartGoal(memory, addr, count);
    }

    method StartAndExchange(memory: Memory, addr: nat, count: nat) returns (valid: bool)
      requires addr < ADDRESSES && ctx.d.Length == MAX_BYTES
      modifies this, ctx, ctx.d
      ensures job.base == addr && Idle(job) && job.bs == [] && caddr == Here(job)
      ensures job.chunks == Split(memory, addr, count) && valid == (Wanted(job.chunks[|job.chunks| - 1]) >= DONE)
      ensures ctx.status == if valid then DONE else INVALID
    {
      Start(memory, addr, count);
      Exchange(memory);
      valid := ctx.status == DONE;
    }

    /**
      `_disasm` with all the exchanges it starts: decodes statements from `addr` on and leaves the
      address behind the last one, having fetched their bytes and no others.
    */
    method Disasm(memory: Memory, addr: nat, count: nat) returns (valid: bool)
      requires addr < ADDRESSES && ctx.d.Length == MAX_BYTES
      modifies this, ctx, ctx.d
      ensures job.chunks == Split(memory, addr, count)
      ensures caddr == (addr + TotalLength(job.chunks)) % ADDRESSES
      ensures job.fetched == TotalLength(job.chunks)
      ensures valid <==> AllValid(job.chunks)
      ensures ctx.status == if valid then DONE else INVALID
    {
      valid := StartAndExchange(memory, addr, count);
      RunEnds(job, memory, addr, count, caddr);
    }
  }
}

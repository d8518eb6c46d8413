/**
  The RPN calculator of src-rp/calculator/cmd/cmds.c: a four-level stack whose words are cut to the
  chosen word size.

  `Machine` is the calculator as a value, the class `Calculator` the firmware's statics.  The same
  machine with modulus 0 computes with unbounded integers and serves as the reference.
*/
module Calculator {

  const WORD: int := 0x1_0000_0000

  type Uint32 = x: int | 0 <= x < WORD

  const STKCNT: nat := 4
  const REGCNT: nat := 10

  // ---------------------------------------------------------------- arithmetic

  function Pow2(w: nat): (p: int)
    ensures p >= 1
  {
    if w == 0 then 1 else 2 * Pow2(w - 1)
  }

  function Abs(a: int): nat { if a < 0 then -a else a }

  predicate Flat(a: int) { a == 0 || a == -1 }

  /** One bit of `&` or `|`. */
  function Bit(or: bool, a: int, b: int): int {
    if or then (if a == 1 || b == 1 then 1 else 0) else (if a == 1 && b == 1 then 1 else 0)
  }

  /** Bitwise `|` or `&` of integers in two's complement of unlimited length. */
  function Bitwise(or: bool, a: int, b: int): int
    decreases Abs(a) + Abs(b)
  {
    if Flat(a) && Flat(b) then
      if or then (if a == -1 || b == -1 then -1 else 0) else (if a == -1 && b == -1 then -1 else 0)
    else 2 * Bitwise(or, a / 2, b / 2) + Bit(or, a % 2, b % 2)
  }

  lemma BitwiseSplits(or: bool, a: int, b: int)
    ensures Bitwise(or, a, b) == 2 * Bitwise(or, a / 2, b / 2) + Bit(or, a % 2, b % 2)
  { }

  lemma ModSplits(a: int, w: nat)
    requires w > 0
    ensures a % Pow2(w) == 2 * ((a / 2) % Pow2(w - 1)) + a % 2
  {
    var p := Pow2(w - 1);
    var r, q := (a / 2) % p, (a / 2) / p;
    assert a / 2 == q * p + r;
    assert a == q * (2 * p) + (2 * r + a % 2) by { assert 2 * (q * p) == q * (2 * p); }
    ModUnique(a, 2 * p, q, 2 * r + a % 2);
  }

  lemma ModUnique(a: int, m: int, q: int, r: int)
    requires m > 0 && a == q * m + r && 0 <= r < m
    ensures a % m == r
  {
    var d := a / m - q;
    assert d * m == r - a % m;
    MultipleIsFar(d, m);
  }

  lemma MultipleIsFar(d: int, m: int)
    requires m > 0
    ensures d >= 1 ==> d * m >= m
    ensures d <= -1 ==> d * m <= -m
  { }

  predicate Same(a: int, b: int, p: int)
    requires p > 0
  {
    a % p == b % p
  }

  lemma SameShift(x: int, k: int, p: int)
    requires p > 0
    ensures Same(x + k * p, x, p)
  {
    assert x + k * p == (x / p + k) * p + x % p;
    ModUnique(x + k * p, p, x / p + k, x % p);
  }

  lemma SameDistance(a: int, b: int, p: int) returns (k: int)
    requires p > 0 && Same(a, b, p)
    ensures a == b + k * p
  {
    k := a / p - b / p;
  }

  lemma HalvesAgree(a: int, c: int, w: nat)
    requires w > 0 && a % Pow2(w) == c % Pow2(w)
    ensures a % 2 == c % 2 && (a / 2) % Pow2(w - 1) == (c / 2) % Pow2(w - 1)
  {
    ModSplits(a, w);
    ModSplits(c, w);
  }

  lemma DoublesAgree(x: int, y: int, bit: int, w: nat)
    requires w > 0 && x % Pow2(w - 1) == y % Pow2(w - 1) && 0 <= bit <= 1
    ensures (2 * x + bit) % Pow2(w) == (2 * y + bit) % Pow2(w)
  {
    var p := Pow2(w - 1);
    var k := SameDistance(x, y, p);
    assert 2 * x + bit == 2 * y + bit + k * (2 * p) by { assert 2 * (k * p) == k * (2 * p); }
    SameShift(2 * y + bit, k, 2 * p);
  }

  /** The low bits of the result depend on the low bits of the operands only. */
  lemma {:induction false} BitwiseMod(or: bool, a: int, b: int, c: int, d: int, w: nat)
    requires a % Pow2(w) == c % Pow2(w) && b % Pow2(w) == d % Pow2(w)
    ensures Bitwise(or, a, b) % Pow2(w) == Bitwise(or, c, d) % Pow2(w)
    decreases w
  {
    if w == 0 {
    } else {
      HalvesAgree(a, c, w);
      HalvesAgree(b, d, w);
      BitwiseMod(or, a / 2, b / 2, c / 2, d / 2, w - 1);
      BitwiseSplits(or, a, b);
      BitwiseSplits(or, c, d);
      DoublesAgree(Bitwise(or, a / 2, b / 2), Bitwise(or, c / 2, d / 2), Bit(or, a % 2, b % 2), w);
    }
  }

  lemma {:induction false} BitwiseRange(or: bool, a: int, b: int, w: nat)
    requires 0 <= a < Pow2(w) && 0 <= b < Pow2(w)
    ensures 0 <= Bitwise(or, a, b) < Pow2(w)
    decreases w
  {
    if w == 0 {
    } else {
      BitwiseRange(or, a / 2, b / 2, w - 1);
      BitwiseSplits(or, a, b);
    }
  }

  lemma {:induction false} AndZero(a: int)
    ensures Bitwise(false, a, 0) == 0
    decreases Abs(a)
  {
    if Flat(a) {
    } else {
      AndZero(a / 2);
    }
  }

  lemma OnesHalve(w: nat)
    requires w > 0
    ensures (Pow2(w) - 1) / 2 == Pow2(w - 1) - 1 && (Pow2(w) - 1) % 2 == 1
  { }

  /** Masking with `w` ones is the remainder modulo 2^w. */
  lemma {:induction false} MaskIsRemainder(a: int, w: nat)
    ensures Bitwise(false, a, Pow2(w) - 1) == a % Pow2(w)
    decreases w
  {
    if w == 0 {
      AndZero(a);
    } else {
      MaskIsRemainder(a / 2, w - 1);
      OnesHalve(w);
      BitwiseSplits(false, a, Pow2(w) - 1);
      ModSplits(a, w);
      assert Bit(false, a % 2, 1) == a % 2;
    }
  }

  // ---------------------------------------------------------------- the machine

  /** Word sizes as num.h names them. */
  datatype RepSize = Unlimited | Byte | Word | DWord

  function Bits(size: RepSize): nat {
    match size
    case Byte => 8
    case Word => 16
    case _ => 32
  }

  /** One more than the mask of a word size. */
  function Modulus(size: RepSize): nat {
    match size
    case Byte => 0x100
    case Word => 0x1_0000
    case _ => WORD
  }

  datatype Op =
    | Enter(v: Uint32)
    | Add | Sub | Mul | Div | And | Or | ShiftLeft | ShiftRight
    | ExchangeXY | GetT | GetZ | GetY | LastX | Recall(n: nat) | Store(n: nat) | RollDown | RollUp
    | Clear | ClearX | WordSize | Show

  /** The stack has X first and T last; `modulus` is 0 for unbounded integers. */
  datatype Machine = Machine(stk: seq<int>, lstX: int, reg: seq<int>, lift: bool, modulus: nat)

  predicate WellSized(m: Machine) { |m.stk| == STKCNT && |m.reg| == REGCNT }

  function Wrap(modulus: nat, v: int): int { if modulus == 0 then v else v % modulus }

  function Lifted(m: Machine, v: int): (r: Machine)
    requires WellSized(m)
    ensures WellSized(r)
  {
    m.(stk := [Wrap(m.modulus, v)] + if m.lift then m.stk[..3] else m.stk[1..])
  }

  function Dropped(m: Machine): (r: Machine)
    requires WellSized(m)
    ensures WellSized(r)
  {
    m.(stk := m.stk[1..] + [m.stk[3]])
  }

  /** Takes X and Y off and puts `v` there. */
  function Two(m: Machine, v: int): (r: Machine)
    requires WellSized(m)
    ensures WellSized(r)
  {
    Lifted(Dropped(Dropped(m.(lstX := m.stk[0]))), v)
  }

  function One(m: Machine, v: int): (r: Machine)
    requires WellSized(m)
    ensures WellSized(r)
  {
    Lifted(Dropped(m.(lstX := m.stk[0])), v)
  }

  function WithX(m: Machine, v: int): (r: Machine)
    requires WellSized(m)
    ensures WellSized(r)
  {
    m.(stk := [Wrap(m.modulus, v)] + m.stk[1..])
  }

  /** The word size a byte in X asks for. */
  function SizeFor(x: int): RepSize {
    var b := x % 256;
    if b >= 32 then DWord else if b >= 16 then Word else if b > 0 then Byte else Unlimited
  }

  function Resize(m: Machine): (r: Machine)
    requires WellSized(m)
    ensures WellSized(r)
  {
    var p := Modulus(SizeFor(m.stk[0]));
    m.(lstX := m.stk[0], modulus := p, stk := [m.stk[0] % p, m.stk[1] % p, m.stk[2] % p, m.stk[3] % p])
  }

  /** An operation enables the stack lift first, the entry of a value afterwards. */
  function Step(m: Machine, op: Op): (r: Machine)
    requires WellSized(m)
    ensures WellSized(r)
  {
    if op.Enter? then Lifted(m, op.v).(lift := true) else Operate(m.(lift := true), op)
  }

  function Operate(m: Machine, op: Op): (r: Machine)
    requires WellSized(m) && !op.Enter?
    ensures WellSized(r)
  {
    var x, y := m.stk[0], m.stk[1];
    var saved := m.(lstX := x);
    match op
    case Add => Two(m, y + x)
    case Sub => Two(m, y - x)
    case Mul => Two(m, y * x)
    case Div => if x == 0 then Dropped(Dropped(saved)) else Two(m, y / x)
    case And => Two(m, Bitwise(false, y, x))
    case Or => Two(m, Bitwise(true, y, x))
    case ShiftLeft => One(m, 2 * x)
    case ShiftRight => One(m, x / 2)
    case ExchangeXY => m.(stk := [Wrap(m.modulus, y), x, m.stk[2], m.stk[3]])
    case GetT => WithX(saved, m.stk[3])
    case GetZ => WithX(saved, m.stk[2])
    case GetY => WithX(saved, y)
    case LastX => Lifted(m, m.lstX)
    case Recall(n) => if n < REGCNT then Lifted(saved, m.reg[n]) else m
    case Store(n) => if n < REGCNT then m.(reg := m.reg[n := x]) else m
    case RollDown => m.(stk := [y, m.stk[2], m.stk[3], x])
    case RollUp => m.(stk := [m.stk[3], x, y, m.stk[2]])
    case Clear => m.(stk := [0, 0, 0, 0], lstX := 0, reg := seq(REGCNT, _ => 0), lift := false)
    case ClearX => m.(stk := [0] + m.stk[1..], lift := false)
    case WordSize => Resize(m)
    case Show => m
  }

  function Run(m: Machine, ops: seq<Op>): (r: Machine)
    requires WellSized(m)
    ensures WellSized(r)
    decreases |ops|
  {
    if ops == [] then m else Run(Step(m, ops[0]), ops[1..])
  }

  const POWER_ON := Machine([0, 0, 0, 0], 0, [0, 0, 0, 0, 0, 0, 0, 0, 0, 0], false, WORD)

  // ---------------------------------------------------------------- every entry fits the word

  /** All four stack entries fit the word size, whatever the history. */
  predicate StackFits(m: Machine) {
    WellSized(m) && m.modulus > 0 && forall i :: 0 <= i < STKCNT ==> 0 <= m.stk[i] < m.modulus
  }

  lemma MovesFit(m: Machine, v: int)
    requires StackFits(m)
    ensures StackFits(Lifted(m, v)) && StackFits(WithX(m, v)) && StackFits(Dropped(m))
    ensures StackFits(One(m, v)) && StackFits(Two(m, v))
  { }

  lemma ResizeFits(m: Machine)
    requires StackFits(m)
    ensures StackFits(Resize(m))
  { }

  lemma StepFits(m: Machine, op: Op)
    requires StackFits(m)
    ensures StackFits(Step(m, op))
  {
    var on := m.(lift := true);
    if op.Enter? {
      MovesFit(m, op.v);
    } else if op.RollDown? || op.RollUp? || op.ExchangeXY? || op.Clear? || op.ClearX? || op.Store? || op.Show? {
      RearrangingFits(on, op);
    } else {
      ComputingFits(on, op);
    }
  }

  lemma RearrangingFits(m: Machine, op: Op)
    requires StackFits(m)
    requires op.RollDown? || op.RollUp? || op.ExchangeXY? || op.Clear? || op.ClearX? || op.Store? || op.Show?
    ensures StackFits(Operate(m, op))
  { }

  lemma ComputingFits(m: Machine, op: Op)
    requires StackFits(m) && !op.Enter?
    requires !op.RollDown? && !op.RollUp? && !op.ExchangeXY? && !op.Clear? && !op.ClearX? && !op.Store? && !op.Show?
    ensures StackFits(Operate(m, op))
  {
    var x, y := m.stk[0], m.stk[1];
    var saved := m.(lstX := x);
    match op
    case Add => MovesFit(m, y + x);
    case Sub => MovesFit(m, y - x);
    case Mul => MovesFit(m, y * x);
    case Div => MovesFit(saved, 0); MovesFit(Dropped(saved), 0); if x != 0 { MovesFit(m, y / x); }
    case And => MovesFit(m, Bitwise(false, y, x));
    case Or => MovesFit(m, Bitwise(true, y, x));
    case ShiftLeft => MovesFit(m, 2 * x);
    case ShiftRight => MovesFit(m, x / 2);
    case GetT => MovesFit(saved, m.stk[3]);
    case GetZ => MovesFit(saved, m.stk[2]);
    case GetY => MovesFit(saved, y);
    case LastX => MovesFit(m, m.lstX);
    case Recall(n) => if n < REGCNT { MovesFit(saved, m.reg[n]); }
    case WordSize => ResizeFits(m);
  }

  lemma {:induction false} RunFits(m: Machine, ops: seq<Op>)
    requires StackFits(m)
    ensures StackFits(Run(m, ops))
    decreases |ops|
  {
    if ops == [] {
    } else {
      StepFits(m, ops[0]);
      RunFits(Step(m, ops[0]), ops[1..]);
    }
  }

  /** In every state the calculator can reach, all four stack entries fit the word size in force. */
  lemma EveryStackFits(ops: seq<Op>)
    ensures StackFits(Run(POWER_ON, ops))
  {
    RunFits(POWER_ON, ops);
  }

  // ---------------------------------------------------------------- Last X and the stack lift

  /** What is added and then subtracted, or the other way round, modulo `p`. */
  lemma BackAgain(x: int, y: int, p: int)
    requires p > 0 && 0 <= y < p
    ensures ((y + x) % p - x) % p == y && ((y - x) % p + x) % p == y
  {
    var k, l := (y + x) / p, (y - x) / p;
    assert (y + x) % p - x == -k * p + y;
    ModUnique((y + x) % p - x, p, -k, y);
    assert (y - x) % p + x == -l * p + y;
    ModUnique((y - x) % p + x, p, -l, y);
  }

  /** What a sum or a difference leaves, with the lift enabled. */
  lemma SumLeaves(m: Machine)
    requires WellSized(m)
    ensures var x, y, z, t := m.stk[0], m.stk[1], m.stk[2], m.stk[3];
      && Step(m, Add) == m.(stk := [Wrap(m.modulus, y + x), z, t, t], lstX := x, lift := true)
      && Step(m, Sub) == m.(stk := [Wrap(m.modulus, y - x), z, t, t], lstX := x, lift := true)
  { }

  lemma LastXPushes(m: Machine)
    requires WellSized(m)
    ensures Step(m, LastX) == m.(stk := [Wrap(m.modulus, m.lstX), m.stk[0], m.stk[1], m.stk[2]], lift := true)
  { }

  lemma SumUndone(m: Machine)
    requires StackFits(m)
    ensures Step(Step(Step(m, Add), LastX), Sub).stk == Dropped(m).stk
  {
    BackAgain(m.stk[0], m.stk[1], m.modulus);
    ModUnique(m.stk[0], m.modulus, 0, m.stk[0]);
    SumLeaves(m);
    LastXPushes(Step(m, Add));
    SumLeaves(Step(Step(m, Add), LastX));
  }

  lemma DifferenceUndone(m: Machine)
    requires StackFits(m)
    ensures Step(Step(Step(m, Sub), LastX), Add).stk == Dropped(m).stk
  {
    BackAgain(m.stk[0], m.stk[1], m.modulus);
    ModUnique(m.stk[0], m.modulus, 0, m.stk[0]);
    SumLeaves(m);
    LastXPushes(Step(m, Sub));
    SumLeaves(Step(Step(m, Sub), LastX));
  }

  /** Last X holds what an addition or a subtraction took from X, so the opposite operation undoes it. */
  lemma LastXUndoes(m: Machine)
    requires StackFits(m)
    ensures Step(Step(Step(m, Add), LastX), Sub).stk == Dropped(m).stk
    ensures Step(Step(Step(m, Sub), LastX), Add).stk == Dropped(m).stk
  {
    SumUndone(m);
    DifferenceUndone(m);
  }

  /** Clearing X disables the stack lift: the next value replaces the zero, the one after is pushed. */
  lemma ClearedXIsReplaced(m: Machine, v: Uint32, w: Uint32)
    requires WellSized(m)
    ensures Step(Step(Step(m, ClearX), Enter(v)), Enter(w)).stk
         == [Wrap(m.modulus, w), Wrap(m.modulus, v), m.stk[1], m.stk[2]]
  { }

  // ---------------------------------------------------------------- the stack and the registers

  /** Rolling down brings Y to X and X round to T; rolling up undoes it. */
  lemma RollsUndo(m: Machine)
    requires WellSized(m)
    ensures Step(m, RollDown).stk == m.stk[1..] + [m.stk[0]]
    ensures Step(Step(m, RollDown), RollUp).stk == m.stk == Step(Step(m, RollUp), RollDown).stk
  { }

  /** A division by zero leaves no quotient: both operands are gone, and T has moved down twice. */
  lemma ZeroDivisorDrops(m: Machine)
    requires WellSized(m) && m.stk[0] == 0
    ensures Step(m, Div) == m.(stk := [m.stk[2], m.stk[3], m.stk[3], m.stk[3]], lstX := 0, lift := true)
  { }

  /** Exchanging X and Y twice changes nothing, and once leaves Z and T. */
  lemma ExchangeUndoes(m: Machine)
    requires StackFits(m)
    ensures Step(m, ExchangeXY).stk[..2] == [m.stk[1], m.stk[0]] && Step(m, ExchangeXY).stk[2..] == m.stk[2..]
    ensures Step(Step(m, ExchangeXY), ExchangeXY) == m.(lift := true)
  {
    ModUnique(m.stk[0], m.modulus, 0, m.stk[0]);
    ModUnique(m.stk[1], m.modulus, 0, m.stk[1]);
  }

  /** What is stored in a register stays there until it is recalled, on top of the stack; the other
      registers keep what they have. */
  lemma StoredIsRecalled(m: Machine, n: nat, k: nat, v: Uint32)
    requires StackFits(m) && n < REGCNT && k < REGCNT
    ensures var t := Step(Step(m, Store(n)), Enter(v));
      && Step(t, Recall(n)).stk == [m.stk[0], v % m.modulus, m.stk[0], m.stk[1]]
      && Step(t, Recall(n)).lstX == v % m.modulus
      && (k != n ==> t.reg[k] == m.reg[k])
  {
    ModUnique(m.stk[0], m.modulus, 0, m.stk[0]);
  }

  /** Getting a level copies it to X alone, and Last X recalls what was there. */
  lemma GotLevel(m: Machine, op: Op)
    requires StackFits(m) && (op.GetY? || op.GetZ? || op.GetT?)
    ensures var t := Step(m, op);
      && t.stk == [m.stk[if op.GetY? then 1 else if op.GetZ? then 2 else 3]] + m.stk[1..]
      && Step(t, LastX).stk == [m.stk[0]] + t.stk[..3]
  {
    ModUnique(m.stk[0], m.modulus, 0, m.stk[0]);
    ModUnique(m.stk[1], m.modulus, 0, m.stk[1]);
    ModUnique(m.stk[2], m.modulus, 0, m.stk[2]);
    ModUnique(m.stk[3], m.modulus, 0, m.stk[3]);
  }

  /** Clearing brings back the power-on state, at the word size in force. */
  lemma ClearIsPowerOn(m: Machine)
    requires WellSized(m)
    ensures Step(m, Clear) == POWER_ON.(modulus := m.modulus)
  {
    assert Step(m, Clear).reg == POWER_ON.reg;
  }

  /** The low byte of X asks for a word size, and is taken for the next one that there is; 0 asks for
      the largest.  All levels are cut to it. */
  lemma WordSizes(m: Machine, i: nat)
    requires StackFits(m) && i < STKCNT
    ensures var t, b := Step(m, WordSize), m.stk[0] % 256;
      && t.modulus == (if 1 <= b <= 15 then 0x100 else if 16 <= b <= 31 then 0x1_0000 else 0x1_0000_0000)
      && t.stk[i] == m.stk[i] % t.modulus
  { }

  // ---------------------------------------------------------------- postfix evaluation

  datatype Expr = Lit(v: Uint32) | Binary(op: Op, left: Expr, right: Expr) | Unary(op: Op, arg: Expr)

  predicate Proper(e: Expr) {
    match e
    case Lit(_) => true
    case Binary(op, l, r) => (op.Add? || op.Sub? || op.Mul? || op.Div? || op.And? || op.Or?) && Proper(l) && Proper(r)
    case Unary(op, a) => (op.ShiftLeft? || op.ShiftRight?) && Proper(a)
  }

  /** How many stack levels the postfix form takes. */
  function Need(e: Expr): nat {
    match e
    case Lit(_) => 1
    case Binary(_, l, r) => if Need(l) >= Need(r) + 1 then Need(l) else Need(r) + 1
    case Unary(_, a) => Need(a)
  }

  function Postfix(e: Expr): seq<Op> {
    match e
    case Lit(v) => [Enter(v)]
    case Binary(op, l, r) => Postfix(l) + Postfix(r) + [op]
    case Unary(op, a) => Postfix(a) + [op]
  }

  /** The value at word size: every intermediate result is cut to the word. */
  function Value(e: Expr, modulus: nat): int {
    match e
    case Lit(v) => Wrap(modulus, v)
    case Binary(op, l, r) =>
      var y, x := Value(l, modulus), Value(r, modulus);
      Wrap(modulus,
           match op
           case Add => y + x
           case Sub => y - x
           case Mul => y * x
           case Div => if x == 0 then 0 else y / x
           case And => Bitwise(false, y, x)
           case _ => Bitwise(true, y, x))
    case Unary(op, a) => Wrap(modulus, if op.ShiftLeft? then 2 * Value(a, modulus) else Value(a, modulus) / 2)
  }

  /** No division by zero happens. */
  predicate Divides(e: Expr, modulus: nat) {
    match e
    case Lit(_) => true
    case Binary(op, l, r) => Divides(l, modulus) && Divides(r, modulus) && (op.Div? ==> Value(r, modulus) != 0)
    case Unary(_, a) => Divides(a, modulus)
  }

  lemma RunFirst(m: Machine, op: Op, rest: seq<Op>, ops: seq<Op>)
    requires WellSized(m) && ops == [op] + rest
    ensures Run(m, ops) == Run(Step(m, op), rest)
  {
    assert ops[1..] == rest;
  }

  lemma {:induction false} RunAppend(m: Machine, a: seq<Op>, b: seq<Op>)
    requires WellSized(m)
    ensures Run(m, a + b) == Run(Run(m, a), b)
    decreases |a|
  {
    if a == [] {
      assert a + b == b;
    } else {
      var op, rest := a[0], a[1..];
      RunFirst(m, op, rest, a);
      RunFirst(m, op, rest + b, a + b);
      RunAppend(Step(m, op), rest, b);
    }
  }

  /** `r` has `v` in X and, behind it, the top `4 - n` entries of `m`. */
  predicate Pushed(m: Machine, r: Machine, n: nat, v: int) {
    && WellSized(m) && WellSized(r) && 1 <= n <= STKCNT
    && r.lift && r.modulus == m.modulus
    && r.stk[0] == v
    && (forall i :: 0 <= i < STKCNT - n ==> r.stk[i + 1] == m.stk[i])
  }

  lemma BinaryPushes(m: Machine, a: Machine, b: Machine, e: Expr)
    requires e.Binary? && Proper(e) && Need(e) <= STKCNT && Divides(e, m.modulus)
    requires Pushed(m, a, Need(e.left), Value(e.left, m.modulus)) && Pushed(a, b, Need(e.right), Value(e.right, m.modulus))
    ensures Pushed(m, Step(b, e.op), Need(e), Value(e, m.modulus))
  {
    assert b.stk[1] == a.stk[0];
    forall i | 0 <= i < STKCNT - Need(e) ensures b.stk[i + 2] == m.stk[i] {
      assert b.stk[(i + 1) + 1] == a.stk[i + 1] == m.stk[i];
    }
  }

  lemma UnaryPushes(m: Machine, a: Machine, e: Expr)
    requires e.Unary? && Proper(e) && Need(e) <= STKCNT
    requires Pushed(m, a, Need(e.arg), Value(e.arg, m.modulus))
    ensures Pushed(m, Step(a, e.op), Need(e), Value(e, m.modulus))
  { }

  lemma {:induction false} NeedPositive(e: Expr)
    ensures Need(e) >= 1
  {
    match e
    case Lit(_) =>
    case Binary(_, l, r) => NeedPositive(l);
    case Unary(_, a) => NeedPositive(a);
  }

  /**
    Running the postfix form of an expression that needs at most four levels and divides by zero
    nowhere leaves its value in X and what was on top of the stack just below.
  */
  lemma {:induction false} PostfixEvaluates(m: Machine, e: Expr)
    requires WellSized(m) && m.lift && Proper(e) && Need(e) <= STKCNT && Divides(e, m.modulus)
    ensures Pushed(m, Run(m, Postfix(e)), Need(e), Value(e, m.modulus))
    decreases e
  {
    NeedPositive(e);
    match e
    case Lit(v) =>
      assert Run(m, [Enter(v)]) == Step(m, Enter(v));
    case Binary(op, l, r) =>
      PostfixEvaluates(m, l);
      var a := Run(m, Postfix(l));
      PostfixEvaluates(a, r);
      RunAppend(m, Postfix(l), Postfix(r));
      RunAppend(m, Postfix(l) + Postfix(r), [op]);
      var b := Run(a, Postfix(r));
      BinaryPushes(m, a, b, e);
      assert Run(b, [op]) == Step(b, op);
    case Unary(op, arg) =>
      PostfixEvaluates(m, arg);
      RunAppend(m, Postfix(arg), [op]);
      var a := Run(m, Postfix(arg));
      UnaryPushes(m, a, e);
      assert Run(a, [op]) == Step(a, op);
  }

  // ---------------------------------------------------------------- words compute modulo 2^w

  lemma SameRing(a: int, b: int, c: int, d: int, p: int)
    requires p > 0 && Same(a, b, p) && Same(c, d, p)
    ensures Same(a + c, b + d, p) && Same(a - c, b - d, p) && Same(a * c, b * d, p)
  {
    var k := SameDistance(a, b, p);
    var n := SameDistance(c, d, p);
    assert a + c == b + d + (k + n) * p;
    SameShift(b + d, k + n, p);
    assert a - c == b - d + (k - n) * p;
    SameShift(b - d, k - n, p);
    SameProduct(b, d, k, n, p);
  }

  lemma SameProduct(b: int, d: int, k: int, n: int, p: int)
    requires p > 0
    ensures Same((b + k * p) * (d + n * p), b * d, p)
  {
    var q := b * n + k * d + k * (n * p);
    assert (b + k * p) * (d + n * p) == b * d + q * p by {
      assert (b + k * p) * (d + n * p) == b * d + b * (n * p) + (k * p) * d + (k * p) * (n * p);
      assert b * (n * p) == (b * n) * p && (k * p) * d == (k * d) * p && (k * p) * (n * p) == (k * (n * p)) * p;
      assert (b * n + k * d + k * (n * p)) * p == (b * n) * p + (k * d) * p + (k * (n * p)) * p;
    }
    SameShift(b * d, q, p);
  }

  predicate AllSame(s: seq<int>, t: seq<int>, p: int)
    requires p > 0
  {
    |s| == |t| && forall i :: 0 <= i < |s| ==> Same(s[i], t[i], p)
  }

  /** The word machine holds the residues of what the unbounded one holds. */
  predicate Congruent(m: Machine, ideal: Machine, w: nat) {
    && WellSized(m) && WellSized(ideal)
    && m.modulus == Pow2(w) && ideal.modulus == 0 && m.lift == ideal.lift
    && Same(m.lstX, ideal.lstX, Pow2(w))
    && AllSame(m.stk, ideal.stk, Pow2(w)) && AllSame(m.reg, ideal.reg, Pow2(w))
  }

  /** Operations that commute with cutting to a word. */
  predicate Modular(op: Op) { !op.Div? && !op.ShiftRight? && !op.WordSize? }

  lemma SameTwice(a: int, b: int, p: int)
    requires p > 0 && Same(a, b, p)
    ensures Same(a % p, b, p)
  {
    ModUnique(a % p, p, 0, a % p);
  }

  lemma LiftCongruent(m: Machine, ideal: Machine, w: nat, v: int, v': int)
    requires Congruent(m, ideal, w) && Same(v, v', Pow2(w))
    ensures Congruent(Lifted(m, v), Lifted(ideal, v'), w)
  {
    SameTwice(v, v', Pow2(w));
    var a, b := Lifted(m, v), Lifted(ideal, v');
    forall i | 0 <= i < STKCNT ensures Same(a.stk[i], b.stk[i], Pow2(w)) {
      if i > 0 { assert Same(m.stk[i], ideal.stk[i], Pow2(w)) && Same(m.stk[i - 1], ideal.stk[i - 1], Pow2(w)); }
    }
  }

  lemma SetXCongruent(m: Machine, ideal: Machine, w: nat, v: int, v': int)
    requires Congruent(m, ideal, w) && Same(v, v', Pow2(w))
    ensures Congruent(WithX(m, v), WithX(ideal, v'), w)
  {
    SameTwice(v, v', Pow2(w));
  }

  lemma DropCongruent(m: Machine, ideal: Machine, w: nat)
    requires Congruent(m, ideal, w)
    ensures Congruent(Dropped(m), Dropped(ideal), w)
  {
    var a, b := Dropped(m), Dropped(ideal);
    forall i | 0 <= i < STKCNT ensures Same(a.stk[i], b.stk[i], Pow2(w)) {
      var j := if i < 3 then i + 1 else 3;
      assert a.stk[i] == m.stk[j] && b.stk[i] == ideal.stk[j] && Same(m.stk[j], ideal.stk[j], Pow2(w));
    }
  }

  lemma SaveCongruent(m: Machine, ideal: Machine, w: nat)
    requires Congruent(m, ideal, w)
    ensures Congruent(m.(lstX := m.stk[0]), ideal.(lstX := ideal.stk[0]), w)
  {
    assert Same(m.stk[0], ideal.stk[0], Pow2(w));
  }

  lemma TwoCongruent(m: Machine, ideal: Machine, w: nat, v: int, v': int)
    requires Congruent(m, ideal, w) && Same(v, v', Pow2(w))
    ensures Congruent(Two(m, v), Two(ideal, v'), w)
  {
    var saved, saved' := m.(lstX := m.stk[0]), ideal.(lstX := ideal.stk[0]);
    SaveCongruent(m, ideal, w);
    DropCongruent(saved, saved', w);
    DropCongruent(Dropped(saved), Dropped(saved'), w);
    LiftCongruent(Dropped(Dropped(saved)), Dropped(Dropped(saved')), w, v, v');
  }

  /** Operations that compute. */
  predicate Computes(op: Op) { op.Add? || op.Sub? || op.Mul? || op.And? || op.Or? || op.ShiftLeft? }

  lemma ComputesCongruent(m: Machine, ideal: Machine, w: nat, op: Op)
    requires Congruent(m, ideal, w) && Computes(op) && m.lift && ideal.lift
    ensures Congruent(Operate(m, op), Operate(ideal, op), w)
  {
    var x, y, x', y' := m.stk[0], m.stk[1], ideal.stk[0], ideal.stk[1];
    assert Same(x, x', Pow2(w)) && Same(y, y', Pow2(w));
    match op
    case Add => SameRing(y, y', x, x', Pow2(w)); TwoCongruent(m, ideal, w, y + x, y' + x');
    case Sub => SameRing(y, y', x, x', Pow2(w)); TwoCongruent(m, ideal, w, y - x, y' - x');
    case Mul => SameRing(y, y', x, x', Pow2(w)); TwoCongruent(m, ideal, w, y * x, y' * x');
    case And => BitwiseMod(false, y, x, y', x', w); TwoCongruent(m, ideal, w, Bitwise(false, y, x), Bitwise(false, y', x'));
    case Or => BitwiseMod(true, y, x, y', x', w); TwoCongruent(m, ideal, w, Bitwise(true, y, x), Bitwise(true, y', x'));
    case ShiftLeft =>
      SameRing(x, x', x, x', Pow2(w));
      SaveCongruent(m, ideal, w);
      DropCongruent(m.(lstX := x), ideal.(lstX := x'), w);
      LiftCongruent(Dropped(m.(lstX := x)), Dropped(ideal.(lstX := x')), w, 2 * x, 2 * x');
  }

  lemma MovesCongruent(m: Machine, ideal: Machine, w: nat, op: Op)
    requires Congruent(m, ideal, w) && Modular(op) && !Computes(op) && !op.Enter? && m.lift && ideal.lift
    ensures Congruent(Operate(m, op), Operate(ideal, op), w)
  {
    var saved, saved' := m.(lstX := m.stk[0]), ideal.(lstX := ideal.stk[0]);
    SaveCongruent(m, ideal, w);
    assert Same(m.stk[0], ideal.stk[0], Pow2(w)) && Same(m.stk[1], ideal.stk[1], Pow2(w));
    assert Same(m.stk[2], ideal.stk[2], Pow2(w)) && Same(m.stk[3], ideal.stk[3], Pow2(w));
    match op
    case GetT => SetXCongruent(saved, saved', w, m.stk[3], ideal.stk[3]);
    case GetZ => SetXCongruent(saved, saved', w, m.stk[2], ideal.stk[2]);
    case GetY => SetXCongruent(saved, saved', w, m.stk[1], ideal.stk[1]);
    case LastX => LiftCongruent(m, ideal, w, m.lstX, ideal.lstX);
    case Recall(n) => if n < REGCNT { assert Same(m.reg[n], ideal.reg[n], Pow2(w)); LiftCongruent(saved, saved', w, m.reg[n], ideal.reg[n]); }
    case ExchangeXY => SameTwice(m.stk[1], ideal.stk[1], Pow2(w));
    case _ =>
  }

  lemma StepCongruent(m: Machine, ideal: Machine, w: nat, op: Op)
    requires Congruent(m, ideal, w) && Modular(op)
    ensures Congruent(Step(m, op), Step(ideal, op), w)
  {
    var on, on' := m.(lift := true), ideal.(lift := true);
    if op.Enter? {
      LiftCongruent(m, ideal, w, op.v, op.v);
    } else if Computes(op) {
      ComputesCongruent(on, on', w, op);
    } else {
      MovesCongruent(on, on', w, op);
    }
  }

  /**
    A straight-line program without division, right shift and word-size change computes at word
    size w, in every stack entry, the unbounded result modulo 2^w.
  */
  lemma {:induction false} RunCongruent(m: Machine, ideal: Machine, w: nat, ops: seq<Op>)
    requires Congruent(m, ideal, w) && StackFits(m) && forall i :: 0 <= i < |ops| ==> Modular(ops[i])
    ensures Congruent(Run(m, ops), Run(ideal, ops), w)
    ensures forall i :: 0 <= i < STKCNT ==> Run(m, ops).stk[i] == Run(ideal, ops).stk[i] % Pow2(w)
    decreases |ops|
  {
    if ops == [] {
      forall i | 0 <= i < STKCNT ensures m.stk[i] == ideal.stk[i] % Pow2(w) {
        assert Same(m.stk[i], ideal.stk[i], Pow2(w));
        ModUnique(m.stk[i], Pow2(w), 0, m.stk[i]);
      }
    } else {
      StepCongruent(m, ideal, w, ops[0]);
      StepFits(m, ops[0]);
      RunCongruent(Step(m, ops[0]), Step(ideal, ops[0]), w, ops[1..]);
    }
  }

  // ---------------------------------------------------------------- the firmware's statics

  lemma PowersKnown()
    ensures Pow2(8) == 0x100 && Pow2(16) == 0x1_0000 && Pow2(32) == WORD
  {
    assert Pow2(4) == 0x10 && Pow2(8) == 0x100 && Pow2(12) == 0x1000 && Pow2(16) == 0x1_0000;
    assert Pow2(20) == 0x10_0000 && Pow2(24) == 0x100_0000 && Pow2(28) == 0x1000_0000;
  }

  lemma ModulusIsPower(size: RepSize)
    ensures Modulus(size) == Pow2(Bits(size))
  {
    PowersKnown();
  }

  /** The same for the word sizes of the calculator. */
  lemma SizedRunCongruent(m: Machine, ideal: Machine, size: RepSize, ops: seq<Op>)
    requires Congruent(m, ideal, Bits(size)) && StackFits(m) && forall i :: 0 <= i < |ops| ==> Modular(ops[i])
    ensures m.modulus == Modulus(size)
    ensures forall i :: 0 <= i < STKCNT ==> Run(m, ops).stk[i] == Run(ideal, ops).stk[i] % Modulus(size)
  {
    ModulusIsPower(size);
    RunCongruent(m, ideal, Bits(size), ops);
  }

  /** `&` and `|` on 32-bit words. */
  function BitwiseWord(or: bool, a: Uint32, b: Uint32): Uint32 {
    PowersKnown();
    BitwiseRange(or, a, b, 32);
    Bitwise(or, a, b)
  }

  lemma {:induction false} WordModSize(v: int, size: RepSize)
    ensures (v % WORD) % Modulus(size) == v % Modulus(size)
  {
    var p := Modulus(size);
    var n := WORD / p;
    assert WORD == n * p;
    assert v == v % WORD + (v / WORD) * (n * p);
    assert (v / WORD) * (n * p) == ((v / WORD) * n) * p;
    SameShift(v % WORD, (v / WORD) * n, p);
  }

  /** What the value provider makes of a word. */
  datatype Entry = Number(v: Uint32) | NotANumber

  datatype Reading = Op(op: Op) | Bad

  /** The operator table, in its order.  The store into register 0 has the name of the recall. */
  function Listed(i: nat): (string, Op)
    requires i < 45
  {
    match i
    case 0 => ("+", Add)
    case 1 => ("-", Sub)
    case 2 => ("*", Mul)
    case 3 => ("/", Div)
    case 4 => ("&", And)
    case 5 => ("|", Or)
    case 6 => (".and", And)
    case 7 => (".clr", Clear)
    case 8 => (".clx", ClearX)
    case 9 => (".bin", Show)
    case 10 => (".dab", Show)
    case 11 => (".lx", LastX)
    case 12 => (".or", Or)
    case 13 => (".r0", Recall(0))
    case 14 => (".r1", Recall(1))
    case 15 => (".r2", Recall(2))
    case 16 => (".r3", Recall(3))
    case 17 => (".r4", Recall(4))
    case 18 => (".r5", Recall(5))
    case 19 => (".r6", Recall(6))
    case 20 => (".r7", Recall(7))
    case 21 => (".r8", Recall(8))
    case 22 => (".r9", Recall(9))
    case 23 => (".rd", RollDown)
    case 24 => (".ru", RollUp)
    case 25 => (".r0", Store(0))
    case 26 => (".s1", Store(1))
    case 27 => (".s2", Store(2))
    case 28 => (".s3", Store(3))
    case 29 => (".s4", Store(4))
    case 30 => (".s5", Store(5))
    case 31 => (".s6", Store(6))
    case 32 => (".s7", Store(7))
    case 33 => (".s8", Store(8))
    case 34 => (".s9", Store(9))
    case 35 => (".sl", ShiftLeft)
    case 36 => (".sr", ShiftRight)
    case 37 => (".stk", Show)
    case 38 => (".t", GetT)
    case 39 => (".wsz", WordSize)
    case 40 => (".xy", ExchangeXY)
    case 41 => (".x", Show)
    case 42 => (".y", GetY)
    case 43 => (".z", GetZ)
    case _ => ("ops", Show)
  }

  const OPS: OpTable := seq(45, i requires 0 <= i < 45 => Listed(i))

  function Lower(c: char): char { if 'A' <= c <= 'Z' then c + 32 as char else c }

  predicate SameWord(a: string, b: string) { |a| == |b| && forall i :: 0 <= i < |a| ==> Lower(a[i]) == Lower(b[i]) }

  type OpTable = seq<(string, Op)>

  /** The operation a word names: the first entry with that name, whatever its case. */
  function Lookup(word: string, table: OpTable): Reading {
    if table == [] then Bad
    else if SameWord(word, table[0].0) then Op(table[0].1)
    else Lookup(word, table[1..])
  }

  /** The operations a table may list. */
  predicate Listable(op: Op) { !op.Enter? && (op.Recall? || op.Store? ==> op.n < REGCNT) }

  predicate GoodTable(table: OpTable) { forall i :: 0 <= i < |table| ==> Listable(table[i].1) }

  lemma OpsListable()
    ensures GoodTable(OPS)
  {
    forall i | 0 <= i < |OPS| ensures Listable(OPS[i].1) {
      assert OPS[i] == Listed(i);
    }
  }

  /** A lookup yields the first entry of that name. */
  lemma {:induction false} LookupFirst(word: string, table: OpTable) returns (i: nat)
    requires Lookup(word, table).Op?
    ensures i < |table| && Lookup(word, table) == Op(table[i].1) && SameWord(word, table[i].0)
    ensures forall j :: 0 <= j < i ==> !SameWord(word, table[j].0)
    decreases |table|
  {
    if SameWord(word, table[0].0) {
      i := 0;
    } else {
      var k := LookupFirst(word, table[1..]);
      i := k + 1;
      forall j | 0 <= j < i ensures !SameWord(word, table[j].0) {
        if j > 0 { assert table[1..][j - 1] == table[j]; }
      }
    }
  }

  // ---------------------------------------------------------------- the names of the operations

  function Digit(n: nat): char
    requires n < 10
  {
    '0' + n as char
  }

  /** The names each operation goes by.  The store into register 0 has none, its entry having the name of
      the recall. */
  function Names(op: Op): seq<string> {
    match op
    case Enter(_) => []
    case Add => ["+"]
    case Sub => ["-"]
    case Mul => ["*"]
    case Div => ["/"]
    case And => ["&", ".and"]
    case Or => ["|", ".or"]
    case ShiftLeft => [".sl"]
    case ShiftRight => [".sr"]
    case ExchangeXY => [".xy"]
    case GetT => [".t"]
    case GetZ => [".z"]
    case GetY => [".y"]
    case LastX => [".lx"]
    case Recall(n) => if n < REGCNT then [['.', 'r', Digit(n)]] else []
    case Store(n) => if 0 < n < REGCNT then [['.', 's', Digit(n)]] else []
    case RollDown => [".rd"]
    case RollUp => [".ru"]
    case Clear => [".clr"]
    case ClearX => [".clx"]
    case WordSize => [".wsz"]
    case Show => [".bin", ".dab", ".stk", ".x", "ops"]
  }

  ghost predicate Spells(word: string, op: Op) {
    exists k :: 0 <= k < |Names(op)| && SameWord(word, Names(op)[k])
  }

  /** The row of the operator table that the characters of a name tell. */
  function RowNamed(s: string): nat {
    if |s| == 1 then
      match s[0] case '+' => 0 case '-' => 1 case '*' => 2 case '/' => 3 case '&' => 4 case _ => 5
    else if |s| == 2 then
      match s[1] case 't' => 38 case 'x' => 41 case 'y' => 42 case _ => 43
    else if |s| == 3 then
      match s[1]
      case 'r' => if s[2] == 'd' then 23 else if s[2] == 'u' then 24 else RowOfDigit(s[2], 13)
      case 's' => if s[2] == 'l' then 35 else if s[2] == 'r' then 36 else RowOfDigit(s[2], 25)
      case 'l' => 11
      case 'o' => 12
      case 'x' => 40
      case _ => 44
    else if |s| == 4 then
      match s[1]
      case 'a' => 6
      case 'c' => if s[3] == 'r' then 7 else 8
      case 'b' => 9
      case 'd' => 10
      case 's' => 37
      case _ => 39
    else 0
  }

  function RowOfDigit(c: char, base: nat): nat { if '0' <= c <= '9' then base + (c - '0') as nat else 0 }

  predicate AllLower(s: string) { forall i :: 0 <= i < |s| ==> Lower(s[i]) == s[i] }

  lemma LowRowNamed(i: nat)
    requires i < 25
    ensures RowNamed(Listed(i).0) == i && AllLower(Listed(i).0)
  { }

  lemma HighRowNamed(i: nat)
    requires 25 <= i < 45
    ensures RowNamed(Listed(i).0) == (if i == 25 then 13 else i) && AllLower(Listed(i).0)
  { }

  predicate NameOfRow(i: nat, k: nat)
    requires i < 45
  {
    k < |Names(Listed(i).1)| && Listed(i).0 == Names(Listed(i).1)[k]
  }

  lemma SignRow(i: nat) returns (k: nat)
    requires i < 13
    ensures NameOfRow(i, k)
  {
    k := match i case 6 => 1 case 10 => 1 case 12 => 1 case _ => 0;
  }

  lemma RecallRow(i: nat)
    requires 13 <= i < 25
    ensures NameOfRow(i, 0)
  { }

  lemma StoreRow(i: nat)
    requires 26 <= i < 35
    ensures NameOfRow(i, 0)
  { }

  lemma OtherRow(i: nat) returns (k: nat)
    requires 35 <= i < 45
    ensures NameOfRow(i, k)
  {
    k := match i case 37 => 2 case 41 => 3 case 44 => 4 case _ => 0;
  }

  /** Every row but the store into register 0 has one of its operation's names. */
  lemma RowHasName(i: nat) returns (k: nat)
    requires i < 45 && i != 25
    ensures NameOfRow(i, k)
  {
    if i < 13 {
      k := SignRow(i);
    } else if i < 25 {
      RecallRow(i);
      k := 0;
    } else if i < 35 {
      StoreRow(i);
      k := 0;
    } else {
      k := OtherRow(i);
    }
  }

  /** Every name of an operation has a row. */
  lemma NameHasRow(op: Op, k: nat)
    requires k < |Names(op)|
    ensures var i := RowNamed(Names(op)[k]); i < 45 && i != 25 && Listed(i) == (Names(op)[k], op)
  {
    if op.Recall? || op.Store? { RegisterHasRow(op, k); } else { PlainHasRow(op, k); }
  }

  lemma RegisterHasRow(op: Op, k: nat)
    requires k < |Names(op)| && (op.Recall? || op.Store?)
    ensures var i := RowNamed(Names(op)[k]); i < 45 && i != 25 && Listed(i) == (Names(op)[k], op)
  { }

  lemma PlainHasRow(op: Op, k: nat)
    requires k < |Names(op)| && !op.Recall? && !op.Store?
    ensures var i := RowNamed(Names(op)[k]); i < 45 && i != 25 && Listed(i) == (Names(op)[k], op)
  { }

  lemma {:induction false} LookupFinds(word: string, table: OpTable, i: nat)
    requires i < |table| && SameWord(word, table[i].0)
    ensures Lookup(word, table).Op?
    decreases |table|
  {
    if !SameWord(word, table[0].0) {
      assert table[1..][i - 1] == table[i];
      LookupFinds(word, table[1..], i - 1);
    }
  }

  lemma SameLower(word: string, a: string, b: string)
    requires SameWord(word, a) && SameWord(word, b) && AllLower(a) && AllLower(b)
    ensures a == b
  {
    forall i | 0 <= i < |a| ensures a[i] == b[i] {
      assert Lower(word[i]) == Lower(a[i]) == a[i] && Lower(word[i]) == Lower(b[i]) == b[i];
    }
  }

  lemma RowNamedAt(i: nat)
    requires i < 45
    ensures OPS[i] == Listed(i) && RowNamed(Listed(i).0) == (if i == 25 then 13 else i) && AllLower(Listed(i).0)
  {
    if i < 25 { LowRowNamed(i); } else { HighRowNamed(i); }
  }

  /** Row 25 is never the first of its name. */
  lemma FirstRow(word: string) returns (i: nat)
    requires Lookup(word, OPS).Op?
    ensures i < 45 && i != 25 && Lookup(word, OPS) == Op(Listed(i).1) && SameWord(word, Listed(i).0)
  {
    i := LookupFirst(word, OPS);
    RowNamedAt(i);
    RowNamedAt(13);
    assert Listed(25).0 == Listed(13).0;
  }

  /** A word calls an operation exactly when it spells one of the names of it. */
  lemma OperationsAreNamed(word: string, op: Op)
    ensures Lookup(word, OPS) == Op(op) <==> Spells(word, op)
  {
    if Lookup(word, OPS) == Op(op) {
      var i := FirstRow(word);
      var k := RowHasName(i);
      assert SameWord(word, Names(op)[k]);
    }
    if Spells(word, op) {
      var k :| 0 <= k < |Names(op)| && SameWord(word, Names(op)[k]);
      NameHasRow(op, k);
      var r := RowNamed(Names(op)[k]);
      RowNamedAt(r);
      LookupFinds(word, OPS, r);
      var i := FirstRow(word);
      RowNamedAt(i);
      SameLower(word, Listed(i).0, Listed(r).0);
    }
  }

  /** What starts with a digit spells no operation. */
  lemma NumeralSpellsNone(word: string, op: Op)
    requires word != "" && '0' <= word[0] <= '9'
    ensures !Spells(word, op)
  {
    if Spells(word, op) {
      OperationsAreNamed(word, op);
      var i := FirstRow(word);
      SameFirst(word, Listed(i).0);
      NoDigitFirst(i);
    }
  }

  lemma SameFirst(a: string, b: string)
    requires a != "" && SameWord(a, b)
    ensures Lower(a[0]) == Lower(b[0])
  { }

  lemma NoDigitFirst(i: nat)
    requires i < 45
    ensures Listed(i).0 != "" && Listed(i).0[0] in {'+', '-', '*', '/', '&', '|', '.', 'o'}
  { }

  /** No word stores into register 0. */
  lemma StoreZeroUnreachable(word: string)
    ensures Lookup(word, OPS) != Op(Store(0))
  {
    OperationsAreNamed(word, Store(0));
  }

  function Read(word: string, table: OpTable, value: string -> Entry): Reading {
    match Lookup(word, table)
    case Op(op) => Op(op)
    case Bad => match value(word)
                case Number(v) => Op(Enter(v))
                case NotANumber => Bad
  }

  /** The operations up to the first word that is neither an operation nor a value. */
  function Program(args: seq<string>, table: OpTable, value: string -> Entry): seq<Op> {
    if args == [] then []
    else match Read(args[0], table, value)
         case Op(op) => [op] + Program(args[1..], table, value)
         case Bad => []
  }

  /** The word is one for the operation, or one that has the value to enter. */
  ghost predicate TypedAs(word: string, op: Op, value: string -> Entry) {
    if op.Enter? then value(word) == Number(op.v) && Lookup(word, OPS).Bad? else Spells(word, op)
  }

  ghost predicate Typed(words: seq<string>, ops: seq<Op>, value: string -> Entry) {
    |words| == |ops| && forall i :: 0 <= i < |ops| ==> TypedAs(words[i], ops[i], value)
  }

  lemma TypedWord(word: string, op: Op, value: string -> Entry)
    requires TypedAs(word, op, value)
    ensures Read(word, OPS, value) == Op(op)
  {
    OperationsAreNamed(word, op);
  }

  lemma {:induction false} TypedProgram(words: seq<string>, ops: seq<Op>, value: string -> Entry)
    requires Typed(words, ops, value)
    ensures Program(words, OPS, value) == ops
    decreases |ops|
  {
    if ops == [] {
    } else {
      TypedWord(words[0], ops[0], value);
      forall i | 0 <= i < |ops[1..]| ensures TypedAs(words[1..][i], ops[1..][i], value) {
        assert TypedAs(words[i + 1], ops[i + 1], value);
      }
      TypedProgram(words[1..], ops[1..], value);
    }
  }

  /** A word that is neither stops the line: what stands before it has been done, the rest is ignored. */
  lemma {:induction false} StopsAtBadWord(words: seq<string>, ops: seq<Op>, rest: seq<string>, value: string -> Entry)
    requires Typed(words, ops, value) && rest != [] && Read(rest[0], OPS, value).Bad?
    ensures Program(words + rest, OPS, value) == ops
    decreases |ops|
  {
    var all := words + rest;
    if ops == [] {
      assert all == rest;
    } else {
      TypedWord(words[0], ops[0], value);
      forall i | 0 <= i < |ops[1..]| ensures TypedAs(words[1..][i], ops[1..][i], value) {
        assert TypedAs(words[i + 1], ops[i + 1], value);
      }
      StopsAtBadWord(words[1..], ops[1..], rest, value);
      assert all[1..] == words[1..] + rest;
    }
  }

  /**
    An expression typed in postfix form, with any words for its values and any of the names of its
    operations, in any case of letters: the line leaves its value in X and what was on top of the
    stack just below.
  */
  lemma TypedEvaluates(m: Machine, e: Expr, words: seq<string>, value: string -> Entry)
    requires Typed(words, Postfix(e), value)
    requires WellSized(m) && m.lift && Proper(e) && Need(e) <= STKCNT && Divides(e, m.modulus)
    ensures Pushed(m, Run(m, Program(words, OPS, value)), Need(e), Value(e, m.modulus))
  {
    TypedProgram(words, Postfix(e), value);
    PostfixEvaluates(m, e);
  }

  lemma {:induction false} PostfixHasWords(e: Expr)
    ensures Postfix(e) != []
  {
    match e
    case Lit(_) =>
    case Binary(_, _, _) =>
    case Unary(_, _) =>
  }

  lemma TypedLine(m: Machine, e: Expr, words: seq<string>, value: string -> Entry)
    requires Typed(words, Postfix(e), value)
    requires WellSized(m) && m.lift && Proper(e) && Need(e) <= STKCNT && Divides(e, m.modulus)
    ensures words != [] && forall i :: 0 <= i < |words| ==> Read(words[i], OPS, value).Op?
    ensures Pushed(m, Run(m, Program(words, OPS, value)), Need(e), Value(e, m.modulus))
  {
    TypedEvaluates(m, e, words, value);
    PostfixHasWords(e);
    forall i | 0 <= i < |words| ensures Read(words[i], OPS, value).Op? {
      TypedWord(words[i], Postfix(e)[i], value);
    }
  }

  /** The statics of cmds.c.  `stk[3]` is X and `stk[0]` is T; `wmask` is all ones. */
  class Calculator {
    const stk: array<Uint32>
    const reg: array<Uint32>
    var lstX: Uint32
    var sliften: bool
    var wmask: Uint32
    var wsize: RepSize

    ghost predicate Valid()
      reads this
    {
      && stk.Length == STKCNT && reg.Length == REGCNT && stk != reg
      && wmask == Modulus(wsize) - 1
    }

    /** The stack with X first. */
    ghost function Levels(): (s: seq<int>)
      requires stk.Length == STKCNT
      reads stk
      ensures |s| == STKCNT
    {
      [stk[3], stk[2], stk[1], stk[0]]
    }

    ghost function State(): (m: Machine)
      requires Valid()
      reads this, stk, reg
      ensures WellSized(m)
    {
      Machine(Levels(), lstX, reg[..], sliften, wmask + 1)
    }

    /** `calccmds_modinit` */
    constructor ()
      ensures Valid() && fresh(stk) && fresh(reg) && State() == POWER_ON
    {
      stk := new Uint32[STKCNT](_ => 0);
      reg := new Uint32[REGCNT](_ => 0);
      lstX, sliften, wmask, wsize := 0, false, 0xFFFF_FFFF, Unlimited;
      new;
      assert reg[..] == POWER_ON.reg;
    }

    /** `_ensl` */
    method Ensl(e: bool)
      requires Valid()
      modifies this`sliften
      ensures Valid() && State() == old(State()).(lift := e)
    {
      sliften := e;
    }

    /** `_saveX` */
    method SaveX()
      requires Valid()
      modifies this`lstX
      ensures Valid() && State() == old(State()).(lstX := old(State()).stk[0])
    {
      lstX := stk[3];
    }

    lemma MaskMeans(v: Uint32)
      requires Valid()
      ensures BitwiseWord(false, v, wmask) == v % (wmask + 1)
    {
      ModulusIsPower(wsize);
      MaskIsRemainder(v, Bits(wsize));
    }

    /** `_setX` */
    method SetX(v: Uint32)
      requires Valid()
      modifies stk
      ensures Valid() && State() == WithX(old(State()), v)
      ensures stk[3] == v % (wmask + 1) && stk[..3] == old(stk[..3])
    {
      MaskMeans(v);
      stk[3] := BitwiseWord(false, v, wmask);
    }

    /** `_drop` */
    method Drop() returns (v: Uint32)
      requires Valid()
      modifies stk
      ensures Valid() && State() == Dropped(old(State())) && v == old(State()).stk[0]
    {
      v := stk[3];
      stk[3] := stk[2];
      stk[2] := stk[1];
      stk[1] := stk[0];
    }

    /** `_lift` */
    method Lift(v: Uint32)
      requires Valid()
      modifies stk
      ensures Valid() && State() == Lifted(old(State()), v)
    {
      if sliften {
        stk[0] := stk[1];
        stk[1] := stk[2];
        stk[2] := stk[3];
      }
      SetX(v);
    }

    /** The frame that the two-operand operations share; `v` is computed modulo 2^32. */
    lemma WordsSuffice(m: Machine, v: int)
      requires Valid() && WellSized(m) && m.modulus == wmask + 1
      ensures Lifted(m, v % WORD) == Lifted(m, v)
    {
      WordModSize(v, wsize);
    }

    /** How the two-operand operations begin. */
    method TakeTwo() returns (y: Uint32, x: Uint32)
      requires Valid()
      modifies stk, this`lstX
      ensures Valid() && x == old(State()).stk[0] && y == old(State()).stk[1]
      ensures State() == Dropped(Dropped(old(State()).(lstX := x)))
    {
      SaveX();
      x := Drop();
      y := Drop();
    }

    /** `_op_add` */
    method OpAdd()
      requires Valid()
      modifies stk, this`lstX
      ensures Valid() && State() == Operate(old(State()), Add)
    {
      var y, x := TakeTwo();
      WordsSuffice(State(), y + x);
      Lift((y + x) % WORD);
    }

    /** `_op_sub` */
    method OpSub()
      requires Valid()
      modifies stk, this`lstX
      ensures Valid() && State() == Operate(old(State()), Sub)
    {
      var y, x := TakeTwo();
      WordsSuffice(State(), y - x);
      Lift((y - x) % WORD);
    }

    /** `_op_mul` */
    method OpMul()
      requires Valid()
      modifies stk, this`lstX
      ensures Valid() && State() == Operate(old(State()), Mul)
    {
      var y, x := TakeTwo();
      WordsSuffice(State(), y * x);
      Lift((y * x) % WORD);
    }

    /** `_op_div`; both operands are gone when the divisor is zero. */
    method OpDiv() returns (done: bool)
      requires Valid()
      modifies stk, this`lstX
      ensures Valid() && State() == Operate(old(State()), Div) && (done <==> old(stk[3]) != 0)
    {
      var y, x := TakeTwo();
      if x == 0 { return false; }
      Lift(y / x);
      return true;
    }

    /** `_op_and` */
    method OpAnd()
      requires Valid()
      modifies stk, this`lstX
      ensures Valid() && State() == Operate(old(State()), And)
    {
      var y, x := TakeTwo();
      Lift(BitwiseWord(false, y, x));
    }

    /** `_op_or` */
    method OpOr()
      requires Valid()
      modifies stk, this`lstX
      ensures Valid() && State() == Operate(old(State()), Or)
    {
      var y, x := TakeTwo();
      Lift(BitwiseWord(true, y, x));
    }

    /** `_op_sl` */
    method OpSl()
      requires Valid()
      modifies stk, this`lstX
      ensures Valid() && State() == Operate(old(State()), ShiftLeft)
    {
      SaveX();
      var x := Drop();
      WordsSuffice(State(), 2 * x);
      Lift((2 * x) % WORD);
    }

    /** `_op_sr` */
    method OpSr()
      requires Valid()
      modifies stk, this`lstX
      ensures Valid() && State() == Operate(old(State()), ShiftRight)
    {
      SaveX();
      var x := Drop();
      Lift(x / 2);
    }

    /** `_op_exy` */
    method OpExy()
      requires Valid()
      modifies stk
      ensures Valid() && State() == Operate(old(State()), ExchangeXY)
    {
      var x := stk[3];
      SetX(stk[2]);
      assert stk[..3][0] == old(stk[0]) && stk[..3][1] == old(stk[1]);
      stk[2] := x;
    }

    /** `_op_getT`, `_op_getZ` and `_op_getY`: the level at index 0, 1 or 2. */
    method OpGet(level: nat)
      requires Valid() && level < 3
      modifies stk, this`lstX
      ensures Valid() && State() == Operate(old(State()), if level == 0 then GetT else if level == 1 then GetZ else GetY)
    {
      SaveX();
      SetX(stk[level]);
    }

    /** `_op_lstx` */
    method OpLstx()
      requires Valid()
      modifies stk
      ensures Valid() && State() == Operate(old(State()), LastX)
    {
      Lift(lstX);
    }

    /** `_op_r0` to `_op_r9` */
    method OpRecall(n: nat)
      requires Valid() && n < REGCNT
      modifies stk, this`lstX
      ensures Valid() && State() == Operate(old(State()), Recall(n))
    {
      SaveX();
      Lift(reg[n]);
    }

    /** `_op_s0` to `_op_s9` */
    method OpStore(n: nat)
      requires Valid() && n < REGCNT
      modifies reg
      ensures Valid() && State() == Operate(old(State()), Store(n))
    {
      reg[n] := stk[3];
      assert reg[..] == old(reg[..])[n := stk[3]];
    }

    /** `_op_rolldn` */
    method OpRolldn()
      requires Valid()
      modifies stk
      ensures Valid() && State() == Operate(old(State()), RollDown)
    {
      var t := stk[0];
      stk[0] := stk[3];
      stk[3] := stk[2];
      stk[2] := stk[1];
      stk[1] := t;
    }

    /** `_op_rollup` */
    method OpRollup()
      requires Valid()
      modifies stk
      ensures Valid() && State() == Operate(old(State()), RollUp)
    {
      var x := stk[3];
      stk[3] := stk[0];
      stk[0] := stk[1];
      stk[1] := stk[2];
      stk[2] := x;
    }

    /** `_op_clr` */
    method OpClr()
      requires Valid()
      modifies stk, reg, this`lstX, this`sliften
      ensures Valid() && State() == Operate(old(State()), Clear)
    {
      lstX := 0;
      stk[3], stk[2], stk[1], stk[0] := 0, 0, 0, 0;
      for i := 0 to REGCNT
        invariant forall j :: 0 <= j < i ==> reg[j] == 0
        invariant Levels() == [0, 0, 0, 0] && lstX == 0
      {
        reg[i] := 0;
      }
      assert reg[..] == seq(REGCNT, _ => 0);
      assert State() == Machine([0, 0, 0, 0], 0, seq(REGCNT, _ => 0), sliften, wmask + 1);
      Ensl(false);
    }

    /** `_op_clrx` */
    method OpClrx()
      requires Valid()
      modifies stk, this`sliften
      ensures Valid() && State() == Operate(old(State()), ClearX)
    {
      stk[3] := 0;
      Ensl(false);
    }

    /** The switch in `_op_wsize`. */
    method ChooseSize(b: int)
      requires Valid() && 0 <= b < 256
      modifies this`wmask, this`wsize
      ensures Valid() && wsize == SizeFor(b)
    {
      var sz := if b >= 32 then 32 else if b >= 16 then 16 else if b >= 8 then 8 else if b > 0 then 8 else 0;
      if sz == 32 {
        wmask, wsize := 0xFFFF_FFFF, DWord;
      } else if sz == 16 {
        wmask, wsize := 0xFFFF, Word;
      } else if sz == 8 {
        wmask, wsize := 0xFF, Byte;
      } else {
        wmask, wsize := 0xFFFF_FFFF, Unlimited;
      }
    }

    /** The masking in `_op_wsize`. */
    method MaskLevels()
      requires Valid()
      modifies stk
      ensures Levels() == old([stk[3] % (wmask + 1), stk[2] % (wmask + 1), stk[1] % (wmask + 1), stk[0] % (wmask + 1)])
    {
      SetX(stk[3]);
      assert stk[..3][0] == old(stk[0]) && stk[..3][1] == old(stk[1]) && stk[..3][2] == old(stk[2]);
      MaskMeans(stk[2]);
      MaskMeans(stk[1]);
      MaskMeans(stk[0]);
      stk[2] := BitwiseWord(false, stk[2], wmask);
      stk[1] := BitwiseWord(false, stk[1], wmask);
      stk[0] := BitwiseWord(false, stk[0], wmask);
    }

    /** `_op_wsize` */
    method OpWsize()
      requires Valid()
      modifies stk, this`lstX, this`wmask, this`wsize
      ensures Valid() && State() == Operate(old(State()), WordSize)
    {
      ghost var m := State();
      SaveX();
      ChooseSize(stk[3] % 256);
      MaskLevels();
      assert wmask + 1 == Modulus(SizeFor(m.stk[0]));
    }

    /** Calls the function of an operation, as `_exec_calc` does after enabling the lift. */
    method Apply(op: Op)
      requires Valid() && !op.Enter? && (op.Recall? || op.Store? ==> op.n < REGCNT)
      modifies this, stk, reg
      ensures Valid() && State() == Step(old(State()), op)
    {
      Ensl(true);
      match op
      case Add => OpAdd();
      case Sub => OpSub();
      case Mul => OpMul();
      case Div => var done := OpDiv();
      case And => OpAnd();
      case Or => OpOr();
      case ShiftLeft => OpSl();
      case ShiftRight => OpSr();
      case ExchangeXY => OpExy();
      case GetT => OpGet(0);
      case GetZ => OpGet(1);
      case GetY => OpGet(2);
      case LastX => OpLstx();
      case Recall(n) => OpRecall(n);
      case Store(n) => OpStore(n);
      case RollDown => OpRolldn();
      case RollUp => OpRollup();
      case Clear => OpClr();
      case ClearX => OpClrx();
      case WordSize => OpWsize();
      case Show =>
    }

    /** `_getopfn` */
    method GetOpFn(word: string, table: OpTable) returns (r: Reading)
      ensures r == Lookup(word, table)
    {
      var i := 0;
      assert table[0..] == table;
      while i < |table|
        invariant i <= |table| && Lookup(word, table) == Lookup(word, table[i..])
      {
        assert table[i..][1..] == table[i + 1..];
        if SameWord(word, table[i].0) { return Op(table[i].1); }
        i := i + 1;
      }
      return Bad;
    }

    /** One round of the loop in `_exec_calc`. */
    method ExecWord(word: string, table: OpTable, value: string -> Entry) returns (r: Reading)
      requires Valid() && GoodTable(table)
      modifies this, stk, reg
      ensures Valid() && r == Read(word, table, value)
      ensures State() == if r.Op? then Step(old(State()), r.op) else old(State())
    {
      r := GetOpFn(word, table);
      if r.Op? {
        ghost var at := LookupFirst(word, table);
        Apply(r.op);
      } else {
        match value(word) {
          case NotANumber =>
          case Number(v) =>
            Lift(v);
            Ensl(true);
            r := Op(Enter(v));
        }
      }
    }

    /**
      `_exec_calc`: takes the words in turn, as an operation if the table has it and as a value
      otherwise, and stops at the first that is neither.  Without words it lifts X.
    */
    method ExecCalc(args: seq<string>, table: OpTable, value: string -> Entry) returns (valid: bool)
      requires Valid() && GoodTable(table)
      modifies this, stk, reg
      ensures Valid()
      ensures valid <==> forall i :: 0 <= i < |args| ==> Read(args[i], table, value).Op?
      ensures State() == if args == [] then Lifted(old(State()), old(State()).stk[0])
                         else Run(old(State()), Program(args, table, value))
    {
      if args == [] {
        Lift(stk[3]);
        return true;
      }
      ghost var m, program := State(), Program(args, table, value);
      var i := 0;
      assert args[0..] == args;
      while i < |args|
        invariant i <= |args| && Valid()
        invariant forall j :: 0 <= j < i ==> Read(args[j], table, value).Op?
        invariant Run(m, program) == Run(State(), Program(args[i..], table, value))
      {
        ghost var rest := Program(args[i + 1..], table, value);
        assert args[i..][1..] == args[i + 1..];
        var r := ExecWord(args[i], table, value);
        if r.Bad? { return false; }
        assert Program(args[i..], table, value) == [r.op] + rest && ([r.op] + rest)[1..] == rest;
        i := i + 1;
      }
      return true;
    }

    /** The same with the operators of the firmware; so a line that types an expression computes it. */
    method Exec(args: seq<string>, value: string -> Entry) returns (valid: bool)
      requires Valid()
      modifies this, stk, reg
      ensures Valid()
      ensures valid <==> forall i :: 0 <= i < |args| ==> Read(args[i], OPS, value).Op?
      ensures State() == if args == [] then Lifted(old(State()), old(State()).stk[0])
                         else Run(old(State()), Program(args, OPS, value))
      ensures forall e :: Typed(args, Postfix(e), value) && Proper(e) && Need(e) <= STKCNT
                          && old(sliften) && Divides(e, old(State()).modulus) ==>
                valid && Pushed(old(State()), State(), Need(e), Value(e, old(State()).modulus))
    {
      OpsListable();
      ghost var m := State();
      valid := ExecCalc(args, OPS, value);
      forall e | Typed(args, Postfix(e), value) && Proper(e) && Need(e) <= STKCNT && m.lift && Divides(e, m.modulus)
        ensures valid && Pushed(m, State(), Need(e), Value(e, m.modulus))
      {
        TypedLine(m, e, args, value);
      }
    }
  }
}

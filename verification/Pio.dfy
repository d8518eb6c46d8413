/** The bus interface: four PIO programs (src-rp/dbusc/generated/dbusc.pio.h), the interrupt handlers
    that feed them (src-rp/dbusc/dbusc.c) and the host, stepping in any order.
    Instruction meanings follow the RP2040 Datasheet, section 3.4. */
module Pio {

  type Byte = n: int | 0 <= n < 256

  type Word = n: int | 0 <= n < 0x1_0000_0000

  // ------------------------------------------------------------------
  // Programs

  datatype Op =
    | MovOsrX
    | MovOsrY
    | OutPindirs
    | WaitGpio12(high: bool)
    | WaitIrq(n: nat)      // completes only when the flag is set, and clears it
    | Irq(n: nat)          // sets the flag
    | IrqWait(n: nat)      // sets the flag, then stalls until somebody clears it
    | JmpPin(target: nat)
    | Jmp(target: nat)
    | JmpNotY(target: nat)
    | MovYStatus
    | OutPins8
    | InPins8

  /** Side-set of the WAIT pin; only db_modsel uses it. */
  datatype Side = NoSide | Side0 | Side1

  datatype Code = Code(op: Op, side: Side)

  datatype Sm = Modsel | CtrlData | CtrlPort | DataPort

  function Length(sm: Sm): nat {
    match sm
    case Modsel => 9
    case CtrlData => 5
    case CtrlPort => 8
    case DataPort => 9
  }

  function Fetch(sm: Sm, pc: nat): Code
    requires pc < Length(sm)
  {
    match sm
    case Modsel => (
      match pc
      case 0 => Code(MovOsrY, Side0)
      case 1 => Code(OutPindirs, NoSide)
      case 2 => Code(WaitGpio12(false), NoSide)
      case 3 => Code(JmpPin(6), NoSide)
      case 4 => Code(MovOsrX, NoSide)
      case 5 => Code(OutPindirs, NoSide)
      case 6 => Code(Irq(5), NoSide)
      case 7 => Code(WaitIrq(4), NoSide)
      case 8 => Code(WaitGpio12(true), Side1))
    case CtrlData => (
      match pc
      case 0 => Code(WaitIrq(5), NoSide)
      case 1 => Code(JmpPin(4), NoSide)
      case 2 => Code(Irq(6), NoSide)
      case 3 => Code(Jmp(0), NoSide)
      case 4 => Code(Irq(7), NoSide))
    case CtrlPort => (
      match pc
      case 0 => Code(WaitIrq(6), NoSide)
      case 1 => Code(JmpPin(5), NoSide)
      case 2 => Code(IrqWait(0), NoSide)
      case 3 => Code(OutPins8, NoSide)
      case 4 => Code(Jmp(7), NoSide)
      case 5 => Code(InPins8, NoSide)
      case 6 => Code(IrqWait(1), NoSide)
      case 7 => Code(Irq(4), NoSide))
    case DataPort => (
      match pc
      case 0 => Code(WaitIrq(7), NoSide)
      case 1 => Code(JmpPin(7), NoSide)
      case 2 => Code(MovYStatus, NoSide)
      case 3 => Code(JmpNotY(5), NoSide)
      case 4 => Code(IrqWait(2), NoSide)
      case 5 => Code(OutPins8, NoSide)
      case 6 => Code(Jmp(8), NoSide)
      case 7 => Code(InPins8, NoSide)
      case 8 => Code(Irq(4), NoSide))
  }

  // ------------------------------------------------------------------
  // State

  /** Scratch registers X and Y of db_modsel: pin directions with the data bus driven, and released. */
  const DIRS_OUT := 0x23FC
  const DIRS_IN := 0x2000

  /** GPIO 2..9 carry the data bus. */
  predicate BusDriven(dirs: nat) { (dirs / 4) % 256 == 0xFF }

  predicate BusReleased(dirs: nat) { (dirs / 4) % 256 == 0 }

  /** One host access: ADDR high selects the data port, RD high means the host writes. */
  datatype Access = Access(addr: bool, rd: bool)

  /** Where the CTRL interrupt handler stands: it has read the flags, and then serves IRQ 0,
      serves IRQ 1 and writes the collected clear mask, in that order. */
  datatype Handler =
    | NotRunning
    | Serve0(flag0: bool, flag1: bool)
    | Serve1(flag1: bool, clear0: bool)
    | WriteClear(clear0: bool, clear1: bool)

  /** Where cbus_value_write stands, once it has found IRQ 0 pending. */
  datatype Late = NoLate | LatePut(value: Byte) | LateClear

  /** The registers of the PIO block. */
  datatype Machine = Machine(
    pcM: nat, pcD: nat, pcC: nat, pcP: nat,   // db_modsel, db_ctrldata, db_ctrl_port, db_data_port
    osr: nat, dirs: nat,                       // db_modsel's OSR, pin directions
    stallC: bool, stallP: bool,                // an `irq wait` has set its flag and not yet seen it cleared
    y: bool,                                   // db_data_port's Y is nonzero
    irq: set<nat>,
    waitHigh: bool)                            // the WAIT pin is released

  /** The host's pins; `byte` is what it drives during a write. */
  datatype Host = Host(selected: bool, addr: bool, rd: bool, byte: Byte)

  /** db_ctrl_port's last output and its FIFOs; `tx` includes the OSR, and has of each word the eight
      bits that `out pins, 8` will take. */
  datatype Port = Port(latch: Byte, tx: seq<Byte>, rx: seq<Byte>)

  datatype Cpu = Cpu(handler: Handler, late: Late)

  /** What has happened so far.  `clean` records that neither of two things has: the data interrupt
      handler, which puts its byte in the CTRL port's FIFO, has run; the CTRL interrupt handler has
      supplied a byte while cbus_value_write was under way. */
  datatype History = History(
    accesses: seq<Access>, served: seq<Access>, // begun by the host; carried out by a port program
    hostWrites: seq<Byte>, posted: seq<Byte>,   // CTRL bytes the host wrote; MSG_DBUS_CTRL_WRITE values
    offered: seq<Supplied>,                     // bytes the CPU put to the CTRL port's FIFO
    supplied: seq<Supplied>, hostReads: seq<Byte>, // those of them that the FIFO accepted; bytes the host read
    loaded: seq<Byte>,                          // what db_ctrl_port puts out for each of them
    clean: bool)

  /** A byte the CPU supplied: the interrupt handlers store a byte in the FIFO register,
      cbus_value_write (`late`) a word. */
  datatype Supplied = Supplied(value: Byte, late: bool)

  datatype State = State(m: Machine, host: Host, port: Port, cpu: Cpu, h: History)

  function Pc(m: Machine, sm: Sm): nat {
    match sm
    case Modsel => m.pcM
    case CtrlData => m.pcD
    case CtrlPort => m.pcC
    case DataPort => m.pcP
  }

  function Goto(m: Machine, sm: Sm, pc: nat): Machine {
    match sm
    case Modsel => m.(pcM := pc)
    case CtrlData => m.(pcD := pc)
    case CtrlPort => m.(pcC := pc)
    case DataPort => m.(pcP := pc)
  }

  /** The next instruction; every program wraps from its last instruction to its first. */
  function Advance(m: Machine, sm: Sm): Machine {
    Goto(m, sm, if Pc(m, sm) + 1 == Length(sm) then 0 else Pc(m, sm) + 1)
  }

  /** The JMP pin each state machine is configured with. */
  function JmpLevel(h: Host, sm: Sm): bool {
    if sm == CtrlData then h.addr else h.rd
  }

  /** Four FIFO entries and the OSR. */
  const TX_DEPTH := 5

  const RX_DEPTH := 4

  /** The word a FIFO register receives: a byte store appears on all four byte lanes
      (RP2040 Datasheet, section 2.1.4). */
  function Stored(x: Supplied): Word {
    if x.late then x.value else x.value * 0x101_0101
  }

  /** The output shift register shifts left, so `out pins, 8` takes the top byte. */
  function TopByte(w: Word): Byte { w / 0x100_0000 }

  /** One issue of the current instruction. An instruction whose condition does not hold leaves the
      program counter alone (the machine stalls), though its side-set still acts.
      `choice` resolves what this model leaves open: the data port's FIFO level and readiness. */
  function Exec(s: State, sm: Sm, choice: bool): State
    requires Pc(s.m, sm) < Length(sm)
  {
    var code := Fetch(sm, Pc(s.m, sm));
    var m := SideSet(s.m, code.side);
    match code.op
    case OutPins8 => s.(m := if OutReady(s, sm, choice) then Advance(m, sm) else m, port := AfterOut(s, sm),
                        h := if OutReady(s, sm, choice) then Serve(s.h, Access(sm == DataPort, false)) else s.h)
    case InPins8 => s.(m := if InReady(s, sm, choice) then Advance(m, sm) else m, port := AfterIn(s, sm),
                       h := if InReady(s, sm, choice) then Serve(s.h, Access(sm == DataPort, true)) else s.h)
    case op => s.(m := Perform(m, s.host, sm, op, choice))
  }

  function SideSet(m: Machine, side: Side): Machine {
    match side
    case NoSide => m
    case Side0 => m.(waitHigh := false)
    case Side1 => m.(waitHigh := true)
  }

  /** The instructions that touch only the registers. */
  function Perform(m: Machine, host: Host, sm: Sm, op: Op, choice: bool): Machine
    requires !op.OutPins8? && !op.InPins8?
  {
    match op
    case MovOsrX => Advance(m.(osr := DIRS_OUT), sm)
    case MovOsrY => Advance(m.(osr := DIRS_IN), sm)
    case OutPindirs => Advance(m.(dirs := m.osr), sm)
    case WaitGpio12(high) => if high == !host.selected then Advance(m, sm) else m
    case WaitIrq(n) => if n in m.irq then Advance(m.(irq := m.irq - {n}), sm) else m
    case Irq(n) => Advance(m.(irq := m.irq + {n}), sm)
    case IrqWait(n) =>
      if !Stalled(m, sm) then SetStalled(m.(irq := m.irq + {n}), sm, true)
      else if n in m.irq then m
      else Advance(SetStalled(m, sm, false), sm)
    case JmpPin(target) => if JmpLevel(host, sm) then Goto(m, sm, target) else Advance(m, sm)
    case Jmp(target) => Goto(m, sm, target)
    case JmpNotY(target) => if !m.y then Goto(m, sm, target) else Advance(m, sm)
    case MovYStatus => Advance(m.(y := choice), sm)
  }

  function Stalled(m: Machine, sm: Sm): bool {
    if sm == CtrlPort then m.stallC else m.stallP
  }

  function SetStalled(m: Machine, sm: Sm, b: bool): Machine {
    if sm == CtrlPort then m.(stallC := b) else m.(stallP := b)
  }

  /** `out` needs a byte to shift out, `in` needs room to push. */
  predicate OutReady(s: State, sm: Sm, choice: bool) {
    if sm == CtrlPort then s.port.tx != [] else choice
  }

  predicate InReady(s: State, sm: Sm, choice: bool) {
    if sm == CtrlPort then |s.port.rx| < RX_DEPTH else choice
  }

  function AfterOut(s: State, sm: Sm): Port {
    if sm == CtrlPort && s.port.tx != [] then s.port.(latch := s.port.tx[0], tx := s.port.tx[1..]) else s.port
  }

  function AfterIn(s: State, sm: Sm): Port {
    if sm == CtrlPort && |s.port.rx| < RX_DEPTH then s.port.(rx := s.port.rx + [s.host.byte]) else s.port
  }

  function Serve(h: History, a: Access): History {
    h.(served := h.served + [a])
  }

  // ------------------------------------------------------------------
  // Events

  /** What the registered CTRL-read handler does: a value now (its own or the default), or later. */
  datatype Answer = Supply(value: Byte) | Tbd

  datatype Event =
    | Tick(sm: Sm, choice: bool)
    | HostBegin(access: Access, byte: Byte)
    | HostEnd
    | CtrlIrq                    // _irqp_ctrl_op_hdlr starts and reads the flags
    | CtrlRun(answer: Answer)    // its next stage
    | DataIrq(byte: Byte)        // _irqp_data_op_hdlr, whole
    | ValueWrite(value: Byte)    // cbus_value_write starts and tests IRQ 0
    | ValueRun                   // its next statement

  predicate Enabled(s: State, e: Event) {
    match e
    case Tick(sm, _) => Pc(s.m, sm) < Length(sm)
    // MODSEL stays high until db_modsel has seen it and asserted WAIT for the next access.
    case HostBegin(_, _) => !s.host.selected && !s.m.waitHigh
    // The host holds MODSEL, ADDR, RD and its data until WAIT is released.
    case HostEnd => s.host.selected && s.m.waitHigh
    case CtrlIrq => s.cpu.handler.NotRunning? && (0 in s.m.irq || 1 in s.m.irq)
    case CtrlRun(_) => !s.cpu.handler.NotRunning?
    case DataIrq(_) => 2 in s.m.irq
    case ValueWrite(_) => s.cpu.handler.NotRunning? && s.cpu.late.NoLate?
    case ValueRun => s.cpu.handler.NotRunning? && !s.cpu.late.NoLate?
  }

  /** The CPU puts a byte in db_ctrl_port's FIFO, which drops it when it is full. */
  function SupplyByte(s: State, x: Supplied): State {
    var h := s.h.(offered := s.h.offered + [x]);
    if |s.port.tx| >= TX_DEPTH then s.(h := h)
    else s.(port := s.port.(tx := s.port.tx + [TopByte(Stored(x))]),
            h := h.(supplied := s.h.supplied + [x], loaded := s.h.loaded + [TopByte(Stored(x))]))
  }

  /** The current stage of the CTRL interrupt handler. */
  function RunHandler(s: State, answer: Answer): State
    requires !s.cpu.handler.NotRunning?
  {
    match s.cpu.handler
    case Serve0(f0, f1) =>
      if f0 && answer.Supply? then
        var t := SupplyByte(s, Supplied(answer.value, false));
        t.(cpu := s.cpu.(handler := Serve1(f1, true)), h := t.h.(clean := s.h.clean && s.cpu.late.NoLate?))
      else s.(cpu := s.cpu.(handler := Serve1(f1, false)))
    case Serve1(f1, c0) =>
      if f1 && s.port.rx != [] then
        s.(port := s.port.(rx := s.port.rx[1..]), h := s.h.(posted := s.h.posted + [s.port.rx[0]]),
           cpu := s.cpu.(handler := WriteClear(c0, true)))
      else s.(cpu := s.cpu.(handler := WriteClear(c0, f1)))
    case WriteClear(c0, c1) =>
      s.(m := s.m.(irq := s.m.irq - (if c0 then {0} else {}) - (if c1 then {1} else {})),
         cpu := s.cpu.(handler := NotRunning))
  }

  function Step(s: State, e: Event): State
    requires Enabled(s, e)
  {
    match e
    case Tick(sm, choice) => Exec(s, sm, choice)
    case HostBegin(a, b) =>
      s.(host := Host(true, a.addr, a.rd, b),
         h := s.h.(accesses := s.h.accesses + [a],
                   hostWrites := if !a.addr && a.rd then s.h.hostWrites + [b] else s.h.hostWrites))
    case HostEnd =>
      s.(host := s.host.(selected := false),
         h := if !s.host.addr && !s.host.rd then s.h.(hostReads := s.h.hostReads + [s.port.latch]) else s.h)
    case CtrlIrq => s.(cpu := s.cpu.(handler := Serve0(0 in s.m.irq, 1 in s.m.irq)))
    case CtrlRun(answer) => RunHandler(s, answer)
    case DataIrq(b) =>
      var t := SupplyByte(s, Supplied(b, false));
      t.(m := s.m.(irq := s.m.irq - {2}), h := t.h.(clean := false))
    case ValueWrite(v) => if 0 in s.m.irq then s.(cpu := s.cpu.(late := LatePut(v))) else s
    case ValueRun =>
      match s.cpu.late
      case LatePut(v) => SupplyByte(s, Supplied(v, true)).(cpu := s.cpu.(late := LateClear))
      case LateClear => s.(m := s.m.(irq := s.m.irq - {0}), cpu := s.cpu.(late := NoLate))
      case NoLate => s
  }

  predicate Init(s: State) {
    && s.m.pcM == s.m.pcD == s.m.pcC == s.m.pcP == 0
    && !s.m.stallC && !s.m.stallP && s.m.irq == {} && !s.host.selected && s.m.waitHigh
    && s.port.tx == [] && s.port.rx == [] && s.cpu == Cpu(NotRunning, NoLate)
    && s.h == History([], [], [], [], [], [], [], [], true)
  }

  // ------------------------------------------------------------------
  // The CPU side as the source writes it

  /** The CTRL interrupt handler from its start to its end, with nothing in between. */
  function HandleCtrlOp(s: State, answer: Answer): State
    requires Enabled(s, CtrlIrq)
  {
    RunHandler(RunHandler(RunHandler(Step(s, CtrlIrq), answer), answer), answer)
  }

  /** cbus_value_write from its start to its end, with nothing in between. */
  function WriteValue(s: State, v: Byte): State
    requires s.cpu == Cpu(NotRunning, NoLate)
  {
    var t := Step(s, ValueWrite(v));
    if 0 in s.m.irq then Step(Step(t, ValueRun), ValueRun) else t
  }

  /** The registers of db_ctrl_port that the CPU sees, and dbusc.c's record of the last CTRL write;
      `writes` are the values of the MSG_DBUS_CTRL_WRITE messages posted. */
  class CtrlRegisters {
    var irq: set<nat>
    var tx: seq<Byte>
    var rx: seq<Byte>
    var ctrlLastWrite: Byte
    var writes: seq<Byte>
    ghost var bus: State

    ghost predicate Shows()
      reads this
    {
      && bus.m.irq == irq && bus.port.tx == tx && bus.port.rx == rx && bus.h.posted == writes
      && bus.cpu == Cpu(NotRunning, NoLate)
    }

    constructor (s: State)
      requires s.cpu == Cpu(NotRunning, NoLate)
      ensures Shows() && bus == s
    {
      irq, tx, rx, writes, ctrlLastWrite, bus := s.m.irq, s.port.tx, s.port.rx, s.h.posted, 0, s;
    }

    /** _irqp_ctrl_op_hdlr; `answer` is what the registered handler, or the default status, supplies. */
    method IrqpCtrlOpHdlr(answer: Answer)
      requires Shows() && (0 in irq || 1 in irq) && (1 in irq ==> rx != [])
      modifies this
      ensures Shows() && bus == HandleCtrlOp(old(bus), answer)
      ensures old(1 in irq) ==> ctrlLastWrite == old(rx)[0] && writes == old(writes) + [ctrlLastWrite]
    {
      bus := HandleCtrlOp(bus, answer);
      var irqFlags, clearMask := irq, {};
      if 0 in irqFlags {
        if answer.Supply? {
          if |tx| < TX_DEPTH { tx := tx + [TopByte(Stored(Supplied(answer.value, false)))]; }
          clearMask := clearMask + {0};
        }
      }
      if 1 in irqFlags {
        var v := rx[0];
        rx := rx[1..];
        clearMask := clearMask + {1};
        ctrlLastWrite := v;
        writes := writes + [v];
      }
      irq := irq - clearMask;
    }

    /** cbus_value_write */
    method CbusValueWrite(v: Byte)
      requires Shows()
      modifies this
      ensures Shows() && bus == WriteValue(old(bus), v)
    {
      bus := WriteValue(bus, v);
      if 0 in irq {
        if |tx| < TX_DEPTH { tx := tx + [TopByte(Stored(Supplied(v, true)))]; }
        irq := irq - {0};
      }
    }
  }
}

/** What every interleaving of the bus interface keeps. */
module Handshake {
  import opened Pio

  function One(b: bool): nat { if b then 1 else 0 }

  /** db_ctrldata between taking flag 5 and setting flag 6 or 7; at 3 it only has to return to its start. */
  predicate CtrlDataHolds(m: Machine) { m.pcD == 1 || m.pcD == 2 || m.pcD == 4 }

  /** Who may act: db_modsel, a hand-off flag, db_ctrldata or one port program. */
  function Tokens(m: Machine): nat {
    One(m.pcM != 7) + One(5 in m.irq) + One(6 in m.irq) + One(7 in m.irq) + One(4 in m.irq)
    + One(CtrlDataHolds(m)) + One(m.pcC != 0) + One(m.pcP != 0)
  }

  /** The access in progress has not yet reached its port's `out` or `in`. */
  predicate Unserved(m: Machine, host: Host) {
    || (host.selected && m.pcM <= 6) || 5 in m.irq || 6 in m.irq || 7 in m.irq || CtrlDataHolds(m)
    || m.pcC == 1 || m.pcC == 2 || m.pcC == 3 || m.pcC == 5
    || m.pcP == 1 || m.pcP == 2 || m.pcP == 3 || m.pcP == 4 || m.pcP == 5 || m.pcP == 7
  }

  predicate Control(m: Machine, host: Host) {
    && m.pcM < 9 && m.pcD < 5 && m.pcC < 8 && m.pcP < 9
    && Tokens(m) == 1
    && (3 <= m.pcM <= 7 ==> host.selected)
    && (m.waitHigh ==> m.pcM == 8 || (m.pcM == 0 && !host.selected))
    && (m.pcM == 8 && !host.selected ==> m.waitHigh)
    // the branch taken is the one the pins call for
    && (m.pcD == 2 || 6 in m.irq || m.pcC != 0 ==> !host.addr)
    && (m.pcD == 4 || 7 in m.irq || m.pcP != 0 ==> host.addr)
    && (2 <= m.pcC <= 4 || 2 <= m.pcP <= 6 ==> !host.rd)
    && (5 <= m.pcC <= 6 || m.pcP == 7 ==> host.rd)
    // requests to the CPU
    && (0 in m.irq ==> m.pcC == 2 && m.stallC)
    && (1 in m.irq ==> m.pcC == 6 && m.stallC)
    && (2 in m.irq ==> m.pcP == 4 && m.stallP)
    && (m.stallC ==> m.pcC == 2 || m.pcC == 6)
    && (m.stallP ==> m.pcP == 4)
  }

  predicate Bus(m: Machine, host: Host) {
    && (m.pcM == 1 ==> m.osr == DIRS_IN)
    && (m.pcM == 5 ==> m.osr == DIRS_OUT)
    && (2 <= m.pcM <= 4 ==> m.dirs == DIRS_IN)
    && (4 <= m.pcM <= 5 ==> !host.rd)
    && (m.pcM == 6 || m.pcM == 7 || (m.pcM == 8 && host.selected) ==>
          m.dirs == if host.rd then DIRS_IN else DIRS_OUT)
  }

  predicate Log(m: Machine, host: Host, h: History) {
    h.accesses == if Unserved(m, host) then h.served + [Access(host.addr, host.rd)] else h.served
  }

  /** The handler's copy of the flags is up to date while it runs: both are frozen until it clears them. */
  predicate Snapshot(irq: set<nat>, handler: Handler) {
    && (handler.NotRunning? || 0 in irq || 1 in irq)
    && match handler
       case NotRunning => true
       case Serve0(f0, f1) => f0 == (0 in irq) && f1 == (1 in irq)
       case Serve1(f1, c0) => f1 == (1 in irq) && (c0 ==> 0 in irq)
       case WriteClear(c0, c1) => c1 == (1 in irq) && (c0 ==> 0 in irq)
  }

  /** The byte of a CTRL write that its port has not yet sampled. */
  function OnTheBus(m: Machine, host: Host): seq<Byte> {
    if Unserved(m, host) && !host.addr && host.rd then [host.byte] else []
  }

  /** A sampled byte is in the RX FIFO until the handler takes it, just before clearing IRQ 1. */
  predicate RxFull(m: Machine, cpu: Cpu) {
    m.pcC == 6 && (!m.stallC || (1 in m.irq && !cpu.handler.WriteClear?))
  }

  predicate Writes(s: State) {
    && Snapshot(s.m.irq, s.cpu.handler)
    && s.h.hostWrites == s.h.posted + s.port.rx + OnTheBus(s.m, s.host)
    && |s.port.rx| == One(RxFull(s.m, s.cpu))
  }

  /** The handler has supplied a byte and is about to clear IRQ 0 for it. */
  predicate WillClear(handler: Handler) {
    || (handler.Serve1? && handler.clear0)
    || (handler.WriteClear? && handler.clear0)
  }

  /** A supplied byte waits in the TX queue until db_ctrl_port's `out`. */
  predicate TxFull(m: Machine, cpu: Cpu) {
    || m.pcC == 3
    || (m.pcC == 2 && m.stallC
        && (|| 0 !in m.irq
            || cpu.late.LateClear?
            || WillClear(cpu.handler)))
  }

  /** The byte on the bus for a CTRL read that the host has not yet taken. */
  function Latched(s: State): seq<Byte> {
    if s.host.selected && !Unserved(s.m, s.host) && !s.host.addr && !s.host.rd then [s.port.latch] else []
  }

  /** Whatever was put in the FIFO has been read, is on the bus, or is still in the queue. */
  predicate Reads(s: State) {
    s.h.loaded == s.h.hostReads + Latched(s) + s.port.tx
  }

  /** There is a byte for the `out` that db_ctrl_port is about to do, and one behind each clearing of
      IRQ 0 that is still to come. */
  predicate Provided(s: State) {
    && |s.port.tx| <= TX_DEPTH
    && One(s.m.pcC == 3 || (s.m.pcC == 2 && s.m.stallC && 0 !in s.m.irq))
       + One(s.cpu.late.LateClear?) + One(WillClear(s.cpu.handler)) <= |s.port.tx|
  }

  /** In clean runs the queue holds the byte for the present read and no other. */
  predicate Timely(s: State) {
    s.h.clean ==>
      && |s.port.tx| == One(TxFull(s.m, s.cpu))
      && (!s.cpu.late.NoLate? ==> 0 in s.m.irq && !WillClear(s.cpu.handler))
  }

  predicate Inv(s: State) {
    && Control(s.m, s.host) && Bus(s.m, s.host) && Log(s.m, s.host, s.h) && Writes(s)
    && Reads(s) && Provided(s) && Timely(s)
  }

  // ------------------------------------------------------------------
  // The four programs, instruction by instruction

  function ModselNext(m: Machine, host: Host): Machine
    requires m.pcM < 9
  {
    match m.pcM
    case 0 => m.(waitHigh := false, osr := DIRS_IN, pcM := 1)
    case 1 => m.(dirs := m.osr, pcM := 2)
    case 2 => if host.selected then m.(pcM := 3) else m
    case 3 => m.(pcM := if host.rd then 6 else 4)
    case 4 => m.(osr := DIRS_OUT, pcM := 5)
    case 5 => m.(dirs := m.osr, pcM := 6)
    case 6 => m.(irq := m.irq + {5}, pcM := 7)
    case 7 => if 4 in m.irq then m.(irq := m.irq - {4}, pcM := 8) else m
    case 8 => m.(waitHigh := true, pcM := if host.selected then 8 else 0)
  }

  function CtrlDataNext(m: Machine, host: Host): Machine
    requires m.pcD < 5
  {
    match m.pcD
    case 0 => if 5 in m.irq then m.(irq := m.irq - {5}, pcD := 1) else m
    case 1 => m.(pcD := if host.addr then 4 else 2)
    case 2 => m.(irq := m.irq + {6}, pcD := 3)
    case 3 => m.(pcD := 0)
    case 4 => m.(irq := m.irq + {7}, pcD := 0)
  }

  /** db_ctrl_port apart from its `out` and `in`. */
  function CtrlPortNext(m: Machine, host: Host): Machine
    requires m.pcC < 8 && m.pcC != 3 && m.pcC != 5
  {
    match m.pcC
    case 0 => if 6 in m.irq then m.(irq := m.irq - {6}, pcC := 1) else m
    case 1 => m.(pcC := if host.rd then 5 else 2)
    case 2 =>
      if !m.stallC then m.(irq := m.irq + {0}, stallC := true)
      else if 0 in m.irq then m
      else m.(stallC := false, pcC := 3)
    case 4 => m.(pcC := 7)
    case 6 =>
      if !m.stallC then m.(irq := m.irq + {1}, stallC := true)
      else if 1 in m.irq then m
      else m.(stallC := false, pcC := 7)
    case 7 => m.(irq := m.irq + {4}, pcC := 0)
  }

  /** db_data_port apart from its `out` and `in`. */
  function DataPortNext(m: Machine, host: Host, choice: bool): Machine
    requires m.pcP < 9 && m.pcP != 5 && m.pcP != 7
  {
    match m.pcP
    case 0 => if 7 in m.irq then m.(irq := m.irq - {7}, pcP := 1) else m
    case 1 => m.(pcP := if host.rd then 7 else 2)
    case 2 => m.(y := choice, pcP := 3)
    case 3 => m.(pcP := if m.y then 4 else 5)
    case 4 =>
      if !m.stallP then m.(irq := m.irq + {2}, stallP := true)
      else if 2 in m.irq then m
      else m.(stallP := false, pcP := 5)
    case 6 => m.(pcP := 8)
    case 8 => m.(irq := m.irq + {4}, pcP := 0)
  }

  lemma ModselExec(s: State, choice: bool)
    requires s.m.pcM < 9
    ensures Exec(s, Modsel, choice) == s.(m := ModselNext(s.m, s.host))
  {
    match s.m.pcM
    case 0 => case 1 => case 2 => case 3 => case 4 => case 5 => case 6 => case 7 => case 8 =>
  }

  lemma CtrlDataExec(s: State, choice: bool)
    requires s.m.pcD < 5
    ensures Exec(s, CtrlData, choice) == s.(m := CtrlDataNext(s.m, s.host))
  {
    match s.m.pcD
    case 0 => case 1 => case 2 => case 3 => case 4 =>
  }

  lemma CtrlPortExec(s: State, choice: bool)
    requires s.m.pcC < 8 && s.m.pcC != 3 && s.m.pcC != 5
    ensures Exec(s, CtrlPort, choice) == s.(m := CtrlPortNext(s.m, s.host))
  {
    match s.m.pcC
    case 0 => case 1 => case 2 => case 4 => case 6 => case 7 =>
  }

  lemma DataPortExec(s: State, choice: bool)
    requires s.m.pcP < 9 && s.m.pcP != 5 && s.m.pcP != 7
    ensures Exec(s, DataPort, choice) == s.(m := DataPortNext(s.m, s.host, choice))
  {
    match s.m.pcP
    case 0 => case 1 => case 2 => case 3 => case 4 => case 6 => case 8 =>
  }

  // ------------------------------------------------------------------
  // Every step keeps the invariant

  lemma ModselControl(m: Machine, host: Host)
    requires Control(m, host) && Bus(m, host)
    ensures Control(ModselNext(m, host), host) && Bus(ModselNext(m, host), host)
  {
    match m.pcM
    case 0 => case 1 => case 2 => case 3 => case 4 => case 5 => case 6 => case 7 => case 8 =>
  }

  lemma ModselTick(s: State, choice: bool)
    requires Inv(s)
    ensures Inv(Exec(s, Modsel, choice))
  {
    ModselExec(s, choice);
    ModselControl(s.m, s.host);
    var m' := ModselNext(s.m, s.host);
    assert Unserved(m', s.host) == Unserved(s.m, s.host);
    assert RxFull(m', s.cpu) == RxFull(s.m, s.cpu);
    assert s.h.clean ==> TxFull(m', s.cpu) == TxFull(s.m, s.cpu);
  }

  lemma CtrlDataControl(m: Machine, host: Host)
    requires Control(m, host) && Bus(m, host)
    ensures Control(CtrlDataNext(m, host), host) && Bus(CtrlDataNext(m, host), host)
  {
    match m.pcD
    case 0 => case 1 => case 2 => case 3 => case 4 =>
  }

  lemma CtrlDataTick(s: State, choice: bool)
    requires Inv(s)
    ensures Inv(Exec(s, CtrlData, choice))
  {
    CtrlDataExec(s, choice);
    CtrlDataControl(s.m, s.host);
    var m' := CtrlDataNext(s.m, s.host);
    assert Unserved(m', s.host) == Unserved(s.m, s.host);
    assert RxFull(m', s.cpu) == RxFull(s.m, s.cpu);
    assert s.h.clean ==> TxFull(m', s.cpu) == TxFull(s.m, s.cpu);
  }

  lemma CtrlPortControl(m: Machine, host: Host)
    requires Control(m, host) && Bus(m, host) && m.pcC != 3 && m.pcC != 5
    ensures Control(CtrlPortNext(m, host), host) && Bus(CtrlPortNext(m, host), host)
  {
    match m.pcC
    case 0 => case 1 => case 2 => case 4 => case 6 => case 7 =>
  }

  lemma CtrlPortTick(s: State, choice: bool)
    requires Inv(s) && s.m.pcC != 3 && s.m.pcC != 5
    ensures Inv(Exec(s, CtrlPort, choice))
  {
    CtrlPortExec(s, choice);
    CtrlPortControl(s.m, s.host);
    var m' := CtrlPortNext(s.m, s.host);
    assert Unserved(m', s.host) == Unserved(s.m, s.host);
    assert RxFull(m', s.cpu) == RxFull(s.m, s.cpu);
    assert s.h.clean ==> TxFull(m', s.cpu) == TxFull(s.m, s.cpu);
  }

  lemma DataPortControl(m: Machine, host: Host, choice: bool)
    requires Control(m, host) && Bus(m, host) && m.pcP != 5 && m.pcP != 7
    ensures Control(DataPortNext(m, host, choice), host) && Bus(DataPortNext(m, host, choice), host)
  {
    match m.pcP
    case 0 => case 1 => case 2 => case 3 => case 4 => case 6 => case 8 =>
  }

  lemma DataPortTick(s: State, choice: bool)
    requires Inv(s) && s.m.pcP != 5 && s.m.pcP != 7
    ensures Inv(Exec(s, DataPort, choice))
  {
    DataPortExec(s, choice);
    DataPortControl(s.m, s.host, choice);
    var m' := DataPortNext(s.m, s.host, choice);
    assert Unserved(m', s.host) == Unserved(s.m, s.host);
    assert RxFull(m', s.cpu) == RxFull(s.m, s.cpu);
    assert s.h.clean ==> TxFull(m', s.cpu) == TxFull(s.m, s.cpu);
  }

  lemma CtrlPortTransfer(s: State, choice: bool)
    requires Inv(s) && (s.m.pcC == 3 || s.m.pcC == 5)
    ensures Inv(Exec(s, CtrlPort, choice))
  {
    var s' := Exec(s, CtrlPort, choice);
    assert Fetch(CtrlPort, 3) == Code(OutPins8, NoSide) && Fetch(CtrlPort, 5) == Code(InPins8, NoSide);
    if s.m.pcC == 3 {
      if s.port.tx != [] {
        assert s'.m == s.m.(pcC := 4);
        assert s.port.tx == [s.port.tx[0]] + s.port.tx[1..];
      }
    } else {
      assert s'.m == s.m.(pcC := 6);
      assert s.port.rx == [] && s'.port.rx == [s.host.byte];
    }
  }

  lemma DataPortTransfer(s: State, choice: bool)
    requires Inv(s) && (s.m.pcP == 5 || s.m.pcP == 7)
    ensures Inv(Exec(s, DataPort, choice))
  {
    var s' := Exec(s, DataPort, choice);
    assert Fetch(DataPort, 5) == Code(OutPins8, NoSide) && Fetch(DataPort, 7) == Code(InPins8, NoSide);
    if choice {
      assert s'.m == if s.m.pcP == 5 then s.m.(pcP := 6) else s.m.(pcP := 8);
    } else {
      assert s' == s;
    }
  }

  lemma HostKeeps(s: State, e: Event)
    requires Inv(s) && Enabled(s, e) && (e.HostBegin? || e.HostEnd?)
    ensures Inv(Step(s, e))
  {
    if e.HostBegin? {
      assert s.m.pcM <= 2 && !Unserved(s.m, s.host);
    } else {
      assert s.m.pcM == 8;
    }
  }

  lemma CtrlIrqKeeps(s: State)
    requires Inv(s) && Enabled(s, CtrlIrq)
    ensures Inv(Step(s, CtrlIrq))
  {
  }

  lemma CtrlRunKeeps(s: State, answer: Answer)
    requires Inv(s) && Enabled(s, CtrlRun(answer))
    ensures Inv(Step(s, CtrlRun(answer)))
  {
    var s' := Step(s, CtrlRun(answer));
    match s.cpu.handler
    case Serve0(f0, f1) =>
    case Serve1(f1, c0) =>
      if f1 {
        assert |s.port.rx| == 1 && s.port.rx == [s.port.rx[0]] + [];
      }
    case WriteClear(c0, c1) =>
      assert Unserved(s'.m, s'.host) == Unserved(s.m, s.host);
  }

  lemma DataIrqKeeps(s: State, byte: Byte)
    requires Inv(s) && Enabled(s, DataIrq(byte))
    ensures Inv(Step(s, DataIrq(byte)))
  {
    assert Unserved(Step(s, DataIrq(byte)).m, s.host) == Unserved(s.m, s.host);
  }

  lemma ValueWriteKeeps(s: State, v: Byte)
    requires Inv(s) && Enabled(s, ValueWrite(v))
    ensures Inv(Step(s, ValueWrite(v)))
  {
  }

  lemma LatePutKeeps(s: State)
    requires Inv(s) && Enabled(s, ValueRun) && s.cpu.late.LatePut?
    ensures Inv(Step(s, ValueRun))
  {
  }

  lemma LateClearKeeps(s: State)
    requires Inv(s) && Enabled(s, ValueRun) && s.cpu.late.LateClear?
    ensures Inv(Step(s, ValueRun))
  {
    assert Unserved(Step(s, ValueRun).m, s.host) == Unserved(s.m, s.host);
  }

  lemma StepKeeps(s: State, e: Event)
    requires Inv(s) && Enabled(s, e)
    ensures Inv(Step(s, e))
  {
    match e
    case Tick(Modsel, choice) => ModselTick(s, choice);
    case Tick(CtrlData, choice) => CtrlDataTick(s, choice);
    case Tick(CtrlPort, choice) =>
      if s.m.pcC == 3 || s.m.pcC == 5 { CtrlPortTransfer(s, choice); } else { CtrlPortTick(s, choice); }
    case Tick(DataPort, choice) =>
      if s.m.pcP == 5 || s.m.pcP == 7 { DataPortTransfer(s, choice); } else { DataPortTick(s, choice); }
    case CtrlIrq => CtrlIrqKeeps(s);
    case CtrlRun(answer) => CtrlRunKeeps(s, answer);
    case HostBegin(_, _) => HostKeeps(s, e);
    case HostEnd => HostKeeps(s, e);
    case DataIrq(byte) => DataIrqKeeps(s, byte);
    case ValueWrite(v) => ValueWriteKeeps(s, v);
    case ValueRun => if s.cpu.late.LatePut? { LatePutKeeps(s); } else { LateClearKeeps(s); }
  }

  // ------------------------------------------------------------------
  // All runs

  predicate Possible(s: State, es: seq<Event>)
    decreases es
  {
    es == [] || (Enabled(s, es[0]) && Possible(Step(s, es[0]), es[1..]))
  }

  function Final(s: State, es: seq<Event>): State
    requires Possible(s, es)
    decreases es
  {
    if es == [] then s else Final(Step(s, es[0]), es[1..])
  }

  lemma {:induction false} RunKeeps(s: State, es: seq<Event>)
    requires Inv(s) && Possible(s, es)
    ensures Inv(Final(s, es))
    decreases es
  {
    if es == [] {
    } else {
      StepKeeps(s, es[0]);
      RunKeeps(Step(s, es[0]), es[1..]);
    }
  }

  lemma ReachableInv(s: State, es: seq<Event>)
    requires Init(s) && Possible(s, es)
    ensures Inv(Final(s, es))
  {
    assert Inv(s);
    RunKeeps(s, es);
  }

  /** The instruction `sm` is about to issue sets flag `n`. */
  predicate Raises(m: Machine, sm: Sm, n: nat) {
    && Pc(m, sm) < Length(sm)
    && var op := Fetch(sm, Pc(m, sm)).op;
       op == Irq(n) || (op == IrqWait(n) && !Stalled(m, sm))
  }

  /** Exactly one control token, so the ports never serve together, no flag is raised while it is
      still pending, and the two requests to the CPU are never pending together. */
  lemma OneToken(s: State, es: seq<Event>)
    requires Init(s) && Possible(s, es)
    ensures var m := Final(s, es).m;
      && Tokens(m) == 1
      && !(m.pcC != 0 && m.pcP != 0)
      && !(0 in m.irq && 1 in m.irq)
      && forall sm, n :: Raises(m, sm, n) ==> n !in m.irq
  {
    ReachableInv(s, es);
    var m := Final(s, es).m;
    forall sm, n | Raises(m, sm, n)
      ensures n !in m.irq
    {
      FreshFlag(m, Final(s, es).host, sm, n);
    }
  }

  lemma FreshFlag(m: Machine, host: Host, sm: Sm, n: nat)
    requires Control(m, host) && Raises(m, sm, n)
    ensures n !in m.irq
  {
    match sm
    case Modsel => assert m.pcM == 6 && n == 5;
    case CtrlData => assert (m.pcD == 2 && n == 6) || (m.pcD == 4 && n == 7);
    case CtrlPort => assert (m.pcC == 2 && n == 0) || (m.pcC == 6 && n == 1) || (m.pcC == 7 && n == 4);
    case DataPort => assert (m.pcP == 4 && n == 2) || (m.pcP == 8 && n == 4);
  }

  /** The ports carry out the host's accesses one for one and in order, each by the addressed port in
      the direction asked for, at most one access behind; and never behind once WAIT is released. */
  lemma EachAccessServedOnce(s: State, es: seq<Event>)
    requires Init(s) && Possible(s, es)
    ensures var t := Final(s, es);
      && (t.h.accesses == t.h.served
          || (|t.h.accesses| == |t.h.served| + 1 && t.h.served <= t.h.accesses && t.host.selected))
      && (t.host.selected && t.m.waitHigh ==> t.h.served == t.h.accesses)
  {
    ReachableInv(s, es);
    var t := Final(s, es);
    if t.host.selected && t.m.waitHigh {
      assert t.m.pcM == 8;
    }
  }

  /** db_modsel has turned the data pins the way the port program is about to use them,
      and they are still driven when the host takes a byte it reads. */
  lemma BusDirectionAgrees(s: State, es: seq<Event>)
    requires Init(s) && Possible(s, es)
    ensures var t := Final(s, es);
      && (t.m.pcC == 3 || t.m.pcP == 5 ==> BusDriven(t.m.dirs))
      && (t.m.pcC == 5 || t.m.pcP == 7 ==> BusReleased(t.m.dirs))
      && (t.host.selected && t.m.waitHigh ==> if t.host.rd then BusReleased(t.m.dirs) else BusDriven(t.m.dirs))
  {
    ReachableInv(s, es);
    var t := Final(s, es);
    assert BusDriven(DIRS_OUT) && BusReleased(DIRS_IN);
    if t.host.selected && t.m.waitHigh {
      assert t.m.pcM == 8;
    }
  }

  /** CTRL writes: posted in order, none lost, none repeated, at most one in the FIFO;
      and all of them posted once WAIT is released. */
  lemma WritesArePosted(s: State, es: seq<Event>)
    requires Init(s) && Possible(s, es)
    ensures var t := Final(s, es);
      && t.h.posted <= t.h.hostWrites && |t.h.hostWrites| <= |t.h.posted| + 1
      && |t.port.rx| <= 1
      && (t.m.waitHigh || !t.host.selected ==> t.h.posted == t.h.hostWrites)
  {
    ReachableInv(s, es);
    var t := Final(s, es);
    assert t.port.rx == [] || OnTheBus(t.m, t.host) == [];
    if t.m.waitHigh || !t.host.selected {
      assert t.m.pcC == 0;
      assert t.port.rx == [];
      assert !Unserved(t.m, t.host);
    }
  }

  /** What reaches the data pins for a supplied byte: the byte itself from the interrupt handler,
      but always 0 from cbus_value_write, whose word has the byte at the wrong end. */
  lemma OnThePins(x: Supplied)
    ensures TopByte(Stored(x)) == if x.late then 0 else x.value
  { }

  predicate Loaded(h: History) {
    && |h.loaded| == |h.supplied|
    && forall k :: 0 <= k < |h.loaded| ==> h.loaded[k] == TopByte(Stored(h.supplied[k]))
  }

  lemma LoadedStep(s: State, e: Event)
    requires Loaded(s.h) && Enabled(s, e)
    ensures Loaded(Step(s, e).h)
  {
    match e
    case Tick(sm, choice) => assert Step(s, e).h.supplied == s.h.supplied && Step(s, e).h.loaded == s.h.loaded;
    case _ =>
  }

  lemma {:induction false} LoadedRun(s: State, es: seq<Event>)
    requires Loaded(s.h) && Possible(s, es)
    ensures Loaded(Final(s, es).h)
    decreases es
  {
    if es == [] {
    } else {
      LoadedStep(s, es[0]);
      LoadedRun(Step(s, es[0]), es[1..]);
    }
  }

  /** In every run the host has read, in order, what db_ctrl_port was loaded with, up to the byte it is
      about to take when WAIT is released, and what the queue holds. */
  lemma ReadsAreLoaded(s: State, es: seq<Event>)
    requires Init(s) && Possible(s, es)
    ensures var t := Final(s, es);
      && t.h.loaded == t.h.hostReads + Latched(t) + t.port.tx
      && (t.host.selected && t.m.waitHigh && !t.host.addr && !t.host.rd ==> Latched(t) == [t.port.latch])
  {
    ReachableInv(s, es);
    var t := Final(s, es);
    if t.host.selected && t.m.waitHigh {
      assert t.m.pcM == 8;
    }
  }

  /** CTRL reads, in every run: of the bytes the FIFO accepts none is lost, repeated or reordered.  The
      k-th byte the host takes comes from the k-th of them, is that byte exactly when an interrupt handler
      put it or it is 0, and the others are still on the bus or in the queue. */
  lemma ReadsAreAnsweredIff(s: State, es: seq<Event>)
    requires Init(s) && Possible(s, es)
    ensures var t := Final(s, es);
      && |t.h.supplied| == |t.h.hostReads| + |Latched(t)| + |t.port.tx|
      && forall k :: 0 <= k < |t.h.hostReads| ==>
           (t.h.hostReads[k] == t.h.supplied[k].value <==> !t.h.supplied[k].late || t.h.supplied[k].value == 0)
  {
    ReadsAreLoaded(s, es);
    LoadedRun(s, es);
    var h := Final(s, es).h;
    forall k | 0 <= k < |h.hostReads|
      ensures h.hostReads[k] == h.supplied[k].value <==> !h.supplied[k].late || h.supplied[k].value == 0
    {
      OnThePins(h.supplied[k]);
      assert h.hostReads[k] == h.loaded[k];
    }
  }

  /** The event puts a byte to the CTRL port's FIFO. */
  predicate Puts(s: State, e: Event) {
    match e
    case CtrlRun(answer) => s.cpu.handler.Serve0? && s.cpu.handler.flag0 && answer.Supply?
    case DataIrq(_) => true
    case ValueRun => s.cpu.late.LatePut?
    case _ => false
  }

  /** Every put of the run finds room. */
  predicate PutsFit(s: State, es: seq<Event>)
    requires Possible(s, es)
    decreases es
  {
    es == [] || ((Puts(s, es[0]) ==> |s.port.tx| < TX_DEPTH) && PutsFit(Step(s, es[0]), es[1..]))
  }

  /** A byte is offered by every event that puts one, and accepted when there is room. */
  lemma PutStep(s: State, e: Event)
    requires Enabled(s, e)
    ensures var t := Step(s, e);
      if Puts(s, e) then
        && |t.h.offered| == |s.h.offered| + 1 && t.h.offered[..|s.h.offered|] == s.h.offered
        && t.h.supplied == if |s.port.tx| < TX_DEPTH then s.h.supplied + [t.h.offered[|s.h.offered|]] else s.h.supplied
      else t.h.offered == s.h.offered && t.h.supplied == s.h.supplied
  {
    match e
    case Tick(sm, choice) => assert Step(s, e).h.supplied == s.h.supplied && Step(s, e).h.offered == s.h.offered;
    case _ =>
  }

  /** Nothing the CPU puts is lost exactly when every put finds room in the FIFO. */
  lemma {:induction false} NothingLostIff(s: State, es: seq<Event>)
    requires Possible(s, es) && |s.h.supplied| <= |s.h.offered|
    ensures |s.h.offered| - |s.h.supplied| <= |Final(s, es).h.offered| - |Final(s, es).h.supplied|
    ensures |s.h.offered| - |s.h.supplied| == |Final(s, es).h.offered| - |Final(s, es).h.supplied| <==> PutsFit(s, es)
    ensures s.h.offered == s.h.supplied && PutsFit(s, es) ==> Final(s, es).h.offered == Final(s, es).h.supplied
    decreases es
  {
    if es == [] {
    } else {
      var t := Step(s, es[0]);
      PutStep(s, es[0]);
      if s.h.offered == s.h.supplied && (Puts(s, es[0]) ==> |s.port.tx| < TX_DEPTH) {
        assert Puts(s, es[0]) ==> t.h.offered == s.h.offered + [t.h.offered[|s.h.offered|]];
      }
      NothingLostIff(t, es[1..]);
    }
  }

  /** From power-on: the FIFO has accepted all that was put exactly when every put found room. */
  lemma AllAcceptedIff(s: State, es: seq<Event>)
    requires Init(s) && Possible(s, es)
    ensures Final(s, es).h.offered == Final(s, es).h.supplied <==> PutsFit(s, es)
  {
    NothingLostIff(s, es);
  }

  /** Between accesses the host has read one byte for each put exactly when the queue is empty and no put
      found it full... */
  lemma OneForOneIff(s: State, es: seq<Event>)
    requires Init(s) && Possible(s, es) && !Final(s, es).host.selected
    ensures var t := Final(s, es); |t.h.hostReads| == |t.h.offered| <==> t.port.tx == [] && PutsFit(s, es)
  {
    ReadsAreAnsweredIff(s, es);
    NothingLostIff(s, es);
  }

  lemma CleanBefore(s: State, e: Event)
    requires Enabled(s, e) && Step(s, e).h.clean
    ensures s.h.clean
  {
    match e
    case Tick(sm, choice) => assert Step(s, e).h.clean == s.h.clean;
    case _ =>
  }

  /** A clean run never finds the queue full. */
  lemma {:induction false} CleanPutsFit(s: State, es: seq<Event>)
    requires Inv(s) && Possible(s, es) && Final(s, es).h.clean
    ensures s.h.clean && PutsFit(s, es)
    decreases es
  {
    if es == [] {
    } else {
      StepKeeps(s, es[0]);
      CleanPutsFit(Step(s, es[0]), es[1..]);
      CleanBefore(s, es[0]);
      assert |s.port.tx| <= 1;
    }
  }

  /** ...and always when no interrupt handler has put a byte while cbus_value_write was under way and
      the data interrupt has not occurred; then nothing is lost, and there is at most one put ahead of
      the reads. */
  lemma CleanReadsAreTimely(s: State, es: seq<Event>)
    requires Init(s) && Possible(s, es) && Final(s, es).h.clean
    ensures var t := Final(s, es);
      && t.h.offered == t.h.supplied
      && |t.h.hostReads| <= |t.h.supplied| <= |t.h.hostReads| + 1
      && (!t.host.selected ==> |t.h.hostReads| == |t.h.supplied|)
      && (t.host.selected && t.m.waitHigh && !t.host.addr && !t.host.rd ==> |t.h.supplied| == |t.h.hostReads| + 1)
  {
    ReadsAreAnsweredIff(s, es);
    ReachableInv(s, es);
    CleanPutsFit(s, es);
    AllAcceptedIff(s, es);
    var t := Final(s, es);
    assert t.port.tx == [] || Latched(t) == [];
    if !t.host.selected || t.m.waitHigh {
      assert t.m.pcC == 0;
      assert t.port.tx == [];
    }
  }

  /** db_ctrl_port is about to ask the CPU for a byte. */
  predicate Asks(s: State) { s.m.pcC == 2 && !s.m.stallC }

  /** The read that asks in `s` gets the first byte accepted after it asked exactly when the queue is empty
      in `s`; otherwise it gets one that was accepted before. */
  lemma FreshByteIff(s: State, before: seq<Event>, after: seq<Event>)
    requires Init(s) && Possible(s, before) && Asks(Final(s, before)) && Possible(Final(s, before), after)
    requires |Final(s, before).h.hostReads| < |Final(Final(s, before), after).h.hostReads|
    ensures var t, t' := Final(s, before), Final(Final(s, before), after);
      var n := |t.h.hostReads|;
      && n < |t'.h.supplied| && t'.h.hostReads[n] == TopByte(Stored(t'.h.supplied[n]))
      && (n == |t.h.supplied| <==> t.port.tx == [])
      && n <= |t.h.supplied|
  {
    ReachableInv(s, before);
    LoadedRun(s, before);
    RunKeeps(Final(s, before), after);
    LoadedRun(Final(s, before), after);
    assert Latched(Final(s, before)) == [];
  }

  lemma {:induction false} Snoc(s: State, es: seq<Event>, e: Event)
    requires Possible(s, es) && Enabled(Final(s, es), e)
    ensures Possible(s, es + [e]) && Final(s, es + [e]) == Step(Final(s, es), e)
    decreases es
  {
    if es == [] {
      assert Possible(Step(s, e), [e][1..]) && Final(Step(s, e), [e][1..]) == Step(s, e);
    } else {
      Snoc(Step(s, es[0]), es[1..], e);
      assert (es + [e])[1..] == es[1..] + [e];
    }
  }

  /** The host is waiting for a CTRL byte; the CTRL interrupt handler is not running. */
  predicate AwaitsByte(s: State, late: Late) {
    Inv(s) && 0 in s.m.irq && s.cpu == Cpu(NotRunning, late) && s.host.selected && s.port.tx == []
  }

  lemma GoModsel(s: State, es: seq<Event>) returns (es': seq<Event>)
    requires Possible(s, es) && Inv(Final(s, es))
    ensures Possible(s, es') && Inv(Final(s, es'))
    ensures Final(s, es') == Final(s, es).(m := ModselNext(Final(s, es).m, Final(s, es).host))
  {
    var go := Tick(Modsel, true);
    ModselExec(Final(s, es), true);
    StepKeeps(Final(s, es), go);
    Snoc(s, es, go);
    es' := es + [go];
  }

  lemma GoCtrlData(s: State, es: seq<Event>) returns (es': seq<Event>)
    requires Possible(s, es) && Inv(Final(s, es))
    ensures Possible(s, es') && Inv(Final(s, es'))
    ensures Final(s, es') == Final(s, es).(m := CtrlDataNext(Final(s, es).m, Final(s, es).host))
  {
    var go := Tick(CtrlData, true);
    CtrlDataExec(Final(s, es), true);
    StepKeeps(Final(s, es), go);
    Snoc(s, es, go);
    es' := es + [go];
  }

  lemma GoCtrlPort(s: State, es: seq<Event>) returns (es': seq<Event>)
    requires Possible(s, es) && Inv(Final(s, es)) && Final(s, es).m.pcC != 3 && Final(s, es).m.pcC != 5
    ensures Possible(s, es') && Inv(Final(s, es'))
    ensures Final(s, es') == Final(s, es).(m := CtrlPortNext(Final(s, es).m, Final(s, es).host))
  {
    var go := Tick(CtrlPort, true);
    CtrlPortExec(Final(s, es), true);
    StepKeeps(Final(s, es), go);
    Snoc(s, es, go);
    es' := es + [go];
  }

  /** An event other than an instruction. */
  lemma Go(s: State, es: seq<Event>, e: Event) returns (es': seq<Event>)
    requires Possible(s, es) && Inv(Final(s, es)) && Enabled(Final(s, es), e)
    ensures Possible(s, es') && Inv(Final(s, es')) && Final(s, es') == Step(Final(s, es), e)
  {
    StepKeeps(Final(s, es), e);
    Snoc(s, es, e);
    es' := es + [e];
  }

  /** From `t` to `u` only programs and the host have moved, and no byte. */
  predicate OnlyMoved(t: State, u: State) {
    && u.port == t.port && u.cpu == t.cpu
    && u.h == t.h.(accesses := u.h.accesses)
  }

  /** The host asks to read the CTRL port. */
  predicate Reading(t: State) { t.host == Host(true, false, false, 0) }

  lemma ReadBegins(s: State, es: seq<Event>) returns (es': seq<Event>)
    requires Possible(s, es) && Inv(Final(s, es))
    requires var t := Final(s, es); !t.host.selected && (t.m.pcM == 0 || t.m.pcM == 8)
    ensures Possible(s, es') && Inv(Final(s, es')) && OnlyMoved(Final(s, es), Final(s, es'))
    ensures Final(s, es').m.pcM == 3 && Reading(Final(s, es'))
  {
    es' := es;
    if Final(s, es).m.pcM == 8 { es' := GoModsel(s, es'); }
    es' := GoModsel(s, es');
    es' := GoModsel(s, es');
    es' := Go(s, es', HostBegin(Access(false, false), 0));
    es' := GoModsel(s, es');
  }

  lemma ModselHandsOver(s: State, es: seq<Event>) returns (es': seq<Event>)
    requires Possible(s, es) && Inv(Final(s, es)) && Final(s, es).m.pcM == 3 && Reading(Final(s, es))
    ensures Possible(s, es') && Inv(Final(s, es')) && OnlyMoved(Final(s, es), Final(s, es'))
    ensures 5 in Final(s, es').m.irq && Reading(Final(s, es'))
  {
    es' := GoModsel(s, es);
    es' := GoModsel(s, es');
    es' := GoModsel(s, es');
    es' := GoModsel(s, es');
  }

  lemma CtrlDataHandsOver(s: State, es: seq<Event>) returns (es': seq<Event>)
    requires Possible(s, es) && Inv(Final(s, es)) && 5 in Final(s, es).m.irq && Reading(Final(s, es))
    ensures Possible(s, es') && Inv(Final(s, es')) && OnlyMoved(Final(s, es), Final(s, es'))
    ensures 6 in Final(s, es').m.irq && Reading(Final(s, es'))
  {
    es' := es;
    if Final(s, es).m.pcD == 3 { es' := GoCtrlData(s, es'); }
    es' := GoCtrlData(s, es');
    es' := GoCtrlData(s, es');
    es' := GoCtrlData(s, es');
  }

  lemma PortAsks(s: State, es: seq<Event>) returns (es': seq<Event>)
    requires Possible(s, es) && Inv(Final(s, es)) && 6 in Final(s, es).m.irq && Reading(Final(s, es))
    ensures Possible(s, es') && Inv(Final(s, es')) && OnlyMoved(Final(s, es), Final(s, es'))
    ensures 0 in Final(s, es').m.irq && Reading(Final(s, es'))
  {
    es' := GoCtrlPort(s, es);
    es' := GoCtrlPort(s, es');
    es' := GoCtrlPort(s, es');
  }

  /** An idle host can always begin a CTRL read that gets as far as asking for its byte. */
  lemma ReadAsks(s: State, es: seq<Event>) returns (es': seq<Event>)
    requires Possible(s, es) && Inv(Final(s, es))
    requires var t := Final(s, es); !t.host.selected && (t.m.pcM == 0 || t.m.pcM == 8)
    ensures Possible(s, es') && Inv(Final(s, es')) && OnlyMoved(Final(s, es), Final(s, es'))
    ensures 0 in Final(s, es').m.irq && Final(s, es').host.selected
  {
    es' := ReadBegins(s, es);
    es' := ModselHandsOver(s, es');
    es' := CtrlDataHandsOver(s, es');
    es' := PortAsks(s, es');
  }

  /** So a first access that reads the CTRL port leaves the host waiting for a byte. */
  lemma FirstReadAwaits(s: State) returns (es: seq<Event>)
    requires Init(s)
    ensures Possible(s, es) && AwaitsByte(Final(s, es), NoLate)
  {
    es := ReadAsks(s, []);
  }

  /** cbus_value_write, from its second statement on, lets db_ctrl_port go on, with a 0 loaded. */
  lemma LateByteLoaded(s: State, es: seq<Event>, v: Byte) returns (es': seq<Event>)
    requires Possible(s, es) && AwaitsByte(Final(s, es), LatePut(v))
    ensures Possible(s, es') && Inv(Final(s, es'))
    ensures var t := Final(s, es);
      Final(s, es') == t.(m := t.m.(irq := t.m.irq - {0}), port := t.port.(tx := [0]), cpu := Cpu(NotRunning, NoLate),
                          h := t.h.(offered := t.h.offered + [Supplied(v, true)], supplied := t.h.supplied + [Supplied(v, true)],
                                    loaded := t.h.loaded + [0]))
  {
    OnThePins(Supplied(v, true));
    es' := Go(s, es, ValueRun);
    es' := Go(s, es', ValueRun);
  }

  /** The interrupt handler, whole, supplies a byte, whatever else is in the queue. */
  lemma HandlerSupplies(s: State, es: seq<Event>, w: Byte) returns (es': seq<Event>)
    requires Possible(s, es) && Inv(Final(s, es)) && 0 in Final(s, es).m.irq && Final(s, es).cpu.handler.NotRunning?
    requires |Final(s, es).port.tx| < TX_DEPTH
    ensures Possible(s, es') && Inv(Final(s, es'))
    ensures var t := Final(s, es);
      Final(s, es') == t.(m := t.m.(irq := t.m.irq - {0}), port := t.port.(tx := t.port.tx + [w]),
                          h := t.h.(offered := t.h.offered + [Supplied(w, false)],
                                    supplied := t.h.supplied + [Supplied(w, false)], loaded := t.h.loaded + [w],
                                    clean := t.h.clean && t.cpu.late.NoLate?))
  {
    OnThePins(Supplied(w, false));
    es' := Go(s, es, CtrlIrq);
    es' := Go(s, es', CtrlRun(Supply(w)));
    es' := Go(s, es', CtrlRun(Tbd));
    es' := Go(s, es', CtrlRun(Tbd));
  }

  /** The port program ends a read with the byte at the front of the queue... */
  lemma PortFinishes(s: State, es: seq<Event>) returns (es': seq<Event>)
    requires Possible(s, es) && Inv(Final(s, es))
    requires var t := Final(s, es); t.m.pcC == 2 && t.m.stallC && 0 !in t.m.irq && t.port.tx != []
    ensures Possible(s, es') && Inv(Final(s, es'))
    ensures var t, t' := Final(s, es), Final(s, es');
      && t'.m == t.m.(pcC := 0, stallC := false, irq := t.m.irq + {4})
      && t'.port == t.port.(latch := t.port.tx[0], tx := t.port.tx[1..])
      && t'.host == t.host && t'.cpu == t.cpu && t'.h == t.h.(served := t.h.served + [Access(false, false)])
  {
    es' := GoCtrlPort(s, es);
    assert Fetch(CtrlPort, 3) == Code(OutPins8, NoSide);
    es' := Go(s, es', Tick(CtrlPort, true));
    es' := GoCtrlPort(s, es');
    es' := GoCtrlPort(s, es');
  }

  /** ...and the host takes it. */
  lemma ReadEnds(s: State, es: seq<Event>) returns (es': seq<Event>)
    requires Possible(s, es) && Inv(Final(s, es)) && Final(s, es).host.selected
    requires var t := Final(s, es); t.m.pcC == 2 && t.m.stallC && 0 !in t.m.irq && t.port.tx != []
    ensures Possible(s, es') && Inv(Final(s, es'))
    ensures var t, t' := Final(s, es), Final(s, es');
      && t'.h == t.h.(served := t'.h.served, hostReads := t.h.hostReads + [t.port.tx[0]])
      && t'.port.tx == t.port.tx[1..] && t'.cpu == t.cpu && !t'.host.selected && t'.m.pcM == 8
  {
    es' := PortFinishes(s, es);
    es' := GoModsel(s, es');
    es' := GoModsel(s, es');
    es' := Go(s, es', HostEnd);
  }

  /** A value written late reaches a waiting host as 0, whatever it is. */
  lemma LateAnswerReadsZero(s: State, v: Byte) returns (es: seq<Event>)
    requires AwaitsByte(s, NoLate)
    ensures Possible(s, es)
    ensures Final(s, es).h.supplied == s.h.supplied + [Supplied(v, true)]
    ensures Final(s, es).h.hostReads == s.h.hostReads + [0]
  {
    es := Go(s, [], ValueWrite(v));
    es := LateByteLoaded(s, es, v);
    es := ReadEnds(s, es);
  }

  /** The interrupt handler answers between the first two statements of cbus_value_write. */
  lemma BreaksIn(s: State, v: Byte, w: Byte) returns (es: seq<Event>)
    requires AwaitsByte(s, NoLate)
    ensures Possible(s, es) && Inv(Final(s, es))
    ensures var t := Final(s, es);
      && t.m == s.m.(irq := s.m.irq - {0}) && t.host == s.host
      && t.port.tx == [w] && t.cpu == Cpu(NotRunning, LatePut(v))
      && t.h == s.h.(offered := s.h.offered + [Supplied(w, false)], supplied := s.h.supplied + [Supplied(w, false)],
                     loaded := s.h.loaded + [w], clean := false)
  {
    es := Go(s, [], ValueWrite(v));
    es := HandlerSupplies(s, es, w);
  }

  /** cbus_value_write with the handler's answer between its first two statements puts two bytes. */
  lemma TwoPuts(s: State, es: seq<Event>, v: Byte, w: Byte) returns (es': seq<Event>)
    requires Possible(s, es) && Inv(Final(s, es)) && 0 in Final(s, es).m.irq
    requires Final(s, es).cpu == Cpu(NotRunning, NoLate) && |Final(s, es).port.tx| <= 3
    ensures Possible(s, es') && Inv(Final(s, es'))
    ensures var t, u := Final(s, es), Final(s, es');
      && u.m == t.m.(irq := t.m.irq - {0}) && u.host == t.host && u.cpu == t.cpu
      && u.port == t.port.(tx := t.port.tx + [w, 0]) && u.h.hostReads == t.h.hostReads
      && u.h.offered == t.h.offered + [Supplied(w, false), Supplied(v, true)]
      && u.h.supplied == t.h.supplied + [Supplied(w, false), Supplied(v, true)]
  {
    OnThePins(Supplied(v, true));
    es' := Go(s, es, ValueWrite(v));
    es' := HandlerSupplies(s, es', w);
    es' := Go(s, es', ValueRun);
    es' := Go(s, es', ValueRun);
  }

  /** If cbus_value_write goes on at once, its byte is left over... */
  lemma ByteLeftOver(s: State, v: Byte, w: Byte) returns (es: seq<Event>)
    requires AwaitsByte(s, NoLate)
    ensures Possible(s, es) && Inv(Final(s, es))
    ensures var t := Final(s, es);
      && !t.host.selected && t.m.pcM == 8 && t.port.tx == [0] && t.cpu == Cpu(NotRunning, NoLate)
      && t.h.supplied == s.h.supplied + [Supplied(w, false), Supplied(v, true)]
      && t.h.hostReads == s.h.hostReads + [w]
  {
    es := TwoPuts(s, [], v, w);
    es := ReadEnds(s, es);
  }

  /** ...and the next read takes it instead of the byte `u` that is supplied for it. */
  lemma LeftoverShiftsReads(s: State, v: Byte, w: Byte, u: Byte) returns (es: seq<Event>)
    requires AwaitsByte(s, NoLate)
    ensures Possible(s, es) && !Final(s, es).host.selected && Final(s, es).port.tx == [u]
    ensures Final(s, es).h.supplied == s.h.supplied + [Supplied(w, false), Supplied(v, true), Supplied(u, false)]
    ensures Final(s, es).h.hostReads == s.h.hostReads + [w, 0]
  {
    es := ByteLeftOver(s, v, w);
    es := ReadAsks(s, es);
    es := HandlerSupplies(s, es, u);
    es := ReadEnds(s, es);
  }

  /** Between accesses, with nothing under way on the CPU and nothing lost so far. */
  predicate Rests(t: State) {
    && Inv(t) && !t.host.selected && (t.m.pcM == 0 || t.m.pcM == 8) && t.cpu == Cpu(NotRunning, NoLate)
    && t.h.offered == t.h.supplied
  }

  /** Every read in which the handler breaks in like this leaves one more byte over. */
  lemma QueueGrows(s: State, es: seq<Event>) returns (es': seq<Event>)
    requires Possible(s, es) && Rests(Final(s, es)) && |Final(s, es).port.tx| <= 3
    ensures Possible(s, es') && Rests(Final(s, es')) && |Final(s, es').port.tx| == |Final(s, es).port.tx| + 1
    ensures |Final(s, es').h.hostReads| == |Final(s, es).h.hostReads| + 1
  {
    es' := ReadAsks(s, es);
    es' := TwoPuts(s, es', 0, 0);
    es' := ReadEnds(s, es');
  }

  lemma QueueFills(s: State) returns (es: seq<Event>)
    requires Init(s)
    ensures Possible(s, es) && Rests(Final(s, es))
    ensures |Final(s, es).port.tx| == TX_DEPTH - 1 && |Final(s, es).h.hostReads| == 4
  {
    es := QueueGrows(s, []);
    es := QueueGrows(s, es);
    es := QueueGrows(s, es);
    es := QueueGrows(s, es);
  }

  /** The handler answers when the queue is full: it clears the request and its byte is gone. */
  lemma HandlerDrops(s: State, es: seq<Event>, w: Byte) returns (es': seq<Event>)
    requires Possible(s, es) && Inv(Final(s, es)) && 0 in Final(s, es).m.irq && Final(s, es).cpu.handler.NotRunning?
    requires |Final(s, es).port.tx| == TX_DEPTH
    ensures Possible(s, es') && Inv(Final(s, es'))
    ensures var t := Final(s, es);
      Final(s, es') == t.(m := t.m.(irq := t.m.irq - {0}),
                          h := t.h.(offered := t.h.offered + [Supplied(w, false)],
                                    clean := t.h.clean && t.cpu.late.NoLate?))
  {
    es' := Go(s, es, CtrlIrq);
    es' := Go(s, es', CtrlRun(Supply(w)));
    es' := Go(s, es', CtrlRun(Tbd));
    es' := Go(s, es', CtrlRun(Tbd));
  }

  lemma FifthReadAsks(s: State, es: seq<Event>, v: Byte) returns (es': seq<Event>)
    requires Possible(s, es) && Rests(Final(s, es)) && |Final(s, es).port.tx| == TX_DEPTH - 1
    ensures Possible(s, es') && Inv(Final(s, es'))
    ensures var t, u := Final(s, es), Final(s, es');
      && u.h.offered == u.h.supplied && u.h.hostReads == t.h.hostReads && |u.port.tx| == TX_DEPTH
      && 0 in u.m.irq && u.cpu.handler.NotRunning? && u.host.selected
  {
    es' := ReadAsks(s, es);
    es' := Go(s, es', ValueWrite(v));
    es' := Go(s, es', ValueRun);
  }

  /** From power-on, without the data interrupt: a run whose fifth read loses the handler's answer `w`.
      The host goes on with a byte that was left over. */
  lemma AnswerIsLost(s: State, v: Byte, w: Byte) returns (es: seq<Event>)
    requires Init(s)
    ensures Possible(s, es) && !Final(s, es).host.selected && |Final(s, es).h.hostReads| == 5
    ensures Final(s, es).h.offered == Final(s, es).h.supplied + [Supplied(w, false)]
  {
    es := QueueFills(s);
    es := FifthReadAsks(s, es, v);
    es := HandlerDrops(s, es, w);
    es := ReadEnds(s, es);
  }

  /** If it goes on only when the next read waits, its byte answers that one: the reads match the
      bytes one for one again, although the handler broke in. */
  lemma LateByteServesNextRead(s: State, v: Byte, w: Byte) returns (es: seq<Event>)
    requires AwaitsByte(s, NoLate)
    ensures Possible(s, es) && !Final(s, es).host.selected && Final(s, es).port.tx == [] && !Final(s, es).h.clean
    ensures Final(s, es).cpu == Cpu(NotRunning, NoLate)
    ensures Final(s, es).h.supplied == s.h.supplied + [Supplied(w, false), Supplied(v, true)]
    ensures Final(s, es).h.hostReads == s.h.hostReads + [w, 0]
  {
    es := BreaksIn(s, v, w);
    es := ReadEnds(s, es);
    es := ReadAsks(s, es);
    es := LateByteLoaded(s, es, v);
    es := ReadEnds(s, es);
  }

  /** A read of the data port asks the CPU, by IRQ 2, exactly when its FIFO is found short. */
  lemma DataReadAsksIff(s: State, short: bool)
    requires Control(s.m, s.host) && s.m.pcP == 2
    ensures var t := Exec(Exec(Exec(s, DataPort, short), DataPort, true), DataPort, true);
      && (2 in t.m.irq <==> short)
      && (if short then t.m.pcP == 4 else t.m.pcP == 6 && t.h.served == s.h.served + [Access(true, false)])
  {
    DataPortExec(s, short);
    var t := Exec(s, DataPort, short);
    DataPortExec(t, true);
    assert Fetch(DataPort, 5) == Code(OutPins8, NoSide) && Fetch(DataPort, 4) == Code(IrqWait(2), NoSide);
  }

  // ------------------------------------------------------------------
  // An access always gets through

  function LateWork(late: Late): nat {
    match late
    case NoLate => 0
    case LatePut(_) => 2
    case LateClear => 1
  }

  /** How much the CPU still has to do about a pending request. */
  function CpuWork(cpu: Cpu): nat {
    match cpu.handler
    case NotRunning => 4 + LateWork(cpu.late)
    case Serve0(_, _) => 3
    case Serve1(f1, c0) => if f1 || c0 then 2 else 8
    case WriteClear(c0, c1) => if c0 || c1 then 1 else 7
  }

  function CtrlPortPlace(m: Machine, cpu: Cpu): nat {
    if m.pcC == 1 then 35
    else if m.pcC == 5 then 34
    else if m.pcC == 2 || m.pcC == 6 then
      if !m.stallC then 33
      else if 0 in m.irq || 1 in m.irq then 26 + CpuWork(cpu)
      else 26
    else if m.pcC == 3 then 25
    else if m.pcC == 4 then 24
    else 23
  }

  function DataPortPlace(m: Machine): nat {
    if m.pcP == 4 then (if !m.stallP then 32 else if 2 in m.irq then 31 else 30)
    else if m.pcP <= 3 then 36 - m.pcP
    else if m.pcP < 8 then 30 - m.pcP
    else 22
  }

  function Place(m: Machine, cpu: Cpu): nat {
    if m.pcM < 7 then 46 - m.pcM
    else if m.pcM == 8 then 20
    else if 5 in m.irq then 39
    else if m.pcD == 1 then 38
    else if m.pcD == 2 || m.pcD == 4 then 37
    else if 6 in m.irq || 7 in m.irq then 36
    else if m.pcC != 0 then CtrlPortPlace(m, cpu)
    else if m.pcP != 0 then DataPortPlace(m)
    else 21
  }

  /** Steps left until WAIT is released. */
  function Rank(s: State): nat {
    2 * Place(s.m, s.cpu) + One(s.m.pcD == 3) + LateWork(s.cpu.late)
  }

  /** An access is waiting. */
  predicate Waiting(s: State) {
    Inv(s) && s.host.selected && !s.m.waitHigh
  }

  /** Progress is made by the state machines, db_data_port's FIFO being ready when it transfers, by the
      interrupt handlers, that of the CTRL port when it has an answer, and by cbus_value_write once begun. */
  predicate Works(s: State, e: Event) {
    match e
    case Tick(sm, choice) => sm == DataPort && (s.m.pcP == 5 || s.m.pcP == 7) ==> choice
    case CtrlIrq => s.cpu.late.NoLate?
    case CtrlRun(answer) => answer.Supply?
    case DataIrq(_) => true
    case ValueRun => true
    case _ => false
  }

  lemma ModselWorks(s: State, choice: bool)
    requires Waiting(s)
    ensures var t := Exec(s, Modsel, choice); t == s || t.m.waitHigh || Rank(t) < Rank(s)
  {
    ModselExec(s, choice);
  }

  lemma CtrlDataWorks(s: State, choice: bool)
    requires Waiting(s)
    ensures var t := Exec(s, CtrlData, choice); t == s || Rank(t) < Rank(s)
  {
    CtrlDataExec(s, choice);
  }

  lemma CtrlPortWorks(s: State, choice: bool)
    requires Waiting(s)
    ensures var t := Exec(s, CtrlPort, choice); t == s || Rank(t) < Rank(s)
  {
    assert Fetch(CtrlPort, 3) == Code(OutPins8, NoSide) && Fetch(CtrlPort, 5) == Code(InPins8, NoSide);
    if s.m.pcC != 3 && s.m.pcC != 5 {
      CtrlPortExec(s, choice);
    }
  }

  lemma DataPortWorks(s: State, choice: bool)
    requires Waiting(s) && Works(s, Tick(DataPort, choice))
    ensures var t := Exec(s, DataPort, choice); t == s || Rank(t) < Rank(s)
  {
    assert Fetch(DataPort, 5) == Code(OutPins8, NoSide) && Fetch(DataPort, 7) == Code(InPins8, NoSide);
    if s.m.pcP != 5 && s.m.pcP != 7 {
      DataPortExec(s, choice);
    }
  }

  lemma CpuWorks(s: State, e: Event)
    requires Waiting(s) && Enabled(s, e) && Works(s, e) && !e.Tick?
    ensures Rank(Step(s, e)) < Rank(s)
  {
  }

  /** Only the host begins accesses. */
  lemma BegunStay(s: State, e: Event)
    requires Enabled(s, e) && Works(s, e)
    ensures Step(s, e).h.accesses == s.h.accesses && Step(s, e).host == s.host
  {
  }

  /** Whatever working event happens, it leaves the state alone, releases WAIT, or lowers the rank. */
  lemma WorkCounts(s: State, e: Event)
    requires Waiting(s) && Enabled(s, e) && Works(s, e)
    ensures var t := Step(s, e);
      && (t == s || t.m.waitHigh || Rank(t) < Rank(s))
      && (t.m.waitHigh || Waiting(t))
      && Inv(t) && t.host == s.host && t.h.accesses == s.h.accesses
  {
    StepKeeps(s, e);
    BegunStay(s, e);
    match e
    case Tick(Modsel, choice) => ModselWorks(s, choice);
    case Tick(CtrlData, choice) => CtrlDataWorks(s, choice);
    case Tick(CtrlPort, choice) => CtrlPortWorks(s, choice);
    case Tick(DataPort, choice) => DataPortWorks(s, choice);
    case _ => CpuWorks(s, e);
  }

  /** db_data_port has found its FIFO short and asks the CPU. */
  predicate DataAsks(m: Machine) { m.pcP == 4 || (m.pcP == 3 && m.y) }

  lemma PortMoves(s: State) returns (e: Event)
    requires Waiting(s) && s.m.pcM == 7 && 4 !in s.m.irq && 5 !in s.m.irq && !CtrlDataHolds(s.m)
    requires 0 !in s.m.irq && 1 !in s.m.irq && 2 !in s.m.irq
    ensures Enabled(s, e) && Works(s, e) && Step(s, e) != s && e.Tick?
    ensures !DataAsks(s.m) ==> !DataAsks(Step(s, e).m)
  {
    if s.host.addr {
      var choice := s.m.pcP != 2;
      e := Tick(DataPort, choice);
      assert Fetch(DataPort, 5) == Code(OutPins8, NoSide) && Fetch(DataPort, 7) == Code(InPins8, NoSide);
      if s.m.pcP != 5 && s.m.pcP != 7 {
        DataPortExec(s, choice);
      }
    } else {
      e := Tick(CtrlPort, true);
      assert Fetch(CtrlPort, 3) == Code(OutPins8, NoSide) && Fetch(CtrlPort, 5) == Code(InPins8, NoSide);
      if s.m.pcC != 3 && s.m.pcC != 5 {
        CtrlPortExec(s, true);
      }
    }
  }

  /** ...and there always is one that changes the state: the handshake cannot deadlock.  An access to
      the data port needs the CPU only once the FIFO has been found short. */
  lemma SomethingWorks(s: State) returns (e: Event)
    requires Waiting(s)
    ensures Enabled(s, e) && Works(s, e) && Step(s, e) != s
    ensures s.host.addr && !DataAsks(s.m) ==> e.Tick? && !DataAsks(Step(s, e).m)
  {
    if s.m.pcM != 7 || 4 in s.m.irq {
      e := Tick(Modsel, true);
      ModselExec(s, true);
    } else if 5 in s.m.irq || CtrlDataHolds(s.m) {
      e := Tick(CtrlData, true);
      CtrlDataExec(s, true);
    } else if 2 in s.m.irq {
      e := DataIrq(0);
      CpuWorks(s, e);
    } else if 0 in s.m.irq || 1 in s.m.irq {
      e := if !s.cpu.handler.NotRunning? then CtrlRun(Supply(0))
           else if s.cpu.late.NoLate? then CtrlIrq
           else ValueRun;
      CpuWorks(s, e);
    } else {
      e := PortMoves(s);
    }
  }

  /** From every state with an access waiting, working events alone carry it out, once if that has not
      happened yet, and release WAIT, after at most `Rank` changes of state. */
  lemma {:induction false} AccessCompletes(s: State) returns (es: seq<Event>)
    requires Waiting(s)
    ensures Possible(s, es) && |es| <= Rank(s) <= 95
    ensures var t := Final(s, es);
      && t.m.waitHigh && t.host == s.host && t.h.accesses == s.h.accesses
      && t.h.served == if Unserved(s.m, s.host) then s.h.served + [Access(s.host.addr, s.host.rd)] else s.h.served
    ensures s.host.addr && !DataAsks(s.m) ==> forall e :: e in es ==> e.Tick?
    decreases Rank(s)
  {
    var e := SomethingWorks(s);
    WorkCounts(s, e);
    var t := Step(s, e);
    if t.m.waitHigh {
      es := [e];
      assert Possible(t, es[1..]) && Final(t, es[1..]) == t;
      assert t.m.pcM == 8 && !Unserved(t.m, t.host);
    } else {
      var rest := AccessCompletes(t);
      es := [e] + rest;
      assert es[1..] == rest;
    }
  }

  /** So whatever access an idle host begins, to either port and in either direction, has a run after
      which it has been carried out once and WAIT is released; the host can then end it.  On the data
      port instructions alone do it. */
  lemma BegunAccessCompletes(s: State, a: Access, byte: Byte) returns (es: seq<Event>)
    requires Inv(s) && Enabled(s, HostBegin(a, byte))
    ensures Possible(Step(s, HostBegin(a, byte)), es)
    ensures var t := Final(Step(s, HostBegin(a, byte)), es);
      && t.h.served == s.h.served + [a] && t.h.served == t.h.accesses
      && t.host == Host(true, a.addr, a.rd, byte) && Enabled(t, HostEnd)
    ensures a.addr ==> forall e :: e in es ==> e.Tick?
  {
    HostKeeps(s, HostBegin(a, byte));
    es := AccessCompletes(Step(s, HostBegin(a, byte)));
  }
}

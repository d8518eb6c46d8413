/** Command hand-over to the Debug Monitor (src-rp/dc/dmcomm.c).  On core 0 message handlers run one at
    a time and the CTRL-read interrupt may arrive between any two of their statements; on core 1 the
    shell's cancel command may run between any two statements of either. */
module DmComm {

  type Byte = n: int | 0 <= n < 256

  const DMNOP: Byte := 0xFA
  /** The value dminit_status_set installs; the firmware only ever passes DC_INITRDY. */
  const DC_INITRDY: Byte := DMNOP
  const DC_CTRLRDUNXPCTD: Byte := 0xEE
  const NOCMD: Byte := 0
  const DMINIT: Byte := 0x80
  const DMOPDONE: Byte := 0x82
  const DMSSDONE: Byte := 0x8A
  const DMBRKHIT: Byte := 0x8C
  const DMBRT: Byte := 0x90

  /** v & DM_CMDSTAT_IND */
  predicate FromMonitor(v: Byte) { v >= 0x80 }

  /** v & ~DMSTATSBC_M */
  function StatusOf(v: Byte): Byte { v - v % 2 }

  /** What is left to do once _dm_cmd_prep returns. */
  datatype After = Return | ThenPost(status: Byte)

  /** Where the running message handler stands: the constructor names its next statement. */
  datatype Handler =
    | Idle
    | StoreCmd(cmd: Byte, readNext: bool, after: After)
    | StoreExpected(cmd: Byte, readNext: bool, after: After)
    | StoreInProgress(cmd: Byte, after: After)
    | TestExpected(status: Byte)
    | PostStatus(status: Byte)
    | PostDone

  /** Where _ctrl_rd_hdlr stands; `d` is the value it will return. */
  datatype Reader =
    | NotReading
    | ReadTest
    | ReadCmd
    | ReadLoad(d: Byte)                // loads _dm_cmdstat once more...
    | ReadLast(d: Byte, loaded: Byte)  // ...and stores it in _dm_lastcmd
    | ReadClear(d: Byte)
    | ReadUnexpect(d: Byte)
    | ReadUnexpected
    | ReadReturn(d: Byte)

  /** Where dmc_op_cancel stands. */
  datatype Canceller =
    | NotCancelling
    | CancelLoad
    | CancelLast(loaded: Byte)
    | CancelCmd
    | CancelExpected
    | CancelInProgress

  datatype State = State(
    cmdstat: Byte, expected: bool, lastcmd: Byte, inProgress: Byte, lastWrite: Byte,
    handler: Handler, reader: Reader, cancel: Canceller,
    requested: seq<Byte>, delivered: seq<Byte>, statuses: seq<Byte>, reported: seq<Byte>)

  /** A message handler starts (Request, Status) or executes one statement (Run); the host reads the
      CTRL port and interrupts core 0 (Read, ReadRun), or writes it; core 1 cancels (Cancel, CancelRun). */
  datatype Event =
    | Request(cmd: Byte)
    | Status(value: Byte)
    | Run
    | Read
    | ReadRun
    | HostWrite(value: Byte)
    | Cancel
    | CancelRun

  predicate Enabled(s: State, e: Event) {
    match e
    case Request(_) => s.reader.NotReading? && s.handler.Idle?
    case Status(_) => s.reader.NotReading? && s.handler.Idle?
    case Run => s.reader.NotReading? && !s.handler.Idle?
    case Read => s.reader.NotReading?
    case ReadRun => !s.reader.NotReading?
    case HostWrite(_) => s.reader.NotReading?
    case Cancel => s.cancel.NotCancelling?
    case CancelRun => !s.cancel.NotCancelling?
  }

  /** dmcomm_modinit */
  predicate Init(s: State) {
    && s.cmdstat == DC_INITRDY && s.expected && s.handler.Idle? && s.reader.NotReading? && s.cancel.NotCancelling?
    && s.requested == [] && s.delivered == [] && s.statuses == [] && s.reported == []
  }

  /** _handle_ctrl_write up to its first access to the shared variables */
  function OnStatus(v: Byte): Handler {
    if !FromMonitor(v) then Idle
    else if StatusOf(v) == DMINIT then
      if DC_INITRDY != 0 then StoreCmd(DC_INITRDY, true, ThenPost(v)) else PostStatus(v)
    else if StatusOf(v) in {DMBRT, DMBRKHIT, DMSSDONE} then TestExpected(v)
    else PostStatus(v)
  }

  function Resume(a: After): Handler {
    match a
    case Return => Idle
    case ThenPost(v) => PostStatus(v)
  }

  /** One statement of the running handler. */
  function RunHandler(s: State): State
    requires !s.handler.Idle?
  {
    match s.handler
    case StoreCmd(cmd, readNext, after) => s.(cmdstat := cmd, handler := StoreExpected(cmd, readNext, after))
    case StoreExpected(cmd, readNext, after) => s.(expected := readNext, handler := StoreInProgress(cmd, after))
    case StoreInProgress(cmd, after) =>
      s.(inProgress := if cmd != DMNOP && cmd != DC_INITRDY then cmd else NOCMD, handler := Resume(after))
    case TestExpected(v) =>
      s.(handler := if s.expected then PostStatus(v) else StoreCmd(DMNOP, true, ThenPost(v)))
    case PostStatus(v) =>
      s.(statuses := s.statuses + [v], handler := if StatusOf(v) == DMOPDONE then PostDone else Idle)
    case PostDone => s.(reported := s.reported + [s.lastcmd], handler := Idle)
  }

  /** One statement of _ctrl_rd_hdlr, with the default value its caller supplies when it declines. */
  function RunReader(s: State): State
    requires !s.reader.NotReading?
  {
    match s.reader
    case ReadTest =>
      if s.expected then s.(reader := ReadCmd)
      else if FromMonitor(s.lastWrite) && StatusOf(s.lastWrite) != DMINIT then s.(reader := ReadUnexpected)
      else s.(reader := ReadReturn(DC_INITRDY))
    case ReadCmd => s.(reader := ReadLoad(s.cmdstat))
    case ReadLoad(d) => s.(reader := ReadLast(d, s.cmdstat))
    case ReadLast(d, loaded) => s.(lastcmd := loaded, reader := ReadClear(d))
    case ReadClear(d) => s.(cmdstat := DMNOP, reader := ReadUnexpect(d))
    case ReadUnexpect(d) => s.(expected := false, reader := ReadReturn(d))
    case ReadUnexpected => s.(lastcmd := DC_CTRLRDUNXPCTD, reader := ReadReturn(DC_INITRDY))
    case ReadReturn(d) => s.(delivered := s.delivered + [d], reader := NotReading)
  }

  /** One statement of dmc_op_cancel. */
  function RunCancel(s: State): State
    requires !s.cancel.NotCancelling?
  {
    match s.cancel
    case CancelLoad => s.(cancel := CancelLast(s.cmdstat))
    case CancelLast(loaded) => s.(lastcmd := loaded, cancel := CancelCmd)
    case CancelCmd => s.(cmdstat := DMNOP, cancel := CancelExpected)
    case CancelExpected => s.(expected := false, cancel := CancelInProgress)
    case CancelInProgress => s.(inProgress := NOCMD, cancel := NotCancelling)
  }

  function Step(s: State, e: Event): State
    requires Enabled(s, e)
  {
    match e
    case Request(cmd) => s.(handler := StoreCmd(cmd, true, Return), requested := s.requested + [cmd])
    case Status(v) => s.(handler := OnStatus(v))
    case Run => RunHandler(s)
    case Read => s.(reader := ReadTest)
    case ReadRun => RunReader(s)
    case HostWrite(v) => s.(lastWrite := v)
    case Cancel => s.(cancel := CancelLoad)
    case CancelRun => RunCancel(s)
  }

  /** A run: every event is enabled when it happens. */
  predicate Possible(s: State, es: seq<Event>)
    decreases es
  {
    es == [] || (Enabled(s, es[0]) && Possible(Step(s, es[0]), es[1..]))
  }

  function Final(s: State, es: seq<Event>): State
    requires Possible(s, es)
    decreases es
  {
    if es == [] then s else Final(Step(s, es[0]), es[1..])
  }

  // ------------------------------------------------------------------
  // Commands arrive in order and at most once

  /** The bytes that carry a command. */
  function Commands(bytes: seq<Byte>): seq<Byte> {
    if bytes == [] then []
    else
      var front, last := Commands(bytes[..|bytes| - 1]), bytes[|bytes| - 1];
      if last == DMNOP then front else front + [last]
  }

  lemma CommandsSnoc(bytes: seq<Byte>, b: Byte)
    ensures Commands(bytes + [b]) == Commands(bytes) + (if b == DMNOP then [] else [b])
  {
    assert (bytes + [b])[..|bytes|] == bytes;
  }

  /** `at` picks, in order and without repetition, the entries of `whole` that make up `part`. */
  predicate Embeds(part: seq<Byte>, whole: seq<Byte>, at: seq<nat>) {
    && |at| == |part|
    && (forall i :: 0 <= i < |at| ==> at[i] < |whole| && part[i] == whole[at[i]])
    && (forall i, j :: 0 <= i < j < |at| ==> at[i] < at[j])
  }

  ghost predicate Subsequence(part: seq<Byte>, whole: seq<Byte>) {
    exists at :: Embeds(part, whole, at)
  }

  /** The command a handler is about to store, if any. */
  function Incoming(h: Handler): Byte {
    if h.StoreCmd? then h.cmd else DMNOP
  }

  /** The interrupt has taken a byte and not yet handed it over. */
  predicate Holds(r: Reader) { r.ReadLoad? || r.ReadLast? || r.ReadClear? || r.ReadUnexpect? || r.ReadReturn? }

  function Taken(s: State): seq<Byte> {
    if Holds(s.reader) then s.delivered + [s.reader.d] else s.delivered
  }

  /** The stored command, unless the interrupt has taken it and is about to clear it. */
  function Stored(s: State): Byte {
    if s.reader.ReadLoad? || s.reader.ReadLast? || s.reader.ReadClear? then DMNOP else s.cmdstat
  }

  /** The commands `read` so far are requests `at`, the one `stored` comes from a later request, and one
      on its way to be stored is the last request. */
  predicate Follows(requested: seq<Byte>, read: seq<Byte>, stored: Byte, incoming: Byte, at: seq<nat>, waiting: nat) {
    var n := |requested|;
    && Embeds(read, requested, at)
    && (stored != DMNOP ==>
          waiting < n && requested[waiting] == stored && forall i :: 0 <= i < |at| ==> at[i] < waiting)
    && (incoming != DMNOP ==>
          && n > 0 && requested[n - 1] == incoming
          && (stored != DMNOP ==> waiting < n - 1)
          && forall i :: 0 <= i < |at| ==> at[i] < n - 1)
  }

  predicate Tracks(s: State, at: seq<nat>, waiting: nat) {
    Follows(s.requested, Commands(Taken(s)), Stored(s), Incoming(s.handler), at, waiting)
  }

  lemma EmbedsMore(part: seq<Byte>, whole: seq<Byte>, at: seq<nat>, next: nat)
    requires Embeds(part, whole, at) && next < |whole|
    requires forall i :: 0 <= i < |at| ==> at[i] < next
    ensures Embeds(part + [whole[next]], whole, at + [next])
  {
  }

  lemma RequestFollows(requested: seq<Byte>, read: seq<Byte>, stored: Byte, cmd: Byte, at: seq<nat>, waiting: nat)
    requires Follows(requested, read, stored, DMNOP, at, waiting)
    ensures Follows(requested + [cmd], read, stored, cmd, at, waiting)
  {
    forall i | 0 <= i < |at|
      ensures at[i] < |requested + [cmd]| && (requested + [cmd])[at[i]] == read[i]
    {
      assert (requested + [cmd])[at[i]] == requested[at[i]];
    }
  }

  /** The stored command is read... */
  lemma TakeFollows(requested: seq<Byte>, read: seq<Byte>, c: Byte, incoming: Byte, at: seq<nat>, waiting: nat)
    requires Follows(requested, read, c, incoming, at, waiting) && c != DMNOP
    ensures Follows(requested, read + [c], DMNOP, incoming, at + [waiting], waiting)
  {
    EmbedsMore(read, requested, at, waiting);
  }

  /** ...or goes without being read... */
  lemma DropFollows(requested: seq<Byte>, read: seq<Byte>, c: Byte, incoming: Byte, at: seq<nat>, waiting: nat)
    requires Follows(requested, read, c, incoming, at, waiting)
    ensures Follows(requested, read, DMNOP, incoming, at, waiting)
  { }

  /** ...and the one on its way takes its place. */
  lemma StoreFollows(requested: seq<Byte>, read: seq<Byte>, c: Byte, incoming: Byte, at: seq<nat>, waiting: nat)
      returns (waiting': nat)
    requires Follows(requested, read, c, incoming, at, waiting)
    ensures Follows(requested, read, incoming, DMNOP, at, waiting')
  {
    waiting' := if incoming != DMNOP then |requested| - 1 else waiting;
  }

  /** The interrupt takes the stored command in hand. */
  lemma TakeTracks(s: State, at: seq<nat>, waiting: nat) returns (at': seq<nat>)
    requires s.reader.ReadCmd? && Tracks(s, at, waiting)
    ensures Tracks(RunReader(s), at', waiting)
  {
    var s' := RunReader(s);
    CommandsSnoc(s.delivered, s.cmdstat);
    assert Taken(s) == s.delivered && Taken(s') == s.delivered + [s.cmdstat];
    at' := at;
    if s.cmdstat != DMNOP {
      at' := at + [waiting];
      TakeFollows(s.requested, Commands(s.delivered), s.cmdstat, Incoming(s.handler), at, waiting);
    }
  }

  /** Its other statements take no command... */
  lemma ReaderTakes(s: State)
    requires !s.reader.NotReading? && !s.reader.ReadCmd?
    ensures Commands(Taken(RunReader(s))) == Commands(Taken(s))
  {
    var s' := RunReader(s);
    if s.reader.ReadTest? || s.reader.ReadUnexpected? {
      CommandsSnoc(s.delivered, DC_INITRDY);
      assert Taken(s) == s.delivered;
      assert Taken(s') == s.delivered || Taken(s') == s.delivered + [DC_INITRDY];
    } else {
      assert Taken(s') == Taken(s);
    }
  }

  lemma NothingStored(s: State, t: State, at: seq<nat>, waiting: nat)
    requires t.requested == s.requested && Incoming(t.handler) == Incoming(s.handler)
    requires Commands(Taken(t)) == Commands(Taken(s))
    requires Stored(t) == Stored(s) || Stored(t) == DMNOP
    requires Tracks(s, at, waiting)
    ensures Tracks(t, at, waiting)
  {
    DropFollows(s.requested, Commands(Taken(s)), Stored(s), Incoming(s.handler), at, waiting);
  }

  /** ...and store none. */
  lemma ReaderTracks(s: State, at: seq<nat>, waiting: nat)
    requires !s.reader.NotReading? && !s.reader.ReadCmd? && Tracks(s, at, waiting)
    ensures Tracks(RunReader(s), at, waiting)
  {
    ReaderTakes(s);
    NothingStored(s, RunReader(s), at, waiting);
  }

  lemma HandlerStores(s: State)
    requires Enabled(s, Run)
    ensures var t := RunHandler(s);
      && t.requested == s.requested && Taken(t) == Taken(s) && Incoming(t.handler) == DMNOP
      && Stored(t) == if s.handler.StoreCmd? then s.handler.cmd else Stored(s)
  { }

  lemma HandlerTracks(s: State, t: State, at: seq<nat>, waiting: nat) returns (waiting': nat)
    requires t.requested == s.requested && Taken(t) == Taken(s) && Incoming(t.handler) == DMNOP
    requires Stored(t) == if s.handler.StoreCmd? then s.handler.cmd else Stored(s)
    requires Tracks(s, at, waiting)
    ensures Tracks(t, at, waiting')
  {
    if s.handler.StoreCmd? {
      waiting' := StoreFollows(s.requested, Commands(Taken(s)), Stored(s), s.handler.cmd, at, waiting);
    } else {
      waiting' := waiting;
    }
  }

  lemma CancelStores(s: State)
    requires Enabled(s, CancelRun)
    ensures var t := RunCancel(s);
      && t.requested == s.requested && Taken(t) == Taken(s) && t.handler == s.handler
      && (Stored(t) == Stored(s) || Stored(t) == DMNOP)
  { }

  /** Every step keeps the tracking, whatever the interleaving. */
  lemma StepTracks(s: State, e: Event, at: seq<nat>, waiting: nat) returns (at': seq<nat>, waiting': nat)
    requires Enabled(s, e) && Tracks(s, at, waiting)
    ensures Tracks(Step(s, e), at', waiting')
  {
    at', waiting' := at, waiting;
    match e
    case Request(cmd) =>
      assert Taken(Step(s, e)) == Taken(s);
      RequestFollows(s.requested, Commands(Taken(s)), Stored(s), cmd, at, waiting);
    case ReadRun => if s.reader.ReadCmd? { at' := TakeTracks(s, at, waiting); } else { ReaderTracks(s, at, waiting); }
    case Run =>
      HandlerStores(s);
      waiting' := HandlerTracks(s, RunHandler(s), at, waiting);
    case CancelRun =>
      CancelStores(s);
      NothingStored(s, RunCancel(s), at, waiting);
    case _ => assert Taken(Step(s, e)) == Taken(s);
  }

  lemma {:induction false} RunTracks(s: State, es: seq<Event>, at: seq<nat>, waiting: nat)
      returns (at': seq<nat>, waiting': nat)
    requires Possible(s, es) && Tracks(s, at, waiting)
    ensures Tracks(Final(s, es), at', waiting')
    decreases es
  {
    at', waiting' := at, waiting;
    if es == [] {
    } else {
      at', waiting' := StepTracks(s, es[0], at, waiting);
      at', waiting' := RunTracks(Step(s, es[0]), es[1..], at', waiting');
    }
  }

  lemma DeliveredIsTaken(s: State)
    ensures Commands(s.delivered) <= Commands(Taken(s))
  {
    if Holds(s.reader) { CommandsSnoc(s.delivered, s.reader.d); }
  }

  /** In every run from start-up, what the host reads, less the NOPs, is an in-order
      subsequence of the requested commands: nothing is invented, reordered or delivered twice. */
  lemma CommandsInOrderOnce(s: State, es: seq<Event>)
    requires Init(s) && Possible(s, es)
    ensures Subsequence(Commands(Final(s, es).delivered), Final(s, es).requested)
  {
    var none: seq<nat> := [];
    assert Taken(s) == [] && Tracks(s, none, 0);
    var at, waiting := RunTracks(s, es, none, 0);
    var t := Final(s, es);
    DeliveredIsTaken(t);
    assert Embeds(Commands(t.delivered), t.requested, at[..|Commands(t.delivered)|]);
  }

  // ------------------------------------------------------------------
  // The read interrupt when no cancel overlaps it

  function ReaderLeft(r: Reader): nat {
    match r
    case NotReading => 0
    case ReadReturn(_) => 1
    case ReadUnexpect(_) => 2
    case ReadUnexpected => 2
    case ReadClear(_) => 3
    case ReadLast(_, _) => 4
    case ReadLoad(_) => 5
    case ReadCmd => 6
    case ReadTest => 7
  }

  /** The interrupt finishes. */
  function FinishRead(s: State): State
    decreases ReaderLeft(s.reader)
  {
    if s.reader.NotReading? then s else FinishRead(RunReader(s))
  }

  /** What a whole read does. */
  function WholeRead(s: State): State {
    if s.expected then
      s.(delivered := s.delivered + [s.cmdstat], lastcmd := s.cmdstat, cmdstat := DMNOP, expected := false)
    else if FromMonitor(s.lastWrite) && StatusOf(s.lastWrite) != DMINIT then
      s.(delivered := s.delivered + [DC_INITRDY], lastcmd := DC_CTRLRDUNXPCTD)
    else
      s.(delivered := s.delivered + [DC_INITRDY])
  }

  lemma ReadFinishes(s: State)
    requires s.reader.NotReading?
    ensures FinishRead(s.(reader := ReadTest)) == WholeRead(s)
  {
    var s1 := s.(reader := ReadTest);
    var s2 := RunReader(s1);
    if s.expected {
      var s4 := RunReader(RunReader(s2));
      var s6 := RunReader(RunReader(s4));
      assert FinishRead(s1) == FinishRead(s2) == FinishRead(RunReader(s2)) == FinishRead(s4);
      assert FinishRead(s4) == FinishRead(RunReader(s4)) == FinishRead(s6);
      assert FinishRead(s6) == FinishRead(RunReader(s6)) == RunReader(RunReader(s6));
    } else {
      assert FinishRead(s1) == FinishRead(s2) == FinishRead(RunReader(s2));
      if s2.reader.ReadUnexpected? { assert FinishRead(RunReader(s2)) == RunReader(RunReader(s2)); }
    }
  }

  /** Every run without a cancel that gets to the end of a read has nothing but the read in it until then. */
  lemma {:induction false} ReadIsWhole(s: State, es: seq<Event>)
    requires !s.reader.NotReading? && s.cancel.NotCancelling? && Possible(s, es) && Cancel !in es
    ensures Final(s, es).reader.NotReading? ==>
      exists k :: 0 < k <= |es| && Possible(s, es[..k]) && Final(s, es[..k]) == FinishRead(s)
    decreases es
  {
    if es == [] {
    } else {
      assert es[0] in es && es[0] == ReadRun;
      var s' := RunReader(s);
      assert [ReadRun][1..] == [] && Final(s', []) == s';
      if s'.reader.NotReading? {
        assert es[..1] == [ReadRun] && Possible(s, es[..1]) && Final(s, es[..1]) == s' == FinishRead(s);
      } else {
        ReadIsWhole(s', es[1..]);
        if Final(s, es).reader.NotReading? {
          var k :| 0 < k <= |es[1..]| && Possible(s', es[1..][..k]) && Final(s', es[1..][..k]) == FinishRead(s');
          assert es[..k + 1][1..] == es[1..][..k];
        }
      }
    }
  }

  // ------------------------------------------------------------------
  // A stored command survives status traffic

  predicate IsInit(v: Byte) { FromMonitor(v) && StatusOf(v) == DMINIT }

  /** Events that may not discard a waiting command: everything but another request, DMINIT and cancel. */
  predicate Harmless(e: Event) {
    match e
    case Request(_) => false
    case Cancel => false
    case Status(v) => !IsInit(v)
    case _ => true
  }

  /** No cancel is under way and the handler is past the point where it could overwrite the command. */
  predicate NoThreat(s: State) {
    && s.cancel.NotCancelling?
    && match s.handler
       case StoreCmd(_, _, _) => false
       case StoreExpected(_, readNext, _) => readNext
       case _ => s.expected
  }

  /** Command `c` is stored and is not being read. */
  predicate Waiting(s: State, c: Byte) {
    s.cmdstat == c && s.reader.NotReading? && NoThreat(s)
  }

  lemma WaitingStep(s: State, e: Event, c: Byte)
    requires Enabled(s, e) && Harmless(e) && e != Read && Waiting(s, c) && c != DMNOP
    ensures Step(s, e).delivered == s.delivered && Waiting(Step(s, e), c)
    ensures s.expected ==> Step(s, e).expected
  {
  }

  /** However many statuses arrive, a fully requested command stays until the next CTRL read... */
  lemma {:induction false} WaitsForRead(s: State, es: seq<Event>, c: Byte)
    requires Possible(s, es) && Waiting(s, c) && c != DMNOP
    requires Read !in es && forall e :: e in es ==> Harmless(e)
    ensures var s' := Final(s, es); Waiting(s', c) && s'.delivered == s.delivered
    ensures !s.handler.StoreExpected? ==> Final(s, es).expected
    decreases es
  {
    if es == [] {
    } else {
      assert es[0] in es;
      WaitingStep(s, es[0], c);
      WaitsForRead(Step(s, es[0]), es[1..], c);
    }
  }

  /** ...and that read returns it exactly when it is expected: only a read between the two stores of the
      request itself, with no earlier expectation open, gets the idle answer, and then the next gets the command. */
  lemma NextReadDelivers(s: State, es: seq<Event>, c: Byte)
    requires Possible(s, es) && Waiting(s, c) && c != DMNOP
    requires Read !in es && forall e :: e in es ==> Harmless(e)
    ensures var s' := Final(s, es);
      && Enabled(s', Read)
      && var t := FinishRead(Step(s', Read));
      && t.delivered == s.delivered + [if s'.expected then c else DMNOP]
      && (s'.expected ==> t.lastcmd == c && t.cmdstat == DMNOP)
      && (!s'.expected ==> s'.handler.StoreExpected? && Waiting(t, c))
      && (!s.handler.StoreExpected? ==> s'.expected)
  {
    WaitsForRead(s, es, c);
    ReadFinishes(Final(s, es));
  }

  /** A request becomes a waiting command as soon as its handler has made its first store. */
  lemma RequestWaits(s: State, c: Byte)
    requires s.handler == StoreCmd(c, true, Return) && s.reader.NotReading? && s.cancel.NotCancelling?
    ensures Waiting(Step(s, Run), c)
  {
  }

  // ------------------------------------------------------------------
  // When a stored command is lost

  /** The event stores another command, or none, in place of `c`: the first store of a request, of a
      DMINIT handler or of a cancel. */
  predicate Replaces(s: State, e: Event, c: Byte) {
    || (e == Run && s.handler.StoreCmd? && s.handler.cmd != c
        && (s.handler.after.Return? || IsInit(s.handler.after.status)))
    || (e == CancelRun && s.cancel.CancelCmd?)
  }

  predicate NeverReplaced(s: State, es: seq<Event>, c: Byte)
    requires Possible(s, es)
    decreases es
  {
    es == [] || (!Replaces(s, es[0], c) && NeverReplaced(Step(s, es[0]), es[1..], c))
  }

  predicate StaysStored(s: State, es: seq<Event>, c: Byte)
    requires Possible(s, es)
    decreases es
  {
    s.cmdstat == c && (es == [] || StaysStored(Step(s, es[0]), es[1..], c))
  }

  /** Command `c` is stored, and nothing but a replacement can be about to overwrite it. */
  predicate Held(s: State, c: Byte) {
    && s.cmdstat == c && s.reader.NotReading?
    && (s.cancel.NotCancelling? || s.cancel.CancelLoad? || s.cancel.CancelLast? || s.cancel.CancelCmd?)
    && match s.handler
       case StoreExpected(_, readNext, _) => readNext
       case StoreCmd(_, readNext, after) => s.expected && readNext && (after.Return? || IsInit(after.status))
       case _ => s.expected
  }

  lemma HeldStep(s: State, e: Event, c: Byte)
    requires Enabled(s, e) && e != Read && Held(s, c) && c != DMNOP
    ensures if Replaces(s, e, c) then Step(s, e).cmdstat != c else Held(Step(s, e), c)
  {
  }

  /** The exact losses: with no read, whatever else happens, a waiting command stays stored exactly as
      long as no request of another command, no DMINIT handler and no cancel makes its first store. */
  lemma {:induction false} LostIff(s: State, es: seq<Event>, c: Byte)
    requires Held(s, c) && c != DMNOP && Possible(s, es) && Read !in es
    ensures StaysStored(s, es, c) <==> NeverReplaced(s, es, c)
    decreases es
  {
    if es == [] {
    } else {
      assert es[0] in es;
      HeldStep(s, es[0], c);
      if !Replaces(s, es[0], c) { LostIff(Step(s, es[0]), es[1..], c); }
    }
  }

  lemma WaitingIsHeld(s: State, c: Byte)
    requires Waiting(s, c)
    ensures Held(s, c)
  { }

  /** A replacement that has begun, but not stored, still loses to the read. */
  lemma ReadBeatsReplacement(s: State, d: Byte, c: Byte)
    requires Waiting(s, c) && s.handler.Idle?
    ensures var t := Step(s, Request(d));
      Enabled(t, Read) && FinishRead(Step(t, Read)).delivered == s.delivered + [c]
  {
    ReadFinishes(Step(s, Request(d)));
  }

  lemma {:induction false} Snoc(s: State, es: seq<Event>, e: Event)
    requires Possible(s, es) && Enabled(Final(s, es), e)
    ensures Possible(s, es + [e]) && Final(s, es + [e]) == Step(Final(s, es), e)
    decreases es
  {
    if es == [] {
      assert Possible(Step(s, e), [e][1..]) && Final(Step(s, e), [e][1..]) == Step(s, e);
    } else {
      Snoc(Step(s, es[0]), es[1..], e);
      assert (es + [e])[1..] == es[1..] + [e];
    }
  }

  lemma Do(s: State, es: seq<Event>, e: Event) returns (es': seq<Event>)
    requires Possible(s, es) && Enabled(Final(s, es), e)
    ensures Possible(s, es') && Final(s, es') == Step(Final(s, es), e)
  {
    Snoc(s, es, e);
    es' := es + [e];
  }

  /** The cancel up to its third statement. */
  lemma CancelsHalf(s: State, es: seq<Event>) returns (es': seq<Event>)
    requires Possible(s, es) && Final(s, es).cancel.NotCancelling?
    ensures Possible(s, es')
    ensures var t := Final(s, es);
      Final(s, es') == t.(lastcmd := t.cmdstat, cmdstat := DMNOP, cancel := CancelExpected)
  {
    es' := Do(s, es, Cancel);
    es' := Do(s, es', CancelRun);
    es' := Do(s, es', CancelRun);
    es' := Do(s, es', CancelRun);
  }

  lemma Requests(s: State, es: seq<Event>, c: Byte) returns (es': seq<Event>)
    requires Possible(s, es) && Final(s, es).handler.Idle? && Final(s, es).reader.NotReading?
    ensures Possible(s, es')
    ensures var t := Final(s, es);
      Final(s, es') == t.(requested := t.requested + [c], cmdstat := c, expected := true,
                          inProgress := if c != DMNOP && c != DC_INITRDY then c else NOCMD)
  {
    es' := Do(s, es, Request(c));
    es' := Do(s, es', Run);
    es' := Do(s, es', Run);
    es' := Do(s, es', Run);
  }

  /** A cancel of an earlier command that is half done when the next request is handled leaves that
      request stored but not expected: no handler is running and the read does not return it. */
  lemma CancelStrandsRequest(s: State, c: Byte) returns (es: seq<Event>)
    requires s.handler.Idle? && s.reader.NotReading? && s.cancel.NotCancelling? && c != DMNOP
    ensures Possible(s, es)
    ensures var t := Final(s, es);
      && t.requested == s.requested + [c] && t.cmdstat == c && !t.expected
      && t.handler.Idle? && t.reader.NotReading? && t.cancel.NotCancelling?
      && FinishRead(Step(t, Read)).delivered == s.delivered + [DMNOP]
      && FinishRead(Step(t, Read)).cmdstat == c
  {
    es := CancelsHalf(s, []);
    es := Requests(s, es, c);
    es := Do(s, es, CancelRun);
    es := Do(s, es, CancelRun);
    ReadFinishes(Final(s, es));
  }

  lemma ReadTakes(s: State) returns (es: seq<Event>)
    requires s.reader.NotReading? && s.expected
    ensures Possible(s, es) && Final(s, es) == s.(reader := ReadLoad(s.cmdstat))
  {
    es := Do(s, [], Read);
    es := Do(s, es, ReadRun);
    es := Do(s, es, ReadRun);
  }

  lemma ReadGoesOn(s: State, es: seq<Event>) returns (es': seq<Event>)
    requires Possible(s, es) && Final(s, es).reader.ReadLoad?
    ensures Possible(s, es')
    ensures var t := Final(s, es);
      Final(s, es') == t.(lastcmd := t.cmdstat, cmdstat := DMNOP, expected := false,
                          delivered := t.delivered + [t.reader.d], reader := NotReading)
  {
    es' := Do(s, es, ReadRun);
    es' := Do(s, es', ReadRun);
    es' := Do(s, es', ReadRun);
    es' := Do(s, es', ReadRun);
    es' := Do(s, es', ReadRun);
  }

  /** The interrupt loads the command twice.  A cancel in between leaves the host with the command and
      the record of the last one with the NOP, which is what Command Done will then name. */
  lemma CancelSplitsRead(s: State) returns (es: seq<Event>)
    requires s.reader.NotReading? && s.cancel.NotCancelling? && s.expected
    ensures Possible(s, es)
    ensures var t := Final(s, es);
      t == s.(delivered := s.delivered + [s.cmdstat], lastcmd := DMNOP, cmdstat := DMNOP, expected := false,
              inProgress := NOCMD)
  {
    es := ReadTakes(s);
    es := CancelsHalf(s, es);
    es := ReadGoesOn(s, es);
    es := Do(s, es, CancelRun);
    es := Do(s, es, CancelRun);
  }

  // ------------------------------------------------------------------
  // Command Done names the command that was read

  predicate KeepsLast(e: Event) { !e.Read? && !e.Cancel? }

  predicate Settled(s: State) { s.reader.NotReading? && s.cancel.NotCancelling? }

  lemma {:induction false} LastCommandStays(s: State, es: seq<Event>)
    requires Possible(s, es) && Settled(s) && forall e :: e in es ==> KeepsLast(e)
    ensures var s' := Final(s, es); s'.lastcmd == s.lastcmd && Settled(s')
    ensures s.reported <= Final(s, es).reported
    ensures forall i :: |s.reported| <= i < |Final(s, es).reported| ==> Final(s, es).reported[i] == s.lastcmd
    decreases es
  {
    if es == [] {
    } else {
      assert es[0] in es && KeepsLast(es[0]);
      LastCommandStays(Step(s, es[0]), es[1..]);
    }
  }

  /** From the read that delivers `c`, every Command Done message names `c`
      for as long as there is no further CTRL read and no cancel. */
  lemma DoneReportsTheCommandRead(s: State, es: seq<Event>, c: Byte)
    requires s.expected && s.cmdstat == c && Settled(s)
    requires Possible(FinishRead(Step(s, Read)), es) && forall e :: e in es ==> KeepsLast(e)
    ensures var s' := Final(FinishRead(Step(s, Read)), es);
      && s.reported <= s'.reported
      && forall i :: |s.reported| <= i < |s'.reported| ==> s'.reported[i] == c
  {
    ReadFinishes(s);
    LastCommandStays(FinishRead(Step(s, Read)), es);
  }

  /** What can happen in the middle of a message handler. */
  predicate Interrupts(e: Event) { !e.Request? && !e.Status? }

  predicate PostsDone(h: Handler, v: Byte) {
    StatusOf(v) == DMOPDONE && (h == PostStatus(v) || h.PostDone?)
  }

  /** The handler of an operation-done status posts exactly one Command Done message, whatever reads,
      writes and cancels come in between: at event `k`, with what _dm_lastcmd then holds. */
  lemma {:induction false} DonePosted(s: State, es: seq<Event>, v: Byte) returns (k: nat)
    requires PostsDone(s.handler, v) && Possible(s, es) && forall e :: e in es ==> Interrupts(e)
    ensures var t := Final(s, es);
      if t.handler.Idle? then
        && k < |es| && es[k] == Run && Possible(s, es[..k])
        && t.reported == s.reported + [Final(s, es[..k]).lastcmd]
        && t.statuses == if s.handler.PostDone? then s.statuses else s.statuses + [v]
      else t.reported == s.reported && PostsDone(t.handler, v)
    decreases es
  {
    if es == [] {
      k := 0;
    } else if s.handler.PostDone? && es[0] == Run {
      k := 0;
      IdleStays(Step(s, Run), es[1..]);
    } else {
      assert es[0] in es;
      var rest := DonePosted(Step(s, es[0]), es[1..], v);
      k := rest + 1;
      if Final(s, es).handler.Idle? { assert es[..k][1..] == es[1..][..rest]; }
    }
  }

  lemma {:induction false} IdleStays(s: State, es: seq<Event>)
    requires s.handler.Idle? && Possible(s, es) && forall e :: e in es ==> Interrupts(e)
    ensures var t := Final(s, es); t.handler.Idle? && t.statuses == s.statuses && t.reported == s.reported
    decreases es
  {
    if es == [] {
    } else {
      assert es[0] in es;
      IdleStays(Step(s, es[0]), es[1..]);
    }
  }

  // ------------------------------------------------------------------
  // The handlers as the source writes them

  function StepsLeft(h: Handler): nat {
    match h
    case Idle => 0
    case PostDone => 1
    case PostStatus(_) => 2
    case StoreInProgress(_, _) => 3
    case StoreExpected(_, _, _) => 4
    case StoreCmd(_, _, _) => 5
    case TestExpected(_) => 6
  }

  /** The running handler finishes without interruption. */
  function Settle(s: State): State
    decreases StepsLeft(s.handler)
  {
    if s.handler.Idle? then s else Settle(RunHandler(s))
  }

  /** Settling is one of the runs: as many handler steps as it takes. */
  lemma {:induction false} SettleIsARun(s: State) returns (es: seq<Event>)
    requires s.reader.NotReading?
    ensures (forall e :: e in es ==> e == Run) && Possible(s, es) && Final(s, es) == Settle(s)
    decreases StepsLeft(s.handler)
  {
    if s.handler.Idle? {
      es := [];
    } else {
      var rest := SettleIsARun(RunHandler(s));
      es := [Run] + rest;
      assert es[1..] == rest;
    }
  }

  /** The three stores of _dm_cmd_prep in one. */
  lemma PrepSettles(s: State, cmd: Byte, readNext: bool, after: After)
    ensures Settle(s.(handler := StoreCmd(cmd, readNext, after)))
         == Settle(s.(cmdstat := cmd, expected := readNext,
                      inProgress := if cmd != DMNOP && cmd != DC_INITRDY then cmd else NOCMD, handler := Resume(after)))
  {
    var s1 := s.(handler := StoreCmd(cmd, readNext, after));
    var s2 := RunHandler(s1);
    var s3 := RunHandler(s2);
    assert Settle(s1) == Settle(s2) == Settle(s3) == Settle(RunHandler(s3));
  }

  lemma PostSettles(s: State, v: Byte)
    ensures Settle(s.(handler := PostStatus(v)))
         == s.(statuses := s.statuses + [v],
               reported := if StatusOf(v) == DMOPDONE then s.reported + [s.lastcmd] else s.reported, handler := Idle)
  {
    var s1 := RunHandler(s.(handler := PostStatus(v)));
    assert StatusOf(v) == DMOPDONE ==> Settle(s1) == Settle(RunHandler(s1));
  }

  /** No handler runs on core 0. */
  predicate Resting(s: State) { s.handler.Idle? && s.reader.NotReading? }

  /** The monitor starts, as 80 or 81: whatever was stored, the status that says ready is, the read of it
      is expected, and the next read returns it. */
  lemma InitMakesReady(s: State, v: Byte)
    requires Resting(s) && v in {0x80, 0x81}
    ensures var t := Settle(Step(s, Status(v)));
      && t == s.(cmdstat := 0xFA, expected := true, inProgress := 0, statuses := s.statuses + [v])
      && FinishRead(Step(t, Read)).delivered == s.delivered + [0xFA]
  {
    PrepSettles(s, 0xFA, true, ThenPost(v));
    var t := s.(cmdstat := 0xFA, expected := true, inProgress := 0);
    PostSettles(t, v);
    ReadFinishes(Settle(Step(s, Status(v))));
  }

  /** The monitor has stopped and will read: single step done (8A), breakpoint hit (8C) or being right there
      (90).  The read is expected then, of the waiting command if there is one and of the NOP otherwise. */
  lemma StopExpectsRead(s: State, v: Byte)
    requires Resting(s) && v in {0x8A, 0x8B, 0x8C, 0x8D, 0x90, 0x91}
    ensures var t := Settle(Step(s, Status(v)));
      && Resting(t) && t.expected && t.statuses == s.statuses + [v] && t.reported == s.reported
      && t.cmdstat == (if s.expected then s.cmdstat else 0xFA)
      && t.inProgress == (if s.expected then s.inProgress else 0)
      && t.lastcmd == s.lastcmd && t.delivered == s.delivered && t.requested == s.requested
      && FinishRead(Step(t, Read)).delivered == s.delivered + [if s.expected then s.cmdstat else 0xFA]
  {
    var s1 := Step(s, Status(v));
    assert Settle(s1) == Settle(RunHandler(s1));
    if s.expected {
      PostSettles(s, v);
    } else {
      PrepSettles(s, 0xFA, true, ThenPost(v));
      PostSettles(s.(cmdstat := 0xFA, expected := true, inProgress := 0), v);
    }
    ReadFinishes(Settle(s1));
  }

  /** An operation is done (82): it is reported with the command read last.  Every other status is only
      passed on, and what is no status changes nothing. */
  lemma OtherStatuses(s: State, v: Byte)
    requires Resting(s) && v !in {0x80, 0x81, 0x8A, 0x8B, 0x8C, 0x8D, 0x90, 0x91}
    ensures Settle(Step(s, Status(v))) ==
      if v < 0x80 then s
      else s.(statuses := s.statuses + [v], reported := if v in {0x82, 0x83} then s.reported + [s.lastcmd] else s.reported)
  {
    if v >= 0x80 { PostSettles(s, v); }
  }

  /** A request is stored and expected, and in progress unless it is the NOP; the next read returns it. */
  lemma RequestIsRead(s: State, c: Byte)
    requires Resting(s)
    ensures var t := Settle(Step(s, Request(c)));
      && t == s.(requested := s.requested + [c], cmdstat := c, expected := true, inProgress := if c == 0xFA then 0 else c)
      && FinishRead(Step(t, Read)).delivered == s.delivered + [c]
  {
    PrepSettles(s.(requested := s.requested + [c]), c, true, Return);
    ReadFinishes(Settle(Step(s, Request(c))));
  }

  /** A read that is not expected returns the status that says ready and takes no command; it is
      recorded when the last write was a status other than the initial one. */
  lemma UnexpectedRead(s: State)
    requires s.reader.NotReading? && !s.expected
    ensures FinishRead(Step(s, Read)) ==
      s.(delivered := s.delivered + [0xFA], lastcmd := if s.lastWrite >= 0x82 then 0xEE else s.lastcmd)
  {
    ReadFinishes(s);
  }

  function CancelLeft(c: Canceller): nat {
    match c
    case NotCancelling => 0
    case CancelInProgress => 1
    case CancelExpected => 2
    case CancelCmd => 3
    case CancelLast(_) => 4
    case CancelLoad => 5
  }

  /** The cancel finishes without interruption. */
  function FinishCancel(s: State): State
    decreases CancelLeft(s.cancel)
  {
    if s.cancel.NotCancelling? then s else FinishCancel(RunCancel(s))
  }

  lemma CancelFinishes(s: State)
    requires s.cancel.NotCancelling?
    ensures FinishCancel(s.(cancel := CancelLoad))
         == s.(lastcmd := s.cmdstat, cmdstat := DMNOP, expected := false, inProgress := NOCMD)
  {
    var s1 := s.(cancel := CancelLoad);
    var s2 := RunCancel(s1);
    var s3 := RunCancel(s2);
    var s4 := RunCancel(s3);
    var s5 := RunCancel(s4);
    var s6 := RunCancel(s5);
    assert FinishCancel(s5) == FinishCancel(s6) == s6;
    assert FinishCancel(s3) == FinishCancel(s4) == FinishCancel(s5);
    assert FinishCancel(s1) == FinishCancel(s2) == FinishCancel(s3);
  }

  datatype Action = NotHandled | ValueSet

  /** The statics of dmcomm.c and the last CTRL write kept by dbusc.c; `statuses` and `reported` are
      the values of the MSG_DM_STATUSRCVD and MSG_DM_CMDDONE messages posted. */
  class Monitor {
    var cmdstat: Byte
    var ctrlrdExpctd: bool
    var lastcmd: Byte
    var cmdIp: Byte
    var ctrlLastWrite: Byte
    var statuses: seq<Byte>
    var reported: seq<Byte>
    ghost var requested: seq<Byte>
    ghost var delivered: seq<Byte>

    ghost function Now(): State
      reads this
    {
      State(cmdstat, ctrlrdExpctd, lastcmd, cmdIp, ctrlLastWrite, Idle, NotReading, NotCancelling,
        requested, delivered, statuses, reported)
    }

    /** dmcomm_modinit */
    constructor ()
      ensures Init(Now())
    {
      cmdstat, ctrlrdExpctd, lastcmd, cmdIp, ctrlLastWrite := DC_INITRDY, true, 0, 0, 0;
      statuses, reported, requested, delivered := [], [], [], [];
    }

    /** _dm_cmd_prep */
    method CmdPrep(cmd: Byte, readexpected: bool)
      modifies this`cmdstat, this`ctrlrdExpctd, this`cmdIp
      ensures Now() == Settle(old(Now()).(handler := StoreCmd(cmd, readexpected, Return)))
    {
      PrepSettles(Now(), cmd, readexpected, Return);
      cmdstat := cmd;
      ctrlrdExpctd := readexpected;
      cmdIp := if cmd != DMNOP && cmd != DC_INITRDY then cmd else NOCMD;
    }

    /** _handle_ctrl_write */
    method HandleCtrlWrite(v: Byte)
      modifies this
      ensures Now() == Settle(Step(old(Now()), Status(v)))
    {
      var postCmddone := false;
      ghost var s := Now();
      PrepSettles(s, DC_INITRDY, true, ThenPost(v));
      PrepSettles(s, DC_INITRDY, true, Return);
      if v >= 0x80 {
        var dms := v - v % 2;
        if dms == DMINIT {
          if DC_INITRDY != 0 { CmdPrep(DC_INITRDY, true); }
        } else if dms == DMOPDONE {
          postCmddone := true;
        } else if dms == DMBRT || dms == DMBRKHIT || dms == DMSSDONE {
          if !ctrlrdExpctd { CmdPrep(DMNOP, true); }
        }
        PostSettles(Now(), v);
        statuses := statuses + [v];
        if postCmddone { reported := reported + [lastcmd]; }
      }
    }

    /** _handle_dmc_cmd_req without its data transfers */
    method HandleDmcCmdReq(cmd: Byte)
      modifies this
      ensures Now() == Settle(Step(old(Now()), Request(cmd)))
    {
      requested := requested + [cmd];
      CmdPrep(cmd, true);
    }

    /** _ctrl_rd_hdlr; declining leaves the default value to its caller */
    method CtrlRdHdlr() returns (handled: Action, d: Byte)
      modifies this
      ensures Now() == FinishRead(Step(old(Now()), Read))
      ensures delivered == old(delivered) + [if handled.ValueSet? then d else DC_INITRDY]
    {
      ReadFinishes(Now());
      handled, d := NotHandled, 0;
      if ctrlrdExpctd {
        d, handled := cmdstat, ValueSet;
        lastcmd := cmdstat;
        cmdstat := DMNOP;
        ctrlrdExpctd := false;
      } else {
        var lcw := ctrlLastWrite;
        if lcw >= 0x80 {
          lcw := lcw - lcw % 2;
          d, handled := DC_INITRDY, ValueSet;
          if lcw != DMINIT { lastcmd := DC_CTRLRDUNXPCTD; }
        }
      }
      delivered := delivered + [if handled.ValueSet? then d else DC_INITRDY];
    }

    /** dmc_op_cancel, as far as the shared variables go */
    method OpCancel()
      modifies this
      ensures Now() == FinishCancel(Step(old(Now()), Cancel))
    {
      CancelFinishes(Now());
      PrepSettles(Now().(lastcmd := cmdstat), DMNOP, false, Return);
      lastcmd := cmdstat;
      CmdPrep(DMNOP, false);
    }
  }
}

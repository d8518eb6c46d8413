# Dafny verification of the ZID debugger firmware

The firmware of the ZID Z80 in-circuit debugger's controller (src-rp) talks to a Z80 host over a
byte-wide bus, runs a cooperative message scheduler,
and offers a shell with a calculator, a disassembler, number entry and a command history. The
modules here model the parts whose correctness is an argument over whole runs, and prove it.

| module | subject |
|---|---|
| `Pio`, `Handshake` | the four PIO programs of the bus interface, the interrupt handlers and the host as one step system; what every interleaving keeps |
| `DmComm` | command hand-over to the Debug Monitor through variables that message handlers and an interrupt on core 0 and a cancel on core 1 share |
| `DeltaList`, `Scheduler` | the scheduled-message list as a value against a table of deadlines; the same list on heap entries taken from a fixed pool |
| `Regex`, `RegexCompiler` | the backtracking matcher against a declarative meaning; the pattern compiler |
| `Gf2`, `Crc`, `CrcTwoBits` | polynomial division over GF(2) and the order of x; the table-driven CRC7 and CRC16 of section 4.5 of the SD Physical Layer Simplified Specification |
| `Calculator` | the four-level RPN calculator |
| `Z80` | the incremental Z80 decoder and the disassembler that feeds it |
| `Numbers` | number parsing and printing |
| `CommandHistory` | the ring of recalled command lines |

Code that changes state in place is modelled by classes and loops, each method proved against a
function of the old state; the theorems are proved about those functions. Where several actors
interleave, the system is a step function over all of them, and the classes show that a handler
that is not interrupted is one of its runs. Input, output and values from outside (what a CTRL-read
handler answers, the memory behind the bus, the value of a calculator word) are parameters.

`dafny verify dfyconfig.toml` checks everything.

## Where the code and its documentation differ

The model follows the code; each point is a proved member.

- `cbus_value_write` is documented (src-rp/dbusc/include/dbusc.h:36-39, 63-70) to provide the value
  the host reads. It puts the byte at the low end of a word, while the output shift register shifts
  left, so `out pins, 8` takes the top byte: the host reads 0 (`Handshake.ReadsAreAnsweredIff`,
  `Handshake.LateAnswerReadsZero`). The interrupt handler's byte stores are replicated on all byte
  lanes (RP2040 Datasheet, section 2.1.4) and are not affected. In this firmware the path is latent:
  its one caller waits for a TBD answer (src-rp/dc/dmcomm.c:70-84), which the one registered handler,
  `_ctrl_rd_hdlr` (src-rp/dc/dmcomm.c:222-255), never gives.
- When the interrupt handler answers inside `cbus_value_write`, the byte of the latter is left over
  and taken by a later read (`Handshake.LeftoverShiftsReads`); when enough have been left over, an
  answer is lost (`Handshake.AnswerIsLost`). This path is latent for the same reason.
- A cancel on core 1 that overlaps the next request on core 0 can leave that request stored but not
  expected (`DmComm.CancelStrandsRequest`), and one that comes between the two loads of the command in
  the read interrupt makes Command Done name the NOP (`DmComm.CancelSplitsRead`).
- `scheduled_msg_cancel3` is documented (src-rp/cmt/include/cmt.h:205) to return the milliseconds
  remaining; it returns the entry's difference (`DeltaList.CancelReturnsTimeLeftIff`).
- Delays of 0 ms or less make other messages late (`DeltaList.TickFaithfulIff`,
  `DeltaList.ZeroDelayExample`).
- `*matchlength` is not always the length of the match (`Regex.WrongLengthExample`).
- In a character class a dash is not found behind a range (`Regex.ClassMeans`), and an escaped dash
  can start a range (`Regex.EscapedDashIff`).
- A match that begins at the end of a text, as of the pattern `$`, is reported as none
  (`Regex.ReMatchP`).
- The calculator's store into register 0 cannot be called (`Calculator.StoreZeroUnreachable`).
- The decoder overwrites the first byte of a CB instruction with the second
  (`Z80.Context.Cb2`), so a listing of the bytes shows the second one twice.
- A value too large for its size is printed in binary as zeros (`Numbers.OverflowShowsZero`), and
  decimal text padded with blanks, or hexadecimal text that starts with a letter, is not read back
  (`Numbers.PrintedReadsIff`).

## Model

| member | source | states |
|---|---|---|
| `Handshake.ModselExec` | src-rp/dbusc/generated/dbusc.pio.h:34-46 | one issue of the current `db_modsel` instruction does exactly what its encoding says: turn the pins, wait for MODSEL, raise flag 5, take flag 4, assert and release WAIT |
| `Handshake.CtrlDataExec` | src-rp/dbusc/generated/dbusc.pio.h:77-85 | the same for `db_ctrldata`: take flag 5, raise 6 or 7 as ADDR says |
| `Handshake.CtrlPortExec` | src-rp/dbusc/generated/dbusc.pio.h:115-126 | the same for `db_ctrl_port` outside its `out` and `in`: stall on IRQ 0 or 1 until the CPU clears it, raise flag 4 |
| `Handshake.DataPortExec` | src-rp/dbusc/generated/dbusc.pio.h:156-168 | the same for `db_data_port`, with IRQ 2 when the transmit FIFO was empty |
| `Handshake.StepKeeps` | src-rp/dbusc/generated/dbusc.pio.h:34-168 | every event (an instruction of any of the four machines, a host action, any stage of the CTRL interrupt handler, the data interrupt, any stage of `cbus_value_write`) keeps the whole-system invariant |
| `Handshake.RunKeeps` | src-rp/dbusc/generated/dbusc.pio.h:34-168 | so does every finite interleaving |
| `Handshake.ReachableInv` | src-rp/dbusc/generated/dbusc.pio.h:34-168 | the invariant holds in every state reachable from power-on |
| `Handshake.OneToken` | src-rp/dbusc/generated/dbusc.pio.h:34-168 | in every interleaving there is exactly one control token; the two port programs never serve together; IRQ 0 and IRQ 1 are never pending together; no instruction raises a flag that is still set |
| `Handshake.FreshFlag` | src-rp/dbusc/generated/dbusc.pio.h:42-42 | the same for one `irq` instruction under the control invariant |
| `Handshake.EachAccessServedOnce` | src-rp/dbusc/generated/dbusc.pio.h:115-168 | the port operations are the host accesses, one for one and in order, of the addressed port and direction; at most one is outstanding, none once WAIT is released (that each is carried out is `AccessCompletes`) |
| `Handshake.BusDirectionAgrees` | src-rp/dbusc/generated/dbusc.pio.h:36-44 | the data pins are outputs whenever a port executes `out`, inputs whenever it executes `in`, and still right when the host completes the access |
| `Handshake.WritesArePosted` | src-rp/dbusc/dbusc.c:212-220 | CTRL writes are posted as `MSG_DBUS_CTRL_WRITE` in order, none lost or repeated, with at most one byte in the receive FIFO, and all of them once WAIT is released |
| `Handshake.OnThePins` | src-rp/dbusc/dbusc.c:298-298 | with an output register that shifts left, a byte store puts the byte on the bus but a word with the byte at its low end puts out 0 |
| `Handshake.LoadedStep` | src-rp/dbusc/dbusc.c:439-450 | every event keeps the loaded bytes what the supplied ones make of them |
| `Handshake.LoadedRun` | src-rp/dbusc/dbusc.c:439-450 | so does every run |
| `Handshake.ReadsAreLoaded` | src-rp/dbusc/dbusc.c:185-210 | in every run the bytes loaded into `db_ctrl_port` are those the host has read, in order, followed by the one on the bus at WAIT release and those in the queue |
| `Handshake.ReadsAreAnsweredIff` | src-rp/dbusc/dbusc.c:439-450 | in every run, of the bytes the CTRL FIFO accepts none is lost, repeated or reordered, the k-th byte read comes from the k-th of them, and it is that byte if and only if an interrupt handler put it or it is 0; the documented answer through `cbus_value_write` fails for every other value |
| `Handshake.AllAcceptedIff` | src-rp/dbusc/dbusc.c:204-204 | from power-on, every byte the CPU has put has been accepted if and only if each put found room in the FIFO |
| `Handshake.NothingLostIff` | src-rp/dbusc/dbusc.c:204-204 | the same from any state: no put of the run is lost if and only if each finds room |
| `Handshake.AnswerIsLost` | src-rp/dbusc/dbusc.c:178-225 | a run from power-on, without the data interrupt, in which a fifth read loses the answer of the interrupt handler to a full FIFO and the host gets a byte left over |
| `Handshake.CleanPutsFit` | src-rp/dbusc/dbusc.c:178-225 | no put is lost when no interrupt handler puts a byte while `cbus_value_write` is under way and the data interrupt does not occur |
| `Handshake.OneForOneIff` | src-rp/dbusc/dbusc.c:178-225 | between accesses, in every run, there has been one put, accepted or not, for each read if and only if the queue is empty and every put found room |
| `Handshake.CleanReadsAreTimely` | src-rp/dbusc/dbusc.c:185-206 | which is so, with no put lost, whenever no interrupt handler put a byte while `cbus_value_write` was under way and the data interrupt has not occurred; a TBD answer that breaks in does no harm |
| `Handshake.FreshByteIff` | src-rp/dbusc/generated/dbusc.pio.h:117-120 | a read gets the first byte accepted after its request if and only if the queue is empty when `db_ctrl_port` asks; otherwise one accepted before |
| `Handshake.LeftoverShiftsReads` | src-rp/dbusc/dbusc.c:439-450 | the run in which it fails: the handler answers inside `cbus_value_write`, whose byte is left over and taken by the next read in place of its own |
| `Handshake.LateByteServesNextRead` | src-rp/dbusc/dbusc.c:439-450 | a run in which the handler breaks in likewise and the reads nevertheless match the puts one for one, so that breaking in is not the exact condition |
| `Handshake.ReadAsks` | src-rp/dbusc/generated/dbusc.pio.h:34-126 | an idle host can always begin a CTRL read that gets as far as asking for its byte |
| `Handshake.FirstReadAwaits` | src-rp/dbusc/generated/dbusc.pio.h:115-126 | a run from power-on that ends with the host waiting for a CTRL byte nobody has begun to supply |
| `Handshake.LateAnswerReadsZero` | src-rp/dbusc/dbusc.c:439-450 | from every such state a run in which `cbus_value_write(v)` answers and the host reads 0, whatever v is |
| `Handshake.WorkCounts` | src-rp/dbusc/generated/dbusc.pio.h:34-168 | while an access waits, in any reachable state, every working event leaves the state alone, releases WAIT or lowers a rank |
| `Handshake.SomethingWorks` | src-rp/dbusc/generated/dbusc.pio.h:34-168 | and some working event is always enabled and changes the state: no deadlock; for an access to the data port it is an instruction, unless the FIFO has been found short |
| `Handshake.AccessCompletes` | src-rp/dbusc/generated/dbusc.pio.h:34-168 | from every state with an access to either port waiting there is a run of at most 95 working events (the data FIFO being ready when it is used, and the interrupt handlers answering) that carries it out once, if that has not happened, and releases WAIT with the host unchanged |
| `Handshake.BegunAccessCompletes` | src-rp/dbusc/generated/dbusc.pio.h:34-168 | so whatever access an idle host begins, to either port and in either direction, has a run after which exactly it has been carried out and the host can end it; on the data port by instructions alone |
| `Handshake.DataReadAsksIff` | src-rp/dbusc/generated/dbusc.pio.h:158-161 | a data read raises IRQ 2 if and only if the transmit FIFO is found short; otherwise it goes on to put out the byte |
| `Pio.CtrlRegisters.IrqpCtrlOpHdlr` | src-rp/dbusc/dbusc.c:178-225 | the handler as written (one flag read, both requests served, one clear) reaches the state that its stages of the step system reach, and records the last CTRL write |
| `Pio.CtrlRegisters.CbusValueWrite` | src-rp/dbusc/dbusc.c:439-450 | the same for `cbus_value_write`, which does nothing unless IRQ 0 is pending |
| `DmComm.Monitor.constructor` | src-rp/dc/dmcomm.c:295-319 | start-up leaves the initial status to be read |
| `DmComm.Monitor.CmdPrep` | src-rp/dc/dmcomm.c:52-56 | the three stores, uninterrupted, are the run of the step system for them |
| `DmComm.Monitor.HandleCtrlWrite` | src-rp/dc/dmcomm.c:86-128 | the status handler, uninterrupted, reaches the state its statements reach one by one |
| `DmComm.Monitor.HandleDmcCmdReq` | src-rp/dc/dmcomm.c:140-174 | the same for a command request |
| `DmComm.Monitor.CtrlRdHdlr` | src-rp/dc/dmcomm.c:222-255 | the interrupt, uninterrupted, reaches the state its statements reach one by one, with its answer appended to what the host read |
| `DmComm.Monitor.OpCancel` | src-rp/dc/dmcomm.c:276-280 | the same for a cancel |
| `DmComm.ReadFinishes` | src-rp/dc/dmcomm.c:222-255 | what the statements of the interrupt amount to when no cancel comes between them |
| `DmComm.ReadIsWhole` | src-rp/dc/dmcomm.c:222-255 | without a cancel, every run through a read has nothing but the read in it |
| `DmComm.CancelFinishes` | src-rp/dc/dmcomm.c:276-280 | what the statements of a cancel amount to |
| `DmComm.SettleIsARun` | src-rp/dc/dmcomm.c:86-128 | a handler that is not interrupted is one of the interleavings |
| `DmComm.PrepSettles` | src-rp/dc/dmcomm.c:52-56 | the three stores one after the other amount to one assignment of all three |
| `DmComm.PostSettles` | src-rp/dc/dmcomm.c:114-123 | an operation-done status is posted together with one Command Done message |
| `DmComm.InitMakesReady` | src-rp/dc/dmcomm.c:95-101 | status 80 or 81, handled from any idle state: the command is 0xFA, expected, none is in progress, the status is posted once and nothing else changes; the next read returns 0xFA |
| `DmComm.StopExpectsRead` | src-rp/dc/dmcomm.c:106-117 | after a single step, breakpoint or be-right-there status a read is expected, of the waiting command if a read was expected already and of the NOP otherwise; the next read returns that |
| `DmComm.OtherStatuses` | src-rp/dc/dmcomm.c:90-127 | operation done is posted and reported with the last command; every other status is posted and leaves command and expectation alone; a value below 0x80 changes nothing |
| `DmComm.RequestIsRead` | src-rp/dc/dmcomm.c:171-171 | an uninterrupted request is stored, expected and, unless it is the NOP, in progress; the next read returns it |
| `DmComm.UnexpectedRead` | src-rp/dc/dmcomm.c:236-253 | a read that is not expected returns 0xFA, takes no command, and is recorded if and only if the last write was a status other than 80 or 81 |
| `DmComm.StepTracks` | src-rp/dc/dmcomm.c:222-255 | each step of core 0 or core 1, also one between two stores of `_dm_cmd_prep`, of the read or of a cancel, keeps the correspondence between requests and bytes read |
| `DmComm.RunTracks` | src-rp/dc/dmcomm.c:222-255 | so does every interleaving |
| `DmComm.CommandsInOrderOnce` | src-rp/dc/dmcomm.c:52-56 | in every interleaving of the handlers, the read interrupt and a cancel on the other core, from start-up, the bytes the host reads, 0xFA removed, are an in-order subsequence of the requested commands: nothing invented, reordered or delivered twice |
| `DmComm.RequestWaits` | src-rp/dc/dmcomm.c:171-171 | the first store of a request makes its command wait |
| `DmComm.WaitingStep` | src-rp/dc/dmcomm.c:95-123 | one step other than a read, a request, DMINIT or cancel keeps a waiting command and its expectation |
| `DmComm.WaitsForRead` | src-rp/dc/dmcomm.c:95-123 | a waiting command, and its expectation once stored, survive any number of other statuses |
| `DmComm.NextReadDelivers` | src-rp/dc/dmcomm.c:227-233 | the next CTRL read returns it if and only if it is expected; it is, except between the first two stores of the request, when the read gets 0xFA and leaves the command waiting |
| `DmComm.LostIff` | src-rp/dc/dmcomm.c:86-128 | with no read, whatever else happens, a waiting command stays stored if and only if no request of another command, no DMINIT handler and no cancel makes its first store |
| `DmComm.ReadBeatsReplacement` | src-rp/dc/dmcomm.c:171-171 | a request that has begun but not stored still loses to the read, which returns the waiting command |
| `DmComm.CancelStrandsRequest` | src-rp/dc/dmcomm.c:276-280 | a run in which a half-done cancel on the other core leaves the next request stored but not expected, so that the read does not return it |
| `DmComm.CancelSplitsRead` | src-rp/dc/dmcomm.c:227-235 | a run in which a cancel on the other core comes between the two loads of the command: the host gets the command, but the record that Command Done will name holds the NOP |
| `DmComm.LastCommandStays` | src-rp/dc/dmcomm.c:119-123 | without a further CTRL read or cancel, every Command Done message carries the same command |
| `DmComm.DoneReportsTheCommandRead` | src-rp/dc/dmcomm.c:227-233 | after the read that delivers c, every Command Done message names c until the next read or cancel |
| `DmComm.DonePosted` | src-rp/dc/dmcomm.c:102-123 | whatever reads, writes and cancels interrupt it, the handler of an operation-done status posts exactly one Command Done message, with what `_dm_lastcmd` holds when it does |
| `DeltaList.InsertPlaces` | src-rp/cmt/cmt.c:144-178 | inserting a difference is placing an absolute deadline in front of the first that is not earlier; no other deadline moves |
| `DeltaList.UnlinkRemoves` | src-rp/cmt/cmt.c:302-330 | unlinking an entry and passing its time on removes one deadline and moves no other |
| `DeltaList.ExpiryIsRipeness` | src-rp/cmt/cmt.c:84-96 | the entries a tick takes off the front are exactly the deadlines reached, wherever they stand |
| `DeltaList.ScheduleRefines` | src-rp/cmt/cmt.c:144-178 | a schedule is the placing of a deadline in the table, for every list and every delay |
| `DeltaList.CancelRefines` | src-rp/cmt/cmt.c:302-330 | a cancel takes one deadline out of the table, for every list |
| `DeltaList.StepKeepsGood` | src-rp/cmt/cmt.c:78-178 | with delays of at least 1 ms every operation keeps each difference within the time asked for and the first entry waiting |
| `DeltaList.TickRefines` | src-rp/cmt/cmt.c:78-97 | so does a tick of any list in order whose first entry still has time |
| `DeltaList.StepRefines` | src-rp/cmt/cmt.c:78-178 | every operation with a delay of at least 1 ms agrees with the table |
| `DeltaList.RunRefines` | src-rp/cmt/cmt.c:78-330 | so does every run: same pending deadlines, postings and cancellations |
| `DeltaList.DeltasBounded` | src-rp/cmt/cmt.c:144-178 | in every run each difference stays within 0 and the delay asked for, and the first entry has time left |
| `DeltaList.RunOnTime` | src-rp/cmt/cmt.c:78-330 | every run of the table keeps each request pending, posted or cancelled, and postings in order |
| `DeltaList.EachPostedOnceOnTime` | src-rp/cmt/cmt.c:78-97 | in every run each uncancelled message is posted exactly once, to its core, on the tick of its deadline and not before; postings are in deadline order with ties newest first |
| `DeltaList.CancelTakesFirst` | src-rp/cmt/cmt.c:302-330 | a cancel takes the match that would be posted first and changes no other deadline; without a match nothing |
| `DeltaList.RunSorted` | src-rp/cmt/cmt.c:144-178 | for all delays, also those of 0 or less, the entries behind the first never have negative differences |
| `DeltaList.LateHeadDelays` | src-rp/cmt/cmt.c:80-84 | a tick with a first entry that should already have gone off agrees with the table only if no other entry has time left |
| `DeltaList.TickFaithfulIff` | src-rp/cmt/cmt.c:78-97 | a tick agrees with the table if and only if the list is empty, its first entry has at least 1 ms, or no other entry has time left |
| `DeltaList.RunFaithfulIff` | src-rp/cmt/cmt.c:78-330 | a run with arbitrary delays agrees with the table after every operation if and only if each of its ticks comes when that holds |
| `DeltaList.ZeroDelayExample` | src-rp/cmt/cmt.c:80-80 | a concrete run: a 0 ms message makes a 5 ms message miss its fifth tick |
| `DeltaList.TimeLeftIsDeadline` | src-rp/cmt/cmt.c:302-330 | the sum of the differences up to an entry is the time to its deadline |
| `DeltaList.CancelReturnsTimeLeftIff` | src-rp/cmt/cmt.c:302-330 | a cancel returns the documented milliseconds remaining if and only if the entry is the first of the list; otherwise less |
| `DeltaList.CancelReturnsDifference` | src-rp/cmt/cmt.c:302-330 | in every state: what a cancel returns is the cancelled deadline less the one before it, or now for the first; 0 if there is none |
| `Scheduler.LinkAll` | src-rp/cmt/cmt_heap.c:108-124 | the start-up loop chains all 32 entries, unused |
| `Scheduler.WalkInserts` | src-rp/cmt/cmt.c:144-178 | the pointer walk stops at the place the list model inserts at, with the time that is left |
| `Scheduler.ChainAhead` | src-rp/cmt/cmt_heap.c:83-93 | a list that ends never comes back to an entry |
| `Scheduler.Scheduler.constructor` | src-rp/cmt/cmt_heap.c:108-124 | start-up leaves an empty schedule and the whole pool free |
| `Scheduler.Scheduler.Alloc` | src-rp/cmt/cmt_heap.c:60-81 | takes the first free entry, marked in use; fails only when none is free |
| `Scheduler.Scheduler.Return` | src-rp/cmt/cmt_heap.c:83-93 | puts an entry back in front of the free list, unmarked |
| `Scheduler.Scheduler.Take` | src-rp/cmt/cmt.c:144-160 | an entry from the pool, filled in, in neither list |
| `Scheduler.Scheduler.FindPlace` | src-rp/cmt/cmt.c:160-178 | the loop through the pointer to the link: subtracts each time it passes and the rest from the successor |
| `Scheduler.Scheduler.Link` | src-rp/cmt/cmt.c:144-178 | splices the new entry in |
| `Scheduler.Scheduler.ScheduleCoreMsgInMs` | src-rp/cmt/cmt.c:144-178 | the heap list afterwards stands for the list model's schedule step; false exactly when all 32 entries are taken, and then nothing changed |
| `Scheduler.Scheduler.Remove` | src-rp/cmt/cmt.c:302-330 | passes the time on, unlinks and frees one entry: the list model's unlink, one more free entry |
| `Scheduler.Scheduler.ScheduledMsgCancel3` | src-rp/cmt/cmt.c:302-330 | the heap list afterwards stands for the cancel step, and the result is the entry's own difference or 0 |
| `Scheduler.Scheduler.ScheduledMsgExists2` | src-rp/cmt/cmt.c:336-354 | true exactly when a message of that id (and handler, if given) is scheduled for the calling core |
| `Scheduler.Scheduler.PostHead` | src-rp/cmt/cmt.c:84-96 | posts the first entry to its core and frees it |
| `Scheduler.Scheduler.PostExpired` | src-rp/cmt/cmt.c:84-96 | the loop posts and frees exactly the leading entries without time, in order |
| `Scheduler.Scheduler.CountDown` | src-rp/cmt/cmt.c:78-84 | decrements the first entry only |
| `Scheduler.Scheduler.OnRecurringInterrupt` | src-rp/cmt/cmt.c:78-97 | the heap list and the two cores' queues afterwards stand for the tick step |
| `Scheduler.Scheduler.PoolIsSplit` | src-rp/cmt/cmt_heap.c:60-93 | whenever the object is valid, which every operation preserves, free and scheduled entries are disjoint, acyclic, together the 32 of the pool, and in use exactly when scheduled |
| `Regex.MatchCharClass` | src-rp/lib/regex/re.c:345-381 | the class loop and its early returns decide the membership that `ClassMeans` gives a meaning to |
| `Regex.MetaCharSets` | src-rp/lib/regex/re.c:291-343 | by character code: digits 48-57; word characters these, 65-90, 97-122 and 95; blanks 9-13 and 32; the capitals their complements; any other escaped character itself |
| `Regex.ClassMeans` | src-rp/lib/regex/re.c:307-381 | for every class written with characters, ranges and escapes, with or without a dash in front and at the end, the loop accepts exactly the characters some element has; a dash behind a range is not found, and an escaped dash takes what follows for the end of a range |
| `Regex.EscapedDash` | src-rp/lib/regex/re.c:307-315 | an escaped dash accepts the dash and, if a character follows, all from the backslash up to it |
| `Regex.EscapedDashIff` | src-rp/lib/regex/re.c:307-315 | it stands for a dash alone if and only if the rest of the class has the characters from the backslash up to the one that follows; so when that is below the backslash or missing |
| `Regex.EscapedDashExample` | src-rp/lib/regex/re.c:307-315 | a concrete class for which it does not |
| `Regex.MatchOne` | src-rp/lib/regex/re.c:383-398 | one symbol against one character, with the class loop for classes |
| `Regex.SymbolSets` | src-rp/lib/regex/re.c:389-394 | a set as a symbol of its own is the same set as in a class |
| `Regex.MatchesLiteral` | src-rp/lib/regex/re.c:493-526 | an atom without quantifier matches iff it takes one character and the rest matches behind it |
| `Regex.MatchesQuantified` | src-rp/lib/regex/re.c:493-526 | a quantified atom matches iff some allowed stretch leaves the rest matching |
| `Regex.MatchPattern` | src-rp/lib/regex/re.c:493-526 | sound and complete: true if and only if the well-formed pattern denotes some stretch from here; and the exact change to `*matchlength` |
| `Regex.TakeStretch` | src-rp/lib/regex/re.c:400-410 | the longest stretch of matching characters |
| `Regex.MatchStar` | src-rp/lib/regex/re.c:400-418 | true iff the rest matches behind some stretch; with the change to `*matchlength` |
| `Regex.MatchPlus` | src-rp/lib/regex/re.c:420-436 | the same with at least one character |
| `Regex.StarOrPlus` | src-rp/lib/regex/re.c:400-436 | a repeat matches iff the rest matches behind one of the stretches up to the longest |
| `Regex.MatchQuestion` | src-rp/lib/regex/re.c:438-453 | true iff the rest matches here or behind one matching character |
| `Regex.MatchesQuestion` | src-rp/lib/regex/re.c:438-453 | what `?` denotes |
| `Regex.ReMatchP` | src-rp/lib/regex/re.c:78-107 | an anchored pattern matches at 0 or not at all; otherwise the result is the leftmost matching index, or -1 if there is none before the end of the text |
| `Regex.PrefersDenotes` | src-rp/lib/regex/re.c:400-453 | the end the matcher aims for is the end of a match and unique |
| `Regex.FailureRestores` | src-rp/lib/regex/re.c:400-453 | for patterns recognised by a simple check, a failing call leaves `*matchlength` as it was |
| `Regex.LengthAndExcess` | src-rp/lib/regex/re.c:400-526 | a successful call adds the length of the preferred (longest-repeat) match and what its failing calls leave |
| `Regex.LengthRightIff` | src-rp/lib/regex/re.c:400-526 | so it counts the match right if and only if its failing calls leave nothing |
| `Regex.SearchLengthIff` | src-rp/lib/regex/re.c:83-101 | and an unanchored search if and only if these and the failing calls before leave nothing together |
| `Regex.LengthExact` | src-rp/lib/regex/re.c:400-526 | in particular for a class of patterns recognised by a simple check |
| `Regex.OneRepeatIsExact` | src-rp/lib/regex/re.c:400-436 | patterns with at most one `*` or `+`, without `?` and `$`, are in it |
| `Regex.SearchLength` | src-rp/lib/regex/re.c:83-101 | and an unanchored search then ends with that length |
| `Regex.WrongLengthExample` | src-rp/lib/regex/re.c:438-453 | `^.?b$` on "bb" matches two characters but reports 3 |
| `RegexCompiler.ReadSymbol` | src-rp/lib/regex/re.c:122-244 | one round of the compiler loop reads one symbol, class or escape, or rejects |
| `RegexCompiler.CopyClass` | src-rp/lib/regex/re.c:194-217 | the class-copying loop |
| `RegexCompiler.Compile` | src-rp/lib/regex/re.c:109-249 | the compiler loop computes the compiled form of any text, with the symbol and class-buffer limits |
| `RegexCompiler.SymbolCompiles` | src-rp/lib/regex/re.c:126-235 | the text of a symbol is read as that symbol and no further |
| `RegexCompiler.CompileWritten` | src-rp/lib/regex/re.c:109-249 | every symbol sequence within the limits is compiled from its text unchanged |
| `RegexCompiler.CompileBehind` | src-rp/lib/regex/re.c:118-249 | the same with any text behind it, which is then compiled from there |
| `RegexCompiler.LongPatternIsCut` | src-rp/lib/regex/re.c:118-118 | behind the 29th symbol the text is ignored, whatever it is |
| `RegexCompiler.OpenClassRejected` | src-rp/lib/regex/re.c:193-217 | text that breaks off in a class is rejected |
| `RegexCompiler.LoneBackslashIsStale` | src-rp/lib/regex/re.c:136-172 | text that breaks off behind a backslash leaves its last symbol as an earlier call left it |
| `RegexCompiler.CompiledFits` | src-rp/lib/regex/re.c:114-115 | whatever the text, the result fits both arrays |
| `RegexCompiler.RoundTripIff` | src-rp/lib/regex/re.c:109-249 | writing and compiling gives the pattern back if and only if it fits the two arrays |
| `RegexCompiler.ReMatch` | src-rp/lib/regex/re.c:73-76 | a text the compiler rejects never matches; any other finds what its compiled pattern means |
| `Gf2.FeedIsRemainder` | src-rp/lib/sd_card/sd_driver/crc.c:103-105 | clocking a shift register through a message leaves the remainder of polynomial long division over GF(2) |
| `Gf2.ZeroClocksKeepNonzero` | src-rp/lib/sd_card/sd_driver/crc.c:104-104 | clocking zeros never turns a nonzero register to zero |
| `Gf2.BurstDetected` | src-rp/lib/sd_card/sd_driver/crc.c:99-109 | a difference within as many bits as the register has leaves different remainders |
| `Gf2.FeedParity` | src-rp/lib/sd_card/sd_driver/crc.c:104-104 | with an even number of generator terms the register carries the parity of its input |
| `Gf2.OddDetected` | src-rp/lib/sd_card/sd_driver/crc.c:99-109 | so an odd number of changed bits is always seen |
| `Gf2.ResidueZero` | src-rp/lib/sd_card/sd_driver/crc.c:99-109 | a codeword leaves zero iff its tail is the checksum of its head |
| `Crc.TablesAreClocks` | src-rp/lib/sd_card/sd_driver/crc.c:33-85 | all 256 entries of both tables are eight register clocks of their index |
| `Crc.AddByte7` | src-rp/lib/sd_card/sd_driver/crc.c:92-92 | one table step feeds one byte to the 7-bit register, and keeps bit 7 clear |
| `Crc.AddByte16` | src-rp/lib/sd_card/sd_driver/crc.c:104-104 | one table step feeds one byte to the 16-bit register |
| `Crc.Crc7` | src-rp/lib/sd_card/sd_driver/crc.c:87-97 | the result is the remainder of the block times x^7 by x^7 + x^3 + 1, for every array and length |
| `Crc.Crc16` | src-rp/lib/sd_card/sd_driver/crc.c:99-109 | the result is the remainder of the block times x^16 by x^16 + x^12 + x^5 + 1 |
| `Crc.UpdateCrc16` | src-rp/lib/sd_card/sd_driver/crc.c:111-115 | the variable behind the pointer is fed the bytes in order |
| `Crc.UpdateContinues` | src-rp/lib/sd_card/sd_driver/crc.c:111-115 | started from crc16(a) and run over b, it ends at crc16(a + b) |
| `Crc.BlockChecks` | src-rp/lib/sd_card/sd_driver/crc.c:99-109 | a block with two bytes behind it checks to zero if and only if they are its crc16, high byte first |
| `Crc.Crc16Divides` | src-rp/lib/sd_card/sd_driver/crc.c:99-109 | a word is the CRC16 of a block if and only if the block times x^16 is a multiple of the generator plus that word |
| `Crc.Crc16Unique` | src-rp/lib/sd_card/sd_driver/crc.c:99-109 | a block has only one CRC16 |
| `Crc.Crc7Unique` | src-rp/lib/sd_card/sd_driver/crc.c:87-97 | and only one CRC7 |
| `Crc.CodewordIsZero` | src-rp/lib/sd_card/sd_driver/crc.c:99-109 | so crc16 of a block followed by its checksum is zero |
| `Crc.BurstsChangeCrc16` | src-rp/lib/sd_card/sd_driver/crc.c:99-109 | equal-length blocks that differ only within 16 consecutive bits have different crc16 |
| `Crc.OddChangesCrc16` | src-rp/lib/sd_card/sd_driver/crc.c:99-109 | blocks that differ in an odd number of bits have different crc16 |
| `CrcTwoBits.PeriodsAreMultiples` | src-rp/lib/sd_card/sd_driver/crc.c:104-104 | x^d is 1 modulo the generator only for multiples d of 32767 |
| `CrcTwoBits.FullPeriod` | src-rp/lib/sd_card/sd_driver/crc.c:104-104 | and for 32767 itself |
| `CrcTwoBits.TwoBitsChangeCrc16` | src-rp/lib/sd_card/sd_driver/crc.c:99-109 | any two changed bits less than 32767 apart change crc16, so any two in a block of up to 4095 bytes |
| `CrcTwoBits.TwoBitsMissed` | src-rp/lib/sd_card/sd_driver/crc.c:99-109 | two changed bits 32767 apart never do |
| `Crc.BurstsChangeCrc7` | src-rp/lib/sd_card/sd_driver/crc.c:87-97 | blocks that differ only within 7 consecutive bits have different crc7 |
| `Calculator.EveryStackFits` | src-rp/calculator/cmd/cmds.c:724-780 | after any sequence of operations all four stack entries fit the word mask in force |
| `Calculator.StepFits` | src-rp/calculator/cmd/cmds.c:335-731 | each operation keeps that |
| `Calculator.PostfixEvaluates` | src-rp/calculator/cmd/cmds.c:206-223 | the postfix form of any expression that needs at most four levels and divides by nothing that is 0 leaves its value in X and the old top 4 - need entries just below, in order |
| `Calculator.TypedEvaluates` | src-rp/calculator/cmd/cmds.c:206-223 | typed text: the same for every line of words that has a value word for each number and one of the names, in any case of letters, for each operation |
| `Calculator.StopsAtBadWord` | src-rp/calculator/cmd/cmds.c:215-219 | a word that is neither ends the line: what stands before it has been done and the rest is ignored |
| `Calculator.OperationsAreNamed` | src-rp/calculator/cmd/cmds.c:114-163 | a word calls an operation if and only if it is one of that operation's own names, case ignored: `+`, `-`, `*`, `/`, `&` or `.and`, `&#124;` or `.or`, `.sl`, `.sr` and the other single names; `.r0` to `.r9`, `.s1` to `.s9` |
| `Calculator.NumeralSpellsNone` | src-rp/calculator/cmd/cmds.c:298-317 | what starts with a digit calls no operation |
| `Calculator.BitwiseMod` | src-rp/calculator/cmd/cmds.c:344-351 | the low bits of `&` and `&#124;` depend only on the low bits of the operands |
| `Calculator.StepCongruent` | src-rp/calculator/cmd/cmds.c:335-731 | each operation but /, right shift and word-size change respects congruence modulo 2^w |
| `Calculator.RunCongruent` | src-rp/calculator/cmd/cmds.c:335-731 | so a straight-line program at word size w computes, in every stack entry, the unbounded-integer result modulo 2^w |
| `Calculator.MaskIsRemainder` | src-rp/calculator/cmd/cmds.c:778-780 | masking with w ones is the remainder modulo 2^w |
| `Calculator.SizedRunCongruent` | src-rp/calculator/cmd/cmds.c:659-686 | the same for the word sizes the calculator offers |
| `Calculator.LastXUndoes` | src-rp/calculator/cmd/cmds.c:774-776 | Last X holds what an addition or subtraction took from X: recalling it and applying the opposite operation leaves what a drop would have left |
| `Calculator.ZeroDivisorDrops` | src-rp/calculator/cmd/cmds.c:387-398 | a division by zero takes both operands off and leaves no quotient |
| `Calculator.RollsUndo` | src-rp/calculator/cmd/cmds.c:535-558 | rolling down brings Y to X and X to T; rolling up undoes it and the other way round |
| `Calculator.ExchangeUndoes` | src-rp/calculator/cmd/cmds.c:400-405 | exchanging X and Y leaves Z and T, and twice leaves everything |
| `Calculator.StoredIsRecalled` | src-rp/calculator/cmd/cmds.c:468-608 | what a register was given comes back on top of the stack, with X saved in Last X; the other registers keep theirs |
| `Calculator.GotLevel` | src-rp/calculator/cmd/cmds.c:407-428 | getting a level copies it to X alone, and Last X brings back what was there |
| `Calculator.ClearIsPowerOn` | src-rp/calculator/cmd/cmds.c:353-364 | clearing brings back the power-on state at the word size in force |
| `Calculator.WordSizes` | src-rp/calculator/cmd/cmds.c:659-686 | X modulo 256 chooses: 1 to 15 gives 8 bits, 16 to 31 gives 16, 0 and the rest 32; every level is cut to that |
| `Calculator.ClearedXIsReplaced` | src-rp/calculator/cmd/cmds.c:366-370 | clearing X disables the stack lift: the next value replaces the zero, and the one after that is pushed |
| `Calculator.LookupFirst` | src-rp/calculator/cmd/cmds.c:298-317 | a word names the first table entry of that name, case ignored |
| `Calculator.StoreZeroUnreachable` | src-rp/calculator/cmd/cmds.c:141-141 | register 0 can never be stored into: its table entry carries the recall's name |
| `Calculator.Calculator.constructor` | src-rp/calculator/cmd/cmds.c:791-795 | power-on state |
| `Calculator.Calculator.SetX` | src-rp/calculator/cmd/cmds.c:778-780 | X becomes the value modulo the word, by masking |
| `Calculator.Calculator.Drop` | src-rp/calculator/cmd/cmds.c:699-705 | returns X and moves the stack down, T kept |
| `Calculator.Calculator.Lift` | src-rp/calculator/cmd/cmds.c:724-731 | pushes when lift is enabled, else overwrites X |
| `Calculator.Calculator.OpAdd` | src-rp/calculator/cmd/cmds.c:335-342 | y + x modulo the word; the whole new state is the machine step proved about above |
| `Calculator.Calculator.OpSub` | src-rp/calculator/cmd/cmds.c:650-657 | y - x modulo the word; the whole new state is the machine step proved about above |
| `Calculator.Calculator.OpMul` | src-rp/calculator/cmd/cmds.c:435-442 | y * x modulo the word, through 32 bits; the whole new state is the machine step proved about above |
| `Calculator.Calculator.OpDiv` | src-rp/calculator/cmd/cmds.c:387-398 | y / x, and what a zero divisor leaves; the whole new state is the machine step proved about above |
| `Calculator.Calculator.OpAnd` | src-rp/calculator/cmd/cmds.c:344-351 | bitwise and; the whole new state is the machine step proved about above |
| `Calculator.Calculator.OpOr` | src-rp/calculator/cmd/cmds.c:459-466 | bitwise or; the whole new state is the machine step proved about above |
| `Calculator.Calculator.OpSl` | src-rp/calculator/cmd/cmds.c:610-616 | doubling modulo the word; the whole new state is the machine step proved about above |
| `Calculator.Calculator.OpSr` | src-rp/calculator/cmd/cmds.c:618-624 | halving; the whole new state is the machine step proved about above |
| `Calculator.Calculator.OpExy` | src-rp/calculator/cmd/cmds.c:400-405 | exchange of X and Y; the whole new state is the machine step proved about above |
| `Calculator.Calculator.OpGet` | src-rp/calculator/cmd/cmds.c:407-428 | copies T, Z or Y into X; the whole new state is the machine step proved about above |
| `Calculator.Calculator.OpLstx` | src-rp/calculator/cmd/cmds.c:430-433 | pushes Last X; the whole new state is the machine step proved about above |
| `Calculator.Calculator.OpRecall` | src-rp/calculator/cmd/cmds.c:468-526 | pushes a register; the whole new state is the machine step proved about above |
| `Calculator.Calculator.OpStore` | src-rp/calculator/cmd/cmds.c:560-608 | stores X; the whole new state is the machine step proved about above |
| `Calculator.Calculator.OpRolldn` | src-rp/calculator/cmd/cmds.c:535-542 | rotates down; the whole new state is the machine step proved about above |
| `Calculator.Calculator.OpRollup` | src-rp/calculator/cmd/cmds.c:551-558 | rotates up; the whole new state is the machine step proved about above |
| `Calculator.Calculator.OpClr` | src-rp/calculator/cmd/cmds.c:353-364 | clears stack, Last X and registers; the whole new state is the machine step proved about above |
| `Calculator.Calculator.OpClrx` | src-rp/calculator/cmd/cmds.c:366-370 | clears X; the whole new state is the machine step proved about above |
| `Calculator.Calculator.OpWsize` | src-rp/calculator/cmd/cmds.c:659-686 | the chosen word size, with every level cut to it; the whole new state is the machine step proved about above |
| `Calculator.Calculator.GetOpFn` | src-rp/calculator/cmd/cmds.c:298-317 | the search loop is that lookup |
| `Calculator.Calculator.ExecWord` | src-rp/calculator/cmd/cmds.c:206-223 | an operation if the table has the word, a value if it is a number, nothing otherwise |
| `Calculator.Calculator.Exec` | src-rp/calculator/cmd/cmds.c:198-235 | the same with the firmware's operator table; so, with the lift enabled, every line that types an expression of at most four levels and no zero divisor is valid and leaves its value in X and the old entries below |
| `Calculator.Calculator.ExecCalc` | src-rp/calculator/cmd/cmds.c:198-235 | the state after the line is the run of the program its words denote up to the first invalid one; valid iff every word is |
| `Z80.TableComplete` | src-rp/lib/z80dasm/z80disasm.c:1528-1568 | every second byte the closed form accepts has a row in the IX/IY table, with its argument bytes |
| `Z80.TableSound` | src-rp/lib/z80dasm/z80disasm.c:1528-1568 | and every row is such a byte, with its argument bytes |
| `Z80.FirstByteTable` | src-rp/lib/z80dasm/z80disasm.c:229-486 | both ways: a first byte is a prefix if and only if its function in the table is the one for two-byte instructions; any other has a function that asks for exactly the argument bytes of the closed form |
| `Z80.ArgumentOpcodes` | src-rp/lib/z80dasm/z80disasm.c:229-486 | the 26 opcodes with two argument bytes and the 24 with one, by number; all others have none |
| `Z80.BadMovements` | src-rp/lib/z80dasm/z80disasm.c:1433-1466 | the shifts that do not exist are 30 to 37 |
| `Z80.ExtendedLoads` | src-rp/lib/z80dasm/z80disasm.c:1667-1672 | the ED loads by number; they are four bytes long and the other ED instructions two |
| `Z80.ExtendedOpcodes` | src-rp/lib/z80dasm/z80disasm.c:1673-1765 | the other ED instructions by number |
| `Z80.IndexedBits` | src-rp/lib/z80dasm/z80disasm.c:1616-1636 | behind DD CB or FD CB come two bytes more, and the last is valid if and only if it is one of the 31 (HL) forms, given by number |
| `Z80.NotListed` | src-rp/lib/z80dasm/z80disasm.c:1586-1600 | a byte between two rows is in no row, so stopping early misses nothing |
| `Z80.AsksForNoMore` | src-rp/lib/z80dasm/z80disasm.c:695-705 | asked-for bytes are needed |
| `Z80.CompleteLength` | src-rp/lib/z80dasm/z80disasm.c:1818-1844 | a complete instruction has 1 to 4 bytes, as many as its first two say |
| `Z80.OnlyInvalid` | src-rp/lib/z80dasm/z80disasm.c:1818-1844 | the only error it can end with is invalid instruction |
| `Z80.Context.AssureArgBytes` | src-rp/lib/z80dasm/z80disasm.c:717-731 | continues, or asks for the missing bytes |
| `Z80.Context.TwoByteInstruction` | src-rp/lib/z80dasm/z80disasm.c:849-871 | asks for one byte more and chooses the group by the prefix; the unknown error exactly when there is no prefix |
| `Z80.Context.DisB1` | src-rp/lib/z80dasm/z80disasm.c:1803-1808 | the bytes asked for are those the opcode needs; a prefix is passed on as one, which excludes the unknown error |
| `Z80.Context.Cb2` | src-rp/lib/z80dasm/z80disasm.c:1410-1413 | complete at two bytes; the first stored byte is overwritten by the second |
| `Z80.Context.Ed2` | src-rp/lib/z80dasm/z80disasm.c:1663-1769 | two more bytes for loads, complete or invalid otherwise |
| `Z80.Context.IxIy` | src-rp/lib/z80dasm/z80disasm.c:1578-1614 | the sorted search decides invalid, complete or how many bytes more |
| `Z80.Context.DdFd2` | src-rp/lib/z80dasm/z80disasm.c:1508-1520 | CB or table |
| `Z80.Context.IxIyCbFinish` | src-rp/lib/z80dasm/z80disasm.c:1616-1627 | invalid unless an (HL) form |
| `Z80.Context.GatherByte` | src-rp/lib/z80dasm/z80disasm.c:695-705 | counts an argument byte and continues when all are there |
| `Z80.Context.Disassemble` | src-rp/lib/z80dasm/z80disasm.c:1810-1816 | the null-function error exactly when there is no continuation, otherwise what the byte string calls for |
| `Z80.Context.Begin` | src-rp/lib/z80dasm/z80disasm.c:1818-1830 | the status after the first byte is what the byte string calls for |
| `Z80.Context.Next` | src-rp/lib/z80dasm/z80disasm.c:1832-1844 | the status after every further byte is what the byte string calls for; the unneeded, too-many-bytes and null-function errors do not occur |
| `Z80.LastDecides` | src-rp/dc/cmd/cmds.c:277-297 | only the last instruction of a run can be invalid |
| `Z80.SplitCount` | src-rp/dc/cmd/cmds.c:277-303 | a run has as many statements as asked for, at least one, unless an invalid instruction ends it earlier |
| `Z80.ChunkReached` | src-rp/dc/cmd/cmds.c:273-276 | reading on stops exactly at the end of the instruction |
| `Z80.Driver.FeedAll` | src-rp/dc/cmd/cmds.c:263-276 | the decoder gets exactly the bytes at hand |
| `Z80.Driver.OnData` | src-rp/dc/cmd/cmds.c:263-306 | either more of this instruction is asked for, or it is done and the next begins, or the run is over |
| `Z80.Driver.Conclude` | src-rp/dc/cmd/cmds.c:277-303 | counts statements and asks for the next byte |
| `Z80.Driver.Disasm` | src-rp/dc/cmd/cmds.c:336-343 | for any memory, address and count: the instructions decoded are the memory split by instruction length up to the first invalid one, the bytes fetched are exactly theirs, and the address advances by their total modulo 2^16 |
| `Z80.Driver.Exchange` | src-rp/dc/cmd/cmds.c:308-315 | the exchange of requests and data ends, with all statements due decoded |
| `Numbers.NumValprovider` | src-rp/number/num.c:183-254 | the digit loop, with base indicator, 32-bit accumulation and early returns, computes the parse |
| `Numbers.ParseStep` | src-rp/number/num.c:242-246 | for byte and word sizes no step wraps round 32 bits |
| `Numbers.AcceptsExactly` | src-rp/number/num.c:224-247 | the loop ends OK if and only if every digit is legal and the true value fits, with that value |
| `Numbers.RejectsFirst` | src-rp/number/num.c:237-253 | otherwise it reports the first digit that is illegal (its index) or too much (the value up to it) |
| `Numbers.OkIff` | src-rp/number/num.c:183-254 | the same for the whole function, whatever the indicator and default base |
| `Numbers.UnlimitedWraps` | src-rp/number/num.c:242-246 | without a size the value is the true one modulo 2^32 |
| `Numbers.IndicatorNames` | src-rp/number/num.c:199-217 | h and x mean hexadecimal, o and q octal, t and . decimal, ' binary, in either case, and are no digits; without one of them the base is the default |
| `Numbers.MarkedReadsBack` | src-rp/number/num.c:183-254 | a decimal, octal or binary numeral followed by a letter of its base is read as its number in every default base |
| `Numbers.MarkedHexReadsBack` | src-rp/number/num.c:183-254 | so is a hexadecimal one behind a 0 |
| `Numbers.NumStr` | src-rp/number/num.c:99-180 | decimal, hexadecimal and octal text of the value cut to its size, and whether it was cut |
| `Numbers.ReducedIsLowPart` | src-rp/number/num.c:104-170 | what is printed of a value fits its size and differs from it by a multiple of the size's range; a value that fits is printed whole |
| `Numbers.PrintedWidth` | src-rp/number/num.c:104-175 | fields are 3 and 5 wide in decimal, 2 and 4 in hexadecimal, 3 and 6 in octal, for bytes and words |
| `Numbers.PrintedEnds` | src-rp/number/num.c:104-175 | the digits end the field, behind blanks in decimal and zeros otherwise |
| `Numbers.UnlimitedPrinted` | src-rp/number/num.c:102-158 | without a size only an octal number other than 0 has something, a 0, in front |
| `Numbers.LetterCase` | src-rp/number/num.c:127-149 | hexadecimal letters are in the case asked for |
| `Numbers.NumeralReadsBack` | src-rp/number/num.c:183-254 | a decimal, octal or binary numeral without padding is parsed back as the number, for every size it fits |
| `Numbers.HexReadsBack` | src-rp/number/num.c:183-254 | so is a hexadecimal numeral behind a 0 |
| `Numbers.PrintedReadsIff` | src-rp/number/num.c:99-254 | printing and parsing in the same base gives the number back if and only if the text starts with a digit; otherwise its first character is rejected |
| `Numbers.NumBinstr` | src-rp/number/num.c:65-96 | the nibble loop with leading-group suppression and separators |
| `Numbers.GroupsRead` | src-rp/number/num.c:78-94 | the groups printed so far, without separators, are the number without its low groups |
| `Numbers.SeparatorAt` | src-rp/number/num.c:89-92 | a dot in the middle of each byte and a blank between bytes |
| `Numbers.BinaryReadsIff` | src-rp/number/num.c:65-96 | separator-stripped binary text of a value that fits is read back, except that 0 of no size prints as nothing |
| `Numbers.OverflowShowsZero` | src-rp/number/num.c:72-76 | a value too large for its size is printed as all zeros |
| `CommandHistory.RunRemembers` | src-rp/lib/shell/src/cmd/cmd.c:319-328 | after any session the editor remembers the submitted lines with empty ones and consecutive repeats dropped |
| `CommandHistory.SessionRemembers` | src-rp/lib/shell/src/cmd/cmd.c:319-328 | after any session from the start: no remembered line is empty or equals the one before it; they are, in order, the non-empty submissions that differ from the non-empty submission before them |
| `CommandHistory.PriorsGoBack` | src-rp/lib/shell/src/cmd/cmd.c:263-274 | k times prior shows the line k further back and keeps the typed line |
| `CommandHistory.NextsReturn` | src-rp/lib/shell/src/cmd/cmd.c:251-261 | as many nexts restore it |
| `CommandHistory.PriorStops` | src-rp/lib/shell/src/cmd/cmd.c:263-274 | at the seventh line back, or the oldest of fewer, prior changes nothing |
| `CommandHistory.BrowsingRestores` | src-rp/lib/shell/src/cmd/cmd.c:251-274 | after any session, a submission and a typed line: k priors show the k-th newest remembered line (k up to 7 and the history), k nexts restore the typed line |
| `CommandHistory.EmptyLineKeepsPlace` | src-rp/lib/shell/src/cmd/cmd.c:319-328 | submitting an empty line while browsing keeps the place |
| `CommandHistory.History.constructor` | src-rp/lib/shell/src/cmd/cmd.c:26-38 | the empty ring |
| `CommandHistory.History.HistoryNext` | src-rp/lib/shell/src/cmd/cmd.c:251-261 | the ring refines the editor for next |
| `CommandHistory.History.HistoryPrior` | src-rp/lib/shell/src/cmd/cmd.c:263-274 | and for prior |
| `CommandHistory.History.ProcessLine` | src-rp/lib/shell/src/cmd/cmd.c:319-328 | and for a submission |

## Left out

- Hardware: DMA, the expansion port, clocks, GPIO and PIO bring-up, `dbus_clear_wait`, LEDs, SPI and SD card transfers.
- Data-port values: the data interrupt handler puts its byte in the CTRL port's FIFO (src-rp/dbusc/dbusc.c:239), so the data port appears with its control flow, its IRQ 2 and an arbitrary FIFO level only.
- Handshake.AccessCompletes: a data access completes when its FIFO is ready at the transfer; what makes it ready (DMA, and for an unexpected read nothing) is not part of this model.
- The host holds MODSEL, ADDR and RD until WAIT is released, and MODSEL stays high until WAIT is asserted again; hosts that do not are not modelled. Instruction delays are not modelled; any interleaving of instructions is allowed instead.
- The interleavings of `Pio`, `Handshake` and `DmComm` are step systems on values, because several actors write the same registers; the handler classes beside them cover a handler that runs alone.
- Pio.CtrlRegisters.IrqpCtrlOpHdlr: requires a byte in the receive FIFO when IRQ 1 is pending, as `Handshake.RxFull` guarantees in every reachable state.
- `DmComm` fixes the automatic status to the value that start-up installs and that nothing else changes; `_dm_alive`, `_tgt_is_sbc`, the attention line and data transfers are left out. Messages may arrive in any order, and the two cores see each other's stores in the order they are made.
- The tick runs on core 0 without taking the scheduler's mutex, so a schedule or cancel on core 1 could overlap it; operations are atomic here. The housekeeping message (src-rp/cmt/cmt.c:98-112) and full message queues are left out.
- Delays so small that the time left underflows 32 bits are not modelled.
- Message-handler lists: removing one away from the head does not work (src-rp/cmt/cmt.c:231-248).
- `calls` and serial numbers in the scheduler, and the `job` of the disassembler, are proof-only records.
- Regex.ClassMeans: for classes that can be written with such elements; the loop itself is `Regex.InClass` for every text.
- Regex.ReMatchP: for patterns in which each quantifier follows an atom, `^` comes first only and `$` last only.
- Regex.LengthExact: one way only; the exact condition is `Regex.LengthRightIff`.
- RegexCompiler.ReMatch: for texts that compile to such patterns or are rejected; not for a text with a lone backslash at its end, whose last symbol depends on the previous call.
- Bytes are unsigned, as `char` is on ARM.
- Numbers.NumValprovider: without the 32-bit representation size, whose limit `1u << 32` is undefined in C.
- Numbers.NumStr: without the 32-bit representation size; the `sprintf` conversions are the functions `Numeral` and `Padded`.
- `Crc.LookUp7`, `Crc.AddByte16` and similar small methods name expressions or loops that the source writes inline.
- The calculator's display, its `add` and `sub` commands and the text of `ops` are left out; the word-value function and the operator table are parameters of `ExecCalc`.
- The text of disassembled statements is left out; the functions of the first-byte table are told apart by name and do no more than ask for their argument bytes. Replies to memory requests are direct calls.
- Line-buffer lengths and escape sequences of the shell are left out of the history.
- FatFs glue, terminal output, help text, real-time clock stubs and the register-accessor pairs would only add easy members.

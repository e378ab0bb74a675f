# Verified models of the echo, timing-wheel, scheduler and pool code

The repository is a collection of performance tests around VPP and DPDK. This project models the
parts of it that contain logic of their own and proves what that logic keeps, for all inputs and
over all runs:

- the IPv6 text parser of the echo program: which inputs it accepts, what address it returns, what
  it leaves unread, and that every text form of every address is read back (`Ip6Grammar`,
  `Ip6Parser`, `Ip6Printer`);
- the echo data path, where VPP and the server share fifos and event flags and may interleave at
  any point: stream order, conservation, and exactly which bytes can be stranded (`EchoProtocol`,
  `EchoServer`), the client's sender and the cut-through thread (`EchoStreams`), and the session
  table (`SessionTable`);
- the timing-wheel test under synthetic time (`TimingWheel`);
- the setjmp/longjmp process scheduler (`Coroutines`);
- the test server's connection pool and worker accounting (`ConnPool`);
- windowed rate accounting (`RateWindows`) and the unrolled graph-node loop (`NodeLoop`).

`Common` holds fixed-width number types and small helpers. Code that changes state in place is a
class or a loop proved against a specification; concurrency is a step system in which every step
of one party may fall between any two steps of the other. Calls into VPP (fifo transfers, accept,
epoll, allocation, clocks, random numbers) return any value their callers must cope with. Ghost
counts and logs say which calls were made, so that no contract is met by leaving one out. Where a
loop waits for the outside, a `fuel` argument only cuts the execution short, so that what is
ensured holds of every prefix of every execution.

`dafny verify dfyconfig.toml` checks the whole project.

## What the proofs found

- **A lost wakeup.** The rx handler counts the readable bytes first and clears the fifo's event
  flag afterwards (src/udp-echo/main.c:983-985). Bytes that arrive in between raise no new event
  and are not in the count. `StrandedBytes` proves that at rest exactly those bytes are unread, so
  nothing is stranded if and only if nothing arrived in that window; `StrandingRun` is a run that
  strands a byte; `ClearFirstStrandsNothing` proves that the other order strands nothing.
- **The parser's language is not that of RFC 4291.** `AcceptedIsRendering` states exactly when an
  accepted text is one the standard allows in hexadecimal; `StrayColon` and `IdleDouble` are two
  families that are accepted and are not. The form of section 2.2 of RFC 4291 that ends in a dotted
  IPv4 address is not read: the parser takes what precedes the first dot for the whole text, and
  accepts or refuses that.
- **The bin assertion of the timing-wheel test** fails in a pass exactly if an event is due in the
  current bin but not on its first clock (`Iterate`). No run can reach that if and only if there is
  one clock per bin, a single iteration, or no event: `Run` proves it for every choice of random
  numbers, and `RunWithOnes` fails the assertion in every other setup. The program's synthetic
  setup asks for one clock per bin (src/vpp-test/test_timing_wheel.c:151-154).
- **Slots that are never freed.** A failed accept, a failed epoll registration and a hangup each
  leave a pool slot taken (src/vcl-test-server/main.c:275-290, 646-654); the conservation law in
  `ConnPool.Worker` counts them exactly.
- **Accepted sessions have no event queue.** On the server only the bound handler stores one
  (src/udp-echo/main.c:657): a live session has a queue if and only if it is a listener
  (`Table.QueueIsListeners`). Yet the disconnect reply is addressed to the session's own queue
  (src/udp-echo/main.c:558), and so is the tx event of every echo (src/udp-echo/main.c:1036-1039).
  `EchoNeedsQueue` proves that the echo of a session without a queue never gets past its first tx
  event: outside an unfinished echo nothing was ever taken or sent. `LostRun` is such a run. What
  is proved about tx events and finished echoes therefore concerns sessions whose queue is set.
- **Failed reads count as bytes.** The handler records every read result, and a negative one
  becomes a large unsigned number (src/udp-echo/main.c:1023, src/status.h:26-30):
  `RecordedIsTakenIff`, `RecordedExcess`, `FailedReadCounts`.
- **The cut-through thread looks at the stop flag only behind a transfer**
  (src/udp-echo/main.c:444-475): it never ends while its fifo is idle (`CutThroughThread`).

## Model

| member | source | states |
|---|---|---|
| Ip6Grammar.SpanIsLongest | src/udp-echo/main.c:193-206 | what the scanner consumes is the longest prefix of hex digits and colons without three colons in a row |
| Ip6Grammar.AdmissiblePrefix | src/udp-echo/main.c:208-237 | refusing early is sound: what can still become an address is closed under prefixes |
| Ip6Grammar.HexDigitIs | src/udp-echo/main.c:195-201 | a character is worth `v` exactly if it stands at place `v` of the row of digits, in either case |
| Ip6Grammar.HexValuePositional | src/udp-echo/main.c:208-209 | digits are read from left to right to the base 16 |
| Ip6Grammar.UpperDoesNotMatter | src/udp-echo/main.c:195-272 | an input and its upper-case spelling give the same address and leave as much unread |
| Ip6Grammar.GroupFits | src/udp-echo/main.c:213-219 | a group of at most four digits fits the 16-bit slot it is stored in |
| Ip6Grammar.ParseIff | src/udp-echo/main.c:191-272 | an input yields an address and a rest exactly when some grammatical text with that value is its longest clean prefix and the rest follows it |
| Ip6Parser.DigitStep | src/udp-echo/main.c:208-224 | the automaton refuses a digit exactly when the text read so far stops being admissible; otherwise its variables describe the longer text |
| Ip6Parser.ColonStep | src/udp-echo/main.c:202-242 | the same for a colon, with the group it closes and the double colon it completes |
| Ip6Parser.Feed | src/udp-echo/main.c:193-242 | one pass of the loop body accepts exactly the characters that keep the text admissible |
| Ip6Parser.ScanGroups | src/udp-echo/main.c:188-247 | the loop refuses only what cannot be parsed, right behind the first character that rules an address out, and otherwise stops behind the clean prefix with every group stored |
| Ip6Parser.ExpandDoubleColon | src/udp-echo/main.c:249-261 | the in-place shift and fill leave prefix, zeros and suffix although source and target overlap |
| Ip6Parser.StoreQuads | src/udp-echo/main.c:268-270 | the result bytes are the quads in network byte order |
| Ip6Parser.UnformatIp6Address | src/udp-echo/main.c:183-274 | success, address bytes and unread rest are those of the grammar; a failure leaves the result untouched and stops right behind the first character that rules an address out, or behind the whole prefix |
| Ip6Printer.RoundTrip | src/udp-echo/main.c:183-274 | every full or compressed hexadecimal text of RFC 4291 section 2.2, in either case and with leading zeros, is read back when it is followed by nothing or by a character that is neither a hex digit nor a colon, and what follows stays unread |
| Ip6Printer.CanonicalRoundTrip | src/udp-echo/main.c:183-274 | the text recommended by section 4 of RFC 5952 parses back to its address, for every address and every such continuation |
| Ip6Printer.CanonicalIsRecommended | src/udp-echo/main.c:183-274 | that text has no leading zeros and no upper case, and its double colon stands exactly for the first of the longest runs of two or more zeros |
| Ip6Printer.AcceptedIsRendering | src/udp-echo/main.c:191-272 | an accepted text is allowed by RFC 4291 exactly when it has no single colon at either end and its double colon stands for at least one quad |
| Ip6Printer.StrayColon | src/udp-echo/main.c:238-247 | eight groups with a trailing single colon are accepted although the standard does not allow them |
| Ip6Printer.IdleDouble | src/udp-echo/main.c:249-261 | eight groups with a leading double colon are accepted although the standard does not allow them |
| EchoProtocol.StepKeepsTokens | src/udp-echo/main.c:983-1040 | a raised event flag is always exactly one event: queued, about to be posted, or held by the handler; both directions |
| EchoProtocol.StepKeepsAnnounced | src/udp-echo/main.c:985-1040 | bytes behind the latest clear have raised the flag or are about to |
| EchoProtocol.StepKeepsProgress | src/udp-echo/main.c:1011-1042 | bytes taken plus bytes still to take equal the snapshot throughout a call, so the count never underflows |
| EchoProtocol.StepKeepsEchoed | src/udp-echo/main.c:1011-1034 | every step keeps bytes taken equal to bytes sent followed by the unsent part of the buffer |
| EchoProtocol.EchoOrder | src/udp-echo/main.c:970-1045 | stream order and conservation in every state of every run, whatever the partial reads and writes |
| EchoProtocol.CallEchoesSnapshot | src/udp-echo/main.c:1011-1042 | a call that sees no stop sends back exactly the bytes its snapshot counted |
| EchoProtocol.ArrivalsAreAnnounced | src/udp-echo/main.c:983-989 | bytes that arrive behind the clear always have an event on its way |
| EchoProtocol.StrandedBytes | src/udp-echo/main.c:983-989 | at rest the unread bytes are exactly those that arrived between snapshot and clear; none if and only if none arrived |
| EchoProtocol.StrandingRun | src/udp-echo/main.c:983-989 | a run of the program that ends at rest with an unread byte |
| EchoProtocol.ClearFirstStrandsNothing | src/udp-echo/main.c:983-989 | with the two actions swapped no run ends at rest with an unread byte |
| EchoProtocol.EchoIsAnnounced | src/udp-echo/main.c:1036-1040 | echoed bytes that VPP has not looked at have one tx event pending unless the server is still sending; without an event queue the server is lost instead and none is pending |
| EchoProtocol.EchoNeedsQueue | src/udp-echo/main.c:1025-1040 | without an event queue VPP is never told about an echo, and outside an unfinished echo nothing was ever taken or sent |
| EchoProtocol.LostRun | src/udp-echo/main.c:1036-1039 | a run that posts the first tx event to a queue that was never set |
| EchoServer.Session.AppRecvStreamRaw | src/udp-echo/main.c:1012-1022 | a receive takes the oldest bytes, in order, or fails |
| EchoServer.Session.SendBack | src/udp-echo/main.c:1026-1034 | the send loop ends with everything sent, or with a known unsent rest when a stop was seen |
| EchoServer.Session.ServerHandleFifoEventRx | src/udp-echo/main.c:969-1045 | the handler's every execution is a run of the protocol; returning without a stop it has echoed exactly what was readable at its snapshot, which includes all that was readable at the call; it makes at most two transfers for each byte taken, besides those that moved nothing, and every receive is recorded; without an event queue it returns only if it took nothing to echo |
| EchoServer.Session.Turn | src/udp-echo/main.c:1059-1079 | a turn takes the event if there is one, and when the loop goes on behind it everything that was unread before the turn has been taken |
| EchoServer.Session.IdleIsEchoed | src/udp-echo/main.c:1024-1040 | while the loop waits, what was sent back is exactly what was taken |
| EchoServer.Session.ServerHandleEventQueue | src/udp-echo/main.c:1047-1085 | over any number of events everything taken was sent back in order up to the unsent part of the buffer; every turn that finds an event takes one, so that bytes announced at the beginning have been taken when the loop goes on; it ends only after a stop, in a post to an unset queue, or when `fuel` turns and transfers are used up |
| EchoServer.Session.RecordedIsTakenIff | src/udp-echo/main.c:1019-1023 | the bytes in the status record are the bytes the handler took exactly when no receive returned a negative number |
| EchoStreams.WrapAround | src/udp-echo/main.c:706-711 | the cyclic test buffer continues the byte count across its end |
| EchoStreams.Client.SendTestChunk | src/udp-echo/main.c:697-719 | it offers exactly the least of the bytes before the end of the buffer, the bytes still to send, and the free space, from the place the stream has reached; sent plus unsent stays the total, byte k of the stream is k mod 256, and no chunk crosses the end of the buffer |
| EchoStreams.Client.ClientSendData | src/udp-echo/main.c:727-757 | unless the signal handler stops it (or the modelled execution is cut after `fuel` attempts), the client emits exactly the total |
| EchoStreams.CutThrough.Take | src/udp-echo/main.c:444-456 | without reflection a pass empties the fifo and reports how much that was; with it, it takes some of the oldest bytes or fails |
| EchoStreams.CutThrough.SendAll | src/udp-echo/main.c:459-472 | the inner loop ends only when the whole buffer was accepted, stop or not |
| EchoStreams.CutThrough.CutThroughThread | src/udp-echo/main.c:421-480 | what was sent equals what was received whenever the thread ends, and at every step up to the unsent part; it ends only behind a transfer |
| SessionTable.LiveCount | src/udp-echo/main.c:502-556 | the hash is an injection into live slots, and live slots are hash entries plus listeners plus sessions whose handle was reused |
| SessionTable.AddDisplaces | src/udp-echo/main.c:507-510 | a new session takes its fifos from exactly the live sessions that use them, and all others keep theirs |
| SessionTable.AddAccepted | src/udp-echo/main.c:502-516 | an accept shadows a session exactly when its handle is already in use |
| SessionTable.RemoveAccepted | src/udp-echo/main.c:546-552 | a disconnect forgets one entry and one session and disturbs no other |
| SessionTable.Table.PoolGet | src/udp-echo/main.c:502-505 | a slot that was free, growing the pool only when none was |
| SessionTable.Table.Preallocate | src/udp-echo/main.c:1224-1231 | afterwards the pool has 200000 slots and none is live |
| SessionTable.Table.SessionBoundHandler | src/udp-echo/main.c:628-661 | the listener is stored with its own rx fifo, tx fifo and queue and index zero, both fifos point back to it and no longer to any other session, and the program is bound or ready; a failed bind changes no session |
| SessionTable.Table.SessionAcceptedHandler | src/udp-echo/main.c:481-533 | the new session is stored with its own rx fifo, tx fifo and index and no queue, and is named by its handle; both fifos point back to it, the sessions whose fifos point elsewhere are those before and those that used one of these fifos; no other session changes, and no slot is added while live sessions stay within the pool |
| SessionTable.Table.QueueIsListeners | src/udp-echo/main.c:481-661 | a live session has an event queue if and only if it is a listener, and no session that a handle names has one |
| SessionTable.Table.SessionDisconnectedHandler | src/udp-echo/main.c:536-565 | a known handle frees its slot and is forgotten, an unknown one changes nothing; the reply goes to a queue that was never set |
| TimingWheel.Wheel.Advance | src/vpp-test/test_timing_wheel.c:200-201 | the wheel's contract: the due events once each, the rest kept, the exact least remaining time |
| TimingWheel.StartIsShift | src/vpp-test/test_timing_wheel.c:69 | the first times of the bins are equally spaced, by a power of two |
| TimingWheel.ZigzagLaw | src/vpp-test/test_timing_wheel.c:255 | late by n has code 2n, early by n has code 2n - 1, and no two errors share a code |
| TimingWheel.InCorrectBinIff | src/vpp-test/test_timing_wheel.c:233-237 | an event reported in its bin or one late passes the bin assertion exactly when it is late or on the first clock of its bin |
| TimingWheel.OneClockPerBin | src/vpp-test/test_timing_wheel.c:233-237 | with one clock per bin the bin assertion never fails |
| TimingWheel.WideBinsFail | src/vpp-test/test_timing_wheel.c:69-72 | time 1, when it is not the first clock of a bin, fails the assertion in bin 0; `RunWithOnes` shows a run that meets it whenever there are two iterations and an event |
| TimingWheel.Test.SetEvent | src/vpp-test/test_timing_wheel.c:63-81 | an event is armed at the current bin plus the next draw, less than the iteration count of bins ahead, in the wheel and the table alike |
| TimingWheel.Test.UpdateExpiredByTable | src/vpp-test/test_timing_wheel.c:205-221 | the table's bitmap marks the events whose bin has come, and one assertion fails for each event about which the wheel's minimum is wrong |
| TimingWheel.Test.AccountExpired | src/vpp-test/test_timing_wheel.c:224-258 | the wheel's bitmap gains exactly the expired events, each adds one to the bucket of twice the bins it was late and to no other, and the bin assertion fails exactly if one of them is in the current bin but not on its first clock |
| TimingWheel.Test.CompareBitmaps | src/vpp-test/test_timing_wheel.c:260-265 | one assertion fails for each event on which the bitmaps differ |
| TimingWheel.Test.CompareMinimum | src/vpp-test/test_timing_wheel.c:267-275 | a mismatch is reported exactly if the wheel's minimum is not the least time of the unexpired events, all ones if there are none |
| TimingWheel.Test.Iterate | src/vpp-test/test_timing_wheel.c:190-309 | every pass keeps wheel and table in agreement and makes every comparison, none of which finds anything: each event is pending once or marked expired; its bin assertion fails exactly if a pending event is due in the current bin but not on its first clock |
| TimingWheel.Test.Run | src/vpp-test/test_timing_wheel.c:190-309 | the run ends within twice the iteration count with every event expired, every pass compared and nothing found wrong, and a histogram that holds the initial events plus all re-arms in the buckets of events on time and one bin late; with one clock per bin, one iteration or no event no bin assertion failed either, whatever the random numbers |
| TimingWheel.RunWithOnes | src/vpp-test/test_timing_wheel.c:63-309 | that condition is exact: with a generator that always returns 1 the bin assertion fails in every test it does not cover |
| Coroutines.StepKeepsControl | src/vpp-test/test_process.c:28-78 | every step keeps the control invariant: one party runs, the others are parked |
| Coroutines.ReplaceKeepsAccounts | src/vpp-test/test_process.c:82-98 | drawing the next id, or keeping the last, keeps ids distinct and their number equal to the counter |
| Coroutines.LogAlternates | src/vpp-test/test_process.c:88-98 | a process's trace alternates wait and get with matching, strictly growing ids and rising counters |
| Coroutines.JumpsAreSafe | src/vpp-test/test_process.c:28-62 | under every schedule no jump goes to a dead frame, exactly one party can run, and a saved resume point is good exactly while its process is in the wait that saved it |
| Coroutines.StartedAreSuspended | src/vpp-test/test_process.c:129-149 | whenever the dispatcher has control every started process is suspended in its wait with a live resume point |
| Coroutines.AccountsBetweenDispatches | src/vpp-test/test_process.c:42-52 | suspends are resumes plus one, add up to the ids drawn, and the open 32-bit ids are distinct while no more than 2^32 were drawn |
| Coroutines.WaitIdWraps | src/vpp-test/test_process.c:82-86 | printed ids count up from zero and start again after 2^32 of them |
| Coroutines.Scheduler.StartProcess | src/vpp-test/test_process.c:65-78 | starting a process runs it to its first wait and counts one suspend |
| Coroutines.Scheduler.VlibProcessResume | src/vpp-test/test_process.c:42-52 | a resume always comes back through the suspend path, finishes the open wait, opens the next, and changes no other process |
| Coroutines.Scheduler.RunMain | src/vpp-test/test_process.c:129-149 | after the start loop and any dispatches every process is at rest and has been resumed once for every tick that picks it |
| Coroutines.PicksSnoc | src/vpp-test/test_process.c:138-143 | a tick whose remainder modulo twenty is below ten picks that one process, any other tick picks none |
| ConnPool.OneMore | src/vcl-test-server/main.c:102-122 | an allocation takes one more slot and changes no other |
| ConnPool.Worker.ConnPoolExpand | src/vcl-test-server/main.c:76-99 | growing keeps every old slot and adds cleared ones, or changes nothing; the pool may move |
| ConnPool.Worker.ConnPoolAlloc | src/vcl-test-server/main.c:101-122 | the lowest free slot, or the first behind a full pool grown to three times its size, in at most two scans |
| ConnPool.Worker.VtsNewClient | src/vcl-test-server/main.c:262-292 | what comes out is decided by whether there is a slot, by accept's answer and by epoll's: it registers the accepted descriptor under its slot's index, or leaks exactly one slot, or finds none; no other slot or connection changes |
| ConnPool.Worker.HandleEvent | src/vcl-test-server/main.c:645-699 | a hangup closes but keeps the slot, an exit message closes and frees it, the worker is done exactly when that was the last connection, and the event is logged with its outcome |
| ConnPool.Worker.ServeBatch | src/vcl-test-server/main.c:611-699 | every event of the batch is handled once and in order, the listener by an admission, up to the event that stops the worker, if one does; a batch is never cut short otherwise |
| ConnPool.Worker.VtsWorkerLoop | src/vcl-test-server/main.c:571-716 | the log of handled events is the concatenation of all batches reported, up to the event that stopped the worker; it ends normally only when a close empties the set, and is cut only after `fuel` waits |
| ConnPool.Worker.Conservation | src/vcl-test-server/main.c:262-292 | taken slots are the registered connections and, by the log, the failed accepts, failed registrations and hangups; connections ever registered are still there, hung up or left |
| RateWindows.Status.Record | src/status.h:26-44 | a call joins the open window and publishes it exactly when enough ticks have passed, as a 64-bit difference; published bits are eight times the window's bytes, in 64-bit arithmetic |
| RateWindows.Conservation | src/status.h:28-44 | everything recorded is in exactly one published window or the open one |
| RateWindows.ExactBelowBound | src/status.h:28-44 | below 2^64 the published windows and the accumulators add up exactly |
| RateWindows.ShownExactIff | src/status.h:37-39 | what is shown is exactly eight times the bytes, the packets and the calls of the latest window if and only if these fit 64 bits |
| RateWindows.ElapsedIs | src/status.h:32 | the ticks that count are the difference of the clock values, plus 2^64 if the clock went back |
| RateWindows.PublicationsApart | src/status.h:32-44 | two publications are at least the given ticks apart unless the clock ran backwards between them |
| RateWindows.RecordedIsReadIff | src/udp-echo/main.c:1019-1023 | a history that records every read result sums to the bytes read exactly when no result is negative |
| RateWindows.RecordedExcess | src/udp-echo/main.c:1019-1023 | the record exceeds the bytes read by 2^32 less the size of each negative result |
| RateWindows.FailedReadCounts | src/udp-echo/main.c:1019-1023 | one failed read is recorded as 2^32 - 1 bytes |
| NodeLoop.TracesAreFlagged | src/node-test/src/node.c:84-93 | the simple loop traces exactly the flagged buffers, once each and in order |
| NodeLoop.Node.FourPackets | src/node-test/src/node.c:42-73 | four packets at once give the traces of four single steps |
| NodeLoop.Node.AaaQsInline | src/node-test/src/node.c:29-97 | the unrolled loop refines the simple one for every frame length, writes only the frame, and prefetches only inside it |

## Left out

- Executions that never end: the loops that wait for the outside are cut by `fuel`, so their invariants are proved for every finite prefix. That they end is claimed only of the rx handler, as a bound on the transfers that move something.
- Library internals (vppinfra, svm, vcl, the wheel's hierarchy): each appears only as the contract of the call.
- ConnPool.Worker.HandleEvent: the reads that lead to an event's outcome, statistics and replies are not modelled; the outcome is arbitrary.
- ConnPool.Worker.ServeBatch: assumes, as epoll does, that a batch has at most one event for each registered connection; a hangup of the listener, for which the program would index the pool with the all-ones number (src/vcl-test-server/main.c:645-648), is not modelled.
- SessionTable.Table.SessionAcceptedHandler: of the program's state only that the handlers make it bound, ready or failed; what other handlers set is left out.
- TimingWheel.Test.Run: requires that the last clock value stays below the all-ones value, where the program's 64-bit times would wrap; real-time mode and the time limit are left out. Random numbers appear as draws already reduced below the iteration count.
- EchoServer.Session.ServerHandleFifoEventRx: one session; datagram headers, which server sessions never use, and other sessions' events and records, which only interleave, are left out. What a post to an unset queue does is VPP's; the model ends there.
- EchoServer.Session.ServerHandleEventQueue: other event types and errors of the queue itself are left out.
- Coroutines.JumpsAreSafe: machine stacks, registers and the elapsed-time result are not modelled; the bootstrap's own jump is not reached because process bodies never return.
- EchoStreams.Client.ClientSendData: what the client reads back is discarded by the program and not modelled.
- The IPv4 and URI formats, API messages, option parsing, signal setup, logging and printed averages.
- The statistics of the test server's control connection and its UDP branch.

# A verified model of ottercat's socket reader, command protocol and command splitter

ottercat talks to a device manager over a UNIX socket. Three layers carry a
command and its answer, and each is modelled here, with its lines of C cited:

1. **The reader handshake** (`main/sockpush.c`). An I/O thread frames the inbound
   bytes into lines in a buffer that restarts every 1024 bytes, publishes each line
   in one shared buffer, and hands it to a waiting reader through two rendezvous.
   On its wait path `sp_read` copies the shared line without the mutex that
   protects it.
2. **The command/response exchange** (`main/cmd_devmgr.c`). It sends, waits for an
   ack, remembers its sid, waits for the rxstat with that sid, and resends, inside
   a time budget whose reference is never refreshed.
3. **The command stream splitter** (`main/dterm.c`). Nested pointer loops cut a
   buffer into commands in place.

## How it is built

| file | contents |
|---|---|
| `common.dfy` | bytes, C strings, options |
| `framing.dfy` | the framing loop, over its buffer and in closed form; sending, and the round trip |
| `handshake.dfy` | the two threads as a step system: a program counter per thread, owners for the three mutexes, condition waits as states with signals, spurious wakeups, expiry and the refusal of a deadline, one step per byte copied |
| `invariant.dfy` | what every step keeps |
| `delivery.dfy` | what `sp_read` delivers, over every interleaving |
| `blocking.dfy` | when the two threads can block each other, exactly, and over every schedule |
| `pickup.dfy` | what each call of `sp_read` is certain to give: a line that was there before it, or the one it waited for |
| `sockpush.dfy` | the critical sections as methods of a class; the fine steps add up to them |
| `clock.dfy` | arithmetic on `struct timespec` |
| `devmgr.dfy` | the exchange: one turn, whole runs, and the imperative code proved equal to them |
| `exchange.dfy` | what each result is worth |
| `budget.dfy` | conservation of the budget, termination, how often a command is sent |
| `endtoend.dfy` | the three composed: from bytes on the socket to the result of a command |
| `dterm.dfy` | the splitter in place, its specification, round trip and conservation |

Mutable C objects and buffers are classes and arrays with methods; the two threads,
which no sequential method can describe, are a step system whose critical sections
are tied back to the methods (`Sockpush.PublishingAddsUp`, `Sockpush.LoadingAddsUp`).
The handshake follows the description of `pthread_cond_timedwait` in the System
Interfaces volume of POSIX.1-2017.

## What was found

- **At most once.** Two comments in the code (`main/sockpush.c`, lines 453 and 625)
  suspect that a line can be read several times. In the handshake it cannot: in
  every interleaving the results of successive reads are whole, distinct lines in
  order. The 32-bit wrap of `read_id` does not change that; a wrap of an exact
  multiple of 2^32 lines only makes the fast path overlook what is new
  (`Delivery.FastTestMissesOnlyWrap`).
- **A lost signal.** If the reader passes line 470 before the I/O thread executes
  line 637, the signal is lost, and the I/O thread keeps `user_mutex`. Every hand-over
  of a line can go that way (`Blocking.EveryHandOverCanHang`). The next `sp_read`
  repairs it; sending, purging or destroying the reader first waits for `user_mutex`
  for ever. This is the only deadlock (`Blocking.ReturnsIffNotDoomed`), and short of it
  every schedule lets the call return (`Blocking.EveryScheduleReturnsIffNotDoomed`). Setting `readdone_inactive` at line
  632 instead of 637 removes it (`Blocking.ArmFirstIsNeverDoomed`).
- **A refused deadline.** The test at line 423 of `main/sockpush.c` is `>` and not
  `>=`, so a sum of exactly one second gives `tv_nsec == 10^9`, which
  `pthread_cond_timedwait` refuses. The step system has that as an event of its own.
- **A line that is there and not given.** When the try-lock at line 435 fails, `sp_read`
  can wait out its timeout and return 0 although an unread line was published before the
  call; when it succeeds, the call gives it (`Pickup.UnreadIsGivenIffLocked`).
- **A budget that wraps.** `global_timeout` is an `int`. A subtraction wraps if and only
  if the clock shows more than 2^31 ms above what is left of the budget
  (`Budget.TurnSpends`). What is left is always the initial budget less all elapsed times
  modulo 2^32 (`Budget.BudgetLaw`), and is exactly that if and only if no subtraction
  wrapped (`Budget.BudgetIsConserved`). If one does, the exchange need not end and the
  number of sends has no bound (`Budget.NeedNotEnd`, `Budget.SendsAreUnbounded`).
- **No room for an answer.** With `dstmax` 0 an answer leaves state 2 with a code that
  neither ends the exchange nor resends (`Exchange.NoRoomLeavesStateTwo`). When an
  answer is cut to fit, no terminator is stored: the last byte is the next byte of the
  text (`Exchange.HoldsText`).
- **A missing sid** in an rxstat reads as -1, so under an accepted sid of 2^32 - 1 any
  such rxstat counts as a corrupted answer and makes the command be sent again
  (`Exchange.MissingSid`).
- **The result of `sp_sendcmd`** is that of its last `write`, hence 1, not the length,
  whenever it adds a newline (`Sockpush.SpItem.SendCmd`).

## Model

| member | source | states |
|---|---|---|
| Framing.FrameLine | main/sockpush.c:592-605 | the loop over the 1024-byte buffer ends at the first byte 0 or 10 and keeps the last (n mod 1024) of the n bytes before it, followed by a 0; it gives up if and only if the stream holds neither byte any more |
| Framing.PutByte | main/sockpush.c:597-604 | one byte goes to the cursor: 0 or 10, and no other, ends the line as a 0, and a buffer of 1024 bytes that is full restarts |
| Framing.FrameClosedForm | main/sockpush.c:588-611 | on every stream, the lines handed on are, in order, the last (n mod 1024) bytes of each terminated line of n bytes and a zero; the buffer holds the same image of the unfinished line |
| Framing.FramesTheFirstLine | main/sockpush.c:592-611 | in bytes: nothing is handed on before a 0 or a 10; at the first of them the last (n mod 1024) of the n bytes before it are, and a 0 |
| Framing.FrameWellFormed | main/sockpush.c:592-611 | every line handed on has 1 to 1024 bytes and a single terminator, at its end |
| Framing.SentLines | main/sockpush.c:487-500 | the bytes of a series of commands, read as a stream, are exactly those commands, one line each, with no unfinished line |
| Framing.SendFrameRoundTrip | main/sockpush.c:529-537 | framing what successive sp_sendcmd calls wrote gives back each command, newline replaced by a zero, one line per call, if and only if every command has at most 1023 bytes before its terminator |
| Sockpush.SpItem.Publish | main/sockpush.c:609-611 | read_id goes up by one modulo 2^32, and the shared line becomes the framed one, in place |
| Sockpush.SpItem.Load | main/sockpush.c:388-397 | the reader is up to date, and the caller's buffer holds the shared line cut to readmax and is unchanged behind |
| Sockpush.SpItem.ReadFresh | main/sockpush.c:435-440 | the fast path gives the shared line if and only if read_id differs from the reader's |
| Sockpush.SpItem.ReaderCreate | main/sockpush.c:335-357 | at most one reader, which starts out up to date |
| Sockpush.SpItem.ReaderDestroy | main/sockpush.c:360-370 | the count of readers goes back |
| Sockpush.SpItem.ReaderPurge | main/sockpush.c:373-383 | the reader is up to date, nothing else changes |
| Sockpush.SpItem.SendCmd | main/sockpush.c:487-537 | the bytes each write accepted go out, in order, the newline after a command that lacks one; with complete writes that is the command as one line; -2 and nothing sent if the first write fails, otherwise the result of the last write |
| Sockpush.SpItem.SendAll | main/sockpush.c:529-537 | a series of calls, on complete writes, puts on the socket what the round trip is stated about |
| Sockpush.SpItem.FrameAndPublish | main/sockpush.c:592-611 | the next complete line is framed and becomes the shared line; nothing is published when the stream ends first |
| Sockpush.SpItem.ReceiveAll | main/sockpush.c:588-611 | while no reader waits, one publication per complete line of the stream, the last one left in the shared buffer |
| Sockpush.PublishingAddsUp | main/sockpush.c:609-611 | the I/O thread's single steps from line 609, byte by byte, have exactly the effect of Publish |
| Sockpush.LoadingAddsUp | main/sockpush.c:388-397 | the client's single steps through sub_loadread, on either path, have exactly the effect of Load |
| Invariant.IoKeepsControl | main/sockpush.c:608-646 | every step of the I/O thread keeps the mutex owners, counters, flags and the conditions of the hand-over |
| Invariant.ClientKeepsControl | main/sockpush.c:335-515 | every step of the client, in every call, keeps the same |
| Invariant.EnvironmentKeeps | main/sockpush.c:458-460 | so do spurious wakeups, expiry racing with a broadcast, a refused deadline and new calls |
| Invariant.IoRunKeeps | main/sockpush.c:608-646 | every step of the I/O thread keeps the whole invariant, memory and history included |
| Invariant.IoReceiveKeeps | main/sockpush.c:592-605 | reading a byte keeps it: what is framed is the stream read so far |
| Invariant.ClientRunKeeps | main/sockpush.c:400-483 | every step of the client keeps it: a load in progress is a part of the newest line |
| Invariant.InvStep | main/sockpush.c:335-647 | every step of every interleaving keeps the invariant |
| Invariant.InvReachable | main/sockpush.c:335-647 | it holds in every reachable state |
| Delivery.DeliveryRefinesPublication | main/sockpush.c:388-483 | in every interleaving the non-empty results of successive reads are the readmax-prefixes of distinct published lines, in strictly increasing order: nothing duplicated, reordered or torn |
| Delivery.PublicationRefinesStream | main/sockpush.c:588-611 | what is published is, in order, the image of the lines received, at most one of them still on its way |
| Delivery.WholeLineOrNothing | main/cmd_devmgr.c:243-256 | a read with room for 1024 bytes gives nothing or one whole published line, with one zero, at its end, and no terminator before |
| Delivery.FastTestMissesOnlyWrap | main/sockpush.c:435-440 | the test of the fast path sees what is new unless exactly a multiple of 2^32 lines, zero included, were published since the reader last loaded |
| Delivery.LoadGivesNewest | main/sockpush.c:388-397 | a finished load holds the readmax-prefix of the newest line, never empty unless nothing was ever published |
| Delivery.LoadIsReturned | main/sockpush.c:461-482 | once a call has loaded something, the first thing it does next, whatever happens, is to return exactly that |
| Delivery.NoStaleLine | main/sockpush.c:335-357 | whatever happens later, no line published before sp_reader_create returns is ever delivered to that reader |
| Delivery.NothingOldAfterPurge | main/sockpush.c:373-383 | whatever happens after sp_reader_purge, no line published before it is delivered to that reader by a later call |
| Delivery.StableDuringLoad | main/sockpush.c:461-473 | no step of the I/O thread changes the shared line while a client copies it; on the wait path the I/O thread holds user_mutex, between the broadcast and the exit of its second wait |
| Delivery.CountersAreExact | main/sockpush.c:454-466 | waiting_readers counts the readers between 455 and 464, the guarded decrement never saturates, readers is created minus destroyed and at most 1 |
| Blocking.NoCircularWait | main/sockpush.c:608-646 | the client never holds two mutexes and holds none while it waits for one; the I/O thread takes user_mutex first and never holds both others |
| Blocking.NoSignalOwedIffEarly | main/sockpush.c:636-641 | held back in its second wait, the I/O thread is owed no signal if and only if the reader went through line 470 before it reached 637 |
| Blocking.EarlyIffLost | main/sockpush.c:468-473 | the history flag is right: after a run it is set if and only if some step cleared the flag with the I/O thread at 636 or 637 and no line was handed over since |
| Blocking.NoSignalOwedIffLost | main/sockpush.c:636-641 | for runs: held back, the I/O thread is owed no signal if and only if a step of the run lost the one for the line handed over last |
| Blocking.DoomedForever | main/sockpush.c:635-646 | a client waiting for user_mutex while the I/O thread waits for the client stays so in every continuation |
| Blocking.HelpfulStep | main/sockpush.c:454-473 | in any other state a step of one of the threads or an expiry is possible, and uses up some of a bounded supply |
| Blocking.ReturnsIffNotDoomed | main/sockpush.c:335-515 | deadlock exactly: in every reachable state the call in progress can return, without further input, if and only if the client is not waiting for user_mutex during a rendezvous |
| Blocking.EveryScheduleReturnsIffNotDoomed | main/sockpush.c:335-515 | without input and spurious wakeups every run of the two threads is finite, and every run that cannot be continued has let the call in progress return, if and only if the client is not deadlocked to begin with; the I/O thread then waits for input or has been left in its second wait |
| Blocking.NextReadReleases | main/sockpush.c:400-483 | while the I/O thread is held back, the next sp_read can return, and in every run in which it does it has let the I/O thread go on the way |
| Blocking.AnyOtherCallHangs | main/sockpush.c:360-383 | destroy, purge or send made then never returns |
| Blocking.EveryHandOverCanHang | main/sockpush.c:632-641 | from every hand-over that has reached line 636 some continuation without input makes the next sp_sendcmd hang for good |
| Blocking.DoomIsReachable | main/sockpush.c:608-646 | the code as written does reach such a state |
| Blocking.ArmFirstIsNeverDoomed | main/sockpush.c:632-637 | with the flag set before the broadcast no reachable state is deadlocked |
| Pickup.UnreadIsGivenIffLocked | main/sockpush.c:435-463 | of lines published before the try-lock and not loaded yet, the call gives its part of the newest in every run in which it returns if and only if the try-lock succeeds; otherwise some run returns nothing |
| Pickup.UnreadCanBeMissed | main/sockpush.c:608-629 | the failing case is reachable: a line is published and unread while the I/O thread holds user_mutex at the try-lock |
| Pickup.WaitGivesIffWoken | main/sockpush.c:461-482 | past the loop of 458-460: if the wait did not fail the call gives its part of the newest line, not empty, in every run in which it returns; if it failed the call gives nothing |
| Pickup.NothingOnlyOnTimeout | main/sockpush.c:435-482 | in every run in which no deadline passes or is refused, whatever else happens, a call that returns gives something |
| Pickup.WaitingReaderIsServed | main/sockpush.c:454-463 | a reader asleep at 459 when a line is complete gets its part of that line under every schedule, unless its deadline passes; and that takes a bounded number of steps |
| Pickup.EveryReadReturnsOnce | main/sockpush.c:400-483 | a call can be made whenever there is a reader and no other call; under every schedule it returns once, with at most readmax bytes, and without room at once, nothing else changed |
| Clock.DiffIsExact | main/cmd_devmgr.c:111-124 | for normalised times the difference is normalised, denotes end minus start exactly, and is non-negative if and only if end is not before start |
| Clock.ElapsedIsFloor | main/cmd_devmgr.c:338-339 | what a turn takes off the budget is the floor of the difference in milliseconds |
| Clock.ElapsedIsMonotone | main/cmd_devmgr.c:338-339 | it never decreases while the clock does not |
| Clock.DeadlineIsExact | main/sockpush.c:416-426 | the deadline denotes now plus the timeout exactly; it is a valid timespec if and only if the nanosecond parts do not add up to exactly one second |
| Clock.DeadlineCanBeRefused | main/sockpush.c:423-426 | a deadline that is not valid |
| Devmgr.ReceiveLine | main/cmd_devmgr.c:256-326 | the in-place code handles a line as the specification of one message says: state, sid, result, dout and dst |
| Devmgr.TakeTurn | main/cmd_devmgr.c:228-350 | the in-place code of one turn refines the specification of a turn |
| Devmgr.DevmgrSocket | main/cmd_devmgr.c:193-361 | the whole call, over any script of send results, reads and clock readings, refines the specification of a run |
| Devmgr.RunStops | main/cmd_devmgr.c:353-361 | a run that has returned is not changed by anything later |
| Exchange.RefusalCode | main/cmd_devmgr.c:262-272 | a result of -257 or less if and only if an ack with a missing or nonzero err was heard in state 0; it is then -256 less the size of err, or -257 |
| Exchange.SuccessCode | main/cmd_devmgr.c:263-309 | a result of 0 or more if and only if a completing ack was heard in state 0, or an uncorrupted text answer under the remembered sid in state 1 with room in dst; dst then holds the text, cut to fit |
| Exchange.OtherCodes | main/cmd_devmgr.c:228-350 | a turn goes on if and only if the send worked, nothing settled the exchange, the clock was read and budget is left, and then resends if and only if nothing was read or the answer under the remembered sid cannot be used; -6, -5, -4 and -1 are told apart the same way |
| Exchange.ZeroSidCompletes | main/cmd_devmgr.c:263-275 | an ack with err 0 ends the exchange with 0 if and only if its sid is the number 0 |
| Exchange.OnlyTheSameSidAnswers | main/cmd_devmgr.c:292-308 | after an ack with another sid, a usable rxstat ends the exchange with 0 or more if and only if it bears the same number, over all 32-bit sids |
| Exchange.MissingSid | main/cmd_devmgr.c:166-190 | in state 1 an rxstat without a sid makes the command be sent again if and only if the remembered sid is 2^32 - 1 |
| Exchange.OthersAreIgnored | main/cmd_devmgr.c:254-326 | any other message leaves state, sid and dst alone, unless it is the accepting ack waited for, which gives state 1 |
| Exchange.HeadStateIsZeroOrOne | main/cmd_devmgr.c:240-351 | over every run and every parser the state is 0 or 1 at each loop head, if and only if dst has room for at least one byte |
| Exchange.NoRoomLeavesStateTwo | main/cmd_devmgr.c:288-305 | without room, two lines suffice to reach state 2 with no resend |
| Exchange.StateOneIsJustified | main/cmd_devmgr.c:262-279 | state 1 at a loop head means that, since the last send, an ack with err 0 and the remembered nonzero sid was heard |
| Exchange.SuccessIsJustified | main/cmd_devmgr.c:240-351 | a run that gives 0 or more ends with a completing ack, or has an accepting ack, no resend after it, and at last an uncorrupted answer under its sid |
| Exchange.CallResults | main/cmd_devmgr.c:212-247 | every result of the whole call is of a known kind, -3 if and only if no reader was made; nothing is sent before there are a reader and a clock reading, and dst is untouched when nothing was sent |
| Budget.TurnSpends | main/cmd_devmgr.c:333-346 | a turn that goes on leaves some budget, the budget less the elapsed time modulo 2^32; exactly the elapsed time less if and only if the reading is at most 2^31 ms above the budget |
| Budget.BudgetLaw | main/cmd_devmgr.c:333-346 | whatever the clock shows, what is left of a run that goes on is the initial budget less the sum of all elapsed times modulo 2^32, and positive |
| Budget.BudgetIsConserved | main/cmd_devmgr.c:333-346 | what is left is the initial budget less that sum if and only if the sum is below it, if and only if no subtraction wrapped |
| Budget.ContinuingTurnIsEarly | main/cmd_devmgr.c:333-346 | every turn that went on did so before the initial budget had elapsed, if and only if no subtraction wrapped |
| Budget.Terminates | main/cmd_devmgr.c:242-351 | whatever arrives, by a monotonic clock and unless a subtraction wraps, once a millisecond has elapsed fewer turns go on than the initial budget has milliseconds, resends included |
| Budget.NeedNotEnd | main/cmd_devmgr.c:339-350 | the guard is needed: by a monotonic clock that is read too rarely, runs of any length go on, the budget untouched |
| Budget.LateReadingWraps | main/cmd_devmgr.c:339-344 | after a silent turn that has used up the budget the exchange goes on if and only if the reading is more than 2^31 ms above it, modulo 2^32; below 2^32 ms that raises the budget |
| Budget.WaitsShow | main/cmd_devmgr.c:333-339 | if each wait lasts at least (exactly) T, the clock shows at least (exactly) i+1 times T after i+1 waits: the time taken off grows with every turn |
| Budget.SilentRunGoesOn | main/cmd_devmgr.c:333-350 | exactly when a run goes on in which every read times out, for every clock |
| Budget.SilentRunSends | main/cmd_devmgr.c:229-247 | when every read times out, every turn sends exactly once, and a run that returns gives -4 |
| Budget.SendsAreTriangular | main/cmd_devmgr.c:209-210 | if every read times out after at least T > 0 ms and no subtraction wraps, the number n of sends satisfies n(n-1)/2 <= tries |
| Budget.SendsAreUnbounded | main/cmd_devmgr.c:339-350 | without that guard the command can be sent any number of times |
| Budget.ExactSession | main/cmd_devmgr.c:333-350 | with T >= 2 and waits of exactly T, the session goes on after k waits if and only if k(k+1)/2 <= tries |
| Budget.ExactSends | main/cmd_devmgr.c:333-350 | then the bound is attained: n is the largest number with n(n-1)/2 <= tries |
| Budget.FirstQuietTurn | main/cmd_devmgr.c:209-210 | a call whose first turn reads nothing and shows e ms goes on if and only if 2e < (2 tries + 1) timeout, less 1 for an odd timeout |
| Budget.CallSendsAreTriangular | main/cmd_devmgr.c:193-361 | the triangular bound for the whole call, in its timeout and tries |
| Budget.CallSendsExactly | main/cmd_devmgr.c:193-361 | and its attainment, when each wait lasts exactly the timeout |
| Budget.CallTerminates | main/cmd_devmgr.c:193-361 | the whole call returns once timeout * tries + timeout / 2 turns have gone by since a millisecond elapsed, whatever arrives, unless a subtraction wraps |
| EndToEnd.ParserSeesOneLine | main/cmd_devmgr.c:243-256 | whatever dout held, after a whole line was read the parser sees that line and nothing else |
| EndToEnd.HeardIsCarried | main/cmd_devmgr.c:256-257 | the message heard in a turn is the parse of one line of the bytes received |
| EndToEnd.SuccessIsOnTheWire | main/cmd_devmgr.c:214-308 | a result of 0 or more means that, after the reader was made, the socket received a completing ack; or two distinct lines in order, an ack with err 0 and a sid that is not 0 and an uncorrupted rxstat with the same number as sid, whose text is what dst holds |
| EndToEnd.RefusalIsOnTheWire | main/cmd_devmgr.c:262-272 | a result of -257 or less means that, after the reader was made, the socket received an ack with a missing or nonzero err |
| EndToEnd.ResultIsOnTheWire | main/cmd_devmgr.c:193-361 | the same for the whole call: every success or refusal it reports is on the wire |
| Dterm.StrSanitize | main/dterm.c:60-68 | every carriage return before the first zero becomes a newline, in place, nothing else changes |
| Dterm.StrMark | main/dterm.c:70-79 | the length of the line at the start, up to its newline, a zero or the limit; only that newline is overwritten, and the line becomes a C string of its own |
| Dterm.BurnSpace | main/dterm.c:295 | the cursor stops at the first byte that is not white space, cursor plus remaining size still denoting the end |
| Dterm.TakeCommand | main/dterm.c:295-296 | the next command is cut out where the specification says, as a C string |
| Dterm.IssueNext | main/dterm.c:295-324 | one turn of the loop issues the next command of the specification; the remaining size drops and reaches -1 at worst |
| Dterm.RunCommands | main/dterm.c:287-325 | the loop issues a prefix of the specified commands, all of them if none fails, and none after the first failure |
| Dterm.CmdStream | main/dterm.c:273-330 | -2 for no stream; otherwise the commands issued are a prefix of the recursive split of the CR-to-LF text, all of it if and only if the result is 0, which it is if and only if no command of the split would fail; -4 exactly when the last one issued failed, and no earlier one; in the buffer only the newlines ending issued commands are zeroed |
| Dterm.SplitJoin | main/dterm.c:288-325 | round trip: commands written one a line are issued as written |
| Dterm.SplitJoinBy | main/dterm.c:60-68 | commands without a byte 13, each ended by a byte 13 or a byte 10 in any mixture, are issued as written |
| Dterm.DroppedBytes | main/dterm.c:295 | exactly the bytes 9 to 13 and 32 are dropped ahead of a command |
| Dterm.SplitShape | main/dterm.c:295-296 | no issued command has a newline or leading white space, and only the last can be empty |
| Dterm.SpaceMakesOneEmptyCommand | main/dterm.c:295-296 | white space alone makes exactly one empty command |
| Dterm.StreamIsConserved | main/dterm.c:273-330 | apart from white space, what is issued is a prefix of the input, and all of it when everything is issued |

## Left out

- Socket creation, connecting and reconnecting with backoff, `sp_open`, `sp_close` and
  thread cancellation: system calls. The socket is a sequence of bytes received and a
  sequence of bytes written; a reconnect, which drops an unfinished line, is not modelled.
- `sp_sendcmd` on no handle, and in the step system and the round trip partial writes and
  write errors: there `sub_write` is one step, and its writes are complete. The exchange
  takes the result of `sp_sendcmd`, errors included, as input.
- Sockpush.SpItem.ReceiveAll: does not model the hand-over to a waiting reader, which the
  step system does, nor a reconnect.
- More than one reader and several client threads: the code allows one reader, and line
  457 is not made for more.
- `sp_subscribe`, subscribers and `sub_mutex_timedlock`: subscription is not implemented,
  and the lock is never used.
- cJSON, argtable and talloc: the parser is any function from a string to an optional
  message; allocation does not fail. A frame string with an embedded zero is read up to it.
- Which clock readings and which parsing a run meets: they are inputs, over which every
  result quantifies.
- `abs(INT_MIN)` in the refusal code and overflow in the initial budget are undefined in C:
  `Devmgr.BudgetFits` excludes the second, the first is computed without overflow.
- Negative timeouts, which `sp_read` would take as huge `size_t` values: the deadline is
  stated for timeouts of 0 or more.
- The JSON request branch of `sub_proc_lineinput`, its printing, and the link from the
  splitter to `cmd_devmgr`: the code of the i-th command is a parameter of the splitter.
- `isspace` is that of the C locale; bytes from 128 on, negative as `char`, are not spaces.
- `main/main.c`, `main/cliopt.c`, verbose output, colours and hex writers: argument parsing
  and printing. Timeout and tries are parameters.
- Blocking.EveryScheduleReturnsIffNotDoomed: does not count spurious wakeups, refused
  deadlines and further lines, of which a run could have any number.

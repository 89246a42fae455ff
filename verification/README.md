# Verified models of the EN675 firmware drivers

This project models the parts of the firmware that hold real protocols and arithmetic, and proves what the
drivers promise about them. The firmware runs on a 4-hart RISC-V system-on-chip; nothing here runs it.
`dafny verify dfyconfig.toml` checks everything.

| file | models |
|---|---|
| `Mailbox.dfy`, `MailboxWake.dfy`, `MailboxLive.dfy` | the inter-hart flag words: mutex, split `\|=`, `msip`, as a transition system with any number of senders; wake-up accounting; delivery under fair scheduling |
| `Plic.dfy`, `PlicLive.dfy` | the external-interrupt trap on four harts at once, with the controller as environment; delivery under fair scheduling |
| `IrqEnable.dfy` | the enable, priority and threshold words and the calls that write them |
| `Timer.dfy`, `FrameWindow.dfy` | the machine timer and the frame-rate window, over whole interrupt traces |
| `DmaRing.dfy`, `CoherentCopy.dfy` | a DMA channel with narrow wrapping pointers; the two copies with cache maintenance |
| `RxFilter.dfy` | the Ethernet receive-filter slots |
| `Sdio.dfy` | SD commands, waited for or issued and collected |
| `ShaChop.dfy`, `ShaSelfTest.dfy` | hashing in segments, digest read-out, and the shell's check of one against the other |
| `ClockDivider.dfy`, `SpiWords.dfy` | the four clock dividers; SPI word packing |
| `Words.dfy`, `Arith.dfy`, `Rounds.dfy` | words as bit sets, bytes, the nonlinear facts the rest uses, and schedules made of rounds |

Code that updates registers in place is a class whose methods have `modifies` clauses and are proved against a
value-level step function (`After`, `Step`, `Apply`, ...); the lemmas are about runs of those functions. Concurrent
code is a total step function over one shared-register access at a time, and the theorems range over every schedule.

## Hardware assumptions

- Reading a mutex register returns its old value and sets it; writing 0 frees it. A write to `msip` is immediate.
- The interrupt controller follows the RISC-V Platform-Level Interrupt Controller specification ("Interrupt Claim
  Process", "Interrupt Completion"): one gateway per source, an atomic claim of the highest-priority source with the
  lowest id first, and a completion that is ignored when the source is not enabled for that context.
- DMA: GO latches the descriptor into a FIFO, jobs run in issue order, DONE_PTR steps once per finished job, and a
  copy reads all of its source before it writes.
- Data cache: write-back, 64-byte lines; flushing a line writes it back if dirty and drops it, discarding drops it;
  no line is refilled inside the critical section, and jobs outstanding on the channel touch no cached line.
- The SD card and the hash engine are arbitrary functions. The hash engine is only assumed to absorb whole blocks and
  then more as it would absorb both at once; the block length is a parameter (1 for an engine that joins any segments).
- The core stores words little-endian.

## What the proofs show about the code

- The trap clears `msip` after its handler, so a wake can be absorbed and posted bits left waiting
  (`StrandedReachable`); `StrandedIffAbsorbed` says exactly when, and `ClearFirstNeverStrands` that the other order
  never does. The bits are not lost: `NextTrapDelivers`. Once posting stops, fair scheduling brings every run to rest
  (`ComesToRest`); then everything is delivered in the other order, and in the firmware's order unless a post was
  absorbed (`ClearFirstDelivers`, `FirmwareDeliversUnlessAbsorbed`).
- The threshold store of `enx_externalirq_perl` names the caller's context on hart 0 only, and leaves its eight-entry
  table on harts 2 and 3 (`ThresholdOnlyRightOnHart0`, `SetSource`).
- Priorities are shared, so `enx_externalirq_init_cpu3` silences source 34 on every hart that enabled it before
  (`Hart3SilencesSource34`).
- A deliverable source is claimed and its handler called within a bounded number of fair rounds (`DeliverableIsCalled`).
- A completion is accepted iff the last write of its enable bit was "on" (`AcceptedIffLastSetOn`). A handler that
  disables its own source therefore leaves it in service for good, which does happen (`RefusedReachable`,
  `LeftInServiceIffDropped`, `RefusedForever`).
- `BDmaMemCpy_rtos_discard_flush` can lose dirty bytes next to its destination. `SafeArguments` gives the arguments for
  which it cannot, whatever is cached (`DiscardSafe`): 16 KiB or more, or every line that the destination only partly
  fills is also touched by the source flush. An empty copy still discards one line. The network port's copy routine
  (Source/lib/lwIP/port/sys_arch.c:740-754) passes any ranges, so it depends on what lies beside its buffers.
- A spin on equal DMA pointers ends whenever the number of outstanding jobs is a multiple of the pointer range, not
  only when it is 0, and it can end with jobs left exactly when that many are outstanding (`SpinCanEndEarlyIff`).
- `SdioCmdResp` reads the command index back from six bits; for indices 64 and up that alias 2, 9, 10 or 41 it forgives
  a checksum error that `SdioCmd` reports (`DifferIff`, `AlwaysAgreeIff`).
- The shell's chop check compares 32 bytes against buffers with different fill, so it fails in every SHA-224 case
  (`ShaSelfTest.Case`).
- A speed above A/k selects the slowest divider in the I2C, SPI and MDIO drivers and the fastest in the flash driver
  (`Underflow`).
- `SpiRW` packs its first byte highest and unpacks the lowest byte first, so a word sent straight back arrives reversed
  (`ExchangeReverses`, `SameWordIff`).

## Model

| member | source | states |
|---|---|---|
| Mailbox.MutualExclusion | Source/dev/irq.c:1815-1821 | in every interleaving of any number of senders with the receiver at most one agent is between lock and unlock, and then the mutex is set |
| Mailbox.WordIsWhatWasPosted | Source/dev/irq.c:1816-1820 | in every reachable state the flag word holds a bit iff some store since the last collection carried it, despite the load and store being separate steps |
| Mailbox.CollectedIffPosted | Source/dev/irq.c:1216-1219 | each collected copy holds a bit iff a sender stored it after the collection before |
| Mailbox.RunKeepsLedger | Source/dev/irq.c:1214-1238 | each collected copy reaches the handler once and in order; all posted bits are the collected ones and those in the word |
| Mailbox.NothingLostOrInvented | Source/dev/irq.c:1214-1219 | conservation: the union of all posts is what the handler saw, the copy on its way, and the word |
| Mailbox.AskedIsStored | Source/dev/irq.c:1815-1820 | every sender stores exactly the flags it was asked to post, in order; the last may still be on its way |
| Mailbox.EveryPostAccountedFor | Source/dev/irq.c:1815-1821 | conservation of the requests: a bit was asked of some sender iff the handler saw it, it is in flight, in the word, or with a sender that has not stored it |
| Mailbox.EveryWakeIsLogged | Source/dev/irq.c:1810-1813 | the bare wakes recorded are the bare wakes called |
| Mailbox.TrapWaitsForHolder | Source/dev/irq.c:1216-1216 | while a sender that holds the lock does not run, the trap spins and the word stands still, whatever the others do |
| MailboxWake.RunAccounts | Source/dev/irq.c:1507-1512 | in every run, for both orders and with wakes that belong to no post: `msip` is set iff a wake is newer than its last clear, every pending store has its wake done or still to come, and the landmarks of the traps alternate |
| MailboxWake.StrandedPostsWereAbsorbed | Source/dev/irq.c:1507-1512 | in a quiet state with `msip` 0, every nonempty pending store was woken between the receiver's unlock and its `msip` clear |
| MailboxWake.StrandedIffAbsorbed | Source/dev/irq.c:1576-1580 | in a quiet state bits wait with `msip` 0 iff a post was absorbed in that window and no wake came since |
| MailboxWake.ClearFirstNeverStrands | Source/dev/irq.c:1507-1512 | with `msip` cleared before the handler, no quiet state has waiting bits and `msip` 0 |
| MailboxWake.NextTrapDelivers | Source/dev/irq.c:1216-1219 | from any reachable state, bits in the word stay until the first later collection, which takes all of them |
| MailboxWake.StrandedStays | Source/dev/irq.c:1810-1813 | with no sender mid-post and `msip` 0, nothing changes until someone posts or wakes the hart again |
| MailboxWake.StrandedReachable | Source/dev/irq.c:1576-1580 | for any nonempty post the firmware's order has a run that ends quiet with that post waiting and `msip` 0 |
| MailboxLive.SomeoneCanMove | Source/dev/irq.c:1815-1821 | no deadlock: while a post or a trap is under way, or `msip` is set, some agent's turn changes the state |
| MailboxLive.ComesToRest | Source/dev/irq.c:1507-1512 | from every reachable state, for both orders, 13n+13 rounds in which everyone gets a turn and nobody starts a post or a wake bring n senders and the hart to rest with `msip` 0 |
| MailboxLive.ClearFirstDelivers | Source/dev/irq.c:1576-1580 | with `msip` cleared first the word is then empty and every bit ever posted has reached the handler |
| MailboxLive.ClearFirstDeliversWhatWasAsked | Source/dev/irq.c:1815-1821 | in that order, after the rounds, a bit has reached the handler iff some sender was asked to post it |
| MailboxLive.FirmwareDeliversUnlessAbsorbed | Source/dev/irq.c:1576-1580 | in the firmware's order every posted bit has then reached the handler or is still in the word, and the word is empty iff no post was absorbed by the last trap |
| MailboxLive.FirmwareDeliversOrKeepsWhatWasAsked | Source/dev/irq.c:1815-1821 | in the firmware's order a bit has then reached the handler or waits in the word iff some sender was asked to post it |
| MailboxLive.BlockedReachable | Source/dev/irq.c:1216-1216 | some run reaches a trap that spins on a lock held by a sender |
| Plic.ServedOnOneContext | Source/dev/irq.c:1521-1545 | over all schedules of four harts no source is in service on two contexts, and none in service is pending |
| Plic.LeftInServiceIffRefused | Source/dev/irq.c:1531-1542 | a source 1..40 that no hart is serving is in service iff the controller ignored its completion |
| Plic.AcceptedIffLastSetOn | Source/dev/irq.c:1542-1542 | a completion is accepted iff the last write of that context's enable bit for the source set it |
| Plic.PriorityIsLastWrite | Source/dev/irq.c:1633-1637 | a source's priority is the value last written to it, 0 before any write |
| Plic.DeliverableIffSwitchedOn | Source/dev/irq.c:1633-1645 | a source reaches a context iff its request is pending, its enable bit was last set and its priority last written above 0 |
| Plic.ClaimsTheBestSwitchedOn | Source/dev/irq.c:1531-1531 | every claim returns a pending source that the last writes switch on for the context, of the highest priority, lowest id first |
| Plic.GatewayClosedIff | Source/dev/irq.c:1542-1542 | a gateway is closed exactly while its request is pending or in service |
| Plic.PendingIffRequested | Source/dev/irq.c:1531-1531 | a source is pending iff its line was raised while it was not in service and no claim has returned it since |
| Plic.RefusedIffDropped | Source/dev/irq.c:1541-1542 | a completion of a source on a context has been ignored iff one was made while the last write of its enable bit there was "off" |
| Plic.LeftInServiceIffDropped | Source/dev/irq.c:1541-1542 | a source 1..40 that no hart is serving is in service iff some completion of it was made with its enable bit off |
| Plic.RefusedReachable | Source/dev/irq.c:1541-1542 | on every hart and for every source 1..40 some run has its completion refused |
| Plic.SkippedWasEnabled | Source/dev/irq.c:1532-1534 | an id that a context claimed and skipped is above 40 and had its enable bit there set |
| Plic.RefusedForever | Source/dev/irq.c:1604-1604 | after a refused completion the source stays in service and never becomes pending, in every continuation |
| Plic.EveryClaimIsReleased | Source/dev/irq.c:1587-1606 | if the enable bit of a source on a context is never dropped while that context serves it, the source is in service there exactly while it is being served, or, above 40, once it was skipped; other enable bits are free |
| Plic.TrapsAreOrderly | Source/dev/irq.c:1524-1543 | on every hart the events read claim, call, complete with one id on one context, over and over; ids above 40 are skipped |
| Plic.CountsMatchCalls | Source/dev/irq.c:1540-1541 | each hart's counter of a source is the number of its calls of the handler modulo 2^64, plus one between the count and the call |
| Plic.AllCallsSum | Source/dev/irq.c:1541-1541 | the calls of a handler are the sum of the calls on the four harts |
| Plic.CountersAddUp | Source/dev/irq.c:1602-1603 | when no hart is between count and call, the four counters of a source add up to all calls of its handler modulo 2^64 |
| PlicLive.StepLeft | Source/dev/irq.c:1524-1543 | while a source is deliverable on a context, every turn of any hart brings its claim nearer or leaves that hart, the pending sources and the settings alone |
| PlicLive.RoundsClaim | Source/dev/irq.c:1521-1545 | after at most 10p+8 rounds of turns, p being the number of pending sources, a deliverable source is no longer pending |
| PlicLive.RoundsCall | Source/dev/irq.c:1540-1541 | a claimed source has its handler called within two more rounds |
| PlicLive.DeliverableIsCalled | Source/dev/irq.c:1587-1606 | from every reachable state, with nothing raised and no enable or priority written, a source 1..40 deliverable on some context has been called after 10p+10 fair rounds, is not pending, and is deliverable nowhere |
| PlicLive.RequestIsCalled | Source/dev/irq.c:1587-1606 | in terms of lines raised and words written: a waiting request that is switched on for some context is called within those rounds |
| PlicLive.NothingLeftToDeliver | Source/dev/irq.c:1587-1606 | after that many rounds no source 1..40 is deliverable on any context |
| IrqEnable.Controller.SetSource | Source/dev/irq.c:1626-1648 | with a valid mode, sets or clears bit idx%32 of enable word 4*hart + 2*mode + idx/32, writes 1 or 0 to priority idx, and 0 to threshold 4*hart + mode where it exists, and nothing else; the words stay what the calls so far make of power-up |
| IrqEnable.Controller.IsEnabled | Source/dev/irq.c:1618-1624 | returns the enable bit of that hart, mode and source |
| IrqEnable.Controller.DisableHart | Source/dev/irq.c:1692-1698 | clears the hart's four words and no other |
| IrqEnable.Controller.DisableEverything | Source/dev/irq.c:1685-1690 | clears all sixteen words |
| IrqEnable.Controller.WordsAreLastCalls | Source/dev/irq.c:1618-1648 | in the words, after any calls since power-up: each enable bit is its last relevant call and each priority the last call on any hart |
| IrqEnable.Controller.WhatIsDelivered | Source/dev/irq.c:1633-1647 | in the words, after any calls since power-up: a source reaches a context iff both were "on" |
| IrqEnable.IndexIsInjective | Source/dev/irq.c:1639-1645 | two (hart, mode, source) triples never share an enable bit |
| IrqEnable.OneBit | Source/dev/irq.c:1639-1645 | a call changes the enable bit of its own triple only, or those of its own hart, or all |
| IrqEnable.EnableIsLastWrite | Source/dev/irq.c:1618-1645 | after any calls an enable bit is what the last relevant call made it |
| IrqEnable.PriorityIsLastCall | Source/dev/irq.c:1633-1637 | after any calls a priority is what the last call on any hart made it |
| IrqEnable.ThresholdsStayZero | Source/dev/irq.c:1647-1647 | no call ever makes a threshold nonzero |
| IrqEnable.DeliverableIff | Source/dev/irq.c:1633-1646 | with thresholds 0 a source reaches a context iff its last relevant enable write and the last call on any hart were "on" |
| IrqEnable.OffSilencesEverywhere | Source/dev/irq.c:1635-1637 | an "off" on one hart makes the source undeliverable on every hart and changes no other enable bit |
| IrqEnable.ThresholdOnlyRightOnHart0 | Source/dev/irq.c:1647-1647 | the threshold store clears the caller's own context's threshold from every table iff the caller is hart 0 |
| IrqEnable.Hart3SilencesSource34 | Source/dev/irq.c:1789-1808 | after any calls followed by hart 3's start-up, source 34 is undeliverable on harts 0 to 2 while their enable bits are as before |
| IrqEnable.EnabledAfterInit | Source/dev/irq.c:1789-1808 | after hart 3's start-up it has exactly sources 1, 2, 6 and 7 enabled, in machine mode |
| Timer.TimerUnit.InitHart | Source/dev/irq.c:1679-1680 | sets the hart's compare register one step past the counter, modulo 2^64, and nothing else; the registers stay what the calls so far make of power-up |
| Timer.TimerUnit.Next | Source/dev/irq.c:1414-1432 | one timer interrupt leaves the compare registers, the tick counter and both clocks as the step function says; the registers stay what the calls so far make of power-up |
| Timer.NoDrift | Source/dev/irq.c:1414-1419 | n interrupts after its init a hart's compare register is (n+1) steps past that init modulo 2^64, in any interleaving of harts |
| Timer.UptimeCountsHart0 | Source/dev/irq.c:1420-1430 | both clocks have grown by floor(n/100) for n interrupts of hart 0 and by nothing from the other harts |
| Timer.HundredStepsAreASecond | Source/dev/dev_types.h:51-54 | a hundred steps are one second of the counter |
| Timer.UptimeFollowsCompare | Source/dev/irq.c:1414-1432 | from a start of hart 0 on, the uptime grows by the whole seconds by which its compare register has advanced |
| Timer.TimerUnit.CompareSinceInit | Source/dev/irq.c:1414-1419 | the no-drift law on the registers, after any calls in any order |
| Timer.TimerUnit.ClocksCountHart0 | Source/dev/irq.c:1420-1430 | the uptime law on the registers, after any calls in any order |
| FrameWindow.FrameCounter.OnFrame | Source/dev/irq.c:221-236 | one frame interrupt leaves the window state as the step function says; the variables stay what the events so far make of power-up |
| FrameWindow.FrameCounter.RequestRestart | Source/dev/isp/isp_main.c:359-360 | a restart request sets the change counter to 2 and nothing else |
| FrameWindow.FrameCounter.CountIsTrue | Source/dev/irq.c:221-236 | in the variables, for frames less than 2^64 cycles after their window start: with no request pending the count is the number of frames since that start, all within W of it |
| FrameWindow.ElapsedIsDifference | Source/dev/irq.c:224-225 | the elapsed expression is the difference of the cycle counts modulo 2^64 |
| FrameWindow.CountsSinceStart | Source/dev/irq.c:227-233 | over any trace the running count is the number of frames since the last window start modulo 2^32, and `pre_time` is that start |
| FrameWindow.PublishedCount | Source/dev/irq.c:228-232 | once the change counter is 0 each published figure is the number of frames strictly between two consecutive window starts; otherwise it is unchanged |
| FrameWindow.PublishedInTrueTime | Source/dev/irq.c:225-233 | for nondecreasing cycle counts less than 2^64 after their window start, with no request pending: a frame ends the window iff it comes more than W after its start, and the figure it publishes counts the frames since, all within W of that start |
| FrameWindow.PeriodicRun | Source/dev/irq.c:221-236 | from any window start on, a constant period gives the whole state after every frame: windows of q+1 frames |
| FrameWindow.ConstantPeriod | Source/dev/irq.c:227-233 | after any events, from any window start on with a constant period T, the old figure stays for floor(W/T) frames and every later figure is floor(W/T) |
| FrameWindow.ConstantPeriodAfterRequest | Source/dev/irq.c:227-233 | the same after power-up or a restart request at any time, whose first two frames serve the request |
| FrameWindow.ConstantPeriodAfterChange | Source/dev/isp/isp_main.c:359-360 | after any events that end with a restart request, with a constant period T, the old figure stays for the first floor(W/T) + 2 frames and is floor(W/T) from then on |
| FrameWindow.ConstantPeriodAfterPowerUp | Source/dev/irq.c:213-233 | the same from power-up, where the figure is 0 |
| FrameWindow.WindowLength | Source/dev/irq.c:227-227 | the window is 4.008 seconds of CPU cycles |
| DmaRing.ApplySplit | Source/dev/dma.c:113-123 | running a list of jobs is running any prefix and then the rest |
| DmaRing.JobBytes | Source/dev/dma.c:117-121 | a job does to memory, byte by byte, the copy or the fill it describes, and that determines the result |
| DmaRing.PointersEqualIff | Source/dev/dma.c:122-122 | equal pointers mean that the outstanding jobs are a multiple of M, and, below M of them, that there are none |
| DmaRing.SpinCanEndEarlyIff | Source/dev/dma.c:122-122 | DONE_PTR takes JOB_PTR's value before the last job is finished iff M or more jobs are outstanding |
| DmaRing.Channel.HandlesDistinct | Source/dev/dma.c:125-136 | in any state of the channel the handles returned for any M consecutive jobs are distinct |
| DmaRing.Channel.HandleNamesJob | Source/dev/dma.c:128-135 | JOB_PTR and the handle of one of the last M jobs give that job's number |
| DmaRing.Channel.HandleTest | Source/dev/dma.c:153-166 | below M outstanding and younger jobs, the job with handle h is finished iff (JOB_PTR - h - 1) mod M >= (JOB_PTR - DONE_PTR) mod M |
| DmaRing.Channel.HandleSoundness | Source/dev/dma.c:153-166 | memory is then the starting memory with exactly a prefix of the jobs applied, and a job is in that prefix iff its handle passes the test |
| DmaRing.Channel.IssueCopy | Source/dev/dma.c:128-134 | while the engine works on, the register stores append exactly the copy asked for and return JOB_PTR as it was |
| DmaRing.Channel.IssueFill | Source/dev/dma.c:217-223 | the same for a fill |
| DmaRing.Channel.AwaitDone | Source/dev/dma.c:122-122 | the spin ends with a multiple of M jobs outstanding, so with none if fewer than M were; memory is the old one with a prefix of the jobs applied |
| DmaRing.Channel.MemCpy | Source/dev/dma.c:113-123 | with fewer than M jobs outstanding it returns only when every earlier job and its own have taken effect in issue order; on an idle channel memory is then as before except that byte dst+i is the old byte src+i |
| DmaRing.Channel.MemCpyAsync | Source/dev/dma.c:125-136 | appends the job, and returns and records its number modulo M |
| DmaRing.Channel.MemSet | Source/dev/dma.c:201-212 | as for the copy, with a fill: on an idle channel every destination byte is the value and the rest is as before |
| DmaRing.Channel.MemSetAsync | Source/dev/dma.c:214-225 | as for the asynchronous copy, with a fill |
| CoherentCopy.WriteBackKeepsView | Source/dev/cpu/rv_utils.c:51-65 | writing any set of lines back keeps the cache coherent and changes nothing the hart sees |
| CoherentCopy.EngineKeepsOutcome | Source/dev/dma.c:168-182 | however many outstanding jobs the engine has done, the cached lines are untouched in memory and what the hart will see once all are done is the same |
| CoherentCopy.FlushTwice | Source/dev/dma.c:172-173 | two flushes in a row, with the engine at work, are one flush of both sets of lines |
| CoherentCopy.Machine.FlushRange | Source/dev/cpu/rv_utils.c:51-65 | with the engine at work, the loop writes back and drops exactly the lines that overlap the range, one line for an empty range, all lines from 16 KiB up; the outcome is unchanged, and on an idle channel memory changes on those lines only |
| CoherentCopy.Machine.DiscardRange | Source/dev/cpu/rv_utils.c:84-98 | with the engine at work, the loop drops exactly the same lines without writing back |
| CoherentCopy.UncachedJob | Source/dev/dma.c:174-180 | a DMA job on ranges that are not cached keeps the cache coherent and is that job on the hart's view |
| CoherentCopy.DropLosesIff | Source/dev/dma.c:188-189 | after flushing the source, discarding the destination keeps the view outside the destination iff no dirty byte there shares a line that only the discard drops |
| CoherentCopy.CopyIff | Source/dev/dma.c:190-196 | the copy that follows gives the old view's copy iff the view outside the destination was intact |
| CoherentCopy.JobsKeepDifferences | Source/dev/dma.c:190-196 | jobs on bytes where two views agree leave them different exactly where they were |
| CoherentCopy.DiscardedCopyIff | Source/dev/dma.c:188-196 | flush the source, drop the destination's lines, copy: the outcome is the right one iff nothing dirty was lost, with any jobs outstanding |
| CoherentCopy.Machine.MemCpyFlush | Source/dev/dma.c:168-182 | what the hart will see is the old outcome of the outstanding jobs with byte dst+i replaced by byte src+i and the rest as before, for every alignment, cache state and number of jobs; with room on the channel it is what the hart sees on return |
| CoherentCopy.Machine.MemCpyDiscardFlush | Source/dev/dma.c:184-198 | the same, byte by byte, iff no dirty byte outside the destination shares a discarded line that the source flush did not write back; in particular for safe arguments |
| CoherentCopy.SafeIffCovered | Source/dev/dma.c:188-189 | no cache state loses a dirty byte iff every line that the discard touches outside the destination is touched by the source flush or does not fit in memory |
| CoherentCopy.CoveredIffSafe | Source/dev/cpu/rv_utils.c:84-98 | that holds iff the size is 16 KiB or more, or the lines the destination only partly fills, or the one line of an empty copy, are so covered |
| CoherentCopy.SafeArguments | Source/dev/dma.c:184-198 | so the discarding copy is an ordinary copy for every cache state iff its arguments satisfy that condition |
| CoherentCopy.DistantSource | Source/dev/dma.c:184-198 | with the source on other lines, a copy of 1 to 16383 bytes is safe iff its destination is made of whole lines |
| CoherentCopy.WholeLinesLoseNothing | Source/dev/dma.c:184-198 | a corollary: a nonempty destination of whole lines, or any of 16 KiB or more, loses nothing wherever the source lies |
| CoherentCopy.EmptyCopyCanLose | Source/dev/cpu/rv_utils.c:91-96 | an empty copy to a line boundary can lose a dirty line |
| RxFilter.PackThenList | Source/dev/eth.c:173-178 | listing a slot gives back the six bytes that were packed into it |
| RxFilter.ListThenPack | Source/dev/eth.c:210-223 | packing the bytes listed from a slot gives its two words back |
| RxFilter.FieldBytes | Source/dev/eth.c:184-186 | the first address byte is the top byte of the 16-bit field and the third that of the 32-bit field, the others following in order |
| RxFilter.MatchesIff | Source/dev/eth.c:197-198 | the comparison of packed words in an enabled slot is equality of addresses |
| RxFilter.BagPut | Source/dev/eth.c:182-188 | replacing one slot exchanges one address of the multiset |
| RxFilter.InsertAddsOne | Source/dev/eth.c:180-191 | insertion succeeds iff fewer than 31 addresses are held, then adds exactly one copy, and never touches slot 31 |
| RxFilter.DeleteRemovesOne | Source/dev/eth.c:193-208 | deletion succeeds iff the address is held, then removes exactly one copy, and never touches slot 31 |
| RxFilter.InsertThenDelete | Source/dev/eth.c:180-208 | inserting into a table with room and deleting the same address restores the multiset |
| RxFilter.TableRefinesMultiset | Source/dev/eth.c:173-208 | after any calls from reset the table holds the multiset the calls describe, at most 31 addresses, and every disabled filter slot is all zero |
| RxFilter.OwnSlotIsLastOwn | Source/dev/eth.c:173-178 | after any calls slot 31 is empty if no own address was set, and otherwise enabled with the last one set |
| RxFilter.FilterTable.SetOwn | Source/dev/eth.c:173-178 | enables the reserved slot 31 with the address and changes no other slot; the registers stay what the calls so far make of reset |
| RxFilter.FilterTable.Insert | Source/dev/eth.c:180-191 | succeeds iff fewer than 31 addresses are held and then adds one copy; fills the first free slot |
| RxFilter.FilterTable.Delete | Source/dev/eth.c:193-208 | succeeds iff the address is held and then removes one copy; zeroes the first matching slot |
| RxFilter.FilterTable.List | Source/dev/eth.c:210-223 | one row per slot, all 32, with its enable bit and unpacked address |
| RxFilter.FilterTable.OwnRow | Source/dev/eth.c:173-178 | in the registers, and so in row 31 of the list: empty, or enabled with the last own address set |
| RxFilter.FilterTable.HoldsWhatCallsDescribe | Source/dev/eth.c:173-208 | in the registers, after any calls since reset: the described multiset, at most 31 addresses, and every disabled filter slot all zero |
| Sdio.WaitingIsDraining | Source/dev/sdio.c:185-188 | however long the caller leaves a command alone, the state after the spin is the same |
| Sdio.SameEnd | Source/dev/sdio.c:145-218 | issuing, waiting any time and collecting ends in the registers, card state and response words of the synchronous call |
| Sdio.SyncIsAsyncThenCollect | Source/dev/sdio.c:73-218 | for every index below 64, every card and every wait, both ways report the same result |
| Sdio.DifferIff | Source/dev/sdio.c:190-203 | over all byte indices the results differ iff the index is 64 or more, its low six bits are 2, 9, 10 or 41, and only the checksum failed |
| Sdio.AlwaysAgreeIff | Source/dev/sdio.c:111-121 | both ways agree for every card iff the index is below 64 or its low six bits are none of 2, 9, 10, 41 |
| Sdio.SecondReplacesFirst | Source/dev/sdio.c:145-179 | a second command issued before the first is collected waits for the first and leaves only its own outcome |
| Sdio.RunsAgree | Source/dev/sdio.c:73-218 | any list of commands below 64 gives the same reports and final state both ways, whatever the card and the waits |
| Sdio.CardReceives | Source/dev/sdio.c:83-106 | the card gets the low six bits of the index, the argument, busy for R1b, long for R2, and the response enable; its answer is what the registers hold after the spin |
| Sdio.CommandFailsIff | Source/dev/sdio.c:118-128 | a synchronous command fails iff the card timed out, or the checksum was bad and the command is none of 2, 9, 10, 41 |
| Sdio.FilledWords | Source/dev/sdio.c:225-233 | word 0 of the buffer is the top response word; for a long response words 1 to 3 follow in falling order; the rest is untouched |
| Sdio.Controller.Cmd | Source/dev/sdio.c:73-143 | the card receives the index, argument and flags asked for; the result is FAIL iff it timed out or, unless the command is 2, 9, 10 or 41, the checksum was bad; the buffer gets its one word, or four for a long response, and the rest is untouched |
| Sdio.Controller.CmdAsync | Source/dev/sdio.c:145-179 | waits for a running command, hands the card the index, argument and flags asked for, and returns OK |
| Sdio.Controller.CmdResp | Source/dev/sdio.c:181-218 | result, registers and buffer of the collection, judged by the index read back |
| Sdio.Controller.GetResp | Source/dev/sdio.c:225-233 | one response word, or four for a long response, and no other buffer entry |
| ShaChop.TotalIsLength | Source/dev/sha.c:50-72 | over any commands after an Init the running total is the length since the last Init modulo 2^32 |
| ShaChop.CoreIsMessage | Source/dev/sha.c:50-72 | over any such commands the engine has absorbed exactly the segments since the last Init |
| ShaChop.FinishedSession | Source/dev/sha.c:62-66 | Final programs that length modulo 2^32 and the digest is the engine's for that message and total |
| ShaChop.FinishedIsOneShot | Source/dev/sha.c:50-78 | below 2^32 bytes the digest after Final is the one-shot digest of the message |
| ShaChop.ProgrammedTotal | Source/dev/sha.c:53-66 | an Init, Updates, Final session programs the sum of its segment lengths modulo 2^32, which is the sum iff that is below 2^32 |
| ShaChop.SessionIsOneShot | Source/dev/sha.c:50-78 | below 2^32 bytes such a session ends with the one-shot digest of the concatenated segments |
| ShaChop.StoreIsBigEndian | Source/dev/sha.c:15-24 | storing a byte-swapped digest word writes its bytes most significant first |
| ShaChop.DigestByteAt | Source/dev/sha.c:15-24 | word k of the digest starts at byte 4k with its top byte; 28 bytes in SHA-224 mode, otherwise 32 |
| ShaChop.BytesDetermineWords | Source/dev/sha.c:11-25 | two digests give the same bytes iff the words that count in the mode are equal |
| ShaChop.ShaUnit.ChopCalcAsync | Source/dev/sha.c:50-72 | accounts the length in any state; on an idle engine, whatever time it takes, the request ends as one step of the session |
| ShaChop.ShaUnit.ChopCalc | Source/dev/sha.c:74-78 | the same, and the engine is idle on return |
| ShaChop.ShaUnit.ShotCalc | Source/dev/sha.c:134-147 | on return the digest registers hold the one-shot digest of the bytes |
| ShaChop.ShaUnit.GetDigest | Source/dev/sha.c:11-25 | writes the digest most significant byte first, 32 bytes or 28 in SHA-224 mode, and nothing past it |
| ShaSelfTest.ChopHalf | Source/core/core0/task/shell/shell_cmd_util.c:622-677 | for any block-aligned cuts the test's session ends with the one-shot digest of the source bytes |
| ShaSelfTest.Case | Source/core/core0/task/shell/shell_cmd_util.c:603-688 | with a correct engine a case passes iff the mode is SHA-256 |
| ClockDivider.RateIsFloor | Source/dev/i2c.c:103-107 | the read-back rate is floor(floor(A/k)/(d+1)) |
| ClockDivider.WantedReachable | Source/dev/i2c.c:94-94 | for 1 <= S <= A/k the 32-bit expression does not wrap and is floor(floor(A/k)/S) - 1 |
| ClockDivider.ReachesIff | Source/dev/spi.c:103-112 | for every S with a nonzero divisor the programmed rate is at least S iff S <= A/k, wrapped products included |
| ClockDivider.NextIsTooSlow | Source/dev/spi.c:103-112 | without saturation the next larger divider is slower than S |
| ClockDivider.DividerIs | Source/dev/sfls.c:94-102 | for every nonzero 32-bit product, wrapped or not: the divider is the quotient less one cut to the largest, and for quotient 0 the largest, or 0 in the flash driver |
| ClockDivider.SlowSpeedsSaturate | Source/dev/i2c.c:94-100 | a reachable speed gets floor(floor(A/k)/S) - 1, or the largest divider whenever that does not fit |
| ClockDivider.Underflow | Source/dev/sfls.c:92-105 | for A/k < S < 2^32/k the unsigned underflow selects the slowest divider in I2C, SPI and MDIO and the fastest in the flash driver |
| ClockDivider.FloorTwice | Source/dev/i2c.c:92-107 | the nested floor law: b/(b/(b/m)) = b/m |
| ClockDivider.ReadBackIsStable | Source/dev/i2c.c:92-107 | setting the clock to the rate just read back leaves that rate unchanged, saturation included, for every divider with a nonzero rate |
| ClockDivider.DriversAreStable | Source/dev/eth.c:57-72 | that law on the constants of the four drivers, for every divider they can hold |
| ClockDivider.I2cClocks.SetClk | Source/dev/i2c.c:92-101 | one channel's divider becomes the saturated one, and its rate reaches the speed iff it is reachable |
| ClockDivider.I2cClocks.Reapply | Source/dev/i2c.c:92-107 | reading the rate and setting it again leaves the rate read back as it was, for every divider the register can hold |
| ClockDivider.SpiClocks.SetClk | Source/dev/spi.c:103-112 | the same for SPI |
| ClockDivider.SpiClocks.Reapply | Source/dev/spi.c:103-118 | the same for SPI |
| ClockDivider.FlashClock.SetClk | Source/dev/sfls.c:92-105 | the same for the flash driver with its underflow branch |
| ClockDivider.FlashClock.Reapply | Source/dev/sfls.c:92-111 | the same for the flash driver |
| ClockDivider.MdioClock.SetClk | Source/dev/eth.c:57-66 | the same for MDIO |
| ClockDivider.MdioClock.Reapply | Source/dev/eth.c:57-72 | the same for MDIO |
| SpiWords.WriteThenRead | Source/dev/spi.c:226-255 | for every word size, reading back the word a write packed gives the bytes in order |
| SpiWords.ExchangeReverses | Source/dev/spi.c:257-277 | an exchange whose word comes straight back gives the bytes reversed |
| SpiWords.SameWordIff | Source/dev/spi.c:226-277 | an exchange sends the word a write sends iff the bytes are a palindrome |
| SpiWords.LowBytes | Source/dev/spi.c:228-231 | a written word has the first byte lowest and zero above the last |
| SpiWords.HighBytes | Source/dev/spi.c:259-262 | an exchanged word has the last byte lowest and zero above the first |
| SpiWords.Channel.Write | Source/dev/spi.c:226-236 | sends the packed word in one transfer and receives nothing |
| SpiWords.Channel.Read | Source/dev/spi.c:238-255 | whatever the device answers, the first WS+1 bytes of the buffer become its word, lowest first, and the rest is untouched |
| SpiWords.Channel.Exchange | Source/dev/spi.c:257-277 | one transfer both ways: the device gets the bytes highest first and the buffer gets its answer lowest first, for any device; a device that echoes returns the bytes reversed |
| SpiWords.Channel.WriteRead | Source/dev/spi.c:226-255 | a write and then a read give the device's answer, and from a device that echoes the sent bytes in order |

## Left out

- IrqEnable.Controller.SetSource: on harts 2 and 3 the threshold store reads past its pointer table, which C leaves undefined; the model reports it and stores nothing.
- Mailbox.MutualExclusion: senders and receiver are separate agents; a sender interrupted on the receiver's own hart appears as one that does not run (`TrapWaitsForHolder`).
- MailboxLive.ComesToRest: while new posts keep coming a spinning agent can lose the lock every time, so nothing is promised about a run in which posting never stops.
- Sdio.SyncIsAsyncThenCollect: the card is a function of its own state and the request, and only command completion changes the result flags; the diagnostic prints are dropped.
- ShaChop.ShaUnit.ChopCalc: what a request made while SHA_REQ is still 1 does to the digest is not promised; the code does not check, and the hardware's answer is unknown.
- ShaChop.ShaUnit.ChopCalcAsync: under the same limit.
- ShaChop.ShaUnit.ShotCalc: under the same limit.
- ShaChop.SessionIsOneShot: one session at a time; two items interleaved on the one engine, and a one-shot calculation inside a session, are not covered.
- DmaRing.Channel.MemCpy: the FULL flag is not checked by the code and is not modelled; pointer width is the parameter M (16 or 64); CDMA repeats the BDMA code.
- DmaRing.Channel.MemCpyAsync: one issuer at a time; the `_isr` routines take no lock, and two of them interleaved on one channel, where JOB_PTR and the descriptor can be overwritten, are not covered.
- CoherentCopy.Machine.MemCpyFlush: one hart's data cache; jobs outstanding on cached ranges are not covered; address arithmetic is unbounded.
- CoherentCopy.Machine.MemCpyDiscardFlush: under the same limits.
- Timer.TimerUnit.Next: the RTOS tick routine `vPortSysTickHandler` is not part of this model. The clocks are `time_t` (Source/core/shared/msg.h:36-38), signed, and modelled as integers: their overflow is undefined in C.
- ClockDivider.ReachesIff: asks for a nonzero 32-bit divisor; for a speed of 0, or one whose product wraps to 0, the code divides by zero, which C leaves undefined.
- PlicLive.DeliverableIsCalled: while devices keep raising higher-priority lines a source can wait forever, so nothing is promised about a run in which raising never stops.
- Words in the mailbox and enable table are bit sets, which is what `|=` and `&= ~` on them need; the filter and digest words are bit vectors.
- Callbacks, interrupt flags, `printf` and register dumps: one-line members.
- `SdioSetClock` (no saturation, 12-bit truncation) and `AdcGetClk` (factor differs from its setter): the divider laws do not hold there.
- `ddr.c`, `time.c` and the second half of `i2c.c`: not compiled.
- AES, checksum and the hash compression: hardware. RTOS, system calls, image and codec handlers: outside the drivers modelled.

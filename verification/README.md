# libedr, modelled and verified in Dafny

libedr is a stack of drivers. Each driver compiles a transaction of its own layer into a
transaction of the layer below, waits for it, and replays the results. This project models the
parts of the stack where that is hardest to get right and proves what they promise, for every
input, every interleaving and every behaviour of the other side.

* **RISC-V DMI driver** (`Latency`, `DmiTarget`, `DmiPipeline`, `RvJtagDtm`). DMI accesses are
  pipelined: the answer to one comes out on the scan of the next. A busy answer makes the
  driver raise its latency and try again, without issuing again the access that is under way.
  The target is a debug transport module with arbitrary delays, results and faults, after
  sections 6.1.4 (dtmcs) and 6.1.5 (dmi) of the RISC-V External Debug Support specification,
  version 0.13.2.
* **JTAG chain compiler** (`Tap`, `TapPaths`, `ChainBits`, `ScanPath`, `ChainVisit`,
  `ChainCount`, `ChainScan`, `ChainTap`, `ChainAnswers`, `ChainWrites`, `ChainReport`,
  `ChainSession`, `ChainVisitor`, `JtagChain`). One visitor class runs twice over a transaction, first to emit raw JTAG
  actions, then to consume their results. The TAP is that of clause 6.1 of IEEE Std
  1149.1-2013.
* **Pull-driven JTAG port** (`JtagWire`, `PullSpec`, `PullState`, `PullJtag`). Two resumable
  generators over one queue, for any split into buffers.
* **Bit streams** (`Words`, `BitStream`). Word-wise reads, writes and copies between words of
  any two widths.
* **Coroutine tasks and queues** (`TaskProtocol`, `ResolverProtocol`, `QueueSpec`,
  `ResolutionQueue`). Two sides that race on one atomic word, as transition systems; the
  intrusive queue with two cursors.
* **Tunnel** (`Tunnel`). The table of pending requests, with re-entrant sends.
* **Storage and streams** (`TransactionBuffer`, `Vss`, `WriteMany`). The chunked buffer, the
  layout of variable-size structures, and the accounting of partial writes.

`Common`, `Num` and `Bits` hold what the others share. Objects that the source updates in place
are classes; each of their methods is tied to a specification function, and the properties are
lemmas about those functions. Invariants that would be large in every proof stand behind a key
(`Common.IsKey` and others like it), and some contracts write `P(..) == true` to keep a predicate folded; neither
changes what is stated.

Where the code departs from what it evidently means to do, the model follows the code and a
lemma says exactly when it does what is meant:

* A data or instruction scan never sends the bits for TAPs below the last one written, so the
  registers end up as meant exactly when there are none (`ScanPath.LoadsIffNothingBelow`).
* An instruction scan of several TAPs is left out exactly when no single instruction is
  remembered (`ChainCount.ElidedExactly`, `ChainCount.SeveralDropped`,
  `ChainCount.TwoInstructionsDropped`), and every transaction that scans data and writes no
  instruction forgets the one remembered (`ChainCount.DataScansForget`).
* A scan of no bits records a state that the TAP does not reach (`ChainTap.FlushTdiAgrees`).
* A chain transaction may report every action done although the port did not complete the plan
  (`ChainReport.ReportsAllExactly`, `ChainReport.NothingDoneReported`).
* The completer sees only the final chain. Where nothing is written before the last change to
  it, the completer follows the translator exactly when every selection names a TAP of the final
  chain, and otherwise refuses one after all of it was carried out
  (`ChainVisit.SameRunExactly`, `ChainVisit.ForgottenSelectionRefused`).
* A DMI access that is answered busy is asked for again without waiting: the raised latency only
  serves the accesses behind it. So a transaction that ends in an access completes on every target
  that needs at most so many cycles in Run-Test/Idle exactly when the latency it starts with is
  that long, however great the greatest latency is (`RvJtagDtm.RVJtagDTM.Execute`,
  `DmiPipeline.AttemptSticks`, `DmiPipeline.SlowLastExists`). With a target that completes busy
  accesses by the time they are asked for again, the greatest latency is what counts.
* `Enough` halves the distance to the minimum exactly unless that distance is the widest possible,
  when it wraps and does nothing (`Latency.EnoughHalves`).
* `SkipCycles` after a DMI access makes the result pass read an output that is not there
  (`DmiPipeline.CrashesIffSkipFollows`).
* Once everything started is resolved, the next `StartNextScheduled` writes into an item that
  is resolved already, exactly when `NoScheduled()` was false right after the last start
  (`QueueSpec.WritesResolvedExactly`). The pull-driven port never gets there
  (`PullJtag.PullJtag.Advance`).
* A task that a resumed owner keeps beyond its next suspension is used after it is freed
  (`TaskProtocol.KeptTooLong`). The finisher leaves a resumed owner safely exactly when it has
  dropped its handle, and an interleaving is safe exactly when no owner left before that drops
  it later (`TaskProtocol.LeavesSafelyExactly`, `TaskProtocol.SafeExactly`).
* `Split` and the read-only conversion lose bits unless the offset is 0
  (`BitStream.SplitExactly`).
* A copy between two streams over one memory goes vessel by vessel, and copies the bits that were
  there exactly when it does not go forwards onto itself by more than one vessel
  (`BitStream.CopyWithinExactly`).
* A cleared buffer that is refilled with fewer chunks is walked past its end
  (`TransactionBuffer.StopsAtEnd`), and `FromDistance` inverts `Distance` only in the first
  chunk (`TransactionBuffer.FromDistanceExactly`).
* An error of the stream may be blamed on a write that is full
  (`WriteMany.FullWritesBlamed`; exactly when, `WriteMany.BlamedLacksExactly`).

The calibrator allows at most 32 `TooLow` calls before its maximum, and that bound is reached
(`Latency.AtMost32Reports`, `Latency.Bound32IsTight`).

## Model

| member | source | states |
|---|---|---|
| `Latency.LatencyCalibrator.BumpMin` | src/libedr/util/miscellaneous/LatencyCalibrator.hpp:16-20 | the new state, and that min <= current <= max is kept |
| `Latency.LatencyCalibrator.TooLow` | src/libedr/util/miscellaneous/LatencyCalibrator.hpp:22-32 | the new state in 32-bit arithmetic; below the maximum the order is kept |
| `Latency.LatencyCalibrator.Enough` | src/libedr/util/miscellaneous/LatencyCalibrator.hpp:34-37 | the new state, and that the order is kept |
| `Latency.BumpMinLeast` | src/libedr/util/miscellaneous/LatencyCalibrator.hpp:16-20 | the new state is the least ordered one that has the new minimum and lowers nothing |
| `Latency.EnoughHalves` | src/libedr/util/miscellaneous/LatencyCalibrator.hpp:34-37 | the distance to the minimum is halved, and nothing else changes, if and only if it is not the widest; then nothing changes at all |
| `Latency.CalmSettles` | src/libedr/util/miscellaneous/LatencyCalibrator.hpp:34-37 | after k successes in a row the distance is at most a 2^k-th of what it was; after 32 it is none |
| `Latency.TooLowExact` | src/libedr/util/miscellaneous/LatencyCalibrator.hpp:22-32 | a report keeps the order and rules out the reported latency if and only if current is below the maximum; then current + 1 at least doubles or reaches the maximum, without overflow |
| `Latency.RunKeepsOrder` | src/libedr/util/miscellaneous/LatencyCalibrator.hpp:16-37 | over every run of calls the order is kept and the minimum never falls |
| `Latency.NeverUsedAgain` | src/libedr/util/miscellaneous/LatencyCalibrator.hpp:22-24 | after a report, no later state of any run uses a latency at or below the one reported |
| `Latency.RepeatGrows` | src/libedr/util/miscellaneous/LatencyCalibrator.hpp:25-31 | k reports in a row bring current to the maximum or current + 1 to at least 2^k |
| `Latency.AtMost32Reports` | src/libedr/util/miscellaneous/LatencyCalibrator.hpp:22-32 | no more than 32 reports in a row are possible below the maximum, from any state |
| `Latency.Bound32IsTight` | src/libedr/util/miscellaneous/LatencyCalibrator.hpp:22-32 | the widest range takes exactly 32 |
| `DmiTarget.PackRoundTrip` | src/libedr/driver/riscv/RVJtagDTM.cpp:220-238 | shifting a dmi register through abits + 34 bits keeps its fields if and only if the address fits |
| `DmiTarget.DtmcsFields` | src/libedr/driver/riscv/RVJtagDTM.cpp:12-24 | for all values of the fields, each is read back from the bits at which it stands in dtmcs |
| `DmiTarget.StickyIgnoresScans` | src/libedr/driver/riscv/RVJtagDTM.cpp:185-193 | while an error is sticky, no sequence of dmi scans performs an access or clears the error |
| `DmiPipeline.HeaderPerformsNothing` | src/libedr/driver/riscv/RVJtagDTM.cpp:179-195 | however much of an attempt's header completes, no access is performed |
| `DmiPipeline.AnswersJustified` | src/libedr/driver/riscv/RVJtagDTM.cpp:294-329 | from the answer to access i on, for every behaviour of the target and every point at which JTAG breaks off, the outcome of the result pass agrees with what the target performed |
| `DmiPipeline.NextJustified` | src/libedr/driver/riscv/RVJtagDTM.cpp:304-314 | the scan of access i + 1 answers access i and, only if that answer is ok, starts access i + 1 |
| `DmiPipeline.PassJustified` | src/libedr/driver/riscv/RVJtagDTM.cpp:277-292 | the same from any action of an attempt, skips leading |
| `DmiPipeline.FirstJustified` | src/libedr/driver/riscv/RVJtagDTM.cpp:287-292 | the same for the first access of a fresh attempt, whose own scan comes before its answer |
| `DmiPipeline.AttemptJustified` | src/libedr/driver/riscv/RVJtagDTM.cpp:179-329 | the outcome of a whole attempt: performed are the accesses below the first incomplete one, and at most that one besides; reads below it hold their own results; a busy answer leaves that access under way |
| `DmiPipeline.AttemptProceeds` | src/libedr/driver/riscv/RVJtagDTM.cpp:179-329 | over a target without faults and a chain that does not break off, an attempt succeeds if every access completes within the latency and one under way by the time it is asked for again; otherwise it may be answered busy |
| `DmiPipeline.AttemptSticks` | src/libedr/driver/riscv/RVJtagDTM.cpp:209-212 | once the last access has been answered busy for lack of cycles in Run-Test/Idle, every further attempt is, whatever its latency; the first attempt is, if its latency is too short |
| `DmiPipeline.SlowLastExists` | src/libedr/driver/riscv/RVJtagDTM.cpp:209-212 | for any number of cycles there is a target that completes every access within them and its last one no earlier |
| `DmiPipeline.AttemptRests` | src/libedr/driver/riscv/RVJtagDTM.cpp:197-240 | a whole fresh attempt spends in Run-Test/Idle exactly the cycles of its skips and the latency after each access |
| `DmiPipeline.ResultsSpend` | src/libedr/driver/riscv/RVJtagDTM.cpp:277-285 | however far an attempt gets, the cycles of every skip it reports done have been spent |
| `DmiPipeline.CrashesIffSkipFollows` | src/libedr/driver/riscv/RVJtagDTM.cpp:277-302 | on a prompt target, the result pass dereferences a missing output if and only if a skip follows an access |
| `DmiPipeline.DiscoveryEffect` | src/libedr/driver/riscv/RVJtagDTM.cpp:116-127 | discovery performs no access; complete, it leaves nothing under way and no error sticky |
| `DmiPipeline.RaiseOnce` | src/libedr/driver/riscv/RVJtagDTM.cpp:99-107 | each busy answer below the maximum doubles the bound on current + 1, so that at most 32 are possible |
| `RvJtagDtm.RVJtagDTM.IssuePass` | src/libedr/driver/riscv/RVJtagDTM.cpp:197-243 | the chain actions issued are the specified pipeline, the access under way left out; it stops exactly at an address that does not fit |
| `RvJtagDtm.RVJtagDTM.CheckFailInc` | src/libedr/driver/riscv/RVJtagDTM.cpp:256-265 | the iterator moves, or at the end the driver becomes Invalid and the transaction has an error |
| `RvJtagDtm.RVJtagDTM.ResultHeader` | src/libedr/driver/riscv/RVJtagDTM.cpp:267-273 | how far the iterator gets and when the driver becomes Invalid, for every number of completed actions |
| `RvJtagDtm.RVJtagDTM.ResultAnswer` | src/libedr/driver/riscv/RVJtagDTM.cpp:300-326 | one answer: done with its value, or classified as busy or failed, as the specified result pass prescribes |
| `RvJtagDtm.RVJtagDTM.ResultStep` | src/libedr/driver/riscv/RVJtagDTM.cpp:277-327 | one action of the result pass |
| `RvJtagDtm.RVJtagDTM.ResultPass` | src/libedr/driver/riscv/RVJtagDTM.cpp:267-329 | the loop computes the specified verdict; an incomplete transaction that is neither busy nor crashed has an error |
| `RvJtagDtm.RVJtagDTM.Attempt` | src/libedr/driver/riscv/RVJtagDTM.cpp:176-330 | an attempt's outcome is justified by the target it leaves; an address that does not fit changes nothing |
| `RvJtagDtm.RVJtagDTM.Discover` | src/libedr/driver/riscv/RVJtagDTM.cpp:116-174 | discovery performs nothing; success means the size of dmi is known, the target is ready and the minimum latency is at least what the target asks for, less one |
| `RvJtagDtm.RVJtagDTM.Try` | src/libedr/driver/riscv/RVJtagDTM.cpp:87-108 | one turn of the retry loop keeps the invariant and lowers the room below the maximum latency |
| `RvJtagDtm.RVJtagDTM.Adjust` | src/libedr/driver/riscv/RVJtagDTM.cpp:91-107 | a success lowers the latency, a busy answer raises it or, at the maximum, ends the transaction with an error and the driver Invalid |
| `RvJtagDtm.RVJtagDTM.Execute` | src/libedr/driver/riscv/RVJtagDTM.cpp:58-114 | the target has performed the transaction's accesses in order, each once, up to the first incomplete action and at most that one besides; complete, exactly all of them; every completed read holds its own result; every skip done has spent its cycles; the calibrator is told that its latency is too low at most 32 times; the driver's invariant is kept; incomplete means an error. Where nothing but delay stands in the way: if every access completes within the latency started with, all is done in one attempt that waits exactly that latency; if every access completes within the greatest latency and busy ones by the time they are asked for again, all is done; a last access that needs more cycles than the latency started with fails, whatever the greatest latency |
| `Tap.TableIsStandard` | src/libedr/driver/jtag/JtagChain.cpp:27-62 | every entry of the step table is the standard's transition |
| `Tap.MeaningInjective` | src/libedr/driver/jtag/JtagChainAction.hpp:15-37 | the sixteen numbers name sixteen different states |
| `Tap.FiveOnesReset` | src/libedr/driver/jtag/JtagChain.cpp:549-553 | five ones lead from every state to Test-Logic-Reset |
| `TapPaths.Explore` | src/libedr/driver/jtag/JtagChain.cpp:107-122 | for any two-input step table the pruned search ends, keeps the entries on its stack, and leaves every other filled entry propagated to its successors |
| `TapPaths.ComputeTransitions` | src/libedr/driver/jtag/JtagChain.cpp:124-132 | every entry drives its origin to its target with the minimum number of bits |
| `TapPaths.ComputeTapTransitions` | src/libedr/driver/jtag/JtagChain.cpp:134-134 | the driver's own table is such a table of shortest paths |
| `TapPaths.FilledIffReachable` | src/libedr/driver/jtag/JtagChain.cpp:107-132 | an entry is filled in if and only if its target can be reached |
| `TapPaths.TapPath` | src/libedr/driver/jtag/JtagChain.cpp:134-134 | for the driver's table every pair of states has an entry of at most 12 bits that clocks a TAP from the one to the other |
| `ChainBits.EmittedAreTargets` | src/libedr/driver/jtag/JtagChain.cpp:386-430 | the bits of a batch are, from the top TAP down to the last one written, each TAP's written value or its filler |
| `ScanPath.Shifted` | src/libedr/driver/jtag/JtagChain.cpp:386-430 | what a shift register holds and puts out after any number of clocks |
| `ScanPath.LoadsIffNothingBelow` | src/libedr/driver/jtag/JtagChain.cpp:432-443 | the scan leaves every register holding its target, whatever it held before, if and only if no register bit lies below the last TAP written |
| `ScanPath.EachHoldsItsOwn` | src/libedr/driver/jtag/JtagChain.cpp:386-411 | at each TAP's place in the chain stands that TAP's own value; for a TAP nobody writes to, ones over the whole length of its instruction register, or one zero as data |
| `ScanPath.OwnCycles` | src/libedr/driver/jtag/JtagChain.cpp:456-484 | the cycles that send a shift's bits are those in which its own TAP's register comes out at TDO, past what earlier shifts took |
| `ScanPath.CyclesApart` | src/libedr/driver/jtag/JtagChain.cpp:471-484 | the cycles of two writes of a batch lie apart, in the order of the writes |
| `ChainVisit.SameRunExactly` | src/libedr/driver/jtag/JtagChain.cpp:558-601 | with nothing written before the last structure change, the completer, which sees only the final chain, calls for exactly the raw actions the translator emitted and ends in the same state if and only if every selection names a TAP of the final chain; otherwise it refuses one |
| `ChainVisit.ForgottenSelectionRefused` | src/libedr/driver/jtag/JtagChain.cpp:243-247 | a TAP selected and then forgotten is accepted by the translator and refused by the completer |
| `ChainVisit.SendsFirst` | src/libedr/driver/jtag/JtagChain.cpp:202-205 | an action that sends the batch under way sends it before anything of its own |
| `ChainVisit.FinalLengths` | src/libedr/driver/jtag/JtagChain.cpp:154-200 | which TAPs the chain has after any actions and how long the instruction register of each is, read backwards from the last action that decides it |
| `ChainCount.CountIsEmitted` | src/libedr/driver/jtag/JtagChain.cpp:283-320 | what a write adds to the count is what it adds to the bits |
| `ChainCount.VisitCounted` | src/libedr/driver/jtag/JtagChain.cpp:258-322 | every visit keeps the count equal to the number of bits the emit pass will write |
| `ChainCount.ElidedExactly` | src/libedr/driver/jtag/JtagChain.cpp:349-359 | when an instruction scan is left out, in terms of what is remembered |
| `ChainCount.SeveralDropped` | src/libedr/driver/jtag/JtagChain.cpp:349-359 | with no single instruction remembered, a batch of several is never sent, however long and whatever it writes, and none is remembered after it |
| `ChainCount.DataScansForget` | src/libedr/driver/jtag/JtagChain.cpp:487-494 | after a transaction that writes no instruction none is remembered if and only if it scanned, or none was before |
| `ChainCount.TwoInstructionsDropped` | src/libedr/driver/jtag/JtagChain.cpp:349-359 | two instructions written with none remembered are never sent, whatever they are |
| `ChainScan.EmitScan` | src/libedr/driver/jtag/JtagChain.cpp:365-443 | the emit loop fills the action with exactly the specified bits; what it tries to write beyond them is cut off |
| `ChainScan.ReadScan` | src/libedr/driver/jtag/JtagChain.cpp:456-484 | the completer's loop hands each shift the TDO bits of its own cycles and marks the whole batch done |
| `ChainTap.GoToStateAgrees` | src/libedr/driver/jtag/JtagChain.cpp:501-514 | going to a state keeps the recorded state equal to the one reached by all TMS bits sent and buffered |
| `ChainTap.PathsAreShort` | src/libedr/driver/jtag/JtagChain.cpp:505-510 | every path fits an empty 64-bit TMS buffer |
| `ChainTap.WaitAgrees` | src/libedr/driver/jtag/JtagChain.cpp:217-235 | so does waiting, for any number of cycles |
| `ChainTap.GoToSpends` | src/libedr/driver/jtag/JtagChain.cpp:202-241 | going to a state and waiting there sends, past at most 12 bits of the way, exactly as many TMS bits as cycles were asked for, with the TAP in that state before, during and after them |
| `ChainTap.ScanAgrees` | src/libedr/driver/jtag/JtagChain.cpp:487-488 | a scan keeps it if and only if it has a bit |
| `ChainTap.FlushTdiAgrees` | src/libedr/driver/jtag/JtagChain.cpp:345-494 | sending a batch keeps it if and only if the batch sends a bit or is left out |
| `ChainTap.VisitAgrees` | src/libedr/driver/jtag/JtagChain.cpp:154-322 | so does every visit |
| `ChainTap.TranslateAgrees` | src/libedr/driver/jtag/JtagChain.cpp:555-568 | over a whole transaction with non-empty shifts the recorded state is the physical one |
| `ChainAnswers.FlushSettles` | src/libedr/driver/jtag/JtagChain.cpp:444-484 | once a batch is completed, every shift up to it holds the TDO bits at its own place: in the raw action that sent its own batch, from the cycle at which its own bits begin |
| `ChainAnswers.FollowsNext` | src/libedr/driver/jtag/JtagChain.cpp:345-494 | which raw action carries the batch of each shift stays what it is from one visit to the next |
| `ChainWrites.TranslateCarries` | src/libedr/driver/jtag/JtagChain.cpp:365-430 | every write of an accepted transaction belongs to a batch that one raw action of the plan sends, or is an instruction left out |
| `ChainWrites.CarriedOnWire` | src/libedr/driver/jtag/JtagChain.cpp:386-430 | at the place of its TAP's register in that raw action, the bits of an instruction denote its value, cut to the register's length, and the bits of data are the data |
| `ChainWrites.TranslateShifts` | src/libedr/driver/jtag/JtagChain.cpp:361-363 | when that raw action begins, the TAPs are in Shift-IR for instructions and in Shift-DR for data |
| `ChainReport.ReportsAllExactly` | src/libedr/driver/jtag/JtagChain.cpp:591-603 | a transaction reports every action done if and only if the port completed all but, perhaps, the last TMS bits, or the transaction ends in a selection inside a batch that stopped on its way to the Shift state |
| `ChainReport.CompleteReportsAll` | src/libedr/driver/jtag/JtagChain.cpp:591-603 | a port that completed the plan makes every action reported done |
| `ChainReport.NothingDoneReported` | src/libedr/driver/jtag/JtagChain.cpp:237-240 | so does a port that completed nothing of a transaction that only goes to a state |
| `ChainVisitor.Visitor.FlushTMS` | src/libedr/driver/jtag/JtagChain.cpp:324-343 | the buffered bits are emitted, or their result is passed; it fails exactly when there is none |
| `ChainVisitor.Visitor.GoTo` | src/libedr/driver/jtag/JtagChain.cpp:501-514 | follows the specification; the buffer assertion holds |
| `ChainVisitor.Visitor.WaitThere` | src/libedr/driver/jtag/JtagChain.cpp:225-235 | follows the specification for any number of cycles |
| `ChainVisitor.Visitor.FlushTDI` | src/libedr/driver/jtag/JtagChain.cpp:345-494 | translator and completer call for the same actions; it fails exactly when too few were completed; exactly which actions are marked done either way |
| `ChainVisitor.Visitor.VisitForget` | src/libedr/driver/jtag/JtagChain.cpp:154-171 | the new state, the chain and what is marked done |
| `ChainVisitor.Visitor.VisitSetIRLength` | src/libedr/driver/jtag/JtagChain.cpp:173-200 | the same, with both limits and their causes |
| `ChainVisitor.Visitor.VisitGoToState` | src/libedr/driver/jtag/JtagChain.cpp:202-241 | the same, with the invalid and the unstable state refused |
| `ChainVisitor.Visitor.VisitSelect` | src/libedr/driver/jtag/JtagChain.cpp:243-256 | the same, with the TAP that does not exist refused |
| `ChainVisitor.Visitor.VisitWriteAct` | src/libedr/driver/jtag/JtagChain.cpp:258-322 | a write joins the batch or makes it be sent; the assertion that the TAP exists fails exactly where the specification says |
| `ChainVisitor.Visitor.FinishUp` | src/libedr/driver/jtag/JtagChain.cpp:565-566 | the batch and the bits left at the end |
| `JtagChain.TranslateAll` | src/libedr/driver/jtag/JtagChain.cpp:555-566 | the translator builds the specified plan, or refuses with the specified cause; what it leaves of the chain's structure and selection either way |
| `JtagChain.CompleteAll` | src/libedr/driver/jtag/JtagChain.cpp:591-603 | the completer goes through if and only if the whole plan was completed and every selection names a TAP of the final chain; then it ends in the translator's state with everything done and every shift holding the TDO bits of its own place; what it reports done either way |
| `ChainSession.DoneExactly` | src/libedr/driver/jtag/JtagChain.cpp:575-603 | a whole transaction, its reset included, whose selections fit the final chain reports every action done if and only if the port completed the reset and as much behind it as `ChainReport.ReportsAllExactly` says |
| `ChainSession.PlanOnWire` | src/libedr/driver/jtag/JtagChain.cpp:555-568 | so the plan of every accepted transaction holds each write's own value at its own TAP's place, but for instructions left out |
| `ChainSession.SentInShift` | src/libedr/driver/jtag/JtagChain.cpp:555-568 | and, with no empty shifts, sends each of them in the Shift state of its kind |
| `ChainSession.PlanInStep` | src/libedr/driver/jtag/JtagChain.cpp:549-568 | after a whole plan, the reset included, the recorded state is the one the TAP is in |
| `ChainSession.TxKeeps` | src/libedr/driver/jtag/JtagChain.cpp:540-604 | a transaction with non-empty shifts keeps the recorded state Unknown or the physical one, whatever the port completes; one that goes through makes it known |
| `ChainSession.EverySession` | src/libedr/driver/jtag/JtagChain.cpp:540-604 | so does every session of them, with any failures, from any TAP state |
| `JtagChain.Execute` | src/libedr/driver/jtag/JtagChain.cpp:540-604 | for every port: what is handed over holds each write's own value at its own TAP's place; the transaction goes through if and only if the port completed the whole plan and every selection names a TAP of the final chain; then all is done and each shift holds the TDO bits of its own place; the driver's lasting state and what is reported done, also where it is refused or the port stops early |
| `JtagChain.Session` | src/libedr/driver/jtag/JtagChain.cpp:540-604 | over any run of transactions with non-empty shifts the lasting state and the reports are those of the specified session, and the recorded state is Unknown or that of the TAP clocked by everything sent, or left anywhere by a port that stopped early |
| `TaskProtocol.StepKeeps` | src/libedr/util/asynchronicity/Asynchronicity.hpp:255-268 | every step of either side keeps the invariant of the protocol |
| `TaskProtocol.EverySchedule` | src/libedr/util/asynchronicity/Asynchronicity.hpp:340-370 | in every interleaving: no access to a freed frame, no result read before it is set, no failed assertion; as many resumptions as suspensions, but for an owner still waiting; finished means freed once; at most nine steps |
| `TaskProtocol.EveryRunEnds` | src/libedr/util/asynchronicity/Asynchronicity.hpp:340-370 | every run that cannot go on has both sides done and the frame freed exactly once |
| `TaskProtocol.NeverStuck` | src/libedr/util/asynchronicity/Asynchronicity.hpp:72-81 | until both sides are done one of them can move, so no wake-up is lost |
| `TaskProtocol.ResumedOnceEach` | src/libedr/util/asynchronicity/Asynchronicity.hpp:63-81 | a continuation that suspended is resumed once, one whose exchange failed never |
| `TaskProtocol.KeptTooLong` | src/libedr/util/asynchronicity/Asynchronicity.hpp:353-355 | a run in which a resumed owner reads its result, keeps its handle and drops it once the frame is freed |
| `TaskProtocol.LeavesSafelyExactly` | src/libedr/util/asynchronicity/Asynchronicity.hpp:353-355 | the finisher may leave the owner it resumed, with every continuation safe, if and only if the owner has dropped its handle |
| `TaskProtocol.SafeExactly` | src/libedr/util/asynchronicity/Asynchronicity.hpp:340-370 | an interleaving with any owner is safe if and only if no owner that was left with its handle drops it later |
| `ResolverProtocol.EverySchedule` | src/libedr/util/asynchronicity/Asynchronicity.hpp:126-138 | in every interleaving with an owner that awaits before it drops: the assertion does not fire, the item is not touched once gone, the owner is resumed at most once; at most eight steps |
| `ResolverProtocol.EveryRunEnds` | src/libedr/util/asynchronicity/Asynchronicity.hpp:126-138 | a run cannot go on if and only if the awaitable is destroyed and the resolver is done, and then the result was set |
| `ResolverProtocol.NeverStuck` | src/libedr/util/asynchronicity/Asynchronicity.hpp:72-81 | until then one of the two sides can move |
| `ResolverProtocol.RunKeeps` | src/libedr/util/asynchronicity/Asynchronicity.hpp:126-138 | every run keeps the invariant of the protocol, with as many resumptions as suspensions, but for an owner still waiting |
| `ResolverProtocol.NoLostWakeUp` | src/libedr/util/asynchronicity/Asynchronicity.hpp:126-138 | a waiting owner has its continuation in the word and the resolver still before its exchange, which will resume it |
| `ResolverProtocol.AssertsExactly` | src/libedr/util/asynchronicity/ResolutionQueue.hpp:45-53 | dropping without awaiting trips the assertion if and only if the word is not yet Ready |
| `QueueSpec.FirstInFirstOut` | src/libedr/util/asynchronicity/ResolutionQueue.hpp:102-153 | every run in which no more items are resolved than started hands them out in enqueue order, each once |
| `QueueSpec.NothingInProgress` | src/libedr/util/asynchronicity/ResolutionQueue.hpp:116-116 | NoInProgress() being true means that nothing started is unresolved |
| `QueueSpec.BusyWithNothingStarted` | src/libedr/util/asynchronicity/ResolutionQueue.hpp:147-153 | a run after which it is false although nothing started is unresolved |
| `QueueSpec.LinkStays` | src/libedr/util/asynchronicity/ResolutionQueue.hpp:102-153 | between two starts no call touches the link of the item started last; resolving that item sets the in-progress cursor to that link |
| `QueueSpec.WritesResolvedExactly` | src/libedr/util/asynchronicity/ResolutionQueue.hpp:118-153 | for every run between two starts that resolves everything started: the next StartNextScheduled writes into a resolved item if and only if NoScheduled() was false right after the first start |
| `ResolutionQueue.ResolutionQueue.Enqueue` | src/libedr/util/asynchronicity/ResolutionQueue.hpp:102-112 | the references and links follow the specification |
| `ResolutionQueue.ResolutionQueue.StartNextScheduled` | src/libedr/util/asynchronicity/ResolutionQueue.hpp:118-133 | so do they here; it returns the next item in order and writes to no item but the one started before |
| `ResolutionQueue.ResolutionQueue.PrepareToResolve` | src/libedr/util/asynchronicity/ResolutionQueue.hpp:147-153 | so do they here; it returns the next item in order |
| `ResolutionQueue.ResolutionQueue.NoScheduled` | src/libedr/util/asynchronicity/ResolutionQueue.hpp:114-114 | true exactly when every item has been started |
| `ResolutionQueue.ResolutionQueue.NoInProgress` | src/libedr/util/asynchronicity/ResolutionQueue.hpp:116-116 | true exactly when the in-progress cursor is unset |
| `PullSpec.SegmentsMean` | src/libedr/driver/jtag/PullJtag.cpp:118-153 | the stretches in which an action is sent are its TMS and TDI: zeros beside TMS, zeros and a final last_tms beside TDI |
| `PullSpec.CyclesCarry` | src/libedr/driver/jtag/PullJtag.cpp:113-154 | each action's own cycles carry its own bits on both pins |
| `PullJtag.TryWrite` | src/libedr/driver/jtag/PullJtag.cpp:70-91 | as many bits as both buffers and the source have, the same number on both pins |
| `PullJtag.PullJtag.Advance` | src/libedr/driver/jtag/PullJtag.cpp:99-111 | the next action or transaction; a start never writes into a resolved item |
| `PullJtag.PullJtag.Pull` | src/libedr/driver/jtag/PullJtag.cpp:59-156 | for buffers of any sizes the next bits of both streams, as many as the smaller buffer holds and transactions have, whatever earlier pulls left |
| `PullJtag.PullJtag.Push` | src/libedr/driver/jtag/PullJtag.cpp:158-253 | for any split of TDO that does not run ahead: all of it is consumed, and resolved are exactly the started transactions all of whose cycles are over, whatever their owners execute when resumed |
| `PullState.PulledBits` | src/libedr/driver/jtag/PullJtag.cpp:59-156 | all bits pulled so far are the beginning of the two streams, equally long |
| `PullState.OwnTdo` | src/libedr/driver/jtag/PullJtag.cpp:183-241 | every reported action that reads holds the TDO bits of exactly its own cycles, every other one the number of its bits; in those cycles its own bits were pulled on its own pin, zeros on the other, and the last TMS as asked for |
| `PullState.KeptStart` | src/libedr/util/asynchronicity/ResolutionQueue.hpp:118-133 | the port's invariant rules out the write into a resolved item |
| `PullState.KeptResolve` | src/libedr/driver/jtag/PullJtag.cpp:246-249 | resolving keeps the invariant: the cursor never comes to stand at a transaction not yet started |
| `Words.MaskedWrite` | src/libedr/util/adt/BitStream.hpp:160-167 | masks and shifts replace exactly the bits meant |
| `Words.MaskedRead` | src/libedr/util/adt/BitStream.hpp:69-78 | shifts and masks pick exactly the bits meant |
| `Words.SpliceReads` | src/libedr/util/adt/BitStream.hpp:152-178 | written bits read back, and all others are untouched |
| `BitStream.BitStream.WriteUnsafe` | src/libedr/util/adt/BitStream.hpp:152-178 | for any word width and offset exactly bits [position, position + n) change, to the value's |
| `BitStream.BitStream.ReadUnsafe` | src/libedr/util/adt/BitStream.hpp:60-91 | the next n bits, zero-extended, for any two widths |
| `BitStream.BitStream.WriteValue` | src/libedr/util/adt/BitStream.hpp:125-132 | the same, cut at what remains |
| `BitStream.BitStream.Read` | src/libedr/util/adt/BitStream.hpp:24-30 | the same, cut at what remains |
| `BitStream.BitStream.CopyFrom` | src/libedr/util/adt/BitStream.hpp:134-149 | a copy between any two widths moves exactly the bits meant and no others; within one memory, vessel by vessel |
| `BitStream.CopyWithinExactly` | src/libedr/util/adt/BitStream.hpp:140-146 | such a copy copies the bits that were there, whatever they are, if and only if it goes backwards, does not overlap or fits one vessel |
| `BitStream.BitStream.Skip` | src/libedr/util/adt/BitStream.hpp:32-43 | the position moves by what is asked for and remains |
| `BitStream.BitStream.Crop` | src/libedr/util/adt/BitStream.hpp:45-45 | the bits that remain are cut |
| `BitStream.SplitExactly` | src/libedr/util/adt/BitStream.hpp:47-55 | the two parts are the ones meant, for every length, if and only if the offset is 0; the same for a stream made from another |
| `Tunnel.AllocatedIsNew` | src/libedr/tunnel/ByteStreamTunnel.h:196-199 | a key handed out was neither pending nor free, while fewer than 2^32 are pending |
| `Tunnel.AllPendingCollides` | src/libedr/tunnel/ByteStreamTunnel.h:196-199 | with all 2^32 pending, the next key is one of them |
| `Tunnel.StepSound` | src/libedr/tunnel/ByteStreamTunnel.cpp:39-79 | every event keeps the keys free and pending apart and each request with its own |
| `Tunnel.RespondSound` | src/libedr/tunnel/ByteStreamTunnel.cpp:418-431 | so does a response, whatever is sent while it resolves and before its key is freed |
| `Tunnel.EveryRun` | src/libedr/tunnel/ByteStreamTunnel.cpp:356-431 | in every run of sends, write failures, responses, re-entrant sends and aborts, each response resolves exactly the transaction that sent its request, once and in order, and no key stays pending but for a request on its way |
| `Tunnel.ByteStreamTunnel.ScheduleRemoteTransaction` | src/libedr/tunnel/ByteStreamTunnel.h:191-206 | a new key, pending for the transaction |
| `Tunnel.ByteStreamTunnel.RequestFailed` | src/libedr/tunnel/ByteStreamTunnel.cpp:63-73 | the key is free again and nothing else changes |
| `Tunnel.ByteStreamTunnel.HandleResponse` | src/libedr/tunnel/ByteStreamTunnel.cpp:356-431 | the sender is resolved, then its key freed; a response to nothing changes nothing |
| `WriteMany.Acknowledge` | src/libedr/driver/bytestream/ByteStream.hpp:183-213 | one call's bytes are credited to the writes in order; at which write this ends; exactly which leading writes are marked done; an error is reported exactly if the stream did |
| `WriteMany.StopsOnce` | src/libedr/driver/bytestream/ByteStream.hpp:196-211 | that write is determined by the bytes taken before and now and by what is marked |
| `WriteMany.Combine` | src/libedr/driver/bytestream/ByteStream.hpp:166-178 | the block handed to the stream holds the payloads of all writes, and no write is credited yet |
| `WriteMany.PayloadAt` | src/libedr/driver/bytestream/ByteStream.hpp:170-178 | each write's own bytes stand in it at the sum of the sizes before it |
| `WriteMany.WriteMany` | src/libedr/driver/bytestream/ByteStream.hpp:152-217 | for every schedule of short writes and errors the stream takes exactly what the schedule accepts, a prefix of the payloads, and what each write is credited with are its own first bytes, taken at its own offset; an error is reported exactly if the schedule errs before everything is taken; each write is credited its share; where an error is reported and what is marked done are the specified ones |
| `WriteMany.ServeMeans` | src/libedr/driver/bytestream/ByteStream.hpp:180-214 | over every schedule the bytes taken are the sum of what each call accepts, up to an error or the end, and the marking invariant is kept |
| `WriteMany.FullIsMarked` | src/libedr/driver/bytestream/ByteStream.hpp:208-209 | without an error, a leading write that is not empty is marked done if and only if it is full |
| `WriteMany.FilledAddUp` | src/libedr/driver/bytestream/ByteStream.hpp:196-199 | the counts add up to the bytes taken |
| `WriteMany.BlamedLacksExactly` | src/libedr/driver/bytestream/ByteStream.hpp:201-206 | the write an error is reported at lacks bytes if and only if: the failing call took bytes that end inside a write; or it took none and the first action not marked done is a write that is not empty; or, that being a read, the bytes taken do not reach the end of the first write behind it |
| `WriteMany.FullWritesBlamed` | src/libedr/driver/bytestream/ByteStream.hpp:201-206 | three schedules after which the error is reported at a write that is full |
| `TransactionBuffer.TransactionBuffer.GoToNextChunk` | src/libedr/driver/TransactionBuffer.hpp:187-251 | the chunk behind the tail if it is large enough, else a new one in its place; the chunks in use stay |
| `TransactionBuffer.TransactionBuffer.Allocate` | src/libedr/driver/TransactionBuffer.hpp:112-129 | the invariant that ties every block since the last Clear to the chunks |
| `TransactionBuffer.VisitsBlocks` | src/libedr/driver/TransactionBuffer.hpp:82-88 | stepping from the beginning visits exactly the positions handed out, in order |
| `TransactionBuffer.StopsAtEnd` | src/libedr/driver/TransactionBuffer.hpp:82-88 | after the last it stands at End() if and only if no chunk waits behind the tail |
| `TransactionBuffer.TransactionBuffer.Distance` | src/libedr/driver/TransactionBuffer.hpp:139-148 | the loop computes the payload before the position |
| `TransactionBuffer.DistanceIsSizes` | src/libedr/driver/TransactionBuffer.hpp:139-148 | a block's distance is the size of all blocks before it |
| `TransactionBuffer.ByteAtDistance` | src/libedr/driver/TransactionBuffer.hpp:168-184 | each byte stands at its distance in the concatenation of the chunks |
| `TransactionBuffer.TransactionBuffer.ForEachChunk` | src/libedr/driver/TransactionBuffer.hpp:168-184 | the loop yields that concatenation |
| `TransactionBuffer.TransactionBuffer.FromDistance` | src/libedr/driver/TransactionBuffer.hpp:150-162 | the loop, in 64-bit arithmetic |
| `TransactionBuffer.FromDistanceExactly` | src/libedr/driver/TransactionBuffer.hpp:150-162 | it finds a block again if and only if the block is in the first chunk |
| `Vss.CountIsLength` | src/libedr/util/vss/VSS.hpp:475-506 | the counting pass counts exactly the bytes the writing pass lays out |
| `Vss.SizeOf` | src/libedr/util/vss/VSS.hpp:299-334 | on arbitrary bytes, an accepted object lies wholly inside the bytes that may be looked at |
| `Vss.SizeOfParts` | src/libedr/util/vss/VSS.hpp:369-431 | the same for the parts of a record |
| `Vss.TrailingPadding` | src/libedr/util/vss/VSS.hpp:259-284 | only trailing padding depends on what follows an object |
| `Vss.Recovered` | src/libedr/util/vss/VSS.hpp:299-334 | for every well-formed layout, the size recovered from the bytes is the size laid out, whatever lies behind |
| `Vss.RecoveredOption` | src/libedr/util/vss/VSSPayloads.hpp:308-335 | the same for a variant |
| `Vss.ExtractSteps` | src/libedr/util/vss/VSS.hpp:510-526 | Extract steps over exactly what Emplace counted |
| `Vss.PartFound` | src/libedr/util/vss/VSS.hpp:529-586 | Get finds each part of a record where it was laid out, by the sizes recovered of the parts before it |
| `Vss.ReadBack` | src/libedr/util/vss/VSSPayloads.hpp:34-42 | for every well-formed layout, reading by the types alone gives back every head, array, leaf and chosen option as it was emplaced |
| `Vss.RoundTrip` | src/libedr/util/vss/VSS.hpp:475-526 | the same of a whole stream: what Emplace wrote is what a reader of the extracted object finds |
| `Vss.UnalignedPartsDiffer` | src/libedr/util/vss/VSS.hpp:319-330 | without aligned parts the two sizes differ |

## Left out

- JtagChain.Execute: nothing is written before the last structure change of a transaction (`ChainVisit.WritesLast`), because the completer would reread such a write with the final chain; moves, waits and selections may come before it. One transaction runs at a time.
- JtagChain.Session: shifts are not empty and no instruction register is, because a scan of no bits breaks the agreement (`ChainTap.FlushTdiAgrees` states exactly when).
- RvJtagDtm.RVJtagDTM.Execute: a target is ready by the cycles spent in Run-Test/Idle since the access started and by how often it was asked; a scan of another length or for another TAP is taken not to reach it. One client, so the outcomes that another client's error causes (PrevBusy, PrevFailure) and the discovery gate do not occur; what is performed is stated for transactions whose skips lead, because other ones crash.
- TapPaths.Explore: bits are unbounded numbers; the shift by the number of bits is defined in the source for tables of at most 32 states, which the driver's table is.
- ChainCount.VisitCounted: the number of bits of a scan is not cut at 31 bits.
- BitStream.BitStream.CopyFrom: source and destination are different streams, though perhaps over one memory.
- BitStream.BitStream.WriteUnsafe: shifting a value by its whole width, undefined in the source, happens only after the last bit, and its result is not used.
- TransactionBuffer.TransactionBuffer.Allocate: blocks of at least one byte, allocation always succeeds, and `Align` is not part of the model.
- Tunnel.EveryRun: the peer answers a request at most once and only once its sender waits; the bytes of a response and the abort of one transaction are not part of the model.
- Vss.Recovered: alignments up to 4 and heads of whole multiples of 4, as the stream's alignment demands; what constructors write into heads is given.
- PullJtag.PullJtag.Push: TDO does not run ahead of the bits pulled; `Terminate` and the execution gate are not part of the model.
- Memory ordering weaker than sequential consistency, and the liveness of condition variables and gates, are not part of the model.
- `AbortAll` holds its lock while it resumes owners; only that it ends the event loop is modelled.
- `WriteOne` is `WriteMany` with one write; `DoReads` and short reads are left out as easy.
- The bus drivers, PullAPB, the execution gate, sockets, pipes, logging, formatting and the language bindings repeat these patterns or only move text and bytes.

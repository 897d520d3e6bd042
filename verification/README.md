# VDevLab in Dafny

VDevLab injects read faults at a character device, runs a client against it and
reports what the client did. This project models the path from the device driver
through the client to the analysis and the report, and proves what holds along it
in every interleaving and for every input.

* `Device.dfy` is `kernel/vdevlab_core.c` as a step machine: any number of read,
  write, poll and ioctl calls in flight, each with a program counter that separates
  lock, fault check, look, copy, unlock, wake-up and sleep. `wait_event_interruptible`
  is one atomic "check or fall asleep"; `wake_up` makes every sleeper check again;
  poll registers first, then looks, and is marked if a wake-up comes in between. A
  user copy may stop after any prefix, and a signal may end any interruptible wait.
  The machine keeps a log of what was done to the shared state, for the theorems.
* `DeviceLocks.dfy`, `DeviceLedger.dfy`, `Disconnect.dfy` prove lock order, no lost
  wake-ups, byte and EIO conservation, and what a disconnect still lets through;
  `CallResults.dfy` which result a call can return, and why.
* `SoloCalls.dfy` has the driver as sequential code (class `Core`) and shows that a
  call running alone in the step machine does exactly that. `StaleLimit.dfy` says
  exactly which reads can be bound by a partial-read limit that is no longer there.
* `LineBuffer.dfy`, `Monitor.dfy`, `MonitorLog.dfy` are `examples/vtemp_monitor.c`
  and its log; `strtod` is a parameter.
* `EndToEnd.dfy` puts device, monitor, the runner's write loop and any number of
  fault injectors together, step by step. On top of it, `CountedFaults.dfy` follows an
  EIO count into the monitor's log, `Delivery.dfy` reaches the drained state, and
  `WholePath.dfy` connects what was injected to what the analysis counts.
* `Drain.dfy` and `Backend.dfy` have the monitor and the writer each alone with the
  device.
* `Scenario.dfy`, `Dispatching.dfy`, `Scheduler.dfy`, `KernelLog.dfy`, `Cleanup.dfy`
  are the validator and the runner; `Analysis.dfy` and `Report.dfy` the rest.

`dafny verify dfyconfig.toml` checks the project.

## Where code and documentation disagree

* `docs/sample-monitor.md:20` says an oversized line is reported and skipped. In the
  code each 4096 bytes give one INPUT_TOO_LONG and what is left of the line is parsed
  like a line of its own (`LineBuffer.CompletedLine`).
* `docs/fault-model.md` says a partial-read fault is active until it is cleared. A
  read call that met the limit and then slept keeps it after the clear, even for data
  that was written later (`StaleLimit.ClearedLimitStillBinds`). The limit is the one of
  the fault the call saw last, in every run, exactly if the call does not block
  (`StaleLimit.StaleExactlyIfBlocking`); for all calls the bound is the last limit they
  observed (`DeviceLedger.ReadResult`, `DeviceLedger.CopyQuota`).
* `docs/architecture.md` says every exit path resets the device. One does not: if
  terminating the application raises inside the exception handler, nothing is reset
  or closed (`Cleanup.Run` says exactly when, `Cleanup.CleanupCanBeSkipped` does it).
* The validator accepts delays from 0 to 24 h, the device 1 to 10000 ms
  (`Dispatching.FaultSurvivesTheTrip`, `Dispatching.DelayOutsideDeviceRange`).
* The kernel-log diff misses new lines when lines repeat and the log rotates
  (`KernelLog.Rotation` says exactly when, `KernelLog.RepeatedLineMissed` shows it).

## Model

| member | source | states |
|---|---|---|
| `DeviceLocks.LocksStep` | kernel/vdevlab_core.c:83-335 | every step of any call keeps each mutex with exactly the call whose program counter is inside its critical section |
| `DeviceLocks.WakeStep` | kernel/vdevlab_core.c:134-339 | every step keeps: FIFO within 4096, and no reader, writer or poller sleeping (or bound to sleep on what it saw) through a change unless the wake-up for it is still pending |
| `DeviceLocks.NoSleeperIsForgotten` | kernel/vdevlab_core.c:134-219 | in every reachable state a sleeping reader, writer or poller whose condition holds implies a pending wake-up on its queue |
| `DeviceLocks.LockDiscipline` | kernel/vdevlab_core.c:83-117 | no mutex is held while delaying or asleep, the fault lock is never wanted under the FIFO lock, and two calls are never in the same critical section |
| `DeviceLocks.HolderCanStep` | kernel/vdevlab_core.c:329-335 | if any mutex is held, one of its holders can move |
| `DeviceLocks.QuiescentOnlyByRight` | kernel/vdevlab_core.c:122-339 | if nothing can move by itself, no mutex is held and every unfinished call sleeps on a condition that is false; never a reader and a writer at once |
| `DeviceLedger.NormaliseCanonical` | kernel/vdevlab_core.c:261-301 | SET_FAULT stores canonical configurations only, keeps the type, is idempotent, and leaves a configuration unchanged exactly if it is canonical |
| `DeviceLedger.SetFaultRange` | kernel/vdevlab_core.c:265-299 | accepted exactly: type 0 or 3, EIO with repeat 1 to 1000000, delay of 1 to 10000 ms, partial read of 1 to 4096 bytes; what is stored keeps the type and that fault's own field and nothing else |
| `DeviceLedger.LedgerStep` | kernel/vdevlab_core.c:77-344 | every step keeps both ledgers and each call's progress or result in agreement with the log |
| `DeviceLedger.FifoLedger` | kernel/vdevlab_core.c:122-225 | in lock order, accepted bytes are the bytes that left followed by the FIFO, which never exceeds 4096 |
| `DeviceLedger.FateIsFinal` | kernel/vdevlab_core.c:329-339 | over any continuation accepted bytes, bytes that left and the owner of each of these only grow at the end: a discarded byte is never delivered, none is delivered twice |
| `DeviceLedger.ResultIsOwnSlice` | kernel/vdevlab_core.c:159-171 | the bytes a finished read returned are one contiguous slice of what left the FIFO, exactly the positions this read owns, and no continuation changes their owner; so no result contains a discarded byte or another read's |
| `DeviceLedger.ReadResult` | kernel/vdevlab_core.c:159-171 | a successful read returns the very bytes taken out for it, at least one, at most the count and at most the last limit this call observed |
| `DeviceLedger.CopyQuota` | kernel/vdevlab_core.c:159-162 | at its copy a read may take n bytes exactly if n is at most the count, the FIFO length and the last limit observed |
| `DeviceLedger.TransferResult` | kernel/vdevlab_core.c:214-224 | a failed call moved nothing; a write's count is the accepted prefix of its buffer |
| `DeviceLedger.EioLedger` | kernel/vdevlab_core.c:87-97 | loaded EIO occurrences are the reads that returned -EIO, those on their way, the remaining count and the overwritten ones; only reads consume, one each |
| `DeviceLedger.FaultAlwaysCanonical` | kernel/vdevlab_core.c:84-113 | the stored fault is always canonical, so the zero-repeat and unknown-type branches are dead |
| `DeviceLedger.DelayedOnce` | kernel/vdevlab_core.c:98-103 | a read sleeps for a delay only at its first meeting with one |
| `Disconnect.ResetStep` | kernel/vdevlab_core.c:329-335 | no disconnect can be stored between a reset's clear and its FIFO reset |
| `Disconnect.DisconnectIsolation` | kernel/vdevlab_core.c:77-225 | after a disconnect, until the next store: only calls past their fault check move bytes, once each; nothing is discarded; every later read or write is on its way to -ENODEV, moves nothing, never sleeps, and can step or waits for a mutex whose holder can |
| `CallResults.TransfersFailForAReason` | kernel/vdevlab_core.c:122-225 | in every interleaving a finished read failed with -EIO or -ENODEV exactly if its last fault check met that fault, a write with -ENODEV only if the device was disconnected, either with -EAGAIN only if non-blocking; a non-blocking call never sleeps |
| `CallResults.PollReportsWhatWas` | kernel/vdevlab_core.c:227-253 | in every interleaving each bit poll reported was asked for or is an error bit, and was true at some moment: hang-up of a disconnect, error alone of EIO, readable and writable of the FIFO |
| `CallResults.ControlsDoWhatTheySay` | kernel/vdevlab_core.c:255-343 | in every interleaving, a bad pointer apart, SET_FAULT returned -EINVAL exactly out of range and then stored nothing, else stored once the fault with its own field; clear and reset stored the empty fault once; GET_FAULT returned a fault that was in force; other commands -ENOTTY |
| `CallResults.OnlySignalsInterrupt` | kernel/vdevlab_core.c:122-344 | in a run without signals, timeouts and bad pointers no call returns -ERESTARTSYS or -EFAULT, and no poll returns with nothing to report |
| `SoloCalls.SoloReadMatches` | kernel/vdevlab_core.c:122-172 | the steps of a read running alone end in the result and state of the sequential read, or asleep with the limit it met |
| `SoloCalls.SoloWriteMatches` | kernel/vdevlab_core.c:174-225 | the same for write |
| `SoloCalls.SoloPollMatches` | kernel/vdevlab_core.c:227-253 | the same for poll |
| `SoloCalls.SoloSetMatches` | kernel/vdevlab_core.c:261-327 | the same for SET_FAULT and CLEAR_FAULT |
| `SoloCalls.SoloGetMatches` | kernel/vdevlab_core.c:311-318 | the same for GET_FAULT |
| `SoloCalls.SoloResetMatches` | kernel/vdevlab_core.c:329-339 | the same for RESET |
| `SoloCalls.SoloRefinement` | kernel/vdevlab_core.c:255-344 | from any reachable state without a held mutex, any call left to run alone is a legal run of the machine with the sequential outcome, and disturbs no other call |
| `SoloCalls.ReadOutcome` | kernel/vdevlab_core.c:83-171 | a read alone, by fault type and lengths: -EIO and one occurrence fewer, -ENODEV, nothing there, or the front of the FIFO, no longer than count, FIFO and limit and as long as one of them |
| `SoloCalls.WriteOutcome` | kernel/vdevlab_core.c:184-224 | a write alone: -ENODEV, full, or the longest prefix that fits in 4096 |
| `SoloCalls.PollOutcome` | kernel/vdevlab_core.c:227-253 | poll bit by bit: error on EIO and disconnect, hang-up on disconnect only, otherwise readable and writable as asked for and as the FIFO is; it waits exactly if no bit is set |
| `SoloCalls.ControlOutcome` | kernel/vdevlab_core.c:255-343 | each control call by the fields of its argument: refused and nothing changed, or stored; only RESET touches the FIFO |
| `SoloCalls.Core.ApplyReadFault` | kernel/vdevlab_core.c:77-120 | uses up one EIO, reports the errno, the limit and the delay the fault stands for |
| `SoloCalls.Core.Read` | kernel/vdevlab_core.c:122-172 | the sequential read computes the outcome that SoloCalls.ReadOutcome describes and SoloReadMatches finds in the step machine |
| `SoloCalls.Core.Write` | kernel/vdevlab_core.c:174-225 | the sequential write computes the outcome of SoloCalls.WriteOutcome |
| `SoloCalls.Core.Poll` | kernel/vdevlab_core.c:227-253 | the sequential poll computes the outcome of SoloCalls.PollOutcome |
| `SoloCalls.Core.Validate` | kernel/vdevlab_core.c:261-301 | the switch over its own copy of the argument computes what DeviceLedger.SetFaultRange describes |
| `SoloCalls.Core.Ioctl` | kernel/vdevlab_core.c:255-344 | the sequential set, get, clear and reset compute the outcomes of SoloCalls.ControlOutcome; set succeeds exactly in range |
| `StaleLimit.ClearedLimitStillBinds` | kernel/vdevlab_core.c:104-161 | for every limit, count and data: a reachable state with no fault, an empty FIFO and a blocking read under way, from which one write of the data and then only steps of that read lead to a result cut to the limit, although the read's last fault check saw no fault |
| `StaleLimit.NonblockingLimitIsCurrent` | kernel/vdevlab_core.c:134-150 | in every run a non-blocking read checks the fault at most once and copies under exactly the limit of that check |
| `StaleLimit.StaleExactlyIfBlocking` | kernel/vdevlab_core.c:149-161 | the limit that binds a call is that of the fault it saw last, in all runs, if and only if the call is non-blocking or asks for no bytes |
| `LineBuffer.ChunkIndependence` | examples/vtemp_monitor.c:177-203 | however a stream is cut into reads, events, buffer, counter and stop point are those of the whole stream |
| `LineBuffer.CompletedLine` | examples/vtemp_monitor.c:183-199 | a line of L bytes gives L div 4096 INPUT_TOO_LONG and one event for its last L mod 4096 bytes: INVALID_INPUT exactly if they are no number, THERMAL_WARNING with it exactly from 80.0, TEMPERATURE exactly below; the counter grows for numbers only |
| `LineBuffer.ShortLine` | examples/vtemp_monitor.c:149-190 | a line below 4096 bytes is exactly that one event |
| `LineBuffer.FoldIsStreamMeaning` | examples/vtemp_monitor.c:177-203 | the byte loop computes the line-by-line meaning of the stream, each line's event the unique one its text stands for, unfinished line included |
| `LineBuffer.MaxEventsStop` | examples/vtemp_monitor.c:188-189 | with a limit the run is the unlimited one up to and including the event that reaches it; the limit is never exceeded |
| `LineBuffer.InputBuffer.ProcessLine` | examples/vtemp_monitor.c:149-175 | appends the one event the buffered text stands for and counts it if it is a number |
| `LineBuffer.InputBuffer.ConsumeInput` | examples/vtemp_monitor.c:177-203 | the in-place loop computes the fold, every array index in bounds, the terminator's too |
| `Monitor.OnReadInv` | examples/vtemp_monitor.c:253-289 | every read result keeps the log in retry discipline: numbered 1 to 3, each recovery reporting exactly the retries since the last one |
| `Monitor.RunTurnsInv` | examples/vtemp_monitor.c:239-290 | the same for the whole program, whatever poll, read and signals do |
| `Monitor.ExitTellsWhy` | examples/vtemp_monitor.c:260-295 | over every run a final event is the last one and fixes the exit code, 1 for READ_FAILED and 0 for disconnect and EOF; 1 has no other cause but a failing poll |
| `Monitor.TurnMeans` | examples/vtemp_monitor.c:239-290 | each turn of any run by what poll and read returned in it: EAGAIN changes nothing; an EIO is retry k + 1 after k in a row, the fourth READ_FAILED and exit 1; ENODEV is DEVICE_DISCONNECTED and exit 0; end of file DEVICE_EOF and exit 0; another errno READ_FAILED and exit 1; data the recovery, if any, then its lines |
| `Monitor.ReadDecidesTheEnd` | examples/vtemp_monitor.c:253-278 | a run ends in DEVICE_DISCONNECTED with 0 if and only if a read it came to returned ENODEV, in DEVICE_EOF with 0 if and only if one returned nothing, in READ_FAILED(e) with 1 if and only if one failed with e for good |
| `Monitor.HandleRead` | examples/vtemp_monitor.c:252-289 | the code from read(2) to the end of the loop body updates retries, buffer, log and exit code as that read result means |
| `Monitor.MonitorMain` | examples/vtemp_monitor.c:205-296 | the loop with its own variables logs and exits as the turns that Monitor.TurnMeans describes, and its log is in retry discipline |
| `MonitorLog.PrintedLogParses` | examples/vtemp_monitor.c:46-85 | what the monitor prints under a clock that does not run backwards is accepted line for line |
| `MonitorLog.LogReadsBack` | examples/vtemp_monitor.c:46-85 | the parsed log read back by the documented names and fields is the monitor's log, event for event and stamp for stamp |
| `MonitorLog.MonitorAndAnalysisAgree` | src/vdevlab/analysis.py:148-210 | for every device behaviour the monitor's log is accepted, its metrics are computed without an error, each window has observed = reported retries in 1 to 3, and every counted retry is an EIO |
| `EndToEnd.AfterWriteKeeps` | src/vdevlab/runner.py:331-340 | one pass of the write loop keeps payloads begun = acknowledged + remaining, acknowledges exactly the prefix the device took, and goes on after an interrupt but after no other error |
| `EndToEnd.SysStep` | examples/vtemp_monitor.c:239-290 | every step of device, monitor, writer or fault injector keeps the system invariant |
| `EndToEnd.LinesFollowBytes` | examples/vtemp_monitor.c:177-290 | at every moment of every interleaving accepted bytes are consumed + in flight + FIFO, and the line events are the fold of the consumed bytes |
| `EndToEnd.FaultTransparency` | kernel/vdevlab_core.c:77-225 | once drained, the line events are those of the payloads, whatever EIO, delay, partial-read and clear calls interleaved |
| `EndToEnd.SameBytesSameLines` | examples/vtemp_monitor.c:239-290 | a faulty and a fault-free drained run over the same bytes log the same line events |
| `EndToEnd.InjectedEiosAreSeen` | examples/vtemp_monitor.c:258-266 | every loaded EIO is a READ_RETRY or READ_FAILED in the log, in flight, pending, or overwritten |
| `CountedFaults.CountedFaultsToRetries` | examples/vtemp_monitor.c:258-284 | EIO n in force and a monitor between passes without retries; along every interleaving without a further store, with k the -EIOs handed over: k is at most n and 4, n - k are pending or in flight, and the log gains exactly retries 1 to min(k, 3), RECOVERY_SUCCESS(n) and then the lines once there is data, which takes n up to 3 and k = n, and a final READ_FAILED with exit code 1, for EIO exactly if k = 4 |
| `CountedFaults.ToldStep` | examples/vtemp_monitor.c:239-290 | every step of device, monitor, writer or controls that stores no fault keeps that account of the log, and that the monitor's read gets past its fault check only when no EIO is left |
| `Delivery.EverythingIsDelivered` | examples/vtemp_monitor.c:239-290 | after any run, once the writer is through, no mutex is held and the retries suffice, the monitor's own calls continue it to the drained state with exactly repeat + ceil(len / chunk) reads, and the line events are those of the payloads |
| `WholePath.ReportCountsInjectedFaults` | src/vdevlab/analysis.py:148-210 | in every interleaving the analysis accepts the monitor's log, and its EIO count is what was loaded into the device less what was overwritten, is pending or in flight, and less the one on which the monitor gave up |
| `Drain.RetriesThenQuiet` | examples/vtemp_monitor.c:258-266 | the monitor alone, pass by pass: k passes against EIO n within the retry budget are k numbered retries and leave n - k, whatever the FIFO holds |
| `Drain.ShortBurstRecovers` | examples/vtemp_monitor.c:258-284 | the monitor alone, EIO n up to 3: n retries, then after any number of idle polls RECOVERY_SUCCESS(n) at the first read with data, and that data consumed |
| `Drain.LongBurstFails` | examples/vtemp_monitor.c:258-266 | the monitor alone, EIO n above 3: three retries, one READ_FAILED, exit code 1, n - 4 left in the device however many passes follow |
| `Drain.DisconnectedPass` | examples/vtemp_monitor.c:253-271 | against a disconnected device the monitor's next pass logs DEVICE_DISCONNECTED and exits with 0 |
| `Drain.PassDrains` | kernel/vdevlab_core.c:83-171 | each read leaves exactly one read fewer to go and strictly decreases repeat + FIFO length |
| `Drain.DrainBound` | examples/vtemp_monitor.c:239-290 | exactly repeat + ceil(len / min(512, limit)) reads empty the FIFO, into the monitor's buffer |
| `Drain.CeilDivRoundsUp` | kernel/vdevlab_core.c:159-161 | the number of chunks is the quotient rounded up |
| `Drain.MonitorPass` | examples/vtemp_monitor.c:239-289 | one poll and read over the driver's code is one pass of the model |
| `Drain.DrainMonitor` | examples/vtemp_monitor.c:239-290 | the loop over the driver's code takes that many reads and ends with an empty FIFO |
| `Drain.PassOnMachine` | kernel/vdevlab_core.c:122-253 | from every reachable state without a held mutex, one pass is a legal run of two new calls, poll and read(512), that disturbs no other call; the monitor that handles their results is the pass of the model |
| `Drain.DisconnectOnMachine` | kernel/vdevlab_core.c:107-237 | from every reachable disconnected state without a held mutex that pass is a legal run of one poll and one read, which returns -ENODEV |
| `Drain.DrainOnMachine` | kernel/vdevlab_core.c:122-253 | from every reachable state without a held mutex a legal run of new calls only, exactly repeat + ceil(len / chunk) polls and as many reads, empties the FIFO and disturbs no other call; folding the monitor over the results of these calls gives the whole FIFO in its buffer |
| `Backend.WriteAll` | src/vdevlab/runner.py:331-340 | alone with the device the write loop adds exactly the acknowledged prefix, finishes exactly if connected and everything fits, and never stops for lack of progress |
| `Scenario.DurationRoundTrip` | src/vdevlab/scenario.py:94-106 | decimal durations in ms and s read back their value up to 24 h and are refused beyond |
| `Scenario.OnlyCanonicalDurations` | src/vdevlab/scenario.py:94-106 | every accepted duration is such a text, and nothing but a text is accepted |
| `Scenario.EventAcceptedExactly` | src/vdevlab/scenario.py:138-200 | an event is accepted if and only if it is a mapping with text keys, a time within the timeout, one of the four actions with exactly its fields, and a fault of one of the four types with exactly its parameter in range |
| `Scenario.ParseEvents` | src/vdevlab/scenario.py:214-214 | all events normalised in order, or one of them is invalid |
| `Scenario.CheckOrder` | src/vdevlab/scenario.py:215-220 | comparing neighbours decides whether all pairs are in time order |
| `Scenario.ParseScenario` | src/vdevlab/scenario.py:203-221 | succeeds exactly if some result is acceptable, and returns that one |
| `Dispatching.AcceptedEventsDispatch` | src/vdevlab/runner.py:411-452 | an accepted event is scheduled at the document's time, dispatched as the document's action, a write with its text and a fault packed as meant |
| `Dispatching.FaultSurvivesTheTrip` | src/vdevlab/runner.py:342-357 | set then get returns the fault meant; for a delay exactly if it is 1 to 10000 ms, else -EINVAL and nothing changes |
| `Dispatching.DelayOutsideDeviceRange` | src/vdevlab/scenario.py:149-154 | 0ms and 11s pass the validator and are refused by the device |
| `Dispatching.ValidatedScenarioDispatches` | src/vdevlab/scenario.py:203-221 | the scheduler rejects no event of a validated scenario; times ascend pairwise within the timeout |
| `Scheduler.Run` | src/vdevlab/runner.py:374-409 | a sleep is requested exactly if the clock is before the deadline and would end exactly at it; each record has the index, the scheduled time and the start and end readings; stops at the first invalid time or failing dispatch, after all earlier ones |
| `Scheduler.NeverEarlyNeverOverlapping` | src/vdevlab/runner.py:382-407 | under any forward clock with sleeps not short: started >= at, and finished <= every later start |
| `Scheduler.MaxPlus` | src/vdevlab/runner.py:384-387 | the start recurrence has the max-plus closed form |
| `Scheduler.ClosedForm` | src/vdevlab/runner.py:374-409 | if sleeps last exactly as requested, event i starts at the maximum over j of at_j plus the dispatch durations from j to i - 1 |
| `Scheduler.LatenessBound` | src/vdevlab/runner.py:374-409 | lateness is at most the total duration of earlier dispatches |
| `Scheduler.RunsFeedTheTimeline` | src/vdevlab/report.py:79-104 | the starts of a run ascend, as the timeline needs |
| `KernelLog.Observe` | src/vdevlab/runner.py:141-155 | drops exactly the longest prefix of the second snapshot that is a suffix of the first |
| `KernelLog.NoRotation` | src/vdevlab/runner.py:149-155 | without rotation exactly the new lines are reported |
| `KernelLog.Rotation` | src/vdevlab/runner.py:149-155 | with old lines rotated out a suffix of the new lines is reported, all of them exactly if no longer overlap exists |
| `KernelLog.DistinctLinesExact` | src/vdevlab/runner.py:149-155 | with pairwise distinct lines exactly the surviving new lines are reported |
| `KernelLog.RepeatedLineMissed` | src/vdevlab/runner.py:149-155 | a repeated line after rotation is not reported |
| `Cleanup.Dispatches` | src/vdevlab/runner.py:374-409 | dispatches are attempted in order, up to and including the one that raises, or up to just before it when the exception comes in the sleep ahead of it |
| `Cleanup.Body` | src/vdevlab/runner.py:489-508 | it succeeds exactly if nothing raises and the wait returns, and then no application runs and the last operation is terminate if the time is up and collect otherwise; the dispatches attempted are those of Cleanup.Dispatches |
| `Cleanup.CleanupBackend` | src/vdevlab/runner.py:526-541 | reset and close are both attempted, and an error is raised exactly if one failed and errors count |
| `Cleanup.Run` | src/vdevlab/runner.py:473-524 | unless terminate raises in the handler: no application left, reset then close once each after all dispatches, right before them terminate or collect by the time left; otherwise the application still runs and neither is attempted; a result exactly if body, reset and close succeeded, the body's exception exactly if it raised |
| `Cleanup.CleanupCanBeSkipped` | src/vdevlab/runner.py:509-513 | for every scenario and every event of it there is a run, interrupted there, that ends with the application alive and the device neither reset nor closed, although both would have succeeded |
| `Analysis.ParseApplicationLog` | src/vdevlab/analysis.py:100-145 | the loop computes the specified records or the first offending line |
| `Analysis.AcceptedExactly` | src/vdevlab/analysis.py:106-130 | a log is accepted if and only if every line is blank or an object with a non-negative integer stamp and a non-blank event name, and no stamp is smaller than an earlier one |
| `Analysis.RaisedAtFirst` | src/vdevlab/analysis.py:106-130 | the error names the first line that makes the log inadmissible |
| `Analysis.ParsedInOrder` | src/vdevlab/analysis.py:118-143 | accepted logs have non-decreasing stamps and increasing line numbers |
| `Analysis.ParsedIsComplete` | src/vdevlab/analysis.py:106-145 | one record for each non-blank line, made from it, and no others |
| `Analysis.CalculateRecoveryMetrics` | src/vdevlab/analysis.py:148-210 | the streaming loop computes the declarative windows and counts; it raises exactly at the first bad event, and what the figures are is said by the next rows |
| `Analysis.GoodExactly` | src/vdevlab/analysis.py:160-184 | it raises nowhere if and only if each READ_RETRY has errno and retry, each RECOVERY_SUCCESS has retries, all non-negative integers, and a READ_RETRY since the recovery before it |
| `Analysis.WindowsExactly` | src/vdevlab/analysis.py:177-196 | window k belongs to the recovery with k recoveries before it: its stamp, the stamp of the first retry since the previous recovery, their difference, the number of retries in between and the number reported |
| `Analysis.CountsAreCardinalities` | src/vdevlab/analysis.py:168-171 | the counts are the numbers of READ_RETRY events and of those with errno 5 |
| `Analysis.HeadlineMetrics` | src/vdevlab/analysis.py:198-209 | the recovery timestamp is that of the first RECOVERY_SUCCESS, the latency its distance from the first READ_RETRY of the log |
| `Analysis.HeadlineAbsent` | src/vdevlab/analysis.py:198-209 | both are absent exactly if there is no RECOVERY_SUCCESS; the first error is the stamp of the first READ_RETRY, absent exactly if there is none |
| `Analysis.RetriesConserved` | src/vdevlab/analysis.py:160-196 | retries in windows plus the trailing run are all retries |
| `Analysis.WindowsOrdered` | src/vdevlab/analysis.py:185-196 | windows are ordered and disjoint, each with a retry, and latencies add up to at most the span |
| `Analysis.FirstWindow` | src/vdevlab/analysis.py:172-175 | the first window starts at the first retry of the log |
| `Analysis.DurationsAgree` | src/vdevlab/analysis.py:198-210 | recovery minus first error is the latency, and latencies fit the log |
| `Analysis.EvaluateRecoveryLatency` | src/vdevlab/analysis.py:224-238 | reports the maximum; passes exactly if something recovered and everything was fast enough |
| `Report.SortSorts` | src/vdevlab/report.py:122-131 | the timeline is sorted and a permutation |
| `Report.SortIsStable` | src/vdevlab/report.py:122-131 | entries with equal keys keep their order |
| `Report.StableSortUnique` | src/vdevlab/report.py:122-131 | sorted and stable determine the result, so any stable sort returns it |
| `Report.TruncDropsFraction` | src/vdevlab/report.py:97-97 | a float stamp loses its fraction, towards zero |
| `Report.EntriesFromRecords` | src/vdevlab/report.py:79-119 | the entries carry the index and truncated start of their dispatch, or the line, name and stamp of their event |
| `Report.TimelineKeepsSources` | src/vdevlab/report.py:79-131 | a permutation of both sources that restricts to each source's own order |
| `Report.PrecedesExactlyByMillisecond` | src/vdevlab/report.py:122-131 | a dispatch precedes an application event exactly if its truncated start is no later |
| `Report.CausesComeFirst` | src/vdevlab/report.py:79-131 | a dispatch that really started no later than an event happened precedes it |
| `Report.OrderInsideAMillisecondIsLost` | src/vdevlab/report.py:122-131 | the converse fails inside one millisecond |
| `Report.FirstFaultTimestamp` | src/vdevlab/report.py:134-141 | the truncated start of the first fault dispatched, if any |
| `Report.ObservationsAgree` | src/vdevlab/report.py:144-147 | each causal duration added to the fault's time is the time of its event, defined exactly if both are; fault-to-recovery minus fault-to-first-error is the recovery latency |

## Left out

- Module init and exit, registration, file open and release: driver plumbing.
- kfifo internals: the FIFO is a bounded sequence and each of its operations one step, so a length read in the middle of an index update is not modelled.
- READ_ONCE and memory ordering: each read of the fault type is one atomic step.
- How long a delay lasts, and poll timeouts as durations: a delay or timeout may end at any time.
- `SoloCalls.Core`: one call at a time; waiting on a queue is reported as an outcome, since only another call's step can end it.
- `Drain.MonitorPass`, `Drain.DrainMonitor` and `Backend.WriteAll`: with no other call running; interleavings are in `EndToEnd.dfy`.
- EndToEnd.FaultTransparency: states what holds once the device is drained; `Delivery.EverythingIsDelivered` reaches that state when the monitor goes on by itself, not under every schedule of the other calls.
- `Drain.RetriesThenQuiet`, `Drain.ShortBurstRecovers` and `Drain.LongBurstFails`: poll and read as one step; `CountedFaults.CountedFaultsToRetries` is the statement over interleaved runs.
- `strtod`, printf formatting, JSON, YAML and UTF-8: parameters, or already decoded values. Strings are sequences of Unicode scalar values, so a lone surrogate, which UTF-8 encoding refuses, is not in the model; whitespace in event names is ASCII whitespace.
- Wrap-around of the monitor's event counter: it is read only against a limit below the wrap.
- Floating-point rounding: clock readings and temperatures are reals, truncated where the code calls int().
- The digit limit of Python's int() on very long duration texts.
- Error texts and the order in which the validator finds several errors: a rejection is one value.
- The names, scheduled times, durations and details that `_dispatch_timeline` and `_application_timeline` copy into an entry besides index, line, event and stamp.
- The dictionaries filled by `_parse_fault_event` and `_parse_event`, and the list built by `_dispatch_timeline`: modelled as values, not as updates in place.
- `ApplicationProcess` threads, pipes and signals: `Cleanup.World` says only whether terminate and collect return and whether the process runs.
- `Cleanup.Run`: a backend that cannot be opened, and the kernel-log snapshot around the run.
- The assertions section of a scenario, device and application sections, event-count, stdout, disconnect and kernel-warning assertions, and the status of the report: each is settled by one branch.
- src/vdevlab/cli.py, src/vdevlab/junit.py, tools/vdevlab-ctl.c: argument parsing and one-branch mappings.

# Captures and their delivery, modelled in Dafny

This project models the part of the multi-bunch feedback software that starts captures and
delivers the captured data, and proves what that part is for.  Ten pieces are modelled:

* **Trigger targets** (`Timespec`, `TriggerModel`, `TriggerTargets`, `TriggerEffects`, `TriggerRuns`,
  `TriggerTheorems`, `TriggerPending`, `TriggerStranded`, `TriggerAlone`, `TriggerGroup`).  Three
  targets, four modes, postponed and simultaneous arming, automatic rearming and reader locks with
  blocking waiters, all under one mutex.  `TriggerTargets` is the code
  in its own form: an array and a structure updated in place, one method for each section run with
  the mutex held, each proved equal to a function of `TriggerModel`.  `TriggerRuns` puts those
  sections together into every interleaving of user commands, hardware events and any number of
  reader threads; a condition wait ends one section and starts another.  A ghost log records every
  hardware request.  `TriggerPending` follows a postponed shared arm through a run, and
  `TriggerStranded` the targets that wait for a reader.  `TriggerAlone` and `TriggerGroup` are
  tables, in terms of modes, states, counts and flags only, of what every step leaves of a target
  on its own and of the group, and of everything it asks of the hardware.
* **Fast memory** (`MemoryDevice`).  The DMA engine of the kernel driver, the device file above it
  and the user space loop above that.  How a read is cut short, or killed, is left open.
* **Memory replies** (`MemoryReply`, `MemorySender`, `MemoryCommand`).  `MemoryReply` says in one
  recursive definition what each reply format holds; the nested chunk loops of the server are proved
  to produce it, down to the circular memory, and every value of an answer is given once more in terms
  of the request and the bytes of the memory.  Phases are integers in units of 2^-48 turns.
* **Sequencer scales** (`Sequencer`).  An arbitrary window of the sequence of detector points, the
  separate counter of its length, and the windows it is sent in.
* **Tune PLL FIFOs** (`PllFifo`).  Two buffers, hold-over samples and the hand-over to EPICS.
* **Register definitions** (`RegisterDefs`).  Parsing with running offsets and flattening of shared
  definitions, against a direct layout of the file.
* **Indented text** (`Indent`, `IndentGrammar`).  A parser with one line of undo, against a renderer
  and against a grammar of what it accepts.
* **Buffered sockets** (`BufferedFile`).  Reads and writes over a socket that splits the data at will.
* **Clock chip fields** (`PllFields`).  Bit fields over several registers behind a dirty cache.
* **Waveform summaries** (`BunchSelect`).  Two counting passes against what the summaries mean.

`Common` holds the widths of machine words and a few definitions that all of them share.

Code that changes state is written as classes and loops and proved against functions; the properties
are lemmas about those functions.  32-bit and 64-bit wrap-around is written out wherever the code can
reach it.  Sums of samples are exact (`real`), and a sample turned by a phase is kept as the pair of
phase and sample, so that no rounding enters.

## What was found

* **A postponed shared arm can be dropped.**  While one is pending, a step either keeps it pending,
  with a reader of the group to wait for, or arms the whole group under one pulse, if and only if the
  step is not one of four: a disarm of the group, a mode change that takes a target out when no other
  target of the group is locked (and no rearming of the rest takes the place of the arm), a mode
  change that puts an armed or busy target in, and an immediate capture of a shared memory target
  (`TriggerPending.PendingStep`, over runs `PendingRun` and `PostponedArmHappens`).
  `TriggerStranded.PartingRun` and `CapturedRun` are runs in which it is dropped.
* **The shared state that "should not occur"** (`epics/src/trigger_target.c:130-131`) does:
  `TriggerPending.InvalidEntered` says by exactly which steps, and `InvalidRecovers` gives a way
  out.
* **A target can be left locked with no reader to unlock it.**  `TriggerStranded.LockedHasReaderStep`
  says exactly by which steps: a locked target with no reader of its own is made not shared; the only
  target that is read is taken out of a group that is invalid even without it; or the last reader of
  an invalid group leaves.  `StrandingRun` and `CapturedRun` are runs that end so.
* **A comment on shared arming is too strong.**  `epics/src/trigger_target.c:301` says all shared
  targets go to the locked state when any is being read; the code locks only those that are being
  read themselves.  The model follows the code.
* **Lock timeouts of 2^31 ms and more** are converted to negative numbers, and the deadline passed to
  the condition wait may then not be normalised (`TriggerTheorems.DeadlineNormal` gives the exact
  condition, `NegativeDeadlineRun` a run).
* **The waveform summary misses one case without enables.**  When no array of enables is given and
  the first of at least three bunches is the odd one, the answer is "complicated"
  (`BunchSelect.AssessComplexity` and `MissedWhen` state the exact condition; `FirstOdd` is one case).
* **Disabling a FIFO may drop samples.**  The last read may not fit the buffer that is handed over,
  and what is held over is discarded by the next enable (`PllFifo.HeldIsLost`; `DisablingIsSafe` says
  when this cannot happen, `DisablingLosesOne` is a run in which it does).
* **A file whose first line is indented is not always read to its end.**  What follows once a line
  stands further left than the first one is not looked at, and no error is reported
  (`IndentGrammar.RestIsIgnored`; `AcceptsExactly` is the exact condition, and by `NothingIgnored`
  it does not happen when the first line is not indented).
* **Reading an unknown register from the clock chip cache** makes it 0 without marking it for
  flushing, so that it need not agree with the hardware afterwards; registers that belong to fields
  always do (`PllFields.FieldWriter.ReadRegister`, and `ReadUnknown` for one case).

## Model

| member | source | states |
|---|---|---|
| Timespec.RefinesNanoseconds | epics/src/timespec.h:20-84 | on normalised times addition, subtraction, comparison and earliest are those of integer nanoseconds and keep times normalised |
| Timespec.MillisecondsExact | epics/src/timespec.h:10-16 | a millisecond interval of either sign converts to exactly that many nanoseconds; normalised exactly when the remainder is not negative |
| TriggerTargets.TriggerSystem.constructor | epics/src/trigger_target.c:656-677 | all targets start idle in one-shot mode, with shared rearming off |
| TriggerTargets.TriggerSystem.ComputeGlobalState | epics/src/trigger_target.c:141-174 | the loop over the shared targets computes the table of shared states |
| TriggerTargets.TriggerSystem.AnyLockedTargets | epics/src/trigger_target.c:178-185 | true exactly when a shared target is being read |
| TriggerTargets.TriggerSystem.AnySharedTargets | epics/src/trigger_target.c:189-195 | true exactly when a target is shared |
| TriggerTargets.TriggerSystem.GetSharedMask | epics/src/trigger_target.c:205-210 | exactly the shared targets |
| TriggerTargets.TriggerSystem.DoArmTarget | epics/src/trigger_target.c:219-236 | a ready target is prepared and armed if nobody reads it and otherwise marked for later; other states do not change |
| TriggerTargets.TriggerSystem.DoDisarmTarget | epics/src/trigger_target.c:255-262 | rearming is off; an armed target takes its stop state, a locked one becomes idle, a busy one goes on |
| TriggerTargets.TriggerSystem.ArmSharedTargets | epics/src/trigger_target.c:288-316 | refused, postponed for the targets being read, or all shared targets prepared and armed under one pulse |
| TriggerTargets.TriggerSystem.UpdateGlobalState | epics/src/trigger_target.c:322-337 | the cached state is refreshed, with a shared arm on entering idle when retriggering, or when the last reader of a postponed arm is gone |
| TriggerTargets.TriggerSystem.DisarmSharedTargets | epics/src/trigger_target.c:341-349 | one disarm pulse for the group, every shared target stopped, the cached state refreshed |
| TriggerTargets.TriggerSystem.ArmTargetLocked | epics/src/trigger_target.c:352-361 | a shared target arms its group, any other arms alone under its own pulse |
| TriggerTargets.TriggerSystem.DisarmTargetLocked | epics/src/trigger_target.c:364-373 | a shared target disarms its group, any other disarms alone |
| TriggerTargets.TriggerSystem.TargetTrigger | epics/src/trigger_target.c:379-391 | an armed target becomes busy; a trigger in any other state is ignored |
| TriggerTargets.TriggerSystem.TargetComplete | epics/src/trigger_target.c:394-420 | a busy target becomes idle and then rearms as its mode and its disarm flag say |
| TriggerTargets.TriggerSystem.TargetSetMode | epics/src/trigger_target.c:455-464 | the mode changes and the shared state is recomputed with it |
| TriggerTargets.TriggerSystem.DecrementLockCount | epics/src/trigger_target.c:583-588 | one reader fewer; the last one carries out a postponed arm |
| TriggerTargets.TriggerSystem.LockTriggerReady | epics/src/trigger_target.c:591-616 | granted at once on a ready target, refused without a timeout, and otherwise counted as a reader while waiting |
| TriggerTargets.TriggerSystem.WaitStep | epics/src/trigger_target.c:560-578 | what each return of the condition wait leads to: granted, waiting on, polled, or timed out and uncounted |
| TriggerTargets.TriggerSystem.ImmediateMemoryCapture | epics/src/trigger_target.c:629-650 | an idle unread memory target starts capturing at once; otherwise nothing happens |
| TriggerEffects.ArmSharedEffect | epics/src/trigger_target.c:288-316 | a shared arm touches no target being read, arms all shared targets or none under one pulse with exactly their mask, and leaves the shared state consistent |
| TriggerEffects.UpdateGlobalEffect | epics/src/trigger_target.c:322-337 | recomputing restores consistency from any state and arms only out of idle or locked |
| TriggerEffects.DisarmTargetEffect | epics/src/trigger_target.c:364-373 | a disarm arms nothing, keeps the shared state consistent and leaves readers alone |
| TriggerEffects.TriggerEffect | epics/src/trigger_target.c:379-391 | a trigger arms nothing, even when it makes the shared state be recomputed |
| TriggerEffects.CompleteEffect | epics/src/trigger_target.c:394-420 | a completion arms at most its own target, or the whole shared group, and never a target being read |
| TriggerEffects.SetModeEffect | epics/src/trigger_target.c:455-464 | a mode change keeps the shared state consistent and arms only a whole group that nobody reads |
| TriggerEffects.ReleaseEffect | epics/src/trigger_target.c:583-588 | an unlock keeps the shared state consistent and arms only what no remaining reader holds |
| TriggerEffects.ImmediateCaptureEffect | epics/src/trigger_target.c:629-650 | an immediate capture arms only the memory target, by a capture command and a forced trigger and without an arm pulse |
| TriggerRuns.ClockStarts | epics/src/trigger_target.c:547-558 | the first tick and the deadline of a wait are the start plus ten seconds, cut at the deadline, and the start plus the timeout |
| TriggerRuns.ClockAdvances | epics/src/trigger_target.c:556-558 | a tick that is not the last is followed by a strictly later one, never past the deadline |
| TriggerRuns.InvNext | epics/src/trigger_target.c:379-650 | each mutex-held section keeps: lock counts equal holders plus waiters, held targets are idle or locked, the cached shared state is right, a postponed shared arm has a reader |
| TriggerRuns.Reachable | epics/src/trigger_target.c:379-650 | those invariants hold after every run of every number of threads |
| TriggerTheorems.ReaderUndisturbed | epics/src/trigger_target.c:219-236 | from lock to unlock a reader sees its target idle or locked, and no prepare, arm, forced trigger or capture start reaches it, in every run |
| TriggerTheorems.WaiterGetsIn | epics/src/trigger_target.c:560-578 | a waiter whose target has become ready is granted it at its next wake, whatever happens in between |
| TriggerTheorems.LockNet | epics/src/trigger_target.c:591-623 | every lock attempt, timeout and unlock changes exactly the count it should: one on success, nothing on failure |
| TriggerTheorems.ArmPulseExact | epics/src/trigger_target.c:205-250 | in every step of every run at most one arm pulse, its mask exactly the targets armed by the step, each prepared, shared ones all together |
| TriggerTheorems.ActiveLeavesOnlyBy | epics/src/trigger_target.c:379-420 | an armed or busy target moves only on its own trigger, its own completion or a disarm that covers it |
| TriggerTheorems.CaptureCycle | epics/src/trigger_target.c:394-411 | arm, trigger and completion: one-shot ends idle, rearm and free run end armed again, free run also fires |
| TriggerTheorems.SharedCompletion | epics/src/trigger_target.c:399-402 | the last completion of the group ends idle, locked or armed as retriggering, a disarm or readers decide |
| TriggerTheorems.DisarmSticks | epics/src/trigger_target.c:255-262 | after a disarm of a target that is not shared nothing newly arms it, in every continuation that does not ask for it |
| TriggerTheorems.DisarmStops | epics/src/triggers.c:108-131 | a disarmed sequencer stops at once; the memory target stays armed until its forced trigger and then completes to idle |
| TriggerTheorems.PollBound | epics/src/trigger_target.c:554-576 | a waiting client is polled fewer times than there are ten second periods in its timeout, the poll of the current step counted |
| TriggerTheorems.DeadlineNormal | epics/src/trigger_target.c:547-549 | for which timeouts and times the deadline is a normalised time |
| TriggerTheorems.DeadlineNormalAlways | epics/src/trigger_target.c:547-549 | for which timeouts it is one whatever the clock says |
| TriggerTheorems.NegativeDeadlineRun | epics/src/trigger_target.c:591-616 | a lock with the largest timeout waits for a deadline with negative nanoseconds |
| TriggerPending.PendingStep | epics/src/trigger_target.c:322-337 | a postponed shared arm is still pending after a step, with a reader to wait for, or the whole group is armed under one pulse, exactly if the step is not one of those that drop it; those do neither |
| TriggerPending.GroupKept | epics/src/trigger_target.c:455-464 | the group changes exactly by a mode change into or out of shared |
| TriggerPending.SameGroupPends | epics/src/trigger_target.c:322-337 | a postponed arm goes on for the same group exactly after the steps that neither drop it nor change the group |
| TriggerPending.LastReaderArms | epics/src/trigger_target.c:425-433 | the unlock of the last shared reader carries out the postponed arm of every shared target under one pulse |
| TriggerPending.PendingRun | epics/src/trigger_target.c:288-337 | in every run a postponed arm stays pending until it is carried out, exactly if no step drops it meanwhile |
| TriggerPending.PostponedArmHappens | epics/src/trigger_target.c:425-433 | in a run that does not drop it the arm is pending as long as the group has a reader, and the step that takes the last one away arms the whole group under one pulse |
| TriggerPending.InvalidEntered | epics/src/trigger_target.c:125-174 | the steps that lead into the invalid shared state, exactly |
| TriggerPending.InvalidRecovers | epics/src/trigger_target.c:394-402 | out of the invalid state without readers the completion of the last busy target arms the group |
| TriggerPending.StoppedGroupStep | epics/src/trigger_target.c:341-349 | a step of a run with a disarmed group newly arms no shared target, and leaves the group disarmed, exactly if it does not ask for the group |
| TriggerPending.GroupDisarmSticks | epics/src/trigger_target.c:341-349 | after a disarm of the group that goes on through every run, exactly as long as nobody asks for it |
| TriggerAlone.AloneStep | epics/src/trigger_target.c:219-262 | the table: mode, rearm flag, state and lock count of a target that is not shared after every step of every run |
| TriggerAlone.AloneRequestsExact | epics/src/trigger_target.c:219-262 | and exactly what a step that acts on it asks of the hardware |
| TriggerAlone.CompleteExact | epics/src/trigger_target.c:394-420 | its completion: idle in one-shot mode or after a disarm, armed again with its own pulse if nobody reads it, locked without a request if somebody does; a free running one fires the next trigger |
| TriggerAlone.PostponedStep | epics/src/trigger_target.c:219-236 | a locked target with a reader stays so, or is armed by its last reader, exactly if the step is not its disarm nor a change of it to shared mode |
| TriggerAlone.PostponedArmsAlone | epics/src/trigger_target.c:425-433 | over runs: it waits as long as it has a reader, and the step that takes the last one away arms it with exactly its own preparation and pulse |
| TriggerAlone.LockOutcome | epics/src/trigger_target.c:591-616 | when a lock is granted at once, refused and waited for |
| TriggerAlone.WakeOutcome | epics/src/trigger_target.c:560-578 | when a wait ends with the lock or a refusal, and how it goes on |
| TriggerAlone.CapturedOnce | epics/src/trigger_target.c:629-650 | a capture started at once on a memory target that is not shared is made once, in any mode |
| TriggerAlone.RearmAfterReader | epics/src/trigger_target.c:403-411 | a run in which a rearming target completes while a reader waits, is locked, read, and armed by the unlock |
| TriggerGroup.StateTable | epics/src/trigger_target.c:125-138 | the shared state by the numbers of locked, armed, busy and idle targets, row by row |
| TriggerGroup.AskedExact | epics/src/trigger_target.c:288-316 | what a request to arm the group leaves of every target, of the flags and of the log |
| TriggerGroup.RefreshedExact | epics/src/trigger_target.c:322-337 | what recomputing the shared state leaves of them, from any state |
| TriggerGroup.DisarmedExact | epics/src/trigger_target.c:341-349 | what a disarm of the group leaves of them, with the forced trigger of an armed memory target |
| TriggerGroup.GroupStep | epics/src/trigger_target.c:288-464 | the table: what every step of every run leaves of the whole group |
| TriggerGroup.OthersKept | epics/src/trigger_target.c:352-420 | a step that acts on a target that is not shared changes nothing else |
| TriggerStranded.LockedHasReaderStep | epics/src/trigger_target.c:425-464 | every locked target keeps a reader to unlock it, its own or one of its group, except exactly after the steps that strand one |
| TriggerStranded.LockedHasReaderRun | epics/src/trigger_target.c:425-464 | the same over every run without such a step |
| TriggerStranded.PartingRun | epics/src/trigger_target.c:455-464 | a run in which a mode change drops a postponed arm: the unlock arms its own target alone |
| TriggerStranded.CapturedRun | epics/src/trigger_target.c:629-650 | a run in which an immediate capture drops a postponed arm: the last unlock arms nothing and leaves a target locked without a reader |
| TriggerStranded.StrandingRun | epics/src/trigger_target.c:455-464 | a run in which a mode change leaves a target locked without a reader |
| MemoryDevice.DmaControl.constructor | driver/dma_control.c:211-223 | the buffer is a power of two of at least a page, so that the cap is a multiple of the alignment |
| MemoryDevice.DmaControl.ReadDmaMemory | driver/dma_control.c:130-188 | delivers as much as the capped transfer holds, a non-empty prefix of the requested bytes; its one transfer is aligned, capped and around the request; the mutex is held after success only |
| MemoryDevice.DmaControl.ReleaseDmaMemory | driver/dma_control.c:191-194 | gives the mutex back |
| MemoryDevice.MemoryFile.Fetch | driver/memory.c:78-86 | every path releases the buffer, and what reaches the caller is the device memory |
| MemoryDevice.MemoryFile.Read | driver/memory.c:61-96 | clips to the window, copies exactly what the window, the transfer and the caller allow, a non-empty prefix from the file position, wraps the position at the end; every transfer stays in the window |
| MemoryDevice.ReadDmaMemory | epics/src/hardware.c:115-133 | the loop ends; with reads that progress byte k is the byte k places on around the window |
| MemoryDevice.HwReadDramMemory | epics/src/hardware.c:281-287 | sample j is the 32-bit word 4j bytes on in the memory taken as a circle of 2^31 bytes, from any offset |
| MemoryReply.ReplyLength | epics/src/socket_command.c:372-441 | a reply of n units holds n times the values of a unit |
| MemoryReply.ReplySplit | epics/src/socket_command.c:592-626 | a reply cut anywhere is the concatenation of its pieces |
| MemoryReply.ReplyAt | epics/src/socket_command.c:372-397 | where value j of unit i stands in a reply |
| MemoryReply.AngleExact | epics/src/socket_command.c:520-534 | the running angle, with 64-bit wrap-around, is the exact product modulo 2^64 |
| MemoryReply.FixupExact | epics/src/socket_command.c:492-504 | so is the fixup angle of each bunch |
| MemoryReply.PhaseExact | epics/src/socket_command.c:480-535 | running angle and fixup together turn bunch b of raw turn n by exactly (n x bunches + b) x tune modulo 2^48 |
| MemoryReply.FixedTerms | epics/src/socket_command.c:508-535 | turning a column first by the running angle and then by its fixup gives every raw sample its exact phase |
| MemorySender.Sender.ExtractOneBunch | epics/src/socket_command.c:266-274 | the selected channels of one sample, each looked up at its own delay within the extra turn |
| MemorySender.Sender.ExtractChannels | epics/src/socket_command.c:279-288 | so for a run of samples |
| MemorySender.Sender.SendInt16 | epics/src/socket_command.c:342-360 | whatever the write chunks, the delay corrected samples in order |
| MemorySender.Sender.ComputeBunchTurnData | epics/src/socket_command.c:296-307 | one bunch of consecutive turns |
| MemorySender.Sender.SendBunch | epics/src/socket_command.c:311-333 | whatever the write chunks, one sample of the bunch for each turn |
| MemorySender.Sender.ComputeFloat32TurnData | epics/src/socket_command.c:372-397 | each column of a decimated turn is the sum over its raw turns divided by their number |
| MemorySender.Sender.SendFloat32 | epics/src/socket_command.c:403-441 | whatever the write chunks, the decimated turns in order |
| MemorySender.Sender.PrepareTuneDecimate | epics/src/socket_command.c:480-505 | the fixup table holds the angle of each bunch, repeated for each channel |
| MemorySender.Sender.AccumulateTurns | epics/src/socket_command.c:508-528 | raw turns are added up, each turned by the running angle, which advances once a raw turn |
| MemorySender.Sender.Complex64Unit | epics/src/socket_command.c:508-535 | one decimated turn in which every raw sample has its exact phase |
| MemorySender.Sender.SendComplex64 | epics/src/socket_command.c:538-570 | the same over all write chunks, with the angle carried from one call to the next |
| MemorySender.Sender.TurnFits | epics/src/socket_command.c:420-424 | a decimated turn of either format fits the write buffer, so the loops advance |
| MemoryCommand.DramOffsetExact | epics/src/memory.c:190-198 | whatever wraps in 32 and 64 bits, the address is right on the circular memory |
| MemoryCommand.ComputeReadBufferSize | epics/src/socket_command.c:636-657 | a whole number of units that leaves room for the extra turn; refused exactly when not one unit fits |
| MemoryCommand.GuardExact | epics/src/socket_command.c:684-687 | dividing twice admits exactly the requests whose product fits the memory |
| MemoryCommand.SamplesExact | epics/src/socket_command.c:584 | under the guard the 32-bit product is the number of samples asked for |
| MemoryCommand.SendChunk | epics/src/socket_command.c:602-623 | each format sends exactly its units of one read buffer |
| MemoryCommand.SendBuffer | epics/src/socket_command.c:599-623 | one buffer with its look-ahead is read and sent as the units that follow those already sent |
| MemoryCommand.SendMemoryData | epics/src/socket_command.c:576-627 | the chunked reply is the single-pass reply over the circular memory, and has its length and format even when a read fails |
| MemoryCommand.HeaderExact | epics/src/socket_command.c:661-672 | samples times channels in the header is the number of values that follow |
| MemoryCommand.AnswerExact | epics/src/socket_command.c:248-441 | every value of an answer in terms of the request and the bytes of the memory: the channel asked for from its half of the words at its own delay, the two in turn, the bunch asked for or all, and the single samples, the mean or the turned samples of as many turns as asked for |
| MemoryCommand.NotOneUnit | epics/src/socket_command.c:636-657 | the read buffer holds not one unit exactly if a decimated turn and the turn after it do not fit |
| MemoryCommand.ProcessMemoryCommand | epics/src/socket_command.c:675-706 | when each refusal happens, that a refusal sends no data, what the header of an answer says, and each value that follows |
| Sequencer.PassesExact | epics/src/sequencer.c:386-411 | points and time of n passes are n times those of one |
| Sequencer.ClosedForm | epics/src/sequencer.c:386-411 | point i of state k of pass n stands where the earlier points put it, with its frequency and time given outright |
| Sequencer.EveryPoint | epics/src/sequencer.c:386-411 | every point of the scale is one of those |
| Sequencer.ScaleEnd | epics/src/sequencer.c:413-416 | after the last point: the time of all passes, and the frequency after the last point captured in the last pass, or 0 if nothing was captured |
| Sequencer.WalksAreSums | epics/src/sequencer.c:386-411 | the walk over the states adds up how long each lasts and how many points it captures |
| Sequencer.TotalBound | epics/src/sequencer.c:382-419 | the number of points always fits 32 bits |
| Sequencer.WriteScalePoint | epics/src/sequencer.c:363-369 | only the arrays asked for are written, at the one index |
| Sequencer.SeqContext.WritePoints | epics/src/sequencer.c:396-406 | the points of a capturing state inside the window, and the frequency and time after them |
| Sequencer.SeqContext.WriteState | epics/src/sequencer.c:389-409 | a state adds its points or, if it captures nothing, only its time |
| Sequencer.SeqContext.ComputeScaleInfo | epics/src/sequencer.c:372-420 | any window of both scales, extended by the final values, and the whole number of points |
| Sequencer.SeqContext.UpdateCaptureCount | epics/src/sequencer.c:246-264 | the walk the other way gives the same count and duration modulo 2^32 |
| Sequencer.SeqContext.PrepareSequencer | epics/src/sequencer.c:427-437 | arming remembers the edited settings and their dirty flag |
| Sequencer.CountersAgree | epics/src/sequencer.c:246-420 | the scale has super count times the capture count of points, and ends at super count times the duration |
| Sequencer.ReadSamples | epics/src/socket_command.c:800-832 | each reader fills its buffer with its part of the readout |
| Sequencer.SendDetectorData | epics/src/socket_command.c:837-856 | the windows sent one after the other are the unwindowed readout, value by value |
| PllFifo.StepInv | epics/src/tune_pll_fifo.c:206-235 | hold-over always fits, a partial buffer is never full, a handed over buffer is the one last emitted and is full unless stopped or overrun |
| PllFifo.RunConserves | epics/src/tune_pll_fifo.c:56-177 | buffers handed over, then what is pending, are exactly the samples read since the last enable or reset, in every run |
| PllFifo.EnablingEmitsNothing | epics/src/tune_pll_fifo.c:149-159 | the first read after enabling is kept, even on an overrun |
| PllFifo.ReadyExact | epics/src/tune_pll_fifo.c:80-126 | when a ready event hands a buffer over, which samples it holds and why, and what is held over or kept |
| PllFifo.DisableExact | epics/src/tune_pll_fifo.c:173-177 | disabling always hands over one buffer, with as many samples as it holds |
| PllFifo.EnableResetExact | epics/src/tune_pll_fifo.c:149-169 | what enabling and resetting leave, and that nothing happens while disabled |
| PllFifo.DisablingLosesNothing | epics/src/tune_pll_fifo.c:173-177 | everything read is handed over exactly when the last samples still fit the buffer |
| PllFifo.DisablingIsSafe | epics/src/tune_pll_fifo.c:173-177 | whatever the last read finds, everything is handed over exactly when a full hardware FIFO still fits |
| PllFifo.HeldIsLost | epics/src/tune_pll_fifo.c:149-177 | what is held over at a disable is the end of the last read and is in no buffer before or after it |
| PllFifo.DisablingLosesOne | epics/src/tune_pll_fifo.c:173-177 | a run that loses a sample |
| PllFifo.ReadoutFifo.constructor | epics/src/tune_pll_fifo.c:184-203 | a FIFO starts disabled, empty and not handed over |
| PllFifo.ReadoutFifo.EnsureEpicsIdle | epics/src/tune_pll_fifo.c:56-65 | waits if EPICS is busy, and says so |
| PllFifo.ReadoutFifo.FillBuffer | epics/src/tune_pll_fifo.c:85-103 | the buffer is only written while EPICS is not reading it |
| PllFifo.ReadoutFifo.EmitBuffer | epics/src/tune_pll_fifo.c:115-125 | the buffer is handed over and the samples that did not fit move to the front of the read buffer |
| PllFifo.ReadoutFifo.ProcessFifoContent | epics/src/tune_pll_fifo.c:80-126 | the whole new state of a read, with the buffers updated in place |
| PllFifo.ReadoutFifo.EnableReadoutFifo | epics/src/tune_pll_fifo.c:149-159 | enabling clears, optionally flushes, and takes the first samples |
| PllFifo.ReadoutFifo.DisableReadoutFifo | epics/src/tune_pll_fifo.c:214-219 | disabling hands over what there is |
| PllFifo.ReadoutFifo.ResetReadoutFifo | epics/src/tune_pll_fifo.c:164-169 | resetting discards everything while enabled |
| PllFifo.ReadoutFifo.HandleFifoReady | epics/src/tune_pll_fifo.c:230-235 | a ready event is processed only while enabled |
| PllFifo.ReadoutFifo.ReadFifoBuffer | epics/src/tune_pll_fifo.c:238-244 | EPICS sees the buffer as it was handed over |
| RegisterDefs.LayoutTidy | python/mbf/parse/register_defs.py:462-485 | an entry takes up exactly its size from its address on; groups are filled by consecutive entries, union members share a base and the largest fills it, pairs share an address |
| RegisterDefs.ConsecutiveDisjoint | python/mbf/parse/register_defs.py:477-483 | entries of a group are disjoint and in order |
| RegisterDefs.ConsecutiveCovers | python/mbf/parse/register_defs.py:477-483 | every address of a group belongs to one of its entries |
| RegisterDefs.FileTidy | python/mbf/parse/register_defs.py:548-559 | so for every group of a file |
| RegisterDefs.ParseFieldDefs | python/mbf/parse/register_defs.py:302-311 | fields get the running offset unless they name their own |
| RegisterDefs.FieldExact | python/mbf/parse/register_defs.py:302-311 | each field in its place in the list, at its own offset or after the bits counted since the last offset named |
| RegisterDefs.FieldsDisjoint | python/mbf/parse/register_defs.py:302-311 | fields that leave their offsets to the parser are disjoint and in order |
| RegisterDefs.ParseRegDef | python/mbf/parse/register_defs.py:315-328 | accepted exactly with an access of its own or from its context, and an expected one |
| RegisterDefs.ParseRegPair | python/mbf/parse/register_defs.py:351-359 | exactly a read and a write register, at one address |
| RegisterDefs.ParseRegOverlay | python/mbf/parse/register_defs.py:363-377 | registers numbered within the overlay |
| RegisterDefs.ParseRegUnion | python/mbf/parse/register_defs.py:381-393 | all members at the same offset, the size that of the largest |
| RegisterDefs.ParseSharedName | python/mbf/parse/register_defs.py:411-430 | a known definition at the place of the reference; refused otherwise |
| RegisterDefs.ParseGroupEntry | python/mbf/parse/register_defs.py:437-455 | accepted exactly when well formed, with its size, and flattening to its layout wherever it is moved |
| RegisterDefs.ParseGroupDef | python/mbf/parse/register_defs.py:462-485 | so for the entries of a group, one after the other |
| RegisterDefs.ParseSharedDef | python/mbf/parse/register_defs.py:489-497 | the new definition stands for its source in the dictionary |
| RegisterDefs.WellFormedExactly | python/mbf/parse/register_defs.py:351-455 | an entry is well formed exactly if every entry in it is accepted on its own terms |
| RegisterDefs.FileExactly | python/mbf/parse/register_defs.py:548-559 | so is a file, line by line, with the definitions made before each |
| RegisterDefs.SourcesExact | python/mbf/parse/register_defs.py:489-497 | which names are known after some lines, and what they stand for |
| RegisterDefs.LayoutCorresponds | python/mbf/parse/register_defs.py:564-612 | the layout keeps names, access and fields of everything in the source |
| RegisterDefs.FileGroup | python/mbf/parse/register_defs.py:548-612 | each group of a file is in its place, starts at 0 and is what its line says |
| RegisterDefs.ParseDefs | python/mbf/parse/register_defs.py:548-612 | a file is accepted exactly when every line is well formed, and its flattened groups are the direct layout of the inlined definitions, in order throughout |
| RegisterDefs.SharedRegFlattens | python/mbf/parse/register_defs.py:582-589 | a shared register gives its fields before those added at the reference |
| RegisterDefs.SharedGroupFlattens | python/mbf/parse/register_defs.py:572-580 | a shared group is its definition moved to the place of the reference |
| RegisterDefs.SharedRegOnlyAtZero | python/mbf/parse/register_defs.py:582-589 | a register with a definition is relocated correctly only by nothing |
| Indent.ReadLines.NextLine | python/mbf/parse/indent.py:65-83 | classifies the next line and counts it; true comments are passed over |
| Indent.ReadLines.Fill | python/mbf/parse/indent.py:85-92 | the next visible line, taken or only looked at |
| Indent.ReadLines.Undo | python/mbf/parse/indent.py:100-101 | the line read last is the next one again, with its number |
| Indent.ParseComments | python/mbf/parse/indent.py:107-127 | documentation gathered at the right indentation; a blank line drops it |
| Indent.FindNewIndent | python/mbf/parse/indent.py:148-155 | the indentation of the next line that is not blank, which stays unread |
| Indent.ParseLine | python/mbf/parse/indent.py:130-145 | a line with its documentation, number and sub-lines, the end of the file, or failure |
| Indent.ParseSubLines | python/mbf/parse/indent.py:158-174 | the lines indented further, all alike; on every input it ends |
| Indent.ParseFile | python/mbf/parse/indent.py:177-178 | a whole file |
| Indent.RoundTrip | python/mbf/parse/indent.py:181-186 | parsing the rendering of any documented forest gives back trees, documentation and line numbers |
| Indent.LayoutDoesNotMatter | python/mbf/parse/indent.py:107-174 | texts with the same lines, blank ones aside that cut off no documentation, parse alike but for line numbers |
| Indent.InsertedLine | python/mbf/parse/indent.py:65-127 | a true comment inserted anywhere, or a blank line anywhere but after documentation, changes only line numbers |
| IndentGrammar.AcceptsExactly | python/mbf/parse/indent.py:107-178 | a text parses to a forest exactly if the grammar says so: where each line stands, its documentation being the comments after the last blank line before it |
| IndentGrammar.BlankDropsDocs | python/mbf/parse/indent.py:107-127 | in any rendering, blank lines between documentation and line take away the documentation of exactly these lines, and change numbers only besides |
| IndentGrammar.LostDocumentation | python/mbf/parse/indent.py:112-115 | one such text |
| IndentGrammar.LineKinds | python/mbf/parse/indent.py:65-83 | what each kind of line is read as, the true comments as nothing |
| IndentGrammar.OneOfTheseKinds | python/mbf/parse/indent.py:65-83 | every line is of one of these kinds |
| IndentGrammar.InsertedComment | python/mbf/parse/indent.py:65-83 | a true comment with any text may be put anywhere |
| IndentGrammar.RestIsIgnored | python/mbf/parse/indent.py:158-178 | what follows a line to the left of the first one is not looked at |
| IndentGrammar.NothingIgnored | python/mbf/parse/indent.py:158-178 | a file whose first line is not indented is read to its end |
| BufferedFile.LineExact | epics/src/buffered_file.c:93-133 | which line is found in data, what is left of it, and when there is an error or the end instead |
| BufferedFile.BlockExact | epics/src/buffered_file.c:138-153 | so for a block |
| BufferedFile.LinesRoundTrip | epics/src/buffered_file.c:93-133 | lines that fit come back one by one from their newline terminated text |
| BufferedFile.File.SendEntireBuffer | epics/src/buffered_file.c:48-60 | all of the data goes out, in order, and an error means that one of its own writes was refused |
| BufferedFile.File.FlushOutBuf | epics/src/buffered_file.c:65-70 | afterwards nothing is buffered; everything written was sent exactly if no write was refused |
| BufferedFile.File.FillInBuf | epics/src/buffered_file.c:74-86 | the next data, the end of input or an error; nothing once either was seen |
| BufferedFile.File.LineFromBuffer | epics/src/buffered_file.c:99-125 | what the buffered data says about the rest of a line: found, too long, or more needed |
| BufferedFile.File.ReadLine | epics/src/buffered_file.c:93-133 | the line, the overrun, the end or the error depend only on the data, not on how reads split it, and a write error means a refused write of its own flush; overrun exactly when length plus one reaches the size |
| BufferedFile.File.ReadBlock | epics/src/buffered_file.c:138-153 | the block or the failure depend only on the data, not on how reads split it |
| BufferedFile.File.WriteString | epics/src/buffered_file.c:158-175 | sent plus buffered is everything written, under any partial writes, and the buffer is never left full; fails exactly when one of its writes is refused |
| BufferedFile.File.WriteFormattedString | epics/src/buffered_file.c:178-213 | a text goes out whole or not at all; refused for its length exactly when it does not fit the whole buffer, and failed exactly when one of its writes is refused |
| BufferedFile.File.WriteBlock | epics/src/buffered_file.c:216-221 | a block follows everything written before it and is sent with it, exactly if no write is refused |
| BufferedFile.File.WriteChar | epics/src/buffered_file.c:226-235 | there is always room for one more character, unless a write is refused |
| PllFields.ReadBack | python/mbf/driver/config_pll.py:114-133 | reading a field after writing it gives the value cut to the width of the field, over any number of registers |
| PllFields.FieldReadsBack | python/mbf/driver/config_pll.py:114-133 | it reads back the value itself exactly when the value fits |
| PllFields.FieldKept | python/mbf/driver/config_pll.py:114-122 | fields that share no bit read as before |
| PllFields.BitWritten | python/mbf/driver/config_pll.py:114-122 | each bit of each part of a field is written to its own place in its register |
| PllFields.BitKept | python/mbf/driver/config_pll.py:114-122 | and no other bit of any register changes |
| PllFields.BitRead | python/mbf/driver/config_pll.py:125-133 | a field reads as these bits, in these places |
| PllFields.NothingAbove | python/mbf/driver/config_pll.py:125-133 | and as no others |
| PllFields.ComputeFields | python/mbf/driver/config_pll.py:24-42 | the parts in the order of writing, lowest first, and each part finding its own default at its own place in the whole |
| PllFields.PartsFitTogether | python/mbf/driver/config_pll.py:44-62 | a default put together from parts that fit is one that fits the field |
| PllFields.FieldWriter.constructor | python/mbf/driver/config_pll.py:44-62 | every field, and every part of it, at its own default if no two share a bit; the cached registers are exactly those of the table, and all wait to be written |
| PllFields.FieldWriter.WriteRegister | python/mbf/driver/config_pll.py:90-98 | live: hardware and cache; otherwise cache and dirty; registers that agreed or were dirty stay so |
| PllFields.FieldWriter.ReadRegister | python/mbf/driver/config_pll.py:101-110 | the value of the hardware or the cache; when a register not known before agrees with the hardware |
| PllFields.FieldWriter.WriteValue | python/mbf/driver/config_pll.py:114-122 | exactly the bits of the field change, and too large a value is reported |
| PllFields.FieldWriter.ReadValue | python/mbf/driver/config_pll.py:125-133 | the parts put together; no register reads differently afterwards |
| PllFields.FieldWriter.SetField | python/mbf/driver/config_pll.py:136-145 | by name, with unknown names refused |
| PllFields.FieldWriter.GetField | python/mbf/driver/config_pll.py:147-151 | by name, with unknown names refused |
| PllFields.FieldWriter.WriteFields | python/mbf/driver/config_pll.py:157-161 | every dirty register of the range is sent once, in ascending order, and then agrees with the hardware |
| PllFields.ReadUnknown | python/mbf/driver/config_pll.py:101-110 | a register that belongs to no field, read from the cache, neither waits to be written nor agrees with the hardware |
| PllFields.WritesAre | python/mbf/driver/config_pll.py:157-161 | one write for each register sent, in their order, with its address and value |
| PllFields.FieldWriter.FixedSetup | python/mbf/driver/config_pll.py:394-399 | four registers get their fixed values |
| PllFields.FixedNumbers | python/mbf/driver/config_pll.py:394-405 | the addresses and numbers of the fixed writes and of the reset |
| PllFields.FieldWriter.ProgramRegisters | python/mbf/driver/config_pll.py:411-417 | two ranges with the fixed registers between: every dirty register once, ascending within its range |
| PllFields.Settings.EnableWrite | python/mbf/driver/config_pll.py:376-379 | the main writer and every output switch together |
| PllFields.Settings.FlushOutputs | python/mbf/driver/config_pll.py:408-409 | the outputs are flushed one after the other, each in ascending order, and no writer gets out of step with the hardware |
| PllFields.Settings.WithCache | python/mbf/driver/config_pll.py:382-391 | a field changed in the cache is all that is sent when everything was flushed before, and no writer gets out of step |
| PllFields.Settings.WriteConfig | python/mbf/driver/config_pll.py:402-419 | the whole sequence of writes: reset, the outputs in turn, two ranges with the fixed registers between, and the cleared field, with the values sent; nothing stays dirty, and all cached registers of all writers agree with the hardware if their addresses are apart |
| BunchSelect.CountEnables | epics/src/bunch_select.c:89-100 | the number of enabled bunches, all of them without enables |
| BunchSelect.NextEnabledIndex | epics/src/bunch_select.c:104-117 | the first enabled bunch from the start on; the start is ignored without enables |
| BunchSelect.CountValue | epics/src/bunch_select.c:121-136 | how many enabled bunches have the value and which is the last that does not |
| BunchSelect.AssessComplexity | epics/src/bunch_select.c:148-188 | each summary is given exactly when it is true of the waveform, with its values; without enables the one missed case, exactly |
| BunchSelect.MissedWhen | epics/src/bunch_select.c:148-188 | that case in terms of the values: all but the first equal, and it different |
| BunchSelect.FirstOdd | epics/src/bunch_select.c:148-188 | one such waveform |
| BunchSelect.OneSummary | epics/src/bunch_select.c:139-146 | the meanings exclude each other, but for two bunches that differ |

## Left out

- The publication of states and values to EPICS, records, log messages and status strings: nothing in them decides anything.
- `dispatch_target_events`: its triggers and completions are steps of the runs, in any order.
- `pthread_cond_timedwait` is any return, early or late; a deadline that is not normalised would make it fail, and what that aborts is not modelled.
- Parsing of commands: requests arrive parsed, with the bounds the parser guarantees and the tune already in hardware units.
- Floating point: means are exact quotients, and the cosine and sine of a phase are not formed. Widths of the numbers sent are left out with it.
- Errors on the output side of the memory reply: the sender appends to a sequence; `BufferedFile` models the output on its own.
- Failed reads of the memory: the code sends whatever its buffer holds; the model says how many values of which format that is.
- MemoryCommand.DramOffset: the signed 32-bit product is taken to wrap in two's complement.
- MemoryDevice: bus addresses, cache synchronisation and the reset of the DMA engine; a transfer copies the device memory.
- Sequencer.SeqContext.ComputeScaleInfo: asks for a start no later than the total and an end below 2^32, as the detector readout does; beyond that the filling loop writes outside its arrays.
- Sequencer.SendDetectorData: asks for no more samples than the armed settings have; whether the remembered number is current is not modelled.
- Sequencer.TotalBound: capture counts are at most 2^16, the limit of the record that sets them (epics/Db/sequencer.py:24).
- The window, bank and gain settings of the sequencer, and the order of writes to its hardware.
- Detector rotation, tune fitting, tap computation and the rest of the numerical code.
- PllFifo: interrupts are events that may come at any time; the processing callback and what EPICS does with a buffer are not modelled.
- RegisterDefs: lines are already split into words, names are not checked for their spelling, and constants, which have no address, are left out. Nothing is claimed about fields with an explicit offset.
- Indent: warnings about discarded comments.
- BufferedFile.File.WriteFormattedString: formatting itself; the text is given. A write that takes nothing at all is left out, as the loop would not end.
- PllFields: integers are the sets of their one bits.
- PllFields.Settings.WriteConfig: the agreement of all writers with the hardware at the end asks that no two of them use one address, and that the registers of the cleared field are known.
- BunchSelect.AssessComplexity: the number of bunches is one number here; the code reads it from two configurations that agree.
- Registers, widths and defaults of the actual chip: the results hold for any table without shared bits.

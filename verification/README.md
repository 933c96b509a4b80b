# sdv-edge-gateway: a verified model of the gateway's queues, state machines and bit arithmetic

The gateway reads CAN frames, decodes them into signals, batches the signals into telemetry, executes remote
commands and installs firmware. This project models the parts of it that carry state or arithmetic and proves what
they guarantee over every input and every run. `dafny verify dfyconfig.toml` checks everything.

## How it is organised

| file | component |
|---|---|
| `SafeQueueing.dfy` | the thread-safe queue: its lock sections as a class; mutex, condition variable and threads as a machine of atomic steps |
| `FanOut.dfy` | the decode loop of `main` and the pipeline of reader, decoder and two consumers, interleaved |
| `BitFields.dfy`, `SignalDecoding.dfy`, `SignalMeaning.dfy` | bit extraction, sign extension, scaling, the DBC loader, and what a result says |
| `FieldPacking.dfy`, `CanInjection.dfy` | the inverse of decoding, and the injector's encoders with the error bound |
| `Sha256Check.dfy` | the digest loop and the hexadecimal comparison |
| `OtaAgency.dfy`, `OtaSafety.dfy`, `OtaOutcomes.dfy` | the OTA worker over three files, one write at a time, what it keeps, and when it succeeds |
| `Commands.dfy`, `Json.dfy`, `CommandHandling.dfy`, `CommandWire.dfy`, `RedeliveryGuard.dfy` | command parsing, routing, the way from JSON to the bus, and the bounded redelivery guard |
| `TelemetryTypes.dfy`, `TelemetryPublishing.dfy`, `TelemetryBatching.dfy`, `TelemetryTiming.dfy` | the accumulate-and-flush loop, its batches, and when it publishes what |
| `OtaDelivery.dfy` | from the command topic to the published statuses, across the guard, the OTA queue and the worker |
| `EndToEnd.dfy` | from CAN frames to published messages, across encoders, DBC, decoder, pipeline and publisher |
| `OfflineBuffering.dfy`, `BufferRefinement.dfy`, `BufferGuarantees.dfy` | the persistent table, the bounded queue it refines, and what its users can rely on |
| `Timestamps.dfy`, `TimestampReading.dfy` | the ISO 8601 sort key, its order and what it reads |
| `Arithmetic.dfy`, `Sequences.dfy`, `Wrappers.dfy` | powers of two, division, concatenation, options |

Classes carry the fields the C++ classes update in place. Each method is proved against a function of the old state;
the lemmas are about those functions, over whole runs. What the program does not decide - clocks, popped messages,
how far a copy or a download gets, which statement fails, which sleeper a notify wakes - is a parameter, and the
lemmas hold for all its values. SHA-256 is an arbitrary function from byte strings to byte strings.

## Where the code and its documentation differ

The model follows the code. The differences are stated as lemmas:

- An unsigned field decodes to a negative number exactly when it spans all 64 bits of a full frame whose last byte
  has its top bit set (`UnsignedIsMisreadIff`, `UnsignedMisreadFrame`).
- The result of `rollback()` is ignored and ROLLED_BACK is reported either way; after a failed rollback the next
  backup can overwrite the last good image (`FailedRollbackThenBackupLosesBoth`), though it need not
  (`FailedRollbackMayLoseNothing`). `ImagePreservedIff` says exactly which runs keep an image.
- The redelivery guard forgets everything when it is full: an id is forgotten as soon as its block of 200 has been
  left behind (`RedeliveryIsSuppressedIff`, `ExactlyOnceIff`, `TwoHundredthIsForgotten`).
- The guard compares ids only, and a command without a correlation id has the empty one: of two different commands
  without ids the second is dropped as a redelivery (`SecondAnonymousIsDropped`). `NothingIsSuppressedIff` says
  exactly which streams lose no command.
- The publisher tests how many numeric names it holds, not which. An unexpected name closes a batch as complete
  that is not (`UnexpectedNameClosesEarly`), and keeps a batch open that holds all five signals
  (`UnexpectedNameHoldsBack`). `SizeTestIsExactIff` says for which batches the test is right, `CompletenessIsToldIff`
  for which runs, and `ConfigurationIsSafeIff` for which configured names every run is.
- A message with an infinity or NaN is stored but never drained, and stays until it is acknowledged or evicted; a
  full page of such rows empties the drain (`UndecodableRowIsStuck`, `DrainIsEmptyIff`). A string is cut at a NUL
  (`MessageRoundTripIff`).
- The drive cycle is meant never to show DRIVE at standstill, and does so at one instant (`DriveAtStandstillIff`).
- String order is not always time order: before 1970 the milliseconds are printed with a sign
  (`BeforeTheEpochOrderFails`), and years from 10000 on have five digits (`AfterTheYear9999OrderFails`). It is from
  one millisecond before the epoch to the end of 9999, and over no longer range (`StringOrderHoldsOnIff`).
  A 64-bit clock in nanoseconds ends in 2262, so only the first failure can be met with it.

## Model

| member | source | states |
|---|---|---|
| SafeQueueing.SafeQueue.Push | include/common/safe_queue.hpp:17-23 | the item is appended and nothing else changes |
| SafeQueueing.SafeQueue.Pop | include/common/safe_queue.hpp:26-33 | once the wait returned: the oldest item leaves the queue, or the exception if the queue is empty after shutdown |
| SafeQueueing.SafeQueue.TryPop | include/common/safe_queue.hpp:36-42 | the oldest item leaves, or nothing changes on an empty queue |
| SafeQueueing.SafeQueue.PopFor | include/common/safe_queue.hpp:45-53 | as pop, with an empty result after a timeout or a shutdown |
| SafeQueueing.SafeQueue.Shutdown | include/common/safe_queue.hpp:56-60 | the flag is set and queued items stay |
| SafeQueueing.Perform | include/common/safe_queue.hpp:17-60 | the machine's steps are the lock sections of the class: performing one leaves the queue and flag the machine has, hands out what the machine records as taken, and ends the call exactly when the machine's thread is idle again |
| SafeQueueing.NoWakeupIsLost | include/common/safe_queue.hpp:17-60 | in every reachable state of any number of threads, with timeouts and spurious wakeups: if a consumer sleeps, queued items do not outnumber the notifies still pending plus the notified threads that have not rechecked; after shutdown nobody sleeps; items leave in the order in which they came |
| SafeQueueing.NeverStuck | include/common/safe_queue.hpp:22-29 | while a consumer sleeps in front of a queued item some pending notify or recheck is enabled |
| SafeQueueing.ConsumersAreServed | include/common/safe_queue.hpp:22-60 | from any reachable state, finishing what has begun takes at most two steps a thread, and when no such step is left no consumer sleeps in front of an item |
| SafeQueueing.CallsCanBegin | include/common/safe_queue.hpp:17-60 | an idle thread can begin any call at any time: a pop then reaches its check, try_pop and shutdown are over at once, and push still has to notify |
| SafeQueueing.CheckAnswers | include/common/safe_queue.hpp:26-53 | the check of a pop, whatever other threads did before it: the oldest item if one is queued then, else an empty return after a shutdown or its own timeout, else sleep |
| SafeQueueing.TimeoutStrikes | include/common/safe_queue.hpp:45-48 | the timeout of a sleeping pop_for can strike at any time, whatever other threads do |
| SafeQueueing.TimedPopReturns | include/common/safe_queue.hpp:45-53 | in any run, once its timeout has struck the next check of a pop_for ends it, with the oldest item exactly when one is queued at that check |
| SafeQueueing.TimesOutAlone | include/common/safe_queue.hpp:45-48 | a pop_for asleep on an empty queue, left alone, times out and returns empty-handed, nothing else changed |
| SafeQueueing.BlockingPopReturnsIff | include/common/safe_queue.hpp:26-33 | in every reachable state the check of a blocking pop ends it if and only if an item is queued or the queue was shut down |
| SafeQueueing.ShutdownReleases | include/common/safe_queue.hpp:56-60 | in any state reached after a shutdown every waiting thread, of either kind, can check at once and return |
| SafeQueueing.ClosedIff | include/common/safe_queue.hpp:56-60 | in every run the queue is shut down if and only if somebody has shut it down |
| SafeQueueing.SignalsComeFromPushes | include/common/safe_queue.hpp:17-23 | until a shutdown the wakeups under way never outnumber the items pushed |
| FanOut.PushToBoth | src/main.cpp:196-199 | every decoded signal is appended, in order, to both consumer queues |
| FanOut.DecodeLoop | src/main.cpp:185-200 | run by itself, the loop takes the oldest frames, one a round, and appends the concatenation of their decodes to both queues |
| FanOut.PipelineConservation | src/main.cpp:185-200 | in every reachable interleaving frames taken plus queued are the frames that arrived, signals consumed plus queued are the decodes of completed frames plus a prefix of the current one, and the anomaly log is the telemetry log short of at most one signal |
| FanOut.EveryFrameCanBeDecoded | src/main.cpp:185-200 | from every reachable state with the loop still running, its own steps can take it through all frames that arrived, after which both consumers have been sent all their signals |
| FanOut.AnyFramesCanBeDelivered | src/main.cpp:185-200 | whatever frames arrive, there is a run in which both consumers receive exactly their decodes, frame by frame in the order of arrival |
| SignalDecoding.ExtractionLoopIsSafe | src/can_layer/signal_decoder.cpp:98-111 | for every start bit, length and dlc up to 8: in each reached iteration the 8-bit position did not wrap, and unless the loop breaks there the byte read is inside the frame and the shift is at most 63 |
| SignalDecoding.ExtractRaw | src/can_layer/signal_decoder.cpp:95-111 | for every field and dlc the bit loop ends with (little-endian value of the bytes received / 2^start) mod 2^length |
| SignalDecoding.SignExtend | src/can_layer/signal_decoder.cpp:113-123 | or-ing the complement of the sign mask and converting to int64_t gives the two's complement value of a field of this length |
| SignalDecoding.DecodeSignal | src/can_layer/signal_decoder.cpp:95-136 | extraction, sign extension and scaling compose to raw * scale + offset of the field's integer value |
| SignalDecoding.SignalDecoder.Decode | src/can_layer/signal_decoder.cpp:84-140 | the results are exactly the loaded signals of this frame, each once, in any order, with their physical values; only the definitions with this frame's id need be defined in C++ |
| SignalDecoding.SignalDecoder.Load | src/can_layer/signal_decoder.cpp:10-82 | nothing changes when the file cannot be opened; otherwise the signals are the fold over the lines before the first whose numbers stoul or stod rejects, and the call throws if there is one; names not wanted are never converted |
| SignalDecoding.LoadCompletesIff | src/can_layer/signal_decoder.cpp:43-67 | a file loads to its end if and only if its message ids and the wanted start bits and lengths are below 2^64 and the wanted scales and offsets are numbers |
| SignalDecoding.LoadedLastDefinition | src/can_layer/signal_decoder.cpp:51-69 | a wanted name ends up with the numbers of its last signal line, start bit and length modulo 256, its sign and endianness flags, scale, offset and unit, in the message block open there |
| SignalDecoding.LoadedUntouched | src/can_layer/signal_decoder.cpp:54-57 | unwanted or unmentioned names keep the definition they had before the load |
| SignalDecoding.CurrentIdIsNearest | src/can_layer/signal_decoder.cpp:39-49 | a signal line belongs to the nearest message line above it, its id taken modulo 2^32 |
| FieldPacking.MultiFieldRoundTrip | src/can_layer/signal_decoder.cpp:98-123 | any pairwise disjoint fields inside a frame, packed in any order over any frame, decode to the values packed, signed or unsigned |
| FieldPacking.RewriteKeepsOthers | src/can_layer/signal_decoder.cpp:98-123 | rewriting some fields leaves the decoded value of every disjoint field unchanged |
| FieldPacking.WholeFieldIgnoresTail | src/can_layer/signal_decoder.cpp:98-111 | a field inside the received bytes is the field of all eight bytes |
| FieldPacking.TruncatedFieldHasZeroHighBits | src/can_layer/signal_decoder.cpp:104-106 | a field cut short by the dlc is the field of its present bits, its missing high bits zero |
| FieldPacking.SignedValueIsUnique | src/can_layer/signal_decoder.cpp:113-123 | the signed value is the one integer of [-2^(length-1), 2^(length-1)) congruent to the raw bits, and no other is |
| FieldPacking.UnsignedIsMisreadIff | src/can_layer/signal_decoder.cpp:98-127 | an unsigned field decodes to something other than its bits, and then to a negative number, if and only if it starts at bit 0 with length at least 64 in a frame of eight bytes whose last byte is at least 128 |
| FieldPacking.UnsignedMisreadFrame | src/can_layer/signal_decoder.cpp:125-127 | the frame whose only set bit is the last one, read as one unsigned 64-bit field, gives -2^63 |
| SignalMeaning.ResultsMean | src/can_layer/signal_decoder.cpp:84-140 | every result is a loaded signal of the frame with its unit, its value the number written in the field times the scale plus the offset, and every loaded signal of the frame has exactly one result |
| SignalMeaning.PhysicalRoundTrip | src/can_layer/signal_decoder.cpp:125-136 | physical values quantised by the inverse formula, packed into any disjoint fields and decoded, come back within one quantum |
| CanInjection.ToyotaDbcLayout | dbc/toyota_corolla.dbc:1-19 | loading the shipped DBC, headers and blank lines included, with the configured names throws nothing and gives exactly the five fields the encoders write |
| CanInjection.DriveCycle | tools/can_injector.py:39-58 | speed stays in [0, 60], rpm in [800, 2000], the gear is PARK or DRIVE, and in PARK the car stands and idles |
| CanInjection.DriveCycleIs | tools/can_injector.py:30-58 | in any cycle the speed is the trapezoid of 3 s at rest, 5 s up to 60 km/h, 5 s there and 5 s down, the rpm is 800 plus 20 a km/h, and the gear is park for 3 s, then drive |
| CanInjection.DriveAtStandstillIff | tools/can_injector.py:27-29 | DRIVE at speed 0 occurs exactly at the instant the parking phase ends |
| CanInjection.BuildEngineDataFrame | tools/can_injector.py:60-75 | the bytes written are those of packing speed, rpm and gear into their three disjoint fields of an empty frame |
| CanInjection.BuildCoolantFrame | tools/can_injector.py:77-80 | the bytes are those of packing the offset temperature modulo 256 |
| CanInjection.BuildBatteryFrame | tools/can_injector.py:82-85 | the bytes are those of packing tenths of a volt modulo 256 |
| CanInjection.DriveCycleRoundTrip | tools/can_injector.py:39-75 | at every instant decoding the encoded drive cycle gives the exact gear, speed within [s - 0.01, s] and rpm within [r - 0.25, r] |
| CanInjection.EngineRoundTripIff | tools/can_injector.py:60-75 | for any values: a speed comes back from below within 0.01 if and only if it lies in [0, 655.36), an rpm within 0.25 if and only if in [0, 16384), a gear exactly if and only if in [0, 256) |
| CanInjection.EncodersWrap | tools/can_injector.py:60-85 | what a field cannot hold wraps around: every raw value is the truncated quotient modulo the size of its field |
| CanInjection.CoolantRoundTrip | tools/can_injector.py:77-80 | a temperature comes back from below within one degree if and only if it lies in [-40, 216) |
| CanInjection.BatteryRoundTrip | tools/can_injector.py:82-85 | a voltage comes back from below within 0.1 V if and only if it lies in [0, 25.6) |
| Sha256Check.DigestFile | src/gateway/ota_agent.cpp:257-268 | for every file length the read loop ends and feeds the digest non-empty chunks of at most 64 KiB that join to exactly the file |
| Sha256Check.VerifySha256 | src/gateway/ota_agent.cpp:249-287 | accepts if and only if the file opens and the expected string is the hexadecimal form of its digest |
| Sha256Check.HexRoundTrip | src/gateway/ota_agent.cpp:270-277 | the string has two digits a byte and reading them, high digit first, gives the digest back |
| Sha256Check.HexInjective | src/gateway/ota_agent.cpp:270-277 | two digests with the same hexadecimal form are equal |
| Sha256Check.HexAlphabet | src/gateway/ota_agent.cpp:270-277 | only lower-case digits occur, so an upper-case digest is never accepted |
| OtaAgency.Disk.Copy | src/gateway/ota_agent.cpp:294-295 | copy_file as truncation and successive writes, recorded one by one, that may fail before the first or after any |
| OtaAgency.Disk.Receive | src/gateway/ota_agent.cpp:205-237 | the download truncates the firmware file and appends chunks, each recorded, whatever the outcome |
| OtaAgency.OtaAgent.BackupCurrent | src/gateway/ota_agent.cpp:291-304 | copies the installed image to the backup and reports whether the copy completed |
| OtaAgency.OtaAgent.Rollback | src/gateway/ota_agent.cpp:328-341 | copies the backup to the installed path and reports whether the copy completed |
| OtaAgency.OtaAgent.FlashFirmware | src/gateway/ota_agent.cpp:311-324 | copies the firmware; on failure rolls back at once and reports failure whatever the rollback did |
| OtaAgency.OtaAgent.VerifyAndInstall | src/gateway/ota_agent.cpp:139-167 | verification, backup, flash and rollback in this order: statuses, disk and every write in between |
| OtaAgency.OtaAgent.RunCommand | src/gateway/ota_agent.cpp:100-167 | one command appends its status word and its writes and leaves the disk as its verdict says |
| OtaAgency.OtaAgent.Run | src/gateway/ota_agent.cpp:93-168 | the worker loop does so for each command in turn |
| OtaSafety.ImagePreservedIff | src/gateway/ota_agent.cpp:139-167 | in any run of any length, provided the empty file is not itself an accepted image: after every single write the installed file or the backup is a complete image that is the initial firmware or passed verification, if and only if every command that reaches its backup finds a good installed image, or no installed file, or a backup that cannot be opened |
| OtaSafety.ImagePreserved | src/gateway/ota_agent.cpp:139-167 | the same by verdicts alone: it holds after every write until a failed rollback is followed by another backup, and up to the end of that command's download |
| OtaSafety.BackupIsSafeIff | src/gateway/ota_agent.cpp:291-304 | a backup keeps a good image at every write if and only if the installed image is good or the copy touches nothing |
| OtaSafety.FailedRollbackThenBackupLosesBoth | src/gateway/ota_agent.cpp:318-323 | a concrete run of two commands after which neither file is a good image |
| OtaSafety.FailedRollbackMayLoseNothing | src/gateway/ota_agent.cpp:318-323 | a concrete run whose flash and rollback cannot open their target: the installed image is untouched and the next backup is safe |
| OtaSafety.StatusTellsTheImage | src/gateway/ota_agent.cpp:106-167 | FAILED leaves the installed image as it was at every write, COMPLETE means it has the digest of the manifest, ROLLED_BACK means the old image if the rollback copy succeeded and an intact backup of it if not |
| OtaSafety.WordIsWellFormed | src/gateway/ota_agent.cpp:106-167 | the statuses of one command carry one correlation id, exactly one terminal status, last, and progress that does not fall before it |
| OtaSafety.StatusGrammar | src/gateway/ota_agent.cpp:95-167 | the status stream of any run is accepted by one fixed automaton and holds one terminal status per command |
| OtaOutcomes.OutcomeIs | src/gateway/ota_agent.cpp:93-168 | a command condition by condition, in the terms of its JSON and its environment: all its statuses with their texts and percentages, and the disk it leaves |
| OtaOutcomes.UpdateInstallsIff | src/gateway/ota_agent.cpp:139-167 | in any run, whatever happened before: COMPLETE if and only if manifest, preconditions, download, digest, backup and flash all go well, and then the received bytes are installed and the image they replaced is the backup; ROLLED_BACK if and only if only the flash does not complete; else FAILED |
| OtaOutcomes.TornCopyLeaves | src/gateway/ota_agent.cpp:291-341 | a copy that opened its target leaves a prefix of the source there, and one that fails can leave any prefix |
| OtaDelivery.TerminalsOfRun | src/gateway/ota_agent.cpp:93-168 | of any run the number of terminal statuses with an id is the number of commands with that id the worker executed |
| OtaDelivery.StatusesAreBounded | src/gateway/command_handler.cpp:126-141 | for any command stream and any worker that takes its commands from the OTA queue: at most ceil(k/200) terminal statuses for one id after k accepted commands |
| OtaDelivery.EachUpdateIsSettledOnce | src/gateway/command_handler.cpp:126-206 | if redeliveries are timely there is never a second terminal status for an id, and once the queue is empty there is one for exactly the ids whose first command was an OTA trigger |
| OtaDelivery.FewIdsAreTimely | src/gateway/command_handler.cpp:187-195 | with at most 200 distinct ids every redelivery is timely |
| CommandHandling.CommandHandler.AlreadySeen | src/gateway/command_handler.cpp:183-196 | true exactly for a remembered id, which is not re-marked; a new id is added after the set was emptied if it was full |
| CommandHandling.CommandHandler.Route | src/gateway/command_handler.cpp:200-226 | OTA commands are pushed to the OTA queue, known actuation commands attempt one CAN write, unknown ones do nothing, whether or not the write succeeds |
| CommandHandling.CommandHandler.Handle | src/gateway/command_handler.cpp:117-141 | one message advances the guard by the command in it, if any, and sends exactly the effects of what was accepted |
| CommandHandling.CommandHandler.Run | src/gateway/command_handler.cpp:103-142 | over all messages the effects sent are those of the commands the guard accepted, in order |
| CommandWire.ParsingMeans | src/gateway/command_handler.cpp:147-179 | JSON parses exactly when it is an object with a string type and no other correlation id than a string; the five types have the effects 0x300 to 0x303 and a push with the id and payload of the JSON |
| CommandWire.RunObeysTheWire | src/gateway/command_handler.cpp:103-226 | over any messages whose commands carry different ids, the CAN ids written and the updates pushed are those the JSON of the messages means, in order |
| RedeliveryGuard.DedupEpochs | src/gateway/command_handler.cpp:183-196 | after k acceptances the set is exactly the last ((k-1) mod 200)+1 accepted ids, and two acceptances of one id lie in different blocks of 200 |
| RedeliveryGuard.ExecutionBound | include/gateway/command_handler.hpp:87-95 | no id is executed more than ceil(k/200) times |
| RedeliveryGuard.RedeliveryIsSuppressedIff | src/gateway/command_handler.cpp:187-193 | a redelivery is suppressed if and only if the id's last acceptance lies in the same block of 200 as the latest acceptance |
| RedeliveryGuard.ExactlyOnce | src/gateway/command_handler.cpp:126-141 | while at most 200 distinct ids have appeared the guard accepts the keep-first stream and the effects are those of that stream |
| RedeliveryGuard.ExactlyOnceIff | src/gateway/command_handler.cpp:126-141 | for every stream: the guard accepts each id exactly once, in order of first arrival, if and only if each redelivery comes before its id's block of 200 distinct ids is left behind |
| RedeliveryGuard.NothingIsSuppressedIff | src/gateway/command_handler.cpp:134-141 | for every stream of well-formed commands: all of them are executed if and only if no id, the empty one included, recurs within its block of 200 or in the first command after it |
| RedeliveryGuard.SecondAnonymousIsDropped | src/gateway/command_handler.cpp:163-175 | two commands without a correlation id are both well-formed and, whatever their types, only the first is executed |
| RedeliveryGuard.MessageStreamExactlyOnce | src/gateway/command_handler.cpp:107-142 | diagnoses and malformed messages interleaved anywhere change neither the guard nor the effects, which within the capacity are those of the keep-first stream |
| RedeliveryGuard.UnknownTypesUseASlot | src/gateway/command_handler.cpp:166-170 | a command of an unknown type is remembered and counted as accepted, and adds no effect |
| RedeliveryGuard.DifferentTypesDiffer | src/can_layer/can_writer.cpp:19-27 | commands of different known types never have the same effect |
| RedeliveryGuard.ForgottenByTheNext | src/gateway/command_handler.cpp:191-194 | after 201 distinct ids a redelivery of any of the first 200 is executed again |
| RedeliveryGuard.TwoHundredthIsForgotten | include/gateway/command_handler.hpp:59-62 | a concrete stream in which the 200th engine start is executed twice |
| TelemetryPublishing.TelemetryPublisher.PublishNow | src/gateway/telemetry_publisher.cpp:160-243 | attempts the message of the accumulators, with 0.0 or "unknown" for what is missing, and resets accumulators and timer |
| TelemetryPublishing.TelemetryPublisher.Iteration | src/gateway/telemetry_publisher.cpp:106-153 | one iteration accumulates what was popped and publishes on completeness or on the timer, and only then |
| TelemetryPublishing.TelemetryPublisher.Run | src/gateway/telemetry_publisher.cpp:104-154 | the loop is the fold of its iterations |
| TelemetryBatching.TelemetryIsBatched | src/gateway/telemetry_publisher.cpp:112-151 | the publishes cut the consumed stream into consecutive non-empty batches; each message is the last-value-wins fold of its batch; a batch is complete exactly when it holds all five signals, and closes at the first signal that makes it so |
| TelemetryBatching.TelemetryIsCut | src/gateway/telemetry_publisher.cpp:112-151 | for any names at all: the publishes cut the consumed stream into consecutive non-empty last-value-wins batches; a batch counted complete holds all five signals if and only if its names are configured, and all five are held back exactly when they mislead the size test |
| TelemetryBatching.SizeTestIsExactIff | src/gateway/telemetry_publisher.cpp:125-126 | for any names: the size test says whether all five signals are in, unless a gear is in, some name is unexpected, and there are four numeric names or the expected four are among them; exactly then it is wrong |
| TelemetryBatching.CompletenessIsToldIff | src/gateway/telemetry_publisher.cpp:112-151 | a run reports completeness truly, and never holds back all five signals, if and only if none of its batches and not what it holds misleads the size test |
| TelemetryBatching.ConfigurationIsSafeIff | src/main.cpp:73 | every run over a set of configured names reports completeness truly if and only if it has only expected names, or no gear, or at most four names |
| TelemetryBatching.AllSignalsMeansAllFive | src/gateway/telemetry_publisher.cpp:125-126 | with configured names only, four numeric names and a gear are exactly the five signals |
| TelemetryBatching.UnexpectedNameClosesEarly | src/gateway/telemetry_publisher.cpp:121-126 | with any sixth name a run exists in which a batch closes as complete without a battery voltage, reported as 0.0 |
| TelemetryBatching.UnexpectedNameHoldsBack | src/gateway/telemetry_publisher.cpp:121-126 | with any sixth name a run exists in which all five signals are in and nothing is published |
| TelemetryBatching.RateAndLatency | src/gateway/telemetry_publisher.cpp:126-151 | five signals per complete publish plus one per other never exceed the signals consumed; five seconds per other publish never exceed the time run; after every iteration nothing is held back or the timer is under five seconds |
| TelemetryTiming.PublishesExactly | src/gateway/telemetry_publisher.cpp:104-154 | for any names and any clock, each iteration publishes exactly when a gear and four numeric names wait, or something waits and five seconds have passed since the clock was last set; the batch is all that waited |
| TelemetryTiming.MessagesSay | src/gateway/telemetry_publisher.cpp:160-182 | every message of every run, field by field: the value of the last signal with the field's DBC name or 0.0, and the gear label P, R, N, D or unknown of the last gear value |
| EndToEnd.FiveSignalsMakeOneBatch | src/gateway/telemetry_publisher.cpp:112-151 | five different signals arriving within five seconds, in any order, under any monotone clock and with any timeouts in between, make exactly one publish, which is complete |
| EndToEnd.EveryDecodedSignalIsBatched | src/main.cpp:185-200 | in every interleaving and for any clock, what the publisher has published and holds and what is queued for it are, in order and with nothing lost or repeated, the decodes of the completed frames and a prefix of the current one; each message is the last-value-wins fold of its non-empty part |
| EndToEnd.InjectedFramesArePublished | tools/can_injector.py:39-85 | the injector's three frames of any instant, decoded in any order with what loading the shipped DBC gives and consumed within five seconds, give one complete message with the drive cycle's gear and every number from below within one quantum |
| OfflineBuffering.MessageRoundTripIff | src/gateway/offline_buffer.cpp:65-119 | a message comes back unchanged, but for milliseconds and the from_buffer flag, if and only if its numbers are finite and its strings NUL-free |
| OfflineBuffering.WhatComesBack | src/gateway/offline_buffer.cpp:65-119 | a stored message decodes if and only if its numbers are finite, and then has all its numbers, its strings up to their first NUL, and its time cut to whole milliseconds toward the epoch |
| OfflineBuffering.OfflineBuffer.Open | src/gateway/offline_buffer.cpp:26-52 | fails if the file does not open or the schema cannot be created; in the second case the database stays open |
| OfflineBuffering.OfflineBuffer.PendingCount | src/gateway/offline_buffer.cpp:236-252 | the number of unsent rows, or 0 when the database is closed or the query fails |
| OfflineBuffering.OfflineBuffer.StoreMessage | src/gateway/offline_buffer.cpp:125-166 | evicts the oldest unsent row when full and inserts under the next id, for any combination of failing statements |
| OfflineBuffering.OfflineBuffer.Drain | src/gateway/offline_buffer.cpp:170-204 | the decodable rows among the oldest unsent ones up to the limit, none if the query fails, and those before the failure if the cursor fails on the way; the table stays as it was |
| OfflineBuffering.OfflineBuffer.MarkSent | src/gateway/offline_buffer.cpp:208-232 | marks the row with this id, if any, and reports success either way |
| BufferRefinement.BufferRefinesQueue | src/gateway/offline_buffer.cpp:125-252 | from any table, under any interleaving of calls, ids and failures, the table implements a simple bounded queue with acknowledgement |
| BufferRefinement.ObservationsAgree | src/gateway/offline_buffer.cpp:170-252 | after any run the pending count and a drain with any size_t limit, also one that becomes negative, show what the queue shows |
| BufferRefinement.EveryIdIsAccountedFor | src/gateway/offline_buffer.cpp:256-265 | every id the table started with or gave out is exactly one of pending, acknowledged and evicted, and no other id is any of them, so ids are never reused |
| BufferRefinement.OnlyTheOldestIsEvicted | src/gateway/offline_buffer.cpp:128-136 | an id is evicted only by a store and only while it is the smallest pending id |
| BufferRefinement.DrainReturnsTheOldest | src/gateway/offline_buffer.cpp:174-200 | drain gives the decodable ones of the oldest min(limit, pending) rows in strictly increasing id order, and that many results if and only if all of them decode |
| BufferRefinement.FaultyDrainIsAPrefix | src/gateway/offline_buffer.cpp:190-203 | a drain that fails on the way returns the first results of the one that does not |
| BufferRefinement.UndecodableRowIsStuck | src/gateway/offline_buffer.cpp:190-200 | under any run a pending row that does not decode stays pending until its id is acknowledged or evicted, and no drain returns it |
| BufferRefinement.DrainIsEmptyIff | src/gateway/offline_buffer.cpp:174-203 | a drain is empty if and only if none of the oldest min(limit, pending) rows decodes, however many rows are pending |
| BufferRefinement.StoreBound | src/gateway/offline_buffer.cpp:128-136 | a store leaves at most max(previous pending, max_rows, 1) rows pending |
| BufferRefinement.CapacityIsKept | src/gateway/offline_buffer.cpp:128-136 | the ceiling max(1, max_rows) is kept over every run that starts within it |
| BufferGuarantees.EvictsIff | src/gateway/offline_buffer.cpp:128-136 | a step evicts exactly when it is a store that counts max_rows items or more, or fails to count under a ceiling of 0, and its delete works on a queue that has an item |
| BufferGuarantees.NothingLostWithinCapacity | src/gateway/offline_buffer.cpp:125-166 | while pending rows and stores together do not exceed max_rows nothing is evicted, and what was pending is pending or acknowledged |
| BufferGuarantees.AcknowledgedStaysGone | src/gateway/offline_buffer.cpp:208-232 | after a mark_sent of an id that was given out no drain of any later state returns the id |
| BufferGuarantees.StoredComesBackIff | src/gateway/offline_buffer.cpp:125-204 | a stored message comes back from a drain of any later state, changed only in flag and fraction of milliseconds, if and only if its id was neither marked as sent nor evicted since |
| Timestamps.GmtimeIsPosixInverse | include/common/timestamp.hpp:24-26 | broken-down time is valid and the POSIX.1-2017 section 4.16 formula takes it back to the instant |
| Timestamps.FieldOrderIsTimeOrder | include/common/timestamp.hpp:29-32 | valid printed fields in lexicographic order denote instants in time order |
| Timestamps.PaddedOrder | include/common/timestamp.hpp:29 | zero-padded numbers of one width are ordered as strings as they are as numbers |
| Timestamps.StringOrderIsTimeOrder | include/common/timestamp.hpp:19-34 | from 1970 to the end of 9999 the strings are ordered exactly as the instants at millisecond resolution, and equal only for the same millisecond |
| TimestampReading.TimestampSaysTheInstant | include/common/timestamp.hpp:19-34 | from 1970 to the end of 9999 the 24 characters, read by themselves, are a date and a time of day, months counted from 1, that lie exactly the given number of milliseconds after the epoch |
| TimestampReading.SecondBeforeTheEpoch | include/common/timestamp.hpp:24-32 | from the year 0 to the epoch the date and time of day are those of the second nearer to the epoch |
| TimestampReading.MillisBeforeTheEpoch | include/common/timestamp.hpp:23-32 | and the rest of the string is the missing milliseconds with a minus sign, or 000Z |
| Timestamps.BeforeTheEpochOrderFails | include/common/timestamp.hpp:23-32 | two instants just before 1970 whose strings are in the wrong order |
| Timestamps.AfterTheYear9999OrderFails | include/common/timestamp.hpp:29-32 | the first instant of the year 10000 has a lesser string than the last millisecond of 9999 |
| Timestamps.StringOrderHoldsOnIff | include/common/timestamp.hpp:19-34 | over a range of milliseconds around the epoch string order is time order if and only if the range begins no earlier than -1 and ends before the year 10000 |

## Left out

- Sockets, MQTT, TLS, curl, SQLite and OpenSSL internals: they are success or failure around the state they change.
- JSON, DBC and database text: records stand for parsed JSON, and DBC lines come already classified, as what the regular expressions match and whether `stod` accepts the scale and offset.
- Floating-point rounding and non-finite doubles outside the offline buffer: values are reals.
- `check_preconditions` beyond a boolean: its speed and battery checks are not written yet, so nothing is claimed about OTA while moving. A throwing `std::filesystem::space` or `remove`, which would end the worker, is not modelled.
- A/B slots, firmware signatures and token authentication: described in the documents, not in the code.
- Motorola fields: the flag is loaded but decoding never reads it, so every field is decoded as little-endian.
- SignalDecoding.SignalDecoder.Decode: requires a length of 1 to 64 for the signed fields of the frame's id, because outside it the sign-bit shift is undefined in C++; the time stamp of a result is left out.
- SignalDecoding.SignalDecoder.Load: `unsigned long`, which `stoul` returns, has 64 bits, as on the Linux targets of the gateway.
- SignalDecoding.ExtractRaw: requires a dlc of at most 8, which is what SocketCAN delivers.
- TelemetryPublishing.GearCodeToString: a code outside the range of int, where the C++ conversion is undefined, counts as unknown.
- TelemetryBatching.TelemetryIsBatched: for the five configured names, which are what the publisher is written for; `TelemetryIsCut` is what remains for any other name.
- TelemetryBatching.RateAndLatency: the samples of the steady clock do not decrease, which is what that clock guarantees.
- OfflineBuffering.MessageRoundTripIff: numbers are reals or one non-finite value, so the rounding of rapidjson's number text is not modelled.
- BufferRefinement.DrainReturnsTheOldest: at most 2^63-1 rows are pending, more than there are row ids to give out.
- BufferRefinement.DrainIsEmptyIff: the same bound on pending rows.
- Timestamps.Gmtime: `gmtime_r` is not part of the repository; it is modelled by counting years and months and tied to the POSIX formula.
- SafeQueueing.SafeQueue.Pop: the class has no threads, so its wait is the precondition; waiting itself is in the machine, where a lock section is one atomic step.
- FanOut.DecodeLoop: nothing else runs during the loop; interleaving is in the pipeline machine, whose frames have a decoding that C++ defines, which starts no threads and does not model the order in which modules are stopped.
- OtaAgency.OtaAgent.Run: the three paths are distinct, no other process writes to them, and the loop is given the commands it pops.
- The anomaly detector, the model training, the CAN reader and writer beyond the command-to-id table, the cloud scripts and the simulators.
- Replay of the offline buffer into telemetry: it is not wired up, so the buffer is proved for arbitrary callers.

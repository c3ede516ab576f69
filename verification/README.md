# Voice messaging over Meshtastic: a verified model

This project models how voicetastic-core sends a voice message over a LoRa mesh, and proves what its code promises. The
message is captured and encoded in a stream, cut into framed DATA and PARITY chunks, paced out through a small radio
queue, retransmitted when the receiver reports losses, and decoded with concealment when chunks stay missing.

| file | what it models |
|---|---|
| `Words.dfy`, `Bits.dfy` | bytes, results, rounding division, chunking, bitwise operators, big-endian words |
| `Outgoing.dfy`, `Rounds.dfy` | the sender-side retransmit registry, and how many rounds one registration can serve |
| `Pipeline.dfy`, `PipelineSafety.dfy`, `PipelineGuarantees.dfy`, `PipelineProgress.dfy`, `PipelineRequests.dfy`, `PipelineDrain.dfy`, `PipelineTerminals.dfy`, `PipelineCompletion.dfy`, `PipelineShipping.dfy`, `PipelineRetries.dfy`, `PipelineRuns.dfy`, `SenderTables.dfy` | the sender's concurrent tasks as a transition system, its invariants, its guarantees, what is reported and when the burst stops, where retransmitted chunks come from, what `Complete` has waited for, how many terminal statuses a send emits, what `Complete` can leave behind and what of that is still sent, when retries suffice, the runs on which its documentation is wrong, and the shared tables behind it all |
| `VoiceTx.dfy`, `Driver.dfy` | the sans-IO transmit machine and the documented driver loop |
| `Header.dfy`, `Nack.dfy`, `Builder.dfy`, `SendPrep.dfy` | the wire format, the chunker, the FEC policy, and a burst end to end |
| `Resampler.dfy`, `ResamplerStream.dfy`, `Pcm.dfy`, `Encoder.dfy`, `EncoderRuns.dfy` | the streaming capture path |
| `Frames.dfy`, `Decode.dfy`, `DecodeGuarantees.dfy`, `DecodedSamples.dfy` | walking encoded payloads, concealing gaps, estimating durations, and every sample that is decoded and played |
| `Serial.dfy` | framing on the serial port |

`dafny verify dfyconfig.toml` checks everything.

## How the model reads the code

- **The pipeline** is one message id's share of the sender's state. A step is one critical section under a lock, one status
  emission, or one awaited result, so every sequence of enabled steps is an interleaving of the burst task, the NACK listener,
  the deferred wake-ups, the retransmit tasks and garbage collection. `SenderTables.TablesFollow` relates the shares of many sends to
  the tables they really share. Two emissions are joined to the critical section next
  to them: `Sending` and `BurstComplete` to the release of the frame they report, and `Failed` to the awaited failure. Time is
  a natural number of nanoseconds that only moves forward. `History` is written by the steps and read by none of them.
- **Classes** follow the structs whose fields the code updates in place. Each method is proved equal to a function of the old
  state, and the theorems are about those functions.
- **Parameters** stand for code outside the model: the SHA-256 tag (a function of the bytes covered), the Reed-Solomon coder (a
  possible refusal, and parity bytes computed from the data shards), the codecs (functions of everything they have been fed),
  the filter coefficients, random bytes, clock readings, reported queue depths, how late each sleep returns, and which writes to the radio fail. The codec2
  library's frame sizes are taken to be those of the table in `codec/mod.rs`.
- **Samples** are exact reals, and the resampler's cursor an exact fraction.

## Where the code and its documentation differ

For each difference a reachable state or an input on which the documentation fails is proved, and the exact condition, over
what can be looked up beforehand.

- `sender.rs:146-148` promises exactly one terminal status. Only `Complete` claims the active entry before it is emitted;
  `GaveUp` and `Failed` are emitted first. `TwoTerminals` reaches `GaveUp` and `Complete` from one send. `RemovalDecides` gives the
  exact condition in the state whose next step removes the active entry, as every finished send has had one (`SomeoneRemoved`):
  after run_send's claim or its failure exactly one status was emitted if and only if no give-up was then under way, and
  after the listener's give-up if and only if run_send has not announced, and an enqueue then awaited does not bring on, a
  `Failed`. `SecondTerminalIff` tells at each emission, of `GaveUp`, `Failed` and `Complete`, whether another went before.
  `TerminalCount` counts them in a finished send.
- `sender.rs:264-270` says that no retransmit is still enqueueing when `Complete` is seen. `CompleteDuringRetransmit` is a run
  on which one is announced and started afterwards, though the drain read a zero count. The exact conditions are over the
  state that emits `Complete`, however the drain ended, and over every continuation in which the retain TTL stays as it is. A
  retransmit is scheduled or in flight in one of them if and only if a retransmit task is live, the listener is about to
  count one, or it works on a round that its take or defer guard, TTL included, lets through (`RetransmitAfterCompleteIff`); in
  every other state nothing at all is spawned, announced or enqueued afterwards (`QuietAfterComplete`). A frame is still enqueued in
  one of them if and only if a task or the listener holds a plan that has not failed, or a round, in a task's hands, the listener's or
  the stash, can be taken before the entry expires (`ShipsAfterCompleteIff`): a task that only releases or ends, or one whose
  round comes too late, enqueues nothing.
  If `set_retain_ttl` may be called as well, the guard's TTL test drops out of the first two (their second form).
- `sender.rs:71-80` takes the linger's default from the retain TTL's so that chunks stay available for all of it. The entry is
  registered before the burst, so it has expired by the end of the linger (`LingerOutlastsTtl`), and whenever the burst took time,
  earlier (`DefaultsExpire`). A message can be served up to the end of its linger if and only if the TTL is longer than
  the linger (`KeptThroughLingerIff`).
- `sender.rs:701-708` retries so that a round is not lost. When the NACK arrives one can tell: with at most one wake-up about, the
  round is never dropped (`RoundKept`); with two it can be (`RoundDropped`).
- `outgoing.rs:144-149` says that each fresher NACK replaces an older one. A wake-up that re-defers can put an older list
  over a newer one that is still waiting (`StaleStashIff`, `StaleStashOverwrites`).
- `outgoing.rs:98-105` says that the round budget never gives up first. It can, exactly when the retain TTL is 2400 s or more
  (`BudgetReachable`, whose proof builds the run).
- `imp.rs:433-435` counts a frame as hit because part of its bytes are padding. A gap of no bytes strictly inside a frame hits
  it too (`OverlapExactly`, `EmptyGapHits`). Only a direct caller of `decode_with_gaps` can pass one: `finalize.rs:61-66`
  records whole chunks.
- `serial.rs:258-268` skips false starts and scans on for the real frame. A frame survives what stands before it exactly when
  that alone leaves nothing unfinished (`FrameSurvivesIff`); for console output without `0xc3`, exactly when it ends in an even
  run of `0x94` (`ConsoleTokens`, `NoiseThenFrame`). The writer accepts an empty payload, which the reader skips (`WrittenIsReadIff`).

Two further results are about the code alone, as no documentation promises otherwise. When only the padded last frame of an
AMR-NB capture is refused, `finish` (`imp.rs:343-354`) logs that and succeeds without it: `CaptureOutcome` gives every case, and
`TailDropped` is a capture with nothing else in it.

The resampler's documentation promises only that the filter state is continuous, and its test streams at 6 to 1, where the
output is indeed the same for every split. `SeamlessIff` settles all ratios: the end of a push holds the last filtered sample
where the code would otherwise interpolate, so the output is independent of the split exactly when the output rate divides the
input rate.

## Model

| member | source | states |
|---|---|---|
| `Outgoing.OutgoingVoiceRegistry.Register` | crates/voicetastic-core/src/voice/outgoing.rs:232-276 | the new message is retained with every DATA index pending and no round served; every other entry stays unless it has outlived the TTL |
| `Outgoing.OutgoingVoiceRegistry.PruneExpired` | crates/voicetastic-core/src/voice/outgoing.rs:312-317 | exactly the entries that have outlived the TTL go |
| `Outgoing.OutgoingVoiceRegistry.MarkChunkSent` | crates/voicetastic-core/src/voice/outgoing.rs:286-291 | only that chunk of that message leaves the pending set |
| `Outgoing.OutgoingVoiceRegistry.TakeRetransmit` | crates/voicetastic-core/src/voice/outgoing.rs:342-398 | the answer and the whole registry after it, refusals included |
| `Outgoing.OutgoingVoiceRegistry.DeferNack` | crates/voicetastic-core/src/voice/outgoing.rs:411-437 | which of the four outcomes, and what is stashed |
| `Outgoing.OutgoingVoiceRegistry.TakeDeferred` | crates/voicetastic-core/src/voice/outgoing.rs:442-447 | the stash is handed over and cleared together with its flag |
| `Outgoing.OutgoingVoiceRegistry.SetRetainTtl` | crates/voicetastic-core/src/voice/outgoing.rs:206-209 | whole seconds, at least one |
| `Outgoing.OutgoingVoiceRegistry.DataCount` | crates/voicetastic-core/src/voice/outgoing.rs:323-325 | the number of DATA chunks of a retained message, none for any other |
| `Outgoing.FramesForPlan` | crates/voicetastic-core/src/voice/outgoing.rs:165-178 | a plan carries, with its own frame, exactly each requested chunk in range and not pending |
| `Outgoing.PlanMultiplicity` | crates/voicetastic-core/src/voice/outgoing.rs:165-178 | a chunk is planned as often as it was requested, if it was eligible, and otherwise not at all |
| `Outgoing.TakeRetransmitCooldown` | crates/voicetastic-core/src/voice/outgoing.rs:378-396 | a served round closes the entry for as long as its frames take at the pacing, but at least 1 s and at most min(30 s, TTL), and only from an open one |
| `Outgoing.TakeRetransmitRound` | crates/voicetastic-core/src/voice/outgoing.rs:366-377 | a duplicate-free request adds exactly the planned chunks to the pending set, none of them pending before |
| `Rounds.RoundsBounded` | crates/voicetastic-core/src/voice/outgoing.rs:342-398 | over every run of registry calls a registration with a TTL of T seconds serves at most T rounds, and at most 2400 |
| `Rounds.HandedBounded` | crates/voicetastic-core/src/voice/outgoing.rs:342-398 | duplicate-free requests are handed at most rounds times `total_data` frames |
| `Rounds.ServedAsRegistered` | crates/voicetastic-core/src/voice/outgoing.rs:232-276 | over every run, a chunk served was asked for, comes with the frame it was registered with, and was marked as sent before |
| `Rounds.BudgetReachable` | crates/voicetastic-core/src/voice/outgoing.rs:98-105 | some run meets the round budget if and only if the TTL is at least 2400 s |
| `Rounds.RegisteredBudget` | crates/voicetastic-core/src/voice/outgoing.rs:232-276 | the same for a message as it is registered |
| `SenderTables.VoiceSenderTables.InflightInc` | crates/voicetastic-core/src/voice/sender.rs:551-557 | one more for this message, the same for every other |
| `SenderTables.VoiceSenderTables.InflightDec` | crates/voicetastic-core/src/voice/sender.rs:560-572 | one less for this message, never below zero, and a drained message leaves the table |
| `SenderTables.RowsCount` | crates/voicetastic-core/src/voice/sender.rs:560-572 | no step of any message leaves a row at zero |
| `SenderTables.VoiceSenderTables.InflightCount` | crates/voicetastic-core/src/voice/sender.rs:576-582 | the count, which is zero exactly for a message without a row |
| `SenderTables.VoiceSenderTables.RemoveActive` | crates/voicetastic-core/src/voice/sender.rs:534-537 | the caller claims the removal exactly when the entry was there |
| `SenderTables.VoiceSenderTables.Cleanup` | crates/voicetastic-core/src/voice/sender.rs:544-547 | the active entry and the retained frames go, in-flight counts and other messages stay |
| `SenderTables.StepProjects` | crates/voicetastic-core/src/voice/sender.rs:528-582 | each step of the pipeline for one message does to the shared tables what it does to that message's flag and count, and nothing to another message's |
| `SenderTables.TablesFollow` | crates/voicetastic-core/src/voice/sender.rs:528-582 | however any number of sends interleave, each finds its own flag and count in the tables |
| `PipelineSafety.InvKept` | crates/voicetastic-core/src/voice/sender.rs:423-547 | every step of every task keeps the eight invariants |
| `PipelineSafety.Always` | crates/voicetastic-core/src/voice/sender.rs:423-547 | they hold in every state some interleaving reaches |
| `PipelineGuarantees.NoDoubleQueueing` | crates/voicetastic-core/src/voice/sender.rs:868-904 | what the burst, the listener and the retransmit tasks still hold is pairwise disjoint and repeats nothing |
| `PipelineGuarantees.PendingIsHeld` | crates/voicetastic-core/src/voice/outgoing.rs:366-377 | a chunk is pending if and only if one of them holds it |
| `PipelineGuarantees.PendingDrains` | crates/voicetastic-core/src/voice/sender.rs:889-899 | once the burst is out and every task has ended nothing is pending, failed enqueues included |
| `PipelineGuarantees.StashHasItsWakeup` | crates/voicetastic-core/src/voice/outgoing.rs:411-437 | a deferred list, its flag and exactly one wake-up, due within 30 s, exist together |
| `PipelineGuarantees.WakeupConsumesLastStash` | crates/voicetastic-core/src/voice/sender.rs:937-939 | the wake-up takes the list of the last defer and leaves neither list nor flag |
| `PipelineGuarantees.ListenerStashIsFresher` | crates/voicetastic-core/src/voice/sender.rs:737-767 | the listener only ever stashes a strictly newer round |
| `PipelineGuarantees.StaleStashIff` | crates/voicetastic-core/src/voice/sender.rs:948-971 | when a wake-up replaces a waiting list by an older one |
| `PipelineRuns.StaleStashOverwrites` | crates/voicetastic-core/src/voice/outgoing.rs:144-149 | a reachable state in which it does |
| `PipelineRetries.DroppedRoundIff` | crates/voicetastic-core/src/voice/sender.rs:708-777 | the step that `RoundKept` rules out: the third deferral, finding the cooldown of a retained entry over |
| `PipelineRetries.RoundKept` | crates/voicetastic-core/src/voice/sender.rs:701-777 | a round accepted while at most one wake-up is about is never dropped, in any continuation |
| `PipelineRuns.RoundDropped` | crates/voicetastic-core/src/voice/sender.rs:701-708 | with two wake-ups about, a run loses the very round accepted |
| `PipelineGuarantees.DroppedRoundHadRivals` | crates/voicetastic-core/src/voice/sender.rs:701-777 | a round is dropped only after two rounds of stalled wake-ups and two seconds |
| `PipelineGuarantees.InflightExact` | crates/voicetastic-core/src/voice/sender.rs:805-863 | the count is the number of live retransmit tasks, zero exactly when all have ended, and never saturates |
| `PipelineGuarantees.RearmNeverTouchesZero` | crates/voicetastic-core/src/voice/sender.rs:957-971 | a wake-up that re-defers keeps the count above zero throughout |
| `PipelineGuarantees.ZeroReadMeans` | crates/voicetastic-core/src/voice/sender.rs:509-526 | at the moment of a zero read every retransmit task has ended, and with an idle listener nothing is pending or deferred |
| `PipelineProgress.ProgressInOrder` | crates/voicetastic-core/src/voice/sender.rs:449-496 | the burst is reported frame by frame, each once and in order as far as it is out, and `BurstComplete` only after the last |
| `PipelineProgress.GiveUpStopsBurst` | crates/voicetastic-core/src/voice/sender.rs:453-461 | once the active entry is gone no continuation hands over another frame of the burst, but the one being awaited |
| `PipelineProgress.SleepsThrough` | crates/voicetastic-core/src/voice/sender.rs:919-927 | a wake-up sleeps until 10 ms past the cooldown it was scheduled for, whatever else happens |
| `PipelineProgress.ShippedIsAnnounced` | crates/voicetastic-core/src/voice/sender.rs:826-863 | a frame is enqueued again only as one of a list already announced with `Retransmitting`, in its order |
| `PipelineProgress.ListenerFinishes` | crates/voicetastic-core/src/voice/sender.rs:701-800 | one NACK holds the listener up for at most eight of its own steps, whatever the others do in between |
| `PipelineRequests.OnlyRequestedChunks` | crates/voicetastic-core/src/voice/sender.rs:690-800 | over every run, an announced retransmit consists of DATA chunks that one of the NACKs so far asked for |
| `PipelineRequests.RoundServesRequest` | crates/voicetastic-core/src/voice/sender.rs:701-777 | whenever the listener takes an accepted round, retries included, the plan is exactly the requested chunks in range not on their way, and a deferral stashes the whole request |
| `PipelineRequests.ArmsForCooldown` | crates/voicetastic-core/src/voice/sender.rs:741-760 | the wake-up of a deferral is scheduled for the end of the cooldown that caused it, whatever happens before it is spawned |
| `PipelineRequests.RearmsForCooldown` | crates/voicetastic-core/src/voice/sender.rs:957-971 | and so is that of a wake-up that defers again |
| `PipelineDrain.LingerEndsIff` | crates/voicetastic-core/src/voice/sender.rs:498-501 | run_send leaves its linger if and only if the linger has passed since the last frame was handed over |
| `PipelineDrain.DrainEndsIff` | crates/voicetastic-core/src/voice/sender.rs:503-526 | it leaves the drain at a reading of the count if and only if every retransmit task has ended, and at a reading of the clock if and only if 45 s have passed since the linger was over |
| `PipelineDrain.CompleteFollowsDrain` | crates/voicetastic-core/src/voice/sender.rs:503-537 | in the run before every `Complete` stands a step that left the drain with every retransmit task ended, or no earlier than the linger and 45 s after registration |
| `PipelineDrain.TimedOutNoEarlier` | crates/voicetastic-core/src/voice/sender.rs:509-518 | a drain recorded as timed out has lasted that long |
| `PipelineCompletion.RetransmitAfterCompleteIff` | crates/voicetastic-core/src/voice/sender.rs:264-270 | from the state that emits `Complete` some continuation without a TTL change has a retransmit scheduled or in flight if and only if a task is live, the listener is about to count one, or its round's take or defer guard, TTL included, lets it through; over all continuations, the same without the TTL test |
| `PipelineCompletion.QuietAfterComplete` | crates/voicetastic-core/src/voice/sender.rs:503-537 | otherwise no continuation spawns, announces or enqueues anything |
| `PipelineShipping.ShipsAfterCompleteIff` | crates/voicetastic-core/src/voice/sender.rs:264-270 | from there some continuation without a TTL change enqueues a retransmitted frame if and only if a plan is held, or a round can be taken, directly or through its wake-up, after the cooldown and before the entry expires |
| `PipelineCompletion.LingerOutlastsTtl` | crates/voicetastic-core/src/voice/sender.rs:71-80 | with a TTL no longer than the linger, every entry still retained after the linger has expired, and no request is served any more |
| `PipelineCompletion.PruneTakesIff` | crates/voicetastic-core/src/voice/outgoing.rs:312-317 | in the pipeline, garbage collection takes the entry if and only if it has reached the TTL at the clock reading made |
| `PipelineRuns.KeptThroughLingerIff` | crates/voicetastic-core/src/voice/sender.rs:71-80 | some run reaches the end of the linger with an entry that has not expired if and only if the TTL is longer than the linger |
| `PipelineRuns.DefaultsExpire` | crates/voicetastic-core/src/voice/sender.rs:71-80 | with the two defaults, a NACK that arrives before the linger is over and is refused for the TTL |
| `PipelineRuns.CompleteDuringRetransmit` | crates/voicetastic-core/src/voice/sender.rs:264-270 | `Complete` followed by a retransmit's announcement, after a zero read |
| `PipelineGuarantees.CompleteOnce` | crates/voicetastic-core/src/voice/sender.rs:528-537 | at most one `Complete`, only from the step that removed the active entry, after the drain; when that ends is `PipelineDrain.DrainEndsIff` and `PipelineDrain.CompleteFollowsDrain` |
| `PipelineGuarantees.NoCompleteAfterRemoval` | crates/voicetastic-core/src/voice/sender.rs:482-490 | after a give-up or a failure has removed the entry no continuation emits `Complete` |
| `PipelineGuarantees.TerminalCount` | crates/voicetastic-core/src/voice/sender.rs:146-148 | a finished send has emitted one terminal status plus one per lost race; never more than two |
| `PipelineGuarantees.SecondTerminalIff` | crates/voicetastic-core/src/voice/sender.rs:482-490 | for each emission, of `GaveUp`, `Failed` and `Complete`, and for the claim before `Complete`: in which states another terminal status has gone before |
| `PipelineTerminals.RemovalDecides` | crates/voicetastic-core/src/voice/sender.rs:528-547 | from the state whose next step removes the active entry: in which cases every finished continuation has emitted exactly one terminal status, and in which two |
| `PipelineTerminals.SomeoneRemoved` | crates/voicetastic-core/src/voice/sender.rs:528-547 | every finished send has had its active entry removed by one of those steps |
| `PipelineRuns.TwoTerminals` | crates/voicetastic-core/src/voice/sender.rs:692-698 | a finished send that emitted both `GaveUp` and `Complete` |
| `PipelineGuarantees.QuietIsClean` | crates/voicetastic-core/src/voice/sender.rs:534-547 | a finished send leaves no active entry, no retained frames and a zero count |
| `VoiceTx.VoiceTx.NextAction` | crates/voicetastic-core/src/voice/tx_state.rs:146-190 | the action and the whole new state: past pacing a frame goes out if and only if more than two slots are free or the queue has been full for two seconds, and otherwise the call waits 60 ms |
| `VoiceTx.NextDecides` | crates/voicetastic-core/src/voice/tx_policy.rs:11-40 | the same of the state function, in numbers |
| `VoiceTx.VoiceTx.FramesRemaining` | crates/voicetastic-core/src/voice/tx_state.rs:193-195 | the length of the queue, which the driver reports when it ends |
| `VoiceTx.EmittedThenQueued` | crates/voicetastic-core/src/voice/tx_state.rs:177-189 | for every clock and every depths, what was emitted followed by what is queued is the burst |
| `VoiceTx.SendsAreSpaced` | crates/voicetastic-core/src/voice/tx_policy.rs:30-35 | any two sends are at least `pacing` apart |
| `VoiceTx.ValveOpensAfterTwoSeconds` | crates/voicetastic-core/src/voice/tx_state.rs:161-171 | a send without room comes only after at least two seconds in which every call got past pacing and saw no room |
| `Driver.BurstCalls` | crates/voicetastic-core/src/voice/tx_state.rs:21-36 | whatever is reported and however late sleeps return, n frames are out after 36 n - 1 calls |
| `Driver.BurstCallsTight` | crates/voicetastic-core/src/voice/tx_state.rs:21-36 | when there is never room, after exactly that many |
| `Driver.BurstTime` | crates/voicetastic-core/src/voice/tx_state.rs:56-61 | with punctual sleeps, within (n - 1) pacing + n 2040 ms, and exactly that when there is never room |
| `Driver.BurstOpen` | crates/voicetastic-core/src/voice/tx_state.rs:56-61 | when more than two slots are always free and sleeps are punctual, n frames are out at exactly (n - 1) pacing, after 2 n - 1 calls |
| `Driver.DriveBurst` | crates/voicetastic-core/src/voice/tx_state.rs:21-36 | while writes succeed every frame is written once and in order, each DATA chunk marked once and no parity frame, nothing pending at the end; a failed write leaves a prefix written, its DATA chunks marked, and the rest pending |
| `Header.Verify` | crates/voicetastic-proto/src/mac.rs:38-53 | or-ing the differences accepts exactly the matching tag |
| `Header.ChunkHeader.WriteLogical` | crates/voicetastic-proto/src/header.rs:33-43 | the twelve logical bytes are written and the last four left alone |
| `Header.ChunkHeader.Serialize` | crates/voicetastic-proto/src/header.rs:47-53 | the wire form: logical bytes, then their tag |
| `Header.WireLayout` | crates/voicetastic-proto/src/header.rs:33-53 | the header byte by byte: version 3, type and flag bits, the id high byte first, and the tag of the first twelve bytes |
| `Header.WireFields` | crates/voicetastic-proto/src/header.rs:33-43 | the other six bytes, codec numbers included |
| `Header.CodecNames` | crates/voicetastic-proto/src/types.rs:40-69 | a known codec comes back as itself, an unknown byte as itself unless it has a name |
| `Header.RefusedBytes` | crates/voicetastic-proto/src/header.rs:57-82 | which lengths, versions and flag bytes are refused, and with what |
| `Header.RefusedFields` | crates/voicetastic-proto/src/header.rs:83-123 | which fields of a serialised header are refused, with what, and in which order |
| `Header.RefusedTag` | crates/voicetastic-proto/src/header.rs:124-126 | a well-formed header under another tag is refused for that |
| `Header.FlagsInjective` | crates/voicetastic-proto/src/header.rs:73-83 | a flags byte that passes the masks is the one its type and flag write |
| `Header.ParseOfWire` | crates/voicetastic-proto/src/header.rs:57-141 | a serialised header is accepted if and only if it is well formed and its body fits, and then comes back with the body and a canonical codec |
| `Header.WireOfParse` | crates/voicetastic-proto/src/header.rs:57-141 | every accepted byte string is the serialisation of what it parses to |
| `Header.ParseInjective` | crates/voicetastic-proto/src/header.rs:57-141 | no two byte strings parse alike |
| `Header.PeekAgrees` | crates/voicetastic-proto/src/header.rs:152-158 | the peek finds the id of every frame the parser accepts |
| `Header.PeekReads` | crates/voicetastic-proto/src/header.rs:152-158 | the peek in full |
| `Nack.BuildNack` | crates/voicetastic-core/src/voice/nack.rs:11-49 | a NACK header, and a bitmap whose bits are exactly the in-range requested chunks, padding clear |
| `Nack.ParseNackBody` | crates/voicetastic-core/src/voice/nack.rs:63-88 | the scanning loop computes the specified result, errors included |
| `Nack.RequestedExact` | crates/voicetastic-core/src/voice/nack.rs:72-79 | the list read is strictly increasing and holds exactly the indices whose bits are set |
| `Nack.NackOutcome` | crates/voicetastic-core/src/voice/nack.rs:63-88 | which bodies are refused and with what, and which chunks and flag the others ask for, bit by bit |
| `Nack.NackRoundTrip` | crates/voicetastic-core/src/voice/nack.rs:11-88 | for every list, with repeats and out-of-range entries, the increasing list of its in-range members, the give-up flag and the header fields arrive; the frame parses if and only if its header is legal |
| `Builder.BuildMessage` | crates/voicetastic-proto/src/builder.rs:59-165 | success exactly on the accepted domain, otherwise the first limit broken |
| `Builder.BuildOutcome` | crates/voicetastic-proto/src/builder.rs:59-88 | which messages are built and why the others are refused, in numbers, the first limit broken first |
| `Builder.FrameParses` | crates/voicetastic-proto/src/builder.rs:116-158 | every frame fits the radio and parses back to exactly its header, index and last-frame flag included, and to its body, whose length is the chunk size except for the last DATA body |
| `Builder.ParityBody` | crates/voicetastic-proto/src/builder.rs:105-115 | each byte of a parity body is the coder's, over the chunks padded with zeros |
| `Builder.AnyArrivalReassembles` | crates/voicetastic-proto/src/builder.rs:92-103 | frames arriving in any order, any number of times, put the audio back together once every DATA frame has come |
| `Words.ChunksShape` | crates/voicetastic-proto/src/builder.rs:94-103 | the chunks number len/size rounded up, only the last is short, and they concatenate to the input |
| `SendPrep.ResolveFits` | crates/voicetastic-core/src/settings/api.rs:356-389 | the parity never breaks a coder limit, and on every sendable message only the sum limit can cut the percentage short |
| `SendPrep.ModesProtect` | crates/voicetastic-core/src/settings/api.rs:356-389 | what share of the chunks each mode protects, rounded up as far as 256 shards allow, automatic mode by destination and range |
| `SendPrep.PrepareOutcome` | crates/voicetastic-core/src/voice/send_prep.rs:51-90 | apart from the random bytes and the coder, success exactly for payloads of 1 to 255 chunks, and which error otherwise |
| `SendPrep.PreparedHeaders` | crates/voicetastic-core/src/voice/send_prep.rs:51-90 | the id handed to the caller is the random one, never zero, and the id in every frame; codec, parameter, stream number and last-frame flag are those asked for |
| `SendPrep.ChunkSizeFor` | crates/voicetastic-proto/src/types.rs:116-128 | every preset's chunk size is within what the chunker accepts |
| `SendPrep.PreparedInOrder` | crates/voicetastic-core/src/voice/send_prep.rs:75-89 | each frame's `u8` index is its position |
| `SendPrep.SendPrepared` | crates/voicetastic-core/src/voice/tx_state.rs:21-36 | the same for a prepared burst, registered and driven at its preset's pacing |
| `SendPrep.PreparedTime` | crates/voicetastic-proto/src/types.rs:101-133 | any preparable burst on any preset is out within 255 gaps of 3 s and 256 stalls of 2.04 s |
| `SendPrep.PresetBurst` | crates/voicetastic-proto/src/types.rs:101-133 | for each preset, how many chunks a payload makes and how long its burst takes while there is room, in bytes and milliseconds |
| `SendPrep.BurstCarriesPayload` | crates/voicetastic-core/src/voice/send_prep.rs:51-90 | a receiver that hears every DATA frame of it, in any order, has the payload |
| `Resampler.FirEval` | crates/voicetastic-core/src/codec/resampler.rs:61-68 | the filter sum at one input position |
| `Resampler.Resampler.Push` | crates/voicetastic-core/src/codec/resampler.rs:102-158 | the samples appended and the new cursor and history, in exact arithmetic |
| `Resampler.PushInterpolates` | crates/voicetastic-core/src/codec/resampler.rs:116-157 | each output is the mean of the samples on both sides weighted by nearness, and so between them; past the last sample of a push the signal is held |
| `ResamplerStream.FeedInStep` | crates/voicetastic-core/src/codec/resampler.rs:102-158 | in exact arithmetic, for every split the cursor stays within one step of the input and the history is the last 62 inputs after silence |
| `ResamplerStream.OutputCount` | crates/voicetastic-core/src/codec/resampler.rs:119-133 | in exact arithmetic, for every split, N samples in give N dst / src out, rounded up |
| `ResamplerStream.FeedDecimates` | crates/voicetastic-core/src/codec/resampler.rs:109-144 | at a whole ratio output k is the filter over the whole capture at sample k src / dst |
| `ResamplerStream.ImpulseResponse` | crates/voicetastic-core/src/codec/resampler.rs:61-68 | a unit sample is answered, p - t samples later, by tap p - t |
| `ResamplerStream.SmoothMixed` | crates/voicetastic-core/src/codec/resampler.rs:61-68 | the filter is linear, so that response is all there is to it |
| `ResamplerStream.SeamlessIff` | crates/voicetastic-core/src/codec/resampler.rs:116-157 | in exact arithmetic the output is the same for all splits if and only if the output rate divides the input rate |
| `Pcm.Quantise` | crates/voicetastic-core/src/codec/imp.rs:206-208 | clamped, and truncated toward zero |
| `Encoder.EncState.Push` | crates/voicetastic-core/src/codec/imp.rs:195-277 | frames drained, bytes collected, and where an error stops |
| `Encoder.EncState.Finish` | crates/voicetastic-core/src/codec/imp.rs:279-363 | the padded last frame, and what each codec does when it is refused |
| `EncoderRuns.CaptureIgnoresSplits` | crates/voicetastic-core/src/codec/imp.rs:195-363 | frames, payload and errors of a capture depend only on its samples |
| `EncoderRuns.CaptureOutcome` | crates/voicetastic-core/src/codec/imp.rs:195-363 | for every codec and split the payload is the answers to the frames of the whole signal, with the exact error cases |
| `EncoderRuns.CaptureStores` | crates/voicetastic-core/src/codec/imp.rs:195-363 | the same in terms of the library's own answers: what is stored of each and how, which answers are refused, and what comes of it |
| `EncoderRuns.FrameSample` | crates/voicetastic-core/src/codec/imp.rs:195-341 | each sample of each frame: the signal cut every 960, 160 or mode-many samples, quantised, then silence |
| `EncoderRuns.SignalSample` | crates/voicetastic-core/src/codec/imp.rs:195-277 | each sample of the signal: the capture's own for Opus, every sixth filtered one otherwise |
| `EncoderRuns.FormatOutcome` | crates/voicetastic-core/src/codec/imp.rs:140-193 | which codecs and modes a capture can use, with which frame sizes, and the errors otherwise |
| `EncoderRuns.TailDropped` | crates/voicetastic-core/src/codec/imp.rs:343-354 | a capture with one frame that finishes with an empty payload |
| `EncoderRuns.FrameCount` | crates/voicetastic-core/src/codec/imp.rs:195-363 | ceil(ceil(N/6)/samples per frame) frames, or ceil(N/960) for Opus |
| `EncoderRuns.FrameShape` | crates/voicetastic-core/src/codec/imp.rs:279-341 | the frames concatenate to the signal and only the last is padded |
| `EncoderRuns.OpusReadsBack` | crates/voicetastic-core/src/codec/imp.rs:209-213 | the stream written is read back packet for packet with nothing remaining |
| `EncoderRuns.Codec2Captures` | crates/voicetastic-core/src/codec/mod.rs:148-154 | a capture never fails, and its estimated duration is that of its frames |
| `EncoderRuns.AmrnbCaptures` | crates/voicetastic-core/src/codec/imp.rs:237-275 | a capture answered in its own mode keeps 20 ms and 160 decoded samples a frame whatever is lost of it (960 played, in exact arithmetic) |
| `Frames.AmrnbFrames.Next` | crates/voicetastic-core/src/codec/frames.rs:85-98 | the next whole frame, or no move |
| `Frames.OpusPackets.Next` | crates/voicetastic-core/src/codec/frames.rs:133-146 | the next whole packet, or no move |
| `Frames.AmrnbRates` | crates/voicetastic-core/src/codec/frames.rs:26-51 | frame sizes from the bit rates of the eight modes, and of SID and NO_DATA |
| `Frames.Codec2Rates` | crates/voicetastic-core/src/codec/mod.rs:118-131 | frame sizes and durations from the bit rates of the six modes |
| `Frames.TocFields` | crates/voicetastic-core/src/codec/frames.rs:6-16 | where the frame type stands in the header byte |
| `Frames.CollectAmrnb` | crates/voicetastic-core/src/codec/frames.rs:68-98 | iterating to the end terminates with the frames of the walk and what it leaves |
| `Frames.CollectOpus` | crates/voicetastic-core/src/codec/frames.rs:115-146 | the same for Opus packets |
| `Frames.AmrnbWalkCovers` | crates/voicetastic-core/src/codec/frames.rs:85-98 | for any bytes, the prefix consumed is the frames yielded, each self-described, and the walk stops only where no whole frame starts |
| `Frames.AmrnbWalkFinds` | crates/voicetastic-core/src/codec/frames.rs:85-98 | self-described frames come back one by one, whatever follows them |
| `Frames.OpusWalkCovers` | crates/voicetastic-core/src/codec/frames.rs:133-146 | for any bytes, the prefix consumed is the framed packets yielded |
| `Frames.OpusWalkFinds` | crates/voicetastic-core/src/codec/frames.rs:133-146 | a framed list of packets comes back as that list |
| `Decode.OverlapExactly` | crates/voicetastic-core/src/codec/imp.rs:436-439 | a frame overlaps exactly when it shares a byte with a gap or strictly contains an empty one |
| `Decode.EmptyGapHits` | crates/voicetastic-core/src/codec/imp.rs:436-439 | a frame that overlaps a gap without sharing a byte with it |
| `Decode.DecodeAmrnb` | crates/voicetastic-core/src/codec/imp.rs:509-579 | both walks, their errors, and the upsampled result |
| `Decode.DecodeCodec2` | crates/voicetastic-core/src/codec/imp.rs:466-503 | silence for frames that touch a gap, decoded samples for the others |
| `Decode.PlaybackLength` | crates/voicetastic-core/src/codec/imp.rs:568-578 | in exact arithmetic, six samples are played for each one decoded |
| `Decode.PayloadDurationMs` | crates/voicetastic-core/src/codec/mod.rs:139-161 | the estimate of each codec, the Opus loop included |
| `DecodeGuarantees.GapBytesAreNeverHeard` | crates/voicetastic-core/src/codec/imp.rs:402-417 | whatever stands inside the gaps, the clip decoded is that of the original bytes with the same gaps |
| `DecodeGuarantees.WalksAgree` | crates/voicetastic-core/src/codec/imp.rs:514-566 | on a single-mode clip both walks see the encoder's frames; with gaps each is fed unchanged, or as NO_DATA if a gap hits it |
| `DecodeGuarantees.AmrnbEstimateIsExact` | crates/voicetastic-core/src/codec/mod.rs:173-195 | for any bytes and gaps, a successful decode has exactly 8 samples at 8 kHz for each millisecond estimated (48 played, in exact arithmetic) |
| `DecodeGuarantees.Codec2EstimateIsExact` | crates/voicetastic-core/src/codec/mod.rs:148-154 | the same for Codec2 in every mode |
| `DecodeGuarantees.OpusEstimate` | crates/voicetastic-core/src/codec/mod.rs:141-147 | the estimate of a written Opus stream: the samples of its packets at 48 a millisecond, 20 ms a packet that says so or cannot be read |
| `DecodeGuarantees.PacketSamplesAdd` | crates/voicetastic-core/src/codec/mod.rs:141-147 | the samples of two stretches of a stream add up |
| `DecodeGuarantees.OnePacket` | crates/voicetastic-core/src/codec/mod.rs:141-147 | a packet without a readable header counts as 960 samples |
| `DecodeGuarantees.OtherEstimates` | crates/voicetastic-core/src/codec/mod.rs:139-195 | the estimates for unknown codecs and modes, and of AMR-NB without a decode |
| `DecodeGuarantees.Codec2Blocks` | crates/voicetastic-core/src/codec/imp.rs:482-491 | sample j of block k of a Codec2 clip is silence if a gap touches frame k, and otherwise the decoder's answer to the untouched frames of the original so far |
| `DecodeGuarantees.LossKeepsTiming` | crates/voicetastic-core/src/codec/imp.rs:543-566 | losing chunks changes neither the 160 decoded samples a frame nor the duration estimate of a single-mode clip (nor, in exact arithmetic, the 960 played) |
| `DecodedSamples.AmrnbSamples` | crates/voicetastic-core/src/codec/imp.rs:514-566 | for any AMR-NB payload and gaps, sample j of frame k is the decoder's answer to the frames fed up to that one |
| `DecodedSamples.ConcealedSamples` | crates/voicetastic-core/src/codec/imp.rs:543-566 | the same for a single-mode clip with losses: the encoder's frames, NO_DATA for those hit |
| `DecodedSamples.AmrnbOutcome` | crates/voicetastic-core/src/codec/imp.rs:514-548 | which AMR-NB payloads are decoded |
| `DecodedSamples.AmrnbRefused` | crates/voicetastic-core/src/codec/imp.rs:531-541 | with which error a payload is refused that breaks off after some frames |
| `DecodedSamples.AmrnbPlayed` | crates/voicetastic-core/src/codec/imp.rs:509-579 | every sixth sample played is one the decoder answered with |
| `DecodedSamples.Codec2Played` | crates/voicetastic-core/src/codec/imp.rs:466-503 | the same for Codec2, silence where a gap hits, and an error for an unknown mode |
| `DecodedSamples.PlaybackExact` | crates/voicetastic-core/src/codec/imp.rs:568-578 | in exact arithmetic, what is played of each decoded sample: six on the straight line to the next, each cut off toward zero |
| `DecodedSamples.PlaybackKeepsSamples` | crates/voicetastic-core/src/codec/imp.rs:568-578 | so decoded samples are played as they are, and those in between lie between them |
| `Serial.WriteToRadio` | crates/voicetastic-core/src/meshtastic/serial.rs:106-119 | the framed bytes, or a refusal above 512 |
| `Serial.FramedLayout` | crates/voicetastic-core/src/meshtastic/serial.rs:106-119 | the frame byte by byte |
| `Serial.Reader.ReadTurn` | crates/voicetastic-core/src/meshtastic/serial.rs:246-304 | a turn that scans on has consumed at least one byte and lost no frame |
| `Serial.Reader.ReadFrame` | crates/voicetastic-core/src/meshtastic/serial.rs:242-305 | the next payload and what is left to read |
| `Serial.HeaderRead` | crates/voicetastic-core/src/meshtastic/serial.rs:270-304 | which lengths are skipped and how many bytes the others take |
| `Serial.TokensRead` | crates/voicetastic-core/src/meshtastic/serial.rs:242-305 | written frames interleaved with any resynchronisation tokens are read back exactly, in order |
| `Serial.TokensCover` | crates/voicetastic-core/src/meshtastic/serial.rs:242-305 | every byte stream is read as exactly the messages among its tokens |
| `Serial.WrittenIsReadIff` | crates/voicetastic-core/src/meshtastic/serial.rs:290-293 | a written payload is read back if and only if it is not empty |
| `Serial.FrameSurvivesIff` | crates/voicetastic-core/src/meshtastic/serial.rs:242-305 | after any bytes whatever a frame is read as itself if and only if those bytes alone leave nothing unfinished |
| `Serial.ConsoleTokens` | crates/voicetastic-core/src/meshtastic/serial.rs:252-269 | without a `0xc3` they leave nothing unfinished if and only if they end in an even run of `0x94` |
| `Serial.NoiseThenFrame` | crates/voicetastic-core/src/meshtastic/serial.rs:252-269 | a frame after console output free of `0xc3` is read if and only if the output ends in an even run of `0x94` |

## Left out

- The receive-side `VoiceAssembler`: reassembly appears only as the specification `Builder.Reassembled`.
- Reed-Solomon arithmetic, SHA-256, `pkc.rs`, and the insides of the Opus, AMR-NB, Codec2 and RNNoise libraries: parameters here.
- Floating-point rounding: the resampler, quantisation and playback are exact. The filter coefficients are arbitrary.
- Reuse of a message id, re-registration of a live one, and lagged broadcast events: a run of the pipeline follows one registration.
- The sender being dropped while tasks run, and a closed retransmit semaphore: neither happens in a run of the pipeline.
- The retain TTL is read in the same step as the lock is taken, where the code loads the atomic just before.
- Native worker internals in `voice_tx.rs`: its backpressure differs from `VoiceTx`, and no equivalence is claimed.
- The table in `opus_packet_samples_48k` (section 3.1 of RFC 6716): a parameter of the duration estimate.
- `SettingsApi` persistence, `ids.rs`, `reconnect.rs`, `assembler/config.rs`, the GUI, the CLI and the bindings: they would add only easy members.
- Outgoing.OutgoingVoiceRegistry.Register: keeps no `parity_count`, `channel` or `dest`, which no modelled operation reads.
- Resampler.PushInterpolates: interpolates exact reals.
- ResamplerStream.SmoothMixed: sums exact reals, where `f32` sums are not linear.
- ResamplerStream.ImpulseResponse: sums exact reals.
- DecodedSamples.PlaybackExact: plays through the exact resampler.
- DecodedSamples.PlaybackKeepsSamples: plays through the exact resampler.
- DecodedSamples.AmrnbPlayed: plays through the exact resampler.
- DecodedSamples.Codec2Played: plays through the exact resampler.
- EncoderRuns.FrameSample: cuts and quantises exact reals.
- EncoderRuns.SignalSample: filters exact reals.
- Resampler.FirEval: sums exact reals where the code sums `f32`.
- Resampler.Resampler.Push: has an exact cursor and exact samples. The code's `f64` cursor adds a rounded ratio, which is exact at
  whole ratios such as the capture path's 6 to 1; at 1 to 6 six additions of the rounded ratio fall just short of one, so a
  160-sample push upsampled by the code can give 961 samples.
- ResamplerStream.FeedInStep: supposes the exact cursor.
- ResamplerStream.OutputCount: supposes the exact cursor; the code's can add a sample at ratios that are not whole.
- ResamplerStream.SeamlessIff: decides the question in exact arithmetic.
- Pcm.Quantise: takes exact reals; rounding and NaN are outside it.
- Encoder.EncState.Push: takes exact reals.
- Encoder.EncState.Finish: takes exact reals.
- Decode.PlaybackLength: supposes the exact cursor, and so does every count at 48 kHz below; the counts at 8 kHz do not.
- Decode.DecodeCodec2: plays through the exact resampler; `Decode.Codec2Decoded` is what it decodes at 8 kHz.
- DecodeGuarantees.AmrnbEstimateIsExact: its clause at 48 kHz supposes the exact cursor.
- DecodeGuarantees.Codec2EstimateIsExact: its clause at 48 kHz supposes the exact cursor.
- DecodeGuarantees.LossKeepsTiming: its clause at 48 kHz supposes the exact cursor.
- Serial.WriteToRadio: has no write timeout.
- Serial.Reader.ReadTurn: has no byte timeouts, on which the code scans on.
- Serial.Reader.ReadFrame: has no byte timeouts and no I/O error other than end of stream.
- Decode.PayloadDurationMs: counts in unbounded numbers, where the code's `u32` products would overflow on payloads far beyond the 54 825 bytes a message can carry.
- Decode.DecodeAmrnb: with gaps, the decoder is handed the slice of one stride, where the code passes a pointer and the library reads the length that the frame's first byte gives; the two agree on single-mode payloads. It plays through the exact resampler.
- EncoderRuns.AmrnbCaptures: supposes that the codec answers with its own mode in the first byte, which is the library's promise. Its clause at 48 kHz supposes the exact cursor.

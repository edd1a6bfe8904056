# Failure Fabric: a verified model of its stateful core

Failure Fabric keeps operations that fail, are re-dispatched and are reported on by
workers that may already be dead. This project models the part of it where that is
hard and proves what it is for:

* **Registry and protocol.** Each operation has a guarded state machine of twenty
  states, a current authority envelope and a once-only terminal record. Every registry
  call is one atomic step (`Registry.Step`); runs are arbitrary sequences of steps. On
  top come threads that race to confirm (`Reporters`) and the coordinator's handlers as
  interleaved steps over delayed, duplicated and reordered messages (`Coordinator`).
* **Persistence and wire.** A cursor-based codec with a sticky error flag, checksummed
  length-prefixed frames, a snapshot of several sections whose strict parser runs in a
  loop, and framed messages over a byte stream that delivers in pieces of any size.
* **Idempotency and recovery ownership**, whose guarantees only make sense over runs.

The source's classes are classes here (`OperationStateMachine`, `OperationRegistry`,
`IdempotencyStore`, `RecoveryOwnership`, `FailureStore`, `BinaryWriter`,
`BinaryReader`); its loops are loops. Only `Channel.SendMany` and `Channel.Exchange` have
none in the source: they make its calls for a whole list of messages. Each method is
proved against a specification function. What that function says is pinned down in the
fields of envelopes, operations and records and in the bytes of the formats
(`RegistryLaws`, `StoreLaws`, `Format` and the `…Exactly` lemmas), and the guarantees
are proved about it over all inputs, runs and iteration orders.

| file | models |
|---|---|
| `Bytes.dfy`, `Ids.dfy`, `Checksum.dfy` | machine integers, identities and their hexadecimal form, the checksum |
| `Authority.dfy`, `Operation.dfy` | envelopes and fences; the state machine |
| `Registry.dfy`, `RegistryLaws.dfy`, `RegistryRuns.dfy`, `Reporters.dfy` | the registry, what each call means, and what holds over its runs |
| `Coordinator.dfy`, `CoordinatorCalls.dfy`, `CoordinatorProgress.dfy`, `CoordinatorRestarts.dfy` | the coordinator protocol: safety over runs with crashes, its calls, that it gets through, what a restart keeps and lets back in |
| `Idempotency.dfy`, `Ownership.dfy` | the two small stores over runs |
| `Codec.dfy`, `FailureRecords.dfy`, `Frames.dfy` | fields, records, frames: printing and parsing are inverse |
| `Snapshot.dfy`, `SnapshotPayloads.dfy`, `SnapshotLaws.dfy`, `Store.dfy`, `StoreLaws.dfy` | the snapshot format, its payloads, its laws, the store, what gets into it |
| `Crashes.dfy`, `Transparency.dfy`, `FailedLoads.dfy` | runs with saves and crashes, when they go unnoticed, what a refused load leaves |
| `Wire.dfy` | messages, frames and chunks on a byte stream |
| `Format.dfy` | all formats byte by byte |

## Where the code and its documentation differ

The model follows the code.

* `include/failure_fabric/store.hpp:34-36` promises that a failed load leaves the store
  untouched. An ownership frame is adopted while the file is still being read
  (`src/store.cpp:158`), so the ownership can change. `FailedLoads.RefusedLoadAdopts`
  gives such a file; `FailedLoads.RefusedLoadsHarmlessIffHeld` says that the promise
  holds for every file exactly when the ownership is held before the call, and
  `FailedLoads.RefusedLoadChangesOnly` says, file by file, when it fails otherwise.
* A saved snapshot is not always loadable: `save` writes records and operations that
  `load` then refuses. `SnapshotLaws.SavedSnapshotLoads` says exactly which;
  `Crashes.OwnSnapshotRefused` reaches one with a single call on a new store.
* Text longer than 65535 bytes is written as empty text (`src/persistence.cpp:29-33`).
  `SnapshotLaws.ReloadIsExact` says that nothing is lost exactly when there is none;
  `Crashes.OverlongOutcomeForgotten` reaches a loss that later answers show.
* A crash forgets what was called since the last save. `Crashes.CrashGoesBackToLastSave`
  says what a crash puts back, `Transparency.TransparentExactly` when that can be noticed;
  `Crashes.UnsavedBeginForgotten` is such a run. The ownership is never put back
  (`src/store.cpp:175`), so two owners can be granted one generation across a restart:
  `Crashes.OwnershipForgotten`.
* The coordinator acknowledges a confirmation before it saves it
  (`src/coordinator.cpp:112-117`), so a crash can forget it and the operation be confirmed
  again: `CoordinatorProgress.ConfirmedTwice`. `Coordinator.OneWinnerPerForgottenOutcome`
  says that this is the only way, `CoordinatorRestarts.RestartRevivesExactly` which late
  messages a restart lets back in.
* An operation loaded with a terminal envelope and no record can be stuck:
  `RegistryRuns.CompletableExactly` says exactly when.
* A rejected call is not always a no-op: `dispatch` writes the authority before it looks
  at the state (`src/operation_registry.cpp:36-40`). `RegistryRuns.RejectionChangesOnly`
  says exactly when the table changes; `RegistryRuns.RejectedDispatchChanges` reaches it.
* Stale authority can revive if a generation wraps (`Authority.WrappedGenerationRevives`
  is such a chain). `Authority.BootsStayRejectedIffNoWrap` says that along any chain of
  boots it stays rejected exactly when no fencing generation can wrap,
  `Authority.NeverRevivesIffNoWrap` the same over all chains of n steps.
* A key can be told more than once that the work is new (`src/idempotency.cpp:28`):
  `Idempotency.NewTwice` is such a run, `Idempotency.NewAnsweredExactly` says exactly when.
* A flag is read from any byte but written as 0 or 1. `Wire.WireSpells` and
  `SnapshotPayloads.OpSpells` say exactly when a message or an operation that was read
  is written again as the same bytes; `Wire.FlagNotRewritten` and
  `SnapshotPayloads.OpFlagNotRewritten` give bytes for which it is not.

## Model

| member | source | states |
|---|---|---|
| Ids.HexRoundTrip | include/failure_fabric/id.hpp:115-138 | every 128-bit identity printed in hexadecimal reads back as itself |
| Ids.HexNormalises | include/failure_fabric/id.hpp:115-138 | every valid text, read and printed, is itself in lower case, padded with zeros to 32 digits |
| Ids.HexOfInvalid | include/failure_fabric/id.hpp:129-130 | invalid text gives the null identity |
| Ids.ValidHexExactly | include/failure_fabric/id.hpp:32-39 | identities are texts of one to 32 of the twenty-two hexadecimal digits, and no others |
| Ids.CaseIgnored | include/failure_fabric/id.hpp:107-138 | any text and its lower case are the same identity |
| Ids.IsValidHex | include/failure_fabric/id.hpp:32-39 | the loop accepts exactly one to 32 hexadecimal digits |
| Ids.UuidToHex | include/failure_fabric/id.hpp:115-120 | the printing loop against the specification of the two theorems above |
| Ids.UuidFromHex | include/failure_fabric/id.hpp:129-138 | the padding and reading loop against the same specification |
| Ids.IdBytesExact | src/persistence.cpp:66-70 | identities and their sixteen bytes determine each other |
| Bytes.PutBE | src/persistence.cpp:14-22 | the shifting loops append the big-endian digits |
| Bytes.GetBE | src/persistence.cpp:38-52 | the shifting loops read a big-endian number |
| Bytes.BERoundTrip | src/persistence.cpp:14-52 | a number below 256^n survives n big-endian bytes |
| Bytes.FromBERoundTrip | src/persistence.cpp:14-52 | and so do n bytes read as a number |
| Checksum.Fnv1a64 | src/persistence.cpp:8-12 | the loop is the fold of xor and multiplication modulo 2^64 |
| Checksum.MixKeepsDifference | src/persistence.cpp:10 | a difference in the running value survives every further byte, the multiplier being odd |
| Checksum.BurstDetected | src/persistence.cpp:8-12 | byte strings of one length that differ in one byte, or only in two adjacent bytes, have different checksums |
| Checksum.LastByteSpreads | src/persistence.cpp:8-12 | a change of the last body byte never shows as a change of the stored checksum's first byte alone, so a burst across that border is seen too |
| Authority.NeverRevivesIffNoWrap | src/authority.cpp:13-75 | over all chains of n new boots and attempts, and already over those of n fresh boots, every fence rejects every earlier envelope against every later one if and only if neither fencing generation can wrap within n |
| Authority.BootsStayRejectedIffNoWrap | src/authority.cpp:13-75 | the same for each single chain of boots, whatever the boots |
| Authority.StaleNeverRevives | src/authority.cpp:13-75 | one chain whose generations do not wrap: no fence accepts an earlier envelope against a later one |
| Authority.SuccessorMayRecover | src/authority.cpp:63-75 | after any boots of one attempt the newest passes the recovery fence against the first exactly if its recovery generation came out larger, and never once its own is current |
| Authority.CompletionIsStricter | src/authority.cpp:13-61 | what exactly a completion needs beyond what a failure report needs |
| Authority.FailureBelievedExactly | src/authority.cpp:43-61 | in envelope fields, which failures are believed: those not superseded in any dimension, nor from another boot within the current attempt generation |
| Authority.CompletionBelievedExactly | src/authority.cpp:13-41 | in envelope fields, which completions are believed |
| Authority.RecoveryObeyedExactly | src/authority.cpp:63-75 | in envelope fields, which recovery commands are obeyed |
| Authority.ReasonsAreTrue | src/authority.cpp:13-75 | whatever reason any fence gives for a rejection is true of the two envelopes |
| Authority.ChainGenerations | include/failure_fabric/authority.hpp:33-41 | n derivations add n to each of the four generations, modulo 2^64 |
| Authority.ChainNames | include/failure_fabric/authority.hpp:33-41 | along a chain the epoch and the dispatch stay, boot and attempt are the last ones derived |
| Operation.MakeMask | src/operation.cpp:7-11 | the mask has exactly the listed bits |
| Operation.IsAllowed | src/operation.cpp:65-70 | index guards and mask test decide exactly the transition relation |
| Operation.OperationStateMachine.Transition | include/failure_fabric/operation.hpp:18-22 | moves exactly along an allowed edge, else stays and answers false |
| Operation.TerminalIsFinal | src/operation.cpp:72-76 | the terminal states are exactly those without a way out |
| Operation.EnteredFromExactly | src/operation.cpp:18-62 | from which states each state can be entered: what can be confirmed, cancelled, abandoned, failed, and when |
| Operation.RunLengthBound | src/operation.cpp:18-62 | a run from CREATED with R retries has at most 7R + 11 steps |
| Operation.RunLengthAttained | src/operation.cpp:18-62 | for every R some run has that many: the bound is exact |
| Registry.OperationRegistry.Create | src/operation_registry.cpp:20-28 | the call is one step of the specification: new table and answer |
| Registry.OperationRegistry.Dispatch | src/operation_registry.cpp:30-46 | the same, including the authority written before the terminal test |
| Registry.OperationRegistry.Run | src/operation_registry.cpp:48-57 | the same |
| Registry.OperationRegistry.ReportCompletion | src/operation_registry.cpp:59-71 | the same |
| Registry.OperationRegistry.ConfirmCompletion | src/operation_registry.cpp:73-85 | the same |
| Registry.OperationRegistry.ReportFailure | src/operation_registry.cpp:87-97 | the same |
| Registry.OperationRegistry.Transition | src/operation_registry.cpp:99-108 | the same; a terminal state entered here is not recorded |
| Registry.OperationRegistry.RecordTerminal | src/operation_registry.cpp:110-130 | the same, trying the five terminal states in the source's order |
| Registry.OperationRegistry.Restore | src/operation_registry.cpp:156-161 | puts an operation back unless its id is taken |
| RegistryLaws.OthersUntouched | src/operation_registry.cpp:20-161 | a call concerns its own operation only |
| RegistryLaws.UnknownExactly | src/operation_registry.cpp:30-112 | UNKNOWN_OPERATION is answered exactly for operations not in the table, and then nothing changes |
| RegistryLaws.CreatesExactly | src/operation_registry.cpp:20-28 | a new operation field by field; an existing one is left alone |
| RegistryLaws.RestoresExactly | src/operation_registry.cpp:156-161 | a restored operation comes back as it was given, unless its id is taken |
| RegistryLaws.RecordedAnswers | src/operation_registry.cpp:30-124 | on a recorded operation every call is a no-op, answered OK only to the same outcome |
| RegistryLaws.DispatchesExactly | src/operation_registry.cpp:30-46 | the authority is replaced without asking; success, state and attempts follow from the state before |
| RegistryLaws.StaleExactly | src/operation_registry.cpp:48-119 | in envelope fields, exactly which calls of each kind are rejected as stale |
| RegistryLaws.NoLateCallCounts | src/operation_registry.cpp:48-119 | no superseded call of any kind, terminal records and transitions included, is accepted or changes anything |
| RegistryLaws.NoLateCallCountsAlongChains | src/operation_registry.cpp:48-119 | the same for every earlier envelope of a chain once a later one is current |
| RegistryLaws.MovesExactly | src/operation_registry.cpp:48-108 | runs, failure reports and transitions move along exactly the edges of the table, to the state their flag or argument says |
| RegistryLaws.CompletionReportedExactly | src/operation_registry.cpp:59-71 | a completion is taken from a running operation only, a partial one kept apart |
| RegistryLaws.ConfirmsExactly | src/operation_registry.cpp:73-85 | a confirmation is taken from a reported operation only; what it records |
| RegistryLaws.RecordsExactly | src/operation_registry.cpp:110-130 | which operations a terminal record ends, how each of them ends, and what is recorded |
| RegistryLaws.FlagDecidesFailure | src/operation_registry.cpp:87-97 | an accepted failure is known exactly if it was not ambiguous, and exactly then its reporter can cancel the operation |
| RegistryLaws.LastFailureDecides | src/operation_registry.cpp:30-97 | over runs of a coordinator's calls an operation has failed, known or ambiguous, exactly as the last failure accepted since its last dispatch says |
| RegistryLaws.PartialNeverConfirmed | src/operation_registry.cpp:59-85 | after an accepted partial completion no confirmation succeeds in any run without a new dispatch or a retry |
| RegistryLaws.WholeCanBeConfirmed | src/operation_registry.cpp:59-85 | after a whole one its reporter can confirm at once |
| RegistryRuns.OutcomeFrozen | src/operation_registry.cpp:20-130 | once recorded, nothing about an operation changes in any further run |
| RegistryRuns.TerminalNeverLeft | src/operation_registry.cpp:20-130 | a terminal state is never left, recorded or not |
| RegistryRuns.ReachableIsSound | src/operation_registry.cpp:20-130 | in every reachable registry a record implies a terminal state, and the terminal envelope is unset exactly for unrecorded operations |
| RegistryRuns.CompletableExactly | src/operation_registry.cpp:30-85 | in any table at all, an unrecorded non-terminal operation answers OK to dispatch, run, report and confirm if and only if the envelope is newer than its terminal envelope or that is unset; else the last two are rejected as stale |
| RegistryRuns.NoStuckOperation | src/operation_registry.cpp:30-85 | so in every registry reachable with sound restores every non-terminal operation can be completed under any set envelope |
| RegistryRuns.RejectionChangesOnly | src/operation_registry.cpp:20-130 | a rejected call changes the table if and only if it is a dispatch of an unrecorded terminal operation under another envelope |
| RegistryRuns.RejectedDispatchChanges | src/operation_registry.cpp:30-40 | from an empty registry such a dispatch is three calls away |
| RegistryRuns.RejectionsAreNoOps | src/operation_registry.cpp:20-130 | in every run where terminal states are entered only with a record, terminal and recorded coincide and every rejected call is a no-op |
| RegistryRuns.SuccessBound | src/operation_registry.cpp:30-130 | with D dispatches and R retries at most 11 + 7R + 10D calls after creation are answered OK |
| RegistryRuns.SuccessBoundAttained | src/operation_registry.cpp:30-130 | for every D and R some run has that many: the bound is exact |
| RegistryRuns.AttemptsCountDispatches | src/operation_registry.cpp:30-46 | over any run the attempt counter counts the successful dispatches, modulo 2^32 |
| RegistryRuns.AtMostOneConfirmation | src/operation_registry.cpp:73-85 | whatever the calls and their order, at most one confirmation per operation succeeds |
| Reporters.ExactlyOneWinner | tests/test_semantics.cpp:186-205 | any number of racing reporters under any interleaving: at most one confirmation succeeds at any time, exactly one once all have finished |
| Coordinator.WinsAcrossRestarts | src/coordinator.cpp:80-209 | in every run of the protocol with saves and crashes, the confirmations of an operation answered OK are the outcome on record and those a crash has forgotten; the recorded envelope is that of the latest dispatch not forgotten |
| Coordinator.OneWinnerPerForgottenOutcome | src/coordinator.cpp:80-209 | so at most one is answered OK, and one more for each crash that forgets a recorded one |
| Coordinator.OneWinnerTheLatestDispatch | src/coordinator.cpp:80-197 | while the process lives at most one confirmation per operation succeeds, exactly when it is recorded, and the recorded envelope is that of the latest successful dispatch |
| Coordinator.LateMessageLoses | src/coordinator.cpp:104-133 | after any run, restarts included, a message echoing any issued envelope but that of the latest dispatch not forgotten is rejected and changes nothing |
| CoordinatorProgress.NewOperationCanBeWon | src/coordinator.cpp:80-125 | from every state the dispatch handler's calls on a new operation, then its worker's completion, lead to one more confirmation under the envelope it built |
| CoordinatorProgress.LostOperationCanBeWon | src/coordinator.cpp:137-197 | in every reachable state the loss path logs the loss, classifies what was under way as ambiguous and re-dispatches under a fresh attempt, under which the replacement's messages confirm the operation |
| CoordinatorProgress.LossLeavesRecord | src/coordinator.cpp:160-178 | in every reachable state a worker's loss leaves, under a fresh id, a record in the log that names the operation, the lost attempt and its authority and calls the outcome ambiguous, field by field; no other record moves |
| CoordinatorProgress.LossMovesOwnership | src/coordinator.cpp:163-165 | recovery goes to a replacement worker one generation on, unless somebody holds that generation or a later one |
| CoordinatorProgress.ConfirmedTwice | src/coordinator.cpp:109-118 | a run with one crash in which one operation is confirmed twice |
| CoordinatorRestarts.RestartRevivesExactly | src/coordinator.cpp:104-133 | a restart lets in a message under an issued envelope if and only if the last save held that envelope as the authority of an operation still under way |
| CoordinatorRestarts.CrashAfterSave | src/coordinator.cpp:116-209 | what stands after a crash right after a save, whole or torn |
| CoordinatorRestarts.SavedOutcomeSurvives | src/coordinator.cpp:109-209 | an outcome that has been saved survives everything that follows, crashes included, as long as no save is torn, and is never confirmed again |
| CoordinatorCalls.TableIsRegistryRun | src/coordinator.cpp:80-197 | while the process lives the protocol's table is that of the registry run of its handlers' calls |
| CoordinatorCalls.LastReportedFailureDecides | src/coordinator.cpp:127-188 | over protocol runs an operation has failed, known or ambiguous, exactly as the last failure accepted since its last dispatch says, a loss counting as ambiguous |
| CoordinatorCalls.FailureMessageDecides | src/coordinator.cpp:127-132 | a failure message that changes its operation leaves it as its flag says, and changes nothing else |
| CoordinatorCalls.HandlersBalance | src/coordinator.cpp:80-197 | the handlers under way are those started and not ended |
| CoordinatorRestarts.StateFileComesBack | src/coordinator.cpp:116-117 | in every reachable state without a wrapped attempt generation, the bytes of a whole save load as exactly the table and the log that the protocol goes on with |
| Coordinator.OwnershipAdvances | src/coordinator.cpp:163-165 | over any run without a crash the ownership generation never falls, and rises whenever the owner changes |
| Coordinator.EventKeeps | src/coordinator.cpp:64-209 | every step of every handler, every log entry, ownership transfer, save and crash keeps the protocol invariant |
| Idempotency.IdempotencyStore.Begin | src/idempotency.cpp:15-30 | new table and verdict as specified |
| Idempotency.IdempotencyStore.Complete | src/idempotency.cpp:32-37 | the new table, an entry being made where there was none |
| Idempotency.IdempotencyStore.Fail | src/idempotency.cpp:38-42 | the new table; unknown keys are ignored |
| Idempotency.IdempotencyStore.MarkConflict | src/idempotency.cpp:43-47 | the new table |
| Idempotency.IdempotencyStore.PriorResult | src/idempotency.cpp:48-55 | finds the metadata exactly of completed entries |
| Idempotency.IdempotencyStore.Restore | src/idempotency.cpp:68-71 | replaces the entry, its authority lost |
| Idempotency.IdempotencyStore.Collect | src/idempotency.cpp:72-76 | one view per entry in the order of iteration |
| Idempotency.AcceptedHashesAgree | src/idempotency.cpp:15-55 | in every run, two begin calls on a key not answered CONFLICT carry the same payload hash |
| Idempotency.NewAnsweredExactly | src/idempotency.cpp:15-55 | in every run a begin answers NEW exactly if nothing has made an entry for the key, or it carries the hash the entry was made with and the key has failed and been neither completed nor marked since |
| Idempotency.NewAgainExactly | src/idempotency.cpp:15-55 | the same for the begin that made the entry and any later one |
| Idempotency.AtMostOneNew | src/idempotency.cpp:15-55 | corollary: without a fail on the key at most one begin answers NEW |
| Idempotency.CompletedReplays | src/idempotency.cpp:15-55 | after complete, until the key is reclassified, every matching begin replays and prior_result gives the metadata |
| Idempotency.AcceptedHashReplays | src/idempotency.cpp:15-55 | the replay is given exactly for the payload hash first accepted |
| Idempotency.VerdictExactly | src/idempotency.cpp:15-47 | in every run, what every begin answers, by the call that made the entry and the last that completed, failed or marked the key |
| Idempotency.PriorResultExactly | src/idempotency.cpp:48-55 | in every run, when a prior result is found and what it is |
| Idempotency.EntrySettled | src/idempotency.cpp:15-47 | in every run, the whole entry: hash, authority, state and metadata |
| Idempotency.MarkedStaysInConflict | src/idempotency.cpp:26-47 | from a mark until the key is completed or failed every begin, whatever its hash, answers CONFLICT and no prior result is found |
| Idempotency.VisibleDecides | src/idempotency.cpp:15-71 | no answer, now or later, depends on what a snapshot drops |
| Ownership.RecoveryOwnership.Adopt | src/recovery.cpp:4-15 | granted only to an unassigned ownership, by the specified step |
| Ownership.RecoveryOwnership.Transfer | src/recovery.cpp:17-28 | granted only under a larger generation, by the specified step |
| Ownership.HolderAdvances | src/recovery.cpp:4-28 | over any run the generation never falls, rises with every grant, is zero exactly while nobody owns recovery, and an owner stays assigned |
| Ownership.GrantsIncrease | src/recovery.cpp:4-28 | of two grants in a run the later has the larger generation, so none is granted twice |
| Ownership.GrantedExactly | src/recovery.cpp:4-28 | exactly which calls of a run are granted: the first proper one, then transfers above all generations granted before |
| Ownership.HolderIsLastGrant | src/recovery.cpp:4-28 | the holder is whoever was granted last, with that generation and boot |
| Ownership.CurrentExactly | include/failure_fabric/recovery.hpp:30-32 | the current pair is that of the last grant and no other |
| Ownership.SupersededNeverCurrent | include/failure_fabric/recovery.hpp:30-32 | a superseded pair of boot and generation is never current again |
| Codec.AllRead | src/persistence.cpp:24-72 | numbers of 8, 32 and 64 bits, identities, texts and flags, followed by anything, read back as their value and that rest |
| Codec.U16Reads | src/persistence.cpp:25-55 | so do numbers of 16 bits |
| Codec.AllSpell | src/persistence.cpp:56-72 | conversely the bytes from which a number of 32 or 64 bits, an identity or a text was read are the layout of its value |
| Codec.BinaryWriter.Str16 | src/persistence.cpp:29-33 | appends length and text, or an empty text if the length does not fit |
| Codec.BinaryReader.Need | include/failure_fabric/persistence.hpp:53 | a failed check clears the flag, nothing sets it again |
| Codec.BinaryReader.Int | src/persistence.cpp:54-57 | advances past a big-endian number, or stays and clears the flag |
| Codec.BinaryReader.Str16 | src/persistence.cpp:59-65 | the cursor read against the parser, refusing also when the flag is already clear |
| Codec.EnvelopeReads | src/store.cpp:14-24 | an envelope reads back whatever follows it |
| Codec.EnvelopeSpells | src/store.cpp:14-24 | and what was read is exactly its layout |
| FailureRecords.RecordReads | src/persistence.cpp:112-181 | decoding an encoding followed by any tail gives the record (over-long text emptied) and that tail, exactly for valid authority and at most 4096 dependencies |
| FailureRecords.RecordSpells | src/persistence.cpp:132-181 | conversely, whenever decoding succeeds, the consumed bytes are exactly the encoding of the result |
| FailureRecords.EncodeFailureRecord | src/persistence.cpp:112-129 | the writer appends exactly the record's layout |
| FailureRecords.DecodeFailureRecord | src/persistence.cpp:132-181 | the reader with its early refusals succeeds exactly where the parser does, with its result and rest |
| Frames.FrameReads | src/persistence.cpp:74-110 | a frame is read back from the front of anything |
| Frames.FrameSpells | src/persistence.cpp:89-110 | a frame is read only where the bytes are exactly that frame's encoding |
| Frames.TruncatedFrameRefused | src/persistence.cpp:89-110 | no proper prefix of a frame is read as a frame |
| Frames.CorruptFrameRefused | src/persistence.cpp:89-110 | a frame changed within two adjacent bytes outside its length field is refused in any surroundings |
| Frames.EncodeFrame | src/persistence.cpp:74-87 | writes the frame's bytes and checksum |
| Frames.DecodeFrame | src/persistence.cpp:89-110 | at any offset succeeds exactly where a frame starts, and says where it ends |
| SnapshotLaws.SavedSnapshotLoads | src/store.cpp:57-180 | for every iteration order a saved snapshot loads exactly if all authorities are valid and no record has more than 4096 dependencies, and gives all three tables back (over-long text emptied) |
| SnapshotLaws.ReloadIsExact | src/store.cpp:57-180 | and they are the same tables exactly when no text is over-long |
| SnapshotLaws.TruncatedSnapshot | src/store.cpp:104-180 | of all proper prefixes of a snapshot exactly the one without the ownership frame loads like the whole; every other is rejected and leaves the ownership alone |
| SnapshotLaws.CorruptFileRejected | src/store.cpp:104-180 | a file of whole frames changed within two adjacent bytes outside the length fields is rejected |
| SnapshotLaws.ChangedByteRejected | src/store.cpp:104-180 | so is a saved snapshot with any one byte outside the length fields changed |
| SnapshotLaws.AcceptedIsWellFormed | src/store.cpp:118-172 | load succeeds only on a concatenation of whole frames whose header counts match what follows, with no repeated failure or operation id, at least 19 bytes each |
| SnapshotLaws.ScanSound | src/store.cpp:118-163 | the loop gets to the end only by absorbing whole frames one after the other |
| SnapshotPayloads.OpRead | src/store.cpp:73-145 | an operation's payload reads back exactly when both its authorities are valid |
| SnapshotPayloads.OpSpells | src/store.cpp:73-145 | conversely an operation that was read is written again as the bytes it was read from if and only if both its flags were written as 0 or 1 |
| SnapshotPayloads.OpFlagNotRewritten | src/store.cpp:80-137 | bytes that are read as an operation and written again differently |
| SnapshotPayloads.ViewRead | src/store.cpp:88-153 | an idempotency payload reads back |
| SnapshotPayloads.HolderRead | src/store.cpp:96-158 | an ownership payload reads back |
| SnapshotPayloads.PayloadsTaken | src/store.cpp:118-163 | the first frame is the header whatever its kind, the four kinds come in any order, other kinds are refused, and what stands behind a payload is not looked at |
| SnapshotPayloads.LastEntryCounts | src/store.cpp:178 | of several idempotency entries for one key the last in the file counts |
| Store.AppendOnly | src/store.cpp:28-36 | over any sequence of appends no record in the log is replaced, and of each id at most one is taken, the one the log then holds |
| StoreLaws.TakenExactly | src/store.cpp:28-36 | in record fields, which records are taken, and that no other record moves |
| StoreLaws.AppendedAreWellFormed | src/persistence.cpp:183-189 | no log reached by appends holds a boot without an epoch or an attempt without a generation |
| StoreLaws.LoadedAreWellFormed | src/persistence.cpp:180-189 | neither does any log or table reached by loading any file |
| StoreLaws.LoadableExactly | src/store.cpp:19-25 | in envelope fields, which stores a snapshot gives back |
| StoreLaws.HeldNeedsEpoch | src/store.cpp:141-142 | on a loaded operation that is held by a boot no report without an epoch is ever accepted |
| Store.FailureStore.AppendFailure | src/store.cpp:28-36 | takes exactly a new, identified record with valid authority, and keeps the log sound |
| Store.FailureStore.FindFailure | src/store.cpp:40-44 | finds exactly the records in the log, under their own id |
| Store.FailureStore.Save | src/store.cpp:57-102 | the loops write the snapshot of the store's value in the given orders |
| Store.FailureStore.ReadFrames | src/store.cpp:111-163 | the frame loop against the parser, ownership frames acting at once |
| Store.FailureStore.Validate | src/store.cpp:164-172 | accepts exactly matching counts without repeated failure or operation ids |
| Store.FailureStore.Commit | src/store.cpp:173-178 | the new value of the whole store, the ownership reset |
| Store.FailureStore.Load | src/store.cpp:104-180 | the whole new value of the store on success and on refusal |
| Store.FailureStore.Clear | src/store.cpp:182-185 | an empty store |
| Store.FailureMapSound | src/store.cpp:164-178 | a loaded log is sound: own ids, valid authorities |
| Crashes.CrashGoesBackToLastSave | src/store.cpp:57-180 | in every run of registry, idempotency, log and ownership calls, saves and crashes from a new store every call answers as if a crash put back what the last save kept; a save that was torn anywhere but at its ownership frame, or holds what load refuses, puts back an empty store, never a part |
| Transparency.TransparentExactly | src/store.cpp:57-180 | for every order of calls, saves and crashes, all runs of that order with representable calls answer as if nothing had crashed if and only if no call follows a crash that has lost one |
| Transparency.SavedCrashesAreTransparent | src/store.cpp:57-180 | its first half, for one run |
| Crashes.UnsavedBeginForgotten | src/store.cpp:104-180 | a begin called after the last save is new again after a crash |
| Crashes.OwnershipForgotten | src/store.cpp:173-175 | two owners are granted one generation across a restart, though the store was wholly saved |
| Crashes.LogRemembered | src/store.cpp:28-180 | a record that was taken and saved is refused as a duplicate after a crash |
| Crashes.OwnSnapshotRefused | src/store.cpp:57-180 | one call on a new store makes its own snapshot unloadable |
| Crashes.OverlongOutcomeForgotten | src/persistence.cpp:29-33 | a recorded outcome too long for its length field is lost by saving and loading, and repeating it is then rejected |
| Transparency.CallFits | src/operation_registry.cpp:20-161 | calls that bring in only what the format can hold keep the store saveable |
| FailedLoads.HeldOwnershipSurvives | src/store.cpp:154-158 | no refused load changes an ownership that is held |
| FailedLoads.RefusedLoadAdopts | src/store.cpp:154-165 | a file whose load is refused and still assigns an unassigned ownership |
| FailedLoads.RefusedLoadsHarmlessIffHeld | include/failure_fabric/store.hpp:34-36 | refused loads leave the ownership untouched for every file if and only if it is held before |
| FailedLoads.RefusedLoadChangesOnly | src/store.cpp:118-165 | for an unassigned ownership, exactly the files with an accepted grant before the refusal change it |
| Wire.WireReads | src/protocol.cpp:22-54 | a message's layout followed by anything decodes to it, over-long text emptied |
| Wire.WireSpells | src/protocol.cpp:22-54 | conversely a message that was read is written again as the bytes it was read from if and only if its flag was written as 0 or 1 |
| Wire.FlagNotRewritten | src/protocol.cpp:30-50 | bytes that are read as a message and written again differently |
| Wire.EncodeWire | src/protocol.cpp:22-34 | writes that layout |
| Wire.DecodeWire | src/protocol.cpp:36-54 | succeeds exactly where the parser does, with its message |
| Wire.MessageArrives | src/protocol.cpp:73-100 | a sent frame fits the receiver's limit of 32 MiB and is received from the front of any stream |
| Wire.PartialMessage | src/protocol.cpp:80-100 | nothing is received from a frame that is not complete |
| Wire.CutStreamDelivers | src/protocol.cpp:56-100 | a stream cut anywhere delivers, in order, exactly the messages wholly before the cut |
| Wire.CompletedIsLargest | src/protocol.cpp:80-100 | that number of messages is the largest that fits |
| Wire.Channel.Exchange | src/protocol.cpp:56-100 | any list of messages sent and then received by the loops over a connection that cuts the bytes at will comes back in order, over-long text emptied; if the connection fails on the way, what comes back is the first of them |
| Wire.Channel.SendMany | src/protocol.cpp:56-79 | what is under way is the stream of the messages sent and at most a part of the next, from which nothing can be received |
| Wire.StreamFraming | src/protocol.cpp:56-100 | for chunks of any sizes and any interleaving of the two sides, what has arrived are the messages wholly taken so far, in order, none invented, and all in the end |
| Wire.Channel.Send | src/protocol.cpp:58-60 | one call moves one chunk of that model, of any size the system grants |
| Wire.Channel.Recv | src/protocol.cpp:66-68 | the same on the receiving side |
| Wire.Channel.SendAll | src/protocol.cpp:56-63 | puts a prefix under way, all of it exactly on success, and succeeds if the connection reports no error |
| Wire.Channel.RecvAll | src/protocol.cpp:64-71 | takes a prefix of what is under way, of the asked length exactly on success |
| Wire.Channel.SendFrame | src/protocol.cpp:73-79 | on success the message's frame is under way, whatever the chunks |
| Wire.Channel.RecvFrame | src/protocol.cpp:80-100 | success, and without errors failure and what stays unread too, do not depend on the chunks |
| Format.BigEndian | src/persistence.cpp:14-52 | numbers stand most significant byte first |
| Format.ChecksumVectors | src/persistence.cpp:8-12 | the checksums of nothing and of "a", as numbers |
| Format.HeaderPlaces | src/persistence.cpp:74-80 | the eleven bytes of a frame's header, with the magic number and the version as bytes |
| Format.EnvelopePlaces | src/store.cpp:14-18 | which field of an envelope stands where |
| Format.IdentityPlaces | src/persistence.cpp:113-114 | which field of a record's identity stands where |
| Format.CausePlaces | src/persistence.cpp:115-116 | which field of its cause stands where |
| Format.EffectsPlaces | src/persistence.cpp:117-118 | which field of its effects stands where |
| Format.HandlingPlaces | src/persistence.cpp:123-125 | which field of its handling stands where |
| Format.RecordPlaces | src/persistence.cpp:112-129 | where these parts, the parent and the dependencies stand |
| Format.OpPlaces | src/store.cpp:76-86 | which field of an operation stands where |
| Format.ViewPlaces | src/store.cpp:89-94 | which field of an idempotency entry stands where |
| Format.HolderPlaces | src/store.cpp:96-100 | which field of the ownership stands where |
| Format.CountsPlaces | src/store.cpp:61-66 | the snapshot header's bytes |
| Format.CountsBegin | src/store.cpp:122-126 | a snapshot header is read only behind the magic number and the version, from its places |
| Format.SnapshotKinds | src/store.cpp:57-102 | the kinds of a snapshot's frames as numbers, in their order and number |
| Format.WirePlaces | src/protocol.cpp:22-34 | which field of a message stands where |
| Format.CauseBounds | src/persistence.cpp:138-146 | which numbers are read as class, origin and phase |
| Format.EffectsBounds | src/persistence.cpp:147-152 | which numbers are read as completion and side effects |
| Format.HandlingBounds | src/persistence.cpp:161-172 | which numbers are read as retryability, rollback, compensation, terminality, owner and provenance |
| Format.OwnerBounds | src/store.cpp:154-157 | which numbers are read as owner in an ownership frame |
| Format.MessageBounds | src/protocol.cpp:37-39 | which numbers are read as a message's type |
| Format.DecodableExactly | src/persistence.cpp:174-189 | which records can be decoded, in numbers and fields |
| Format.LimitExactly | src/protocol.cpp:80-95 | a receiver refuses a header that announces more than 33554432 bytes and reads the frame of any other |
| Format.GarbageRefused | src/persistence.cpp:89-95 | what does not begin with the magic number and the version is no frame, to a receiver and to the parser |
| Format.MessageInAnyFrame | src/protocol.cpp:92-98 | a message is read whatever kind its frame says and whatever stands behind it in the payload |

## Left out

- Sockets, listeners, threads and file streams: a socket is a byte sequence with a grant per call, a file is its contents. A failing or interrupted save leaves a prefix of the snapshot; a file that exists and cannot be opened is not modelled.
- Random identities, wall-clock time and hashing: identities, times and iteration orders are parameters.
- `RetryClassifier`, `RecoveryPlanner`, `RollbackExecutor`, `Compensator`, `derive_dimensions`, `backoff_ms`: short tables and formulas that would only add easy members.
- Explanations, JSON, enumeration names, the command-line tool, examples, benchmarks and build files: text only.
- Coordinator worker choice, acknowledgements and connections: the handlers are steps of a state machine rather than methods on the process's globals. Where the code consults the running connection, the current operation, the finished flag or the worker map, the model lets the step go either way and on any operation. Nothing is said about when a step comes, only that the protocol can get through.
- `FenceResult`'s status and detail text: only the reason is kept, acceptance being one of the reasons.
- The machine inside `OperationRuntime`: the runtime holds its state, and the registry's methods move a machine object made from it.
- The mutexes: a call is one step; the failure store's calls are not interleaved with each other.
- SavedSnapshotLoads: for tables below 2^32 entries and records below 2^32 encoded bytes, because the format counts in 32 bits; the casts themselves are modelled. The same limits stand in the lemmas built on it.
- CrashGoesBackToLastSave: for records and tables whose size fits in 32 bits.
- TransparentExactly: for calls that bring in valid authorities, texts of at most 65535 bytes and at most 4096 dependencies, and no ownership call; what can happen otherwise is shown by OwnSnapshotRefused, OverlongOutcomeForgotten and OwnershipForgotten.
- StateFileComesBack: while no attempt generation has wrapped, and for tables below 2^32 entries; a file that load refuses is a save that is not whole.
- AllSpell: not for flags, for which it fails; the payloads that hold flags have their exact conditions in WireSpells and OpSpells.
- StaleNeverRevives: for generations that do not wrap within the chain; the exact condition is NeverRevivesIffNoWrap.
- NeverRevivesIffNoWrap: for n below the number of boots there are.
- ReachableIsSound: restored operations must be sound themselves, because load checks neither their state nor their record. The same holds for NoStuckOperation; CompletableExactly needs no such thing.
- ChangedByteRejected: outside the frame length fields, because a changed length moves the place where the checksum is looked for.
- Ownership after a load: the code resets it, so there is nothing to give back (`src/store.cpp:175`).
- Out-of-range operation and idempotency states in a snapshot: the code accepts them, and so does the model.
- The fields of a failure record are grouped into parts; their order in the encoding is the source's.
- Accessors without logic (`has`, `state`, `payload_hash`, `failure_count`, `failures`).

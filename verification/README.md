# Verified model of Indago's reasoning and durability core

Indago keeps analysis state in SQLite, lets several processes and a model controller work on it at
once, and makes strong claims about what it found: that decoded bytes are what the program would have
produced, that a mutation ran at most once, that an answer is proved. This project models the code
behind those claims in Dafny and proves them, for every input, every interleaving and every clock.

Three cores are modelled.

**Static decoder recovery.** `X86` gives the byte-level decoding and small-step semantics of the
instructions involved (Intel 64 and IA-32 SDM, volume 2). `Stage`, `StubLayouts`, `StubRun`,
`StubSoundness` and `StubBreaks` treat one decoder stub, `RecoveryPath`, `KeyPath`, `Recovery` and
`RecoveryScan` a chain, `Initializer` the abstract interpreter for the code that builds the blob and
`InitializerForms` the functions it accepts, `Transformation` the whole, `ControlFlow` the bounded
worklist and `CodeFlow` what its report says about execution. The theorems say that stepping the real
instructions leaves exactly the bytes that the bulk rewrite computes, and that nothing of the accepted
forms is missed.

**Durable protocols.** `Harness` and `Jobs` state each SQLite transaction as one function on the tables,
`HarnessStore` and `JobStore` as the imperative code; `HarnessRuns`, `HarnessBudget`, `HarnessLimits`,
`JobRuns` and `ControllerRuns` prove what every interleaved run of processes, crashes, takeovers and
recoveries keeps; `HarnessOwners`, `JobLeases` and `ControllerLaws` when each transaction takes place
and what a live lease protects. `StaticIndex` is the derived index and its rebuild. `Controller` is the
provider-call machine.

**Pinned knowledge, planning and the proof gate.** `Knowledge`, `Freshness`, `Impact` and
`KnowledgeStore` treat the append-only record store; `Planning`, `WorkQueue`, `QueueLaws`, `Progress`
and `ProgressLaws` the plan, its queue and the guard against repeated queries; `ProofGate` and
`ProofRuns` the decision that a question counts as proved. `Codec` holds the small byte codecs.

Throughout, a thrown exception is a `None` or an `Err`, and a transaction that throws leaves the tables
as they were. SHA-256 is a function parameter or the identity of what it hashes, the clock an arbitrary
number given to each step, a fresh identifier an argument that the unique column checks.

## Where the code falls short of its own description

- A stage is accepted with a five-byte near back jump that reaches into the rewritten range, because
  only the offset two bytes into the jump is compared with the range. Stepping the stub is then the
  recognized loop exactly when the key bytes that fall on the jump are zero (`Spares`):
  `StubSoundness.RunPlainStub` and `RunRepeatStub` prove one direction, `StubBreaks.DwordBreaks` and
  `RepeatBreaks` the other, and `RecoveryLimits.NearNeverExits` gives a stub that never leaves.
- The key is read by scanning bytes backwards, so immediates that contain push opcodes are taken for
  pushes (`RecoveryLimits.KeyMisread`). The loop reads the recognized key, from every machine state,
  exactly when each byte that its cursor meets was pushed on the path and is the key's (`KeyOnPath`):
  `KeyPath.RunToKey` and `KeyNotThere` are the two directions, and `AlignedIsOnPath` covers every stub
  whose path goes through the whole adjacent push run.
- Both conditions together are `Recovery.Faithful`: `Recovery.RunStage` runs every accepted stage that
  meets it as recovered, and `StageMisses` gives a machine state for every one that does not.
- The control-flow report follows a call only to the next instruction, so it can be complete without
  offsets that the program executes (`CodeFlow.CallLeavesReport`). While the code is unchanged and every
  call goes to the next instruction, as the get-PC call does, none is missing (`ExecutedIsReported`).
- A provider request whose transport failed is saved as `ready` before the final report is written.
  Another request can follow it exactly when generations are left and the investigation has not ended
  (`ControllerRuns.TransportErrorMayReissue`, with a run in `ReissueFromFresh`); for crashes,
  cancellation and takeover the stated rule holds (`NeverReissued`).
- Saving a static action's job is not guarded by the runner, so a settled row can return to running
  after a final report: `HarnessLimits.LateSave` is such a run, and `SettledReopens` and `ReportReopens`
  say exactly when it can happen, for each action and for the whole report. What does hold is that a row with a runner is running, that a final status is
  final, and that published rows are never overwritten.

## Model

| member | source | states |
|---|---|---|
| `StubRun.GetPc` | src/harness_reasoning.hpp:255-267 | the get-PC prologue (call 0, pop by load, add) leaves in ESI the address of the range that the header reads off the bytes, and touches only four stack bytes |
| `StubRun.ByteLoop` | src/harness_reasoning.hpp:293-296 | stepping the byte loop from its head halts at the loop exit with exactly the bulk XOR of the range in memory; every other byte and register is as stated |
| `StubRun.DwordLoop` | src/harness_reasoning.hpp:297-300 | the same for the dword loop, four bytes a pass, with its signed exit test |
| `StubRun.RepeatLoop` | src/harness_reasoning.hpp:301-303 | the same for the repeating-key loop: byte i meets the stack byte under the cursor, which starts at EBX and wraps to the top of the stack |
| `StubRun.BulkJump` | src/harness_reasoning.hpp:160-218 | a back jump whose bytes the key leaves alone is still in memory after any part of the rewrite, although the checks let the range begin inside it |
| `StubSoundness.ByteShapeOf` | src/harness_reasoning.hpp:160-218 | whatever the validation accepts as a byte stub decodes to exactly the loop that was stepped |
| `StubSoundness.DwordShapeOf` | src/harness_reasoning.hpp:160-218 | the same for dword stubs |
| `StubSoundness.RepeatShapeOf` | src/harness_reasoning.hpp:160-218 | the same for repeating-key stubs |
| `StubSoundness.KeySizeIs` | src/harness_reasoning.hpp:301-303 | the backward key-length scan finds the immediate of the stub's own `add eax`, not another byte pair that looks like it |
| `StubSoundness.PushedKeyIs` | src/harness_reasoning.hpp:268-282 | the backward byte search for the key stops at the `mov ebx, esp` just before the call, over every false match in between |
| `StubSoundness.KeyOf` | src/harness_reasoning.hpp:268-282 | the recognized key is the front of the adjacent push run, nearest push first |
| `StubSoundness.RunPlainStub` | src/harness_reasoning.hpp:293-327 | an accepted byte or dword stub run from its call reaches the loop exit with the bulk XOR in memory, provided the rewrite spares its back jump |
| `StubSoundness.RunRepeatStub` | src/harness_reasoning.hpp:293-327 | the same for a repeating-key stub, with the bytes that its cursor meets on the stack as the key |
| `StubBreaks.JumpBroken` | src/harness_reasoning.hpp:160-218 | one nonzero key byte on the back jump sends it somewhere else than the loop head |
| `StubBreaks.ByteBreaks` | src/harness_reasoning.hpp:160-218 | conversely, a byte stub that the validation accepts leaves the recognized loop at its first pass when its rewrite does not spare its jump |
| `StubBreaks.DwordBreaks` | src/harness_reasoning.hpp:297-327 | conversely, an accepted dword stub whose rewrite does not spare its jump leaves the recognized loop at its first pass |
| `StubBreaks.RepeatBreaks` | src/harness_reasoning.hpp:301-327 | conversely, an accepted repeating-key stub runs whole passes until the first nonzero byte that it reads falls on its jump, and there leaves the loop |
| `RecoveryPath.RunPath` | src/harness_reasoning.hpp:310-323 | the instructions that the continuation check walks over execute to the next stub and write only free stack |
| `KeyPath.RunWalk` | src/harness_reasoning.hpp:310-323 | the symbolic walk over the path says exactly what its pushes leave on the stack and where EBX points |
| `KeyPath.RunToKey` | src/harness_reasoning.hpp:268-282 | if on the walk every pass would read a pushed byte that is the recognized key's, then from every machine state the loop finds exactly the repeated key under its cursor when the call is reached |
| `KeyPath.KeyNotThere` | src/harness_reasoning.hpp:268-282 | conversely, if not, from some machine state the loop will read other bytes than the repeated key |
| `KeyPath.AlignedIsOnPath` | src/harness_reasoning.hpp:268-282 | whenever the path goes through the first push of the adjacent run, the key read backwards from the bytes is the one the loop reads |
| `Recovery.RunStage` | src/harness_reasoning.hpp:293-327 | one accepted and faithful stage, run from the previous continuation, leaves the recovered bytes with control at its exit |
| `Recovery.StageMisses` | src/harness_reasoning.hpp:283-332 | conversely, an accepted stage that is not faithful, from some machine state ready at the previous continuation, leaves the recognized loop at its jump or ends with other bytes than recovery computed |
| `Recovery.ChainRuns` | src/harness_reasoning.hpp:283-332 | executing a faithful chain of stages of any length leaves exactly the bytes that recovery computed, at the final continuation |
| `Recovery.StageFreezes` | src/harness_reasoning.hpp:304-326 | a stage ends strictly after the previous continuation and rewrites no byte below its own end |
| `Recovery.ChainFreezes` | src/harness_reasoning.hpp:283-327 | over a chain the continuation grows with every stage and bytes below it stay |
| `Recovery.ExecutedIsFinal` | src/harness_reasoning.hpp:283-327 | no later stage rewrites a byte below an earlier stage's exit: code that has run is final |
| `RecoveryScan.HeaderFound` | src/harness_reasoning.hpp:255-267 | the header search returns a get-PC sequence inside its window with the range the bytes state |
| `RecoveryScan.CandidateRecognized` | src/harness_reasoning.hpp:287-303 | every stub that the scan proposes meets the recognition predicate that the soundness theorems start from |
| `RecoveryScan.RecoveredIsChain` | src/harness_reasoning.hpp:283-332 | a successful recovery is a chain of accepted stages, each reached by an instruction path from the last |
| `RecoveryScan.XorInPlace` | src/harness_reasoning.hpp:325 | the in-place loop is the bulk rewrite |
| `RecoveryScan.Scan` | src/harness_reasoning.hpp:287-303 | the scanning loop returns the first stage not applied before |
| `RecoveryScan.Recover` | src/harness_reasoning.hpp:283-332 | the pass loop over the array computes the specified recovery, or the same failure, and with fewer than eight stages no accepted stub in view is left |
| `RecoveryScan.CandidateComplete` | src/harness_reasoning.hpp:287-303 | conversely, of each kind, an accepted stub whose get-PC call is the first in the 64 bytes before its loop, a byte stub with a short jump, is proposed exactly as it is |
| `RecoveryScan.RecoverComplete` | src/harness_reasoning.hpp:283-332 | when recovery ends with fewer stages than passes, no such stub with reachable call and loop is left unapplied |
| `RecoveryScan.NextStage` | src/harness_reasoning.hpp:287-327 | such a stub that the path reaches, with none selected before it, is the next stage |
| `StubLayouts.ByteAccepted` | src/harness_reasoning.hpp:160-218 | every blob that holds the byte decoder, whatever key, size and offsets, is accepted |
| `StubLayouts.DwordAccepted` | src/harness_reasoning.hpp:160-218 | the same for the dword decoder |
| `StubLayouts.RepeatAccepted` | src/harness_reasoning.hpp:160-218 | the same for the repeating-key decoder behind its push run |
| `StubLayouts.LayoutsFound` | src/harness_reasoning.hpp:287-303 | and the scan finds them, unless another get-PC call is in the window |
| `StubLayouts.RepeatFound` | src/harness_reasoning.hpp:287-303 | the same for the repeating-key decoder |
| `RecoveryPath.NextExactly` | src/harness_reasoning.hpp:310-323 | the instructions that the continuation check lets pass |
| `Initializer.Facts.Update` | src/harness_reasoning.hpp:53-117 | the three tables after one instruction, or rejection |
| `Initializer.NativeInitializer` | src/harness_reasoning.hpp:53-117 | the recognizer's loop computes the recursive recognition, with the same rejections |
| `Initializer.CheckCall` | src/harness_reasoning.hpp:99-112 | at the indirect call, the ascending walk over stored offsets accepts exactly a contiguous buffer with the expected size, base and hash |
| `InitializerForms.LearnedExactly` | src/harness_reasoning.hpp:64-98 | the three tables hold exactly what the instructions so far say, and refuse exactly what the grammar excludes |
| `InitializerForms.AcceptedForm` | src/harness_reasoning.hpp:53-117 | every function of the form is accepted with its bytes: a frame, a list of moves of constants, addresses in the frame and stores of known bytes side by side, each place once, and a call through the address of the first |
| `InitializerForms.OnlyTheseForms` | src/harness_reasoning.hpp:53-117 | and nothing else is |
| `Initializer.LearnSound` | src/harness_reasoning.hpp:53-117 | each tracked fact (stored byte, register constant, register pointer) stays true of the machine after the instruction |
| `Initializer.InitializerSound` | src/harness_reasoning.hpp:53-117 | if the recognizer accepts, then from every register and memory state execution reaches the indirect call with the target at EBP plus the lowest stored offset and memory there holding exactly the reported bytes |
| `Initializer.TransferRuns` | src/harness_reasoning.hpp:53-117 | the indirect call then starts executing those bytes |
| `Initializer.FunctionRuns` | src/harness_reasoning.hpp:118-137 | from function entry to the first stored byte, with only the function's own stack changed |
| `Transformation.TransformationRuns` | src/harness_reasoning.hpp:622-676 | end to end: entering the native function stores the blob, calls it and runs the recovered stages, so that memory at the buffer holds exactly the recovered bytes |
| `RecoveryLimits.NearExists` | src/harness_reasoning.hpp:160-218 | for every key, a blob with a near back jump that overlaps the rewritten range exists |
| `RecoveryLimits.NearFound` | src/harness_reasoning.hpp:287-303 | the scan proposes exactly that stage at the loop's offset |
| `RecoveryLimits.NearAccepted` | src/harness_reasoning.hpp:160-218 | its stage passes every check with every key, and is faithful exactly when the three key bytes that fall on the jump are zero |
| `RecoveryLimits.NearNeverExits` | src/harness_reasoning.hpp:160-218 | with a stray key, wherever it is loaded, that stage never reaches the offset where recovery continues |
| `RecoveryLimits.KeyBlobExists` | src/harness_reasoning.hpp:268-282 | a blob whose push immediate contains a push opcode exists |
| `RecoveryLimits.KeyFound` | src/harness_reasoning.hpp:287-303 | the scan proposes exactly that stage, with the key it read backwards |
| `RecoveryLimits.KeyAccepted` | src/harness_reasoning.hpp:268-282 | its stage passes every check, with a key that is not on the path |
| `RecoveryLimits.KeyMisread` | src/harness_reasoning.hpp:268-282 | on the processor its stack does not begin with the key read backwards from the bytes |
| `ControlFlow.Explore` | src/harness_reasoning.hpp:138-158 | the bounded worklist terminates; everything it reports is reachable; when it reports complete the set is the least one closed under decoded successors except past `stop`; incomplete has a named cause |
| `ControlFlow.Enqueue` | src/harness_reasoning.hpp:140 | queueing drops visited addresses and fails on one outside the blob |
| `ControlFlow.Program.LeastClosed` | src/harness_reasoning.hpp:138-158 | a closed set of reachable offsets is the least closed set and equals reachability by paths |
| `CodeFlow.SuccessorsExactly` | src/harness_reasoning.hpp:147-153 | what is queued after an instruction: branch targets and the next instruction, by kind |
| `CodeFlow.ExecutedIsReported` | src/harness_reasoning.hpp:138-158 | from a complete report no offset is missing that the processor executes, while the code is unchanged and no call goes elsewhere than to the next instruction |
| `CodeFlow.CallLeavesReport` | src/harness_reasoning.hpp:151 | without that condition it fails: a call with a displacement goes to an offset outside a complete report |
| `HarnessStore.Store.Running` | src/harness.cpp:79-85 | the query for a live action runner, or the controller, as a loop |
| `HarnessStore.Store.FindUnsettled` | src/harness.cpp:86-91 | the query for an unsettled action |
| `HarnessStore.Store.CountRepeats` | src/harness.cpp:1160-1165 | how many stored actions carry a request digest |
| `HarnessStore.Store.StartAction` | src/harness.cpp:200-232 | taking an action row: ownership, finished, terminal, busy and revision checks, and the whole new state |
| `HarnessStore.Store.Beat` | src/harness.cpp:235-265 | the execution heartbeat extends its own row, and the owner's lease only for its own token |
| `HarnessStore.Store.Dispatch` | src/harness.cpp:282-299 | the dispatch mark, guarded by the runner |
| `HarnessStore.Store.SaveAction` | src/harness.cpp:353-359 | saving the job of a static action, which the runner does not guard |
| `HarnessStore.Store.SettleAction` | src/harness.cpp:447-475 | settling an action, guarded by the runner; a cancelled report keeps its status |
| `HarnessStore.Store.Claim` | src/harness.cpp:990-1006 | taking ownership after the old lease ran out |
| `HarnessStore.Store.RenewLease` | src/harness.cpp:1008-1014 | renewing, by the owner of a live lease only |
| `HarnessStore.Store.CancelInvestigation` | src/harness.cpp:1015-1034 | cancelling, also while an action runs |
| `HarnessStore.Store.ReleaseOwner` | src/harness.cpp:1036-1073 | release and transfer of ownership |
| `HarnessStore.Store.ProposeAction` | src/harness.cpp:1098-1214 | proposing: a stored key changes nothing; otherwise the repeat, uncertainty and budget checks, and the charge |
| `HarnessStore.Store.FinishInvestigation` | src/harness.cpp:1215-1309 | finishing with a final status other than cancelled, only when no action is unsettled |
| `HarnessRuns.StepSound` | src/harness.cpp:200-505 | every transaction of every process keeps the invariant that links rows, runners, workers, launches and publications |
| `HarnessRuns.LaunchedOnce` | src/harness.cpp:268-341 | under any interleaving of runners, expired leases, takeovers and crashes no action's mutation is launched twice |
| `HarnessRuns.CompletedIsPublished` | src/harness.cpp:303-341 | a workbench action is completed only if a record with exactly its origin is committed, and no run commits two records for one action |
| `HarnessRuns.TerminalIsFinal` | src/harness.cpp:20-31 | a final status never changes again, even when a slow runner whose lease ran out wakes up later |
| `HarnessRuns.StepRetains` | src/harness.cpp:353-359 | no transaction, the unguarded save included, overwrites a published action |
| `HarnessRuns.PublicationIsPermanent` | src/harness.cpp:368-387 | a committed publication stays part of its action for the rest of every run |
| `HarnessLimits.LateSave` | src/harness.cpp:353-359 | a run from the beginning: a runner stalls past its lease, another settles its static action, the owner reports the answer, and then the first saves its job, so the answer stands over an action that is running |
| `HarnessLimits.SettledReopens` | src/harness.cpp:353-359 | after any final report a settled action becomes unsettled in some continuation exactly when a live runner that claimed it has not yet saved its static job |
| `HarnessLimits.ReportReopens` | src/harness.cpp:100-107 | so a final report over settled actions can be contradicted later exactly when such a runner is alive |
| `HarnessLimits.MutationCompletes` | src/harness.cpp:200-475 | a run from proposal to report: one mutation is launched once, published, completed and answered |
| `HarnessOwners.ClaimRunExactly` | src/harness.cpp:200-232 | an action is taken exactly for the live owner of an open idle investigation, unless its result is known |
| `HarnessOwners.TakeExactly` | src/harness.cpp:990-1006 | ownership changes hands exactly when the lease has run out and nobody is at work |
| `HarnessOwners.FinishExactly` | src/harness.cpp:1215-1309 | a report needs exactly the live owner, an open idle investigation and settled actions |
| `HarnessOwners.ReleaseExactly` | src/harness.cpp:1036-1073 | a release needs exactly the live owner, an idle investigation, and settled actions or a cancellation |
| `HarnessOwners.CancelExactly` | src/harness.cpp:1015-1034 | a cancellation needs exactly a live owner of an open investigation |
| `HarnessOwners.SettleExactly` | src/harness.cpp:447-475 | settling is the runner's alone, and what it leaves |
| `HarnessOwners.OwnerKeeps` | src/harness.cpp:990-1014 | over runs, a live owner keeps the investigation until its lease runs out, whatever anyone else does |
| `HarnessOwners.RunnerKeeps` | src/harness.cpp:200-265 | over runs, while a runner's lease is live nobody else gets its row and no other action starts |
| `HarnessOwners.RunnerFinishes` | src/harness.cpp:447-475 | so until then the runner can settle and its worker can publish |
| `HarnessBudget.ProposeAccounted` | src/harness.cpp:1160-1213 | a proposal keeps each of the five reserved amounts equal to the sum of its own request field over the actions, within its limit, and at most three actions per digest |
| `HarnessBudget.RefusedExactly` | src/harness.cpp:1098-1213 | a proposal is accepted exactly when its caller is the live owner of an open idle investigation, its key is new, no uncertain mutation and fewer than three equal requests precede it, and neither its own caps nor one of the five sums would be passed |
| `HarnessBudget.ReproposeIsFree` | src/harness.cpp:1139-1148 | proposing a stored key again charges nothing and adds nothing |
| `HarnessBudget.RequestsKept` | src/harness.cpp:200-475 | every other transaction leaves requests, reservation and limits alone |
| `HarnessBudget.ReservationExact` | src/harness.cpp:1098-1214 | in every run the reserved actions, wall time, output, derived artifacts and derived bytes are each the sum of that field over distinct actions, within the creation budget |
| `HarnessOwners.LinkExactly` | src/workbench_publication.hpp:31-96 | a publication commits exactly for the live runner of a dispatched unpublished mutation with the same request |
| `HarnessStore.Store.LinkPublication` | src/workbench_publication.hpp:31-96 | the publication commits together with the knowledge record: live runner, same request, dispatched, not yet published |
| `JobStore.ProjectStore.StartJob` | src/core.cpp:304-319 | starting a job, or returning the one stored under the idempotency key, or an error when the key has another request |
| `JobStore.ProjectStore.ClaimJob` | src/core.cpp:320-329 | claiming: final jobs and jobs with any lease row are refused, also an expired one |
| `JobStore.ProjectStore.Heartbeat` | src/core.cpp:330-333 | only the lease's token extends it |
| `JobStore.ProjectStore.SelectExpired` | src/core.cpp:334-336 | the recovery query selects each running job of the project without a live lease, once |
| `JobStore.ProjectStore.RecoverJobs` | src/core.cpp:334-339 | exactly the running jobs of the project without a live lease become interrupted, with an event, and lose their lease; every other job and lease is kept |
| `JobStore.ProjectStore.PublishResult` | src/core.cpp:343-389 | publishing: identity, the replay of a stored result, final jobs, the lease check, and every table it writes |
| `JobStore.ProjectStore.PersistIndex` | src/core.cpp:121-154 | one answer's rows, layout and head are added to the index |
| `JobStore.ProjectStore.ReindexProject` | src/core.cpp:480-491 | deleting a project's derived rows and replaying its evidence, or an error that rolls back |
| `JobRuns.StepSound` | src/core.cpp:304-389 | every transaction keeps the job invariant, and later states extend earlier ones: a final job never changes |
| `JobRuns.JobsAreSound` | src/core.cpp:304-389 | in every run each job's events are queued, then at most one start, then at most one final status; it is running exactly while its lease row exists; and the index is the fold of the evidence log |
| `JobRuns.OneResult` | src/core.cpp:343-389 | a job publishes at most one piece of evidence and what it published never changes; evidence revisions are distinct |
| `JobRuns.OwnerPublishes` | src/core.cpp:349-350 | a started job is published only by the holder of its one lease, while it is live |
| `JobRuns.RecoveredNeverPublishes` | src/core.cpp:334-350 | after recovery nobody can ever publish that job, whatever arguments and clock |
| `JobRuns.StartIsIdempotent` | src/core.cpp:304-311 | the same key and request give the first job at any later time; another request is an error |
| `JobLeases.RecoverExactly` | src/core.cpp:334-339 | recovery interrupts exactly the running jobs of the project without a live lease; every other job keeps its row and its lease |
| `JobLeases.LeaseProtects` | src/core.cpp:320-350 | over runs, a job stays with the holder of a lease until the lease runs out, whatever other processes do |
| `JobLeases.HolderPublishes` | src/core.cpp:334-389 | so a holder whose lease is live when recovery runs can still publish afterwards |
| `JobLeases.PublishExactly` | src/core.cpp:343-389 | a result is published exactly by whoever holds the job's own row and, if there is a lease, holds it live; what is stored, and that a stored result is only returned |
| `JobLeases.ClaimExactly` | src/core.cpp:320-329 | a job is claimed exactly when it is queued or running without any lease row |
| `JobLeases.JobCompletes` | src/core.cpp:304-389 | in every reachable state a new job can be started, claimed and published |
| `StaticIndex.NewestExactly` | src/core.cpp:122-136 | an answer is normalized under the layout brought by the last completed or partial answer for its artifact that stored one |
| `StaticIndex.RowsExactly` | src/core.cpp:121-154 | a row exists exactly when some entry offered its key, and it is the first record that did |
| `StaticIndex.ReindexIsIdentity` | src/core.cpp:480-491 | rebuilding any project gives back exactly the incrementally maintained index, although later entries depend on earlier layouts and identifiers are global |
| `StaticIndex.ReplayRebuilds` | src/core.cpp:480-491 | after each replayed entry the rebuilt rows are the incremental ones of that project plus everyone else's final ones |
| `StaticIndex.HeadIffAnswered` | src/core.cpp:136-140 | a scope has a head exactly when some completed or partial answer was stored |
| `StaticIndex.HeadIsLastAnswer` | src/core.cpp:136-140 | the head is the last such answer: a failed retry never hides an earlier one |
| `Controller.RunRow.Begin` | src/model_controller.cpp:430-471 | entering: refused while another lease is live; otherwise the stored record is kept and the row taken over |
| `Controller.RunRow.Save` | src/model_controller.cpp:45-60 | saving is guarded by the runner |
| `Controller.Process.BeginRequest` | src/model_controller.cpp:832-843 | one generation with its token and time rates is reserved and saved before anything is sent |
| `Controller.Process.GiveBack` | src/model_controller.cpp:863-871 | a context error, which precedes the transport, gives exactly that reservation back |
| `ControllerRuns.StepSound` | src/model_controller.cpp:430-1397 | every step of every process keeps the accounting and numbering invariant |
| `ControllerRuns.RequestsAreReserved` | src/model_controller.cpp:822-908 | in every run each saved state reserves tokens and time equal to its generations times the rates, within the maximum; requests sent never outnumber them; no request is sent twice |
| `ControllerRuns.InterruptedIsParked` | src/model_controller.cpp:533-537 | a crash, a cancellation or a takeover between reserving and saving the outcome leaves the run parked |
| `ControllerRuns.NeverReissued` | src/model_controller.cpp:533-537 | a parked run never reserves, so never sends, another request until its row is deleted by a transfer |
| `ControllerRuns.TransportErrorMayReissue` | src/model_controller.cpp:884-891 | the exception: a failed transport is saved as ready before the report, and if the process dies in between the uncertain request is followed by another one exactly when generations are left and the investigation has not ended |
| `ControllerRuns.EndedIsSilent` | src/model_controller.cpp:540 | once the investigation has ended and no holder is past the loop test, no process ever reserves another request, also after a transfer |
| `ControllerLaws.HolderKeeps` | src/model_controller.cpp:45-60 | over runs, the holder of a live lease keeps the row until it runs out, whatever other processes do |
| `ControllerLaws.GenerationCompletes` | src/model_controller.cpp:822-908 | a ready holder with a generation left can always ask, receive and execute, spending exactly one generation and sending one request |
| `ControllerLaws.ContractErrorExactly` | src/model_controller.cpp:891-908 | a response that breaks the contract is tried again at most twice in a row |
| `ControllerRuns.ReissueFromFresh` | src/model_controller.cpp:884-891 | and such a run from the beginning, for every profile with two generations |
| `KnowledgeStore.Tables.ResolveAsks` | src/knowledge.cpp:222-252 | every requested dependency is pinned to its current value, once each; an unknown one, a stale stated pin or the record itself is an error |
| `KnowledgeStore.Tables.PutRecord` | src/knowledge.cpp:162-303 | publishing a revision: expected revision, limits, pins, and the new tables |
| `Knowledge.PutStores` | src/knowledge.cpp:162-303 | a publication appends the next revision with each dependency, evidence reference and scope entry of the request once, pinned to its current value |
| `Knowledge.PutExactly` | src/knowledge.cpp:162-303 | it is accepted exactly when it continues the current revision, keeps the limits, does not depend on itself, and every reference resolves, to the pin it states if it states one |
| `Knowledge.PutWellFormed` | src/knowledge.cpp:162-303 | a publication keeps keys unique, heads newest and pins pointing backwards |
| `Knowledge.PublishedWellFormed` | src/knowledge.cpp:162-303 | every reachable store is so, whatever the environments |
| `Knowledge.PinsAcyclic` | src/knowledge.cpp:90-92 | no chain of pins returns to where it started |
| `Freshness.Search.Check` | src/knowledge.cpp:74-146 | the bounded search is exact within its limits, finds nothing exactly when everything in reach is in order, says so when it passes any limit, and its cycle branch is dead |
| `Freshness.FreshExact` | src/knowledge.cpp:93-130 | the recursion finds nothing exactly when in everything in reach record pins are heads, files exist, runtime evidence resolves to its pin, and analyses are current and unedited |
| `Freshness.LeafExact` | src/knowledge.cpp:103-130 | which reason each condition of a leaf gives: a missing file, changed or missing runtime evidence, a superseded analysis, an edited program |
| `Freshness.ReasonsExact` | src/knowledge.cpp:93-130 | the reasons of an entry are exactly those of its dependencies: a moved head, what is wrong upstream, what is wrong with a leaf |
| `Freshness.Search.Decorate` | src/knowledge.cpp:147-159 | unknown is answered exactly when a limit of depth, visits or reasons would be passed; current exactly when everything in reach is in order and the entry is the head; otherwise stale |
| `KnowledgeStore.Tables.Query` | src/knowledge.cpp:331-334 | one sorted page of 201 identifiers whose heads depend on a source |
| `KnowledgeStore.Tables.Search` | src/knowledge.cpp:323-350 | if the search is not partial it returned exactly the reverse closure, although each query is truncated; every row is in the closure, once |
| `KnowledgeStore.WholePage` | src/knowledge.cpp:331-334 | a page of 201 identifiers cannot be among fewer rows, so truncation is always reported |
| `Impact.PublicationImpact` | src/knowledge.cpp:162-303 | publishing a new revision makes non-current exactly the current members of its reverse closure; every other head is as current as before |
| `Impact.ChainImpacts` | src/knowledge.cpp:93-102 | a fresh head whose pins reach a user of a source is in the closure of that source |
| `Impact.NoHops` | src/knowledge.cpp:93-102 | a head that is still fresh after the publication is not in the closure |
| `Planning.DepthFirst.Visit` | src/model_investigation.hpp:77-85 | one visit of the depth-first check: finished rows come after their dependencies; a failure names a missing dependency or a cycle |
| `Planning.CheckOrder` | src/model_investigation.hpp:75-86 | the check accepts exactly the closed and acyclic collections |
| `Planning.OrderedIsSortable` | src/model_investigation.hpp:75-86 | an order with every dependency first rules out cycles and missing rows |
| `WorkQueue.Investigation.Patched` | src/model_investigation.hpp:57-74 | find-or-push of each record on a copy, with its limits |
| `WorkQueue.Investigation.SavePlan` | src/model_investigation.hpp:51-95 | a patch is saved whole or changes nothing, and the saved plan is closed and acyclic in every collection |
| `WorkQueue.SavedGood` | src/model_investigation.hpp:51-95 | every accepted patch keeps all four collections closed and acyclic |
| `WorkQueue.Queue` | src/model_investigation.hpp:96-121 | the queue is the stable ranking of the ready rows, cut to eight, with their total |
| `WorkQueue.SortIsStable` | src/model_investigation.hpp:118-119 | the ranking falls in score, loses nothing and keeps equal scores in stored order |
| `WorkQueue.HasSink` | src/model_investigation.hpp:96-121 | every nonempty set of rows of an acyclic plan has one that depends on none of them |
| `WorkQueue.QueueNotEmpty` | src/model_investigation.hpp:96-121 | rows only open or supported with one open always offer work |
| `QueueLaws.SavedPatches` | src/model_investigation.hpp:51-95 | a saved patch changes only its collection: old rows keep their places and take the last record for their identifier, new ones come behind |
| `QueueLaws.SavedExactly` | src/model_investigation.hpp:51-95 | a patch is saved exactly when it continues the revision, keeps its limits, leaves the collection closed and acyclic, and names a saved task or goal as active |
| `QueueLaws.ItemsExactly` | src/model_investigation.hpp:96-117 | the ranked items are exactly the open rows whose dependencies are all supported, in stored order, scored by priority plus up to ten open rows that wait for them |
| `QueueLaws.DrawnBest` | src/model_investigation.hpp:118-120 | no ready row that is left out scores higher than one of the eight offered |
| `Progress.WorkIsOffered` | src/model_investigation.hpp:51-182 | so in every reachable state, through any edits and contradictions |
| `Progress.Observer.Record` | src/model_investigation.hpp:155-194 | accounting for one decision, in the order of the code, up to the storage failure that leaves a partly updated state |
| `Progress.ObserveTwice` | src/model_investigation.hpp:155-157 | accounting the same generation twice changes nothing |
| `ProgressLaws.CountMeans` | src/model_investigation.hpp:155-175 | the counter of a query is how often it was asked in vain since it last brought news, and its fingerprints are those of all usable answers |
| `ProgressLaws.GuardExactly` | src/model_investigation.hpp:150-154 | the guard refuses a query exactly when it was asked in vain twice since it last brought news |
| `ProgressLaws.ContradictionReopens` | src/model_investigation.hpp:176-183 | a contradiction reopens every supported goal, task and hypothesis |
| `Progress.StepBounded` | src/model_investigation.hpp:140-194 | each step keeps the count of passes below twice the fingerprints plus the open allowance |
| `Progress.GuardBound` | src/model_investigation.hpp:150-194 | in every run with crashes and resumptions, a query passes the guard in at most 2k+2 generations, for k distinct usable fingerprints |
| `ProofGate.SelectedProof` | src/harness_verification.hpp:41-51 | the lookup of a selected solution that names the proof in every field |
| `ProofGate.Scan` | src/harness_verification.hpp:65-89 | one pass over records keeps the first match and fails on a different answer |
| `ProofGate.MatchQuestion` | src/harness_verification.hpp:63-91 | a question's record, or failure exactly when two of its records disagree |
| `ProofGate.VerifiedRequirements` | src/harness_verification.hpp:55-91 | the loop over questions computes the specified matching |
| `ProofRuns.AnswerStays` | src/harness_verification.hpp:55-91 | adding records without contradiction keeps a proved answer |
| `ProofRuns.AnswersArePermanent` | src/harness_reasoning.hpp:454-459 | a question once proved stays proved with the same answer through all later operations |
| `ProofRuns.GateIsSound` | src/harness.cpp:1312-1355 | in every run: verified solve only after an independent grader passed an answer to a question that asks for it; answered only if every question is proved by an intact selected record of exactly its declared kind; selected answers to one question never disagree |
| `ProofRuns.AnswerIsProved` | src/harness_verification.hpp:101-127 | an answered question rests on such a record, a challenge solve on a passing grade for that very answer |
| `ProofRuns.AnsweredExactly` | src/harness_verification.hpp:55-91 | a question is answered exactly when some intact stored record of its declared kind, for this question, artifact and investigation, with the obligation of that kind, and selected if it is a reasoning record, proves it |
| `ProofRuns.AnsweredGate` | src/harness_verification.hpp:93-127 | the investigation ends as answered exactly when it is open, every question is proved, none is disputed and the report is the verifier's |
| `ProofRuns.FlagsExactly` | src/harness_reasoning.hpp:699-707 | the two flags say exactly that every question is proved, and that one of them asked for independent grading |
| `ProofRuns.SelectionProves` | src/harness_reasoning.hpp:677-690 | signing a proof of the declared kind and selecting its answer proves the question |
| `ProofRuns.CertificationProves` | src/harness.cpp:1312-1355 | an independent passing grade proves the question, and only one that asks for it |
| `ProofRuns.SelectionsAreBacked` | src/harness_reasoning.hpp:677-690 | in every run each selected answer names an intact stored proof in every field, and no collection holds more than sixteen records |
| `ProofRuns.FlagIsGraded` | src/harness_reasoning.hpp:699-707 | the flag is set only by a match that includes a certified solve |
| `Codec.Unhex` | src/knowledge_artifacts.cpp:7-17 | accepts exactly hexadecimal texts of even bounded length, in either case, and returns the bytes they encode |
| `Codec.Hex` | src/knowledge_artifacts.cpp:18-26 | the encoding loop |
| `Codec.HexRoundTrip` | src/knowledge_artifacts.cpp:7-26 | decoding an encoding gives back the bytes |
| `Codec.DecodeGroup` | src/knowledge_artifacts.cpp:49-66 | one group decodes exactly when some bytes encode to it: padding place, symbols and stray bits |
| `Codec.DecodeBase64` | src/knowledge_artifacts.cpp:44-76 | succeeds exactly on canonical encodings (RFC 4648, sections 4 and 3.5) and returns the bytes they encode |
| `Codec.EncodeInjective` | src/knowledge_artifacts.cpp:44-76 | a text encodes at most one byte sequence, so decoding is its inverse |
| `Codec.Base64RoundTrip` | src/knowledge_artifacts.cpp:44-76 | decoding a canonical encoding gives back its bytes |
| `Codec.StandardVectors` | src/knowledge_artifacts.cpp:44-76 | the encoding is the standard one, by its published vectors |
| `Codec.XorTransform` | src/knowledge_artifacts.cpp:32-41 | the in-place edit XORs byte i with key byte i mod n, for keys of 1 to 4096 bytes |
| `Codec.XoredTwice` | src/knowledge_artifacts.cpp:32-41 | applying a key twice gives back the input |

## Left out

- StubBreaks.RepeatBreaks: says that the stub leaves the recognized loop, not that it can never end up with the same bytes, since the changed jump may run anything.
- X86: instructions outside those of the three stub shapes, the allowed path and the initializer, and prefixes; the decoder itself (XAIR) is not part of this model and is represented by `DecodeAt`, and in `ControlFlow` by an arbitrary function.
- Regular-expression extraction of the blob from decompiler text, the string and sink search after the last stage, and the requirement of one unambiguous answer.
- Recovery.StageMisses: where the rewrite changes the stub's own jump, it says that the run leaves the recognized loop there, as `StubBreaks.RepeatBreaks` does.
- ControlFlow.Explore: addresses are natural numbers, so a 64-bit wrap of a successor address is not modelled.
- Transformation.TransformationRuns: needs that the hash does not confuse the stored bytes with the recovered blob.
- HarnessRuns.CompletedIsPublished: what a publication contains beyond its origin, and normalization of requests, are not modelled.
- HarnessStore.Store.ReleaseOwner: the owner record, the model-call grant and the deletion of the run row at a transfer are not part of the investigation tables here (the deletion is `ControllerRuns` `DoTransfer`).
- HarnessStore.Store.FinishInvestigation: the checks of the report's claims, citations and verifier are not modelled here; the gate on its answers is `ProofRuns`.
- Owner modes, envelopes and scopes of an investigation, static backend execution inside an action, derived component admission beyond its outcome, and the JSON size limits of every record.
- JobStore.ProjectStore.PublishResult: the functions and function_views tables and the mirror file are not modelled; the list of statuses is the one of the result contract.
- StaticIndex: what normalize_static extracts is a function parameter of an answer and the newest layout.
- ControllerRuns: prompts, packets, decisions other than their phase effects, and the wait after a rate limit; the reasons for which a process stops are not distinguished.
- Controller.RunRow.Begin: the checks of the owner's token, of live action runners and of the pinned configuration before entering are not modelled.
- Controller.Process.GiveBack: unsigned wrap-around of the counters, which the invariant excludes.
- KnowledgeStore.Tables.PutRecord: the checks of a record's kind, state, title, body and size are not modelled.
- KnowledgeStore.Tables.Search: returns identifiers; each row's own freshness is `Freshness.Search.Decorate`. Listing, search, paging and the record size limit are not modelled.
- Freshness.Search.Check: reads one snapshot, whereas the code reads outside a transaction; the stored hash of each loaded record is taken to match.
- WorkQueue.Queue: question and summary texts and their shortening.
- Progress.Observer.Record: what an observation record holds beyond being counted.
- ProofRuns.GateIsSound: speaks of investigations that declare proof kinds. One that declares none can finish as answered without a proof; the model counts that report among the other final ones.
- ProofGate: reasoning operations other than proof and solution records, whose own checks decide when they may be added; the text of a report.
- Bundles, batches, runtime experiments, guests, isolated workers, network client, backends and user interfaces.

# Verified models of foliopath's AI operations, admission, catalog and serving cores

This project models the parts of foliopath whose correctness depends on state
that survives a call: durable AI operations and the two workers that run them,
idempotent admission, the request rate limiter, the model package catalog, the
inference session cache, automatic discovery, and byte ranges. Each module
follows one component of the repository; code that changes state step by step
is a class or a loop proved against a specification, and pure code is functions
and lemmas. `dafny verify dfyconfig.toml` checks everything.

## How concurrency is modelled

A persisted operation is a row that changes only through the store's
compare-and-set update (`Operations.Apply`). A service call is a sequence of
single store statements, and between any two of them the `Environment` method
may accept a cancellation, start the shutdown, or change a model's
availability. The write of a transition and its read-back are two separate
statements, as in `internal/store/sqlite/aimodel_operations.go`. A ghost
`trail` records every version of the row, so the theorems speak about whole
runs: `CancelAccepted`, `CancelHonoured` and `RunConcluded` are predicates on
trails. Admission is a step machine (`Admission.Next`) run over arbitrary
schedules of any number of callers, any of whose store calls may be cut off by
its context, and also a class (`AdmissionQueue`) that the download and bootstrap
code calls. Installs and activations have a queue each, with keys of its own.

## Promises the code does not keep

These are proved, each with a concrete input and the exact condition.

- A faithful store and a steady clock can still produce a repository-state
  error: the row moves between a write and its read-back
  (`Operations.ReadBackCanMissItsOwnWrite`). The read-back accepts exactly when
  nothing moved the row and the clock had not gone back past its last update
  (`Operations.ReadBackAcceptsExactly`).
- Wakes do not happen for every created row. A worker that polls the row before
  its creator reads it back makes the creator fail without waking anyone
  (`Admission.CreatedRowCanGoUnannounced`), and so does a context cancelled
  between the insertion and that read (`Admission.CutOffCreatorWakesNobody`).
  Over every run there is a wake exactly if the creator reads the row back
  before it has moved (`Admission.AnnouncedExactly`).
- `StartDownload` admits a second active install if the first one's stamp
  (creation time, then operation id) was not later than those of all finished
  installs of the download, as after a clock set back
  (`Download.ClockSetBackDefeatsTheGuard`); the next download is stopped exactly
  when it was later (`Download.NextDownloadIsStoppedExactly`).
- `decimalInt64` returns `-` for the least int64, and for no other value
  anything but the canonical numeral (`RequestHash.LeastInt64IsNotConverted`).
  Request hashes stay injective all the same.
- With discovery's steps interleaved more finely than its methods, a library
  can become active and blocked at once, and active without being watched
  (`Discovery.DegradedBetweenWatchAndEntry`). The first happens exactly if it is
  degraded between its check and its entry as active, the second exactly if it
  is degraded after the watch and none of its directories is watched since
  (`Discovery.ApartUnlessDegradedBetween`).
  `Discovery.Coordinator.Reconfigure` leaves an active library as it is, so such
  a library stays unwatched.
- A degraded library can be watched before anything releases it: not with its
  whole tree (`Discovery.WatchedOnlyAfterRelease`), but a reconcile job's new
  directory is watched without asking (`Discovery.BarredLibraryIsWatched`). In
  every run a library so held back is watched if and only if one of its
  directories was since it was last degraded (`Discovery.Coordinate`).
- `Verify` never accepts an offered package whose licence summary is longer
  than 128 bytes, although the lookup by content hash returns it
  (`PackageCatalogs.OfferedButNeverVerified`); any other offered package it
  accepts (`PackageCatalogs.Verify`).
- Range positions may carry a plus sign, which section 14.1.2 of RFC 9110 does
  not allow (`ContentRanges.PlusSignIsAccepted`), and a satisfiable range is
  refused if its last position or suffix length is beyond int64 or its header
  longer than 128 bytes (`ContentRanges.SatisfiableRangesAreRefused`). For
  headers that begin with `bytes=` these are the only differences
  (`ContentRanges.RangesAreReadRight`); range units are case-insensitive by
  section 14.1, and a unit in other letters is refused.

## Model

| member | source | states |
|---|---|---|
| Operations.FreshIsValid | internal/aimodel/operation.go:129-145 | an operation as every admission creates it passes the service's own validation |
| Operations.PerformKeeps | internal/aimodel/operation.go:186-287 | one of the six service calls on an install or activation, at any clocks, keeps the row valid, keeps its identity, never lowers progress, never replaces a total, and raises the revision by one exactly if it changes the row |
| Operations.HistoriesKeepOperationsValid | internal/aimodel/operation.go:316-379 | every history of calls: rows stay valid, revision is the first revision plus the number of changes, terminal rows are fixed, a cancelling row moves at most once more and never to succeeded |
| Operations.CallsDoExactly | internal/aimodel/operation.go:186-287 | each of the six calls on any row at the expected revision: when it is accepted; the state, phase, counts, total, code, revision and times it then writes; and the error, or the answer without a write, that meets it otherwise |
| Operations.EffectsAreWritten | internal/aimodel/operation.go:186-287 | a call has an effect on a row if and only if it is accepted, and then the stated one, field by field |
| Operations.FromCreationOn | internal/aimodel/operation.go:129-145 | every row that any history makes of a new operation: its phase, error code, finish time and counts by its state |
| Operations.CancellationsCollapse | internal/aimodel/operation.go:223-242 | any number of cancellation requests on a row comes to at most one change, so one per pause is all the environment needs |
| Operations.CancellationDescends | internal/aimodel/operation.go:223-242 | what a cancellation makes of a row is a legal later version of it |
| Operations.ReadBackAcceptsExactly | internal/aimodel/operation.go:334-344 | a transition's check of the row it reads back passes if and only if the row has not moved since the write and the clock had not gone back past its last update |
| Operations.ReadBackCanMissItsOwnWrite | internal/store/sqlite/aimodel_operations.go:78-111 | a concrete run with a steady clock in which an accepted write ends in a repository-state error |
| AiStores.ExtendTrail | internal/store/sqlite/aimodel_operations.go:78-97 | a valid next version keeps a trail a trail; it honours an accepted cancellation if it comes from a running row or cancels |
| AiStores.DriftComposes | internal/aimodel/operation.go:223-242 | two stretches of interference are one |
| AiStores.OvertakenRow | internal/aimodel/operation.go:223-242 | interference can only leave a row, move a running one to cancelling with its counts, or cancel a queued one |
| AiStores.AiStore.Environment | internal/aimodel/operation.go:223-242 | interference changes a row only by a cancellation request and never overrides one |
| AiStores.AiStore.Get | internal/aimodel/operation.go:172-184 | a read returns the row of that moment; without I/O errors it fails only when its context is cancelled |
| AiStores.AiStore.Update | internal/store/sqlite/aimodel_operations.go:60-112 | the conditional update writes exactly the planned row if nobody moved it, and otherwise refuses and leaves the trail to interference |
| AiStores.AiStore.Transition | internal/aimodel/operation.go:316-345 | a transition writes at most once, from exactly the row it was planned on; success means the row still is what was written |
| AiStores.AiStore.CommitAtOnce | internal/store/sqlite/aimodel_activation.go:114-205 | the transaction alone: it refuses only a moved row, one that is not a running activation, or a model at another revision or unavailable, and otherwise succeeds the row |
| AiStores.AiStore.CommitActivation | internal/store/sqlite/aimodel_activation.go:114-205 | an activation commit is all or nothing: generation, commit record and succeeded row together, with the operation at its expected revision and the model available at its expected revision, or none of them; and what each refusal says about the row and the model |
| OperationService.Invoke | internal/aimodel/operation.go:186-287 | the read, compare, decide and transition body of the six calls under interference: an accepted call is written field by field as stated; each error has its cause: a moved row, a refused call, a row overtaken or a clock set back before the read-back, or a cancelled context |
| OperationService.AcceptedIsPlanned | internal/aimodel/operation.go:186-287 | the decision writes exactly the accepted calls, keeps a cancelling row as it is, and refuses all others with the error of the call |
| OperationService.SettleOnce | internal/aimodel/operation.go:296-314 | one pass ends a running or cancelling row, or is cut off by its context, or loses only to a cancellation, which leaves it cancelling; other rows it leaves alone |
| OperationService.SettleRead | internal/aimodel/operation.go:302-313 | the settling call on the row just read: settled, lost to a cancellation, or cut off |
| OperationService.SettlementIsAccepted | internal/aimodel/operation.go:302-309 | the call that settlement picks for a running or cancelling row is never refused |
| OperationService.WriteSettles | internal/aimodel/operation.go:302-309 | a settling write is the row's last version and of the right kind |
| OperationService.SettleWorkerFailure | internal/aimodel/operation.go:293-314 | with cancellations between any two statements, two passes always end a running or cancelling row: as cancelled exactly if it was cancelling at the settling write, else as failed with the given code |
| OperationService.OnePassIsNotEnough | internal/aimodel/operation.go:293-314 | for every running row, a cancellation before the first conditional update leaves it unfinished after one pass and cancelled after two |
| OperationService.SettledRunConcludes | internal/aimodel/operation.go:293-314 | a settled run is terminal, and cancelled if and only if a cancellation was accepted |
| OperationService.Conclude | internal/aimodel/operation.go:293-314 | settlement as the last act of a worker: unfinished only under shutdown, cancelled exactly if a cancellation was accepted, failed with exactly the given code if neither, an earlier success untouched |
| ActivationWorker.Process | internal/aimodel/activation_worker.go:192-225 | over all interleavings an accepted cancellation never ends in succeeded or failed, and the new generation becomes active exactly if the operation ends succeeded; without cancellation and shutdown it fails with the code of the first thing that went wrong, and succeeds if nothing did and the model stayed available at its revision |
| ActivationWorker.Activate | internal/aimodel/activation_worker.go:214-225 | preparing, committing and settling: the generation becomes active exactly if the operation ends succeeded, a commit whose row could not be read back stands, and a prepared generation of a model that stayed available is committed unless cancelled or shut down |
| WorkerErrors.InstallErrorCode | internal/aimodel/install_worker.go:166-183 | every worker error has a storable code, fixed by the highest class it matches |
| WorkerErrors.ActivationErrorCode | internal/aimodel/activation_worker.go:422-436 | every activation error has a storable code, fixed by the highest class it matches |
| InstallWorker.AscendingExtends | internal/aimodel/installer.go:52-81 | reports that do not fall keep the sequence nondecreasing from 0 to the package size |
| InstallWorker.InstallRun.Persist | internal/aimodel/install_worker.go:99-108 | persisting a count that does not fall never meets the refusal of falling or inconsistent progress; it writes the copying phase and the count, and fails only under shutdown, an accepted cancellation or a clock set back |
| InstallWorker.InstallRun.Report | internal/aimodel/install_worker.go:92-109 | the throttled callback never lets the row run ahead of the reports; it persists the first, the complete and every report that is not too soon, and a dropped one changes nothing |
| InstallWorker.InstallRun.Copy | internal/aimodel/installer.go:51-81 | for any reads of any sizes the reports are 0, the capped running count after every read with bytes, and the package size; a finished copy has persisted size out of size; undisturbed, only the publisher fails it |
| InstallWorker.InstallRun.InstallWithProgress | internal/aimodel/installer.go:40-86 | a managed installation without error has persisted the full count; undisturbed, its error is that of its source, its publisher or its registration, in this order, or none |
| InstallWorker.ProgressOutcome | internal/aimodel/install_worker.go:99-108 | an accepted progress write and what interference can make of it |
| InstallWorker.FailureIsDisturbance | internal/aimodel/operation.go:316-345 | an accepted call on a running row fails only after a cancellation or with an update time that went back |
| InstallWorker.Process | internal/aimodel/install_worker.go:83-139 | over all interleavings an accepted cancellation never ends in succeeded or failed; without cancellation, shutdown and a clock set back the install succeeds if and only if its installer reports no error, and otherwise fails with exactly the code of that error; a succeeded managed install is recorded as size out of size |
| InstallWorker.Finalize | internal/aimodel/install_worker.go:130-138 | the two finalizing writes keep the counts, any failure of either is settled, and undisturbed the row ends succeeded |
| InstallWorker.FinishInstall | internal/aimodel/install_worker.go:136-138 | the last write, on a row that says it is finalizing |
| InstallWorker.FinalOutcome | internal/aimodel/install_worker.go:130-138 | a finalizing call is always accepted on a running row, and fails only by shutdown, cancellation or an update time that went back, or after it has succeeded |
| InstallWorker.SettleFinalizationFailure | internal/aimodel/install_worker.go:141-146 | a failed finalization is concluded unless shutting down, and a success that only failed to be read back stays |
| RequestHash.DecimalReadsBack | internal/aimodel/activation.go:260-280 | the numeral of a number reads back as it |
| RequestHash.CanonicalIsInjective | internal/aimodel/activation.go:260-280 | different integers have different canonical numerals |
| RequestHash.ConvertedIsInjective | internal/aimodel/activation.go:260-280 | the conversion tells all int64 values apart, the least one included |
| RequestHash.FillDigits | internal/aimodel/activation.go:268-274 | the backward digit loop stays inside its buffer, leaves room for a sign, and leaves exactly the numeral |
| RequestHash.DecimalInt64 | internal/aimodel/activation.go:260-280 | the conversion, with the wrapping negation, never leaves its 20 bytes and returns the canonical numeral but for the least int64 |
| RequestHash.LeastInt64IsNotConverted | internal/aimodel/activation.go:264-267 | the least int64 is the only value not converted canonically |
| RequestHash.InstallPreimageIsInjective | internal/aimodel/install_queue.go:28-31 | the hashed text of an install determines candidate and storage mode |
| RequestHash.ActivationPreimageIsInjective | internal/aimodel/activation.go:225-228 | the hashed text of an activation determines model and revision, for all int64 and for identifiers that contain NULs |
| RequestHash.PrefixesDiffer | internal/aimodel/install_queue.go:29-29 | no install text equals an activation text |
| Admission.HashIdentifiesRequest | internal/aimodel/install_queue.go:125-134 | requests with equal hashes are of one kind and for the same candidate and storage mode, or the same model and revision |
| Admission.FindKeepsInv | internal/aimodel/install_queue.go:58-75 | the replay step keeps the admission invariant |
| Admission.FindAnswers | internal/aimodel/install_queue.go:58-75 | an admissible caller that finds the key gets the stored operation, replayed, if the hashes agree, and a conflict if and only if they differ; one that finds nothing goes on |
| Admission.InsertKeepsInv | internal/store/sqlite/aimodel_install_queue.go:32-74 | insert-if-absent keeps the admission invariant |
| Admission.InsertMakesTheRow | internal/store/sqlite/aimodel_install_queue.go:32-74 | an insertion makes the row if there is none, leaves one alone, and tells its caller which |
| Admission.ReadItBackKeepsInv | internal/aimodel/install_queue.go:110-122 | the checks after the insertion keep the admission invariant |
| Admission.ReadItBackAnswers | internal/aimodel/install_queue.go:110-122 | the creator is admitted if and only if its row has not moved; one that lost the insertion is given the stored operation if it is of the same hash and candidate; other hashes conflict |
| Admission.CutKeepsInv | internal/aimodel/install_queue.go:106-109 | a store call cut off at any point keeps the admission invariant |
| Admission.MoveKeepsInv | internal/aimodel/operation.go:186-287 | any call on the stored operation in between keeps the admission invariant |
| Admission.RunsKeepInv | internal/aimodel/install_queue.go:77-123 | every schedule of callers keeps the admission invariant |
| Admission.AdmissionIsIdempotent | internal/aimodel/install_queue.go:58-123 | any number of interleaved calls on one key of one queue: at most one row, at most one caller told created, every admitted caller gets that row's operation with created xor replayed; a conflict only for another hash, a repository-state error only for a creator whose row has moved or one that carries another candidate, at most one wake and exactly for the caller told created |
| Admission.LoneCallIsAdmitted | internal/aimodel/install_queue.go:77-123 | three steps in a row on a free key create the row as requested, admit the caller and wake the worker once |
| Admission.RefusalsHaveCauses | internal/aimodel/install_queue.go:106-109 | over every run a caller is refused by the store or cut off only by a step of the run that does just that to it |
| Admission.BothQueuesAreIdempotent | internal/store/sqlite/aimodel_activation.go:15-69 | installs and activations that use the same key at the same time do not meet: each queue is idempotent by itself |
| Admission.WakesExactlyWhenUntouched | internal/aimodel/activation.go:207-213 | a step wakes the worker if and only if it is the inserting caller reading its row back unmoved, and that caller is told created under the same condition |
| Admission.AnnouncedExactly | internal/aimodel/install_queue.go:106-122 | over every run, one wake if and only if some step is the creator reading its row back before it has moved |
| Admission.CreatedRowCanGoUnannounced | internal/aimodel/install_queue.go:116-121 | a concrete schedule in which a row is created, its creator is refused and nobody is woken |
| Admission.CutOffCreatorWakesNobody | internal/aimodel/install_queue.go:106-109 | a concrete schedule in which the creator is cut off after the insertion: the row stays as stored and nobody is woken |
| AdmissionQueues.KeepsIsTransitive | internal/store/sqlite/aimodel_install_queue.go:15-74 | stored requests stay, and their operations only move on, over any number of stretches |
| AdmissionQueues.ReplayAnswersFully | internal/aimodel/install_queue.go:67-75 | the replay check answers every stored request: the operation for the same thing, a conflict for another hash |
| AdmissionQueues.CreateAnswersFully | internal/aimodel/install_queue.go:110-122 | the checks after an insertion answer every stored request, lost insertions included |
| AdmissionQueues.AdmissionQueue.Find | internal/store/sqlite/aimodel_install_queue.go:15-21 | a lookup that is answered returns the stored request of that moment, or that there is none |
| AdmissionQueues.AdmissionQueue.Create | internal/store/sqlite/aimodel_install_queue.go:32-74 | adds at most this key, never changes another, and reads back what is stored, which may fail after the insertion; with the store answering and a free operation id it is always found |
| AdmissionQueues.AdmissionQueue.Start | internal/aimodel/activation.go:173-214 | one admission among other actors: who is admitted, under which operation, and one wake per caller told created; and with the store answering, the full answer: replayed if its request was there before, conflicting if another is, else admitted unless its row has moved already |
| DeploymentBootstrap.AttemptKeysAreDistinct | internal/app/deployment_bootstrap.go:103-103 | attempt keys of different hashes, revisions or attempts never meet |
| DeploymentBootstrap.ForeignMovesKeepAttempts | internal/app/deployment_bootstrap.go:100-112 | whatever other actors and workers do between reconciles keeps the chain of attempts |
| DeploymentBootstrap.AdmittedAttemptKeepsChain | internal/app/deployment_bootstrap.go:102-111 | one attempt's admission keeps the chain |
| DeploymentBootstrap.AdmitAttempts | internal/app/deployment_bootstrap.go:100-112 | the attempt loop keeps the chain; it ends underway only with an attempt that had neither failed nor been cancelled before, after others that all have; it gives up only when all three have; and unless a store call, an id or another request under a key keeps it from its attempts, it does one of these or finds an attempt that has already moved |
| DeploymentBootstrap.OnlyTheLastIsUnfinished | internal/app/deployment_bootstrap.go:108-110 | a later attempt exists only if every earlier one failed or was cancelled |
| DeploymentBootstrap.AttemptsAreBounded | internal/app/deployment_bootstrap.go:100-112 | where the chain of attempts is kept, at most three activations of the target exist, and at most one of them is unfinished or succeeded |
| DeploymentBootstrap.Reconciles | internal/app/deployment_bootstrap.go:100-112 | every run of reconciles, restarts, workers and other admissions from a store without activations of the target: never more than three, never two that are unfinished or succeeded, and a later attempt only after all earlier ones failed or were cancelled |
| Download.LatestExists | internal/store/sqlite/aimodel_install_queue.go:23-30 | among any installs of a download one is the latest by time and id |
| Download.LatestInstall | internal/store/sqlite/aimodel_install_queue.go:23-30 | the query finds the latest install, or that there is none |
| Download.GuardedMeansOneActive | internal/aimodel/download.go:219-225 | if whatever is active is the latest, at most one install is active |
| Download.NewInstallIsGuardedExactly | internal/aimodel/download.go:219-226 | beside finished installs, a new one is the latest if and only if its stamp is later than all theirs |
| Download.NextDownloadIsStoppedExactly | internal/aimodel/download.go:219-225 | the latest install stops the next download if and only if the active one's stamp was later than all finished ones |
| Download.ClockSetBackDefeatsTheGuard | internal/aimodel/download.go:219-225 | a concrete history in which a clock set back makes the check pass beside an active install, and the install admitted then is the second active one |
| Download.AdmissionKeepsOneActive | internal/aimodel/download.go:226-226 | admitting one install while all earlier ones are finished leaves at most one active |
| Download.StartDownload | internal/aimodel/download.go:206-227 | under the mutex one call adds its own install only, and only if the check passed; from a guarded store it never makes two active, and keeps the guard for the next call while stamps advance; with the store answering, a known download is answered in full unless the check refuses it, and a key used before from what it holds |
| Download.StartUnlessActive | internal/aimodel/download.go:219-226 | from the history check on: refused as active exactly if the latest install has not finished, and else admitted or answered in full |
| Download.Downloads | internal/aimodel/download.go:206-227 | every run of downloads of one package, with workers and other admissions in between, has at most one active install, as long as the stamps of the calls ascend |
| RateLimiter.RequestRateLimiter.DeleteExpired | internal/api/request_rate_limit.go:195-206 | the sweep keeps exactly the open windows and moves future ones to the present with their counts |
| RateLimiter.RequestRateLimiter.Allow | internal/api/request_rate_limit.go:159-193 | one call in place is one step of the table function the theorems are about |
| RateLimiter.RoomIsMadeExactly | internal/api/request_rate_limit.go:169-181 | at any clock a key without an open window is admitted if and only if fewer than 4096 other keys have one, and is else told to wait one second |
| RateLimiter.OpenWindowsCount | internal/api/request_rate_limit.go:182-192 | a key with an open window is admitted if and only if its bucket is below the limit, and is counted |
| RateLimiter.StepKeepsBounds | internal/api/request_rate_limit.go:159-193 | whatever the clock does, a call keeps the table within 4096 buckets and every bucket within its limit, and a Retry-After is from 1 to 60 |
| RateLimiter.BoundsHoldAlways | internal/api/request_rate_limit.go:159-206 | the bounds hold after every history with any clock |
| RateLimiter.OthersAreLeftAlone | internal/api/request_rate_limit.go:173-180 | with an ordered clock a call changes another key's bucket only by sweeping it once it has expired |
| RateLimiter.OthersAtAnyClock | internal/api/request_rate_limit.go:173-206 | at any clock another key's bucket keeps its count, and is moved to the present or dropped as expired only if the table is full |
| RateLimiter.OwnCallKeepsWindows | internal/api/request_rate_limit.go:164-192 | a call of the key keeps its admissions partitioned into windows of at most one limit each |
| RateLimiter.OrderedHistoriesAreWindowed | internal/api/request_rate_limit.go:159-206 | the partition holds over every ordered history of calls of all keys |
| RateLimiter.WindowAdmitsAtMostTwice | internal/api/request_rate_limit.go:159-206 | in every ordered history over all keys, evictions included, no interval of one window admits more than twice a key's limit |
| RateLimiter.TwiceIsReached | internal/api/request_rate_limit.go:159-193 | for every limit that bound is attained |
| RateLimiter.BurstIsAdmitted | internal/api/request_rate_limit.go:182-192 | a burst of one key within what is left of its open window is admitted whole and counted |
| RateLimiter.BucketStays | internal/api/request_rate_limit.go:173-206 | calls of other keys leave a bucket as it is or sweep it away |
| RateLimiter.DeniedForLimit | internal/api/request_rate_limit.go:165-189 | a request denied with its bucket in the table leaves it full, open and not in the future, and is told the rest of its window |
| RateLimiter.RetryAfterIsHonoured | internal/api/request_rate_limit.go:182-189 | after a limit denial at any clock, and any later calls of other keys, the request repeated no sooner than advertised is admitted if its bucket is still there |
| RateLimiter.WaitIsShortest | internal/api/request_rate_limit.go:183-188 | no shorter wait in whole seconds than the advertised one outlasts the window |
| RateLimiter.ClockSetBackRestoresNothing | internal/api/request_rate_limit.go:165-168 | a clock set back moves the window and gives back no quota |
| JsonKeys.RejectDuplicateKeys | internal/aimodel/catalog.go:405-455 | the recursive descent with its sets of seen keys accepts exactly the tokens of one value without a repeated key at any depth |
| JsonKeys.Decoder.WalkValue | internal/aimodel/catalog.go:407-450 | the imperative walk consumes and accepts what the recursive function says |
| JsonKeys.WalkConsumesPrinted | internal/aimodel/catalog.go:407-450 | over the tokens of any value the walk stops exactly at its end, or fails if and only if some object repeats a key |
| JsonKeys.WalkedTokensArePrinted | internal/aimodel/catalog.go:407-450 | whatever tokens the walk accepts are those of a value without repeated keys |
| JsonKeys.AcceptedExactly | internal/aimodel/catalog.go:396-455 | for every token stream, acceptance means one such value with nothing after it |
| Manifests.PlainNamesHaveNoDirectory | internal/aimodel/catalog.go:236-237 | the base-name check admits exactly names without a slash, and the root |
| Manifests.PlainNamesExactly | internal/aimodel/catalog.go:236-239 | the accepted file names, byte by byte: 1 to 255 bytes without slash, backslash or NUL and not a dot name, and the root |
| Manifests.CheckFile | internal/aimodel/catalog.go:235-257 | the checks of one file, with the room left in the total computed without overflow |
| Manifests.CheckV1Files | internal/aimodel/catalog.go:232-261 | the v1 loop over up to sixteen files accepts exactly complete packages, one sound file per role |
| Manifests.CheckThreeFiles | internal/aimodel/catalog.go:273-296 | the v2 and face loops with their role flags accept exactly complete packages |
| Manifests.ValidateManifest | internal/aimodel/catalog.go:213-334 | the three validators together accept exactly the declared manifests |
| Manifests.FittingFilesComplete | internal/aimodel/catalog.go:256-260 | files that pass one by one are a complete package if and only if no role is missing |
| Manifests.EveryRoleIsNew | internal/aimodel/catalog.go:245-249 | as many roles as files means no file repeats a role |
| Manifests.ValidManifestsHaveThreeFiles | internal/aimodel/catalog.go:226-334 | every accepted manifest, under the v1 cap of sixteen too, has exactly three distinct files of 1 byte to 4 GiB in all |
| Manifests.FirstFormatExactly | internal/aimodel/catalog.go:226-262 | the manifests of format 1 that are accepted, without the loops and in literal terms |
| Manifests.SecondFormatExactly | internal/aimodel/catalog.go:264-297 | those of format 2 |
| Manifests.FaceFormatExactly | internal/aimodel/catalog.go:299-334 | those of the face format |
| Manifests.CompletePackagesExactly | internal/aimodel/catalog.go:232-261 | a complete package is three files of three roles under three names within 4 GiB |
| Manifests.OtherFormatsAreRefused | internal/aimodel/catalog.go:213-224 | no other format is accepted |
| Catalogs.NoRoomForExtras | internal/aimodel/catalog.go:373-376 | distinct expected files all found among as many actual ones leave no extra: a permutation |
| Catalogs.IndexFacts | internal/aimodel/catalog.go:377-386 | the first loop accepts exactly regular files under distinct names, and indexes them |
| Catalogs.MatchAll | internal/aimodel/catalog.go:387-392 | the second loop accepts exactly if every manifest file is present with its size and hash |
| Catalogs.VerifyFileFacts | internal/aimodel/catalog.go:373-394 | accepts if and only if the actual files are regular and a permutation of the manifest's by name, size and hash |
| PackageCatalogs.CompactKeepsDistinct | internal/aimodel/catalog.go:108-113 | removing repetitions leaves the length exactly if there were none |
| PackageCatalogs.NewCatalog | internal/aimodel/catalog.go:98-130 | a catalog exists exactly for sound entries with distinct package ids and hashes, holds each under both keys, and its indexes are inverse views of the same entries |
| PackageCatalogs.HeldEntriesAgree | internal/aimodel/catalog.go:121-127 | two indexes of the same sound entries are in bijection |
| PackageCatalogs.PackageByContentHash | internal/aimodel/catalog.go:132-153 | finds exactly what the catalog offers under the hash on the architecture |
| PackageCatalogs.OffersAreDescribed | internal/aimodel/catalog.go:142-152 | what a catalog offers is described by its manifest, field by field, with the sum of its three file sizes |
| PackageCatalogs.PackageSize | internal/aimodel/catalog.go:143-146 | the summed size is exact and stays an int64 |
| PackageCatalogs.DescriptionsAreValidExactly | internal/aimodel/model.go:71-81 | the package made from a valid entry is valid if and only if its licence summary has at most 128 bytes |
| PackageCatalogs.OfferedButNeverVerified | internal/aimodel/catalog.go:193-195 | a concrete face package that a catalog offers and whose description is not a valid package |
| PackageCatalogs.SummaryIgnoresFileOrder | internal/aimodel/catalog.go:359-371 | the licence summary depends on the set of licences only |
| PackageCatalogs.SummariesAre | internal/aimodel/catalog.go:359-371 | a semantic package is summarized by its own licence, a face package by the licences of its files, each once and in order, joined |
| PackageCatalogs.JoinedAtTheEnd | internal/aimodel/catalog.go:371-371 | licences are joined by " AND ", whatever their number |
| PackageCatalogs.Verify | internal/aimodel/catalog.go:155-197 | accepts exactly the documents and files of an offered package whose summary fits, and then returns what the lookup by its content hash returns |
| SessionOwners.LoadsBalance | internal/app/semantic_encoder.go:91-93 | in every orderly trace loads are unloads plus the resident session |
| SessionOwners.OrderlyTraces | internal/app/semantic_encoder.go:70-156 | in every orderly trace a session is opened only while none is, closed at most once, and run only while open, for the generation validated in the same call |
| SessionOwners.EssenceOfFreshCall | internal/app/semantic_encoder.go:70-110 | what a caller sees of a call that opens, runs and closes its own session |
| SessionOwners.SessionOwner.EncodeSemanticImage | internal/app/semantic_encoder.go:70-110 | every call keeps the trace orderly and looks to its caller like one with a session of its own, run on its own input; a session of the generation is reused, a failed one closed, an interrupted one kept |
| SessionOwners.SessionOwner.Acquire | internal/app/semantic_encoder.go:83-94 | after it the resident session is of the requested generation, or none is |
| SessionOwners.SessionOwner.Tick | internal/app/semantic_encoder.go:130-135 | the idle timer closes exactly a session unused for the idle time, invisibly to callers |
| SessionOwners.SessionOwner.Close | internal/app/semantic_encoder.go:140-156 | after closing, every load has been unloaded |
| Discovery.BarredUntilReleased | internal/app/automatic_discovery.go:240-282 | a degraded library stays barred until a reconfiguration releases it |
| Discovery.WatchedOnlyAfterRelease | internal/app/automatic_discovery.go:262-282 | over a whole run, a degraded library's tree is watched again only after a reconfiguration saw a later generation, discovery disabled, or the library gone |
| Discovery.PartlyWatchedExactly | internal/app/automatic_discovery.go:353-386 | the running account of watched directories says whether one was watched since the library was last degraded |
| Discovery.Coordinate | internal/app/automatic_discovery.go:199-443 | every run of the coordinator's methods keeps active and blocked disjoint; a barred library is blocked, never watched with its whole tree, and watched in part if and only if one of its directories was watched since it was last degraded |
| Discovery.BarredLibraryIsWatched | internal/app/automatic_discovery.go:353-370 | a concrete run, of one reconcile job with two new directories, that ends with a barred library watched |
| Discovery.Coordinator.DegradeAndFallback | internal/app/automatic_discovery.go:408-443 | moves a library the database has from active to blocked at its current generation and stops watching it, or changes nothing |
| Discovery.Coordinator.Prune | internal/app/automatic_discovery.go:213-229 | keeps exactly existing libraries while discovery is enabled |
| Discovery.Coordinator.Attend | internal/app/automatic_discovery.go:250-295 | attempts a watch exactly if the library is eligible: it has a generation, is not active and is not held back at it; what it becomes for each answer of the watcher and the database |
| Discovery.Coordinator.AttendAll | internal/app/automatic_discovery.go:231-296 | over all libraries, those become active that were eligible and whose watch worked, and active ones stay as they are |
| Discovery.Coordinator.Reconfigure | internal/app/automatic_discovery.go:199-298 | as one step keeps the maps disjoint, watches no barred library, attempts to watch exactly the eligible ones, and leaves active ones as they are |
| Discovery.Coordinator.Overflowed | internal/app/automatic_discovery.go:304-320 | an overflow degrades exactly the active libraries that the database still has, and gets through if the database answers |
| Discovery.Coordinator.HandleEvent | internal/app/automatic_discovery.go:300-351 | every event keeps the maps disjoint; an overflow that gets through degrades exactly the active libraries the database has; any other event degrades its own library or changes nothing: an invalidation and a dirty directory without room degrade, a malformed event changes nothing |
| Discovery.Coordinator.DirectoryDiscovered | internal/app/automatic_discovery.go:353-386 | the new state and log for each answer: a directory is watched whatever the maps say, and the library degraded if the watch or the room for it fails; only active libraries stay watched exactly under the stated answers |
| Discovery.Coordinator.ReconcileFailed | internal/app/automatic_discovery.go:388-406 | degrades and stops watching the library, or changes nothing for an archive failure or a library that is gone |
| Discovery.ApartUnlessDegradedBetween | internal/app/automatic_discovery.go:255-285 | in finer steps, with reconcile jobs in between, the maps stay disjoint if and only if the library is not degraded between its check and its entry, and it ends active but unwatched exactly if degraded after the watch with no directory watched since |
| Discovery.DegradedBetweenWatchAndEntry | internal/app/automatic_discovery.go:255-285 | a concrete interleaving that leaves a library active, blocked and unwatched |
| ContentRanges.RangesAreReadRight | internal/api/content_http.go:223-264 | a range of the grammar is accepted if and only if its header has at most 128 bytes, it wants some byte and fits int64, and then as the interval of exactly the wanted bytes |
| ContentRanges.PlusSignIsAccepted | internal/api/content_http.go:249-260 | a header with a plus sign that is accepted |
| ContentRanges.SatisfiableRangesAreRefused | internal/api/content_http.go:227-260 | two satisfiable ranges that are refused, one beyond int64 and one too long |
| ContentRanges.AcceptedHeadersAreRanges | internal/api/content_http.go:223-264 | every accepted header is one such range, but for plus signs |
| ContentRanges.AcceptedIntervalsFit | internal/api/content_http.go:242-263 | every accepted interval lies within the content |
| ContentRanges.ParsesExactly | internal/api/content_http.go:223-264 | no range is reported if and only if there is no header, an interval if and only if the one header asks for bytes in a form and size the parser takes, and then exactly these bytes |
| ContentRanges.SplitOnce | internal/api/content_http.go:235-236 | splitting at the dash gives back both sides |
| ContentRanges.CopyContent | internal/api/content_http.go:266-298 | for any short reads, failures and cancellations, what is written is a prefix of the wanted bytes, all of them on success, and fewer on an early end of file; with nothing failing or cancelled it is done if the bytes are there |
| ContentRanges.Serve | internal/api/content_http.go:104-136 | an unconditional GET without a Range header is 200 and the whole file, one that asks for bytes in a form the parser takes is 206 and exactly those, and any other is 416 without any; what is sent is a prefix, all of it when the copy is done, which it is if nothing fails |

## Left out

- I/O errors of the database: store calls fail only by their context, a lost comparison or a refused plan; start-up recovery is the plan of `Fail`.
- Integer width of revisions, byte counts and counters: unbounded here; int64 is modelled where the code relies on it (package sizes, range positions, decimal conversion).
- Times below a millisecond and duration saturation; the rate limiter's ceiling of seconds is an integer ceiling.
- SHA-256: a request hash is taken to be as good as the text it is computed from; package hashes are opaque texts.
- Strings are sequences of bytes, one character each; JSON text, its tokenizer and the decoding into a manifest are parameters (`tokens`, `decode`), and a nil catalog is not modelled.
- Loading a model and preparing a generation: outcomes given to the activation worker, which include the commit's refusals over purpose and space fingerprint; a claimed row of another kind than activation is turned away by the claim, as in the source.
- The installer without a progress callback and the package publisher's own file handling: the sizes of the reads and the ends of the source check, the publishing and the registration are inputs (`InstallWorker.Answers`).
- The row claimed by a worker is taken as running at revision 2 with no progress; the claim query and its validation only fix that start.
- The bootstrap's availability half (identity verification, registration, marking models unavailable) and the listing and parsing of downloads.
- A content hash is taken to name one deployment model, so attempts are counted per model and availability revision.
- HTTP routing, wire types, conditional requests, headers and status codes other than those of a range; the rate limiter's policy table, whose limit is a function of the key.
- Goroutines, timers and channels: they appear as the steps that may come in between, the watcher as an early cancellation of its context.
- Kernel events that drop single watches are not modelled, and removing a library's watches always works.
- Session closing errors, which the owner only returns to the caller of Close.
- Writers of operations other than installs and activations: the jobs of other kinds may queue a row again or replace its total, which the history theorems exclude.
- InstallWorker.Process: promises success only without a cancellation, a shutdown and an update time that went back, because each of these can end a faultless install otherwise.
- ActivationWorker.Process: promises a commit only without a cancellation, a shutdown and a change of the model's availability, for the same reason.
- Operations.ReadBackAcceptsExactly: states when the check passes instead of that it always does, because it does not.
- Download.StartDownload: the guard for the next call is promised only while stamps advance, because a clock set back defeats it; admissions of the same download by other means are excluded.
- Download.Downloads: asks for ascending stamps, for the same reason.
- DeploymentBootstrap.AdmitAttempts: like Reconciles it assumes that only the bootstrap activates the target; the public endpoint refuses service models.
- RateLimiter.RetryAfterIsHonoured: takes the request of the key itself to wait meanwhile, as the header tells it to.
- ContentRanges.CopyContent: a reader that fails with its last bytes makes the copy report the failure although all bytes were written, as in the source.

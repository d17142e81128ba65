# What the system promises, and why it holds

A document library with question answering runs as a handful of services under a foreground supervisor, over a
PostgreSQL database whose rules are written in migrations, with a worker that ingests documents and a benchmark whose
evidence is signed. This project models the parts whose correctness depends on every failure path, every interleaving
or every input, and proves what they promise. Each file is one module.

- `ServiceGraph`, `RestartBudget`, `Supervisor`: the supervisor. Every call to the operating system may fail at any
  time, and every pause may be broken off. The invariant is a ledger of ownership: every process ever created is in
  hand, running under exactly one name, retained, closed after a seen exit, or lost with a logon token that could not be
  released or with a pause that was broken off, one for each; and whatever runs has its dependencies running, at every
  step of starting and stopping.
- `Ingestion`, `IngestionRuns`, `IngestionDatabase`, `IngestionWorker`, `Reingest`: the ingestion protocol. One step per
  database function, theorems over all runs of all steps, the looping functions proved against the steps, and the worker
  among any number of others.
- `AccessControl`, `AclPreviews`: who may create in which folder, what a change would alter, and that what was shown is
  what happens.
- `FolderTree`, `FinalAdmin`: the library as a bounded forest under creation, upload and move; and the rule about the
  last administrator under every interleaving of its transactions, and when these wait for each other.
- `LittleEndian`, `ModularArithmetic`, `EdwardsPoints`, `EdwardsGroup`, `EdwardsAssociativity`, `Ed25519`: the signature
  check, from Fermat's theorem to associativity of the addition and back to the loop, over any prime that is 5 modulo 8.
- `Utf8`, `SseStream`, `SseWriter`: the incremental parser of server-sent events, and the writer it reads.
- `PdfLiteral`, `PdfFile`, `PdfDocument`, `PdfReader`, `PdfScanReader`: the PDF writer, and readers that get the text of
  every page, or its image, back out of the bytes.
- `Controller`: the configuration change that takes effect or is rolled back.
- `Evidence`: the runner that collects signed evidence and the harness that judges it.
- `Wrappers`, `Sets`, `Sorting`, `Whitespace`: what several of them share.

`dafny verify dfyconfig.toml` checks everything.

## Where the code does not do what one would expect

Each of these is proved: by the exact condition in a contract, or by the case named.

- A child that became ready is lost when releasing the logon token fails: it is neither in `processes` nor retained
  (`Supervisor.Start`, `ReleaseToken`; `apps/supervisor/runtime.py:1224-1226`).
- A process that is being ended is lost when the pause between two attempts is broken off: by then it has left
  `processes`, and it is not retained; whatever the cascade had not reached goes on running (`TerminateAndClose`,
  `StopOne`, `StopCascade`; `apps/supervisor/runtime.py:1399`, 1456). As long as only calls and
  pauses fail, these are the only two ways to lose one (`Run`).
- The controller is documented to restore the prior values on any failure (`apps/supervisor/controller.py:206`). It does
  so exactly if ROLLING_BACK could be reported, every affected service has prior values, and no call of the roll-back
  fails (`Controller.Apply`); for want of any one of the three a change may stay half done
  (`Controller.StaysHalfDone`). In the production catalog the second condition always holds
  (`Controller.CatalogCoversBoth`). When the EFFECTIVE report is lost, the desired values stay in effect and the change
  is reported as FAILED (`Controller.ApplyChange`).
- The server writes events with `ensure_ascii=False`, the reader splits lines with `str.splitlines`: a payload holding
  U+0085, U+2028 or U+2029 is not read back (`SseWriter.ReadExactlyWithoutBreaks`).
- The runner accepts a namespace with adopted documents, the harness rejects every run that started in one
  (`Evidence.GuardedRunner.CompletedRunIsAccepted`).
- The clean-up after a benchmark goes on to the next document after the three kinds of error it catches. Anything
  else, as an answer that is not UTF-8 or a dropped connection, ends it: no later document is tried, and the namespace
  is not attested (`Evidence.AllAreTriedExactly`, `Evidence.NothingAfterEscape`; `benchmarks/v3/runner.py:1651-1692`).
- Changes and resets of users can deadlock, since the rebuilt table and the audit row refer to users and the references
  lock their rows: exactly if the one that holds the advisory lock refers to a user whom another one is about to change
  (`FinalAdmin.DeadlockedExactly`, `FinalAdmin.DeadlockIsReached`). An active administrator remains all the same.
- An error message that holds U+0000 or a lone surrogate cannot be stored, and the worker that tries it stops
  (`IngestionWorker.PoisonNeedsOnlyTheLease`).
- A worker that has let go of a job leaves it locked until the lease runs out exactly if its last step was taken under
  the lease and was a requeue for a time not in the database's future, as happens when its clock is behind, or a
  progress report that went backwards (`IngestionWorker.Worker.Turn`, `IngestionWorker.StaysLocked`).
- Uploads are counted by neither limit of the folder tree: one more file leaves the library within depth 256 and 10000
  nodes exactly if there were fewer nodes and its folder is less deep (`FolderTree.Library.AddFile`); `DeepLibrary` and
  `LargeLibrary` lead beyond each limit.
- A signature whose public key or nonce is the identity is refused, although RFC 8032 would accept it
  (`Ed25519.HonestSignatureVerifies`). This is intended.

## Model

| member | source | states |
|---|---|---|
| `Supervisor.Supervisor.Run` | apps/supervisor/runtime.py:1098-1166 | However a run ends, and whichever calls and pauses fail: nothing is left in `processes`, unless a pause was broken off in this run and a process dropped with it; a process not confirmed dead is retained, only after three terminations or a failed closing, and the run raises; every process ever created is closed after a seen exit, retained, still in `processes`, or lost, and there are at most as many lost processes as failed releases of a logon token and broken pauses, each kind for itself; a run that returns does so with a non-zero code and nothing left; a dependency cycle raises before anything starts; restarts stay within (services × maximum) in every window. It raises only for a cycle, a failed call, a process that would not end, a broken pause or wait, or something still retained; it returns only with the code of an exit that was noticed, of a service whose budget is spent; and where it is cut off, every round was restarted, or everything runs. |
| `Supervisor.Supervisor.Rounds` | apps/supervisor/runtime.py:1109-1158 | The same between entering the job and leaving it: the order is computed once, and there is at most one round more than there were restarts. It raises only for a cycle, or when something went wrong. |
| `Supervisor.Supervisor.Loop` | apps/supervisor/runtime.py:1111-1158 | Every further round begins with an empty `processes` and was paid for with one granted restart. |
| `Supervisor.Supervisor.Round` | apps/supervisor/runtime.py:1112-1153 | A round that ends in a failure has named a service that is in the graph and, if it was a failed start, the last one attempted; by then everything has been stopped, or the run raises. |
| `Supervisor.Supervisor.StartAndWatch` | apps/supervisor/runtime.py:1112-1151 | Either a start failed, and that service is named, or a started service was polled as exited, and that service and exit code are named; nothing else is charged to a service. A start is blamed only if something went wrong in it. It raises only if something went wrong. |
| `Supervisor.Supervisor.StartUp` | apps/supervisor/runtime.py:1112-1124 | It fails only with a service of the graph that was attempted last, and after something went wrong; otherwise every service runs. |
| `Supervisor.Supervisor.WatchAll` | apps/supervisor/runtime.py:1141-1151 | The exit that is noticed is that of a service of the graph, with the code polled; watching raises only after a failed poll or a broken wait. |
| `Supervisor.Supervisor.StartAll` | apps/supervisor/runtime.py:1113-1118 | Services are attempted in dependency order, each only when all its dependencies run; the record of attempts is all successes up to the first failure; `processes` is exactly the started prefix. |
| `Supervisor.Supervisor.Start` | apps/supervisor/runtime.py:1184-1226 | A child is handed over only after it was put into the job, resumed and found ready, in that order, and the proxy's only after a configuration check exited with code 0 and was closed; it fails only if some call or the configuration check did. A child that stood ready is lost exactly if the release of the logon token failed, and nothing else is. |
| `Supervisor.Supervisor.StartWithToken` | apps/supervisor/runtime.py:1200-1223 | A child created by a start that fails is closed after a seen exit, retained, or dropped with a broken pause. |
| `Supervisor.Supervisor.Settle` | apps/supervisor/runtime.py:1224-1226 | The bookkeeping of `ReleaseToken`: a ready child whose token is not released changes over to the lost ones. |
| `Supervisor.Supervisor.ReleaseToken` | apps/supervisor/runtime.py:1224-1226 | A ready child is lost exactly if the release fails; one that is not lost is handed on unchanged. |
| `Supervisor.Supervisor.ValidateCaddy` | apps/supervisor/runtime.py:1228-1265 | Passing means a new process ran to exit code 0 and was closed; failing leaves it closed, retained, or dropped with a broken pause. |
| `Supervisor.Supervisor.RunValidation` | apps/supervisor/runtime.py:1249-1256 | Passing needs the job, the resume, the wait and exit code 0. |
| `Supervisor.Supervisor.BringUp` | apps/supervisor/runtime.py:1207-1213 | Ready means assigned, then resumed, then found ready. |
| `Supervisor.Supervisor.CloseOrRetain` | apps/supervisor/runtime.py:1214-1223 | The process in hand ends as closed, as the last of the retained ones, or dropped, exactly as the attempt to end it came out, and no other process changes owner. |
| `Supervisor.Supervisor.TerminateAndClose` | apps/supervisor/runtime.py:1427-1465 | At most three terminations, with a pause after each of the first two; the handles are closed only after an observed exit and never twice; giving up takes all three, or an exit that was seen and closing that failed; a pause that is broken off ends it at once, after one or two; no other process is touched. |
| `Supervisor.Supervisor.StopCascade` | apps/supervisor/runtime.py:1392-1406 | Dependents stop before their dependencies, whatever fails: at every step what runs has its dependencies running. Afterwards nothing runs, unless the graph has a cycle or a pause was broken off; then exactly the process at hand was dropped, and what still runs ran before. An error is returned exactly if some process was newly retained. |
| `Supervisor.Supervisor.StopOne` | apps/supervisor/runtime.py:1398-1405 | A service on which nothing that runs depends is removed, and its process is closed, retained, or dropped exactly if the pause was broken off. |
| `Supervisor.Supervisor.ReapRetained` | apps/supervisor/runtime.py:1408-1425 | Every process kept was retained before and got three more terminations, or its exit was seen and closing it failed; it succeeds exactly if none is left. When a pause is broken off the old list stays as it was, and may then name processes closed since. |
| `Supervisor.Supervisor.WatchServices` | apps/supervisor/runtime.py:1142-1150 | It stops only for a service of the list whose process was reported exited with that code, for a failed poll, or for a wait that was broken off. All looks before it polled every service and found it active, with a quarter of a second after each. |
| `Supervisor.Supervisor.PollAll` | apps/supervisor/runtime.py:1143-1148 | One look polls the services in order, finds every one active before the first that exited or could not be polled, and goes on to the next look only if it polled all of them. |
| `Supervisor.Supervisor.FinishValidation` | apps/supervisor/runtime.py:1249-1265 | The check's process ends closed, retained, or dropped with a broken pause, and passing means closed with exit code 0. |
| `Supervisor.Supervisor.Penalize` | apps/supervisor/runtime.py:1133-1138 | The restart is granted exactly if the service had fewer than the maximum granted in the window that ends now. |
| `Supervisor.Supervisor.Recover` | apps/supervisor/runtime.py:1133-1158 | There is another round exactly if the budget of the failed service allows it and the wait, as long as the policy's list has it for that many restarts, is not broken off; without it, a failed start raises, and an exit returns its code, or 1 for code 0. |
| `Supervisor.Supervisor.Leave` | apps/supervisor/runtime.py:1106-1165 | Leaving the `with` block and the `finally` blocks: everything stopped unless a pause was broken off, every retained process tried once more, and an error unless nothing is left at all. |
| `Supervisor.Supervisor.MakeLedger` | apps/supervisor/runtime.py:1102-1104 | One fresh budget for every service name. |
| `Supervisor.NextIsStartable` | apps/supervisor/runtime.py:1113-1118 | In start order, the dependencies of the next service are among those already started. |
| `Supervisor.NobodyDependsOnLast` | apps/supervisor/runtime.py:1398-1405 | In reverse order, nothing that still runs depends on the next service to stop. |
| `ServiceGraph.OrderedServices` | apps/supervisor/runtime.py:1168-1182 | The loop over `pending` yields the layer-by-layer order, or reports a cycle. |
| `ServiceGraph.OrderIsTopological` | apps/supervisor/runtime.py:1168-1182 | A result lists every service once, each after its dependencies. |
| `ServiceGraph.CyclicExactlyWithCycle` | apps/supervisor/runtime.py:1177-1178 | It raises exactly if the graph has a cycle, a closed walk along dependencies. |
| `ServiceGraph.OrderIgnoresInputOrder` | apps/supervisor/runtime.py:1169-1182 | The result depends only on which services there are, not on how they are listed. |
| `ServiceGraph.PrefixIsClosed` | apps/supervisor/runtime.py:1113-1118 | Every prefix of the order contains the dependencies of its members. |
| `Sorting.Sort` | apps/supervisor/runtime.py:1179 | Sorting a set lists its members in ascending order, each once. |
| `ServiceGraph.Emit` | apps/supervisor/runtime.py:1179-1181 | A layer leaves `pending` entirely and in order. |
| `ServiceGraph.PeelDependencies` | apps/supervisor/manifest.py:539-547 | The second, independent cycle check, which shrinks dependency sets, finds a cycle exactly if there is one. |
| `ServiceGraph.ValidateDependencies` | apps/supervisor/manifest.py:526-547 | The verdict is the first service's first fault, or the cycle, or acceptance; accepted exactly if every dependency is known, not the service itself and named once, and there is no cycle. |
| `ServiceGraph.FaultIs` | apps/supervisor/manifest.py:526-537 | Which complaint it is: an unknown dependency comes before the service itself, and that before a repeated one. |
| `ServiceGraph.UniqueMeansDistinct` | apps/supervisor/manifest.py:536-537 | Comparing the length with that of the set detects exactly repeated dependencies. |
| `ServiceGraph.AcceptedStartsInOrder` | apps/supervisor/manifest.py:526-547 | The two checks agree: an accepted manifest can be ordered, dependencies first. |
| `RestartBudget.RestartBudget.RecordFailure` | apps/supervisor/runtime.py:643-655 | For any clock that does not run backwards: allowed exactly if fewer than the maximum were allowed in (now - window, now]; only allowed ones are remembered; the delay stands at the place of the list that counts those before it, or at its end. |
| `RestartBudget.RestartBudget.Expire` | apps/supervisor/runtime.py:644-646 | After dropping expired attempts the deque holds exactly the grants of the window. |
| `RestartBudget.GrantStaysInBudget` | apps/supervisor/runtime.py:647-649 | No window of the whole history, wherever it ends, ever holds more than the maximum. |
| `RestartBudget.CountSplits` | apps/supervisor/runtime.py:1102-1104 | The restarts of a window are one service's plus the others'. |
| `RestartBudget.BudgetsAddUp` | apps/supervisor/runtime.py:1102-1104 | If no service exceeds the maximum in a window, all together stay below (services × maximum). |
| `RestartBudget.Ledger.Charge` | apps/supervisor/runtime.py:1133-1158 | Charging one service leaves every other budget describing its own share of the history. |
| `RestartBudget.Ledger.StaysWithinTotal` | apps/supervisor/runtime.py:1133-1158 | Every window of a run holds at most (services × maximum) restarts. |
| `SseStream.SseEvents` | benchmarks/v3/runner.py:746-781 | The incremental parser yields what parsing the joined bytes at once yields, so chunk boundaries cannot matter: two chunk lists with the same bytes give the same events, or both fail. |
| `SseStream.NextChunk` | benchmarks/v3/runner.py:751-775 | One more chunk, complete or not, brings the parser where reading all bytes so far would, or dooms the stream. |
| `SseStream.DoomedStaysDoomed` | benchmarks/v3/runner.py:752-774 | What failed in a prefix fails in every extension. |
| `SseStream.SearchStable` | benchmarks/v3/runner.py:757 | The leftmost delimiter found in a prefix stays the leftmost, with the same length, in every extension. |
| `SseStream.DelimiterIs` | benchmarks/v3/runner.py:757 | A delimiter is one of the four texts of two line ends, with or without carriage returns. |
| `SseStream.DelimiterNotEarlier` | benchmarks/v3/runner.py:757 | More text never turns an earlier position into a delimiter. |
| `SseStream.NextBlockStable` | benchmarks/v3/runner.py:757-759 | So the next block is final as soon as it is found. |
| `SseStream.BlocksSplit` | benchmarks/v3/runner.py:757-759 | Cutting a text into blocks can be interrupted anywhere and continued with the rest. |
| `SseStream.ReadBlocksSplit` | benchmarks/v3/runner.py:760-775 | Reading blocks distributes over concatenation, errors included. |
| `SseStream.ScanBlock` | benchmarks/v3/runner.py:760-766 | The loop over the lines keeps the last event name and all data lines in order. |
| `SseStream.CollectConcat` | benchmarks/v3/runner.py:760-766 | Later lines add to the data, and the last event line wins. |
| `SseStream.CollectLine` | benchmarks/v3/runner.py:763-766 | What one line contributes: what follows "event: " or "data: ", or nothing. |
| `SseStream.JoinConcat` | benchmarks/v3/runner.py:770 | The data lines are joined by line feeds. |
| `SseStream.DrainBuffer` | benchmarks/v3/runner.py:757-775 | The inner loop reads all complete blocks and leaves the incomplete rest. |
| `Utf8.DecodeSplit` | benchmarks/v3/runner.py:749-755 | Incremental UTF-8 decoding (RFC 3629 section 3) gives the text, and the bytes still pending, of decoding everything at once. |
| `Utf8.DecodesExactlyEncodings` | benchmarks/v3/runner.py:776-779 | Bytes decode completely exactly if they encode a text of scalar values, and then to that text. |
| `Utf8.FirstOfEncoding` | benchmarks/v3/runner.py:753 | The first scalar of an encoding is read back whatever follows. |
| `Utf8.FirstIsEncoding` | benchmarks/v3/runner.py:753 | What is accepted as a scalar is its shortest encoding. |
| `SseWriter.ReadExactlyWithoutBreaks` | apps/api/app/services/rag.py:407-408 | An event as the server writes it is read back exactly if neither its name nor its body contains a character at which `str.splitlines` breaks; the JSON text may contain U+0085, U+2028 or U+2029, and then it is not. |
| `SseWriter.StreamRoundTrip` | apps/api/app/services/rag.py:407-408 | A stream of events without such characters is read back event by event. |
| `SseWriter.CutStream` | benchmarks/v3/runner.py:776-781 | A stream that breaks off, at whatever byte, is read exactly if it does so between two events, and then to exactly the events before; inside of an event, even if only the last line feed is missing, it fails. |
| `SseWriter.TailDecides` | benchmarks/v3/runner.py:780-781 | What follows the last event must be blank, and then does no harm. |
| `SseWriter.BadPayloadFails` | benchmarks/v3/runner.py:769-774 | An event whose data is not a JSON object makes the stream fail, whatever comes after it. |
| `SseWriter.LineIsSkipped` | benchmarks/v3/runner.py:767-768 | A single line between two events, a comment or half an event, is skipped. |
| `SseWriter.JsonIsReadExactly` | apps/api/app/services/rag.py:407-408 | Among texts without control characters, as JSON has none, exactly those with U+0085, U+2028 or U+2029 are not read back. |
| `IngestionRuns.StepKeepsInv` | apps/api/alembic/versions/0006_versioned_claim.py:45-88 | Every step of claim, heartbeat, progress, commit, requeue, poison, upload and both re-ingestions keeps the tables consistent. |
| `IngestionRuns.RunKeepsInv` | apps/api/alembic/versions/0006_versioned_claim.py:45-88 | So does every run. |
| `IngestionRuns.ReachableTables` | apps/api/alembic/versions/0003_v6_ingestion_version_guard.py:44-98 | In every reachable state `chunk_count` is the number of stored chunks, chunks belong to ready documents and carry their versions, and a document has at most one queued or running job. |
| `IngestionRuns.RunHasJob` | apps/api/alembic/versions/0001_v4_baseline.py:4486-4518 | Every document has a job, in every state of every run of these steps: it comes with its first one, and none of them takes one away. Deleting a document, which takes its jobs along, is not among the steps. |
| `IngestionRuns.RetryIsRefusedExactly` | apps/api/alembic/versions/0001_v4_baseline.py:1676-1688 | So the operator's retry of a document without an active job is refused exactly unless its latest job, and the document, have failed; the comparison with an absent status never happens. |
| `IngestionRuns.StoredChunks` | apps/api/alembic/versions/0003_v6_ingestion_version_guard.py:64-93 | A commit leaves the document with exactly the given rows and every other document with what it had. |
| `IngestionRuns.RowMapStores` | apps/api/alembic/versions/0003_v6_ingestion_version_guard.py:65-87 | Every given row is stored under its identifier with its ordinal, versions and body. |
| `IngestionRuns.RowMapSource` | apps/api/alembic/versions/0003_v6_ingestion_version_guard.py:65-87 | Nothing but given rows is stored. |
| `IngestionRuns.CommittedRows` | apps/api/alembic/versions/0003_v6_ingestion_version_guard.py:33-93 | Under a held lease a commit goes through exactly if all rows have the document's versions, free keys and distinct ordinals; then the document's chunks are those rows, field by field, and every other chunk is as before. |
| `IngestionRuns.StepFence` | apps/api/alembic/versions/0006_versioned_claim.py:68-81 | A claim raises the job's fencing token by one, nothing lowers it, and a completed job never changes. |
| `IngestionRuns.RunFence` | apps/api/alembic/versions/0006_versioned_claim.py:68-81 | The same over whole runs. |
| `IngestionRuns.SupersededClaimIsDead` | apps/api/alembic/versions/0003_v6_ingestion_version_guard.py:33-43 | Once a job was claimed again, no step of the earlier claimant succeeds or changes anything, ever, with any token. |
| `IngestionRuns.HeldIsUntouched` | apps/api/alembic/versions/0003_v6_ingestion_version_guard.py:33-43 | While a lease runs, only its claimant's steps change the job, and nobody can claim it. |
| `IngestionRuns.ClaimIsExclusive` | apps/api/alembic/versions/0006_versioned_claim.py:51-82 | From a claim until its lease runs out, whatever other steps others take, the claimant holds the job unchanged and passes the guard. Deleting the document, which ends a claim early, is not among the steps. |
| `IngestionRuns.NextClaim` | apps/api/alembic/versions/0006_versioned_claim.py:51-82 | If the claimant does nothing, the next claim succeeds exactly from the end of its lease on. |
| `IngestionRuns.RequeuedWaits` | apps/api/alembic/versions/0001_v4_baseline.py:3753-3782 | A requeued job stays as it is, whatever happens, and can be claimed exactly from the time its worker asked for. |
| `IngestionRuns.ProgressOnlyGrows` | apps/api/alembic/versions/0001_v4_baseline.py:3585-3672 | As long as a job is not claimed again, over every run, its stage never goes back, nor within a stage its counts. |
| `IngestionRuns.ReportIsTakenExactly` | apps/api/alembic/versions/0001_v4_baseline.py:3585-3672 | A report is taken exactly if the lease is held, the numbers make sense and nothing goes back. |
| `IngestionRuns.OnlyOneHolds` | apps/api/alembic/versions/0003_v6_ingestion_version_guard.py:33-43 | At any instant at most one token and fence pass the guard, no claim succeeds, and the holder's heartbeat prolongs the lease. |
| `IngestionRuns.CompletedIsFinal` | apps/api/alembic/versions/0003_v6_ingestion_version_guard.py:99-107 | A completed job is never claimed, and no claimant's step on it succeeds. |
| `IngestionRuns.RequeuesAreBounded` | apps/api/app/worker.py:220-241 | A job is requeued fewer times than it may be attempted, however leases expire and workers change in between. |
| `IngestionRuns.ClaimsAreAccountedFor` | apps/api/alembic/versions/0006_versioned_claim.py:51-82 | Over every run, the claims of a job are its requeues, plus the takeovers of an expired lease, plus one if it was waiting for its first; an exact count. |
| `IngestionRuns.ClaimsAreBounded` | apps/api/app/worker.py:220-241 | So a job is claimed at most as often as it may be attempted, and once more for every lease that ran out. |
| `IngestionDatabase.Database.ClaimJob` | apps/api/alembic/versions/0006_versioned_claim.py:51-88 | The claim takes over, of the claimable jobs that nobody has locked, one with the earliest time and then the earliest creation, and finds none only if all are locked; the job then starts over, with one attempt and one fence more and a lease of the length asked for. |
| `IngestionDatabase.Database.CommitJob` | apps/api/alembic/versions/0003_v6_ingestion_version_guard.py:33-107 | The row-by-row commit is one atomic guarded step, all or nothing; what it writes to job, document and chunks, column by column. |
| `IngestionDatabase.Database.InsertRows` | apps/api/alembic/versions/0003_v6_ingestion_version_guard.py:65-87 | Rows are stored one by one exactly if their keys and ordinals allow all of them. |
| `IngestionDatabase.Database.ScanJobs` | apps/api/alembic/versions/0005_document_reingest_action.py:206-217 | One pass finds the latest job by creation, and then by key, and whether any is queued or running. |
| `IngestionDatabase.Database.ReingestDocument` | apps/api/alembic/versions/0005_document_reingest_action.py:142-283 | The checks and writes of the re-ingestion are its one-step specification; afterwards the document is as freshly uploaded, with one more job. |
| `IngestionDatabase.Database.RequeueForMaintenance` | apps/api/alembic/versions/0001_v4_baseline.py:1635-1703 | So are those of the operator's variant, whose token covers the document and all of its jobs, latest first. A retry goes through only for a failed document whose latest job failed or was interrupted. |
| `IngestionDatabase.Database.UploadDocument` | apps/api/alembic/versions/0001_v4_baseline.py:4486-4518 | A document and its first job, column by column, exactly if both keys are free. |
| `IngestionDatabase.Database.HeartbeatJob` | apps/api/alembic/versions/0001_v4_baseline.py:3555-3583 | The lease is as long again as asked for from now on, and nothing else changes. |
| `IngestionDatabase.Database.ReportProgress` | apps/api/alembic/versions/0001_v4_baseline.py:3585-3672 | What a report writes to job and document, column by column. |
| `IngestionDatabase.Database.RequeueJob` | apps/api/alembic/versions/0001_v4_baseline.py:3753-3782 | The job is queued for the time asked for, without a lease or an error. |
| `IngestionDatabase.Database.PoisonJob` | apps/api/alembic/versions/0001_v4_baseline.py:3784-3824 | Job and document have failed, with the trimmed message. |
| `IngestionDatabase.Database.Perform` | apps/api/alembic/versions/0001_v4_baseline.py:3555-3825 | Any step, its checks and its writes carried out in place, is the step the run theorems speak of. |
| `IngestionWorker.PoisonNeedsOnlyTheLease` | apps/api/app/worker.py:410-426 | After stripping, defaulting and truncating, poisoning raises exactly if the message holds U+0000 or a lone surrogate, and is otherwise refused exactly if the lease is lost. |
| `IngestionWorker.MessageIs` | apps/api/app/worker.py:410-411 | The message is the error without the blanks around it, up to 500 characters, or the default if nothing is left. |
| `IngestionWorker.TrimIs` | apps/api/alembic/versions/0001_v4_baseline.py:3784-3824 | What the database stores is it without the spaces around it. |
| `IngestionWorker.DelayDoubles` | apps/api/app/worker.py:390-393 | The first delay is the configured one, each further one twice the one before, and none above five minutes. |
| `IngestionWorker.Deployment.RetriesAreBounded` | apps/api/app/worker.py:220-241 | Among any number of workers that keep the worker's own rule, and anybody else, each job is requeued fewer times than it may be attempted. |
| `IngestionWorker.Deployment.Obeyed` | apps/api/app/worker.py:220-241 | A worker that compares its own claim's attempt with the maximum thereby obeys the limit on the job's attempts: the two agree as long as it holds the lease. |
| `IngestionWorker.Worker.Turn` | apps/api/app/worker.py:178-257 | Whatever goes wrong, a turn acts on at most one claim, with that claim's token and fence only, and ends it at most once: only a commit whose answer went astray is followed by another step, a poisoning. Unless the database failed it, the worker has then let go of the job, and the job stays locked behind it exactly if the last step was taken under its lease and either asked for a time not in the database's future or reported progress that went backwards. It crashes only if a call broke or raised, and idles only if every job that can be claimed is locked. |
| `IngestionWorker.Worker.Settle` | apps/api/app/worker.py:182-250 | Which steps settle a claim, for every way processing can end, and exactly when the job stays locked after them. It asks for another attempt exactly after a failure that may be retried and below the maximum, and commits only a result. |
| `IngestionWorker.Worker.Finish` | apps/api/app/worker.py:182-250 | A result is committed; a commit that raises anything but a database error or a lost claim is followed by a poisoning, whether or not it went through. |
| `IngestionWorker.StaysLocked` | apps/api/app/worker.py:390-408 | It happens: a claimant with a clock behind the database's is refused its requeue, and nobody can claim the job until the lease ends. |
| `IngestionWorker.Worker.ProcessWithHeartbeat` | apps/api/app/worker.py:293-322 | Only heartbeats and progress reports of the claim happen while processing; when the claim is given up as lost, the lease is still held exactly if the last report went backwards under it. |
| `IngestionWorker.Worker.Report` | apps/api/app/worker.py:340-369 | A progress report taken for a lost lease leaves the lease held exactly if it was held and the report went backwards. |
| `IngestionWorker.Worker.Claim` | apps/api/app/worker.py:259-291 | A ticket means the worker holds the lease, and its attempt is its fence. |
| `IngestionWorker.Worker.Commit` | apps/api/app/worker.py:371-388 | After a commit that was answered the worker no longer holds the lease, whether or not it went through. |
| `IngestionWorker.Worker.Poison` | apps/api/app/worker.py:410-426 | The same after a poisoning. |
| `IngestionWorker.Worker.Requeue` | apps/api/app/worker.py:390-408 | Only for an attempt below the maximum; after an answered requeue the lease is still held exactly if it was held and the requested time was not in the database's future. The time asked for is the worker's own plus the delay for the attempt. |
| `Reingest.CommitIsCompareAndSwap` | apps/api/alembic/versions/0005_document_reingest_action.py:176-283 | For an injective snapshot hash and a strictly advancing clock, a prepared token commits exactly if document, uploader and latest job are untouched since, the actor may re-ingest and the job key is free. |
| `Reingest.PreparedExactly` | apps/api/alembic/versions/0005_document_reingest_action.py:20-141 | A token is given exactly for a failed document without a queued or running job whose latest job failed or was interrupted, to an administrator or the uploader. |
| `Reingest.TokenIsSpentOnce` | apps/api/alembic/versions/0005_document_reingest_action.py:253-270 | A token that created a job never creates another. |
| `Reingest.CreatedStartsOver` | apps/api/alembic/versions/0005_document_reingest_action.py:258-270 | Then the new job is the document's latest and only active one, and no chunks are left. |
| `Reingest.OverviewIsCurrentExactly` | apps/api/alembic/versions/0001_v4_baseline.py:1514-1556 | The operator's token stays current exactly as long as the document and all of its jobs are as they were and no job has been added. |
| `Reingest.OverviewIsSpentOnce` | apps/api/alembic/versions/0001_v4_baseline.py:1667-1703 | An operator's token that created a job never creates another. |
| `AccessControl.CanCreateChildren` | apps/api/alembic/versions/0004_create_children_capability.py:76-124 | The upward walk answers exactly who may create in a folder: active administrators in folders, and active members who have both a read and a create grant on some node visible upward without crossing a boundary. |
| `AccessControl.HasGrantAbove` | apps/api/alembic/versions/0004_create_children_capability.py:91-122 | The walk finds a grant exactly if one reaches the folder. |
| `AccessControl.SeesByStep` | apps/api/alembic/versions/0004_create_children_capability.py:91-106 | Reaching upward past no boundary, defined by paths, is the recursive step of the query. |
| `AccessControl.AllPaths` | apps/api/alembic/versions/0004_create_children_capability.py:494-516 | The bulk closure computes exactly the boundary-limited paths from folders. |
| `AccessControl.ClosureIsComplete` | apps/api/alembic/versions/0004_create_children_capability.py:494-505 | A set closed under the recursive step contains every path. |
| `AccessControl.RowsAreGranted` | apps/api/alembic/versions/0004_create_children_capability.py:517-564 | Joining paths with grants and memberships gives exactly the granted users of each folder, so the bulk form agrees with the walk. |
| `AccessControl.EffectiveAccess` | apps/api/alembic/versions/0004_create_children_capability.py:581-589 | The joined rows are exactly the active members and folders with create access. |
| `AccessControl.CreateImpact` | apps/api/alembic/versions/0004_create_children_capability.py:424-628 | The users and nodes named are exactly the projections of the symmetric difference between access before and after. |
| `AccessControl.ImpactIsUnique` | apps/api/alembic/versions/0004_create_children_capability.py:599-615 | There is only one such pair of sets. |
| `AccessControl.AppliedIsImagined` | apps/api/alembic/versions/0004_create_children_capability.py:425-493 | The tables the preview imagines are those the operation really leaves. |
| `AccessControl.AppliedRows` | apps/api/alembic/versions/0001_v4_baseline.py:3187-3238 | Row by row, what each of the six operations leaves: the row it is about as it asks, and everything else as before. |
| `AccessControl.ImaginedIsRanked` | apps/api/alembic/versions/0004_create_children_capability.py:425-437 | Imagining an operation that is not a move below itself keeps the forest acyclic. |
| `AccessControl.FindsAbove` | apps/api/alembic/versions/0001_v4_baseline.py:2817-2837 | The upward search detects exactly moves below oneself. |
| `AccessControl.Preview` | apps/api/alembic/versions/0004_create_children_capability.py:363-628 | What is previewed is exactly what changes if the operation is carried out, for all six kinds of operation. |
| `AccessControl.GrantChangeIsLocal` | apps/api/alembic/versions/0004_create_children_capability.py:456-473 | A grant change alters access only in folders that see the target upward without crossing a boundary. |
| `AclPreviews.WhatWasShownIsWhatHappens` | apps/api/alembic/versions/0004_create_children_capability.py:658-699 | Whatever happened since the preview, a change that goes through is the change shown, by the same administrator, within five minutes and one version later, and alters access for exactly the users and folders shown. |
| `AclPreviews.OnePerVersion` | apps/api/alembic/versions/0004_create_children_capability.py:665-700 | Of all previews of one authorization version at most one is ever carried out. |
| `AclPreviews.RunKeepsPreviews` | apps/api/alembic/versions/0001_v4_baseline.py:3102-3110 | Previews never change except to be consumed, and the version never falls. |
| `AclPreviews.Permissions.ApplyAcl` | apps/api/alembic/versions/0004_create_children_capability.py:658-711 | It goes through exactly if the actor is an active administrator and the preview the actor's own, unused, in time, of the current version and still true; then the grant is there exactly if it was to be, every other row is as before, the version is one higher and the preview used. |
| `AclPreviews.Permissions.PreviewAcl` | apps/api/alembic/versions/0001_v4_baseline.py:3057-3116 | An active administrator is shown what a create grant on a folder would alter, and the preview is kept with the version, for 300 seconds. |
| `AclPreviews.GoesIfItStands` | apps/api/alembic/versions/0004_create_children_capability.py:658-679 | The checks come to the same as these conditions on the rows. |
| `FolderTree.Library.CreateFolder` | apps/api/alembic/versions/0004_create_children_capability.py:181-262 | Succeeds exactly under the stated conditions, adds that one folder, and keeps the library an acyclic forest of folders at depth at most 256, unique names, and at most 10000 nodes plus uploads. |
| `FolderTree.Library.CappedDepth` | apps/api/alembic/versions/0004_create_children_capability.py:221-231 | The walk, cut off at 257, computes the exact depth of the parent up to that bound, and nothing for a missing parent. |
| `FolderTree.Library.AddFile` | apps/api/alembic/versions/0001_v4_baseline.py:4471-4502 | A finished upload adds one file, exactly if the folder is readable and name and key are free. It leaves a library that was within depth 256 and 10000 nodes within both limits exactly if there were fewer nodes and the folder's depth is below 256. |
| `FolderTree.DeepLibrary` | apps/api/alembic/versions/0001_v4_baseline.py:4471-4502 | Created folder by folder from nothing, a library with a file at depth 257. |
| `FolderTree.LargeLibrary` | apps/api/alembic/versions/0001_v4_baseline.py:4471-4502 | A library of 10001 files, uploaded one by one. |
| `FolderTree.Library.MoveNode` | apps/api/alembic/versions/0001_v4_baseline.py:3239-3312 | Succeeds exactly if the target is a folder not below the node, the whole subtree stays within the depth limit and the name is free; afterwards every node below has moved with it. |
| `FolderTree.Library.Subtree` | apps/api/alembic/versions/0001_v4_baseline.py:3264-3281 | The level-by-level query finds exactly the nodes below and the height of the subtree. |
| `FolderTree.Library.FullDepth` | apps/api/alembic/versions/0001_v4_baseline.py:3282-3293 | The unbounded walk computes the exact depth. |
| `FolderTree.FitsByHeight` | apps/api/alembic/versions/0001_v4_baseline.py:3294-3297 | Comparing one sum of depth and height decides for the whole subtree whether it stays within the limit. |
| `FolderTree.MoveIsSound` | apps/api/alembic/versions/0001_v4_baseline.py:3239-3312 | A permitted move keeps forest, depth limit, names and number of nodes. |
| `FolderTree.MayReceiveExactly` | apps/api/alembic/versions/0001_v4_baseline.py:3239-3281 | The target is refused exactly if the result would be no forest. |
| `FolderTree.FitsExactly` | apps/api/alembic/versions/0001_v4_baseline.py:3294-3297 | The room is refused exactly if something would end up deeper than 256. |
| `FolderTree.FreeThereExactly` | apps/api/alembic/versions/0001_v4_baseline.py:3298-3312 | The name is refused exactly if two names would be alike. |
| `FolderTree.FreeExactly` | apps/api/alembic/versions/0004_create_children_capability.py:253-257 | And so for a new node. |
| `FolderTree.MovedIsDepth` | apps/api/alembic/versions/0001_v4_baseline.py:3310-3312 | After a move every node below is exactly as much deeper or higher as the moved one. |
| `FolderTree.DepthIsUnique` | apps/api/alembic/versions/0004_create_children_capability.py:221-231 | A forest has only one depth map. |
| `FinalAdmin.AnAdministratorRemains` | apps/api/alembic/versions/0004_create_children_capability.py:733-781 | Under every interleaving of concurrent changes and resets, with aborts anywhere, as after a deadlock, an active administrator remains. |
| `FinalAdmin.StepKeepsInv` | apps/api/alembic/versions/0004_create_children_capability.py:733-781 | The lock-ownership invariant behind it is kept by every step. |
| `FinalAdmin.RefusedExactlyWhenNeeded` | apps/api/alembic/versions/0004_create_children_capability.py:747-759 | A valid change is refused exactly if it would leave no active administrator. |
| `FinalAdmin.AloneItIsDecided` | apps/api/alembic/versions/0004_create_children_capability.py:733-781 | With nobody else around, a request is refused exactly if it asks for a pending user, the user is deleted, or it takes the last administrator away; otherwise the row has the role and status asked for, and every other row is as before. No lock is left. |
| `FinalAdmin.OnlyRequestsChange` | apps/api/alembic/versions/0004_create_children_capability.py:733-781 | Under any interleaving a row changes only by a commit for it, as requested, field by field, or when a pending user is activated. |
| `FinalAdmin.OnlyAdministratorsBegin` | apps/api/alembic/versions/0004_create_children_capability.py:733-736 | Only an active administrator gets as far as to begin. |
| `FinalAdmin.CommitCarriesOut` | apps/api/alembic/versions/0004_create_children_capability.py:760-781 | A commit carries its request out and ends the user's sessions, and only them. |
| `FinalAdmin.DeletedIsFinal` | apps/api/alembic/versions/0004_create_children_capability.py:747-750 | A deleted user's row never changes again. |
| `FinalAdmin.SomeoneCanGoOn` | apps/api/alembic/versions/0004_create_children_capability.py:733-781 | Unless the holder of the advisory lock is blocked in that way, some transaction can go on. |
| `FinalAdmin.DeadlockedExactly` | apps/api/alembic/versions/0004_create_children_capability.py:733-781 | Transactions wait for each other in a circle exactly if the holder of the advisory lock needs the row of a user, the actor of its audit row or somebody in the rebuilt table, whom another transaction has locked in order to change. |
| `FinalAdmin.DeadlockLasts` | apps/api/alembic/versions/0004_create_children_capability.py:733-781 | Nothing but aborting one of those two gets them going again, and that does. |
| `FinalAdmin.DeadlockIsReached` | apps/api/alembic/versions/0004_create_children_capability.py:733-781 | Two administrators who change each other at the same time come to it. |
| `EdwardsPoints.XRecoverEvenRoot` | benchmarks/v3/trust.py:43-50 | For every point of the curve the recovered x is the even one of its two square roots. |
| `EdwardsPoints.CandidateRootIsRoot` | benchmarks/v3/trust.py:44-47 | Whenever a value has a square root modulo q, the candidate is one. |
| `EdwardsPoints.DecodeAcceptsEncoding` | benchmarks/v3/trust.py:58-80 | Every reduced point of the curve but the identity decodes back from its RFC 8032 section 5.1.2 encoding. |
| `EdwardsPoints.AcceptedReencodes` | benchmarks/v3/trust.py:58-80 | Every accepted string is the encoding of the point it decodes to, so no point has two accepted encodings. |
| `EdwardsPoints.DecodeIsInverseOfEncode` | benchmarks/v3/trust.py:58-80 | Both directions in one: a string decodes to a point exactly if the point is on the curve, reduced, not the identity, and encoded by that string. |
| `EdwardsPoints.EncodedValue` | benchmarks/v3/trust.py:61-67 | An encoding is the number y with the parity of x in the top bit. |
| `EdwardsPoints.IdentityIsRefused` | benchmarks/v3/trust.py:78-79 | The identity's encoding is refused. |
| `EdwardsGroup.DenominatorsNonZero` | benchmarks/v3/trust.py:86-87 | On a complete curve neither denominator of the addition is ever zero. |
| `EdwardsGroup.AddQuotients` | benchmarks/v3/trust.py:83-91 | The sum's coordinates are the two quotients of RFC 8032 section 5.1.4, without exception. |
| `EdwardsGroup.AddClosed` | benchmarks/v3/trust.py:83-91 | The sum of two points is a reduced point of the curve. |
| `EdwardsAssociativity.AddAssociates` | benchmarks/v3/trust.py:83-91 | Addition is associative; this is proved, not assumed. |
| `EdwardsAssociativity.AddCommutes` | benchmarks/v3/trust.py:83-91 | Addition is commutative. |
| `Ed25519.AddIdentity` | benchmarks/v3/trust.py:95 | (0, 1) is neutral. |
| `Ed25519.AddInverse` | benchmarks/v3/trust.py:83-91 | Every point has its mirror image as inverse. |
| `Ed25519.NFoldAdd` | benchmarks/v3/trust.py:94-102 | (m + n)-fold sums are sums of m-fold and n-fold sums. |
| `Ed25519.NFoldMul` | benchmarks/v3/trust.py:94-102 | n-fold sums of m-fold sums are (m × n)-fold sums. |
| `Ed25519.NFoldDouble` | benchmarks/v3/trust.py:100 | Doubling the addend halves the remaining count. |
| `Ed25519.ScalarMult` | benchmarks/v3/trust.py:94-102 | The double-and-add loop terminates with the exact n-fold sum, for every scalar. |
| `Ed25519.VerifySignature` | benchmarks/v3/trust.py:105-132 | The verdict, and which check fails first, is that of the definition with n-fold sums, for any hash function in the place of SHA-512. It verifies exactly if the lengths are right, s is below the order, key and R decode into the subgroup, and s times the base point is R plus the key times the number that the hash of R, key and message comes to modulo the order. |
| `Ed25519.HonestSignatureVerifies` | benchmarks/v3/trust.py:105-132 | A signature of any message made as RFC 8032 section 5.1.6 says is accepted exactly if neither the public key nor the nonce's point is the identity. |
| `Ed25519.SignatureScalarIsUnique` | benchmarks/v3/trust.py:105-132 | For a base point of prime order, key, message and R admit only one accepted signature. |
| `Ed25519.SignatureBindsMessage` | benchmarks/v3/trust.py:123-132 | For a prime order, a verified signature verifies for another message under the same key exactly if the two hashes come to the same number modulo the order. |
| `Ed25519.PrimeOrderIsExact` | benchmarks/v3/trust.py:108-110 | No smaller multiple of a base point of prime order is the identity, so scalars below the order are told apart. |
| `Ed25519.SmallIsAGroup` | benchmarks/v3/trust.py:105-132 | What is assumed of curve, base point and order can be met: a curve over 13 elements with a base point of order 3. |
| `ModularArithmetic.FermatInverse` | benchmarks/v3/trust.py:44 | Raising to q - 2 inverts modulo a prime q. |
| `ModularArithmetic.Fermat` | benchmarks/v3/trust.py:45 | Fermat's little theorem, by the product of all residues. |
| `ModularArithmetic.NoZeroDivisors` | benchmarks/v3/trust.py:86-87 | A product vanishes modulo a prime only if a factor does. |
| `ModularArithmetic.RootsUpToSign` | benchmarks/v3/trust.py:45-49 | Two square roots of one value differ by sign. |
| `LittleEndian.FromBytesInverse` | benchmarks/v3/trust.py:61 | Reading little-endian bytes loses nothing. |
| `LittleEndian.ToBytesInverse` | benchmarks/v3/trust.py:61 | Writing a number that fits loses nothing. |
| `LittleEndian.ByteAt` | benchmarks/v3/trust.py:61 | Byte i counts multiples of 256 to the power i. |
| `PdfLiteral.LiteralRoundTrip` | benchmarks/v3/fixtures.py:95-97 | Reading the literal by ISO 32000-1 section 7.3.4.2 gives the text with line ends normalised, and the text itself exactly if it contains no carriage return. |
| `PdfLiteral.EscapeIsPerByte` | benchmarks/v3/fixtures.py:97 | Three successive replacements are one escape per character; no escape is escaped again. |
| `PdfLiteral.ReadsEscaped` | benchmarks/v3/fixtures.py:95-97 | The reader ends exactly at the closing parenthesis that was not escaped. |
| `PdfFile.Format.Write` | benchmarks/v3/fixtures.py:73-92 | The buffer loops produce the file layout, with each offset where its object really begins. |
| `PdfFile.Format.EveryObjectIsFound` | benchmarks/v3/fixtures.py:73-92 | For bodies below 10^10 bytes, a reader that follows `startxref` and the 20-byte entries (ISO 32000-1 sections 7.5.4 and 7.5.5) finds every object at its number. |
| `PdfFile.PdfIsGood` | benchmarks/v3/fixtures.py:73-92 | The keywords actually written cannot be confused with the numbers next to them. |
| `PdfFile.DecimalValue` | benchmarks/v3/fixtures.py:79 | Numbers are read back as written. |
| `PdfFile.PaddedValue` | benchmarks/v3/fixtures.py:84-85 | Ten digits, zero-padded, hold every offset below 10^10. |
| `PdfDocument.TextObjects` | benchmarks/v3/fixtures.py:100-125 | The catalog leads to the page tree, its kids are the pages in order, and each page leads to the font and to its own text. |
| `PdfDocument.TextPdf` | benchmarks/v3/fixtures.py:100-125 | The text document is the file of those objects. |
| `PdfDocument.ScanObjects` | benchmarks/v3/fixtures.py:150-178 | The same for scans: each page leads to its own image and drawing commands. |
| `PdfDocument.ScanPdf` | benchmarks/v3/fixtures.py:150-178 | The scanned document is the file of those objects. |
| `PdfDocument.ReferenceResolves` | benchmarks/v3/fixtures.py:73-92 | Every number a reference carries leads, through the cross-reference table in the bytes of the file, to the object meant. |
| `PdfReader.ContentIsFound` | benchmarks/v3/fixtures.py:73-92 | A reader of bytes that finds an object by its number, checks that number and skips to the content stands before the object's content. |
| `PdfReader.PagesAreFound` | benchmarks/v3/fixtures.py:100-107 | From `startxref` over the trailer's `/Root`, the catalog and the tree's `/Kids`, all read from the bytes, it finds exactly the pages, in order. |
| `PdfReader.TextPdfIsReadBack` | benchmarks/v3/fixtures.py:100-125 | From the bytes of a text document alone the reader gets the texts of all pages, in order, with line ends as literal strings have them; exactly as given if and only if none holds a carriage return. |
| `PdfScanReader.ScanPdfIsReadBack` | benchmarks/v3/fixtures.py:150-178 | From the bytes of a scanned document alone a reader gets every page's size and the pixels of its image, in order; the image covers the page exactly. |
| `PdfScanReader.ImageIsRead` | benchmarks/v3/fixtures.py:168-173 | The image is read back with its size and pixels. |
| `Controller.Apply` | apps/supervisor/controller.py:218-256 | EFFECTIVE is reported only after every affected service was drained, replaced, restarted and validated with the desired values, in that order. The way there and the way back each carry out a beginning of their planned calls, a failing one may spoil its own service, and nothing else is touched. The prior values are restored exactly if ROLLING_BACK was reported, every affected service has prior values and no call of the roll-back failed; ROLLED_BACK is reported only then, and FAILED never. Without any failure a change between the same services takes effect; after a single failure the desired values are in effect, or the prior ones are back, or nothing was touched. Given how the calls and reports to come will turn out, everything that happens is one function of that. |
| `Controller.AffectedExactly` | apps/supervisor/controller.py:226-232 | The affected services are exactly those that only one side names, or whose settings differ. |
| `Controller.CallsInOrder` | apps/supervisor/controller.py:236-247 | Where each of the four calls on a service stands among those on all of them. |
| `Controller.StagesInOrder` | apps/supervisor/controller.py:235-247 | Each stage is reported just before its calls begin. |
| `Controller.BackCallsInOrder` | apps/supervisor/controller.py:249-253 | On the way back the three calls on a service follow each other. |
| `Controller.ApplyChange` | apps/supervisor/personal_runtime.py:303-320 | A change in effect whose EFFECTIVE report was lost ends reported as FAILED, or as nothing after VALIDATING; ROLLED_BACK still means restored. The outcome, the services and the last report are those of the script of answers. |
| `Controller.StaysHalfDone` | apps/supervisor/controller.py:218-256 | Carried out with calls and reports that turn out in a certain way, a change really ends half done when only one of the three conditions of the roll-back is missing, whichever it is: the report of ROLLING_BACK, the prior values, or that no call of it fails. |
| `Controller.EndsHalfWay` | apps/supervisor/controller.py:218-256 | In each of the three cases the service is left drained, with its desired values, and neither restarted nor put back. |
| `Controller.RollBack` | apps/supervisor/controller.py:248-255 | The handler restores exactly if its report arrives, all services have prior values and no call fails; ROLLED_BACK is reported only then. |
| `Controller.CatalogCoversBoth` | apps/supervisor/personal_runtime.py:741-775 | In the production catalog every three profiles that can be combined name both services, so there all affected services have prior values. |
| `Controller.Forward` | apps/supervisor/controller.py:236-247 | All four phases, each over all services in sorted order before the next begins; exactly a beginning of these calls succeeds, all of them if it ends well, and it ends badly only after a failure or for want of values. |
| `Controller.PutBack` | apps/supervisor/controller.py:249-253 | It succeeds exactly if all services have prior values and no call fails, and then every affected service runs its prior values, validated; otherwise exactly a beginning of its calls was carried out. |
| `Controller.RunPhase` | apps/supervisor/controller.py:236-247 | One phase reaches its goal for all affected services, or stops after a beginning of its calls and a failure, and touches no others. |
| `Controller.ResolveChosen` | apps/supervisor/controller.py:143-171 | Resolving succeeds exactly if no setting is given twice; the result is exactly the settings of the chosen profiles and preset, with the selection mode on top. |
| `Controller.FillProfiles` | apps/supervisor/controller.py:158-164 | Filling the dictionary fails exactly on an overlap and otherwise holds exactly the given settings. |
| `Controller.Fill` | apps/supervisor/controller.py:161-169 | The same for one profile. |
| `Evidence.GuardedRunner.CompletedRunIsAccepted` | benchmarks/v3/harness.py:1179-1591 | When the server used no identifier twice, the evidence of a completed run passes the harness's separate check exactly if the run adopted no documents: the runner accepts an adopted namespace and the harness does not. |
| `Evidence.GuardedRunner.SequencesAreAccepted` | benchmarks/v3/harness.py:1573-1591 | All sequence numbers of a completed run differ and lie between those of the attestations, whatever the server answered. |
| `Evidence.GuardedRunner.SampleIsAccepted` | benchmarks/v3/harness.py:1345-1411 | Every sample is supported by its own profile, execution and acknowledgement, in that order. |
| `Evidence.GuardedRunner.Verify` | benchmarks/v3/runner.py:820-898 | A payload passes exactly if it is bound to this run, newer than all before it, and from the same source and runtime; only then is anything remembered. |
| `Evidence.GuardedRunner.Attest` | benchmarks/v3/runner.py:900-948 | Succeeds exactly for an empty namespace, or exactly the documents the permit adopted, with all required profiles. |
| `Evidence.RequiredProfiles` | benchmarks/v3/runner.py:53-58 | The four profiles to be measured, and the load each of them must be confirmed under: one active request, and one more queued if contended. |
| `Evidence.GuardedRunner.SetProfile` | benchmarks/v3/runner.py:997-1039 | Remembers the acknowledgement exactly if it confirms this profile for this request under full load. |
| `Evidence.GuardedRunner.AskExecution` | benchmarks/v3/runner.py:1180-1344 | Accepts execution evidence exactly if it is for this task and profile, successful and not replayed. |
| `Evidence.GuardedRunner.Seal` | benchmarks/v3/runner.py:1346-1372 | Accepts exactly the signed sample itself. |
| `Evidence.GuardedRunner.Measure` | benchmarks/v3/runner.py:1715-1760 | A measurement adds one sample for its task or none; what was collected before stays backed. |
| `Evidence.GuardedRunner.Upload` | benchmarks/v3/runner.py:1079-1093 | A fixture becomes a document of its own, and is then to be deleted, exactly if the server accepts it and neither it nor the document's identifier was used before. |
| `Evidence.GuardedRunner.CheckCorpus` | benchmarks/v3/runner.py:1752-1763 | The corpus is complete exactly if the uploaded fixtures are the ten expected; that their documents differ follows. |
| `Evidence.GuardedRunner.CleanUp` | benchmarks/v3/runner.py:1651-1713 | Deletion is tried for the recorded documents in ascending order, up to one that lets escape anything but the three errors that are caught; then nothing more is asked. It completes exactly if every deletion was confirmed and the namespace is attested empty afterwards. |
| `Evidence.AllAreTriedExactly` | benchmarks/v3/runner.py:1651-1692 | All documents recorded as created or adopted are tried exactly if no deletion but the last lets anything else escape. |
| `Evidence.NothingAfterEscape` | benchmarks/v3/runner.py:1651-1692 | No document after one whose deletion lets anything else escape is ever tried. |
| `Evidence.GuardedRunner.Run` | benchmarks/v3/runner.py:1715-1835 | Whatever the server answers, a run that has been attested goes on to delete what it recorded as created or adopted, however it ends, as far as nothing unexpected escapes; a run that completes has deleted them all and has measured exactly the recorded tasks of its plan, in order, each backed by evidence. It fails only if an answer was not accepted or the clean-up did not succeed. |

## Left out

Modelled more weakly than the code, on purpose:

- Supervisor.Supervisor.Run: a run still going after `fuel` rounds is cut off there, since the loop need not end.
- Supervisor.Supervisor.WatchServices: polling is cut off in the same way.
- Supervisor.Supervisor.Settle: states only the bookkeeping of `ReleaseToken`, whose contract has the condition.
- Supervisor.Clock.Read: reading the clock cannot fail.
- RestartBudget.RestartBudget.RecordFailure: time is a real number, so the rounding of floating-point clocks is not modelled.
- Ed25519.VerifySignature: any hash function stands for SHA-512; that q and the order are prime, that d is no square, and that the base point has that order is assumed of the constants, not proved.
- SseStream.SseEvents: `json.loads` is any function from texts; arrival times, and the events yielded before an error, are not modelled.
- Reingest.CommitIsCompareAndSwap: the hash of the snapshot is taken to be injective, and `created_at` is the time of the statement.
- IngestionDatabase.Database.RequeueForMaintenance: the hash of its wider token is taken to be injective, too.
- AclPreviews.WhatWasShownIsWhatHappens: the digest is taken to be injective; previews of the five older operations, and members who move their own files, are not modelled.
- AccessControl.Preview: names users and folders by create access; the impact on reading nodes and documents is not modelled.
- FolderTree.Library.AddFile: the checks for identical content, reserved names and team selection, and the access grants an upload creates, are not modelled.
- AccessControl.FindsAbove: climbs from the target, where the query descends from the moved node.
- Evidence.GuardedRunner.Measure: metrics, workload fields, retrieval pages and upload hashes are one opaque observation.
- Evidence.GuardedRunner.AskExecution: does not check them, either.
- Evidence.GuardedRunner.CompletedRunIsAccepted: the harness's rules about metrics, workload, uploads and quality are left out.
- Evidence.GuardedRunner.CleanUp: what the deletion of one document comes to is given; the requests behind it are not modelled. A document whose upload was answered badly is not recorded, and so not deleted.
- Evidence.GuardedRunner.Run: documents, stages and cases are any plan of steps, in which the identifiers the server will give are written down beforehand; the size of the plan is not fixed, and the closing validation of the samples is left out.
- Controller.ResolveChosen: starts from the profiles found under the requested names; parsing the names of presets is not modelled.
- PdfDocument.ScanObjects: pixels are given; drawing them is not modelled.
- PdfDocument.ScanPdf: the same.
- PdfReader.TextPdfIsReadBack: the reader expects the layout this writer uses, not any PDF file.
- IngestionRuns.ClaimIsExclusive: an administrator or the uploader may delete the document under a lease; that step is not modelled.
- IngestionRuns.RunHasJob: nor is it here; the jobs go with their document.
- FinalAdmin.DeadlockedExactly: other transactions that rebuild the table of document access, as uploads and changes of permissions do, are not among the steps, and may wait in further circles.
- SseWriter.StreamRoundTrip: states one direction for whole streams; `ReadExactlyWithoutBreaks` has both for one event, and `CutStream` for streams that break off.
- IngestionWorker.Worker.Requeue: retry delays are whole seconds.
- IngestionWorker.Worker.Turn: the processor passes a stale report on instead of swallowing it.
- IngestionWorker.Worker.Loop: stopped after a number of turns; polling pauses and cancellation are not modelled.

Not modelled:

- Win32 calls, access control lists of files, sockets, HTTP, Docker: an adapter whose calls may fail stands for them.
- Opening the job object and the single-instance mutex: one call that may fail.
- Interrupts that arrive inside a `finally` block.
- Service names are numbers with their order, not strings.
- SQL functions given NULL arguments or malformed JSON, and the error codes they raise.
- Deleting documents and folders, renaming, what audit rows say, and what the table of effective document access lists.
- Migrations 0007 to 0010, which replace some of the modelled functions by later versions.
- Heartbeats of the service lease, outbox and object deletion.
- Canonical JSON, envelopes and their expiry, field-by-field validation of manifests and releases.
- The web interface, settings, OCR and chat services, performance gates and timing tolerances.

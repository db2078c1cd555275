# IT Guardian: a verified model of its retry, idempotency and rollback protocols

IT Guardian is a set of Python services (assets, tenants, commands, enrollment, PKI, audit, gateway), Go services
at the edge and a Windows agent. What holds it together is a handful of protocols that must survive lost replies,
redelivery and crashes. This project models seven of them in Dafny, each as the tables (or files) it works on, the
code that changes them, and a machine whose steps are transactions, messages and crashes. The theorems are about
every run of those machines.

| Files | What they model |
|---|---|
| `Outbox.dfy`, `Normalize.dfy`, `AuditChain.dfy`, `Delivery.dfy` | events from a service's outbox over the bus into the per-tenant audit hash chain |
| `Commands.dfy`, `CommandLife.dfy` | the command service: create, acquire, run, finish, cancel, and its event log |
| `Spool.dfy`, `AgentProtocol.dfy`, `Runner.dfy`, `Undelivered.dfy` | the agent's bounded disk spool, agents and command service together, the agent's loops, and when a spooled result is never delivered |
| `Promotion.dfy` | the agent's self-update over a directory in which any operation may fail |
| `Pki.dfy`, `Enrollment.dfy`, `EnrollmentLife.dfy`, `EnrollmentRace.dfy` | certificates and their lineages; one-time enrollment tokens across unreliable calls to the PKI; several calls for one token at once |
| `Revocation.dfy`, `Staleness.dfy` | revocation lists from the PKI to the edge, and how stale they can be |
| `TokenBucket.dfy`, `Departments.dfy`, `Presence.dfy` | the gateway's rate limiter, the department hierarchy, device presence |
| `Common.dfy`, `Text.dfy` | shared values; trimming, lower case, dictionary order, hexadecimal |

How it is put together:

- Code that updates state in place is a class whose methods are proved equal to a function of the old state
  (`Append`, `Submit`, `AfterEnqueue`, `Issue`, ...). The machines use the same functions, so what is proved of every
  run is about the code of the methods. A transaction is one step.
- A step that is not enabled changes nothing, so a run is any list of steps. Crashes, lost replies, late handling,
  file errors, clock readings, random identifiers and the rows an SQL query returns are arguments of a step; what
  SQL promises of a query is a predicate on its answer. Clocks inside one machine are arbitrary unless stated.
- Hashes, digests and encodings are parameters. Nothing is assumed of the audit hash: `TamperEvidence` ends in two
  rows at one place of the two chains that differ and hash alike. The theorems about agents ask that JSON encoding
  loses nothing (`Lossless`).

## What the proofs brought to light

- **`validate` is too weak for an update.** The marker is recognised by its path alone, so with paths it accepts the
  helper can take one of the binaries for a marker and delete the original, or clear a path the original is kept at.
  `NeverLostExactlyWhen` gives the exact condition: the marker path is none of the four paths the update renames, and
  `<staged>.failed` is not the place where the original is set aside. `LosesOriginal` has a run for every other case,
  and `ValidateAloneIsNotEnough` concrete paths. `GeneratedPathsSeparate` proves the agent's own paths safe.
- **A marker in the last instant commits the update and leaves the service stopped.** Once the deadline has passed the
  helper stops the service before it evaluates again. If the marker turns up in between, that evaluation commits, and
  the helper ends with an error and never starts the service (`UpdateDirectory.ForceRollback`, `LateCommit`).
- **Truncating a chain is visible only through its head row.** `verify_chain` accepts a shortened chain exactly when
  nothing was cut or the head row is missing (`TruncationNeedsTheHead`).
- **A spooled result can be undeliverable, and then blocks the ones behind it.** The service refuses it for ever
  exactly when it is not on record and the command is over, its lease has lapsed, or the result is dated more than
  the tolerance after the lease (`RefusedForGoodExactlyWhen`). A file stays in the spool for good exactly when it, or a
  result drained before it, is such a one (`StaysForGoodExactlyWhen`).
- **Two enrollment calls for one token can undo each other**: a call that failed writes PENDING over ENROLLED. A
  completed enrollment is safe exactly when every other call in flight has its certificate already
  (`CompleteForGoodExactlyWhen`); otherwise it can get stuck, consumed and never complete again
  (`TwoCallsGetStuck`, `StuckForGood`). The other enrollment theorems serialise the calls for a token.
- **Three pauses make a revocation staler than one list lifetime**: a revocation is dated before it is committed, a
  list is stamped after its rows were read, and a load puts its list in place after it has read the clock, when the
  list may have expired. `ForwardedWasNotLongRevoked` gives the bound with all three. One lifetime before a request's
  validity check is a bound exactly when the distance of that check from the expiry of the consulted list (negative
  while the list had time left), the pause of its publication and the delay of the commit add up to at most nothing
  (`BoundFromTheCheckExactlyWhen`); each of the three can break it alone (`EachPauseBreaksTheBound`). An older list may
  also replace a newer one.
- **The retry-after answer is exact except in two cases**: a cost above the capacity, and a wait cut to an hour
  (`RetryAfterIsExact`).

## Model

| member | source | states |
|---|---|---|
| AuditChain.AuditStore.AppendRecord | services/audit-service/app/chain.py:107-165 | the append in one transaction equals the specification: a known event is returned unchanged, otherwise one record extends its chain and the head follows |
| AuditChain.AuditStore.VerifyChain | services/audit-service/app/chain.py:168-224 | accepts exactly the linked, consecutively numbered, correctly hashed chains that agree with their head; otherwise reports the first breaking record, or the head |
| AuditChain.AppendKeepsInv | services/audit-service/app/chain.py:107-165 | any append keeps every chain linked and summed up by its head, and events and identifiers unique |
| AuditChain.AppendExactlyWhen | services/audit-service/app/chain.py:107-165 | an event on record is answered by its record; otherwise a fresh id gives one record at the end of its chain, numbered by its length and pointing at its last hash; a taken id changes nothing |
| AuditChain.AppendFrame | services/audit-service/app/chain.py:119-164 | an append leaves the rows and the head of every other chain as they were |
| AuditChain.ChainKeySeparatesTenants | services/audit-service/app/chain.py:71-72 | two entries share a chain exactly when they name the same tenant, or neither names one |
| AuditChain.OrderBySequenceSorts | services/audit-service/app/chain.py:174-180 | the query reads a sorted permutation of the chain's rows |
| AuditChain.AppendAndVerifyAgree | services/audit-service/app/chain.py:107-224 | after any interleaving of appends over any tenants every chain verifies, is numbered 1..n, and its head says n |
| AuditChain.SameEndSameRows | services/audit-service/app/chain.py:84-104 | two linked lists of one length ending in one hash are equal row by row, or two rows at one place differ and hash alike |
| AuditChain.TamperEvidence | services/audit-service/app/chain.py:168-224 | two table states accepted under heads with equal sequence and hash hold the same records for the chain, or two rows at one place of the two chains differ and hash alike |
| AuditChain.TruncationNeedsTheHead | services/audit-service/app/chain.py:205-217 | a cut chain is accepted exactly when nothing was cut or the head row is gone |
| Normalize.EnvelopeAccepted | services/audit-service/app/normalize.py:149-193 | every envelope a worker builds from a well-formed row is accepted, and its entry reports the row: identity, time, type and resource; tenant, actor and request id are the payload's strings under their own keys or nothing; actor type, action and outcome are its strings or "system", the type and "success"; metadata are exactly its scalars under allowed keys; the service is that of the type |
| Normalize.OneReport | services/audit-service/app/normalize.py:163-193 | two entries that report one row are equal: a report leaves no field open |
| Normalize.SourceServiceOwns | services/audit-service/app/normalize.py:111-127 | the service of a type is its trimmed first segment, "unknown" if that is blank, and enrollment for the two device events |
| Normalize.AcceptedExactlyWhen | services/audit-service/app/normalize.py:141-169 | an envelope is accepted exactly if it is an object of version 1 with four texts that are not blank, a time, data that is an object or null, and a tenant that is text or null; its identifiers are then trimmed |
| Text.StripTrims | services/audit-service/app/normalize.py:142-146 | trimming takes the white space at the ends and nothing else |
| Text.TrimsToOne | services/audit-service/app/normalize.py:142-146 | there is one way to trim a text |
| Delivery.IngestMessage | services/audit-service/app/consumer.py:43-79 | a message is acknowledged exactly if it normalises, nothing fails and it is on record; a duplicate is one that changed nothing |
| Outbox.SelectNext | services/asset-service/app/outbox_worker.py:46-56 | finds the oldest pending event not yet attempted, by time and identifier, and none only if all pending ones were |
| Outbox.OutboxTable.PublishPendingOnce | services/asset-service/app/outbox_worker.py:34-79 | attempts the oldest min(batch size, pending) events, each once, in order; published plus failed is that number; exactly the successes leave the pending set; other rows are untouched |
| Outbox.OutboxTable.PublishBatch | services/command-service/app/outbox_worker.py:50-75 | one pass over up to 100 rows and one commit: exactly the acknowledged ones leave the pending set |
| Outbox.AttemptTells | services/command-service/app/outbox_worker.py:60-75 | what an attempt leaves in a row: the date of a success, the beginning of an error, and which attempts each worker counts |
| Delivery.PublishKeepsInv | services/asset-service/app/outbox_worker.py:66-77 | a publish that is stored, deduplicated, stored without an answer or lost keeps the delivery invariant |
| Delivery.IngestKeepsInv | services/audit-service/app/consumer.py:43-60 | ingesting any stored copy, first or repeated, keeps the delivery invariant |
| Delivery.StepKeepsInv | services/audit-service/app/consumer.py:91-100 | so does every other step: worker and consumer crashes before and after commit, late acknowledgements |
| Delivery.ExactlyOnce | services/audit-service/app/consumer.py:43-79 | over every run no event has two records, every published event is recorded or still queued, and every record reports its outbox row in every field |
| Delivery.DrainedMeansRecorded | services/audit-service/app/consumer.py:59-60 | once the bus has nothing left to deliver for an event it stored, the event is on record |
| Delivery.PendingGetsThrough | services/audit-service/app/consumer.py:43-79 | from every reachable state a pending event gets through: published, delivered and committed it has a record of its own, its copy is acknowledged and its row says published |
| Delivery.EveryChainVerifies | services/audit-service/app/chain.py:168-224 | throughout every run of the whole system every tenant's chain verifies |
| Commands.CommandStore.CreateCommand | services/command-service/app/service.py:31-45 | the handler equals the specification of creation: existing command, conflict, or a new row with its two events |
| Commands.CommandStore.AcquireCommands | services/command-service/app/acquire.py:29-48 | the sweep and the dispatch loop equal the specification on any answers of the two queries |
| Commands.CommandStore.DispatchReady | services/command-service/app/acquire.py:37-48 | each candidate gets its token hash, a lease within its life and one more attempt; the hand-out lists them in order |
| Commands.CommandStore.MarkCommandRunning | services/command-service/app/results.py:33-38 | binding, token, lease and state are checked in the source's order; only a dispatched command changes |
| Commands.CommandStore.SubmitResult | services/command-service/app/results.py:44-54 | a repeated sequence answers from the stored row or conflicts; a new one must be live, leased and on time, and finishes the command |
| Commands.CommandStore.CancelCommand | services/command-service/app/api.py:58-64 | cancels exactly commands that are not finished |
| CommandLife.EventsTellTheState | services/command-service/app/acquire.py:29-48 | folding a command's events gives its stored state in every reachable state, with no illegal move; each event names the command's device and the time of the creation, of the dispatch its lease counts from, or of the result |
| CommandLife.CreateExactlyWhen | services/command-service/app/service.py:31-45 | in every reachable state the tenant's command with the same key is found and answered or in conflict by its digest; otherwise a queued command says what the request says |
| CommandLife.PollExactlyWhen | services/command-service/app/acquire.py:29-48 | in every reachable state a poll expires exactly what is queued for the device and out of time, dispatches exactly what it hands out, oldest first and at most ten, leaves one only at its limit, and changes nothing else |
| CommandLife.RunningExactlyWhen | services/command-service/app/results.py:33-38 | in every reachable state a running request succeeds exactly for the caller's command, with its token, dispatched or running, no later than its lease; only a dispatched one changes, and each refusal has its own condition |
| CommandLife.SubmitExactlyWhen | services/command-service/app/results.py:44-54 | in every reachable state a submission is answered from the row of its sequence, or accepted exactly while the command is dispatched or running, within its lease and with timestamps not from the future; each refusal has its own condition |
| CommandLife.CancelExactlyWhen | services/command-service/app/api.py:58-64 | a cancellation succeeds exactly for a command that has not ended, and ends it |
| CommandLife.OneDispatchOneResult | services/command-service/app/results.py:44-54 | at most one dispatch, a lease within the expiry, at most one result, and succeeded or failed exactly when that one result says so |
| CommandLife.TerminalIsFinal | services/command-service/app/results.py:50 | a succeeded, failed, cancelled or expired command never changes again |
| CommandLife.ResultReplayIsStable | services/command-service/app/results.py:44-54 | an accepted submission repeated after any operations, however late, returns the same row and writes nothing |
| CommandLife.RecordedForGood | services/command-service/app/results.py:53-54 | a recorded result and its command are the same in every later state |
| CommandLife.CreationIsIdempotent | services/command-service/app/service.py:34-38 | the same tenant and key later yield the same command or a conflict, and never write |
| Spool.PathInjective | agents/windows-agent/internal/spool/spool.go:157-159 | no two items share a file |
| Spool.Queue.Enqueue | agents/windows-agent/internal/spool/spool.go:57-135 | validation, duplicate check, the eviction loop and the final rename equal the specification under any failing call |
| Spool.Queue.Ack | agents/windows-agent/internal/spool/spool.go:149-155 | removes exactly the item's file, if it is there |
| Spool.EvictsLeast | agents/windows-agent/internal/spool/spool.go:89-105 | the loop drops the shortest oldest-first run of telemetry that makes the item fit; "full" means only command results are left |
| Spool.DropsTheOldest | agents/windows-agent/internal/spool/spool.go:89-105 | what is dropped is telemetry created no later than any that is kept |
| Spool.DropOldestNIsPrefix | agents/windows-agent/internal/spool/spool.go:91-104 | what is dropped is a prefix of the telemetry in order, and no command result |
| Spool.EnqueueNew | agents/windows-agent/internal/spool/spool.go:85-135 | a new item, with the time of the call if it has none, is stored after the least eviction that keeps the limits with it, or refused as full with no telemetry left |
| Spool.EnqueueAgain | agents/windows-agent/internal/spool/spool.go:77-84 | an item whose file exists changes nothing: equal bytes succeed, others conflict |
| Spool.RefusedUnseenExactlyWhen | agents/windows-agent/internal/spool/spool.go:57-66 | which kinds, identifiers and payloads are refused before the directory is looked at, and that this changes nothing |
| Spool.RunKeepsLimits | agents/windows-agent/internal/spool/spool.go:57-155 | no run of enqueues and acks, with failures anywhere, exceeds the item or byte limit |
| Spool.RunKeepsCommandResults | agents/windows-agent/internal/spool/spool.go:89-105 | a stored command result that is never acknowledged survives every run |
| AgentProtocol.StepKeeps | agents/windows-agent/internal/runner/runner.go:190-263 | every step of agents, spools and service, with lost replies and crashes, keeps the protocol invariant |
| AgentProtocol.AtMostOnceExecution | agents/windows-agent/internal/runner/runner.go:190-227 | over every run no command is executed twice by any agents, each executed one was dispatched once, and none has two results |
| AgentProtocol.ExecutedWithinTheLease | services/command-service/app/results.py:30-38 | over every run what is executed is a command for that agent, and its task; the service served the running request no later than the lease, the agent's clock was before it, and the lease is within the command's life |
| AgentProtocol.HeldResultsTellTheOutcome | agents/windows-agent/internal/runner/runner.go:204-222 | over every run a result that an agent holds is of an execution of its own, tells how that ended in every field, and carries the command's token |
| AgentProtocol.OverExactlyWhen | agents/windows-agent/internal/runner/runner.go:191-199 | an item in an agent's hands is over on its clock exactly when its command's lease is |
| AgentProtocol.SpooledUntilRecorded | agents/windows-agent/internal/runner/runner.go:217-263 | a result whose enqueue succeeded stays in that agent's spool until the service has it on record |
| Runner.Agent.StartAndExecute | agents/windows-agent/internal/runner/runner.go:200-203 | succeeds exactly when the request is served, accepted and answered; the command is then executed with its outcome in the result, otherwise the cycle ends; the service changes exactly as the request says; either way a run of the protocol |
| Runner.Agent.SubmitOrSpool | agents/windows-agent/internal/runner/runner.go:214-225 | the result is submitted, and put into the spool exactly if the submission is not served, accepted and answered; success means that it is on record or was kept on disk; a run of the protocol |
| Runner.Agent.Commands | agents/windows-agent/internal/runner/runner.go:190-227 | unless something fails, exactly the handed-out items that are not over are executed, in order, whatever other clients of the service do in between; always a run of the protocol that leaves nothing half done |
| Runner.Agent.DrainOneResult | agents/windows-agent/internal/runner/runner.go:240-260 | a result's file goes exactly when the submission is served, accepted and answered and the removal works; the rest of the spool stays in order |
| Runner.Agent.Drain | agents/windows-agent/internal/runner/runner.go:229-263 | sends results first and stops at the first fault, whatever other clients do in between; without a fault the spool ends empty |
| Undelivered.DoomedStep | services/command-service/app/results.py:44-54 | a result the service refuses for good stays so under every operation |
| Undelivered.RefusedForGoodExactlyWhen | services/command-service/app/results.py:44-54 | a result with the dispatched token is refused in every continuation exactly when it is not on record and the command is over, its lease has lapsed, or the result is dated more than the tolerance after the lease |
| Undelivered.BlockedRun | agents/windows-agent/internal/runner/runner.go:229-263 | such a result, and every result behind it, stays in the spool in every continuation |
| Undelivered.DeliverInTurn | agents/windows-agent/internal/runner/runner.go:234-260 | without such a result at or before a file, draining at the right times removes the file |
| Undelivered.StaysForGoodExactlyWhen | agents/windows-agent/internal/runner/runner.go:229-263 | a spooled result stays for good exactly when it or a result drained before it is refused for good |
| Promotion.UpdateDirectory.Activate | agents/windows-agent/internal/update/rollback.go:40-64 | without faults the answer is determined by the directory and success swaps the binaries and clears the marker; one failing operation never leaves the swap half done; with something set aside nothing is touched; every state on the way is accounted for |
| Promotion.UpdateDirectory.Evaluate | agents/windows-agent/internal/update/rollback.go:66-101 | without faults the directory and the clock determine the outcome: committed, pending, rolled back or a missing binary; one failing operation never leaves a rollback half done |
| Promotion.UpdateDirectory.ForceRollback | agents/windows-agent/internal/update/apply.go:71-88 | succeeds only with a completed rollback |
| Promotion.UpdateDirectory.FinalizeUpdate | agents/windows-agent/internal/update/apply.go:18-69 | arguments and promotions outside policy are refused and nothing is touched; committed leaves the staged binary in place and rolled back the original; the service is stopped before the swap, started after it, and stopped and started again around a rollback; rolled back means that no look found the marker and the clock had reached the deadline at the last look and not before; without faults a marker that is found means commit unless it vanishes, and the deadline means rollback unless a marker turns up before it begins |
| Promotion.UpdateDirectory.Promote | agents/windows-agent/internal/update/apply.go:28-68 | the same without the check of the arguments, step by step |
| Promotion.UpdateDirectory.AwaitMarker | agents/windows-agent/internal/update/apply.go:45-68 | the polling loop ends by a marker or at the deadline and before neither: every earlier look missed the marker with the deadline ahead; a marker found without a fault means commit unless it has vanished |
| Promotion.UpdateDirectory.PollOnce | agents/windows-agent/internal/update/apply.go:45-67 | one round: another follows only if the marker is missing and the deadline ahead |
| Promotion.OriginalIsNeverLost | agents/windows-agent/internal/update/rollback.go:40-101 | after any sequence of calls, each finished, failed or cut short anywhere, the original is at its path or set aside unless a marker written by the new agent was seen |
| Promotion.NeverLostExactlyWhen | agents/windows-agent/internal/update/rollback.go:27-38 | among accepted promotions, those that never lose the original are exactly the ones whose marker path is none of the current, staged, previous and failed paths and whose failed path is not the previous one |
| Promotion.OriginalAsMarker | agents/windows-agent/internal/update/rollback.go:70-78 | with the marker path at the previous binary, activating and evaluating lose the original without a fault or a crash |
| Promotion.StagedAsMarker | agents/windows-agent/internal/update/rollback.go:55-62 | with the marker path at the staged binary, a failed removal and a crash between the two renames lead there |
| Promotion.RejectedAsMarker | agents/windows-agent/internal/update/rollback.go:88-96 | with the marker path at the failed binary, a crash between the two renames of a rollback leads there |
| Promotion.ValidateAloneIsNotEnough | agents/windows-agent/internal/update/rollback.go:27-38 | four concrete promotions that `validate` accepts and that lose the original in a run without a marker |
| Promotion.GeneratedPathsSeparate | agents/windows-agent/internal/app/update_paths.go:16-31 | the generated paths are accepted, pairwise distinct with the set-aside file, the marker and the helper, and safe |
| Promotion.AcceptedExactlyWhen | agents/windows-agent/internal/update/rollback.go:27-38 | a promotion is accepted exactly when everything is given, the three binaries are different and some one directory has all of them |
| Promotion.PathsExactlyWhen | agents/windows-agent/internal/app/update_paths.go:16-31 | paths are generated exactly for a state path and a current path that ends in ".exe" in either case, beside the one and the other |
| Pki.CertificateTable.IssueCertificate | services/pki-service/app/api.py:152-231 | the handler equals the specification: refusals in order, replay, conflict, or one new row |
| Pki.CertificateTable.RotateCertificate | services/pki-service/app/rotation_api.py:47-148 | the same for rotation: on success the new row names the old one, which is revoked as superseded |
| Pki.CertificateTable.RevokeCertificate | services/pki-service/app/api.py:264-301 | revokes once and answers repeats from the table |
| Pki.RunKeeps | services/pki-service/app/rotation_api.py:96-136 | over every run rows are never lost or altered except to be revoked, unique columns stay unique, links point to earlier revoked rows of the same device with another key |
| Pki.NothingWithoutAGrant | services/pki-service/app/api.py:86-106 | no certificate is answered or added without a grant of its kind that names its tenant, asset, device, issuance id and signing request |
| Pki.EveryRowWasGranted | services/pki-service/app/api.py:160-231 | over every run each row was added by an operation with a grant for it, and says what that operation asked for and drew, for at most 90 days and within the authority's own term |
| Pki.IssueExactlyWhen | services/pki-service/app/api.py:160-231 | in every reachable table an issuance succeeds exactly with such a grant, an authority, and a row for the same request or a body the policy allows with fresh draws |
| Pki.RotateExactlyWhen | services/pki-service/app/rotation_api.py:55-118 | the same for a rotation: the row to replace is active, of the same device and with another key, and is revoked as superseded |
| Pki.RevokeExactlyWhen | services/pki-service/app/api.py:264-301 | a revocation revokes the row it names once |
| Pki.NotFoundExactlyWhen | services/pki-service/app/api.py:120-124 | a certificate is reported missing exactly when no row has the id |
| Pki.OnePerGeneration | services/pki-service/app/rotation_api.py:96-118 | a lineage is a simple path: one certificate in each generation |
| Pki.OneActivePerLineage | services/pki-service/app/rotation_api.py:77-118 | after any run each lineage has at most one active certificate, the last of its line |
| Pki.IssuanceReplays | services/pki-service/app/api.py:164-169 | repeating an issuance after any operations returns the same certificate and changes nothing; other data under its id is a conflict |
| Pki.RotationReplays | services/pki-service/app/rotation_api.py:70-75 | repeating a rotation returns the same replacement although the old certificate is revoked by then |
| Pki.RevocationIsPermanent | services/pki-service/app/api.py:276-281 | a revoked row stays as it is in every later state |
| Enrollment.StoredRequestIsTheSame | services/enrollment-service/app/tokens.py:35-53 | the normalised fields that are stored give back the fingerprint they were stored with |
| Enrollment.NewRowTells | services/enrollment-service/app/reservation.py:87-113 | a new attempt is of the token's tenant and asset and stores what the request says |
| Enrollment.EnrollmentTables.ReserveOrResume | services/enrollment-service/app/reservation.py:116-190 | the answer follows the order consumed, revoked, reserved, expired, failed, new; only a fresh reservation writes |
| Enrollment.ReserveExactlyWhen | services/enrollment-service/app/reservation.py:132-190 | a fresh reservation is given exactly for a token neither consumed nor withdrawn nor reserved nor expired whose earlier attempt, if any, failed without a certificate; each other answer has its own condition |
| Enrollment.SameFingerprintExactlyWhen | services/enrollment-service/app/tokens.py:35-53 | fingerprints agree exactly when nothing that identifies the request differs but case and blanks |
| Enrollment.WithdrawnOnce | services/enrollment-service/app/admin_api.py:186-189 | a token is withdrawn when it first is, and stays so |
| Enrollment.EnrollmentTables.PersistPkiFailure | services/enrollment-service/app/enrollment_api.py:47-96 | a rejection before any certificate fails the row and frees the token; any other failure leaves it pending |
| Enrollment.FailureExactlyWhen | services/enrollment-service/app/enrollment_api.py:47-96 | a failure is written down with its code, and gives the token back exactly if it is a rejection before any certificate |
| Enrollment.EnrollmentTables.CompleteEnrollment | services/enrollment-service/app/enrollment_api.py:155-213 | completes the row and consumes the token once; a finished one answers with its result |
| Enrollment.CompletionExactlyWhen | services/enrollment-service/app/enrollment_api.py:155-213 | a completion writes the whole outcome down unless it finds the enrollment complete |
| Enrollment.IssueWithRetries | services/enrollment-service/app/pki_client.py:68-117 | the retry loop returns what the first settling reply of the allowed attempts says, else unavailable |
| Enrollment.SettledExactlyWhen | services/enrollment-service/app/pki_client.py:68-153 | which replies settle a call, as which outcome; a success needs a complete certificate for the body |
| Enrollment.PhasesFollowTheLoop | services/enrollment-service/app/pki_client.py:68-117 | attempt by attempt a call settles as the loop does |
| Enrollment.RejectedMeansHopeless | services/pki-service/app/certificates.py:97-101 | with a valid grant the PKI rejects only bodies that it rejects always |
| Enrollment.HopelessIsNeverIssued | services/pki-service/app/api.py:160-181 | such a body never gets a row |
| Enrollment.FirstAskedExactlyWhen | services/pki-service/app/api.py:160-231 | for a row without a certificate the PKI makes one exactly if it can read the request, is at hand and in force, and its policy and fresh draws allow it |
| EnrollmentLife.ReservedKeeps | services/enrollment-service/app/reservation.py:87-113 | reserving a released token under a new issuance id keeps the invariant: the old id is dead |
| EnrollmentLife.ApplyKeeps | services/enrollment-service/app/enrollment_api.py:99-213 | every transaction, lost or late request, crash and unrelated PKI operation keeps the invariant |
| EnrollmentLife.OneCertificatePerToken | services/enrollment-service/app/enrollment_api.py:99-213 | over every run the PKI issues at most one certificate for a token |
| EnrollmentLife.CallsBegin | services/enrollment-service/app/reservation.py:116-190 | a first request for a usable token begins a call with all its attempts, and so does the same request for one that is reserved |
| EnrollmentLife.AnsweredAttemptCompletes | services/enrollment-service/app/enrollment_api.py:99-213 | from every reachable state one answered attempt that the authority accepts and the last transaction consume the token, with the certificate made before if an earlier answer was lost, and its own data |
| EnrollmentLife.ConsumedMeansIssued | services/enrollment-service/app/enrollment_api.py:20-44 | a consumed token's row carries the certificate issued for it, with its tenant, asset and device |
| EnrollmentLife.ConsumedAnswersAreFixed | services/enrollment-service/app/reservation.py:65-84 | after consumption an equal fingerprint always gets that same result and any other is a replay, whatever happens in between |
| EnrollmentLife.WithdrawnForGood | services/enrollment-service/app/reservation.py:138-139 | once a token is withdrawn no call for it begins, whatever happens; with none in progress it never changes again |
| EnrollmentLife.ExpiredForGood | services/enrollment-service/app/reservation.py:146-147 | a token that is neither reserved nor consumed when it expires is never reserved |
| EnrollmentLife.NeverInconsistent | services/enrollment-service/app/reservation.py:158-160 | the answers "state inconsistent" and "not complete" are never given |
| EnrollmentLife.ReleasedMeansNeverIssued | services/enrollment-service/app/enrollment_api.py:72-75 | a token is released only if nothing was issued for the attempt, and nothing ever will be |
| EnrollmentRace.CompleteForGoodExactlyWhen | services/enrollment-service/app/enrollment_api.py:47-96 | with any number of calls in flight, a completed enrollment stays complete in every continuation exactly when every one of them has its certificate already |
| EnrollmentRace.TwoCallsGetStuck | services/enrollment-service/app/enrollment_api.py:69-93 | from every token that can be reserved, a run of two calls with one request ends with the token consumed and the enrollment pending |
| EnrollmentRace.StuckForGood | services/enrollment-service/app/reservation.py:132-136 | that state is final: no request ever gets the result |
| Revocation.SerialPrintsAgree | services/device-edge-service/internal/identity/identity.go:45 | the edge's print of a serial number is the PKI's |
| Revocation.PrintsDiffer | services/device-edge-service/internal/revocation/crl.go:53-61 | different serial numbers are never printed alike |
| Revocation.BuildCrl | services/pki-service/app/certificates.py:171-204 | the list has one entry for each dated row, in order, with its parsed serial and a known reason |
| Revocation.ListIsDated | services/pki-service/app/certificates.py:178-183 | when a list starts and expires |
| Revocation.EntryOfEachRow | services/pki-service/app/certificates.py:191-202 | no dated row is missing from the list, with its serial, date and known reason |
| Revocation.RowOfEachEntry | services/pki-service/app/certificates.py:191-202 | every entry comes from a dated row |
| Revocation.Store.LoadDER | services/device-edge-service/internal/revocation/crl.go:22-51 | refuses in the source's order and then keeps what it had; otherwise holds exactly the list's serials and its expiry |
| Revocation.ListedExactly | services/device-edge-service/internal/revocation/crl.go:40-45 | a serial is held exactly when some entry has it |
| Revocation.LoadedExactlyWhen | services/device-edge-service/internal/revocation/crl.go:22-51 | a load takes effect exactly for a list the configured authority signed and that is in time; then exactly the serials of its entries are turned away |
| Revocation.Handler.ServeHTTP | services/device-edge-service/internal/proxy/proxy.go:70-120 | each of the eight answers is given exactly under its condition; a request is forwarded exactly if it passes every check, with reloads falling between the two revocation checks |
| Staleness.CommitKeeps | services/pki-service/app/api.py:276-297 | a commit whose rows were dated at any earlier time keeps the invariant: every reading, list and forwarded request still covers what was committed before its rows were read |
| Staleness.CommitTimesStay | services/pki-service/app/api.py:276-297 | the commit time of a revocation is that of the step that made it, and never changes |
| Staleness.RowsAreRead | services/pki-service/app/api.py:136-142 | what the query of a publication returns has every row committed as revoked before |
| Staleness.StampedIsOk | services/pki-service/app/certificates.py:171-204 | the list stamped later from these rows has the serial of each of them, whatever was committed in between |
| Staleness.UnlistedIsRecentAtMost | services/device-edge-service/internal/revocation/crl.go:72-80 | the revocation of a serial missing from the held list was not committed before the rows of that list were read, and the load that brought the list read the clock before its expiry |
| Staleness.ApplyKeeps | services/pki-service/app/api.py:133-149 | commits, publications that read and stamp apart, loads of any list that read the clock and swap apart, and requests between their checks keep the invariant |
| Staleness.ForwardedWasNotLongRevoked | services/device-edge-service/internal/proxy/proxy.go:80-88 | over every run the revocation of a forwarded serial was not committed before the rows of the consulted list were read, so it is not dated earlier than one lifetime, the publication's pause and the commit's delay before the clock reading of the load, nor before the earlier of the validity check and the expiry of that list |
| Staleness.BoundFromTheCheckExactlyWhen | services/device-edge-service/internal/revocation/crl.go:33-49 | for each distance of the check from the expiry, publication pause and commit delay: one lifetime before the check bounds the date of the revocation over every run exactly when the three add up to at most nothing |
| Staleness.PausedRun | services/pki-service/app/certificates.py:171-179 | a run that breaks that bound, for every lifetime and every distance, pause and delay that add up to more than nothing |
| Staleness.EachPauseBreaksTheBound | services/device-edge-service/internal/revocation/crl.go:33-49 | a load, a publication and a commit that pause each break it alone |
| TokenBucket.TokenBucketLimiter.Consume | services/gateway-service/app/rate_limit.py:46-76 | the call equals the specification: errors in order, refill, grant or denial with its retry-after |
| TokenBucket.RunKeepsHealthy | services/gateway-service/app/rate_limit.py:57-72 | every level stays between zero and its capacity |
| TokenBucket.KeyWindowBound | services/gateway-service/app/rate_limit.py:63-72 | in any window a key is granted at most the capacity plus the refill over the forward movement of its own readings |
| TokenBucket.FewerReadings | services/gateway-service/app/rate_limit.py:55 | one key's readings move forward no further than all readings together |
| TokenBucket.ForwardOfSteadyClock | services/gateway-service/app/rate_limit.py:55 | readings that never step back move forward by plain elapsed time |
| TokenBucket.WindowBound | services/gateway-service/app/rate_limit.py:55-72 | from any reachable state, whatever other calls are mixed in, the cost granted is at most capacity plus refill rate times forward clock movement |
| TokenBucket.AllowedExactlyWhen | services/gateway-service/app/rate_limit.py:55-76 | after any run a call is allowed exactly when no window that ends with it is granted more than capacity plus refill |
| TokenBucket.RefusedExactlyWhen | services/gateway-service/app/rate_limit.py:46-52 | a call is refused exactly for its cost, an unknown bucket or an empty key, and leaves no trace |
| TokenBucket.LowerClampIsIdle | services/gateway-service/app/rate_limit.py:75 | the lower clamp to one second never changes the answer |
| TokenBucket.DeniedCallsAreHarmless | services/gateway-service/app/rate_limit.py:70-76 | denied calls take nothing, whichever way the clock goes |
| TokenBucket.WaitingSuffices | services/gateway-service/app/rate_limit.py:74-76 | waiting as answered is enough, with any denied calls in between |
| TokenBucket.WaitingLessFails | services/gateway-service/app/rate_limit.py:74-76 | fewer whole seconds would still be denied |
| TokenBucket.RetryAfterIsExact | services/gateway-service/app/rate_limit.py:74-76 | the answer is kept exactly when the cost fits the bucket and the wait is not cut to an hour |
| TokenBucket.TooMuchIsNeverGranted | services/gateway-service/app/rate_limit.py:70-72 | more than the capacity is denied in every state at every time |
| TokenBucket.DefaultAnswersAreKept | services/gateway-service/app/rate_limit.py:79-87 | with the shipped policies and a cost of one the answer is always kept |
| Departments.DepartmentTable.ValidateParent | services/tenant-service/app/api.py:332-358 | the loop over `visited` ends on any table, cyclic or not, and equals the walk |
| Departments.DepartmentTable.CreateDepartment | services/tenant-service/app/api.py:373-398 | a department is created exactly if its parent is valid and its code and id are free |
| Departments.DepartmentTable.UpdateDepartment | services/tenant-service/app/api.py:436-457 | exactly the given fields change, and only if a given parent is valid |
| Departments.ValidationIsExact | services/tenant-service/app/api.py:332-358 | in a forest the walk rejects exactly missing, foreign and descendant parents |
| Departments.LinkKeepsAcyclic | services/tenant-service/app/api.py:375-380 | a new parent link off the department's own subtree makes no cycle |
| Departments.EveryRunKeepsTheForest | services/tenant-service/app/api.py:373-457 | over every run links are acyclic and stay in one tenant, and codes are unique in a tenant |
| Departments.MovesAreDecidedExactly | services/tenant-service/app/api.py:345-357 | in every reachable state a move is decided exactly and the "contains a cycle" branch is dead |
| Departments.UpdateExactlyWhen | services/tenant-service/app/api.py:436-457 | in every reachable state an update succeeds exactly for a department of the tenant and a sound new parent; each column is what is given or what it was |
| Departments.CreateExactlyWhen | services/tenant-service/app/api.py:373-398 | in every reachable state a creation succeeds exactly for a sound parent and a free id and code, and stores what is given |
| Presence.PresenceStore.ApplyHeartbeat | services/agent-control-service/app/heartbeat.py:31-82 | first, later, foreign and disabled heartbeats leave the tables the specification says |
| Presence.PresenceStore.MarkStaleDevicesOffline | services/agent-control-service/app/offline.py:11-19 | every silent online device goes offline with one event, in the query's order, and nothing else changes |
| Presence.NormalizedIsCanonical | services/agent-control-service/app/heartbeat.py:27-28 | two reports compare equal exactly when they name the same capabilities |
| Presence.RunKeeps | services/agent-control-service/app/heartbeat.py:58-79 | over every run the log stays faithful and no device changes tenant or asset |
| Presence.TheLogTellsTheState | services/agent-control-service/app/heartbeat.py:31-82 | online and offline events alternate from online and end in the stored state; snapshots match events, differ in succession and end in the stored list; all events name one binding |
| Presence.TheRowIsTheLastHeartbeat | services/agent-control-service/app/heartbeat.py:35-72 | after any run a device has a row exactly if a heartbeat was accepted, and it says what the last accepted one did, in every column |
| Presence.SweepsExactlyTheSilent | services/agent-control-service/app/offline.py:11-19 | after any run a sweep takes a device offline exactly if it is online and its last accepted heartbeat is older than the cutoff |
| Presence.HeartbeatTells | services/agent-control-service/app/heartbeat.py:31-82 | an accepted heartbeat answers and logs exactly whether the device came online and whether it names other capabilities |
| Presence.RefusedExactlyOnForeignBinding | services/agent-control-service/app/heartbeat.py:58-61 | a heartbeat is refused exactly for another binding; "disabled" is never answered |
| Presence.DisabledIsRefused | services/agent-control-service/app/heartbeat.py:60-61 | a device disabled by hand is refused and leaves no trace |
| Text.ParseHexOfHex | services/pki-service/app/certificates.py:146 | parsing a printed serial number gives it back, in either letter case |

## Left out

- Delivery.ExactlyOnce: claims nothing for command wake-ups, because they go to a stream the audit service does not read.
- Runner.Agent.Commands: the agent's `telemetry` and the order of a cycle are steps of the protocol, not methods; back-off is not modelled.
- Delivery.DrainedMeansRecorded: safety only; that the bus delivers again, or that a worker runs, is not claimed.
- AgentProtocol.SpooledUntilRecorded: no claim that a spooled result is delivered, because a lapsed lease refuses it for good.
- Promotion.OriginalIsNeverLost: a marker that was seen ends the guarantee, also one that a failed removal left from an earlier update. What others put at a marker path of its own is a marker. Others change the directory between calls and at the marker look, not between the other operations of a call. A power cut that undoes synced renames is not covered.
- Promotion.GeneratedPathsSeparate: paths are compared as strings; `filepath.Clean`, drive letters and case-insensitive names are not modelled.
- EnrollmentLife.OneCertificatePerToken: calls for one token are serialised, a grant stays valid during its call, UUIDs are fresh, the request fingerprint and the CSR digest are collision-free, and the PKI's view of a CSR depends on its digest.
- EnrollmentRace.CompleteForGoodExactlyWhen: what the PKI answers each call is arbitrary there; how many certificates concurrent calls can lead to is not stated.
- Undelivered.RefusedForGoodExactlyWhen: continuations make their submissions from a given time on and contain none for the same command with a different payload of the same digest.
- Staleness.ForwardedWasNotLongRevoked: the PKI and the edge read one clock that never steps back; skew between them adds to the bound.
- Outbox.OutboxTable.PublishPendingOnce: events that other transactions insert, and rows that they lock, between the selections of one call are not modelled.
- Revocation.Handler.ServeHTTP: the handler always has a store; without one, which its constructor accepts, the code skips both checks of the list.
- TokenBucket.WindowBound: levels and clock readings are real numbers, so floating-point rounding is not covered.
- Handlers of departments, presence, issuance, rotation and revocation are atomic transactions, as if they locked what they read (only the date of a revocation may be earlier than its commit); so the recovery branch after a lost race on a unique column has nothing to recover.
- Rows and files are keyed by what is unique in them: an enrollment row by its token (the token's id is unique there), a token by its hash, spool files by kind and id. The glob and sort of the spool directory are an ordered list, and its scan finds no corrupt file.
- Event payload fields beyond the ones the consumers read (leases, versions, failure codes), the outbox rows of PKI, enrollment and departments, `normalize_command` and the validators of request schemas.
- JSON and ISO-8601 printing and parsing: an envelope is a tree and a moment is its own leaf. The forbidden-key test of `sanitize_metadata` can never fire for a scalar under a permitted key and is not repeated.
- Unicode: trimming and lower case are ASCII, strings compare by code point.
- The X.509 library refuses common names over 64 characters; the model follows the service's own limit of 255.
- Cryptography, X.509, CSR and JWT checks: they enter as accepted or rejected input; certificate text and chains are not stored.
- An explicit null for a department's name or status: the column refuses it and the transaction rolls back.
- HTTP, authentication, metrics, logging, migrations, the web console, session store, telemetry sampling, version comparison and back-off: single-branch or plumbing.

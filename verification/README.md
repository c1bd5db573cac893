# AssetCore protocols in Dafny

AssetCore is a maintenance backend with operator scripts. Several of its parts are state machines with real
arithmetic behind them, and this project models those and proves what they promise. The handlers and scripts that
change state step by step are written as Dafny classes and loops and are proved against specification functions or
against properties of a log; the properties over whole runs are lemmas about those functions and logs.

| Part of AssetCore | Files here |
|---|---|
| Signing of official documents (`backend/app/hardening_api.py`) | `SigningModel`, `SigningDesk` (the handlers), `SigningInvariant`, `SigningHistory`, `SigningEffects`, `SigningLiveness`, `SigningRegistry` (concurrent transactions), `SigningCancellation` (a cancel beside them) |
| Login throttle (`backend/app/auth_throttle.py`) | `LoginThrottle`, `LoginThrottleRuns` |
| Browser sessions (`backend/app/auth_sessions.py`) | `BrowserSessions` |
| Fail-closed upgrade (`scripts/production_deploy.py`, `scripts/production_manager.py`) | `UpgradeLog`, `UpgradeScripts`, `Upgrade`, `UpgradeSafety`, `Manager` |
| Database guards (`backend/app/request_schema_guards.py`, `backend/app/visual_snapshot_schema.py`) | `SqlGuards`, `RequestEvidence`, `VisualHistory` |
| CI qualification (`scripts/production_manager_ci.py`) | `CiListings`, `CiQualification`, `CiHistory` |
| Part-request fulfilment (`backend/app/industrial_api.py`, `backend/app/part_requests`) | `Fulfilment`, `FulfilmentDesk`, `FulfilmentProofs`, `FulfilmentReceipts`, `FulfilmentReversals`, `FulfilmentEffects` |
| Catalogue row matching (`scripts/catalog_oem_layout_qa.py`) | `RowMatching` |
| Inventory renumbering (`backend/app/registry_correction.py`) | `Renumbering` |
| Tokens and import preview (`backend/app/security.py`, `backend/app/industrial_api.py`) | `Base64Url`, `Tokens`, `ImportPreview` |

`Wrappers` holds the two usual failure-carrying types. `dafny verify dfyconfig.toml` checks everything.

## How the parts are modelled

**Signing.** A `Dossier` holds the rows of one document: versions, participants, sessions, signatures. Each handler is
a method of `SigningDesk.Desk` that commits exactly the rows, or returns exactly the refusal, of its pure step in
`SigningModel`. `SigningInvariant` proves that every step keeps a joint invariant, `SigningHistory` and
`SigningLiveness` draw the consequences for runs, `SigningEffects` says on the rows alone when each handler is accepted
and what it writes, and `SigningRegistry` puts any number of documents and transactions
side by side, from an empty registry on: documents are created, and a transaction reads its session without a lock,
waits for the document lock, reads again, acts, and commits or aborts, in any interleaving. Cancelling a session locks
only the session row; `SigningCancellation` lets any other steps of the document commit between its read and its
commit. The rendered signature files are content that the step receives; digests are
free constructors, so equal digests mean equal content. Every session identifier stands for its one-time token.

**Throttle and sessions.** Times are integer microseconds or seconds, clocks do not go back, and the numeric ranges
are those of the settings.

**Upgrade.** A deployment appends every external command, with the image selected at that moment and the reply, to a
log; the environment that replies is an arbitrary function of the whole log, so any command may fail at any point.
`UpgradeScripts` lists the commands of an uneventful operation with their images and replies; an operation succeeds
exactly by such a script and otherwise departs from all of them. The safety predicates speak of the log alone.
`UpgradeSafety` adds the databases behind the commands: each is its list of
committed changes, to which only the application while it may run, a migration, and a backup that records itself can
add. `Manager` runs such deployments, pinned to the image it built, from the operator's update.

**Guards.** Tables are maps, statements are lists of row changes that happen all or not at all, and the DDL that the
Python code builds is data with a meaning: which triggers are in force after it, for PostgreSQL and for SQLite.

**CI.** Requests happen one after the other and the answers depend on the instant. `CiHistory` adds a history of the
server with run numbers and attempts that only grow.

## Findings

These are places where a natural claim about the code is false; each has its exact condition.

* *A document open for signing can always be signed.* A slot that is required but inactive is not demanded when
  participants are assigned, yet `_ensure_sequence` still waits for it. A version can be signed if and only if it is not
  stuck in that way (`SigningLiveness.CanBeSignedIffNotStuck`, with the concrete document of `InactiveSlotSticks`); with
  active required slots it never is.
* *k failures beyond the limit take k base blocks, so k·base < window.* False when the maximum block is shorter than
  the base block; `LoginThrottleRuns.BaseBoundHoldsIff` gives the condition on the settings.
* *Cancelling one session of a participant never costs a confirmed signature.* The cancel deletes the row it read as
  pending even if another session has confirmed it meanwhile, and the version stays signed without that signer
  (`SigningCancellation.LastSignatureCanBeErased`, on a concrete document `SoleSignatureIsErased`). It is harmless in
  every overlap if and only if, when it reads, the signature is not pending, or the participant has no other open
  session, or the version is not the current one or cannot be signed (`CancelIsSafeIff`).
* *Updates of `update_part_request_fulfillment` can always complete an ordered request.* Its targets are integers:
  `FulfilmentProofs.FullDeliveryReachableIff` gives the exact condition. Two and a half metres are never delivered by
  such updates, but they are by a delivery through `POST /part-requests/{id}/deliveries`, which takes decimals
  (`FulfilmentReceipts.HalfMetresNeedADelivery`). With those deliveries, whose amounts have six decimals, a request with
  an approval snapshot can be completed if and only if each line can: what a countable line misses is whole; what any
  other line misses has six decimals, or its quantity has and an integer lies between (`FullDeliveryByAmountsIff`).
* *Both branches of `update_part_request_fulfillment` accept the same.* For whole quantities they do
  (`FulfilmentProofs.BranchesAcceptTheSame`). In general the branch with a snapshot refuses besides exactly the
  fractional deltas of countable lines of free-form requests, and the branch without refuses besides exactly the other
  requests with a fractional line; when a request is only marked as ordered, the branch with a snapshot refuses any
  delivery and the branch without stores it (`BranchesCompared`).
* *The database that is migrated is the one that was probed.* A probe reports the schema revision and which database it is,
  not what it holds, and the old release runs until the stop. What it commits after the probes is backed up and migrated
  unseen (`UpgradeSafety.AnUnseenWriteIsMigrated`). Equal probes give the same database and revision; the contents are
  those probed if and only if nothing was written from the probe up to the stop (`BackedUpAsProbedIff`).
* *Rows that pair off on all five fields are accepted.* The greedy matching can fail on overlapping name sets
  (`RowMatching.OverlappingNamesMayFail`). The rows for which every list of candidates that pairs off is accepted are
  exactly these: of two rows that agree on the other four fields and share a name, the later one has all names of the
  earlier (`RowMatching.PagesAreAcceptedIff`; `AcceptanceIff` for any rule).
* *The qualified run is the newest until the last request.* Surely so only until the second listing begins; a run that
  appears after it goes unnoticed (`CiHistory.ALaterRunGoesUnnoticed`). Up to the last request it is the newest if and
  only if the newest run at that moment still has its number (`CiHistory.NewestUntilTheLastRequestIff`). Only this upper
  end is shown to be sharp, not the lower end of the interval, the last page of the first listing.
* *Any order of corrections is safe.* For machines that still have the old numbers, the numbers stay different after every
  flush if and only if no destination is still held, or taken later, by another correction of the list.

## Model

| member | source | states |
|---|---|---|
| SigningDesk.Desk.constructor | backend/app/hardening_api.py:571-616 | creating a document with accepted participants yields version 1, ready or draft, with digests of exactly the stored content |
| SigningDesk.Desk.AssignParticipants | backend/app/hardening_api.py:690-713 | participants enter a draft once and open it, or the handler refuses and nothing changes |
| SigningDesk.Desk.SupersedeVersion | backend/app/hardening_api.py:839-871 | the next version is appended with its participants and becomes current, the old one is closed and its session rows stay, or nothing changes |
| SigningDesk.Desk.CancelVersion | backend/app/hardening_api.py:874-936 | the current version is cancelled with its open sessions, or nothing changes |
| SigningDesk.Desk.CreateSession | backend/app/hardening_api.py:939-971 | a session opens only for an unsigned participant whose turn has come |
| SigningDesk.Desk.CancelOneSession | backend/app/hardening_api.py:974-1011 | an open session ends and an unconfirmed signature of its participant goes with it |
| SigningDesk.Desk.EnsureSequence | backend/app/hardening_api.py:1014-1024 | true exactly when every required lower slot that a sequential slot waits for is confirmed |
| SigningDesk.Desk.Context | backend/app/hardening_api.py:1065-1103 | the re-read under the lock succeeds if and only if the session exists, is open at that time, and its participant's version is current and signable; it answers that participant, and of the refusals not-found means exactly that there is no session |
| SigningDesk.Desk.SubmitSignature | backend/app/hardening_api.py:1170-1238 | a fresh image is stored as an unconfirmed signature bound to the signing digest, or nothing changes |
| SigningDesk.Desk.ConfirmSignature | backend/app/hardening_api.py:1241-1263 | confirmation, spent token, recomputed status and finalised files happen together or not at all |
| SigningDesk.Desk.RefreshStatus | backend/app/hardening_api.py:1279-1292 | the status becomes the function of the confirmed set; a signed version gets its final files and digests |
| SigningDesk.Desk.RejectSignature | backend/app/hardening_api.py:1266-1276 | the session is rejected and the unconfirmed signature removed, or nothing changes |
| SigningDesk.BuildRows | backend/app/hardening_api.py:493-528 | the participant rows, or the first refusal in the order of the checks |
| SigningInvariant.CreateEstablishes | backend/app/hardening_api.py:571-616 | every created document satisfies the joint invariant |
| SigningInvariant.StepKeeps | backend/app/hardening_api.py:690-1292 | every step, accepted or refused, keeps the joint invariant: chain, roster, status, order, live sessions, digests, images |
| SigningInvariant.RunKeeps | backend/app/hardening_api.py:690-1292 | so does every run |
| SigningHistory.StatusTellsProgress | backend/app/hardening_api.py:1279-1292 | in every reachable state the current status says exactly how far the required signatures have come |
| SigningHistory.SignedInOrder | backend/app/hardening_api.py:1014-1024 | whoever holds a signature, confirmed or not, has every slot before it confirmed |
| SigningHistory.VersionsFormAChain | backend/app/hardening_api.py:839-871 | versions are numbered 1 to n, the last is current, exactly the others are superseded, each by its successor |
| SigningHistory.HashesAlwaysVerify | backend/app/hardening_api.py:772-796 | hash verification succeeds in every reachable state |
| SigningHistory.SignaturesBindTheOriginalFiles | backend/app/hardening_api.py:117-139 | a signature keeps the digest of number, type, version, snapshot and original files, also after finalisation rewrote them |
| SigningHistory.ClosedVersionsAreFrozen | backend/app/hardening_api.py:1027-1054 | the confirmed signatures of signed, superseded and cancelled versions never change again, and a signed version stays signed or is superseded |
| SigningHistory.StatusesOnlyAdvance | backend/app/hardening_api.py:839-936 | over every run each status only advances: no signed version is ever cancelled, nothing superseded or cancelled is reopened |
| SigningHistory.DeadTokensStayDead | backend/app/hardening_api.py:1057-1062 | a consumed, rejected or expired token is refused after every run |
| SigningHistory.ConfirmSpendsTheToken | backend/app/hardening_api.py:1241-1263 | after a confirmation its own token is refused for every purpose, through every later run |
| SigningEffects.ParticipantsAreBuiltExactly | backend/app/hardening_api.py:493-528 | participants are accepted exactly if there are none, or all exist and fit active slots of their own and every active required slot is taken; the rows are theirs in order |
| SigningEffects.CreatesExactly | backend/app/hardening_api.py:571-616 | when a creation is accepted, and that its one version holds exactly the snapshot, DOCX and PDF supplied |
| SigningEffects.AssignsExactly | backend/app/hardening_api.py:690-713 | when an assignment is accepted, and that only the status and the added rows change |
| SigningEffects.SupersedesExactly | backend/app/hardening_api.py:839-871 | when a version is superseded, what the new one holds and what the old one keeps |
| SigningEffects.CancelsExactly | backend/app/hardening_api.py:874-936 | a cancellation is accepted exactly without an approval and for a draft, ready or partially signed version, and closes exactly its open sessions |
| SigningEffects.OpensExactly | backend/app/hardening_api.py:939-971 | when a session opens, for how long, and for whom |
| SigningEffects.CancelsSessionExactly | backend/app/hardening_api.py:974-1011 | when a session is cancelled, and that of the signatures only the unconfirmed one of its participant goes |
| SigningEffects.SubmitsExactly | backend/app/hardening_api.py:1170-1238 | when a signature is stored, and which |
| SigningEffects.ConfirmsExactly | backend/app/hardening_api.py:1241-1392 | when a confirmation is accepted; the version is signed exactly if everyone else who must sign has, and then which file takes the place of which |
| SigningEffects.RejectsExactly | backend/app/hardening_api.py:1266-1276 | when a rejection is accepted, and what it withdraws |
| SigningEffects.SubmitRefusesWith | backend/app/hardening_api.py:1170-1221 | which refusal a submission gets, in the order of the checks |
| SigningEffects.TokensAreRefusedWith | backend/app/hardening_api.py:1057-1103 | which refusal a dead token gets from confirmation and rejection |
| SigningEffects.OpeningIsRefusedWith | backend/app/hardening_api.py:942-962 | which refusal the opening of a session gets |
| SigningEffects.ChangesAreRefusedWith | backend/app/hardening_api.py:843-906 | which refusal superseding and cancelling get |
| SigningLiveness.CanBeSignedIffNotStuck | backend/app/hardening_api.py:939-1024 | from a reachable open state some run signs the version if and only if no participant waits for a slot that nobody holds |
| SigningLiveness.ActiveRequiredSlotsNeverStick | backend/app/hardening_api.py:493-528 | when required slots are active every reachable open state can be signed |
| SigningLiveness.StuckIsForever | backend/app/hardening_api.py:1014-1024 | no run signs a stuck version |
| SigningLiveness.InactiveSlotSticks | backend/app/hardening_api.py:493-528 | a concrete document, accepted as ready, that no run can sign |
| SigningLiveness.SignersFinish | backend/app/hardening_api.py:1170-1292 | signing the remaining required participants one after the other ends in a signed version; their number is the measure |
| SigningRegistry.InterleavingIsSerial | backend/app/hardening_api.py:1065-1103 | every interleaving of creations and transactions that take the document lock commits what the same steps do one after the other in commit order |
| SigningRegistry.SerialIsInterleaved | backend/app/hardening_api.py:1065-1103 | conversely every log of accepted creations and handlers that take the lock is the commit log of some interleaving |
| SigningRegistry.RegistersExactly | backend/app/hardening_api.py:578-596 | a document is registered exactly with a number that is free and outside the reserved series, spelled out, and a type that is no transfer |
| SigningRegistry.ConfirmationsAreNeverLost | backend/app/hardening_api.py:1241-1292 | from an empty registry on, at every moment of every interleaving of handlers that take the document lock, the open or signed current version carries the status of its confirmed set; `cancel_signature_session`, which takes none, is excluded (see `SigningCancellation`) |
| SigningRegistry.RacingConfirmationsCommitOnce | backend/app/hardening_api.py:1241-1263 | however requests race, one token never commits two confirmations |
| SigningRegistry.NoImageIsStoredTwice | backend/app/hardening_api.py:1170-1238 | from an empty registry on no signature image is ever stored twice, within a document or across documents |
| SigningRegistry.NumbersStayApart | backend/app/hardening_api.py:571-616 | no two documents ever have the same number |
| SigningRegistry.LockedRowsStandStill | backend/app/hardening_api.py:1065-1103 | what a transaction read under the lock stays the committed state until it commits |
| SigningCancellation.HarmlessIff | backend/app/hardening_api.py:974-1011 | a cancel that commits after other steps keeps the invariant and every confirmation unless the signature it read as pending was confirmed in between |
| SigningCancellation.CancelIsSafeIff | backend/app/hardening_api.py:974-1011 | a cancel is harmless whatever commits beside it exactly when, at its read, no second open session could confirm the pending signature |
| SigningCancellation.LastSignatureCanBeErased | backend/app/hardening_api.py:974-1011 | whenever one required signature is missing, some overlap leaves the version signed without it |
| SigningCancellation.SoleSignatureIsErased | backend/app/hardening_api.py:974-1011 | a concrete document with one approver that ends up signed without a signature |
| LoginThrottle.Throttle.Enforce | backend/app/auth_throttle.py:128-140 | the refusal carries the longest remaining block of the keys, rounded up to whole seconds |
| LoginThrottle.Throttle.RecordFailure | backend/app/auth_throttle.py:206-251 | for different keys, each row is what one failure makes of it: restarted at 1 after its window or counted on, and from the limit on blocked for the base times 1, 2, 4, 8 or 16, capped; other rows stay, and the answer is the longest of these blocks |
| LoginThrottle.Throttle.ClearFailures | backend/app/auth_throttle.py:254-264 | exactly the rows of the keys go |
| LoginThrottle.BlockIsCappedDoubling | backend/app/auth_throttle.py:225-228 | failure number limit + k blocks for the base times 1, 2, 4, 8 and from k = 4 on 16, and never longer than the maximum |
| LoginThrottle.RecordingFailsAll | backend/app/auth_throttle.py:206-251 | recording on different keys makes of each row what one failure makes of it, and leaves the others |
| LoginThrottle.TheLongestIsAnswered | backend/app/auth_throttle.py:206-251 | the recorded wait is the longest of the blocks just set, or zero |
| LoginThrottleRuns.RunKeeps | backend/app/auth_throttle.py:206-251 | over every run a block exists only at or above the limit and the counted blocks fit between window start and last update |
| LoginThrottleRuns.SuccessStartsAfresh | backend/app/auth_throttle.py:254-264 | after a success the next failure of a cleared key is its first, and no other row is touched |
| LoginThrottleRuns.FailuresPerWindowAreBounded | backend/app/auth_throttle.py:206-251 | k failures beyond the limit have waited the sum of the first k capped multiples, by 1, 2, 4, 8 and then 16, of the base inside one window |
| LoginThrottleRuns.BaseBoundHoldsIff | backend/app/settings.py:29-38 | for every retention, the settings for which k failures beyond the limit imply k base blocks within the window, and that otherwise a run breaks it |
| LoginThrottleRuns.RetryAfterIsExact | backend/app/auth_throttle.py:122-140 | recording a failure answers the wait that enforcement computes at the same instant |
| LoginThrottleRuns.WaitingPasses | backend/app/auth_throttle.py:128-140 | whoever waits that many seconds passes |
| LoginThrottleRuns.WaitingLessIsRefused | backend/app/auth_throttle.py:128-140 | whoever waits less is refused |
| LoginThrottleRuns.LiveBlocksSurvive | backend/app/auth_throttle.py:206-251 | a block survives every run of attempts, successes and cleanups that ends before it |
| LoginThrottleRuns.BlockedKeysAreRefused | backend/app/auth_throttle.py:128-140 | after every such run an attempt with the blocked key is refused |
| LoginThrottleRuns.CleanupIsInvisible | backend/app/auth_sessions.py:65-77 | over every run the answers are the same with and without the retention cleanups |
| BrowserSessions.Store.LoadSession | backend/app/auth_sessions.py:145-183 | the outcome by token, user state and CSRF code, and the revocation of a session whose user has changed |
| BrowserSessions.Store.IssueSession | backend/app/auth_sessions.py:80-116 | the presented session is rotated out and the new one stored |
| BrowserSessions.Store.RevokeAll | backend/app/auth_sessions.py:119-128 | exactly the open sessions of the user are revoked |
| BrowserSessions.LoadsExactly | backend/app/auth_sessions.py:145-183 | which of the four answers a request gets, on the rows of its session and user |
| BrowserSessions.StepsDoExactly | backend/app/auth_sessions.py:65-183 | which rows each operation adds, revokes and deletes, and that all others stay |
| BrowserSessions.CleanupIsInvisible | backend/app/auth_sessions.py:65-77 | leaving out every cleanup of a run changes none of its answers |
| BrowserSessions.DeadTokensStayDead | backend/app/auth_sessions.py:145-163 | a dead token stays dead through every run that does not hand it out again |
| BrowserSessions.RevokedSessionsNeverLoad | backend/app/auth_sessions.py:119-128 | after a user's sessions are revoked none of them ever loads again |
| Upgrade.Deployment.Validate | scripts/production_deploy.py:182-186 | success exactly by the four commands of the validation with their replies, and otherwise some reply is another |
| Upgrade.Deployment.BackupImage | scripts/production_deploy.py:263-283 | the previous image makes the backup, or the target in the one admitted repair of the baseline, after exactly its checks |
| Upgrade.Deployment.Preflight | scripts/production_deploy.py:285-296 | whatever happens the target is selected again |
| Upgrade.Deployment.Start | scripts/production_deploy.py:214-223 | the selected image is started and answers, or is stopped again and some reply was not what it had to be |
| Upgrade.Deployment.Upgrade | scripts/production_deploy.py:328-412 | for every environment: success exactly by the script of commands, selected images and replies; a failure departs from every script; each migration follows all that the script has before it, the confirmed sources last; nothing but the target is started; a failure after the record was begun ends with the recovery record, which names the stage of the last command |
| Upgrade.Deployment.Initialize | scripts/production_deploy.py:225-233 | success exactly by its script; preparation directly follows the proof that there is no application and that the database is empty |
| Upgrade.Deployment.Restart | scripts/production_deploy.py:235-261 | success exactly by its script, with the database healthy before the start; no migration, and only the image that the existing container was seen to have is started |
| UpgradeScripts.ScriptIsEvidence | scripts/production_deploy.py:328-405 | what the script has before the migration is the evidence that the safety lemmas rest on |
| UpgradeSafety.OnlyTheTargetRunsAfterMigration | scripts/production_deploy.py:376-412 | once a migration was issued only the target may be running, whatever failed before or fails later |
| UpgradeSafety.WhatIsMigratedIsBackedUp | scripts/production_deploy.py:371-405 | the migration starts from what was backed up and verified and the audit entry of that backup alone, which is what the stop left, in the one database that the probes of the old release, the backup image and the target reported, at the reported revision |
| UpgradeSafety.BackedUpAsProbedIff | scripts/production_deploy.py:336-378 | with equal probes the contents backed up are those probed exactly if nothing was written from the probe up to the stop |
| UpgradeSafety.AnUnseenWriteIsMigrated | scripts/production_container.py:52-61 | a concrete log with all its evidence that migrates a row no probe saw |
| Manager.Operator.Update | scripts/production_manager.py:447-498 | success exactly by the script of looks, consultations, approval, build and upgrade, whose child succeeded by its own; otherwise some answer is another; a stop follows the upgrade only for more than a licence failure |
| Manager.Operator.ExecuteUpgrade | scripts/production_manager.py:341-389 | the pinned child deployment is safe for the built image; with a good receipt it is done exactly by the scripts of its validation and upgrade |
| Manager.Operator.ExecuteStop | scripts/production_manager.py:377-381 | the application is stopped exactly after the pinned image was validated and found in its container |
| Manager.Operator.Conclude | scripts/production_manager.py:480-498 | success only for a qualified target; a licence failure keeps the application, other failures stop only the target |
| Manager.UpdateRunsOnlyTheBuiltImage | scripts/production_manager.py:447-498 | after a migration of a whole update only the image that was built and approved may run |
| RequestEvidence.Statements | backend/app/request_schema_guards.py:49-112 | the statements of both dialects put the same guards in force |
| RequestEvidence.GuardsRefuseExactly | backend/app/request_schema_guards.py:49-112 | the guards refuse exactly the changes that alter evidence, said on approvals, owners and changed columns; every other change goes through |
| RequestEvidence.ApprovedEvidenceIsFrozen | backend/app/request_schema_guards.py:71-101 | over every sequence of statements an approved request keeps its snapshot, locked fields, lines, attachments and archive |
| RequestEvidence.CounterOnlyMovesByOne | backend/app/request_schema_guards.py:102-111 | the number counter stays and has moved by one for each committed change to it |
| RequestEvidence.ApprovedLinesAreFrozen | backend/app/request_schema_guards.py:26-101 | over every sequence of statements no line of an approved request comes, goes or changes any of its columns |
| VisualHistory.GuardStatements | backend/app/visual_snapshot_schema.py:6-42 | the statements put the guards of their dialect in force |
| VisualHistory.GuardsRefuseExactly | backend/app/visual_snapshot_schema.py:6-42 | the guards refuse exactly changes and deletions of history and occurrences beyond the announced count |
| VisualHistory.DialectsAgree | backend/app/visual_snapshot_schema.py:6-42 | both dialects admit the same histories |
| VisualHistory.HistoryIsAppendOnly | backend/app/visual_snapshot_schema.py:6-42 | every artifact, snapshot and occurrence stays as it was written |
| VisualHistory.OccurrencesFitTheCount | backend/app/models.py:1847-1892 | a snapshot has at most the announced occurrences, and has them all exactly when their ordinals are 1 to n |
| VisualHistory.CompleteSnapshotsAreClosed | backend/app/visual_snapshot_schema.py:21-42 | a complete snapshot takes no further occurrence |
| VisualHistory.IncompleteSnapshotsAreOpen | backend/app/models.py:1873-1892 | an incomplete one still takes an occurrence from any source it does not have |
| CiListings.ReadItems | scripts/production_manager_ci.py:90-112 | every listing of at most 500 rows is returned whole and nothing else is; the limit is reported only for a longer total |
| CiQualification.LatestIsNewest | scripts/production_manager_ci.py:144-155 | a run is selected exactly when it is the newest of distinct runs of ours |
| CiQualification.IdentityIsThatOfTheRun | scripts/production_manager_ci.py:115-135 | a run is accepted exactly if its event, commit, branch, name, path, workflow and both repositories are the trusted ones and its numbers are positive |
| CiQualification.CheckJobs | scripts/production_manager_ci.py:158-183 | no refusal exactly when every job has a valid id, this run, commit and attempt, no id or required name is there twice, and backend, frontend, postgres and docker are there, completed with success |
| CiQualification.QualifyCi | scripts/production_manager_ci.py:186-218 | a commit qualifies exactly when workflow, both listings, both rereads and the jobs are, field by field, those of one completed and successful run and attempt |
| CiHistory.OneRunIsNewestThroughout | scripts/production_manager_ci.py:186-218 | the qualified run and attempt was the newest from the end of the first listing to the start of the second |
| CiHistory.TheAttemptStands | scripts/production_manager_ci.py:186-218 | the run shows no other attempt until the last request |
| CiHistory.NewestUntilTheLastRequestIff | scripts/production_manager_ci.py:186-218 | it was the newest up to the last request exactly if the newest run at that moment has its number |
| CiHistory.StandingListingsAreRead | scripts/production_manager_ci.py:90-112 | a listing that stands still while it is read, with at most 500 rows, is read |
| CiHistory.ALaterRunGoesUnnoticed | scripts/production_manager_ci.py:186-218 | a concrete history in which a newer run appears before the last request and the commit still qualifies |
| Fulfilment.Find | backend/app/industrial_api.py:1597-1639 | the first line with the identifier, or the number of lines exactly when there is none |
| FulfilmentDesk.PartRequest.UpdateFulfilment | backend/app/industrial_api.py:1575-1742 | the handler ends with the request, or the refusal, of its specification |
| FulfilmentDesk.PartRequest.DeliverOnSnapshot | backend/app/industrial_api.py:1597-1639 | the branch for approved snapshots, by appended deliveries |
| FulfilmentDesk.PartRequest.DeliverOnLines | backend/app/industrial_api.py:1640-1742 | the branch without a snapshot, which writes the lines and rolls back on refusal |
| FulfilmentProofs.RunKeeps | backend/app/industrial_api.py:1575-1742 | over every run each line stays between zero and its quantity, never goes down, and the status agrees with the lines |
| FulfilmentProofs.AcceptedMeans | backend/app/industrial_api.py:1597-1742 | an accepted update gives exactly the requested quantities; delivered means all lines full, partially delivered strictly between |
| FulfilmentEffects.UpdatesExactly | backend/app/industrial_api.py:1597-1742 | when an update is accepted, by transition, targets, status and divisibility, line by line, in either branch |
| FulfilmentEffects.UpdatesGive | backend/app/industrial_api.py:1597-1742 | an accepted update gives each line what its target says or what it had, and changes nothing else |
| FulfilmentEffects.CancelsExactly | backend/app/industrial_api.py:1585-1596 | a cancellation is accepted exactly with confirmation and reason, without lines, on an approved, ordered or partially delivered request |
| FulfilmentProofs.TotalTestIsLineTest | backend/app/industrial_api.py:1640-1742 | the comparison of totals is the comparison line by line |
| FulfilmentProofs.BranchesCompared | backend/app/industrial_api.py:1597-1742 | for all quantities, exactly which deliveries one branch accepts and the other refuses |
| FulfilmentProofs.BranchesAcceptTheSame | backend/app/industrial_api.py:1597-1742 | for whole quantities both branches accept the same deliveries |
| FulfilmentProofs.FullDeliveryReachableIff | backend/app/industrial_api.py:1597-1742 | some run of this handler delivers an ordered request in full if and only if every line can be filled by whole targets |
| FulfilmentProofs.WholeOrdersCanBeDelivered | backend/app/industrial_api.py:1597-1742 | with whole quantities full delivery stays reachable |
| FulfilmentDesk.PartRequest.AddDelivery | backend/app/part_requests/official.py:246-291 | one event with all amounts and the status it calls for, or the first refusal of the loop and nothing |
| FulfilmentReceipts.MovesKeep | backend/app/part_requests/request_routes.py:206-248 | updates and deliveries in any order keep each line between zero and its quantity, never lower it, and keep the status honest |
| FulfilmentEffects.DeliversExactly | backend/app/part_requests/official.py:246-291 | when a delivery is accepted, and that one event adds each amount to its line and the status follows |
| FulfilmentReceipts.FullDeliveryByAmountsIff | backend/app/part_requests/official.py:246-291 | some run of updates and deliveries within the limits of the schema completes an approved request with a snapshot if and only if every line can be completed |
| FulfilmentReceipts.HalfMetresNeedADelivery | backend/app/part_requests/official.py:246-291 | a concrete free-form request that no run of updates completes and a delivery does |
| FulfilmentReceipts.SevenDecimalsAreNeverCompleted | backend/app/part_requests/request_schemas.py:54-71 | a concrete request, with a quantity of seven decimals, that no run of updates and deliveries completes |
| FulfilmentDesk.PartRequest.ReverseDelivery | backend/app/part_requests/request_routes.py:251-305 | a receipt that no event corrects is taken back by one new event with the opposite amounts and the status is set again, or nothing changes |
| FulfilmentReversals.StepsKeep | backend/app/part_requests/request_routes.py:206-305 | over every run of updates, deliveries and reversals each line stays between zero and its quantity, the status agrees, no event goes and no receipt is taken back twice |
| FulfilmentEffects.ReversesExactly | backend/app/part_requests/request_routes.py:251-305 | when a reversal is accepted, and that it takes off exactly what the receipt brought |
| FulfilmentReversals.ReceivedIsStanding | backend/app/part_requests/official.py:238-243 | the sum over all events is the sum over the receipts that were not taken back |
| FulfilmentReversals.ReversedOnce | backend/app/part_requests/request_routes.py:265-274 | a receipt that was taken back is refused after every later run |
| FulfilmentReversals.ReversalUndoesDelivery | backend/app/part_requests/request_routes.py:221-305 | taking back the last delivery restores every line and the status that calls for, ordered or approved included |
| FulfilmentReversals.EverythingCanBeTakenBack | backend/app/part_requests/request_routes.py:251-305 | an uncancelled request can be brought back to what its lines had before all events |
| RowMatching.ComparePage | scripts/catalog_oem_layout_qa.py:69-124 | the counts as multiset intersection and differences; acceptance implies, and for nested rows equals, a complete pairing |
| RowMatching.RowsAgreeExactly | scripts/catalog_oem_layout_qa.py:97-108 | the five fields on which a row and a candidate agree |
| RowMatching.PairsAreTheIntersection | scripts/catalog_oem_layout_qa.py:82-93 | pairs, leftovers and missing rows are intersection and differences of the key multisets |
| RowMatching.PairsIgnoreOrder | scripts/catalog_oem_layout_qa.py:82-93 | reordering either list changes no count |
| RowMatching.PerfectIsBijection | scripts/catalog_oem_layout_qa.py:97-108 | an accepted page has a bijection between control rows and candidates that agree in all five fields |
| RowMatching.PerfectIsAccepted | scripts/catalog_oem_layout_qa.py:97-108 | where a later row takes whatever an earlier row does once they share a candidate, the greedy matching is complete whenever a complete one exists |
| RowMatching.AcceptanceIff | scripts/catalog_oem_layout_qa.py:97-108 | for any rule, every list that pairs off is matched completely if and only if each row is alike to the later ones |
| RowMatching.PagesAreAcceptedIff | scripts/catalog_oem_layout_qa.py:97-124 | the same for the five fields: exactly the rows whose names are nested in their order |
| RowMatching.OverlappingNamesMayFail | scripts/catalog_oem_layout_qa.py:97-108 | two rows that pair off and are refused, and accepted in the other order |
| Renumbering.Preflight | backend/app/registry_correction.py:15-53 | ready exactly for the registries that pass, with their changes |
| Renumbering.PassingMeans | backend/app/registry_correction.py:15-53 | a passing report names one verified machine per serial number, with its old or new number and no stranger in the way |
| Renumbering.CorrectionGives | backend/app/registry_correction.py:65-75 | each machine ends with its new number, and a name derived from the old one is derived from the new one |
| Renumbering.Registry.ApplyCorrection | backend/app/registry_correction.py:56-76 | only an approved unchanged report is applied; rows, flushes and audit are those of the changes in order, or nothing changes; every flush of an orderly correction has different numbers |
| Renumbering.NumbersStayDistinct | backend/app/registry_correction.py:65-75 | the numbers of an orderly correction are different after every change |
| Renumbering.DistinctThroughoutIff | backend/app/registry_correction.py:65-75 | for machines with the old numbers that holds exactly for orderly corrections |
| Renumbering.ShiftChainsAreOrderly | backend/app/machine_identity.py:3-8 | every ascending chain of any length is orderly |
| Renumbering.DescendingChainsAreNotOrderly | backend/app/machine_identity.py:3-8 | taken from the other end no chain of two or more is |
| Renumbering.FalchIsAShiftChain | backend/app/machine_identity.py:3-8 | the table of approved corrections is such a chain |
| Renumbering.CorrectedPassesAgain | backend/app/registry_correction.py:15-53 | a corrected registry passes again, as already corrected |
| Renumbering.IdentitiesStay | backend/app/registry_correction.py:65-75 | serial numbers and all other fields but number and name stay |
| Base64Url.DecodeUndoesEncode | backend/app/security.py:50-55 | decoding undoes encoding for data of every length, with the padding rule for the length modulo four |
| Base64Url.PaddingComesBack | backend/app/security.py:54-55 | the rule puts back exactly the padding that was stripped |
| Base64Url.AlphabetIsStandard | backend/app/security.py:50-55 | the alphabet of RFC 4648, section 5, by code points, and what else the decoder reads |
| Base64Url.GroupsSpellTheBytes | backend/app/security.py:50-51 | every four digits are, as a number, the three bytes of their group |
| Base64Url.TheRestSpellsTheBytes | backend/app/security.py:50-51 | one or two bytes at the end are filled up with zero bits, and how many digits there are |
| Base64Url.EncodeIsInjective | backend/app/security.py:50-51 | different data have different encodings |
| Base64Url.DecodeIsNotInjective | backend/app/security.py:54-55 | two texts that decode to the same byte |
| Tokens.SplittingRecovers | backend/app/security.py:107-109 | splitting at the first or last dot recovers body and signature |
| Tokens.IssuedTokensReadBack | backend/app/security.py:93-125 | an issued token reads back to its content exactly until its expiry |
| Tokens.OnlySignedTokensRead | backend/app/security.py:107-125 | a token that reads is its body followed by that body's own signature |
| Tokens.TokensReadExactly | backend/app/security.py:107-125 | a token reads to a content exactly if it is a body, a dot and that body's signature with a live payload; an access body has no dot |
| Tokens.SignaturesCarryTheDigest | backend/app/security.py:93-105 | the access signature decodes to the digest and the preview signature spells it in hexadecimal |
| ImportPreview.ValidateRecords | backend/app/industrial_api.py:2864-2909 | the valid rows and the numbered errors of the specification |
| ImportPreview.RowsAreJudgedExactly | backend/app/industrial_api.py:2864-2909 | which rows are valid, on their columns, and what the valid row holds |
| ImportPreview.EveryRowIsAnswered | backend/app/industrial_api.py:2864-2909 | every row is answered once and in order, an error under its number in the file |
| ImportPreview.ValidationIsIdempotent | backend/app/industrial_api.py:2864-2909 | validating the valid rows again on an unchanged database gives the same rows and no error |
| ImportPreview.ConfirmationCreatesThePreview | backend/app/industrial_api.py:2842-2930 | a preview confirmed in time on an unchanged database creates exactly its rows, and later nothing |
| ImportPreview.NothingInvalidIsCreated | backend/app/industrial_api.py:2922-2933 | whatever has changed since the preview, rows are created all or not at all, and only if all are valid now |

## Left out

- Signing of transfer documents and of documents rendered by the Studio; the signer check for part-request documents.
- `cancel_signature_session` is a step of the sequential model and overlaps the committed steps of its document in `SigningCancellation`; it is no transaction of `SigningRegistry`, and two overlapping cancels are not modelled.
- SigningRegistry.ConfirmationsAreNeverLost: excludes cancelling a session, beside which it can fail; `SigningCancellation` gives the exact condition.
- Creation of a document is one action of the interleavings, decided by the unique index on numbers.
- Edits of the slot configuration while a document is being signed: the configuration is fixed.
- Documents created by other paths than the document handler, and documents without participants beyond drafts.
- Permissions, profile checks, PNG and base64 checks of the drawing, rendering of DOCX and PDF, audit entries of the signing handlers: results of checks are inputs of the step.
- SigningDesk.Desk.constructor: covers accepted participants; a refused creation builds nothing, and that case is in `SigningModel.Create`.
- The throttle's attempts are atomic: overlap of two attempts between enforcement and recording is not modelled, nor are savepoints.
- Sliding cookies, user agents and addresses of browser sessions; the hash of a token is the token.
- Clients of the database other than the application, the commands of the upgrade and the backup's audit entry.
- Backup archive format, encryption, Git checks, operation locks, the environment of child processes, `build`: commands with arbitrary replies.
- An interruption between two commands counts as a failure of the next command; freshness of the recovery directory is a reply of the environment.
- Manager.Operator.Update: the order of looks, approvals and builds is modelled, the prompts and printed messages are not; the restart of the manager is the deployment's `Restart`.
- Supplier fields, notes, notifications, idempotency keys and locking of the fulfilment and delivery handlers.
- FulfilmentReceipts.FullDeliveryByAmountsIff: runs of updates and deliveries; a reversal in between could also free a line that old receipts block.
- FulfilmentProofs.TotalTestIsLineTest: over exact numbers, while the branch without a snapshot sums float columns.
- RequestEvidence.ApprovedEvidenceIsFrozen: statements run one after the other; a line inserted beside an approval that is not committed yet is not seen by its trigger.
- SQL beyond row changes: TRUNCATE, REPLACE, dropping triggers; primary keys are never updated; columns that no guard reads.
- The text of JSON: replies of the CI server are decoded fields by type, and the compared texts are named constructors.
- HTTP redirects, size limits and timeouts of the CI reader: they are one failure of the request.
- RowMatching.ComparePage: without the ordered metrics per field, provenance and quality figures of the catalogue comparison, and NaN signalling of decimals.
- The fingerprint of a correction report is the report itself; the table lock is the atomicity of the correction.
- HMAC, JSON and Python's conversions are parameters; what is needed of them is stated as a hypothesis.
- Licensing, transfers, repairs, catalogue browsing, search, localisation, user administration: outside this model.

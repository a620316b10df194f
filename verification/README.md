# Verified model of BikesNest

BikesNest is a community map of bicycle parking. This project models its protocols and
algorithms in Dafny and proves what they guarantee over every input, every run and every
interleaving of requests.

`dafny verify dfyconfig.toml` checks everything.

## How to read it

A *protocol* (photos, locations and proposals, reports, accounts, the geocode cache) is a
transition system: a `World`, an `Event` for every port call, a total `Apply`, and `Run`
over any list of events. Requests are in the world as data, so their calls interleave
freely and any of them may stop for good between two calls. Theorems speak of `Run` over
all lists of events.

Beside each protocol stands the service itself, a class whose methods make the port calls
one after another on real fields, as the source does. Between two port calls, the audit
call included, a method lets the rest of the system run an arbitrary list of events (`others`). `Valid()` says that the
fields are what `Run` makes of the recorded events, so every theorem about runs holds of
the service; each method also states its exact outcome when nothing interferes (`Quiet`).

| file | what it models |
|---|---|
| `PhotoProtocol`, `PhotoGuarantees`, `PhotoCleanup`, `LateInsert`, `PhotoService` | uploads, rejections, the orphan sweep and the pending-row reconciliation over an object store and photo rows |
| `Locations`, `LocationGuarantees`, `LocationService`, `Proposals` | optimistic concurrency over locations; proposals, their stored payload and the merge with a moderator's override |
| `Reports`, `ReportService` | the report lifecycle and the takedown of reported content |
| `Accounts`, `AccountService` | logins, sessions, suspensions, roles |
| `Keyset`, `ObjectStorage`, `Search` | keyset paging, the in-memory object store, the reset loop, search pages |
| `GeocodeCache` | the bounded cache with expiry in front of the geocoder |
| `Hours` | opening hours on a circular week |
| `UrlCodec`, `SessionHex`, `LocalPath`, `ClientIp`, `Text` | percent-encoding, form tokens, session cookies, login redirects, the forwarded chain |
| `FocusTrap` | the tree walk that makes a page inert behind a dialog |
| `Confidence`, `StarRatings` | confidence over freshness, spreading an average over whole ratings |

## Assumptions

- Upload ids, session ids and row ids are fresh: an id that has been used is never minted
  again.
- A storage or repository call works, fails without effect, or (for storage) reports a
  failure although its effect took place. `insert_pending` returning an error wrote no row.
- An upload that reaches its insert later than the orphan TTL after it began is taken to
  have its insert refused: the program has no such check and relies on uploads being quick.
  `LateInsert.LateRowBreaksIff` says exactly what such an insert costs without the refusal.
- One clock gives the store's write times, the rows' creation times and the program's own
  time, and it never runs backwards.
- A listing of the store is what its port promises: ascending, strictly after the cursor,
  skipping nothing up to the next cursor. The next cursor lies after the one before.
- A database transaction is one step; `UPDATE ... WHERE state = ...` is compare-and-set.
- Library parsers and predicates are parameters: which texts are IP addresses, which names
  are IANA timezones, what base64 decoding yields, how a query is normalised.
- Local weekday and time of day are the input of the opening hours.

## Where the code and its documentation part

- A failed upload can leave a row: when only the audit record after the insert fails, the
  row and both objects stay (`PhotoService.Service.UploadPhoto`).
- `reject_photo` leaves undeleted objects "for later", but the orphan sweep does not collect
  them, because the rejected row still names them. What a rejection leaves can still go if
  and only if a running rejection holds it, or a running reconciliation has found the row's
  full object missing or, having selected the row, will find it so
  (`RejectedObjectGoesIff`); otherwise it stays for good (`RejectedLeftoverIsNeverSwept`,
  `LeftoverIsReachable`, `PhotoService.Service.RejectPhoto`).
- Reconciliation can delete a row rejected in the meantime (`ReconcileCanDropARejection`),
  though never one that could still be shown (`OnlyRejectedRowsDisappear`).
- The repositories are said to check again that a location is active; `create_proposal`
  does not, so a proposal can be filed against a location just taken down
  (`ProposalsCanArriveLate`). A filed proposal is fresh exactly when the location is still
  what its author read (`FiledFreshIff`), and one whose location is not active is never
  approved, whatever follows (`LateProposalsAreNeverApproved`).
- A proposal that says a place exists never brings one back (`OnlyRestoreReactivates`).
- Nobody resolves their own report, except that erasing the account of the moderator who
  claimed it blanks the reporter (`SubmitterResolvesIffBlanked`,
  `ErasingTheClaimerBlanksTheReporter`).
- A login that has passed its checks is caught by a revocation if and only if its session was
  written before the sessions were revoked (`RevocationCatchesIffCreated`). One written after
  that resolves once the account is restored (`StraddlingLoginSurvives`); one written between
  the suspension and the revocation does not. Confirming an e-mail address lifts a suspension
  (`SuspensionLiftedOnlyBy`).
- "Never zero admins" holds of demotions and erasures, which count under a lock, but the purge
  of deleted accounts takes their roles along uncounted, and a role can be granted to a deleted
  account (`AdminsVanishIff`, `LastAdminCanVanish`).
- The cache's TTL counts from remembering, not from the provider's answer
  (`FreshFromTheAnswerIff`, `LateAnswersAreServedTooLong`).
- `from_hex` also takes upper-case digits and a plus sign in front of a digit
  (`AcceptedIff`, `CookieIsKeptIffLowercase`).
- A local path with `://` in it is cut down (`SafePathIsKeptIff`).
- With fewer entries than trusted hops the forwarded chain is in the client's hands
  (`FrontIsIgnoredIff`).
- Opening a dialog over an open one loses the first one's marks
  (`CloseRestoresIffNotNested`). Only what is under the body becomes inert.

## Model

| member | source | states |
|---|---|---|
| PhotoProtocol.RunKeepsInv | crates/application/src/photo.rs:387-582 | every event list from a good world leads to a good world: live rows stored, upload ids unique, every in-flight request safe to continue |
| PhotoProtocol.InsertKeepsInv | crates/application/src/photo.rs:238-282 | inserting a pending row keeps the invariant, because its objects are stored while the upload is within the orphan TTL |
| PhotoProtocol.SweepProbeKeepsInv | crates/infrastructure/src/privacy/retention.rs:248-288 | a key found unreferenced past its age can be deleted at any later time: no upload can still insert a row for it |
| PhotoProtocol.ReconcileCheckKeepsInv | crates/infrastructure/src/privacy/retention.rs:160-197 | a pending row whose object is found missing is at most a rejected row by the time it is deleted |
| PhotoGuarantees.EveryLiveRowHasItsObjects | crates/application/src/photo.rs:387-486 | in every run, whatever interleaves and crashes, a row pending, approved or hidden has both objects in the store |
| PhotoGuarantees.UnfinishedUploadLeavesNoRow | crates/application/src/photo.rs:420-486 | an upload that fails or stops before its insert never has a row, in any continuation |
| PhotoGuarantees.AbandonedForever | crates/application/src/photo.rs:371-374 | what an abandoned upload left is never referenced by any row later |
| PhotoGuarantees.InsertWritesACompleteRow | crates/infrastructure/src/photo/repository.rs:73-115 | the insert writes one pending row whose two objects are both stored |
| PhotoCleanup.SweepCollectsAbandoned | crates/infrastructure/src/privacy/retention.rs:128-151 | a sweep that lists an aged key of an abandoned upload among any others and gets to delete it has collected it for good, with arbitrary other requests before, between and after its calls |
| PhotoCleanup.CompleteSweepCollectsAll | crates/infrastructure/src/privacy/retention.rs:128-151 | a sweep that follows the cursors to the end, for any page sizes and amid arbitrary other requests, collects every object that was abandoned and past the orphan TTL when it started |
| PhotoCleanup.AbandonedObjectsOnlyGo | crates/application/src/photo.rs:371-374 | in every run an object of an abandoned upload is never written again, only removed |
| PhotoGuarantees.OnlyRejectedRowsDisappear | crates/infrastructure/src/privacy/retention.rs:160-197 | whatever runs between its reads, reconciliation deletes no row that could still be shown |
| PhotoGuarantees.RowsMoveAlongTheLifecycle | crates/infrastructure/src/photo/repository.rs:138-192 | over every run a row changes only in its state; what was shown is approved or hidden for ever, and what was rejected stays rejected |
| PhotoGuarantees.ShownRowsStay | crates/infrastructure/src/photo/repository.rs:138-160 | a photo that was approved is there, approved or hidden, after every run |
| PhotoGuarantees.DecisionsFlip | crates/infrastructure/src/moderation/actions.rs:320-364 | approving flips only a pending row to approved, hiding only an approved one to hidden, restoring only a hidden one back |
| PhotoGuarantees.ScansBegin | crates/infrastructure/src/privacy/retention.rs:128-182 | a reconciliation selects exactly the rows pending for more than an hour, with their full objects; a sweep's cutoff is the orphan TTL ago |
| PhotoGuarantees.SweepPicks | crates/infrastructure/src/privacy/retention.rs:138-143 | of a page exactly what is older than the cutoff is probed, and of that exactly what no row names is deleted |
| PhotoGuarantees.ReconciliationDeletes | crates/infrastructure/src/privacy/retention.rs:177-194 | exactly the selected rows whose object is missing are deleted |
| LateInsert.LateRowBreaksIff | crates/application/src/photo.rs:452-475 | an insert at any time, however late, leads to a row that can be shown without its object if and only if the object is missing already or a sweep has chosen it |
| LateInsert.InTimeNothingBreaks | crates/infrastructure/src/privacy/retention.rs:120-151 | within the orphan TTL neither is ever the case |
| PhotoCleanup.RejectedObjectGoesIff | crates/application/src/photo.rs:567-572 | in every reachable state, some continuation removes a stored object of a rejected row if and only if a running rejection holds the key, or a running reconciliation has found the row's object missing or still has the row selected with its object missing or held by a rejection |
| PhotoCleanup.RejectedLeftoverIsNeverSwept | crates/infrastructure/src/privacy/retention.rs:248-288 | when neither is the case, no continuation removes the object or the row |
| PhotoCleanup.LeftoverIsReachable | crates/application/src/photo.rs:562-572 | a concrete run whose rejection stops after flipping the row leaves both objects for good |
| PhotoCleanup.ObjectStays | crates/infrastructure/src/privacy/retention.rs:248-288 | no event removes an object of a rejected row that no rejection holds: the orphan sweep never does |
| PhotoCleanup.ReconcileCanDropARejection | crates/infrastructure/src/privacy/retention.rs:160-197 | a concrete run in which reconciliation deletes the row of a rejection |
| PhotoService.RejectedIsFinal | crates/infrastructure/src/photo/repository.rs:162-192 | a rejected row is rejected or gone after any run |
| PhotoService.Service.UploadPhoto | crates/application/src/photo.rs:396-486 | each of the six refusals by the request's fields in order, and none exactly when all checks pass; success exactly when the row was written and the audit recorded; otherwise no row ever, unless only the audit failed; alone, the exact store and rows |
| PhotoService.Service.StoreDerivatives | crates/application/src/photo.rs:425-450 | both objects stored, or the upload abandoned and, when the deletes work, the store as before |
| PhotoService.Service.InsertOrUndo | crates/application/src/photo.rs:452-475 | a complete pending row, or the upload abandoned and both objects taken back |
| PhotoService.Service.ApprovePhoto | crates/application/src/photo.rs:494-533 | under any interference up to the audit call, a photo answered as approved is there, approved or hidden again, and the refusals are true of the row; alone, a pending row becomes approved, an approved one is left, any other is refused |
| PhotoService.Service.RejectPhoto | crates/application/src/photo.rs:537-582 | a pending row is rejected and its objects deleted as far as the store obeys; an object whose delete was refused is left for good, with the exact exception; success leaves no live row |
| LocationGuarantees.RevisionsHaveNoGap | crates/infrastructure/src/community/contribution.rs:153-273 | in every run the revisions of a location are exactly versions 1 to the current one, and the last is the row |
| LocationGuarantees.EditsFollowWhatWasSeen | crates/application/src/community.rs:286-302 | whoever wrote a revision as an edit of what they had read had seen exactly the revision before it: no lost update |
| LocationGuarantees.UnreadEditsNameTheVersionBefore | crates/infrastructure/src/community/contribution.rs:166-187 | an edit whose version was never read named exactly the version before it |
| LocationGuarantees.HistoryOnlyGrows | crates/infrastructure/src/moderation/actions.rs:679-706 | revisions are only ever appended |
| LocationGuarantees.VersionDeterminesLocation | crates/application/src/moderation.rs:410-438 | versions are monotone, and an equal version means an equal location, moderation state included |
| LocationGuarantees.ApprovalWrites | crates/infrastructure/src/moderation/actions.rs:510-575 | in column values: the next version; a move writes these coordinates and timezone alone, an existence change the state active or removed alone |
| LocationGuarantees.ApprovalResolves | crates/infrastructure/src/moderation/actions.rs:575-615 | the proposal is approved, the other pending ones of its location are superseded, every other proposal is as it was |
| LocationGuarantees.CreationWrites | crates/infrastructure/src/community/contribution.rs:70-151 | a new location is active at version 1 with what was given, and has one revision |
| LocationGuarantees.ModerationWrites | crates/infrastructure/src/moderation/actions.rs:366-417 | invalidating takes down only an active location, restoring brings back only an invalid or removed one; only state and version change |
| LocationGuarantees.DeclineWrites | crates/infrastructure/src/moderation/actions.rs:621-676 | only a pending proposal is declined, and nothing else changes |
| LocationGuarantees.BasisMeans | crates/application/src/community.rs:682-701 | an edit goes to the location and version its form or its request names |
| LocationGuarantees.FreshProposalsAreOnActiveLocations | crates/application/src/moderation.rs:179-187 | a proposal that may be approved is about an active location that is exactly what the proposer read |
| LocationGuarantees.FreshIffUnchanged | crates/application/src/moderation.rs:179-187 | a proposal is fresh if and only if its location is, in every respect, what the proposer read |
| LocationGuarantees.StaleForever | crates/application/src/moderation.rs:179-187 | a stale proposal is stale, and unapprovable, after any run |
| LocationGuarantees.FiledFreshIff | crates/infrastructure/src/community/contribution.rs:275-293 | a proposal just filed is fresh if and only if the location is still the one read; never when it is not active |
| LocationGuarantees.LateProposalsAreNeverApproved | crates/application/src/community.rs:578-592 | a proposal whose location is not active is stale and not approved after any run, restores included |
| LocationGuarantees.AtMostOneApprovedPerVersion | crates/infrastructure/src/moderation/actions.rs:472-619 | of all proposals on one version of a location at most one is ever approved |
| LocationGuarantees.OnlyRestoreReactivates | crates/infrastructure/src/moderation/actions.rs:366-417 | a location that is not active is active at some moment of a run if and only if the run holds a moderator's restore of it |
| LocationGuarantees.ProposalsCanArriveLate | crates/infrastructure/src/community/contribution.rs:275-293 | a concrete run that files a proposal against a location just taken down |
| LocationService.Service.ApplyEditTx | crates/infrastructure/src/community/contribution.rs:153-273 | for any expected version, read or not, the compare-and-set: one new revision carrying what was seen, or the exact refusal |
| LocationService.Service.RequireActive | crates/application/src/community.rs:581-592 | success exactly for an active location, whose row is then in hand; the errors otherwise |
| LocationService.Service.ApplyParkingEdit | crates/application/src/community.rs:682-713 | for any expected version and under any interference an applied edit is the revision right after that version, the one its author saw; every refusal exactly |
| LocationService.Service.ProposeLocationChange | crates/application/src/community.rs:716-750 | under any interference up to the audit call, a success is a proposal about this location with this payload, against a version that was active; alone, the exact new row or the exact refusal with nothing changed |
| LocationService.Service.ApproveTx | crates/infrastructure/src/moderation/actions.rs:472-619 | refused for a resolved or stale proposal; otherwise the next version, with the approved place or state in column values and all else unchanged |
| LocationService.Service.ApproveProposal | crates/application/src/moderation.rs:927-955 | under any interference up to the audit call, success means the proposal is approved and the revision after its base version is, in column values, the merged change of the one before; alone it is still the current one; every refusal exactly |
| Proposals.ParsedIsCanonical | crates/domain/src/community.rs:256-291 | whatever JSON is stored, parsing yields a change of the row's kind, in range, with trimmed non-blank texts |
| Proposals.RoundTripIffCanonical | crates/domain/src/community.rs:328-351 | rendering then parsing gives a payload back exactly when it is canonical for its kind |
| Proposals.ParseRenderParse | crates/domain/src/community.rs:338-351 | for every JSON value and kind, parse, render, parse equals parse, `Unknown` and reason included |
| Proposals.StoredShape | crates/domain/src/community.rs:296-351 | the JSON object of each kind of payload |
| Proposals.MoveIsRead | crates/domain/src/community.rs:256-291 | for every JSON value, a move is read exactly from two numbers in range, with the trimmed timezone, and is unreadable otherwise |
| Proposals.ExistenceIsRead | crates/domain/src/community.rs:256-291 | existence is read from its text, else from the older flag; any other text is unreadable |
| Proposals.ReasonIsRead | crates/domain/src/community.rs:328-343 | the reason is its trimmed text, if anything is left of it |
| Proposals.Merge | crates/application/src/moderation.rs:280-335 | what comes out is of the row's kind, in range and in a known timezone, whatever was stored or typed |
| Proposals.MoveMerges | crates/application/src/moderation.rs:280-335 | field by field the retyped value counts, else the stored one, for every partial override; what is missing or out of range is refused by name in order |
| Proposals.ExistenceMerges | crates/application/src/moderation.rs:280-311 | a given existence counts, else the stored one, else the field is refused; other fields do not matter |
| Proposals.EmptyOverrideReproduces | crates/application/src/moderation.rs:280-311 | with nothing retyped the stored change is applied as it stands, or refused for the one field it lacks |
| Proposals.IndependentIffDecisive | crates/application/src/moderation.rs:280-335 | the outcome does not depend on the stored payload exactly when the override fills every field or is already out of range |
| Reports.FinishedReportsWereReviewed | crates/infrastructure/src/moderation/report.rs:176-228 | in every run a resolved or dismissed report went through open and under review |
| Reports.FinishedReportsAreFinal | crates/application/src/moderation.rs:644-704 | a finished report never changes, but for names blanked by an erasure |
| Reports.ReportsKeepTheirSubject | crates/infrastructure/src/moderation/report.rs:176-228 | over every run a report keeps its submitter and target, only adds to its trail, and once claimed keeps its moderator unless an erasure blanks the name |
| Reports.ResolverIsNotTheReporter | crates/application/src/moderation.rs:664-704 | in every run the reporter a report names, who is its submitter, is not its resolver |
| Reports.ResolverIsNotTheSubmitter | crates/application/src/moderation.rs:664-704 | without erasures no report is ever resolved by its submitter |
| Reports.SubmitterResolvesIffBlanked | crates/application/src/moderation.rs:664-704 | in every reachable state the submitter of a claimed report can resolve it exactly when the reporter column is blank |
| Reports.ErasingTheClaimerBlanksTheReporter | crates/infrastructure/src/privacy/anonymize.rs:208-219 | a concrete run in which another account's erasure blanks the reporter |
| Reports.ErasureBlanks | crates/infrastructure/src/privacy/anonymize.rs:208-219 | exactly the reports that name the user in any of three columns lose all three |
| Reports.OneOpenReportPerTarget | crates/infrastructure/src/moderation/report.rs:59-84 | at most one unfinished report per reporter and target, in every run |
| ReportService.Service.SubmitReport | crates/application/src/moderation.rs:522-590 | each gate's refusal by its field, in order; under any interference up to the audit call, a success is a report by this user about this target that was open; alone, the exact new row or the exact refusal |
| ReportService.Service.ClaimReport | crates/application/src/moderation.rs:644-661 | under any interference around the claim, a claimed report went from open to under review by this moderator and never reopens; a refusal means it was not open; alone, the exact new row |
| ReportService.Service.HideResolvedTarget | crates/application/src/moderation.rs:707-751 | an active parking place becomes invalid, an active review and an approved photo hidden, every other state stays; so the target of any kind is gone or not publicly visible, and no other content changed |
| ReportService.Service.ResolveReport | crates/application/src/moderation.rs:664-704 | under any interference a recorded report is resolved or dismissed as asked, with its whole trail, by this moderator unless erased, and a success as resolved names a moment of the call at which the target was not publicly visible; alone, that moment is the end, with every refusal and the whole new report exactly |
| Accounts.RevokedSessionsNeverResolve | crates/infrastructure/src/auth/session_store.rs:155-180 | a session that exists when its owner's sessions are revoked never resolves after that, whatever follows, restores included |
| Accounts.DeadForever | crates/infrastructure/src/auth/session_store.rs:73-141 | a session once revoked or gone never resolves after any run, a restore of its account included |
| Accounts.RevocationCatchesIffCreated | crates/infrastructure/src/auth/session_store.rs:155-180 | for every run around a revocation, a login's session is dead after it if and only if it was written before it, and in any later state in which the session otherwise could, it resolves if and only if it was not |
| Accounts.SurvivesIffKept | crates/infrastructure/src/auth/session_store.rs:155-180 | of a user's sessions exactly the one with the kept id still resolves in any later state in which it otherwise could |
| Accounts.StraddlingLoginSurvives | crates/application/src/auth.rs:1011-1036 | a concrete pattern in which a login checked before a suspension escapes it and resolves after a restore |
| Accounts.SuspensionLiftedOnlyBy | crates/infrastructure/src/auth/account_repo.rs:218-256 | a suspended account is usable at some moment of a run if and only if a restore or a confirmed e-mail address meets it before it is purged |
| Accounts.MayUseMeans | crates/domain/src/auth.rs:42-59 | an account waiting for its address to be confirmed may be used as an active one; a suspended or deleted one may not |
| Accounts.RegisterMeans | crates/infrastructure/src/auth/account_repo.rs:121-167 | a new account waits for its address to be confirmed |
| Accounts.ErasureMeans | crates/infrastructure/src/privacy/anonymize.rs:65-130 | an erased account is deleted without roles or sessions and nobody else is touched; only the sole administrator is refused |
| Accounts.PurgeMeans | crates/infrastructure/src/privacy/retention.rs:232-240 | only a deleted account's row goes, with its roles and sessions |
| Accounts.SessionsEnd | crates/infrastructure/src/privacy/retention.rs:87-96 | logging out revokes one session; only sessions past 90 days or 30 days unused are purged |
| Accounts.AdminsVanishIff | crates/infrastructure/src/privacy/retention.rs:232-240 | in a run of grants, guarded demotions, guarded erasures and purges there is a moment without an administrator if and only if a purge meets a deleted account that is the only one |
| Accounts.LastAdminCanVanish | migrations/0005_accounts.sql:61-67 | from every state with one administrator and a deleted account, a run that leaves none |
| Accounts.AdminsNeverVanish | crates/infrastructure/src/auth/account_repo.rs:374-408 | as long as no deleted account is granted a role there always is an administrator |
| AccountService.Service.Login | crates/application/src/auth.rs:650-757 | alone, right credentials of a pending or active account give a session of 90 days, those of a suspended, deleted or missing one are refused; under any interference up to the audit call, a success is a session that was created for the account found and is its owner's or dead; no refusal leaves a session |
| AccountService.Service.SuspendUser | crates/application/src/auth.rs:1106-1130 | when it returns, every session that existed when it started is dead for good, whatever ran in between |
| AccountService.Service.ResetPassword | crates/application/src/auth.rs:801-828 | an accepted reset ends every session that existed when it started |
| AccountService.Service.VerifyEmail | crates/application/src/auth.rs:567-612 | a success that changed the address ends every session that existed when it started |
| AccountService.Service.ResolveSession | crates/application/src/auth.rs:1207-1225 | alone, the owner exactly of a session neither revoked nor expired nor 30 days unused, of a pending or active account, and the use is noted when the last is more than five minutes ago; a dead session gives nobody |
| AccountService.Service.RevokeRoleGuarded | crates/infrastructure/src/auth/account_repo.rs:374-408 | refused exactly for the only administrator; otherwise the role is gone, and the answer says whether it was there |
| AccountService.Service.GrantRole | crates/application/src/auth.rs:1041-1067 | the grant takes place in every state of the account, a deleted one included, and fails exactly when the account's row is gone |
| AccountService.Service.TakeRole | crates/application/src/auth.rs:1070-1103 | the demotion itself never leaves no administrator where there was one; refused exactly for the only one |
| AccountService.RevocationEndsAll | crates/application/src/auth.rs:254-262 | revoking after any run ends every session that existed before it |
| Keyset.WalkAscends | crates/application/src/storage.rs:67-74 | a walk lists in strictly ascending order, so nothing twice, even while the collection changes |
| Keyset.PresentThroughoutIsListed | crates/application/src/storage.rs:67-74 | a key that is there during the whole walk is listed |
| Keyset.ListedWasPresent | crates/application/src/storage.rs:67-74 | whatever is listed was there when its page was read |
| Keyset.CompleteWalkListsAll | crates/test-support/src/object_storage.rs:131-165 | over an unchanging collection the walk lists its sorted keys, each once, for any page sizes |
| Keyset.WalkIsShort | crates/application/src/storage.rs:67-74 | over an unchanging collection, when every page but the last lists its cursor, a walk has at most one page per remaining key and one more |
| ObjectStorage.TestObjectStorage.List | crates/test-support/src/object_storage.rs:131-165 | a page of the keys under the prefix strictly after the cursor, in dictionary order, with the next cursor exactly when keys remain |
| ObjectStorage.SortKeys | crates/test-support/src/object_storage.rs:138-149 | the matching keys in ascending order, each once |
| ObjectStorage.BeforeIsLexicographic | crates/test-support/src/object_storage.rs:149 | the order of the keys is the dictionary's |
| ObjectStorage.ListedExactlyOnce | crates/test-support/src/object_storage.rs:131-165 | a key there throughout a complete walk is listed exactly once although others come and go |
| ObjectStorage.ResetAllData | crates/infrastructure/src/fresh_seed.rs:17-33 | the loop that deletes while it lists ends with an empty store, deletes every key once in order, and counts what there was |
| ObjectStorage.PageProgress | crates/infrastructure/src/fresh_seed.rs:23-33 | deleting a listed page keeps what is left above the cursor and what is gone at or below it |
| ObjectStorage.ResetRound | crates/infrastructure/src/fresh_seed.rs:23-33 | one round deletes exactly what it listed and leaves strictly less behind |
| Search.NewRequest | crates/application/src/ports.rs:216-228 | page size clamped to 1 to 100, an allowed radius kept and any other made 1000, a cursor kept exactly when it is of this sort |
| Search.NextPage | crates/application/src/search.rs:160-185 | the page is the first rows after the cursor, and a next cursor is given exactly when rows remain |
| Search.FollowCursors | crates/application/src/search.rs:160-185 | feeding every minted cursor back through the request's validation is a complete walk over the matching rows, in pages of the clamped size |
| Search.ListAllPages | crates/application/src/search.rs:160-185 | from page 1 this lists every matching row once, in (sort key, id) order, and ends within one request per row and one more |
| Search.CursorsVisitEveryRowOnce | crates/application/src/ports.rs:113-121 | any complete walk over the cursors visits every matching row once in (sort key, id) order, ties included |
| Search.CursorsEnd | crates/application/src/search.rs:160-185 | no walk over the cursors is longer than one page per row and one more |
| GeocodeCache.QueueAndMapAgree | crates/infrastructure/src/geocoding.rs:283-342 | in every run the queue has no duplicates, holds the map's keys, keeps the bound and is the tail of the log of fresh insertions |
| GeocodeCache.CacheIsAsFullAsItCanBe | crates/infrastructure/src/geocoding.rs:326-342 | in every run the cache holds all fresh insertions, or the last ones up to its capacity: never fewer |
| GeocodeCache.YoungEntriesSurvive | crates/infrastructure/src/geocoding.rs:336-341 | remembering another answer keeps an entry as it is exactly when its key is among the last of the queue up to the capacity |
| GeocodeCache.HitsAreRecentAnswers | crates/infrastructure/src/geocoding.rs:319-323 | a hit is what the provider answered to a query of the same normal form, remembered less than the TTL ago |
| GeocodeCache.FreshFromTheAnswerIff | crates/infrastructure/src/geocoding.rs:319-342 | an entry is never served past the TTL from its answer exactly when it was remembered at that moment |
| GeocodeCache.LateAnswersAreServedTooLong | crates/infrastructure/src/geocoding.rs:345-356 | for every limits and delay, a reachable cache that serves an answer at the TTL from the provider and beyond |
| GeocodeCache.NewestIsKept | crates/infrastructure/src/geocoding.rs:326-342 | what was just remembered is not what is evicted, unless the capacity is zero |
| GeocodeCache.CachingGeocoder.RememberAnswer | crates/infrastructure/src/geocoding.rs:326-342 | insert or refresh in place, then evict the oldest: one step of the protocol |
| GeocodeCache.CachingGeocoder.Evict | crates/infrastructure/src/geocoding.rs:336-341 | the queue keeps its end, as long as it was or as the capacity; exactly the keys dropped from it leave the map, and every other entry is as it was |
| GeocodeCache.CachingGeocoder.Geocode | crates/infrastructure/src/geocoding.rs:345-356 | a live entry answers without change; otherwise the provider's answer is returned and, if it resolved, found next time |
| Hours.RowOpenIffInArc | crates/domain/src/hours.rs:73-104 | the branches decide membership in the row's half-open arc of the circular week, over Sunday night too |
| Hours.StatusAt | crates/domain/src/hours.rs:73-104 | open exactly when the instant lies in some row's arc; unknown exactly for unknown hours |
| Hours.RowsByDay | crates/domain/src/hours.rs:106-116 | each bucket holds the ranges of its day in the order of the rows |
| Hours.RangesOfIsTheDay | crates/domain/src/hours.rs:106-116 | a range is in a bucket exactly when a row puts it on that day |
| Hours.RangesInOrder | crates/domain/src/hours.rs:106-116 | a bucket lists its day's rows in their order, each as often as it is there |
| Hours.BucketsAgree | crates/domain/src/hours.rs:73-116 | evaluating the buckets gives the same answer as evaluating the rows |
| Hours.OrderIsIrrelevant | crates/domain/src/hours.rs:73-104 | permuting the rows changes no answer |
| Hours.SqlAgrees | migrations/0020_open_now_fn.sql:35-64 | the database's "open now" and the domain's are the same for all rows and times |
| UrlCodec.EncodeQueryValue | crates/web/src/htmx.rs:155-166 | the loop computes the byte-by-byte encoding that keeps unreserved bytes and slashes |
| UrlCodec.EncodePathSegment | crates/infrastructure/src/geocoding.rs:118-129 | the loop computes the byte-by-byte encoding that keeps unreserved bytes only |
| UrlCodec.UrlDecode | crates/web/src/auth.rs:345-361 | the index loop computes the left-to-right decoding, malformed escapes left as they are |
| UrlCodec.BytesGoAs | crates/web/src/htmx.rs:155-166 | exactly letters, digits and four marks, and a slash in a query value, go as they are; every other byte as a percent sign and two upper-case digits |
| UrlCodec.DigitsAreRead | crates/web/src/auth.rs:363-370 | hexadecimal digits are read in either case, nothing else is |
| UrlCodec.NoEscapeNoChange | crates/web/src/auth.rs:345-361 | a text without a complete escape, malformed ones and plus signs included, decodes to itself |
| UrlCodec.FirstEscapeIsRead | crates/web/src/auth.rs:345-361 | the first complete escape becomes its byte, what is before it is kept, decoding goes on behind it |
| UrlCodec.DecodeUndoesEncode | crates/web/src/auth.rs:345-370 | decoding undoes both encoders on every text |
| UrlCodec.EncodedIsPlain | crates/web/src/htmx.rs:155-166 | an encoded text has no `&` or `=`, and an encoded segment no slash |
| UrlCodec.EncodeUndoesDecodeIffCanonical | crates/web/src/auth.rs:345-370 | encoding undoes decoding exactly on texts an encoder can have written |
| UrlCodec.KeyIsPrefix | crates/web/src/auth.rs:315-343 | the key before the first `=` is `csrf` exactly when the pair starts with `csrf=` |
| UrlCodec.TokenIsTheFirst | crates/web/src/auth.rs:315-343 | none exactly when no pair starts with `csrf=`, otherwise the rest of the first that does |
| UrlCodec.TokenFieldIs | crates/web/src/auth.rs:25 | the field is named `csrf` |
| UrlCodec.CsrfFromQuery | crates/web/src/auth.rs:315-324 | the decoded rest of the first pair that starts with `csrf=`, the same value the form reader gives on the same bytes |
| UrlCodec.CsrfFromFormBody | crates/web/src/auth.rs:327-343 | the same value for a urlencoded body, nothing for any other content type |
| UrlCodec.BuiltQueryGivesTokenBack | crates/web/src/auth.rs:315-343 | from a query of encoded fields, whatever they hold, comes the value of the first field named `csrf` |
| UrlCodec.ConstantTimeEq | crates/web/src/auth.rs:289-298 | the loop without early exit decides equality |
| UrlCodec.VerifyToken | crates/domain/src/auth.rs:238-254 | accepted exactly when the submitted value decodes to the token |
| Text.SplitJoined | crates/web/src/auth.rs:331 | splitting takes apart exactly what joining put together |
| Text.TrimIsTrimmed | crates/domain/src/community.rs:282-287 | trimming leaves no white space at either end |
| Text.TrimTakesWhiteOnly | crates/domain/src/community.rs:282-287 | a text is white space, then what trimming leaves, then white space |
| Text.WhiteSpaceIs | crates/web/src/client_ip.rs:60-64 | white space is the code points with the Unicode White_Space property |
| SessionHex.CookieGivesIdBack | crates/domain/src/auth.rs:180-197 | every session id comes back from its cookie |
| SessionHex.AcceptedIff | crates/domain/src/auth.rs:185-197 | a cookie is accepted exactly when it is 32 pairs, each a base-16 number that may start with a plus sign |
| SessionHex.PairsAreRead | crates/domain/src/auth.rs:189-191 | a pair is two digits in either case, or a plus sign and one, with its value in base 16 |
| SessionHex.IdIsReadByPairs | crates/domain/src/auth.rs:185-197 | each of the 32 bytes is the number of its pair |
| SessionHex.CookieIsKeptIffLowercase | crates/domain/src/auth.rs:180-197 | an accepted cookie is written back as received exactly when its digits are lower case |
| SessionHex.PanicsIffCut | crates/domain/src/auth.rs:185-197 | reading the pairs panics exactly when a character straddles the end of a pair that is reached; on ASCII never |
| SessionHex.BytesToHex | crates/domain/src/auth.rs:282-288 | the accumulating loop writes two lower-case digits a byte |
| LocalPath.SafeLocalPath | crates/web/src/htmx.rs:90-102 | exactly the texts with a single leading slash and no backslash or control character are let through, unchanged |
| LocalPath.LoginNext | crates/web/src/htmx.rs:129-152 | the result is a safe local path for all headers; own page for reads, page of origin or parent path for writes |
| LocalPath.ParentPath | crates/web/src/htmx.rs:146-151 | always safe, and the root or the path without its last segment |
| LocalPath.ParentPathIs | crates/web/src/htmx.rs:146-151 | whenever the path without its last segment is safe, that is the page |
| LocalPath.OriginIsDropped | crates/web/src/htmx.rs:106-118 | only the path and query of an address count, whatever site it names |
| LocalPath.NoSchemeIsTakenAsItIs | crates/web/src/htmx.rs:106-118 | an address without a scheme is taken as it is, and only if it is safe |
| LocalPath.SafePathIsKeptIff | crates/web/src/htmx.rs:106-118 | a safe path is taken as it is exactly when `://` is nowhere in it |
| ClientIp.PrependingChangesNothing | crates/web/src/client_ip.rs:50-76 | with enough entries any text and comma put in front leaves the result as it is |
| ClientIp.FrontIsIgnoredIff | crates/web/src/client_ip.rs:50-76 | the result is independent of what stands in front exactly when the header has at least as many entries as trusted hops |
| ClientIp.OnlyTheNthFromTheRightCounts | crates/web/src/client_ip.rs:41-76 | when the header ends in N non-blank comma-free entries, the first of them and the peer decide |
| ClientIp.NeverAnythingButAnAddress | crates/web/src/client_ip.rs:68-75 | the result is the peer or an entry of the header that is an IP address |
| ClientIp.PeerWhenTheChainIsShort | crates/web/src/client_ip.rs:50-66 | no trusted hop, no header or too short a chain give the peer, or its stand-in |
| ClientIp.PeerWhenTheEntryIsNoAddress | crates/web/src/client_ip.rs:68-75 | an entry that is no IP address gives the peer |
| ClientIp.BlankEntriesDoNotCount | crates/web/src/client_ip.rs:60-64 | blank entries between commas do not count as hops |
| FocusTrap.Trap.InertBackground | web/static/js/app.js:52-66 | exactly the siblings of the chain from the dialog up to the body, or to its root, become inert; those not inert before are returned, each once |
| FocusTrap.Trap.Open | web/static/js/app.js:67-79 | everything under the body (or under the root, for a dialog elsewhere) outside chain and dialog is inert itself or through an ancestor; chain, dialog and all the rest unchanged; no dialog, no change |
| FocusTrap.Trap.Close | web/static/js/app.js:80-86 | exactly the marks of the last opening come off |
| FocusTrap.CloseRestoresIffNotNested | web/static/js/app.js:52-86 | over any run of openings and closings, a final close brings back the first state exactly when no dialog was opened over another's marks; earlier marks always stay |
| FocusTrap.MarksAreRight | web/static/js/app.js:45-66 | marking the elements beside the chain makes the whole background inert and leaves all else as it was |
| FocusTrap.BackgroundIsCovered | web/static/js/app.js:45-49 | every element outside chain and dialog lies under one that is made inert |
| FocusTrap.ChainIsSpared | web/static/js/app.js:45-49 | the dialog, its ancestors and its contents are never made inert |
| Confidence.OrderIsIrrelevant | crates/domain/src/community.rs:489-520 | permuting the signals changes no level |
| Confidence.MembersDecide | crates/domain/src/community.rs:489-520 | listing a signal several times changes nothing either |
| Confidence.FreshnessWearsOff | crates/domain/src/freshness.rs:52-72 | freshness is monotone in age for any thresholds, in order or not, and for clocks behind the signal |
| Confidence.WaitingOnlyWears | crates/domain/src/community.rs:489-520 | with the signals fixed, time moves the level only from recently verified over verified to stale |
| Confidence.ConfirmingHelps | crates/domain/src/community.rs:489-520 | one more confirmation never makes a place look older |
| Confidence.LevelMeans | crates/domain/src/community.rs:476-488 | each level exactly in terms of the reports, the latest confirmation and the largest threshold |
| Confidence.AgeIsWholeDays | crates/domain/src/freshness.rs:60 | the age is the whole 24-hour days since, and zero for a signal from the future |
| Confidence.CategoryMeans | crates/domain/src/freshness.rs:52-72 | the first threshold the age is below names the category |
| StarRatings.StarRatingsFor | crates/infrastructure/src/devdata.rs:122-136 | exactly `count` ratings between 1 and 5, summing to the target, or to the nearest sum such ratings can have, never more than one apart |
| StarRatings.EvenSplitIsUnique | crates/infrastructure/src/devdata.rs:122-136 | length, sum and evenness determine the list, so the contract leaves no other result |

## Left out

- The rate limiter, job leasing and backoff, e-mail and the export: independent machines beside the ones modelled here.
- The retention jobs for tokens, exports, parked-here signals and inactive accounts: deletions by age; the age of a purged account is not modelled, so a purge may come at any time.
- SQL text, S3, the geocoding provider, image processing, templates, tracing and the middleware chain: I/O and libraries behind the ports.
- Passwords, single-use tokens, OAuth and what is hashed: library calls; a method takes whom a token belonged to as a parameter.
- base64, UTF-8 validation and the decoder's lossy conversion: library calls; texts of the codecs are bytes.
- Floating point: coordinates are reals without NaN, sort keys are integers, and the rounding of average times count is a parameter.
- Timezone conversion, daylight saving and leap seconds: the local weekday and time are inputs.
- PhotoService.Service.ApprovePhoto: the gallery position is not modelled; it is read in a call of its own, so two approvals can take the same one.
- The two photo tables and their reviews and locations: one table of rows; kinds differ only in the table name.
- Account deletion and scrubbing beyond the attribution columns of reports, the sessions and the roles: finite column lists.
- Favorites, reviews, verifications and duplicate detection: single-row writes without a protocol.
- Sorting and deduplicating the filter lists of a search and the batched report previews: standard in-place sorts.
- The truncation of the database tables after the reset loop: one SQL statement.
- Focus handling and the keyboard trap of the dialog: user interface.
- `status_at` on hours with a timezone: only the branch logic after the conversion.
- PhotoCleanup.CompleteSweepCollectsAll: a sweep that gets through all its pages; one stopped by a failing call leaves the rest to the next.
- ReportService.Service.ResolveReport: that the target is still hidden at the end is stated for calls run one at a time, since content may be restored at any moment.
- AccountService.Service.ResetPassword: the token is checked and used up in one step that gives its owner; single use is the token store's.
- ObjectStorage.ResetAllData: listing fails always or never during one reset, as in the in-memory store.
- UrlCodec.ConstantTimeEq: decides equality; that its duration does not depend on the contents is not expressible here.

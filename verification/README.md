# Messaging relayer: a verified model

This project models the core of the Nautilus messaging relayer in Dafny and proves what its
parts promise each other. `dafny verify dfyconfig.toml` checks all of it.

The relayer accepts encrypted messages over HTTP, keeps them in memory, and archives them on
Walrus from a background worker. A second background loop follows chain events and keeps a
cache of who may do what in which group. The model has three layers.

**The running relayer.** `Messages` and `Storage` are the objects the original mutates in
place: three collections that must agree, and message records that handlers and worker edit.
`Stores` is the same store as a value, with one function per lock acquisition; every method
of the object is proved to do what the function says, on every store whose parts agree.
`Queries` holds the group query against its documentation. `Relay` is the whole system as a
step relation: a create is a draft, a reservation and a commit; an edit or a delete is a checked
fetch and a later write; the worker takes a batch, gets an answer from the publisher, and
marks one message at a time; any of these may fall between any two others. `RelayInvariants`,
`Orders`, `Archive`, `ArchiveRuns`, `Readers`, `LastWrites`, `Deletions`, `EditedFlag`, `Paging`,
`PagingRuns`, `MissedMessages` and `Polling` are what holds in every run. `LostWrite` and
`LateCommit` are families of runs in which users do not get what they expect, `SecondDelete` one
in which they do all the same. `WalrusSync` is the worker as an object whose loop
drives the storage object, `TriggerLoop` says when it runs, `Draining` how fast it empties the
store, `Phases` what one phase does to each member of its batch and why the object's phases are
steps of `Relay`.

**The membership cache.** `Membership` is the nested map and its operations, `MembershipHistory`
the question about the past that it answers, `MembershipSync` the checkpoint loop with its
cursor across reconnects, `CheckpointOrder` where each applied event comes from, `MembershipGaps`
what a reconnect that skips checkpoints costs.

**Requests.** `Auth` is the middleware as a decision, `Requests` the decoding of bodies and
the encoding of responses, `Handlers` the four handlers. `Admission` says for each verb and header
what is let through, `Acceptance` which bodies fit, `Outcomes` which answer each request gets and
`Listing` what a list response holds. `Bodies` and `ShownBodies` lead from the JSON of a request
to what readers are shown. `Authorship` is the theorem that joins all of it, `RepeatedBodies` when
one signed body can be stored twice. `Canonical`, `Decimal`, `Hex` and `Permissions` are the string
facts underneath. Base16 is section 8 of RFC 4648.

What the model takes from outside as parameters: signature verification, Blake2b, UTF-8 and
JSON (function values in `Auth.Env`), serialization and the Walrus publisher (function values
in `WalrusSync.Client`; an arbitrary answer in `Relay`), every reading of the clock, fresh
message ids, the order in which a hash map is walked, and what the stream delivers.

## Where the code and its comments differ

The model follows the code. Each of these is a statement of the project, not only a remark.

- A user write between the worker's snapshot of a message and its mark is marked over
  (`src/relayer/src/services/walrus_sync.rs:232-239`). An edit then stays out of the archive
  unless the message is written again (`LostWrite.EditInWindowIsLost`). A delete is undone, in
  the store as well, if the batch was taken when the message was not deleted
  (`LostWrite.DeleteInWindowIsUndone`); a second delete over a batch that already carried the
  first loses nothing (`SecondDelete.SecondDeleteIsHarmless`). Once nothing waits, readers are
  shown what users last wrote if and only if every clone that was last marked says what the last
  write says (`LastWrites.ReadersShowLastWritesIff`); they have the very versions last written if
  and only if no write is lost (`ArchiveRuns.ReadersAreCurrentIff`).
- Deletion is not final: an edit admitted after it revives the message
  (`Stores.EditAfterDeleteRevives`), and so does the mark of a batch taken before it. A delete
  holds for exactly as long as neither happens: `Deletions.DeleteHoldsIff`.
- Group orders have gaps: `Stores.RejectedCreateBurnsAnOrder`, and `Orders.RunConservesOrders`
  accounts for every number.
- `src/relayer/src/storage/adapter.rs:107` says that a query without bounds returns the most
  recent messages. The code returns those of lowest order: `Queries.OldestIsReturned` is a case
  for any two messages, and by `Queries.NewestIff` the claim holds only if the whole group fits.
- `src/relayer/src/storage/adapter.rs:108` says that the lower bound takes precedence over the
  upper. The code applies both: `Queries.UpperBoundCounts` is a case, and
  `Queries.AfterTakesPrecedenceIff` says when it makes no difference.
- `is_edited` is true as soon as a message has left its first status, an archived message
  nobody edited included: `EditedFlag.LooksEditedIff`. `EditedFlag.FlagIsWrongIff` says exactly
  when the flag is wrong.
- A batch size of 0 never archives anything: `Draining.DrainedIff`.
- Under concurrent creates a client can page past a message whose order was reserved early and
  committed late: `LateCommit.EarlyOrderIsMissed`. For a client that stops at the first page
  without a next one, that can happen to exactly those messages before whose commit two later
  ones of their group were stored: `MissedMessages.MissedIff`. For a client that keeps asking
  from the last order it received, one later message is enough, whatever its limit:
  `Polling.PassedIff`.
- The checkpoint subscription names no start cursor, and a revocation that falls between two
  connections is never seen: `MembershipGaps.RevocationInGapIsMissed`. Gaps that say nothing about
  a member do not matter to it: `MembershipGaps.SilentGapsDoNotMatter`.
- The nonce index does not keep one signed body from being stored twice: an edit of the first
  message gives its nonce free (`src/relayer/src/storage/memory.rs:162-164`).
  `RepeatedBodies.SameBodyStoredTwice` is a run, `RepeatedBodies.ReadmittedIff`,
  `RepeatedBodies.AdmittedIff` and `RepeatedBodies.RepeatNeedsEdit` say when it can happen.

## Model

| member | source | states |
|---|---|---|
| Messages.StoredMessage.constructor | src/relayer/src/models/message.rs:91-118 | a new message has the given fields, no order, no patch id, status SyncPending and equal creation and update times |
| Messages.StoredMessage.SetOrder | src/relayer/src/models/message.rs:121-123 | only the order changes |
| Messages.StoredMessage.MarkForDeletion | src/relayer/src/models/message.rs:136-139 | only status and update time change; content and patch id stay |
| Messages.StoredMessage.UpdateContent | src/relayer/src/models/message.rs:143-160 | the whole content is replaced, the message waits for re-upload, its identity stays |
| Storage.InMemoryStorage.constructor | src/relayer/src/storage/memory.rs:28-34 | a new store is empty and valid |
| Storage.InMemoryStorage.NextOrder | src/relayer/src/storage/memory.rs:37-45 | the first lock of a create: the next number of this group alone is handed out; the collections keep agreeing |
| Storage.InMemoryStorage.InsertMessage | src/relayer/src/storage/memory.rs:64-87 | the second lock, whatever happened since the first: the message is stored under the number it holds, or one of the two errors and no change |
| Storage.InMemoryStorage.CreateMessage | src/relayer/src/storage/memory.rs:60-88 | the new state and the answer, both errors included; the number is consumed either way; every valid object stays valid |
| Storage.InMemoryStorage.GetMessage | src/relayer/src/storage/memory.rs:90-96 | a clone of the stored message, or NotFound for its id |
| Storage.InMemoryStorage.GetMessagesByGroup | src/relayer/src/storage/memory.rs:98-135 | whatever the map's order: the messages of the group within both bounds, ascending, the lowest ones up to the limit |
| Storage.InMemoryStorage.UpdateMessage | src/relayer/src/storage/memory.rs:137-176 | the edit and the nonce swap happen together or not at all |
| Storage.InMemoryStorage.DeleteMessage | src/relayer/src/storage/memory.rs:178-189 | one message is marked for deletion, or NotFound and no change |
| Storage.InMemoryStorage.UpdateSyncStatus | src/relayer/src/storage/memory.rs:191-211 | status, time and, when one is given, patch id of one message; or NotFound and no change |
| Storage.InMemoryStorage.GetMessagesBySyncStatus | src/relayer/src/storage/memory.rs:212-230 | distinct clones of messages in that status, as many as there are up to the limit |
| Stores.OpsKeepConsistent | src/relayer/src/storage/memory.rs:60-211 | after any sequence of operations, rejected ones included, the nonce set is exactly the stored nonces, no two messages share one, and orders are distinct within a group and at most its counter |
| Stores.EditRefusedIff | src/relayer/src/storage/memory.rs:152-163 | an edit is refused exactly when another stored message holds its nonce; keeping one's own nonce is fine |
| Stores.RejectedCreateBurnsAnOrder | src/relayer/src/storage/memory.rs:62-85 | a create rejected for its id or its nonce leaves messages and nonces alone and still uses up a number of its group, and of no other |
| Stores.PatchIdSurvives | src/relayer/src/storage/memory.rs:191-211 | a status change without a patch id keeps the old one, with one replaces it, and touches no content, identity or other message |
| Stores.EditAfterDeleteRevives | src/relayer/src/models/message.rs:143-160 | an edit admitted after a delete sets the message to UpdatePending again |
| Stores.SortAscends | src/relayer/src/storage/memory.rs:128-129 | sorting by order is a strictly ascending rearrangement when orders differ |
| Stores.PageIsUnique | src/relayer/src/storage/memory.rs:110-134 | the answer to a group query does not depend on the map's iteration order |
| Queries.PageSize | src/relayer/src/storage/memory.rs:128-132 | a page holds as many of the matching messages as the limit allows |
| Queries.NewestIff | src/relayer/src/storage/memory.rs:117-132 | without bounds, no left-out message is newer than a shown one if and only if the whole group fits (or nothing was asked for) |
| Queries.OldestIsReturned | src/relayer/src/storage/memory.rs:117-132 | after any two creates in a group, a query without bounds for one message returns the older |
| Queries.AfterTakesPrecedenceIff | src/relayer/src/storage/memory.rs:117-132 | the answer to two bounds is that to the lower one alone if and only if nothing lies at or above the upper or the messages between fill the page |
| Queries.AfterTakesPrecedenceMeans | src/relayer/src/storage/memory.rs:117-132 | the same read off the answer: the lower bound alone brings up nothing at or above the upper |
| Queries.UpperBoundCounts | src/relayer/src/storage/memory.rs:117-132 | a case where the upper bound hides a message that the lower one alone shows |
| Queries.PageBounds | src/relayer/src/storage/memory.rs:117-132 | all that is shown is of the group and strictly within the bounds given, each bound by itself; what is within them is left out only after all that is shown, and only from a full page |
| Queries.UpperBoundAlone | src/relayer/src/storage/memory.rs:117-132 | with an upper bound alone nothing at or above it is shown, and the first message of the group is shown exactly if it is below it |
| Relay.StepIsCoreStep | src/relayer/src/services/walrus_sync.rs:159-258 | every step of the system acts on messages, worker and archive as one of four transitions or not at all |
| RelayInvariants.RunIsSound | src/relayer/src/storage/memory.rs:60-211 | in every interleaving: nonce index agreement, and agreement of store, worker batch and archive |
| RelayInvariants.IdentityIsStable | src/relayer/src/storage/memory.rs:137-211 | in every interleaving ids only grow, and id, group, order, sender and creation time never change |
| RelayInvariants.CheckedWriteHolds | src/relayer/src/handlers/messages/handlers.rs:155-212 | at the time of a checked write the message exists and still belongs to the checked sender and group; the write fails only for a nonce held by another message, never with NotFound |
| RelayInvariants.MarkNeverMisses | src/relayer/src/services/walrus_sync.rs:232-245 | the message the worker marks is always there, with the identity it was snapshotted with |
| Orders.RunConservesOrders | src/relayer/src/storage/memory.rs:37-88 | in every interleaving the numbers 1 to each group's counter are partitioned into those of stored messages, of creates in flight and of rejected creates |
| Orders.CounterCounts | src/relayer/src/storage/memory.rs:37-45 | a group's counter is the sum of those three counts |
| Orders.RunIsConsistent | src/relayer/src/storage/memory.rs:60-88 | in every interleaving the three collections agree, and a create between its locks holds a number that no stored message has: what the storage object asks of its callers |
| Archive.MarkKeepsAgreement | src/relayer/src/services/walrus_sync.rs:231-254 | marking keeps store, batch and archive in agreement, whatever users wrote since the snapshot |
| Archive.UploadKeepsAgreement | src/relayer/src/services/walrus_sync.rs:219-222 | so does any upload, failed, partial or repeated |
| Archive.FoundPatchIsOwnCopy | src/relayer/src/walrus/types.rs:106-111 | the patch id found for a message leads to the archived copy of that very message |
| Archive.ReaderSeesTheStore | src/relayer/src/services/walrus_sync.rs:7-8 | from the invariants: once nothing waits and no write was lost, latest copies are the live messages |
| Archive.LatestIffNotLost | src/relayer/src/services/walrus_sync.rs:7-8 | the latest copy of a message is its last written version exactly when that write was not lost |
| ArchiveRuns.LostIff | src/relayer/src/services/walrus_sync.rs:164-239 | a message's last write is marked over exactly when the run has a write after a snapshot, a mark of the same batch, and no write since |
| ArchiveRuns.ArchivedCopyInEveryRun | src/relayer/src/services/walrus_sync.rs:183-254 | in every interleaving, whatever the clock reads, a Synced, Updated or Deleted message has an archived copy under its patch id with its id, group, order, sender and that status; unless a write was lost it is the last written version and has the stored content |
| ArchiveRuns.ArchivedCopyIsLastIff | src/relayer/src/services/walrus_sync.rs:183-254 | on a strictly increasing clock the copy is the last written version if and only if no write was lost |
| ArchiveRuns.QuietWindowsLoseNothing | src/relayer/src/services/walrus_sync.rs:164-239 | without a user write between a message's snapshot and its mark, nothing is ever lost |
| ArchiveRuns.ArchiveRefinesStore | src/relayer/src/services/walrus_sync.rs:7-8 | with a strictly increasing clock and quiet windows, once nothing is pending readers see exactly the stored messages that are not deleted, each once and current, failed and partial uploads included |
| ArchiveRuns.ReadersAreCurrentIff | src/relayer/src/services/walrus_sync.rs:7-8 | without assuming quiet windows: once nothing is pending, readers have the last written versions if and only if no message's last write was marked over |
| Readers.RunIsNewest | src/relayer/src/services/walrus_sync.rs:159-258 | on a strictly increasing clock the copy a message's patch id leads to is the latest of its id, repeated and unanswered uploads included |
| Readers.ReaderMatchesStoreIff | src/relayer/src/services/walrus_sync.rs:7-8 | once nothing is pending, readers see exactly the live store if and only if no message that is not deleted has lost a write that changed its content |
| LastWrites.RunLeadsToClone | src/relayer/src/services/walrus_sync.rs:231-245 | in every interleaving a message's patch id leads to the archived copy of the clone that was last marked, and there is none before the first mark |
| LastWrites.ReadersShowLastWritesIff | src/relayer/src/services/walrus_sync.rs:7-8 | once nothing is pending, readers are shown every message's last written content, or nothing after a delete, if and only if each clone that was last marked says the same as the last write |
| Deletions.DeleteHoldsIff | src/relayer/src/services/walrus_sync.rs:232-239 | in every interleaving a message stays deleted from one moment to another if and only if no edit of it is admitted and no batch taken when it was not deleted marks it |
| Deletions.MarkedIsShownDeleted | src/relayer/src/handlers/messages/response.rs:56-60 | the mark of a deleted message makes it Deleted, and it is still shown as deleted |
| Deletions.ShownDeletedHoldsIff | src/relayer/src/handlers/messages/response.rs:56-60 | in every interleaving a message is shown as deleted from one moment to another exactly when no edit of it is admitted and no batch taken before the delete marks it |
| LostWrite.EditInWindowIsLost | src/relayer/src/services/walrus_sync.rs:232-239 | for every message and every edit that changes it, a run after which nothing is pending and readers are shown the old content |
| LostWrite.DeleteInWindowIsUndone | src/relayer/src/services/walrus_sync.rs:232-239 | for every message, a run in which a delete takes effect and after which nothing is pending, the message is Synced and readers are shown it |
| SecondDelete.SecondDeleteIsHarmless | src/relayer/src/services/walrus_sync.rs:232-239 | for every message, a run in which a write is lost, the delete holds all the same and readers are shown what users last wrote |
| EditedFlag.LooksEditedIff | src/relayer/src/handlers/messages/response.rs:54 | in every run on a strict clock a response says edited exactly when the message has left SyncPending |
| EditedFlag.FlagIsWrongIff | src/relayer/src/handlers/messages/response.rs:54 | the flag differs from whether a user wrote the message after its create exactly when the message is Synced and no write of it was lost |
| Paging.AnswerMeans | src/relayer/src/handlers/messages/handlers.rs:128-144 | hasNext is true exactly when a matching message was left out |
| Paging.PagesAscend | src/relayer/src/handlers/messages/handlers.rs:133-144 | for a client that asks as often as it likes, going on from the last order received, the pages so far ascend strictly, whatever is written between requests |
| Paging.ShownIff | src/relayer/src/handlers/messages/handlers.rs:133-144 | a message is shown exactly when it was committed by the request whose page runs past its order |
| Paging.InOrderPagingIsComplete | src/relayer/src/storage/memory.rs:60-88 | nothing committed by the last request is missed when commits follow reservation order |
| Paging.FixedStorePaging | src/relayer/src/handlers/messages/handlers.rs:128-145 | on a fixed store the pages are exactly the later messages of the group, once each, ascending; the limit bounds the number of requests |
| Paging.PagingEnds | src/relayer/src/handlers/messages/handlers.rs:128-145 | on any store whose collections agree, with a limit of at least 1 the client's loop ends |
| Paging.PagingEndsIff | src/relayer/src/handlers/messages/handlers.rs:128-145 | the loop ends if and only if the limit is at least 1 or nothing matches |
| Paging.PagingIsUnique | src/relayer/src/handlers/messages/handlers.rs:128-145 | its course does not depend on the map's iteration order |
| PagingRuns.PagingUnderWrites | src/relayer/src/handlers/messages/handlers.rs:133-144 | in every interleaving of the system: strictly ascending pages, and exactly which messages they show |
| PagingRuns.PagingInTurnIsComplete | src/relayer/src/storage/memory.rs:60-88 | in every run whose creates commit in the order they reserved, paging misses nothing committed before its final request |
| MissedMessages.MissedIff | src/relayer/src/handlers/messages/handlers.rs:133-144 | a client that stops at the first page without a next one can miss a stored message if and only if at some moment before its commit two later messages of its group were stored |
| Polling.PassedIff | src/relayer/src/handlers/messages/handlers.rs:133-144 | a client that keeps asking, with any one limit, can be moved past a stored message unseen if and only if the limit is at least 1 and at some moment before its commit a later message of its group was stored |
| Polling.NeverShownAfter | src/relayer/src/handlers/messages/handlers.rs:133-144 | a message that a client has been moved past is never shown to it later |
| Polling.InTurnNobodyIsPassed | src/relayer/src/storage/memory.rs:60-88 | with creates committing in the order they reserved, no client is moved past a message of the group |
| LateCommit.EarlyOrderIsMissed | src/relayer/src/storage/memory.rs:60-88 | for any three messages of a group, a run in which the first reserves first and commits last, and a client pages past it |
| Walrus.IdentifierInjective | src/relayer/src/services/walrus_sync.rs:184 | patch identifiers of different messages differ |
| Walrus.GetPatchId | src/relayer/src/walrus/types.rs:106-111 | the patch id of the first entry with the identifier, and none exactly when there is no such entry |
| WalrusSync.WalrusSyncService.constructor | src/relayer/src/services/walrus_sync.rs:54-69 | the batch size is the configured one, 666 at most |
| WalrusSync.WalrusSyncService.BuildPatches | src/relayer/src/services/walrus_sync.rs:180-211 | as many tags as patches, patch and tags at each position naming the same message, and those messages are exactly the serializable ones in the order of the batch |
| WalrusSync.PatchesFollowBatch | src/relayer/src/services/walrus_sync.rs:183-211 | the same for every part of the batch handled so far |
| WalrusSync.WalrusSyncService.MarkMessages | src/relayer/src/services/walrus_sync.rs:232-254 | every message with a patch id in the answer is marked, the others are not |
| WalrusSync.WalrusSyncService.SyncMessages | src/relayer/src/services/walrus_sync.rs:159-258 | the new state after one phase on its batch; a failed upload is reported and changes nothing |
| WalrusSync.WalrusSyncService.RunCycle | src/relayer/src/services/walrus_sync.rs:112-121 | three phases in turn, an error in one not stopping the next |
| WalrusSync.WalrusSyncService.Run | src/relayer/src/services/walrus_sync.rs:73-127 | for any triggers until the channel closes: cycles at exactly the positions `TriggerLoop.Fired` gives, each a whole cycle on the store |
| TriggerLoop.WaitingCounts | src/relayer/src/services/walrus_sync.rs:80-97 | while waiting, the counter is the notifications since the last cycle and below the threshold |
| TriggerLoop.NotifiesBetweenCycles | src/relayer/src/services/walrus_sync.rs:82-126 | at most threshold-many notifications from one cycle to the next, and that many exactly when it was not the timer that fired |
| TriggerLoop.CyclesClosedForm | src/relayer/src/services/walrus_sync.rs:82-126 | the number of cycles: one for each tick plus, for each stretch between ticks, its notifications divided by the threshold; the counter holds the last remainder |
| TriggerLoop.CyclesWithoutTicks | src/relayer/src/services/walrus_sync.rs:92-97 | n notifications alone give n / threshold cycles, rounded down |
| TriggerLoop.CyclesWithoutThreshold | src/relayer/src/services/walrus_sync.rs:95-97 | with threshold 0 the cycles are the ticks |
| TriggerLoop.FiredStops | src/relayer/src/services/walrus_sync.rs:104-107 | nothing fires after the channel has closed |
| Draining.PhaseMoves | src/relayer/src/services/walrus_sync.rs:159-258 | for any publisher, a phase moves exactly the acknowledged messages of its batch to the target status with a patch id, and changes nothing else |
| Draining.MarkAllIsMarkMany | src/relayer/src/services/walrus_sync.rs:232-254 | the worker's marking loop is that many mark steps of the interleaved system |
| Phases.PhaseFailsIff | src/relayer/src/services/walrus_sync.rs:213-229 | a phase fails exactly when some member of its batch can be serialized and the publisher does not answer |
| Phases.MembersAfterPhase | src/relayer/src/services/walrus_sync.rs:130-258 | the k-th member of the batch goes from SyncPending to Synced, UpdatePending to Updated or DeletePending to Deleted, with the patch id answered for its own identifier and the time of its own mark; without one it is unchanged |
| Phases.ArchivedIsSent | src/relayer/src/services/walrus_sync.rs:183-188 | the copy that the interleaved system archives is the one that a phase serializes |
| Phases.PhaseIsSteps | src/relayer/src/services/walrus_sync.rs:159-258 | a whole phase of the worker object is a snapshot, an answer and the marks of the interleaved system |
| Draining.CycleDrains | src/relayer/src/services/walrus_sync.rs:112-121 | with an accepting publisher one cycle lowers each of the three pending counts by the batch size, or to nothing |
| Draining.CycleUploads | src/relayer/src/services/walrus_sync.rs:183-222 | within one cycle no message is uploaded twice, and what was uploaded no longer waits |
| Draining.UploadedOnce | src/relayer/src/services/walrus_sync.rs:159-258 | nor is any message uploaded by two cycles |
| Draining.DrainedIff | src/relayer/src/services/walrus_sync.rs:159-258 | after k cycles nothing waits exactly when k batches could hold the longest of the three queues |
| Draining.CyclesNeededIff | src/relayer/src/services/walrus_sync.rs:159-258 | with batch size at least 1 that takes exactly the longest queue divided by the batch size, rounded up |
| Membership.InMemoryMembershipStore.HasPermission | src/relayer/src/auth/membership.rs:123-143 | true exactly for a permission in the member's set |
| Membership.InMemoryMembershipStore.IsMember | src/relayer/src/auth/membership.rs:145-164 | true exactly when the address holds some permission |
| Membership.InMemoryMembershipStore.GetPermissions | src/relayer/src/auth/membership.rs:166-173 | exactly the permissions held, each once |
| Membership.InMemoryMembershipStore.GrantPermissions | src/relayer/src/auth/membership.rs:175-206 | the permissions are added to an existing member; otherwise MemberNotFound and no change |
| Membership.InMemoryMembershipStore.RevokePermissions | src/relayer/src/auth/membership.rs:208-239 | the permissions are taken from an existing member; otherwise MemberNotFound and no change |
| Membership.InMemoryMembershipStore.AddMember | src/relayer/src/auth/membership.rs:241-253 | the member has exactly the initial permissions, whatever it had before |
| Membership.InMemoryMembershipStore.RemoveMember | src/relayer/src/auth/membership.rs:255-260 | that member alone is gone; its group stays |
| Membership.InMemoryMembershipStore.SetGroupMembers | src/relayer/src/auth/membership.rs:262-274 | the group is replaced, the last entry for an address counting |
| Membership.AddressesFromEntries | src/relayer/src/auth/membership.rs:262-274 | a group set as a whole has exactly the addresses of its entries |
| Membership.LastEntryCounts | src/relayer/src/auth/membership.rs:262-274 | each address has exactly the permissions of its last entry |
| MembershipHistory.HasPermissionIff | src/relayer/src/services/membership_sync.rs:136-188 | after any events the cache grants a permission exactly when the last add or remove of that member is an add and the last later event naming the permission is a grant |
| MembershipHistory.FoldIsLocal | src/relayer/src/services/membership_sync.rs:136-188 | a member's permissions depend only on the events about that member in that group |
| MembershipHistory.EventsAreLocal | src/relayer/src/services/membership_sync.rs:136-188 | traces with the same events for each pair of group and member leave identical caches |
| MembershipSync.MembershipSyncService.ApplyOne | src/relayer/src/services/membership_sync.rs:136-188 | one event changes the cache as its meaning says, errors of the cache being logged only |
| MembershipSync.MembershipSyncService.ProcessCheckpoint | src/relayer/src/services/membership_sync.rs:104-125 | the parsable events of a checkpoint are applied in order |
| CheckpointOrder.ParsedColumns | src/relayer/src/services/membership_sync.rs:115-124 | within a transaction the applied events are exactly those that parse, in ascending positions |
| CheckpointOrder.EventsInOrder | src/relayer/src/services/membership_sync.rs:104-125 | the applied events of a checkpoint come from strictly ascending pairs of transaction and position, exactly the pairs that hold a parsed event |
| CheckpointOrder.HeldAfterCheckpointIff | src/relayer/src/services/membership_sync.rs:104-125 | on an empty cache a checkpoint gives a permission exactly when, reading positions in order, the last add or remove of the member is an add and a later event grants the permission with no later revocation |
| CheckpointOrder.LaterGrantIsHeld | src/relayer/src/services/membership_sync.rs:104-125 | a permission granted in a later transaction than the add is held |
| CheckpointOrder.EarlierGrantIsLost | src/relayer/src/services/membership_sync.rs:104-125 | one granted only in earlier transactions than an add is not |
| CheckpointOrder.DeliveredAreItems | src/relayer/src/services/membership_sync.rs:71-97 | a connection delivers its items in order up to the first error; a missing cursor counts as 0, a missing checkpoint carries no events |
| CheckpointOrder.DeliveriesInOrder | src/relayer/src/services/membership_sync.rs:41-100 | over reconnects, deliveries come connection after connection and item after item, exactly those of connections that opened and that no error comes before |
| MembershipSync.MembershipSyncService.RunSubscription | src/relayer/src/services/membership_sync.rs:62-100 | one session up to its end or first error, old cursors skipped |
| MembershipSync.MembershipSyncService.RunSessions | src/relayer/src/services/membership_sync.rs:41-60 | reconnecting goes on from the cursor reached |
| MembershipSync.CursorIsHighest | src/relayer/src/services/membership_sync.rs:71-97 | the cursor is the highest delivered so far |
| MembershipSync.AppliedOnce | src/relayer/src/services/membership_sync.rs:71-97 | over any sessions the applied cursors strictly increase, and the cache is the fold over what was applied |
| MembershipSync.SessionsMatchChain | src/relayer/src/services/membership_sync.rs:48-100 | if each session is a contiguous segment that starts no later than one past what was seen, the cache is one fold over the whole chain seen |
| MembershipSync.ChainDecides | src/relayer/src/services/membership_sync.rs:48-100 | and so a permission is held exactly when the history of the chain seen says so |
| MembershipGaps.SilentGapsDoNotMatter | src/relayer/src/services/membership_sync.rs:62-100 | with checkpoints skipped, a member still has the permissions that the whole chain gives it, if the skipped ones say nothing about it |
| MembershipGaps.SilentIff | src/relayer/src/services/membership_sync.rs:104-125 | a checkpoint says nothing about a member exactly when none of its events names that member and group |
| MembershipGaps.RevocationInGapIsMissed | src/relayer/src/services/membership_sync.rs:62-100 | for every member and permission, two connections between which a revocation is skipped, after which the cache still grants what the chain denies |
| Auth.DecodeKeyIff | src/relayer/src/auth/middleware.rs:114-161 | a key header means one key of one scheme, and is its hex spelling |
| Auth.ForwardsIff | src/relayer/src/auth/middleware.rs:73-300 | a request is forwarded with a context exactly when its headers decode and the context's key signed the claim, in time, for a group in which its address holds the permission of the method |
| Auth.ForbiddenIff | src/relayer/src/auth/middleware.rs:275-287 | status 403 means exactly that everything is genuine but the permission |
| Admission.KeyHeaderIff | src/relayer/src/auth/middleware.rs:114-161 | a key header decodes exactly if it spells flag 0 and 32 bytes (Ed25519), or flag 1 (Secp256k1) or 2 (Secp256r1) and 33 bytes |
| Admission.ClaimForwardedIff | src/relayer/src/auth/middleware.rs:73-300 | GET asks for the reader, POST for the sender, PUT for the editor and DELETE for the deleter permission: a request is forwarded exactly when its claim is signed in its headers, in time, by the key of the claimed address, which holds that permission |
| Admission.BodyForwardedIff | src/relayer/src/auth/middleware.rs:189-209 | with a body, group, sender and time are those of its JSON and the signed bytes are the body itself |
| Admission.BodylessForwardedIff | src/relayer/src/auth/middleware.rs:210-257 | without a body, group, sender and time are those of the three headers and the signed bytes are "time:sender:group" |
| Admission.SignedGetIsForwarded | src/relayer/src/auth/middleware.rs:79-83 | a GET without a body, signed in time by a holder of the reader permission, is forwarded |
| Admission.MalformedIff | src/relayer/src/auth/middleware.rs:173-250 | status 400 means exactly an unreadable body, a body that does not name its claim, or without a body a timestamp that is no i64; every other refusal is 401 or 403 |
| Admission.RefusedBeforeClaim | src/relayer/src/auth/middleware.rs:89-250 | which refusal comes first while signature, key, body and headers are read |
| Admission.RefusedForClaim | src/relayer/src/auth/middleware.rs:259-300 | then the age, the signature, the address and the permission decide, in this order |
| Auth.ForwardedByHistory | src/relayer/src/auth/middleware.rs:275-294 | with a cache fed by events, only those pass whom the history gives the permission |
| Auth.BodylessSignsOneClaim | src/relayer/src/auth/middleware.rs:253-256 | two forwarded requests without a body that sign the same bytes name the same time, sender and group |
| Canonical.MessageStringInjective | src/relayer/src/handlers/messages/handlers.rs:267-268 | the per-message signed string determines group, text, nonce and version, colons in the group included |
| Canonical.RequestStringInjective | src/relayer/src/auth/middleware.rs:253-254 | the bodyless signed string determines timestamp, sender and group |
| Decimal.ParseFormat | src/relayer/src/auth/middleware.rs:242-254 | reading back a formatted i64 gives the number |
| Decimal.ParseI64Iff | src/relayer/src/auth/middleware.rs:242 | the exact texts that read as a given number: in the range of an i64, with an optional sign and any leading zeros |
| Decimal.DigitAtPlace | src/relayer/src/auth/middleware.rs:253-254 | each digit written is the one of its place, from the highest to the lowest |
| Decimal.NoLeadingZero | src/relayer/src/auth/middleware.rs:253-254 | no place is left out and no zero put in front |
| Hex.DecodesIff | src/relayer/src/handlers/messages/request.rs:25-36 | decoding accepts exactly the even-length strings of hex digits |
| Hex.DecodeIff | src/relayer/src/handlers/messages/request.rs:25-36 | decoding gives exactly the bytes that the text spells in digits of either case, high digit first |
| Hex.EncodeSpells | src/relayer/src/handlers/messages/response.rs:66-79 | encoding writes each byte as two lower-case digits, high digit first |
| Hex.EncodeAfterDecode | src/relayer/src/handlers/messages/response.rs:66-79 | encoding what was decoded gives the string in lower case |
| Hex.DecodeAfterEncode | src/relayer/src/handlers/messages/response.rs:66-79 | decoding what was encoded gives the bytes |
| Permissions.FromTypeNameIff | src/relayer/src/auth/permissions.rs:24-36 | the exact strings read as a permission: its name, alone or after a maximal run of colons of even length at least 2 |
| Permissions.FromTypeNameInvertsName | src/relayer/src/auth/permissions.rs:38-45 | reading inverts naming under any module path that does not end in a colon |
| Permissions.FourNames | src/relayer/src/auth/permissions.rs:24-36 | under a module path each of the four literal names is read as its own permission |
| Permissions.JoinSplit | src/relayer/src/auth/permissions.rs:24-26 | splitting on a double colon loses nothing |
| Requests.AttachmentsRoundTrip | src/relayer/src/handlers/messages/handlers.rs:282-287 | attachments keep their number and order, and come back in lower case |
| Requests.ContentRoundTrip | src/relayer/src/handlers/messages/response.rs:51-81 | a response repeats the body's hex fields in lower case; the stored nonce is 12 bytes |
| Requests.ShownTimes | src/relayer/src/handlers/messages/response.rs:67-68 | times are shown in whole seconds, rounded down |
| Acceptance.AcceptedIff | src/relayer/src/handlers/messages/handlers.rs:37-61 | a body is accepted exactly when text, nonce, signature and all attachments fit (12-byte nonces, 64-byte signature over "group:text:nonce:version"), and a refusal names the first that does not |
| Acceptance.AllFitIff | src/relayer/src/handlers/messages/handlers.rs:282-287 | attachments are accepted exactly when each one fits |
| Acceptance.AcceptedIsSpelled | src/relayer/src/handlers/messages/handlers.rs:37-77 | what is stored is what the accepted texts spell, byte by byte, and the flag and key of the caller |
| Requests.DecodedIsAuthored | src/relayer/src/handlers/messages/handlers.rs:250-279 | content that passes the checks was signed for its group by the key stored with it |
| Requests.FlaggedKeyInjective | src/relayer/src/handlers/messages/handlers.rs:63-65 | the stored key names one key of one scheme |
| Handlers.PostIsForCaller | src/relayer/src/auth/middleware.rs:189-209 | the body a create stores names the group and sender that the middleware authorized |
| Handlers.PutIsForCaller | src/relayer/src/auth/middleware.rs:189-209 | so does the body of an edit |
| Handlers.GetIsForReader | src/relayer/src/auth/middleware.rs:80 | a GET reaches its handler only for a holder of the reader permission in the authorized group |
| Handlers.DeleteIsForDeleter | src/relayer/src/auth/middleware.rs:83 | a DELETE only for a holder of the deleter permission |
| Bodies.PostIff | src/relayer/src/handlers/messages/request.rs:55-74 | a POST becomes a create request exactly when it is forwarded and its JSON has every required field, with those fields and no attachments where none are given |
| Bodies.PutIff | src/relayer/src/handlers/messages/request.rs:76-96 | a PUT becomes an edit request exactly when its JSON also names a message |
| Bodies.PostThenGet | src/relayer/src/handlers/messages/handlers.rs:32-92 | what a served POST said in its JSON is what a GET by id shows, field by field, attachments in number and order, to its group and nobody else |
| Bodies.PutThenGet | src/relayer/src/handlers/messages/handlers.rs:149-218 | what a served PUT said is what the message named in its JSON shows, and no other message changes |
| ShownBodies.ContentStays | src/relayer/src/storage/memory.rs:137-211 | in every interleaving a content changes only by an admitted edit of its message |
| ShownBodies.PostedIsShown | src/relayer/src/handlers/messages/handlers.rs:32-92 | in every interleaving, from the commit of a POST to the next admitted edit, readers of its group are shown the posted JSON |
| ShownBodies.EditIsShown | src/relayer/src/handlers/messages/handlers.rs:149-218 | the same of an admitted PUT |
| Handlers.CreateMessage | src/relayer/src/handlers/messages/handlers.rs:32-92 | the new store and the answer; the worker is notified exactly when the message was stored |
| Handlers.GetMessages | src/relayer/src/handlers/messages/handlers.rs:96-145 | the single message or the page, or the error, and no change |
| Handlers.UpdateMessage | src/relayer/src/handlers/messages/handlers.rs:149-218 | the edited store, or the first error met and no change |
| Handlers.DeleteMessage | src/relayer/src/handlers/messages/handlers.rs:222-246 | the store with the message marked, or the first error met and no change |
| Handlers.CreateServedIff | src/relayer/src/handlers/messages/handlers.rs:37-80 | a create is served exactly when its body decodes and verifies and its id and nonce are new |
| Handlers.CreateLandsLast | src/relayer/src/storage/memory.rs:60-88 | the message comes after every message of its group, and no other message changes |
| Handlers.UpdateServedIff | src/relayer/src/handlers/messages/handlers.rs:154-212 | an edit is served exactly to the sender, in the message's group, with a verified body whose nonce no other message holds; it changes no other message and no identity |
| Handlers.DeleteServedIff | src/relayer/src/handlers/messages/handlers.rs:228-246 | a delete is served exactly to the sender, in the message's group; only that message's status and time change |
| Handlers.OnlyOwnGroupIsShown | src/relayer/src/handlers/messages/handlers.rs:101-126 | whatever is shown is a stored message of the caller's authorized group |
| Listing.ListedIsAskedFor | src/relayer/src/handlers/messages/handlers.rs:127-144 | every entry of a list response is the stored message of its id, of the group and within the bounds asked for, under its own order |
| Listing.ListAscends | src/relayer/src/handlers/messages/handlers.rs:127-144 | orders ascend strictly, and there are as many entries as the limit (50 if not given, at most 100) and the matching messages allow |
| Listing.LeftOutComesLater | src/relayer/src/handlers/messages/handlers.rs:133-144 | every matching message left out has a higher order than all shown, and `hasNext` holds exactly when there is one |
| Listing.ListIsUnique | src/relayer/src/handlers/messages/handlers.rs:96-145 | a query has one answer, whatever order the map is walked in |
| Outcomes.CreateOutcome | src/relayer/src/handlers/messages/handlers.rs:37-80 | a create fails by its body, else by its id, else by its nonce; its group, and no other, uses up a number exactly when the body was accepted |
| Outcomes.UpdateOutcome | src/relayer/src/handlers/messages/handlers.rs:154-212 | an edit fails by its message (NotFound), else its owner or group (Forbidden), else its body, else its nonce (Conflict) |
| Outcomes.DeleteOutcome | src/relayer/src/handlers/messages/handlers.rs:228-246 | a delete fails by its message (NotFound) or else its owner or group (Forbidden) |
| Outcomes.GetOutcome | src/relayer/src/handlers/messages/handlers.rs:101-126 | a named message counts before a named group; each refusal with its condition |
| Handlers.CreateThenGet | src/relayer/src/handlers/messages/response.rs:51-81 | a created message is fetched back with the body's fields, the next order of its group, and neither edited nor deleted |
| Handlers.UpdateThenGet | src/relayer/src/handlers/messages/response.rs:51-81 | an edited message shows the new body under the old id, order, sender and creation time |
| Handlers.DeleteThenGet | src/relayer/src/handlers/messages/response.rs:51-81 | a deleted message differs in status, flags and update time only |
| Handlers.CheckIsFetch | src/relayer/src/handlers/messages/handlers.rs:228-242 | the ownership check is exactly the guard of the fetch step |
| Handlers.UpdateIsFetchThenApply | src/relayer/src/handlers/messages/handlers.rs:154-212 | a served edit alone is a fetch and an apply of the interleaved system |
| Handlers.DeleteIsFetchThenApply | src/relayer/src/handlers/messages/handlers.rs:228-246 | so is a served delete |
| Handlers.CreateIsThreeSteps | src/relayer/src/storage/memory.rs:60-88 | a create alone is a draft, a reservation and a commit, and burns its order when rejected |
| Authorship.StoredMessagesAreAuthored | src/relayer/src/handlers/messages/handlers.rs:51-77 | in every interleaving each stored message's sender is the address of the key stored with it, and its signature verifies under that key over the canonical string of its own group, some hex spelling of its bytes and nonce, and its key version |
| Authorship.ArchivedCopiesAreAuthored | src/relayer/src/services/walrus_sync.rs:183-205 | the same of every archived copy, lost writes or not |
| Authorship.SignedStringsAreDistinct | src/relayer/src/handlers/messages/handlers.rs:267-268 | in every interleaving no two messages stored at one moment answer to the same signed string |
| RepeatedBodies.ReadmittedIff | src/relayer/src/auth/middleware.rs:259-287 | a body served once is served again, for the same message, exactly while its timestamp is in its lifetime and its sender holds the permission |
| RepeatedBodies.SameBodySameContent | src/relayer/src/handlers/messages/handlers.rs:37-77 | two messages made from one body have the same content, group and sender |
| RepeatedBodies.AdmittedIff | src/relayer/src/storage/memory.rs:70-87 | in every interleaving a create commits exactly when its id is new and no stored message holds its nonce |
| RepeatedBodies.RepeatNeedsEdit | src/relayer/src/storage/memory.rs:162-164 | a nonce that a message had is committed again only after an edit of that message |
| RepeatedBodies.SameBodyStoredTwice | src/relayer/src/storage/memory.rs:162-164 | for any body served twice and an edit of the first message to another nonce, a run of served requests in which both messages are stored |
| Authorship.DraftIsAuthored | src/relayer/src/handlers/messages/handlers.rs:32-77 | a served create stores authored content whose sender held the sender permission |
| Authorship.EditIsAuthored | src/relayer/src/handlers/messages/handlers.rs:149-212 | a served edit carries authored content whose sender held the editor permission |

## Left out

- Overflow: group orders, notification counts and page limits are unbounded integers; timestamps in the freshness check too, so the wrap-around of an i64 difference at extreme timestamps is not modelled.
- Cryptography, UTF-8, JSON parsing and serialization: abstract functions; a body parses to the same fields in the middleware and in the handler because both read the same bytes.
- Archived bytes: `Relay` archives message values rather than their JSON, and assumes that the publisher binds a patch id to one content and answers only with identifiers it was sent.
- Headers: trimming and the ASCII check are part of reading a request, before the model starts.
- Uuid: its canonical text, not its 128 bits.
- HTTP routing beyond the four handlers, CORS, the signed enclave response around a create or an edit, error texts, logging.
- Walrus HTTP client, multipart encoding, blob ids and aggregator reads; Sui gRPC and the reconnect delay.
- Statuses in tags and responses: the values themselves, not the words they are displayed as.
- Lock poisoning and OperationFailed: each lock acquisition is one atomic step.
- Event parsing: the model starts from parsed events; package prefix filtering and BCS are not part of it.
- Enclave key pair, attestation, boot code, entropy, system calls, log buffer, configuration, health endpoints.
- `Message::mark_synced`: unused in the original; the worker changes statuses through the store.
- Storage.InMemoryStorage.CreateMessage: states the call made by one caller alone; `NextOrder` and `InsertMessage` state its two locks with anything in between, and `Relay` interleaves them.
- Handlers.CreateMessage: states the request served alone; `Handlers.CreateIsThreeSteps` ties it to the steps of `Relay`, where other requests come between.
- Handlers.UpdateMessage: states the request served alone; the check and the write are two steps of `Relay`, and `RelayInvariants.CheckedWriteHolds` is about what comes between.
- Handlers.DeleteMessage: as for `Handlers.UpdateMessage`.
- WalrusSync.WalrusSyncService.SyncMessages: states the phase with no user write in between; its interleavings are the worker steps of `Relay`, and `Draining.MarkAllIsMarkMany` ties the two.
- WalrusSync.WalrusSyncService.RunCycle: states the cycle with no user write in between.
- WalrusSync.WalrusSyncService.Run: runs over a finite list of triggers with no user write in between, so the endless loop is every finite part of it; the timer's period and reset are not modelled.
- Refusing publishers: the draining counts are stated for a publisher that stores every patch; `Draining.PhaseMoves` states a phase for any publisher.

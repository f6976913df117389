# The local state machines of the awiki command line client

The client keeps its state on the user's machine: a SQLite database with messages, contacts and an
outbox of encrypted messages, and a directory of identities with an index file. Most of its rules are
spread over several functions and hold only together. This project models those functions in Dafny and
proves the rules.

* **Messages.** `MessageStore` is the merging upsert of the `messages` table; `SecureIncoming` is what
  decryption does to a message on its way there. The main results are the closed form of a row over any
  sequence of writes (`TableClosedForm`), also with read marks in between (`ReadFlagOverRuns`), and the exact
  condition under which decrypted text outlives later polls of the same ciphertext (`StoredPlaintextSurvives`).
  `MessageRecords` says the same of the records that are stored (`RowShowsRecords`).
* **Contacts.** `ContactStore` holds `UpsertContact` statement by statement, `ContactLookup` the reads and
  `syncPeerHandle`, `Rebind` and `LocalState` the move of an owner's rows to a new DID. The two contact
  tables equal a replay of the call log (`TablesReplayLog`), column by column (`ContactColumns`), and a rebind
  keeps their invariant exactly for compatible owners (`RebindKeepsInv`).
* **Outbox.** `Outbox` is the table as a state machine over single SQL statements, so that a sequence of
  operations is any interleaving of commands; `OutboxFlush` the commands, with the end-to-end client as an
  oracle; `OutboxProofs` what one flush sends and leaves behind. `OutboxRequests` and `OutboxColumns` say on the
  columns alone what a row becomes, in one flush (`FlushByFields`) and over any run (`RowShowsOps`).
* **Identities.** `IdentityIndex` holds the data, the single writes and each operation's writes in order;
  `IdentityStore` the `Manager` methods that carry them out one by one, with the loads they make on the way;
  `IdentityLoad` what such a load changes and when a second one changes nothing; `IdentityIntegrity` and
  `IdentityReplacement` what holds wherever the writes of an operation stop; `IdentityCommands` that the loads
  inside only refresh handle fields (`LoadsOnlyRefresh`), and `IdentityRuns` what therefore holds over whole runs;
  `IdentityRoundTrip` that what is saved is what is loaded, `IdentityReplaced` what a replacement leaves and
  returns (`ReplaceThenLoad`), `IdentityListing` the list. `Recovery` is the recovery
  of a handle, `RecoveryOrder` the order of its candidates (`TransitiveUnlessStraddled`), `RecoveryCandidates` which
  identities they are, `RecoveryProofs` the plan
  and its promotion, `RecoveryFinalize` the way from plan to active name (`RecoveryEndToEnd`). `Naming`, `Handles`,
  `StoredHandles` and `KeyScalar` are the algorithms underneath; `HandleInput` and `StoredHandleInput` say from
  the text of a handle alone when normalising it reaches a fixed point, `StoredHandleLoads` when loading does.
* **Merging, paging, caches.** `HistoryMerge`, `AttachmentPaging`, `NotifyDedupe` and `NotifyHandler` each
  tie an incremental algorithm to a specification over the whole history.

`Wrappers`, `Text`, `Sorting` and `Distinct` hold what the others share. `Witnesses` gives concrete inputs for
the conditions that can fail.

How things are modelled:

* A table is a map from its primary key to its row, a directory tree a map from names to directories. A
  parameter such as `failed`, `failsAt` or `fails` says which database statement fails; transactions roll
  back. `Manager.budget` is the number of writes that are still carried out before the program stops, so
  that a statement about every budget is a statement about every point at which an operation may be cut off.
* Clocks, generated ids, server answers, JSON encodings, time parsing and DID parsing are parameters.
  Queries without a complete `ORDER BY` are given any answer the query allows.
* `sort.SliceStable` is modelled by a stable insertion sort. On a total preorder there is only one stable
  sorted arrangement (`Sorting.StableArrangementUnique`), so nothing depends on the algorithm there.

Places where the code does something its comments or a quick reading do not suggest:

* A decrypted message whose plaintext names no content type stays typed as ciphertext; unless a readable copy
  is stored already, the next poll writes the ciphertext back over its text
  (`SecureIncoming.StoredPlaintextSurvives`).
* A binding row is keyed by the trimmed DID, a contact row by the DID as given, so an untrimmed DID
  breaks their agreement (`ContactStore.UpsertKeepsInv`, `Witnesses.UntrimmedDIDBreaksInvariant`).
* A DID that has lost its handle takes it back on the next message that names none
  (`ContactLookup.LostHandleIsTakenBack`).
* A synchronised message gives a time of first sight, so a contact's is that of its latest message; only its
  binding keeps the first one (`ContactLookup.SyncIsShown`).
* Moving an owner's rows cannot leave two current bindings for one handle, because of the partial unique
  index in `internal/store/schema.go`; what it can leave is a contact whose handle is not backed by a
  current binding (`Rebind.RebindKeepsInv`, `Witnesses.IncompatibleRebindIsReachable`).
* When the new owner is blank or the old one again, a rebind moves nothing and still deletes the old owner's
  outbox and sessions (`LocalState.Database.RebindLocalIdentityState`).
* A client that returns a message id of nothing but spaces leaves a sent row without a message id
  (`Outbox.SentWithoutID`, `OutboxProofs.FlushIssuesSoundOps`, `Witnesses.BlankMessageIDIsLost`).
* Retrying takes a row of any status, so a row that has been sent is sent again (`OutboxProofs.RetriedRow`).
* A message whose id has the form `idx:N` can make the merge drop a message that has no duplicate
  (`HistoryMerge.DedupIsFirsts`, `Witnesses.MadeUpKeyCollides`).
* Every load writes normalised handle fields back, and takes off at most two `wba://` schemes: with more of them
  each load changes the identity again (`StoredHandleLoads.SchemesAreTakenOffLater`). Setting the default, showing
  the current identity and listing load every entry without a full handle, so they write as well
  (`IdentityStore.Manager.SummaryFor`).
* When the configuration cannot be written after a promotion, only the index is written back, not the identity
  file that the load inside the promotion may have rewritten (`RecoveryFinalize.RestoreUndoesPromotion`,
  `Witnesses.RestoredRecoveryDiffers`). When that load cannot write, finalizing reports an error and the index stays
  promoted (`RecoveryFinalize.FinalizeOutcome`).
* Replacing a DID under an unchanged unique id writes the new identity file before the index names the new DID;
  stopping in between leaves the two in disagreement, and running the replacement again heals it
  (`IdentityReplacement.ReplaceIsHonestThroughout`, `IdentityRuns.RetryHeals`, `Witnesses.InPlaceChangeDisagrees`).
* The temporary name of a recovery depends on the final name only, so a temporary identity left over from
  an earlier recovery blocks the next one (`RecoveryFinalize.LeftoverBlocksRecovery`).
* Archived names are trimmed before they are looked up, so a name with space around it survives its own
  archiving (`RecoveryProofs.PlanCanBePromoted`, `Witnesses.SpacedNameSurvives`).
* With a DID domain of dots and spaces the stored handle fields alternate between two forms; a load applies the
  normalisation twice and does not notice (`StoredHandleLoads.AlternatingFieldsAreQuiet`).

## Model

| member | source | states |
|---|---|---|
| MessageStore.MessageTable.StoreMessage | internal/store/dao.go:12-24 | a message with a blank id, or a database error, changes nothing; otherwise the row under (message id, owner) becomes the merge of what was there and the record |
| MessageStore.MessageTable.StoreMessagesBatch | internal/store/dao.go:26-48 | a batch is stored as its records one after the other, or not at all |
| MessageStore.MessageTable.MarkMessagesRead | internal/store/query.go:191-211 | no row appears or goes, the read flag is raised exactly for the owner's rows with the given ids, no other column or row changes, and the count is the number of rows matched |
| MessageStore.RowIsFoldOfItsWrites | internal/store/dao.go:50-90 | a row depends only on the writes to its own key, in their order |
| MessageStore.MergeClosedForm | internal/store/dao.go:50-90 | after any writes to one key: text and type come from the last record that is not ciphertext, or from the last record when all are; the flags are the disjunction of all; COALESCE columns show their last value that is not NULL; metadata ignores ciphertext once a readable record was stored |
| MessageStore.TableClosedForm | internal/store/dao.go:50-90 | the same for every row of a table written from empty by any log, and a row exists exactly when its key was written |
| MessageStore.ReadFlagOverRuns | internal/store/dao.go:50-90 | over any interleaving of upserts and marks a row is read exactly when one of its records was read or a mark named it after it was first stored, and every other column is that of the upserts alone |
| MessageStore.DecryptedTextAndFlagsStay | internal/store/dao.go:50-90 | from any table and through any later writes, re-polled ciphertext changes neither text, type nor metadata of a readable row, and no raised flag falls |
| MessageRecords.RowShowsRecords | internal/store/dao.go:12-114 | over any records with one message id and owner: the row is read or encrypted exactly when one of them was, the sequence number, sending time and sender name are the last ones given, thread, direction, participants, group, title and credential those of the last record, text and type those of the last that counts, and the storing time that of the first or else the time of its call |
| MessageRecords.CallsAreRecords | internal/store/dao.go:12-24 | any calls of StoreMessage store the records that have an id and a thread and whose statement does not fail, in the order of the calls |
| MessageRecords.BatchIsRecords | internal/store/dao.go:26-48 | a batch adds its records to those stored before, in its order |
| MessageRecords.ReadFlagOfRecords | internal/store/dao.go:50-114 | over any interleaving of records and marks a message is read exactly when a record of it was, or a mark named it when it was there |
| SecureIncoming.DecryptOrderIsBySequence | internal/message/secure_incoming.go:22-75 | the client is handed every ciphertext of the list that has an object for its content, an id, a sender and a receiver, as often as it occurs, and nothing else: those with a sequence number above zero first, in ascending server order, then the others, ties by id |
| SecureIncoming.OutcomeIsMarked | internal/message/secure_incoming.go:166-205 | whatever the client answers the message is marked secure and keeps its ids, times and participants; only a decryption changes its text, type and kind, and a control message then shows nothing |
| SecureIncoming.KindFitsContent | internal/message/secure_incoming.go:166-205 | a decrypted message shows its text, or else its payload, or else its bytes, with the kind that fits; of the rest only its type, its marks and its state change |
| SecureIncoming.Persist | internal/message/service.go:860-970 | what polling and history write: the storable messages in order, in one batch whose failure is ignored |
| SecureIncoming.ViewIsShown | internal/message/service.go:860-970 | a message shown by polling or history is written with its own id, thread, text, type, times and flags under the caller as owner, outgoing exactly when history shows one the caller sent, and the row shows it |
| SecureIncoming.StoredPlaintextSurvives | internal/message/secure_incoming.go:166-205 | whatever is stored for the message: it survives every later poll of its ciphertext exactly when its plaintext names a content type of its own or a readable copy was there; its text is shown in the first case and without such a copy, and otherwise the copy stays |
| SecureIncoming.TextOutlivesRepolls | internal/store/dao.go:50-90 | a row survives all later ciphertext writes to its key exactly when it is not typed as ciphertext |
| ContactStore.Store.UpsertContact | internal/store/dao.go:356-488 | refused for a blank DID, rolled back on an error, and otherwise the four statements applied to both tables with some first holder of the handle cleared |
| ContactStore.Store.ClearFirstHolder | internal/store/dao.go:356-488 | only the first other contact that shows the handle loses it |
| ContactStore.UpsertKeepsIndex | internal/store/dao.go:490-544 | no statement of the call violates the unique index on current bindings, and no binding is removed |
| ContactStore.ClearedIsDetermined | internal/store/dao.go:356-488 | while no two contacts of an owner share a handle, looking at the first previous holder only is enough |
| ContactStore.UpsertKeepsInv | internal/store/dao.go:356-544 | one current binding per bound handle, one contact per handle and a current binding behind every contact's handle are kept exactly when the call names no handle or its DID is trimmed |
| ContactStore.TablesReplayLog | internal/store/dao.go:356-544 | after any run of calls with trimmed DIDs both tables equal a replay of the log: bound pairs are those ever named, the current DID of a handle is the last to name it, a contact shows the last handle named for it unless another DID took it since |
| ContactColumns.ContactShowsCalls | internal/store/dao.go:356-488 | after every call of a run a contact is there exactly when a call with a DID was for it; each text column shows the last value such a call gave that is not blank, the two flags the last value given, and the time of first sight the last one given or else that of the first call |
| ContactColumns.ContactSeenLast | internal/store/dao.go:356-488 | it was last seen at the time of the last call that was for it or took its handle away, or at the time given by the call that made the row |
| ContactColumns.BindingShowsCalls | internal/store/dao.go:490-544 | a binding is there exactly when a call named the handle for the DID; it was first seen in its first call, its source columns show their last value and its credential is that of its last call; it is current exactly when no later call names the handle, and last seen at the latest time of its last call and the later calls that name the handle |
| ContactLookup.ListDIDsByHandle | internal/store/dao.go:310-354 | the listing equals the binding rows whenever there are any, and is empty exactly when neither table knows the handle |
| ContactLookup.ListingLeadsWithLastNamer | internal/store/dao.go:310-354 | after any run the listing starts with the DID of the last call that named the handle and holds exactly the DIDs ever bound to it, the others in the order in which they were seen last |
| ContactLookup.ListingExists | internal/store/dao.go:310-354 | whatever the bindings are, the query for a handle has an answer |
| ContactLookup.MergePeerDIDs | internal/message/contact_sync.go:113-132 | the trimmed non-blank DIDs, current one first, each once in order of first occurrence |
| ContactLookup.MergedDIDsLeadWithCurrent | internal/message/contact_sync.go:113-152 | the current DID leads whenever there is one and no historical DID is lost |
| ContactLookup.SyncPeerHandle | internal/message/contact_sync.go:14-66 | writes the handle the message names, else the resolved one, else the server's, with its source columns through UpsertContact; asks the server exactly when both others are empty; on a failure, or when nobody knows a handle, changes nothing and returns the resolved one |
| ContactLookup.SyncIsShown | internal/message/contact_sync.go:14-66 | after a synchronised message the contact has been messaged, shows the handle, the source and now as both its times, and nothing else of it has changed; the binding is current and keeps its time of first sight |
| ContactLookup.HandleValueByText | internal/message/contact_sync.go:101-111 | a handle is reduced to what stands before the first dot, unless that is in front, of its trimmed lower-case text without its scheme |
| ContactLookup.ResolvedIsBest | internal/store/dao.go:276-308 | a DID resolves to the handle its contact shows; without one, the binding a handle is resolved from is current if any of the DID's is, and none that is alike was seen later |
| ContactLookup.SomethingResolves | internal/store/dao.go:276-308 | every DID of every store resolves to something |
| ContactLookup.LostHandleIsTakenBack | internal/message/contact_sync.go:14-66 | a DID that lost its handle becomes its sole current holder again on the next message without a handle |
| Rebind.UpdateOrIgnore | internal/store/dao.go:739-773 | whatever order the database visits the rows in, exactly those whose key and unique index entry are free under the new owner move |
| Rebind.EmptyOwnerIsRenamed | internal/store/dao.go:739-773 | into an owner without rows the move is an exact renaming |
| Rebind.RebindRoundTrip | internal/store/dao.go:739-773 | moving to an owner without rows and back restores the table |
| Rebind.IndexIsOneCurrent | internal/store/schema.go:187-191 | the partial unique index says the same as one current binding per owner and handle |
| Rebind.CurrentRowMoves | internal/store/dao.go:739-773 | a current binding moves exactly when the new owner has no current binding for the handle |
| Rebind.RebindKeepsInv | internal/store/dao.go:739-773 | every rebind keeps exactly one current binding per handle; the full contact invariant survives exactly when no moved contact meets another current DID for its handle and no contact that stays loses its binding |
| Rebind.RebindToEmptyOwnerKeepsInv | internal/store/dao.go:739-773 | with an owner that has no rows the contact invariant always carries over |
| LocalState.Database.RebindOwnerDID | internal/store/dao.go:739-773 | all six tables are rebound together or none is, and the counts are the old owner's row counts |
| LocalState.Database.ClearOwnerE2EEData | internal/store/dao.go:775-792 | removes exactly the owner's outbox rows and sessions and counts them, stopping at the first failing table |
| LocalState.RowCountIsLength | internal/store/dao.go:739-792 | a count is the length of any list that has each of the owner's rows once |
| LocalState.EventCountIsLength | internal/store/dao.go:739-792 | the same for the tables whose key does not hold the owner |
| LocalState.Database.RebindLocalIdentityState | internal/store/rebind.go:10-41 | without a database file nothing happens; end-to-end state goes, and only the old owner's, once the rebind has succeeded or had nothing to do; it goes without any table moving exactly when the old owner is not blank, the new one is blank or the same, and the deletes succeed |
| LocalState.NoRowIsLost | internal/store/dao.go:739-773 | for any second unique index a table keeps its row count, other owners' rows are untouched, and each old row has moved or stays because its key or its index entry is taken |
| LocalState.NoPlainRowIsLost | internal/store/dao.go:739-773 | in messages, contacts, groups and members an old row stays exactly when its key is taken |
| LocalState.NoBindingIsLost | internal/store/dao.go:739-773 | a binding stays exactly when its key is taken or, being current, the new owner has a current binding for its handle |
| LocalState.NoEventIsLost | internal/store/dao.go:739-773 | every relationship event of the old owner, and no other, changes owner; moving back restores the table exactly when the new owner had none |
| Outbox.OutboxIsSound | internal/store/dao.go:116-233 | over any interleaving of queue, flush, retry, drop and repair a sent row has a message id and no error, a failed row has an error code, and the attempt count equals the number of times the row was marked sent |
| Outbox.NeverMarked | internal/store/dao.go:148-174 | marks issued before a row exists do not count as its attempts |
| Outbox.RowsAreKept | internal/store/dao.go:116-233 | no row disappears, its owner, peer and plaintext never change, and attempts never decrease |
| Outbox.SentWithoutID | internal/store/dao.go:148-174 | over any interleaving, with marks of any kind, a row has a message id exactly when some mark that hit it carried one, and is sound exactly when it is not sent or some mark did |
| Outbox.OtherRowsUnchanged | internal/store/dao.go:116-233 | operations on other rows leave a row as it is |
| OutboxColumns.RowShowsOps | internal/store/dao.go:148-233 | over any interleaving each column of a row shows what the last statement for it gave, and what it was queued with when none gave anything; being sent clears every error column; the attempts are the marks that reached it |
| OutboxFlush.SecureOutbox.Queue | internal/message/secure_control.go:73-95 | inserts one queued row with no history; a taken id or an error changes nothing |
| OutboxRequests.NewRowIsInScope | internal/store/dao.go:199-253 | what is queued under one identity and credential is in scope of every command of the same identity, and, for a command without one, of the same credential, and of no other |
| OutboxFlush.SecureOutbox.Flush | internal/message/secure_control.go:116-209 | rows, stored messages and requests after a flush, for any client answers and any database errors |
| OutboxFlush.SecureOutbox.Drop | internal/message/secure_commands.go:100-126 | drops exactly a row in the caller's scope |
| OutboxFlush.SecureOutbox.Retry | internal/message/secure_commands.go:128-164 | queues a row in scope again, whatever its status was, and flushes the queue for its peer: rows, stored messages and requests afterwards; refused without a change for any other row or on an error |
| OutboxFlush.SecureOutbox.Repair | internal/message/secure_commands.go:350-393 | deletes the session found for the peer and queues its failed rows again, all of them on success and the first few on an error, and counts both; a failing delete stops everything |
| OutboxRequests.FlushSendsTheQueue | internal/message/secure_control.go:116-209 | the client is handed, oldest row first, of those of one age the one changed last first, and each once, exactly the queued rows in scope that are for the chosen peer, have an id and a peer, and hold text or JSON that decodes: the plaintext itself or the decoded payload, to the row's peer, with its outbox id as message and operation id |
| OutboxRequests.FlushByFields | internal/message/secure_control.go:116-209 | every listed row column by column: sent with the message id of the answer, its delivery and one more attempt; failed with send_failed and the hint retry on a refusal, invalid_payload and drop for JSON that does not decode, unsupported_original_type and drop for any other type; unchanged when it is for another peer or cannot be written |
| OutboxRequests.ListingExists | internal/store/dao.go:242-253 | whatever the rows are, the query for rows of one status in a scope has an answer |
| OutboxProofs.FlushOutcome | internal/message/secure_control.go:128-209 | every listed row ends sent with its message id, failed with a reason, or unchanged when it was skipped or its write failed; every other row is unchanged |
| OutboxProofs.RetriedRow | internal/message/secure_commands.go:128-164 | a retried row has the outcome of a queued one, even if it had been sent before, and is passed over exactly when it has no id, no peer or space around its peer |
| OutboxProofs.FlushIssuesSoundOps | internal/message/secure_control.go:128-209 | all operations of a flush are covered by the safety result exactly when none of its own requests whose row is then written is answered with a message id of nothing but space |
| OutboxProofs.RepairIssuesSoundOps | internal/message/secure_commands.go:350-393 | so does a repair |
| OutboxProofs.RepairRequeuesFailed | internal/message/secure_commands.go:350-393 | a repair requeues exactly the failed rows of the peer it has listed so far |
| OutboxRequests.SentMessageIsKept | internal/message/secure_control.go:116-209 | the message kept for a sent row is outgoing from the caller to the peer in the conversation of the two, shows the plaintext under the type of the row with its delivery for metadata, is read, encrypted and not typed as ciphertext, so no poll replaces it, and changes no other row |
| IdentityStore.Manager.LoadIndex | internal/identity/layout.go:87-130 | rewriting the flags entry by entry yields the normalised index |
| IdentityStore.Manager.Load | internal/identity/store.go:139-183 | reports what is stored and writes older handle fields back, the identity file before the index, each only if one of its fields changes; fails when it cannot write |
| IdentityStore.Manager.Save | internal/identity/store.go:13-126 | refused without a write for incomplete input, a name of another DID or a directory of another DID; otherwise the directory, the load for the creation time, the content, the index that was read before, and a last load, up to the point where writing stops |
| IdentityStore.Manager.ReplaceIdentity | internal/identity/store.go:287-436 | loads the identity, whose backfill stays even when the new DID or directory is foreign; otherwise directory, index and removal of the old directory in this order and a last load, up to the point where writing stops |
| IdentityStore.Manager.SummaryFor | internal/identity/store.go:459-498 | an entry with its full handle is reported as it is; any other is loaded, with the backfill of a load |
| IdentityStore.Manager.SetDefault | internal/identity/store.go:518-533 | only a live name becomes the default; its summary follows |
| IdentityStore.Manager.Current | internal/identity/store.go:500-516 | the summary of the default entry, with its backfill, or an error and no write exactly when there is no live default |
| IdentityStore.Manager.List | internal/identity/store.go:438-457 | the entries of the index as it was read, in strictly ascending order of names, summarised one after the other up to the first error |
| IdentityListing.ListIsComplete | internal/identity/store.go:438-498 | a completed list has every entry once, and an identity that has its directory to itself exactly as its own summary shows it; wherever a list stops only handle fields have changed; with writes enough it fails exactly when some entry cannot be summarised |
| IdentityCommands.LoadsOnlyRefresh | internal/identity/store.go:13-533 | wherever an operation with the loads inside it stops, the disk is one that its own writes pass through, with other handle fields; all of these writes are done once only the last load is missing |
| IdentityCommands.WritesAreCarriedOut | internal/identity/store.go:13-533 | the runs below make the writes the methods make, in their order, wherever they stop |
| IdentityIntegrity.NormalizeIsIdempotent | internal/identity/layout.go:87-111 | normalising is idempotent, and its fixed points are the indexes whose entries carry their own names, where exactly the default is flagged, and whose default is not left empty beside an entry called default |
| IdentityIntegrity.SaveKeeps | internal/identity/store.go:74-126 | wherever the writes of a save stop, the index is in saved form with an empty or live default, entries that share a directory share the DID, and every entry has its directory and identity file |
| IdentityIntegrity.SaveIsHonest | internal/identity/store.go:13-126 | a completed save leaves every identity file naming its entry's DID |
| IdentityIntegrity.SaveIsHonestThroughout | internal/identity/store.go:13-126 | that also holds at every point in between exactly when the save does not put a new DID into the entry's own directory |
| IdentityReplacement.ReplaceKeeps | internal/identity/store.go:287-436 | after each single write of a replacement, the removal of the old directory included, every entry still has its directory and identity file |
| IdentityReplacement.NothingLeftInOldDir | internal/identity/store.go:415-434 | no entry of the saved index is in the directory that is removed |
| IdentityReplacement.ReplaceIsHonest | internal/identity/store.go:287-436 | a completed replacement makes the linked entries agree with their identity file whatever state they were in |
| IdentityReplacement.ReplaceIsHonestThroughout | internal/identity/store.go:287-436 | identity files and index agree after every single write exactly when the DID stays or the new directory is none of the identity's own |
| IdentityReplacement.AliasesMoveTogether | internal/identity/store.go:334-429 | all entries with the old DID or directory move together, all others and the default are unchanged, and no entry keeps the old DID |
| IdentityReplacement.ReplacedDirectories | internal/identity/store.go:359-434 | the new directory holds the new identity, the old one is gone, no other has changed |
| IdentityReplaced.ReplaceThenLoad | internal/identity/store.go:287-436 | a completed replacement returns, and leaves in the new identity file and in every entry with the old DID or directory, the new DID and unique id, the given user id, display name and handles or the current ones where none is given, normalised, and the creation time there was or else now; the files of the input are there and the end-to-end state is not |
| IdentityRuns.PromotionKeepsDefault | internal/identity/recover.go:264-273 | promotion keeps the default live except when the default is a temporary name with space around it |
| IdentityRuns.PromotionKeeps | internal/identity/recover.go:223-282 | promotion keeps directories, agreement of DIDs and identity files |
| IdentityRuns.CommandKeeps | internal/identity/store.go:13-533 | each operation with the loads inside it, stopped after any number of writes, keeps the invariant of the store |
| IdentityRuns.EveryRunKeeps | internal/identity/store.go:13-533 | so does every sequence of save, load, replace, set-default and promote, each stopped anywhere |
| IdentityRuns.RetryHeals | internal/identity/store.go:287-436 | running the same replacement again from wherever it stopped, in one of its loads too, is allowed and ends with identity files and index in agreement |
| IdentityRuns.UndisturbedRunsAreHonest | internal/identity/store.go:13-533 | referential integrity over every run in which no in-place change of a DID was cut off: each entry's directory holds an identity file with the entry's DID |
| IdentityRuns.DefaultStaysChosen | internal/identity/store.go:118-124 | from an empty store on, there is a live default as soon as there is an identity |
| IdentityRuns.StoreFromNothing | internal/identity/store.go:139-183 | in every such store every identity loads with its entry's DID, can be summarised, and a current identity exists |
| IdentityLoad.LoadRefreshes | internal/identity/store.go:555-600 | wherever a load stops, it has changed handle fields of identity files and entries and nothing else |
| IdentityLoad.LoadReports | internal/identity/store.go:139-183 | what a load reports, field by field: the DID, directory and flag of the entry, and of the details those of the identity file, with the entry's where the file has none |
| IdentityLoad.LoadKeeps | internal/identity/store.go:555-600 | so it keeps the invariant of the store, the agreement of identity files and index, the names and the default |
| IdentityLoad.LoadLeavesOthers | internal/identity/store.go:555-600 | and leaves every other entry and every other directory as it was |
| IdentityLoad.SecondLoadExactly | internal/identity/store.go:139-183 | when the DID names a domain that does not end badly, the second load of an identity reads the same and writes nothing exactly when the stored handle fields, normalised once, fit |
| IdentityLoad.SecondLoadWritesNothing | internal/identity/store.go:139-183 | whatever the domain, it does when the stored handle fields fit as they are, and always when they are well-formed |
| IdentityRoundTrip.FilesAreWritten | internal/identity/store.go:74-104 | after the writes of one identity its directory holds the token, the document and each key of the input under its own file name |
| IdentityRoundTrip.OtherFilesAreKept | internal/identity/store.go:74-104 | every file the input does not give stays as it was, so saving without a key does not lose one |
| IdentityRoundTrip.SaveThenLoad | internal/identity/store.go:13-183 | a completed save returns the name, directory, DID and details that were saved, the handle fields normalised again; when those of the input fit they are as saved, and loading again finds the same and writes nothing; the files of the input are there, and the identity is the default if there was none |
| IdentityRoundTrip.SaveLeavesOthers | internal/identity/store.go:13-126 | a completed save leaves every other entry as it was, and of its directory, unless shared, all but the handle fields; those too when nothing could be loaded under the name before |
| IdentityRoundTrip.SetDefaultChooses | internal/identity/store.go:518-533 | the chosen identity becomes the default and alone carries the flag; nothing else changes but its own handle fields, and those only when its full handle was blank |
| Recovery.BuildRecoverPlan | internal/identity/recover.go:85-144 | the partition by canonical handle, the sorted candidates, the refused final name and the chosen temporary name |
| RecoveryCandidates.CandidatesByText | internal/identity/recover.go:85-144 | a listed identity is a candidate exactly when its full handle, or its bare handle at the domain of its DID, is the handle that is recovered but for letter case and space around it, and excluded exactly when it is not |
| RecoveryCandidates.SavedIsFound | internal/identity/recover.go:85-144 | an identity whose completed save had fitting handles is a candidate of every plan for its full handle made from a completed list, and excluded from every other |
| Recovery.OldOwnerDIDsInMergeOrder | internal/identity/recover.go:68-83 | the first occurrences of the candidates' trimmed DIDs |
| Recovery.PromoteRecoveredHandle | internal/identity/recover.go:223-282 | refused without a write for a blank or unknown name or a final name in use elsewhere; otherwise one write of the promoted index and a load of the identity, and whether the default moved |
| Recovery.Service.FinalizeRecoveredHandle | internal/identity/service.go:704-748 | the active name changes only when promotion and load succeed, it was archived and the configuration can be written; when only the configuration fails, the earlier index is written back |
| RecoveryOrder.TransitiveUnlessStraddled | internal/identity/recover.go:300-331 | on a set of values the comparison is transitive, and so a total preorder, exactly when no text that is no time stands by its letters between two times that are not in this order themselves |
| RecoveryOrder.CompareIsAntisymmetric | internal/identity/recover.go:300-331 | swapping the two values negates the result, for all values |
| RecoveryOrder.UniformIsOrdered | internal/identity/recover.go:300-331 | so it is a preorder on blank and valid times, and on values none of which is a time; blank values come last |
| RecoveryOrder.MixedValuesCycle | internal/identity/recover.go:300-331 | with a text that is no time the comparison can be cyclic: three concrete values |
| RecoveryOrder.CandidatesAreInOrder | internal/identity/recover.go:113-124 | where the comparison is a preorder the candidates are a permutation of the matching identities, none in front of one that sorts before it |
| RecoveryOrder.BeforeIsOlder | internal/identity/recover.go:113-124 | for blank and valid times that is: oldest first, ties by name, no time as the newest |
| RecoveryOrder.MergeOrderIsByAge | internal/identity/recover.go:68-83 | the DIDs to merge are those of the matching identities, each once, in the order of the first candidate that has it |
| RecoveryProofs.ListMakesPlan | internal/identity/store.go:438-457 | a completed list names the live identities of the disk it leaves, each once, which is what planning needs |
| RecoveryProofs.PlanCoversIdentities | internal/identity/recover.go:85-144 | candidates and excluded identities are a partition of the live ones, and the final name is not excluded |
| RecoveryProofs.PlanCanBePromoted | internal/identity/recover.go:223-282 | when the temporary name was free promotion is never refused; live are then exactly the excluded identities and the final name, standing for the recovered identity, if and only if no archived name is blank or has space around it; there is a live default |
| RecoveryProofs.NamesSurvive | internal/identity/recover.go:256-273 | every name that was live has a live successor, and the new default is the successor of the old one |
| RecoveryFinalize.RecoveryEndToEnd | internal/identity/service.go:704-748 | plan, save and finalize in one: on success exactly the excluded identities and the final name are live, the final name stands for the recovered identity, the default is the live successor of the old one, and an active name that was live is live after; when the configuration write fails, index and active name are what they were before promotion, and the disk is exactly when loading the temporary identity would not rewrite its file |
| RecoveryFinalize.FinalizeOutcome | internal/identity/service.go:704-748 | for any number of writes: when finalizing succeeds, what the active name becomes, when index and disk are restored, and that in every other failure after the first write the index stays promoted |
| RecoveryFinalize.PromotedCanBeLoaded | internal/identity/recover.go:274-281 | promotion succeeds exactly when the writes of the load that ends it, two at most, can follow the write of the index |
| RecoveryFinalize.RestoreUndoesPromotion | internal/identity/service.go:729-746 | writing the earlier index back restores the index always, and the disk exactly when the load inside the promotion did not rewrite the identity file |
| RecoveryFinalize.FittingInputIsQuiet | internal/identity/store.go:13-126 | after a save of handles that fit there is nothing for such a load to rewrite |
| RecoveryFinalize.LeftoverBlocksRecovery | internal/identity/recover.go:131-132 | of two recoveries of one handle, planned with any identities, the second is refused when the first has saved its temporary identity and was not promoted |
| Naming.SanitizedIsFixed | internal/identity/layout.go:62-77 | sanitised names are clean and lower case, and exactly those are left alone |
| Naming.ChooseNamedIdentity | internal/identity/store.go:642-664 | a requested name is returned sanitised without a freshness check; otherwise, with fewer than 999 identities, the first free candidate is returned before the clock is used |
| Naming.UniqueBackupDir | internal/identity/store.go:678-684 | the loop ends for every finite set of existing paths and returns the first free candidate |
| HandleInput.FullHandleIsFixed | internal/identity/handle_input.go:18-56 | a normalised full handle normalises to itself, whatever the default domain, exactly when the text it was made from has no scheme and no space in front of its local part and no domain that ends in a dot or a space once its last dot is dropped |
| HandleInput.NormalizeByText | internal/identity/handle_input.go:18-56 | which texts are accepted, and the parts each is normalised to |
| Handles.WellFormedIsFixed | internal/identity/handle_input.go:18-56 | for input without inner space, with at most one scheme and no domain ending in two dots this always holds |
| HandleInput.CompleteBareIsIdempotent | internal/identity/handle_input.go:58-82 | completing twice is completing once, except exactly for a bare handle with a space after the scheme and for one that gets a default domain ending in a space |
| Handles.FullHandleStaysExplicit | internal/identity/handle_input.go:58-82 | a full handle is never completed again |
| StoredHandleInput.StoredFieldsIdempotent | internal/identity/handle_input.go:84-138 | the stored handle fields are stored unchanged again exactly when the input fits, a condition on the text of the two fields and the DID's domain |
| StoredHandleInput.StoredFullByText | internal/identity/handle_input.go:121-138 | trying without a default and then with the DID's domain equals trying with the domain at once |
| StoredHandleInput.WellFormedFieldsFit | internal/identity/handle_input.go:84-138 | fields without inner space, with at most one scheme and no domain ending in two dots always fit |
| StoredHandleLoads.QuietExactlyIfFits | internal/identity/store.go:139-183 | when the DID names a domain that does not end badly, the next load reports the same and changes nothing exactly when the fields, normalised once, fit |
| StoredHandleLoads.SecondLoadIsQuiet | internal/identity/store.go:139-183 | whatever the domain, it does when the fields fit as they are |
| StoredHandleLoads.WellFormedSecondLoadIsQuiet | internal/identity/store.go:139-183 | so it does for all well-formed fields |
| StoredHandleLoads.SchemesAreTakenOffLater | internal/identity/store.go:139-183 | a handle with three schemes is reported with one by the first load and with none by the second, which writes again |
| StoredHandleLoads.AlternatingFieldsAreQuiet | internal/identity/store.go:555-600 | with a domain that ends badly a quiet load does not need stable fields: two forms that alternate |
| StoredHandleLoads.DomainlessFieldsAreQuiet | internal/identity/store.go:555-600 | nor with a DID that names no domain: a handle of nothing but a scheme, next to a full handle that is rejected the second time |
| HistoryMerge.MergeDirectHistory | internal/message/service.go:1063-1104 | one list empty: the other one; otherwise the newest messages of the deduplicated concatenation |
| HistoryMerge.DedupIsFirsts | internal/message/service.go:1071-1082 | the loop keeps exactly the first message of each id and every message without an id, if and only if no real id equals a key made up for such a message |
| HistoryMerge.MergedHistoryIsNewest | internal/message/service.go:1063-1104 | unless a real id equals a key made up for a message without one, the result is the newest part of the union in order: no id repeats, and no kept message ranks below a dropped one |
| HistoryMerge.NotOlderByFields | internal/message/service.go:1083-1122 | newest means the higher sequence number, none counting as 0, then the later of sending, creation or storing time by its letters, then the greater id |
| HistoryMerge.OrdinaryHistoryIsNewest | internal/message/service.go:1063-1104 | in particular when no message has an id of the form idx:N |
| HistoryMerge.CachedCopyWins | internal/message/service.go:1063-1082 | a cached copy wins over a remote message with its id |
| HistoryMerge.MergeInboxMessages | internal/message/group_service.go:828-847 | the newest of both lists, ties in the order of concatenation |
| HistoryMerge.InboxIsLatest | internal/message/group_service.go:828-847 | the merged inbox has the latest messages of both lists by sending time, or storing time where there is none, the latest first, as many as the limit allows |
| HistoryMerge.SortIsMerge | internal/message/group_service.go:828-847 | sorting two sorted lists together is the stable merge |
| HistoryMerge.TruncatingFirstIsSafe | internal/message/group_service.go:828-847 | cutting each list to its newest k first gives the same newest k in the same order |
| AttachmentPaging.FindAttachmentSelection | internal/message/attachment.go:150-192 | the first matching message decides |
| AttachmentPaging.FindByFields | internal/message/attachment.go:150-192 | the first message with the requested id under either name decides: its only attachment, or the first with the requested id, comes with the message's ids, sender and caption, and each way in which there is none has its own error |
| AttachmentPaging.MatchIsDecisive | internal/message/attachment.go:150-192 | a matching message never yields the not-found error that makes the search go on |
| AttachmentPaging.FixedPagesPageThrough | internal/message/attachment.go:194-217 | pages of any fixed size satisfy what the search needs of a pager |
| AttachmentPaging.FindWithPaging | internal/message/attachment.go:194-217 | ends after at most one page per message and gives the selection or error of searching the whole list at once |
| NotifyDedupe.DedupeCache.IsDuplicate | scripts/hermes_notify_adapter.py:64-69 | true only for a key remembered less than the TTL ago; false for such a key only when at least max_entries - 1 other keys were remembered no earlier |
| NotifyDedupe.DedupeCache.Remember | scripts/hermes_notify_adapter.py:71-83 | the cache keeps at most max_entries entries, each with the expiry of its last remember |
| NotifyDedupe.VictimIsPushedOut | scripts/hermes_notify_adapter.py:71-78 | every entry that stays was remembered no earlier than the evicted one |
| NotifyDedupe.PutKeepsInv | scripts/hermes_notify_adapter.py:71-78 | remembering keeps the relation between cache and history |
| NotifyHandler.Adapter.HandleNotify | scripts/hermes_notify_adapter.py:127-172 | an id is answered as a duplicate exactly when it was forwarded successfully less than the TTL ago and is among the last max_entries successful forwards |
| NotifyHandler.WindowMembers | scripts/hermes_notify_adapter.py:55-83 | under the handler the cache is a sliding window over the successful forwards |
| NotifyHandler.FailedForwardStaysRetryable | scripts/hermes_notify_adapter.py:150-170 | an id that was no duplicate and was not forwarded is no duplicate at any later check, whatever other ids were forwarded in between |
| NotifyHandler.ForwardStaysDuplicate | scripts/hermes_notify_adapter.py:150-170 | a forwarded id is a duplicate exactly until its time is up or max_entries other ids have been forwarded |
| NotifyHandler.EventRing.AppendEvent | scripts/host_notify_webhook_server.py:92-97 | the ring holds the newest events of the whole history |
| NotifyHandler.EventRing.ListEvents | scripts/host_notify_webhook_server.py:99-103 | the newest events, oldest first, as many as asked for and kept |
| KeyScalar.PadScalarBytes | internal/identity/key_compat.go:211-215 | exactly 32 bytes: the input after zeros |
| KeyScalar.PaddingKeepsScalar | internal/identity/key_compat.go:191-215 | padding keeps the big-endian integer, so a scalar is accepted exactly when it is accepted as padded, and that exactly from 1 to one less than the order |
| KeyScalar.PaddingIsCanonical | internal/identity/key_compat.go:211-215 | two encodings are padded to the same bytes exactly when they encode the same integer |
| Distinct.FirstOccurrencesSpec | internal/identity/recover.go:68-83 | a seen map with a result list keeps exactly the non-empty elements, each once, in order of first occurrence |
| Witnesses.UntrimmedDIDBreaksInvariant | internal/store/dao.go:356-544 | one call with a space before the DID breaks the contact invariant |
| Witnesses.IncompatibleRebindIsReachable | internal/store/dao.go:739-773 | after two calls a rebind keeps one current binding per handle and breaks the contact invariant |
| Witnesses.InPlaceChangeDisagrees | internal/identity/store.go:359-384 | a new DID under the same unique id is allowed, and stopping after two writes leaves file and index in disagreement |
| Witnesses.SpacedNameSurvives | internal/identity/recover.go:238-262 | an archived name with a space in front is live after the promotion |
| Witnesses.RestoredRecoveryDiffers | internal/identity/service.go:729-746 | a recovered identity with three schemes in its handle: after a failed configuration write the index is restored and the identity file is not |
| Witnesses.BlankMessageIDIsLost | internal/message/secure_control.go:128-209 | a client that answers with a space leaves a sent row without a message id |
| Witnesses.MadeUpKeyCollides | internal/message/service.go:1071-1082 | three messages of which the one with the id idx:1 is dropped although no other has that id |

## Left out

- SecureIncoming.StoredPlaintextSurvives: speaks of plaintexts with a body that are no control messages; control messages and empty plaintexts are never shown or stored as text.
- StoredHandleLoads.SecondLoadIsQuiet: one direction only, because without an orderly domain the converse is false (StoredHandleLoads.AlternatingFieldsAreQuiet, DomainlessFieldsAreQuiet); with one, StoredHandleLoads.QuietExactlyIfFits is exact.
- RecoveryOrder.CandidatesAreInOrder: speaks of the values on which the comparison is a preorder; on the others Go's sort has no specified result.
- The conversion of old private key files when an identity is loaded, and the messages of errors: two conflicts of a replacement are one error of the same kind.
- NotifyHandler.Adapter.HandleNotify: requests are handled one after the other; two concurrent requests with one id can both be forwarded, because the check and the remember are two critical sections.
- HistoryMerge.MergedHistoryIsNewest: the branch for one empty list returns the other list cut but neither sorted nor deduplicated, so the result speaks of two non-empty lists.
- Strings are sequences of Unicode characters: lower-casing covers ASCII letters only, and invalid UTF-8 is not modelled.
- Times in the database are integers, other times opaque strings; the wall clock and generated ids are parameters.
- A file write is one step: torn writes, file modes and path syntax are not modelled, and directory names are taken to be plain path components.
- UpdateJWT and UpdateDisplayName: one field of one identity.
- Legacy import and the backup copies before a replacement or recovery: file copying that does not touch the live store.
- Group tables and the group cache: whole-row replacements, no merge.
- The inbox query, schema migrations and MergeRecoveredHandleLocalState.
- The partition of ids in MarkRead and the key filter of public.go: one branch per element.
- The contents of session files, and all cryptography: the end-to-end client is an oracle.
- HTTP, WebSocket, bridge and service plumbing, configuration resolution and command wiring.

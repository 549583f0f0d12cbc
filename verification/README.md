# Verified model of the MitM scheduler service

The repository is a Go service that schedules jobs, moves failed packages through a dead letter queue, keeps
encrypted credentials and maps incoming fields to target fields. This project models the parts of it whose
guarantees concern whole runs or whole data structures, and proves what they guarantee. `dafny verify
dfyconfig.toml` checks everything.

| module | models |
|---|---|
| `Base` | bytes and optional values |
| `EditDistance`, `Levenshtein`, `AutoMap` | the distance table of `levenshtein`, name normalisation, the choice of targets by `handleAutoMap` |
| `RunLifecycle`, `RunInvariants`, `RunTheorems`, `RunRows`, `RunOutcomes`, `RunSteps`, `Scheduler` | the life of program runs as a step system over any number of interleaved calls, its invariant, what follows for every interleaving, what each step achieves, and the `Scheduler` object whose locked sections are the steps |
| `Envelope`, `KeyRotation`, `RotationOverlap` | password and envelope encryption over an abstract AEAD, and the rotation of `storage_keys`, request by request and with requests that overlap |
| `FlatTable`, `FlatBuilder`, `DlqEncoding` | reading FlatBuffers, the downward-growing builder, and the dead letter queue's encoder and accessors |
| `Requeue` | `RequeueDLQEntries` in its transaction |
| `AuthLimiter`, `AuthOverlap` | the limiter of failed logins in `authenticate`, call by call and as interleaved locked sections |
| `Restore` | backup and restore of the nine configuration tables, and what a restore does to the run history |
| `Bootstrap` | `bootstrapAdmins` on encrypted role rows |

How the outside world enters: random bytes, clock values, the order in which a query returns rows, where a read
breaks off unnoticed, and whether the database accepts a statement are parameters. A theorem that holds for some
of them only says so in its conditions. AES-GCM is a pair of
functions that satisfies sections 2.1 and 2.2 of RFC 5116 (the sealing key and nonce give the plaintext back); in
addition no other key opens a ciphertext. `Envelope.StandardIsPossible` shows that these assumptions can be met
together. Go's `int64` is bounded where a value is stored (`DlqEncoding.Int64`),
and Go's conversions to unsigned words wrap around explicitly (`FlatTable.Uint16` and its neighbours).

Places where the code does something else than its comments or names say. The model follows the code, and each
has its lemma:

- A program that is configured to restart never does if its ID is positive: the restart call runs before the
  deferred cleanup and meets its own reservation (`RunTheorems.RestartAlwaysSkips`).
- Once `cmd.Start` has failed, the program is refused until the process ends
  (`RunTheorems.FailedStartBlocksForever`, reached in `RunTheorems.StartCanFail`).
- `Pause` can return while a process of a call already under way is alive (`RunTheorems.PauseCanMissAProcess`);
  `RunTheorems.AliveAfterPause` says which processes those are.
- The cleanup of orphaned runs comes after the HTTP server is up and also closes rows of live runs, exactly those
  not closed yet (`RunRows.CleanupClosesUnfinishedRuns`, reached in `RunRows.CleanupMeetsALiveRun`); the
  waiter's own closing later replaces what it wrote (`RunOutcomes.RowKeepsTheResult`).
- Deleting a program, or restoring a backup, deletes its runs by cascade without a look at live ones. A live run then
  ends without a row to say so, and no error (`RunRows.LiveRunLosesItsRow`); `RunRows.RowIsThereUnlessDeleted` says
  exactly when a run has its row. A restore clears the history of every scheduled program
  (`Restore.RestoreCostsTheHistory`), even if it stops at a later table.
- Key rotation never asks whether its SELECT broke off, and misses rows inserted after it. It then reports success
  with rows left under the old key (`KeyRotation.ShortReadLeavesRowsBehind`); `KeyRotation.RotationCoversIff` says
  exactly when it covers the table.
- Nothing serialises rotations. Two that overlap can both report success and leave a row under the other's key
  (`RotationOverlap.OverlapLeavesARowBehind`); no key is ever lost (`RotationOverlap.OverlapKeepsDeks`), and success
  means what it should where no other request's row steps overlap (`RotationOverlap.SuccessAlone`).
- The server takes MASTER_KEY as it is while the database layer decodes it from base64 when it can; where that
  makes a difference a rotation moves no row (`KeyRotation.EncodedKeyMovesNothing`).
- Readers that take the key from the environment, and the role rows, stay on the old key after a rotation
  (`KeyRotation.ReadersOnTheEnvironment`, `KeyRotation.RoleRowsAreLeftBehind`), and the next start under the new
  key then overwrites the roles of every configured administrator (`Bootstrap.RotatedKeyLosesRoles`).
- A dead letter entry whose package row is gone is deleted without anything becoming pending
  (`Requeue.DanglingReferenceLosesEntry`).
- Failed logins that overlap count as one (`AuthOverlap.OverlappingFailuresCountOnce`), so overlap lifts the limit
  (`AuthOverlap.NoBoundWithOverlap`).

The UPDATE statement at internal/http/server_keyrotation.go:129 has lost its placeholders; the model lets it set
`wrapped_key` of the row with that id.

## Model

| member | source | states |
|---|---|---|
| Levenshtein.Levenshtein | internal/http/server_transformation.go:330-358 | the in-place table returns the edit distance of two byte strings: a script of that many insertions, deletions and substitutions exists and none is shorter |
| Levenshtein.DistOfPrefixes | internal/http/server_transformation.go:341-355 | the recurrence by which each cell follows from its three neighbours |
| EditDistance.DistIsEditDistance | internal/http/server_transformation.go:329-358 | a number is the length of a shortest script exactly if it is the table's value |
| EditDistance.NoShorterScript | internal/http/server_transformation.go:341-355 | no script at all, with edits at any positions in any order, beats the table |
| EditDistance.ShortestScript | internal/http/server_transformation.go:341-355 | a script as long as the table's value is read off its choices |
| EditDistance.ApplyMovesByOne | internal/http/server_transformation.go:341-355 | a single edit anywhere in the string moves the distance by at most one, up or down |
| EditDistance.ZeroIffEqual | internal/http/server_transformation.go:330-358 | distance zero exactly for equal strings |
| EditDistance.Symmetric | internal/http/server_transformation.go:330-358 | symmetry, by undoing a shortest script backwards |
| EditDistance.TriangleInequality | internal/http/server_transformation.go:330-358 | d(a,c) <= d(a,b) + d(b,c), by composing shortest scripts |
| AutoMap.SeparatorsAndCaseAreIgnored | internal/http/server_transformation.go:360-366 | a name with a separator anywhere, or with a capital A to Z instead of the small letter, has the same normal form |
| AutoMap.NormalFormByByte | internal/http/server_transformation.go:360-366 | byte by byte: A to Z become a to z, underscore, hyphen and space vanish, every other byte is kept in its place |
| AutoMap.NormalFormIsFixed | internal/http/server_transformation.go:360-366 | normal forms have no capitals and no separators, and exactly those strings are left alone |
| AutoMap.FindTarget | internal/http/server_transformation.go:406-419 | the search loop finds the earliest target of minimal distance within three edits, and nothing exactly if all are further away |
| AutoMap.ChoiceIsUnique | internal/http/server_transformation.go:410-419 | that description determines the target |
| AutoMap.AutoMap | internal/http/server_transformation.go:404-436 | the rules created by the whole loop, with the database refusing any of them |
| AutoMap.RulesAreTheChoices | internal/http/server_transformation.go:406-436 | a rule is created exactly if it maps a requested field to its choice and the database stored it |
| AutoMap.RulesFollowTheFields | internal/http/server_transformation.go:406-436 | the rules come in the order of the requested fields, at most one for each, and none is missing |
| AutoMap.MappedIffWithinThreeEdits | internal/http/server_transformation.go:414-418 | a field is mapped exactly if a script of at most three edits leads to the normal form of some target |
| AutoMap.ChosenByScripts | internal/http/server_transformation.go:410-419 | three edits or fewer lead to the chosen target, no fewer to any other, and more to every earlier one |
| AutoMap.SameNameWins | internal/http/server_transformation.go:406-419 | the first target of the same normal form is chosen whenever there is one |
| RunInvariants.InvPreserved | internal/scheduler/scheduler.go:111-239 | every step of every call keeps ownership of `running`, exact maps, the group count, row closing and restart skipping |
| RunInvariants.InvAlways | internal/scheduler/scheduler.go:111-239 | the invariant in every state of every interleaving |
| RunInvariants.OwnershipPreserved | internal/scheduler/scheduler.go:114-136 | reservations and releases keep at most one owner per positive ID, and `running` exact |
| RunInvariants.MapsExactPreserved | internal/scheduler/scheduler.go:184-187 | `activeCmds` and `activeRuns` hold exactly the registered runs that have not been cleared |
| RunInvariants.GroupPreserved | internal/scheduler/scheduler.go:183-197 | the WaitGroup counter is the number of calls between Add and Done |
| RunInvariants.RowsAgreePreserved | internal/scheduler/scheduler.go:128-223 | each run row belongs to one call and is closed as far as its call has come |
| RunTheorems.AtMostOneRun | internal/scheduler/scheduler.go:114-123 | two launches or live runs of one positive ID never coexist, in any interleaving |
| RunTheorems.RunningIsExact | internal/scheduler/scheduler.go:114-204 | `running[id]` holds exactly for launches in progress, live runs and failed starts |
| RunTheorems.OnlyTheOwnerDeletes | internal/scheduler/scheduler.go:130-204 | whatever step removes `running[id]` is a step of the call that owns it |
| RunTheorems.FailedStartBlocksForever | internal/scheduler/scheduler.go:169-174 | after a failed start every later call of that program is skipped, whatever happens in between |
| RunTheorems.StartCanFail | internal/scheduler/scheduler.go:169-174 | a concrete interleaving that gets there |
| RunTheorems.CallsEnd | internal/scheduler/scheduler.go:111-239 | in any interleaving a call, with its waiter, takes at most thirteen steps |
| RunTheorems.GroupCountsRegisteredRuns | internal/scheduler/scheduler.go:183-204 | the WaitGroup counter is at least the number of registered runs in every reachable state |
| RunTheorems.MapsAreExact | internal/scheduler/scheduler.go:176-201 | both maps hold exactly the runs between registration and cleanup, with their program and one process |
| RunTheorems.PauseWaitsForRegisteredRuns | internal/scheduler/scheduler.go:355-370 | when the wait is over both maps are empty, and a run registered at its start has issued its one closing statement and left; this still holds whenever `Pause` returns |
| RunTheorems.PauseCanMissAProcess | internal/scheduler/scheduler.go:169-183 | a concrete interleaving in which the wait is over and a process is alive |
| RunRows.RowClosedExactlyOnce | internal/scheduler/scheduler.go:128-223 | for each run one closing statement is issued, by the start-failure path or by the waiter; its row, while there, names its program (none for IDs that are not positive), holds nothing but what the cleanup wrote until then, and success exactly for exit code 0 after |
| RunOutcomes.RowKeepsTheResult | internal/scheduler/scheduler.go:206-223 | whatever happens after a process has ended, even a late cleanup, its row, while it is there, holds its exit code and success once that is stored, and -1 for errors that are not exit errors |
| RunRows.RowIsThereUnlessDeleted | internal/http/server.go:468 | a run's row is there exactly if its program has not been deleted since the row was made; runs without a program keep theirs |
| RunRows.EarlierRowIsThereUnlessDeleted | internal/http/server.go:468 | the row of an earlier process is there exactly if no deletion since has named its program |
| RunRows.DeletedForGood | internal/db/db.go:222-225 | a run whose row is gone never gets it back |
| RunRows.LiveRunLosesItsRow | internal/http/server.go:468 | a concrete interleaving in which a live run loses its row, fails, is closed without an error, and is recorded nowhere |
| RunRows.RowsAlwaysAccounted | internal/scheduler/scheduler.go:128-223 | every row there is belongs to a run of this process, or to an earlier process and is changed by the cleanup only |
| RunRows.OpenRowsAreUnfinishedRuns | internal/scheduler/scheduler.go:128-223 | with all closings stored, the open rows are those of launches in progress and unfinished runs the cleanup has not met, and before the cleanup those an earlier process left open |
| RunRows.EarlyCleanupIsExact | cmd/scheduler/main.go:278-282 | a cleanup before the first launch leaves no row open, and from then on the open rows are exactly those of launches in progress and unfinished runs |
| RunRows.CleanupLeavesNoneOpen | cmd/scheduler/main.go:279 | the cleanup leaves no row open, loses none, and changes exactly the open ones |
| RunRows.CleanupClosesUnfinishedRuns | cmd/scheduler/main.go:279 | of this process's runs it closes exactly the unfinished ones and those whose closing was refused, as not started |
| RunRows.CleanupMeetsALiveRun | cmd/scheduler/main.go:226-279 | a concrete interleaving in which a live run's row is closed by the cleanup, and then holds the real outcome once the waiter has closed it |
| RunTheorems.RestartAlwaysSkips | internal/scheduler/scheduler.go:233-237 | a restart call of a positive ID is skipped, never makes a run, and never has a restart of its own |
| RunTheorems.RestartBranchIsReached | internal/scheduler/scheduler.go:233-237 | a concrete interleaving in which the restart call is made and skipped |
| RunOutcomes.RestartsFollowFailures | internal/scheduler/scheduler.go:233-237 | a restart call only follows a run of the same program, which asks for restarts and whose process has ended without success |
| RunTheorems.CancelledIsSticky | internal/scheduler/scheduler.go:316-332 | `Cancelled` never goes back to false while the run is registered |
| RunTheorems.StoppedRunIsNotRestarted | internal/scheduler/scheduler.go:225-237 | a run marked before its waiter reads the flag never reaches the restart branch |
| RunSteps.ReservedIffFree | internal/scheduler/scheduler.go:114-123 | in any interleaving the check lets a call through exactly if its program has no positive ID or no other call holds that ID, and else skips it; calls of other programs never matter |
| RunSteps.FiringMakesACall | internal/scheduler/scheduler.go:96-98 | a firing or trigger is one more call of that program, and nothing else |
| RunSteps.OnlyLoadedProgramsFire | internal/scheduler/scheduler.go:77-108 | at any time exactly the programs of the last reload can fire, none before the first, after one that failed, or once cron has been stopped |
| RunSteps.EntriesNameTheProcess | internal/scheduler/scheduler.go:169-187 | both maps name, for every registered run, the process that its own call has started |
| RunSteps.StopJobMarksItsRun | internal/scheduler/scheduler.go:316-332 | stopping a job marks the run it picks and leaves every other entry and field alone |
| RunSteps.OnlyStopJobMarks | internal/scheduler/scheduler.go:316-332 | no run is ever marked but by such a stop |
| RunSteps.StopJobPreventsRestart | internal/scheduler/scheduler.go:225-237 | a run that is stopped before its waiter reads the flag never gets a restart |
| RunSteps.RestartedIff | internal/scheduler/scheduler.go:206-237 | a waiter makes a restart call, one and of the same program, exactly if the program asks for it, the process ended without success, and the flag was not set when the waiter looked |
| RunSteps.EveryOutcomeIsPossible | internal/scheduler/scheduler.go:114-223 | a call meets no condition but its own progress: any fresh run ID, process ID and exit result is possible at its point |
| RunSteps.EveryCallCanGoOn | internal/scheduler/scheduler.go:111-239 | in every reachable state each call that is not over can take a step, or the restart it waits for can |
| RunSteps.EveryCallCanEnd | internal/scheduler/scheduler.go:111-239 | from every reachable state there is a way on which the call and its waiter come to their end, so nothing deadlocks |
| Scheduler.Scheduler.Reserve | internal/scheduler/scheduler.go:114-123 | the check at the head of `RunProgram`: it refuses exactly a positive ID that is running, and else adds the ID and nothing more; this is the step TryReserve |
| Scheduler.Scheduler.Release | internal/scheduler/scheduler.go:130-132 | the step Release |
| Scheduler.Scheduler.Register | internal/scheduler/scheduler.go:176-187 | the step Register, with a fresh entry that is not cancelled |
| Scheduler.Scheduler.ReadFlag | internal/scheduler/scheduler.go:225-230 | the flag of the run, false if the run is gone |
| Scheduler.Scheduler.Clear | internal/scheduler/scheduler.go:198-204 | the step Clear |
| Scheduler.Scheduler.StopJobByName | internal/scheduler/scheduler.go:316-332 | marks one registered run of that name and nothing else, or reports that there is none |
| Scheduler.Scheduler.GetActivePIDs | internal/scheduler/scheduler.go:305-313 | the names are exactly those of registered runs, each with the process ID of a run of that name |
| Scheduler.Scheduler.Reload | internal/scheduler/scheduler.go:77-108 | the step Reload: a fresh cron with the loaded programs, empty and off if loading fails |
| Scheduler.AcceptedAre | internal/scheduler/scheduler.go:94-104 | the programs that can fire are exactly the enabled ones whose expression cron accepts, each as often as it was loaded |
| Envelope.Encrypt | internal/crypto/crypto.go:48-79 | the bytes: salt, nonce, and the plaintext sealed with this nonce under the key derived from this salt; they decrypt to it under exactly the passwords that derive the same key |
| Envelope.DecryptOfLayout | internal/crypto/crypto.go:82-103 | `Decrypt` takes that layout apart again |
| Envelope.DecryptGives | internal/crypto/crypto.go:82-103 | for any data: 16 bytes of salt and 12 of nonce in front of what is opened, an error if there are fewer or it does not open |
| Envelope.AdjustKek | internal/crypto/crypto.go:107-111 | the 32 bytes a KEK of any length stands for |
| Envelope.PadKekEqual | internal/crypto/crypto.go:107-111 | two KEKs are interchangeable exactly if they agree when cut or zero-filled to 32 bytes |
| Envelope.WrapDEK | internal/crypto/crypto.go:252-276 | the wrapped key is the nonce followed by the sealed key |
| Envelope.GenerateWrappedDEK | internal/crypto/crypto.go:189-221 | a fresh key, wrapped in the same layout |
| Envelope.UnwrapSealed | internal/crypto/crypto.go:224-249 | a wrapped key opens under exactly the KEKs that pad like the wrapping one |
| Envelope.UnwrapGives | internal/crypto/crypto.go:224-249 | for any bytes: 12 of nonce in front of what is opened under the padded KEK, an error if there are fewer or it does not open |
| Envelope.EnvelopeEncrypt | internal/crypto/crypto.go:144-186 | succeeds exactly if the wrapped key opens to an AES key and there is entropy, and else says what failed; then `EnvelopeDecrypt` returns the plaintext |
| Envelope.EnvelopeRoundTrip | internal/crypto/crypto.go:106-186 | a sealed payload opens under exactly the KEKs that pad like the sealing one |
| Envelope.EnvelopeDecryptGives | internal/crypto/crypto.go:106-141 | for any bytes: which of the errors comes first, and the one case in which Go panics |
| KeyRotation.Server.HandleKeyRotation | internal/http/server_keyrotation.go:50-143 | the handler's effect on the KEK and the table, with its reply, for every request |
| KeyRotation.Server.RewrapAll | internal/http/server_keyrotation.go:85-135 | the row loop with all its early returns is the fold of the row step over the rows read |
| KeyRotation.RotationIsSafe | internal/http/server_keyrotation.go:85-138 | however one request ends, wherever its read broke off, and whether a failed UPDATE changed its row or not, each row still opens to its original key under a known KEK; failure keeps the KEK; success puts the server and all rows that were read on the new one, and covers all rows exactly if those not read were under it before |
| KeyRotation.LoopIs | internal/http/server_keyrotation.go:109-135 | the loop serves the rows in their order up to some row: rows under the new KEK keep their bytes, rows under the old one get nonce and sealed key; the row it ends at names itself in the reply with what went wrong, and no other row changes a byte |
| KeyRotation.RefusedRequest | internal/http/server_keyrotation.go:50-73 | a payload that does not open changes nothing; the reply tells a bad server key, a nonce Go panics on, and a payload sealed under another key apart |
| KeyRotation.SealedRequest | internal/http/server_keyrotation.go:60-138 | a request with a key sealed under the server's KEK: refused if it has not 32 bytes; else the loop runs with this very key, and the server ends on it exactly if all rows were served |
| KeyRotation.RotationCoversIff | internal/http/server_keyrotation.go:98-138 | from a table in order, a reported success covers all rows exactly if all were read or the two KEKs pad alike |
| KeyRotation.ShortReadLeavesRowsBehind | internal/http/server_keyrotation.go:98-138 | a concrete request that reports success and leaves a row that no longer opens |
| KeyRotation.RotateRowsGuards | internal/http/server_keyrotation.go:109-135 | the same at every row where the loop may end |
| KeyRotation.RotationSucceedsIff | internal/http/server_keyrotation.go:109-138 | without outside trouble a rotation succeeds exactly if no row that is read is under a third KEK |
| KeyRotation.HistoryKeepsDeks | internal/http/server_keyrotation.go:50-143 | through any history of requests no key is lost |
| KeyRotation.RotationIsResumable | internal/http/server_keyrotation.go:109-138 | after any number of failed attempts for a key, an untroubled retry with it succeeds for every row it reads, and for all exactly if the others were moved before |
| KeyRotation.ResumedEqualsUninterrupted | internal/http/server_keyrotation.go:109-138 | it ends with the same KEK as one uninterrupted rotation and, in every row both have read, the same key |
| KeyRotation.SealedRotationResumes | internal/http/server_keyrotation.go:60-138 | both for requests that hold the key sealed under the KEK the server then has |
| KeyRotation.ThirdKeyIsStuck | internal/http/server_keyrotation.go:110-120 | a retry with a third key never changes a row already re-wrapped, and fails if it reads it |
| KeyRotation.RotationPreservesPayloads | internal/http/server_keyrotation.go:109-138 | after a reported success `EnvelopeDecrypt` gives for every payload and nonce what it gave before, exactly for the rows that were read unless the KEKs pad alike |
| KeyRotation.ReadersAfterRotation | internal/crypto/crypto.go:106-141 | with any reader's key, a payload decrypts to what it did before exactly if that key pads like the KEK its row is under now |
| KeyRotation.ReadersOnTheEnvironment | internal/db/db.go:393-399 | the same for readers that take the key from the environment, decoded where it decodes |
| KeyRotation.EncodedKeyMovesNothing | internal/db/db.go:440-444 | if decoding changes the key the rows are under, a rotation moves no row and fails unless it reads none |
| KeyRotation.RoleRowsAreLeftBehind | internal/http/server_keyrotation.go:85-138 | the wrapped keys of `user_roles_encrypted` are not touched, and what they seal opens afterwards exactly if the KEKs pad alike |
| RotationOverlap.OverlapKeepsDeks | internal/http/server_keyrotation.go:50-138 | however the steps of any number of requests interleave, every row opens to its original key under the first KEK or one that was asked for |
| RotationOverlap.SuccessAlone | internal/http/server_keyrotation.go:85-138 | a reported success puts the server and all rows the request has read on the key its payload opened to, if no other request re-wraps a row from the read to the end |
| RotationOverlap.AloneIsTheHandler | internal/http/server_keyrotation.go:50-138 | whatever else is under way, a request whose steps follow one another ends with the table, the KEK and the reply of one call of the handler |
| RotationOverlap.OverlapLeavesARowBehind | internal/http/server_keyrotation.go:109-138 | for any three different keys, an interleaving of two requests that both succeed and leave a row that no longer opens |
| FlatTable.ReadsBack | schematas/DLQEntry.go:92-130 | little-endian numbers of each width are read back in range |
| FlatTable.ReadsAreLittleEndian | schematas/DLQEntry.go:92-130 | every read in terms of the bytes: lowest byte first, two's complement, a flag is the byte 1, and a panic out of bounds |
| FlatTable.FieldsAreFound | schematas/DLQEntry.go:44-130 | where a reader looks: the signed distance to the vtable, its size, the distance of the field, and for strings the reference and the length |
| FlatTable.FieldsBehind | schematas/DLQEntry.go:44-130 | accessors give the same value however much is later written in front |
| FlatBuilder.Builder.CreateString | internal/http/server_bin.go:54-75 | a length-prefixed string with a zero behind it, aligned to four bytes, that later writes keep |
| FlatBuilder.Builder.PrependUOffset | internal/http/server_bin.go:102-104 | a relative reference that leads to its target, aligned to four bytes |
| FlatBuilder.Builder.PrependUOffsetSlot | schematas/DLQEntry.go:139-165 | slot k holds the reference, the other fields stay |
| FlatBuilder.Builder.PrependInt64Slot | schematas/DLQEntry.go:157-168 | slot k holds the number, aligned to eight bytes, or is left out if it is 0 |
| FlatBuilder.Builder.PrependBoolSlot | schematas/DLQEntry.go:160-162 | slot k holds the flag, left out if it is false |
| FlatBuilder.Builder.WriteVtable | schematas/DLQEntry.go:169-171 | the vtable of a table under construction |
| FlatBuilder.VtableHoldsObjectSize | schematas/DLQEntry.go:169-171 | its second word is the size of the table |
| FlatBuilder.Builder.EndObject | schematas/DLQEntry.go:169-171 | whether its vtable is new or shared with an earlier table, writer slot k is found at reader offset 4 + 2k |
| FlatBuilder.MatchIsExact | schematas/DLQEntry.go:169-171 | a vtable is shared only if it has the same field offsets |
| FlatBuilder.TableKept | schematas/DLQEntryList.go:44-62 | a finished table is still found after later writes |
| FlatBuilder.Builder.Finish | internal/http/server_bin.go:110 | the root reference in front of everything |
| DlqEncoding.UnixMs | internal/http/server_bin.go:69-75 | division of nanoseconds by 1e6 truncates towards zero, also before 1970 |
| DlqEncoding.CreateStrings | internal/http/server_bin.go:54-76 | the strings of an entry are there, with the text of resolved_at exactly for a resolved time, and those of absent fields are not |
| DlqEncoding.EncodeEntry | internal/http/server_bin.go:54-97 | the reader finds the fields of the entry at the vtable offsets 4 to 22: absent stays absent, empty stays present, elided zero and false read as such |
| DlqEncoding.EntryIsShown | schematas/DLQEntry.go:44-130 | a finished table with the right slots shows the entry |
| DlqEncoding.EncodeVector | internal/http/server_bin.go:101-105 | prepending the references last first puts reference j at index j |
| DlqEncoding.EntryOf | schematas/DLQEntryList.go:44-54 | `Entries` points the object at entry j, or leaves it alone |
| DlqEncoding.EncodeList | internal/http/server_bin.go:43-113 | reading the buffer back by index gives the same list in the same order, field by field; it can only fail by outgrowing 2^30 bytes, and never for 100 entries of ten million bytes of text each |
| DlqEncoding.ReadEntry | schematas/DLQEntry.go:44-130 | all ten accessors of entry j of the encoded list, by name |
| DlqEncoding.ListIsRecovered | internal/http/server_bin.go:50-113 | a buffer shows only one list: every text and flag of every entry is determined, and its times up to the millisecond |
| Requeue.Database.RequeueDLQEntries | internal/db/db.go:519-555 | commits what the loop did or leaves both tables as they were, with the error of the first statement refused |
| Requeue.RequeueAllIs | internal/db/db.go:526-552 | succeeds exactly if the ids are distinct, all queued, and no statement is refused; then exactly those entries are gone, their packages reset or newly made, all other rows unchanged |
| Requeue.StopsAtFirstTrouble | internal/db/db.go:526-552 | a failing request reports the first id that is missing, repeated or refused, and which statement it was |
| Requeue.RequeuedIsUnique | internal/db/db.go:526-552 | that description determines the tables |
| Requeue.OrderDoesNotMatter | internal/db/db.go:526-552 | permuting the ids changes neither success nor the tables |
| Requeue.EveryEntryIsPending | internal/db/db.go:534-546 | a package an entry names is pending with its own payload if it exists, so with the entry's exactly if the two agree; an entry without one gets a new pending package with its payload |
| Requeue.DanglingReferenceLosesEntry | internal/db/db.go:534-546 | a reference to a missing package updates nothing and still deletes the entry |
| AuthLimiter.Limiter.Admit | internal/http/server.go:249-264 | the first locked section reads, opens a new window in its copy only, and stores nothing |
| AuthLimiter.Limiter.CountFailure | internal/http/server.go:296-299 | the second locked section stores that copy with one failure more |
| AuthLimiter.Limiter.Authenticate | internal/http/server.go:243-301 | one undisturbed call: limited, no credentials, granted, or denied and counted |
| AuthLimiter.StoredCountIsTheWindow | internal/http/server.go:249-299 | in every run the stored count is the number of failures since the window began, between 1 and 5, the first of them at its start |
| AuthLimiter.NineInAnyMinute | internal/http/server.go:249-299 | at most nine failures of an address are counted in any 60 seconds |
| AuthLimiter.NineIsReached | internal/http/server.go:255-258 | a run that reaches nine |
| AuthLimiter.LimitedIff | internal/http/server.go:255-262 | a call is turned away exactly if five failures are stored and the reset time has not passed, and then all five lie in the last minute |
| AuthLimiter.TurnedAwayChangesNothing | internal/http/server.go:259-268 | calls turned away, without credentials or granted leave the windows alone |
| AuthLimiter.AddressesAreIndependent | internal/http/server.go:254 | what an address is answered depends on its own calls alone |
| AuthOverlap.NineWithoutOverlap | internal/http/server.go:249-299 | in every run of the locked sections in which no two failing calls of an address overlap, at most nine of its failures are counted in any 60 seconds |
| AuthOverlap.CountsAsOneStep | internal/http/server.go:295-298 | a failing call that saw what is still stored leaves the table as one undivided call would |
| AuthOverlap.UndisturbedIsServe | internal/http/server.go:243-301 | two sections that nothing comes between, whatever else is pending, do what one undivided call does |
| AuthOverlap.OverlappingFailuresCountOnce | internal/http/server.go:249-299 | failing calls at any times that all enter before the first leaves are all let through and leave the entry of a single failure |
| AuthOverlap.NoBoundWithOverlap | internal/http/server.go:249-299 | for every n a run counts n failures of an address at one moment |
| AuthLimiter.TwoSectionsAreOneStepIff | internal/http/server.go:249-299 | a failing call acts like one undivided step exactly if what it would see did not change between its sections |
| Restore.Server.ExportConfigTable | internal/db/db_backup.go:10-43 | fails for other tables and refused queries; otherwise the JSON rows decode to the table, in whatever order they came |
| Restore.EncodedRows | internal/db/db_backup.go:10-43 | the exported JSON has each row at its place in the order of the query |
| Restore.Server.HandleBackup | internal/http/server_backup.go:35-59 | all nine tables or nothing, each as it is when its own query is run |
| Restore.ReadStateIff | internal/http/server_backup.go:51-59 | a backup is one state of the tables exactly if none differed from it when its turn came |
| Restore.ConfigTablesInOrder | internal/http/server_backup.go:40-120 | the nine tables and their order in both handlers |
| Restore.DecodedIff | internal/db/db_backup.go:46-85 | JSON objects decode exactly if each of them does |
| Restore.DecodedRows | internal/db/db_backup.go:46-85 | and then to those rows, each as often as it comes |
| Restore.CanImportIff | internal/db/db_backup.go:46-85 | a table is imported exactly if it is one of the nine, each object is a row of it, and BEGIN, DELETE, every INSERT and COMMIT are accepted |
| Restore.Server.ImportConfigTable | internal/db/db_backup.go:46-85 | replaces the table by the decoded rows if every statement is accepted, else changes nothing |
| Restore.Server.HandleRestore | internal/http/server_backup.go:102-129 | version check and table loop with its early return, on the tables and on the run history |
| Restore.OtherVersionIsRefused | internal/http/server_backup.go:102-106 | a payload of another version is refused exactly as such, with all tables and the run history as they were |
| Restore.EachStep | internal/http/server_backup.go:122-129 | the loop goes through exactly if every table in the payload could be imported to begin with |
| Restore.RestoreReproduces | internal/http/server_backup.go:102-129 | a backup of the same version restored into any later state brings back all nine tables exactly if nothing is refused, and leaves tables that do not refer to them alone |
| Restore.RestoreCostsTheHistory | internal/db/db_backup.go:71 | a restore, successful or stopped later, clears the runs of all programs with their events and audit logs exactly if it could import scheduled_programs |
| Restore.RestoredHistory | docs/architecture/database_schema.md:103-127 | after a successful restore of a backup exactly the runs without a program are left, with their events and audit logs |
| Restore.StoppedRestore | internal/http/server_backup.go:122-129 | a restore that stops at table k: earlier tables of the payload hold the backup, table k and later ones their old contents |
| Restore.RetryCompletes | internal/http/server_backup.go:122-129 | a second run after a stopped one ends like a run that never stopped |
| Bootstrap.Repository.FindUser | cmd/scheduler/main.go:71-78 | the first user of that name among those that were read |
| Bootstrap.HiddenUserIsLeftAlone | internal/db/db_rbac.go:45-61 | a user hidden by a read that broke off is left alone, as if the users could not be read, since the name is taken |
| Bootstrap.Repository.GetUserRoles | internal/db/db_rbac.go:88-108 | the role ids of a row that is there, opens under the KEK and parses; nothing otherwise; a panic exactly for a row whose key opens and whose nonce has the wrong size |
| Bootstrap.Repository.AssignRoles | internal/db/db_rbac.go:62-86 | writes a row sealed under a fresh wrapped key, or nothing |
| Bootstrap.Repository.BootstrapAdmins | cmd/scheduler/main.go:46-138 | the effect of the whole run on users, role rows and audit log, for every pattern of failures |
| Bootstrap.SealedRolesAreRead | internal/db/db_rbac.go:62-108 | a row written by AssignRoles is read by GetUserRoles under exactly the KEKs that pad alike |
| Bootstrap.AdminRoleIdIs | cmd/scheduler/main.go:52-58 | the first role called ADMIN is the one assigned |
| Bootstrap.NoAdminRole | cmd/scheduler/main.go:52-62 | without one the id stays 0 |
| Bootstrap.NothingWithoutAdminRole | cmd/scheduler/main.go:46-62 | nothing happens if the roles cannot be read, none is called ADMIN, or the first of that name has the id 0 |
| Bootstrap.LookupFinds | cmd/scheduler/main.go:71-78 | a name stands for the first user that has it, and for nobody exactly if none has it |
| Bootstrap.RolesAreRead | internal/db/db_rbac.go:88-108 | for any row: what its key and text open to under the padded KEK, and exactly when Go panics |
| Bootstrap.BootstrapMeaning | cmd/scheduler/main.go:46-137 | otherwise, without failures, each configured administrator exists with the first ADMIN role added to exactly the roles that could be read, missing accounts are made once in order, each change is logged once, other role rows are unchanged |
| Bootstrap.StartsOneByOne | cmd/scheduler/main.go:64-137 | a start over a list is a start over any first part of it, followed by one over the rest |
| Bootstrap.RefusedAccount | cmd/scheduler/main.go:65-101 | a turn in which the users cannot be read, or the account cannot be made or fetched, ends there |
| Bootstrap.RefusedRole | cmd/scheduler/main.go:118-127 | a turn in which the role cannot be stored writes no role row and no audit entry, and keeps an account it has made |
| Bootstrap.RefusedAudit | cmd/scheduler/main.go:129-136 | a refused audit entry costs nothing else; a new account has no roles that could fail to be read |
| Bootstrap.SettledRunChangesNothing | cmd/scheduler/main.go:64-137 | a run over administrators who have ADMIN changes nothing unless reading roles fails |
| Bootstrap.SecondRunChangesNothing | cmd/scheduler/main.go:46-138 | the second run changes nothing and writes no audit entry, for any list with repetitions |
| Bootstrap.QuietIffSettled | cmd/scheduler/main.go:129-136 | a run without failures logs nothing, and changes nothing, exactly if everyone configured already has ADMIN |
| Bootstrap.PanicsAtFirst | internal/crypto/crypto.go:136-140 | a role row whose nonce has the wrong size ends the start at that administrator: those before are done, nothing of the rest |
| Bootstrap.UnreadableRolesAreReplaced | cmd/scheduler/main.go:104-108 | roles that cannot be fetched or decrypted, short of a panic, are lost: ADMIN alone is left, logged as an assignment, and nothing else changes |
| Bootstrap.RotatedKeyLosesRoles | cmd/scheduler/main.go:104-127 | a start under another KEK replaces the roles a configured administrator had |

## Left out

- AES-GCM and Argon2id internals, and that AES-GCM is not key-committing: another key opening a ciphertext is excluded by assumption.
- KeyRotation.Server.HandleKeyRotation: request decoding, roles, the audit entries, and the pause and resume of the scheduler around the loop; rows inserted meanwhile are rows of the table that the read missed, other concurrent changes to `storage_keys` are not modelled.
- KeyRotation.ReadersOnTheEnvironment: the base64 decoder is any function.
- Scheduler.Scheduler.Reload: cron expressions are not parsed; which programs cron rejects is a parameter, and an accepted one may fire at any time.
- Scheduler.Scheduler.StopJobByName: signals and the kill after five seconds; a process may end at any time anyway. `Stop` signals processes and waits like `Pause`, so its kills add no step.
- RunRows.CleanupLeavesNoneOpen: the `finished_at`, `started_at` and `pid` columns and the UPDATE of `pid` are not modelled; a cleanup the database refuses is one that never happens.
- Environment filtering, command arguments, log lines and `RunJobByName`'s lookup; `RunImmediateJob` is a call with ID -1.
- AutoMap.NormalFormIsFixed: bytes of 128 and above stand for themselves; `strings.ToLower` also folds letters outside ASCII.
- AutoMap.AutoMap: the rule's own id, priority, chains and version, which are random or constant.
- FlatBuilder.Builder.EndObject: the builder library's checks for nested or unfinished use, which the encoder never violates, and the doubling of its buffer up to the limit.
- DlqEncoding.EncodeList: the mutating accessors and the four other list encoders, which repeat this shape.
- Requeue.RequeueAllIs: the key of a package made for an entry is named after the entry instead of being drawn at random, so equal tables mean equal up to these keys; column defaults are one parameter.
- RunRows.RowIsThereUnlessDeleted: which programs exist is not modelled, so a run of a deleted program may still be inserted here where the database would refuse it.
- RotationOverlap.OverlapKeepsDeks: a turn of the loop is one step, and rows inserted while requests run are rows that their reads missed.
- AuthLimiter.Limiter.Authenticate: how the address is taken from the request and how credentials are compared; which outcome they have is a parameter.
- AuthLimiter.NineInAnyMinute: assumes that calls do not overlap and the clock does not go back; `AuthOverlap` drops the first for all but failing calls of the address.
- Restore.RestoreReproduces: foreign keys other than those of the run tables; an insert or delete they refuse is a fault. JSON conversion of rows by the database is assumed to be invertible on the rows stored.
- Restore.Server.HandleRestore: authorisation, the scheduler reload and the audit entry after a restore.
- Bootstrap.Repository.BootstrapAdmins: password hashes of new users, `is_active`, log lines.
- IPC sockets, HTTP routing and TLS, the desktop client, configuration files, log downloads and plain CRUD handlers.

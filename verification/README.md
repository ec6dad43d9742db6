# Verified model of the note rooms, sessions, signing keys and tables of go-notion

This project states and proves what the stateful parts of go-notion promise:
the collaborative note room, session rotation, the signing-key lifecycle, the
browser's socket manager, and three pieces that keep several tables in step
(the ticket limiter, note titles, workspace membership and invitations).

Every component has the same shape. A module holds its state as a value, with
a total `Step` (an event that cannot happen in a state changes nothing) and
`Run`, the fold of `Step` over any sequence of events. Lemmas about `Run` are
the properties; they hold of every sequence. Where the source is an object that
updates its fields, a class holds those fields, and each of its methods is
proved to take exactly the step of the same name. `Valid()` is what every run
keeps, every method keeps it, and the methods state what their callers may then
rely on. Getters and setters without more to say carry no row below; neither do
the lemmas that spell the outcome of one call out in plain numbers and names
(`ChecksKey`, `CasAppliesIff`, and those called `…Reads`, `…Outcome` or
`…Conclude`), which belong to that call's row.

| component | specification | properties | object |
|---|---|---|---|
| block diff and patch | `Blocks.dfy` | `Blocks.dfy` | methods in `Blocks.dfy` |
| note room, flushes as one step | `NoteRoom.dfy` | `NoteRoomProofs.dfy` | `Room.dfy` |
| note room, flushes step by step | `FlushProtocol.dfy` | `FlushProtocol.dfy`, `FlushRuns.dfy`, `FlushOrder.dfy` | `UpdateBuffer.dfy` |
| session rotation, one replica | `Sessions.dfy` | `SessionProofs.dfy` | `AuthService.dfy` |
| session table | `SessionStoreProofs.dfy` | `SessionStoreProofs.dfy` | `AuthService.dfy` |
| session rotation, many replicas | `RotationRace.dfy` | `RotationRace.dfy` | |
| signing keys | `SigningKeys.dfy` | `SigningKeyProofs.dfy` | `SigningKeyMaker.dfy` |
| socket manager | `Sockets.dfy` | `SocketProofs.dfy` | `RoomConnection.dfy` |
| ticket limiter | `TicketLimiter.dfy` | `TicketLimiter.dfy` | `TicketLimiter.dfy` |
| note titles | `NoteTitles.dfy` | `NoteTitles.dfy` | `NoteTitles.dfy` |
| workspace tables | `Workspaces.dfy` | `Workspaces.dfy` | `WorkspaceService.dfy` |

`dafny verify dfyconfig.toml` checks all of it.

## Where the code does less than it promises

Each promise fails on some input. For each the exact condition is a theorem, and
where failing takes a run to get there, so is such a run.

- **Falsy blocks and inherited names.** `diffBlocks` tests `!next[id]` on a plain
  object. A block that is kept but whose JSON is `null`, `false`, `0` or `""` is
  reported as deleted; a removed block whose id plain objects inherit, such as
  `toString`, is not; and an upsert under `__proto__` is lost in the assignment.
  Applying a diff gives the new document exactly when none of the three happens
  (`DiffThenApply`). The empty-diff and structural-test claims have exact
  conditions of their own and hold as promised under this one
  (`DiffIsEmptyIff`, `DiffIsStructuralIff`).
- **JSON null.** Decoding `null` leaves `mergeSnapshot` with a nil map, and the
  first upsert into it panics: a patch crashes the room exactly when the value
  is null and the patch upserts something (`CrashesIff`). A legacy frame
  carrying null and any such patch do it (`LegacyNullThenPatchCrashes`), and
  once the null was flushed every later room on the note crashes on its first
  upsert (`StoredNullCrashesAgain`). Without legacy frames some run crashes
  exactly when the stored snapshot is null (`SomeRunCrashesIff`). A crash loses
  the buffer, which holds fewer than 20 updates; every other claim about the
  room's runs holds up to it.
- **Failed hydration.** A room whose snapshot could not be read starts with no
  value; the stored blocks then stay different from the live ones. The
  durability claim holds exactly when the read succeeded or there was nothing
  to read (`BlockSetDurability`).
- **Legacy `update` frames** skip the structural flush, and today's browsers
  ignore them (`LegacyUpdateDurableIff`, `LegacyUpdateReplicaIff`). A frame the
  server forwards undecoded keeps a listener in agreement exactly when its
  browser makes nothing new of it (`ForwardedFrameReplicaIff`).
- **Overlapping flushes.** The batch is taken under the lock but written after
  it is released. Wherever a run stands with its snapshots stored in order so
  far, the successful writes still to come keep them in order exactly when no
  flight is late: none has writes to do while a newer one does, or while
  something as new is stored (`StaysInOrderIff`). No flight is late while takes
  do not fall into another flush's writes (`NoOverlapNoneLate`); two timer
  flushes whose writes cross leave the older snapshot stored
  (`OverlapRegresses`).
- **Logging out everywhere** bumps the stored version, which a cached session
  never looks at: a good refresh or access token stops working exactly when its
  session is not cached (`LogoutAllTakesHoldIff`, `LogoutAllStopsAccessIff`).
  Each refresh renews the cache entry, so after any history a session that just
  logged in outlives the logout for any number of refreshes
  (`LogoutAllMissesFreshSession`).
- **Logging out** deletes the cache entry only; the token stays usable exactly
  when its row and version allow it (`LogoutLeavesTokenUsableIff`), as it does
  right after a login (`LoggedOutSessionRefreshes`).
- **Access tokens.** A refresh does not renew the row's `expires_at`, so on a
  cache miss an access token is accepted only within the session's first
  lifetime (`ValidateOutcome`). After any history, a login, a refresh and an
  eviction leave a newest access token that is rejected beside a newest refresh
  token that rotates (`RefreshDoesNotRenewAccess`).
- **Sixty-day tokens.** The key is checked by one clock reading and the token
  dated by a later one, its expiry cut to whole seconds. Within one process a
  token is verifiable at every instant before it expires exactly when it never
  was live or its last instant is within its key's lifetime
  (`LiveTokenVerifiesIff`). Sixty days between the check and the expiry are
  always within it (`LiveTokenVerifies`); sixty days after the dating need not
  be, when two seconds pass between the readings (`SixtyDayTokenOutlivesKey`).
- **Restarts.** `signing_keys` has a default time to live of 30 days, so a key's
  cells are gone 30 days after it was stored, although its `expires_at` says 90
  or more; and a rotated key is gone after 7. A token of any duration survives
  every later run with restarts exactly when it never was live, or expires both
  within 30 days of its key's storage and within 7 days of the earliest
  rotation, which a token of at most 7 days always does
  (`TokenSurvivesRestartsIff`). A week's token signed 24 days after the first
  start is forgotten (`WeekTokenForgotten`).
- **Limiter clock.** `allow` reads the clock before it takes the lock, so a
  later reading can be served first and overtake times that still count for an
  earlier one: the slice holds exactly the allowed times that no later-served
  reading is a minute ahead of (`SliceIsKept`). All along a run the limiter
  allows a user what the full-history rule allows exactly when no request finds
  fewer than ten such times where the overtaken ones would make it ten
  (`LimiterFollowsRuleIff`); readings that do not go back always satisfy that
  (`InOrderFollowsRule`). Twelve requests of which eleven pass within one minute
  show it can fail (`ElevenInAMinute`).
- **Roles.** A role update refuses to grant the actor's own level or more, an
  invitation does not ask. Accepting one leaves a member above the inviter
  exactly when an admin invited an owner (`InvitationOutranksIff`), as a run from
  an empty table shows (`AdminInvitesOwner`); unless an invitation of an owner
  succeeded, the only owners are the creators (`OwnersCreatedOrInvited`).
- **Owners.** An owner cannot leave, but neither a role update nor a removal
  looks at the role it takes. An owner stays one all along a run exactly when no
  call in it unseats them (`OwnerThroughoutIff`); three calls leave a workspace
  without any (`WorkspaceWithoutOwner`).

## Model

| member | source | states |
|---|---|---|
| Blocks.DiffBlocks | web/src/modules/notes/components/note-view.tsx:77-91 | the upserts are exactly the blocks whose JSON changed, but for one under `__proto__`; the deletions exactly the ids that are falsy in the new document, or missing from it and not inherited, each once |
| Blocks.DiffReads | web/src/modules/notes/components/note-view.tsx:77-91 | block by block: a kept block is deleted exactly when its new text is one of the four falsy ones, so never when it is an object; a removed one unless its name is one of the twelve inherited ones; a new or changed one is upserted with its new text |
| Blocks.ApplyPatch | web/src/modules/notes/components/note-view.tsx:97-101 | the patched document is the old one overridden by the upserts, without the deleted ids |
| Blocks.MergeSnapshot | services/notes/internal/realtime/hub.go:137-161 | panics exactly when the value is JSON null and the patch upserts something; otherwise the server computes the same patched document, from any bytes, null staying null and everything else that is not an object counting as empty |
| Blocks.IsStructural | services/notes/internal/realtime/hub.go:413-431 | a patch is structural exactly when it deletes or names an id the snapshot does not have |
| Blocks.DiffThenApply | web/src/modules/notes/components/note-view.tsx:77-101 | a diff applied to the old document gives the new one, on the client and on the server, if and only if no block in both is falsy in the new one, no removed id is an inherited name and no block changes under `__proto__` |
| Blocks.DiffThenUndo | web/src/modules/notes/components/note-view.tsx:77-101 | patching forth and back is the identity when both diffs see what changed |
| Blocks.DiffIsEmptyIff | web/src/modules/notes/components/note-view.tsx:77-91 | the diff is empty if and only if no kept block is falsy and all that changed is what it cannot report; for documents whose changes it sees, if and only if they are equal |
| Blocks.NoChangeNoDiff | web/src/modules/notes/components/note-view.tsx:77-91 | a document of object blocks that did not change gives an empty patch |
| Blocks.DiffIsStructuralIff | services/notes/internal/realtime/hub.go:413-431 | the server's test on a client's diff is true if and only if a kept block turned falsy or an id came or went that the diff can report; for documents whose changes it sees, if and only if the id sets differ |
| Blocks.RemovedToStringUnseen | web/src/modules/notes/components/note-view.tsx:86-88 | removing a block called toString leaves an empty diff |
| Blocks.TextPatchKeepsIds | services/notes/internal/realtime/hub.go:404-431 | a patch that is not structural keeps the id set and touches only the blocks it upserts |
| NoteRoomProofs.ChannelSafety | services/notes/internal/realtime/hub.go:306-384 | in every run a client's channel is closed once exactly when it is out of the room, nothing is put on it after, the loop never blocks on it, and its queue is the tail of what was put on it |
| NoteRoomProofs.EveryoneElseHears | services/notes/internal/realtime/hub.go:493-586 | unless the frame crashes the room, every member but the sending connection gets it once, last, or is dropped and closed because it is full; the sender and outsiders get nothing |
| NoteRoomProofs.FramesAsHeard | services/notes/internal/realtime/hub.go:493-586 | what each other member that keeps up is sent, frame type by frame type, and that an identify frame's name is kept |
| NoteRoomProofs.JoinerReceives | services/notes/internal/realtime/hub.go:306-331 | a joining client is sent the value if it is well-formed or empty, then the presence list, and nobody else is sent anything |
| NoteRoomProofs.LeaverAnnounced | services/notes/internal/realtime/hub.go:333-373 | a leaver is out and closed; exactly if it had identified, each other member is told so or, with 64 frames waiting, dropped and closed |
| NoteRoomProofs.EndedIff | services/notes/internal/realtime/hub.go:380-384 | in every run the room has ended if and only if some leave left nobody in it, counting the members its announcement drops |
| NoteRoomProofs.FrameAccepted | services/notes/internal/realtime/hub.go:433-490 | a patch is taken in as a merge, a nonempty legacy value as a replacement, both under the sending client's user, and nothing else is taken in |
| NoteRoomProofs.Conservation | services/notes/internal/realtime/hub.go:433-490 | with one-step flushes, in every run up to a crash, no accepted change panicked, log then buffer are the accepted changes in order with their authors, the snapshot is the document at the last flush, fewer than 20 wait, what waits has a timer, and an ended room holds nothing |
| NoteRoomProofs.PersistedAtOnceIff | services/notes/internal/realtime/hub.go:404-490 | a document frame reaches the tables at once if and only if it is the twentieth waiting, or a patch that deletes or brings a new block; otherwise it waits under the timer and no table changes |
| NoteRoomProofs.DurableRun | services/notes/internal/realtime/hub.go:409-469 | after every event of a run without legacy frames the stored snapshot has the live block ids, and differs only in blocks upserted by patches still buffered |
| NoteRoomProofs.BlockSetDurability | services/notes/internal/realtime/hub.go:280-289 | that claim holds of all runs if and only if hydration read the snapshot or there were no blocks |
| NoteRoomProofs.LegacyUpdateDurableIff | services/notes/internal/realtime/hub.go:471-491 | a legacy frame keeps the stored block ids if and only if it fills the buffer or brings the same ids |
| NoteRoomProofs.PassiveReplicas | services/notes/internal/realtime/hub.go:563-618 | after every event a member that has sent no document frame, fed with the frames put on its channel, holds the server's document, forwarded frames that browsers ignore included |
| NoteRoomProofs.PassiveListener | services/notes/internal/realtime/hub.go:563-618 | the same stated on the run: every member that sent no patch or legacy value after its join holds the server's document |
| NoteRoomProofs.LegacyUpdateReplicaIff | services/notes/internal/realtime/hub.go:471-491 | after a legacy frame a listener that was not dropped agrees if and only if the frame changed nothing |
| NoteRoomProofs.ForwardedFrameReplicaIff | services/notes/internal/realtime/hub.go:404-412 | after a frame the server forwards undecoded a listener that was not dropped agrees if and only if browsers ignore it, or read it as an init with the server's document, or as a patch that changes nothing in it |
| NoteRoomProofs.CrashesIff | services/notes/internal/realtime/hub.go:139-148 | a frame crashes a live room if and only if it is a patch with an upsert on a null value, and the crash changes neither tables nor channels |
| NoteRoomProofs.SomeRunCrashesIff | services/notes/internal/realtime/hub.go:280-289 | without legacy frames some run crashes if and only if the snapshot was read and is null |
| NoteRoomProofs.LegacyNullThenPatchCrashes | services/notes/internal/realtime/hub.go:471-478 | from any live room a legacy null frame and any patch with an upsert crash it |
| NoteRoomProofs.StoredNullCrashesAgain | services/notes/internal/realtime/hub.go:621-645 | after the legacy null was flushed, a room opened on the stored snapshot crashes on its first upsert |
| NoteRoomObject.Room.constructor | services/notes/internal/realtime/hub.go:260-300 | a new room starts from the stored snapshot, or from nothing when the read failed, with the run invariants |
| NoteRoomObject.Room.SendInitialState | services/notes/internal/realtime/hub.go:600-618 | one init frame for an empty or well-formed value, none for corrupt bytes, on a channel with room for it |
| NoteRoomObject.Room.Join | services/notes/internal/realtime/hub.go:306-331 | joining is the specified step; channels stay safe and every accepted change stays in log or buffer |
| NoteRoomObject.Room.FanOut | services/notes/internal/realtime/hub.go:563-586 | the loop that drops clients while ranging over them does what one simultaneous send to all of them specifies |
| NoteRoomObject.Room.Remove | services/notes/internal/realtime/hub.go:339-373 | a leaving member is announced if it had identified, then taken out and closed once |
| NoteRoomObject.Room.Leave | services/notes/internal/realtime/hub.go:333-384 | a leave of a member that leaves nobody ends the room with nothing buffered, every accepted change in the log and the document in the snapshot; any other leave, a late one included, touches neither document, tables nor the end |
| NoteRoomObject.Room.TakePatch | services/notes/internal/realtime/hub.go:410-469 | a patch that would panic changes nothing; any other is folded in and buffered, and flushed at once when structural or at the threshold, else the timer is armed |
| NoteRoomObject.Room.TakeUpdate | services/notes/internal/realtime/hub.go:471-491 | a legacy value replaces the document, is buffered and arms the timer, and flushes only at the threshold |
| NoteRoomObject.Room.HandleFrame | services/notes/internal/realtime/hub.go:386-596 | a frame changes the document and the members as specified and keeps the run invariants, and crashes the room if and only if it upserts into null |
| NoteRoomObject.Room.Flush | services/notes/internal/realtime/hub.go:621-645 | the buffer goes to the log in order, then the non-empty document to the snapshot, and the timer is forgotten |
| NoteRoomObject.Room.FlushNow | services/notes/internal/realtime/hub.go:207-219 | after a timer or shutdown flush the log holds every accepted change in order, the snapshot is the live document, nothing waits and no timer is set |
| NoteRoomObject.Room.Drain | services/notes/internal/realtime/hub.go:697-730 | the write pump takes the oldest frame, the channel staying safe |
| UpdateBuffer.Pending.Append | services/notes/internal/realtime/hub.go:443-445 | the pending updates grow by one at the end, in place or in a new array |
| UpdateBuffer.Pending.Take | services/notes/internal/realtime/hub.go:621-633 | the batch is a fresh copy of all pending updates, and none stay pending |
| UpdateBuffer.BatchSurvivesReuse | services/notes/internal/realtime/hub.go:621-633 | a batch keeps what it took however much the reused backing array is overwritten afterwards |
| UpdateBuffer.GuardedFields.Accept | services/notes/internal/realtime/hub.go:433-445 | a change grows the slice in place while every batch being written keeps its entries, and the conservation invariant is kept |
| UpdateBuffer.GuardedFields.TakeBatch | services/notes/internal/realtime/hub.go:621-633 | a nonempty slice becomes one more flight with an array of its own, earlier batches and the conservation invariant being kept |
| FlushProtocol.ConservationOfUpdates | services/notes/internal/realtime/hub.go:621-645 | under every interleaving of loop, timer and shutdown flushes, every write failure and up to a crash, the taken batches then the buffer are the accepted changes in order with their authors, none of which panicked, and each flight carries the document as of its take |
| FlushProtocol.NoStrandedEdit | services/notes/internal/realtime/hub.go:447-490 | whenever the loop is idle with a nonempty buffer, flushTimer is set and a firing is still to come, though stale timers are never stopped; the buffer is under 20, also at a crash, and empty once the loop has ended |
| FlushProtocol.FiringsReachTheBuffer | services/notes/internal/realtime/hub.go:457-468 | from such a state timer firings alone take the whole buffer into one batch |
| FlushProtocol.PersistedStateIsPast | services/notes/internal/realtime/hub.go:137-161 | every snapshot ever stored is the fold of a prefix of the accepted changes from the hydrated value, and the log holds whole batches, each at most once |
| FlushProtocol.SnapshotsOnlyAdvance | services/notes/internal/realtime/hub.go:621-645 | while no take falls into another flush's writes, every stored snapshot is newer than the one before and only the newest flight has writes to do |
| FlushOrder.StaysInOrderIff | services/notes/internal/realtime/hub.go:621-645 | wherever a run stands with its snapshots stored in order, every interleaving of the successful writes still to come keeps them in order if and only if no flight with writes to do is older than another such flight or than a stored snapshot |
| FlushOrder.OlderCanFinishLast | services/notes/internal/realtime/hub.go:635-644 | from any state with two flights still writing there are successful writes after which the older snapshot is the stored one |
| FlushOrder.NoOverlapNoneLate | services/notes/internal/realtime/hub.go:621-645 | no flight is late in a run whose takes never fell into another flush's writes |
| FlushOrder.OverlapRegresses | services/notes/internal/realtime/hub.go:457-468 | a run of two crossing timer flushes, all writes successful, that ends with the older snapshot stored |
| FlushRuns.NothingLost | services/notes/internal/realtime/hub.go:207-219 | when nothing failed, overlapped, waits or is in flight, the log gained every accepted change in order and the snapshot is the live document |
| FlushRuns.AtomicFlushesAreARun | services/notes/internal/realtime/hub.go:303-597 | every run of the room with one-step flushes is a run of the step-by-step protocol with the same document, buffer, timer flag and tables, crashing when the room does |
| SessionProofs.CacheAgreesWithStore | services/auth/internal/service/auth_service.go:139-226 | in every run cached generation, row generation and newest minted generation are equal wherever they exist, minted generations form one chain from 1, and no cached or minted version exceeds the stored one |
| SessionProofs.RefreshOutcome | services/auth/internal/service/auth_service.go:126-244 | exactly the newest token of a live session at the required version rotates; exactly an older token of a cached or stored session is a replay; and each other refusal comes exactly in its case |
| SessionProofs.RotatedPair | services/auth/internal/service/auth_service.go:228-244 | the returned pair is the presented user's and session's next generation at the required version, one access and one refresh token never handed out before, and row and cache hold that generation |
| SessionProofs.ValidateOutcome | services/auth/internal/service/auth_service.go:326-385 | an access token is accepted if and only if it is the newest, at the required version, and its session is cached or within its row's first lifetime; it stands for its own user and leaves the session cached as judged |
| SessionProofs.TheftAccounting | services/auth/internal/service/auth_service.go:504-575 | in every run a session is reported once at most, and a user's replays are 3 times the bumps they caused plus the cached count plus the counts lost with the cache |
| SessionProofs.ThirdReplayBumps | services/auth/internal/service/auth_service.go:514-538 | a replay raises its user's stored version by one if and only if two were counted before, and starts the count again; nobody else's version or count changes |
| SessionProofs.VersionCounts | services/auth/internal/service/auth_service.go:268-289 | in every run a user's stored version is the number of logouts everywhere plus the bumps replays caused |
| SessionProofs.KilledSessionsStayDead | services/auth/internal/service/auth_service.go:504-557 | in every run after a handled replay no token of the session is refreshed or validated and no further replay is reported |
| SessionProofs.GlobalRevocation | services/auth/internal/service/auth_service.go:191-226 | once the user's version is v and the session has left the cache, no token of it below v is refreshed or validated in any later run |
| SessionProofs.LogoutAllTakesHoldIff | services/auth/internal/service/auth_service.go:268-289 | a good refresh token stops working at a logout everywhere if and only if its session is not cached |
| SessionProofs.LogoutAllStopsAccessIff | services/auth/internal/service/auth_service.go:326-378 | a good access token stays accepted after a logout everywhere if and only if its session is cached |
| SessionProofs.CachedSessionOutlivesLogoutAll | services/auth/internal/service/auth_service.go:458-502 | for every n, a cached session's holder can refresh n times after a logout everywhere and still holds a good token of the version before it |
| SessionProofs.LogoutAllMissesFreshSession | services/auth/internal/service/auth_service.go:404-456 | after any history a session logs in, logs out everywhere, refreshes any number of times, and still holds a refresh token that rotates and an access token that is accepted |
| SessionProofs.LogoutLeavesTokenUsableIff | services/auth/internal/service/auth_service.go:248-266 | the logged-out token still rotates if and only if it is the newest, its row exists and its version is not revoked |
| SessionProofs.LoggedOutSessionRefreshes | services/auth/internal/service/auth_service.go:248-266 | after any history a session that logs in and out still refreshes |
| SessionProofs.RefreshDoesNotRenewAccess | services/auth/internal/service/auth_service.go:338-352 | after any history a session logs in, refreshes and is evicted after its first lifetime: the newest access token is rejected, the newest refresh token rotates |
| SessionStoreProofs.UpdateAppliesOnce | services/auth/internal/scyllastore/session_store.go:95-106 | once a conditional update applied, none that expects the same generation ever applies again, whatever updates, deletions and version bumps follow |
| SessionStoreProofs.GenerationCountsUpdates | services/auth/internal/scyllastore/session_store.go:74-106 | a stored row lives until deleted, and its generation is the stored one plus the number of updates that applied |
| SessionStoreProofs.DeletedRowStaysGone | services/auth/internal/scyllastore/session_store.go:166-174 | no later update brings a deleted row back |
| AuthServiceObjects.SessionStore.AtomicBumpGen | services/auth/internal/scyllastore/session_store.go:95-106 | applies if and only if the row exists with the expected generation, and changes nothing otherwise |
| AuthServiceObjects.SessionStore.BumpUserGlobalVer | services/auth/internal/scyllastore/session_store.go:150-163 | the version goes up by one, from 0 without a row |
| AuthServiceObjects.AuthService.MintSessionTokenPair | services/auth/internal/service/auth_service.go:404-456 | a new session has a row, a cache entry and a token pair of generation 1 and the stored version, neither token ever handed out before, and the run invariants are kept |
| AuthServiceObjects.AuthService.RefreshToken | services/auth/internal/service/auth_service.go:126-244 | for every presented token the result and new state are the specified ones; on a token it handed out it rotates if and only if that is the newest of a live session at the required version, to a pair of the next generation never handed out before, and a reported replay leaves the session dead; the run invariants are kept |
| AuthServiceObjects.AuthService.Rotate | services/auth/internal/service/auth_service.go:458-502 | tokens are minted and cached only when the conditional update applied |
| AuthServiceObjects.AuthService.ValidateToken | services/auth/internal/service/auth_service.go:326-385 | on a token it handed out, accepted, for the token's own user, if and only if it is the newest at the required version of a cached session or one within its first lifetime; the cache fill keeps the run invariants |
| AuthServiceObjects.AuthService.Logout | services/auth/internal/service/auth_service.go:248-266 | the token still refreshes afterwards if and only if its row is there, it is the newest and its version is not revoked; the run invariants are kept |
| AuthServiceObjects.AuthService.LogoutAllDevices | services/auth/internal/service/auth_service.go:268-289 | bumps the stored version; each of the user's good refresh tokens is revoked if and only if its session is not cached; the run invariants are kept |
| AuthServiceObjects.AuthService.HandleTheftDetected | services/auth/internal/service/auth_service.go:504-557 | the session is dead; the user's stored version rises by one if and only if two replays were counted before, and nobody else's changes |
| AuthServiceObjects.AuthService.RecordTheftAttempt | services/auth/internal/service/auth_service.go:559-575 | the count is one more than the cached one, from 0 when lost |
| RotationRace.NoForkedSessions | services/auth/internal/service/auth_service.go:126-244 | with any number of replicas, arbitrary cache contents and versions, and any interleaving of read, update and sign steps, deletions and expiries, no two calls succeed from the same generation, and the refresh tokens signed for a session are 1, 2, 3, … in order |
| RotationRace.CasKeeps | services/auth/internal/scyllastore/session_store.go:95-106 | a conditional update applies only for the newest signed generation with no other winner outstanding, and keeps the chain invariant |
| RotationRace.UndisturbedCallSucceeds | services/auth/internal/service/auth_service.go:126-244 | a call that nothing disturbs, on a token of the row's generation, succeeds from the cache and from the row alike, moving the row up by one and signing the next generation at the version it read |
| SigningKeyProofs.FirstStartKeeps | pkg/token/eddsa_maker.go:44-111 | a first start on an empty table establishes the key invariant, with a lifetime of at least 90 days |
| SigningKeyProofs.KeysKeptRun | pkg/token/scylla_keystore.go:157-212 | every run of waiting, minting, rotating and restarting keeps it: one current key, active in the table, rows expiring as written, each token's key retired no earlier than its issue |
| SigningKeyProofs.LiveTokenVerifies | pkg/token/eddsa_maker.go:451-483 | a token dated and expiring at most 60 days after its key was checked finds its own public key at every instant before it expires in every later run of the process |
| SigningKeyProofs.LiveTokenVerifiesIff | pkg/token/eddsa_maker.go:451-483 | a token of any duration, dated any time after its key was checked, does so in every later run of the process if and only if it never was live or its last instant is within its key's lifetime |
| SigningKeyProofs.SixtyDayTokenOutlivesKey | pkg/token/eddsa_maker.go:139-161 | from a first start with a 90-day key, a run that signs a 60-day token just before the margin, dated two seconds after the check, and ends with the token live and its key not found |
| SigningKeyProofs.TokenSurvivesRestartsIff | pkg/token/eddsa_maker.go:44-111 | across every later run with restarts a token of any duration is verifiable at every instant before it expires if and only if it never was live, or expires within 30 days of its key's storage and within 7 days of the earliest rotation; the latter always holds for at most 7 days |
| SigningKeyProofs.RestartForgets | services/auth/db/migrations/1_initial_schema.cql:47-56 | when a token outlives the 30 days there is a run, waiting and one restart, after which the live token's key is unknown |
| SigningKeyProofs.RotationForgets | pkg/token/scylla_keystore.go:198-212 | when it outlives the 7 days there is a run, rotating at the earliest instant and restarting 7 days later, after which the live token's key is unknown |
| SigningKeyProofs.WeekTokenForgotten | pkg/token/eddsa_maker.go:44-111 | from any first start, a week's token signed 24 days later is forgotten by a restart while it is live |
| SigningKeyProofs.StoredJwksCoversTokens | pkg/token/scylla_keystore.go:215-270 | the key set written to the table has the key of every unexpired token of at most 7 days whose key cells are still there |
| SigningKeyObjects.KeyStore.LoadAllKids | pkg/token/scylla_keystore.go:29-44 | lists exactly the rows whose status is still there, each once |
| SigningKeyObjects.KeyStore.LoadCurrentKid | pkg/token/scylla_keystore.go:47-60 | returns an active key if there is one, and none only if there is none |
| SigningKeyObjects.KeyStore.StoreKey | pkg/token/scylla_keystore.go:157-195 | writes the key active, expiring as asked, its cells living 30 days, and rewrites the key set |
| SigningKeyObjects.KeyStore.RetireKey | pkg/token/scylla_keystore.go:198-212 | from then on the key is in the computed key set exactly for 7 days, or until its cells are gone if sooner; no other row changes |
| SigningKeyObjects.KeyStore.UpdateJwksCache | pkg/token/scylla_keystore.go:215-270 | the key set has exactly the listed, readable, unexpired keys |
| SigningKeyObjects.EddsaMaker.constructor | pkg/token/eddsa_maker.go:44-111 | a start loads what the table has and rotates if and only if that gives no signing key |
| SigningKeyObjects.EddsaMaker.LoadKeys | pkg/token/eddsa_maker.go:76-101 | the load loop leaves exactly the readable listed keys, and private keys of the active ones |
| SigningKeyObjects.EddsaMaker.RotateKey | pkg/token/eddsa_maker.go:381-417 | a new current key, the past one retired, all maps and the table in step, a lifetime of zero or less noted as ten years; the key invariant is kept |
| SigningKeyObjects.EddsaMaker.EnsureCurrentSigningKey | pkg/token/eddsa_maker.go:451-468 | rotates if and only if the current key is missing or has 60 days or less to live |
| SigningKeyObjects.EddsaMaker.CreateToken | pkg/token/eddsa_maker.go:139-225 | the token is signed with the current key after that check and dated by a second clock reading, its expiry in whole seconds; one whose last instant is within its key's lifetime is covered by this maker; the key invariant is kept |
| SigningKeyObjects.EddsaMaker.GetValidPublicKey | pkg/token/eddsa_maker.go:470-483 | every covered token finds its own key until it expires; a key that is found is known and not past its expiry |
| SigningKeyObjects.EddsaMaker.ExportPublicKeys | pkg/token/eddsa_maker.go:425-449 | the exported set is exactly what the maker itself would verify with |
| SocketProofs.OrderedLossFree | web/src/lib/board-socket-manager.ts:67-187 | in every run the messages put on sockets then the queue are the messages handed over, in order and once, without those a disconnect discarded; at most one live socket carries the current token and it is the registered one; an open registered socket means an empty queue |
| SocketProofs.OnlyCurrentSpeaks | web/src/lib/board-socket-manager.ts:115-138 | whatever a task sends or announces goes out on the registered socket with the current token, and an announcement leaves an empty queue |
| SocketProofs.DisconnectDiscardsIff | web/src/lib/board-socket-manager.ts:163-177 | a disconnect discards the queue if and only if a socket is registered |
| SocketProofs.PendingIsNeverStale | web/src/lib/board-socket-manager.ts:73-84 | in every run a pending entry is the newest attempt's, under the current token, neither aborted nor settled, and an unsettled attempt under the current token is the pending one |
| SocketProofs.ConnectStartsIff | web/src/lib/board-socket-manager.ts:67-95 | connecting starts exactly one attempt, under a token of its own, if and only if no open or connecting socket is registered and no attempt is pending, as when all have settled; otherwise it changes nothing |
| SocketProofs.Reconnects | web/src/lib/board-socket-manager.ts:67-160 | the run of a connection made, lost and made again ends with a second attempt fetching |
| RoomConnectionObject.RoomConnection.ConnectRoom | web/src/lib/board-socket-manager.ts:67-101 | with no open or connecting socket and every attempt settled exactly one attempt starts fetching; with an open or connecting socket or a pending attempt nothing changes; no message is lost or reordered; the run invariants are kept |
| RoomConnectionObject.RoomConnection.OnTicket | web/src/lib/board-socket-manager.ts:101-113 | a superseded attempt makes no socket; any other registers a connecting one with the current token |
| RoomConnectionObject.RoomConnection.FlushQueue | web/src/lib/board-socket-manager.ts:45-49 | the loop sends the whole queue, in order, on that socket and leaves it empty |
| RoomConnectionObject.RoomConnection.OnOpen | web/src/lib/board-socket-manager.ts:115-123 | the current socket is open, has got the whole queue after what it had, and is announced; a stale one closes and sends nothing; what is delivered and waiting stays in order |
| RoomConnectionObject.RoomConnection.OnClose | web/src/lib/board-socket-manager.ts:129-138 | a stale close is ignored; the current one gives up the entry; what waits keeps waiting |
| RoomConnectionObject.RoomConnection.DisconnectRoom | web/src/lib/board-socket-manager.ts:163-177 | afterwards no socket and no attempt there is carries the token, so none of them can register, send or announce; the pending attempt is aborted, a registered socket is closing or closed and its queue discarded |
| RoomConnectionObject.RoomConnection.SendRoomMessage | web/src/lib/board-socket-manager.ts:179-187 | the message comes right after everything delivered or waiting, on an open registered socket at once, queued otherwise |
| TicketLimiter.AtMostTenPerMinute | services/notes/cmd/main.go:47-85 | when no request of the user's misses, as when readings do not go back in lock order, no half-open minute, wherever it starts, holds more than ten requests the limiter allowed them |
| TicketLimiter.ElevenInAMinute | services/notes/cmd/main.go:63-66 | ten requests at once, one read just over a minute later and, served after it, one read just under: all pass, eleven of them within one minute |
| TicketLimiter.LimiterFollowsRuleIff | services/notes/cmd/main.go:62-85 | all along any run the limiter allows a user exactly what the full-history rule allows if and only if no request of that user finds fewer than ten allowed times that no later-served reading is a minute ahead of, where those that one is would make it ten |
| TicketLimiter.AnswersAgreeIff | services/notes/cmd/main.go:69-84 | one answer is the rule's over everything allowed so far if and only if overtaken times would not have made it ten |
| TicketLimiter.SliceIsKept | services/notes/cmd/main.go:69-84 | the slice holds exactly the allowed times that no later-served reading is a minute ahead of, in order |
| TicketLimiter.PassesIff | services/notes/cmd/main.go:69-84 | a request passes if and only if fewer than ten of the user's allowed times that no later-served reading overtook are less than a minute old by its own reading |
| TicketLimiter.RecentIs | services/notes/cmd/main.go:69-76 | the recent times are those later than the cutoff, each as often as it occurs |
| TicketLimiter.KeptOrEvicted | services/notes/cmd/main.go:69-84 | every allowed time is in the slice or was overtaken, and counts once after any cutoff |
| TicketLimiter.InOrderFollowsRule | services/notes/cmd/main.go:62-85 | readings that do not go back never miss, and make the limiter follow the full-history rule |
| TicketLimiter.UsersIndependent | services/notes/cmd/main.go:62-85 | what a user is allowed depends on that user's requests alone |
| TicketLimiter.Compact | services/notes/cmd/main.go:69-76 | the in-place filter keeps exactly the times after the cutoff, in order |
| TicketLimiter.Bucket.Admit | services/notes/cmd/main.go:69-84 | whatever the clock reads, the slice becomes its recent times and the request's own if fewer than ten were recent |
| TicketLimiter.TicketRateLimiter.Allow | services/notes/cmd/main.go:62-85 | whatever the clock reads, the answer and the record are those of that user's slice, whatever other users did; as long as the user's readings have not gone back it is the full-history rule's |
| NoteTitles.CandidatesDiffer | services/notes/internal/service/notes_service.go:57-61 | the names tried for one title are pairwise different |
| NoteTitles.CandidatesAre | services/notes/internal/service/notes_service.go:57-61 | the names tried are the base and the base with -2 up to -20, in that order |
| NoteTitles.Service.ReserveNoteTitle | services/notes/internal/service/notes_service.go:48-83 | reserves the first free name among base, base-2, …, base-20, and fails if and only if all are taken, changing nothing |
| NoteTitles.Service.CreateNote | services/notes/internal/service/notes_service.go:85-127 | all three tables name the note under the reserved title; a refusal writes nothing; every note stays indexed |
| NoteTitles.TitlesStayUnique | services/notes/internal/service/notes_service.go:48-127 | under every interleaving of creators and every write failure, each note's title is indexed for that note, no two notes of a workspace share a title, and a created note is there under its title |
| NoteTitles.UndisturbedCreatorSucceeds | services/notes/internal/service/notes_service.go:85-127 | among any other creators, one that nothing disturbs ends with its note under the first free name in all three tables |
| NoteTitles.AllTakenFails | services/notes/internal/service/notes_service.go:48-83 | when all twenty names are taken it fails and writes nothing |
| Workspaces.WorkspaceTablesAgree | services/workspace/internal/service/workspace_service.go:398-638 | in every run both membership tables give the same roles, both invitation tables hold the same open invitations, a token is accepted once at most, and an inviter has one link per workspace at most |
| Workspaces.MembershipChangesEntitled | services/workspace/internal/service/workspace_service.go:398-485 | a membership changes only by creation, by a manager granting a role below their own, by a manager's removal or a non-owner leaving, or by accepting an open invitation for that workspace and role |
| Workspaces.NoRowsBeforeCreation | services/workspace/internal/service/workspace_service.go:87-111 | in every run every membership and invitation belongs to a created workspace |
| Workspaces.NewLinkReplacesOld | services/workspace/internal/service/workspace_service.go:488-537 | an invitation survives a new one if and only if they are not links of the same inviter and workspace, and survives unchanged |
| Workspaces.InvitationOutranksIff | services/workspace/internal/service/workspace_service.go:398-609 | an accepted invitation gives its role whatever the inviter's, where a role update would have been refused unless the role is below the actor's; the new member outranks the inviter if and only if an admin invited an owner |
| Workspaces.AdminInvitesOwner | services/workspace/internal/service/workspace_service.go:488-609 | a run of creating, promoting, inviting and accepting after which a user nobody with the owner role let in is an owner |
| Workspaces.OwnersCreatedOrInvited | services/workspace/internal/service/workspace_service.go:398-609 | in every run an owner is the workspace's creator unless an invitation to it as an owner succeeded |
| Workspaces.OwnerStaysIff | services/workspace/internal/service/workspace_service.go:398-485 | a call leaves an owner in place if and only if it is no role update or removal of theirs by a manager and no invitation to a lesser role they accept |
| Workspaces.OwnerThroughoutIff | services/workspace/internal/service/workspace_service.go:398-485 | an owner stays one all along a run if and only if no call in it unseats them in the state it meets |
| Workspaces.WorkspaceWithoutOwner | services/workspace/internal/service/workspace_service.go:398-485 | creating, promoting an admin and that admin's demotion of the owner leave a workspace without any owner |
| Workspaces.ListingRepairsIff | services/workspace/internal/service/workspace_service.go:170-214 | from any tables, listing reports every workspace either table knows and leaves the user's rows agreeing if and only if no by-user row contradicted the member table |
| Workspaces.ListingReads | services/workspace/internal/service/workspace_service.go:170-214 | a listing has the workspaces of either table, with the by-user role first, and copies exactly the rows that table lacks |
| Workspaces.TrimTwice | services/workspace/internal/service/workspace_service.go:488-506 | an address cleaned before storing reads as empty later if and only if it was empty when checked |
| Workspaces.TrimTakesEnds | services/workspace/internal/service/workspace_service.go:500 | cleaning an address takes spaces off both ends and nothing else |
| WorkspaceServiceObject.Service.CreateWorkspace | services/workspace/internal/service/workspace_service.go:87-111 | a fresh workspace has its owner as its one member, and the owner's listing has it; agreement of the tables is kept |
| WorkspaceServiceObject.Service.UpdateMemberRole | services/workspace/internal/service/workspace_service.go:398-447 | succeeds if and only if an admin grants at most editor or an owner at most admin; then that membership, and no other, has the role in both tables; agreement is kept |
| WorkspaceServiceObject.Service.RemoveMember | services/workspace/internal/service/workspace_service.go:450-485 | succeeds if and only if a member who is not an owner leaves or an admin or owner removes somebody else, each error coming exactly in its case; then that membership, and no other, is gone from both tables; agreement is kept |
| WorkspaceServiceObject.Service.InviteMember | services/workspace/internal/service/workspace_service.go:488-537 | succeeds if and only if an admin or owner names a role; the invitation is in both tables for seven days, and of the others exactly the same inviter's links to that workspace go, if it is a link; agreement is kept |
| WorkspaceServiceObject.Service.ResetInviteCodeLinks | services/workspace/internal/service/workspace_service.go:766-799 | the scan deletes exactly the inviter's open links of that workspace, from both tables |
| WorkspaceServiceObject.Service.AcceptInvitation | services/workspace/internal/service/workspace_service.go:540-609 | succeeds if and only if the invitation is there, unused and not past its last instant; the user is then a member with the role, and whoever presents the token again finds no invitation; agreement is kept |
| WorkspaceServiceObject.Service.RejectInvitation | services/workspace/internal/service/workspace_service.go:612-638 | succeeds if and only if the invitation is there and unused; whoever presents the token then finds no invitation, and no membership changes; agreement is kept |
| WorkspaceServiceObject.Service.ListMyWorkspaces | services/workspace/internal/service/workspace_service.go:170-214 | both scans together list each workspace once with the by-user role first, and backfill exactly the missing rows, which are none when the tables agree |

## Left out

Weaker than the source:

- NoteRoomProofs.PassiveReplicas: excludes legacy `update` frames and forwarded frames that browsers act on, whose exact effect is LegacyUpdateReplicaIff and ForwardedFrameReplicaIff, and a stored snapshot that is JSON but neither an object nor null. A patch that lacks one of its fields, which the server reads as empty and browsers reject, and the queueing of patches by a browser whose copy is empty are not modelled.
- NoteRoomProofs.DurableRun: excludes legacy `update` frames, whose exact effect is LegacyUpdateDurableIff.
- RoomConnectionObject.RoomConnection.DisconnectRoom: the retry timer is not part of the object; after an abnormal close the entry is gone, so the timer outlives a disconnect and may connect again, which is a connect at any time here.
- RoomConnectionObject.RoomConnection.ConnectRoom: an object holds one room's entries; the module-level maps keyed by room id, whose functions touch their own key only, are not modelled.
- NoteRoomObject.Room.Drain: write pumps drain between loop events, not in the middle of a fan-out.
- NoteRoomObject.Room.Flush: is one successful step; takes, failures and interleavings are FlushProtocol's.
- AuthServiceObjects.AuthService.RefreshToken: handles a replay it finds before it returns; see the next line.
- AuthServiceObjects.AuthService.HandleTheftDetected: runs within the refresh that found the replay, where the source starts a goroutine; RotationRace lets deletions fall anywhere, but is about forks only.
- SigningKeyProofs.KeysKeptRun: key ids are unix seconds, and a rotation is left out when a row of the same second exists; a rotation reads the clock once; store writes succeed.
- Workspaces.WorkspaceTablesAgree: calls are atomic and their writes succeed; two accepts of one token that interleave are not modelled.

Note room:

- The other rooms of a process, which a panic in one takes down too, and a write on its way to the database at that moment.
- Presence details (name, colour, avatar, cursor position) beyond whether a member has identified.
- The race between creating a room and removing an emptied one, and two rooms for one note.
- The 400 ms debounce as a duration; only the order of arming, firing and taking is modelled.
- Time to live of logged updates; pings, read deadlines and connection errors.
- The whiteboard hub, a variant of the same room.

Sessions:

- Database errors in the middle of a call; signing errors, except in RotationRace.
- Expiry of the revocation row, and two version bumps that read the same value.
- Expiry of single cells of a session row; a row expires as a whole.
- The cache entry for a user's version, which is written and never read; profile caching.
- Device fingerprints, creation and update times, cache costs and times to live.

Signing keys:

- The precision of stored times: `expires_at` comes back in whole milliseconds after a restart, and cells expire in whole seconds.
- Keys, signatures, JWT and PEM encoding: a key pair is an opaque number.
- Several maker processes over one table, failed store writes, and the time to live of the stored key set itself.

Socket manager:

- Reconnect backoff and its timer (a reconnect is a connect at any time), message and state listeners apart from "open".

Tables:

- Workspace creation's name and slug reservation, `UpdateWorkspace`, `DeleteWorkspace`, `GetWorkspace`, `ListMembers`; names looked up by `ListMyWorkspaces` after its merge; the inviter and join-time columns of members.
- Reading, updating and deleting notes; assets.

Elsewhere:

- RPC handlers, configuration, storage of assets, logging, the React interface and its editor.

# Session lifecycle, verified

A Dafny model of the session-token lifecycle of go-user-system: refresh-token families in the
database, access tokens, the authentication state store with its two backends, the browser's
refresh coordinator, and roles with the one-time administrator. `dafny verify dfyconfig.toml`
checks everything.

How the parts fit:

| file | what it holds |
|---|---|
| `SessionModel.dfy`, `Text.dfy` | rows of `users` and `refresh_tokens`, the service calls, and `Apply`: what one call does alone |
| `CallAnswers.dfy` | for each call: exactly when it succeeds, why it is refused, and which columns of which rows differ afterwards |
| `SessionServices.dfy`, `SessionHandlers.dfy` | repositories, services and handlers as methods over the tables, each proved to be one call of `Apply` |
| `HandlerRuns.dfy` | runs of the handlers, signing and calling in any order, are runs of calls the family theorems speak of |
| `FamilyProtocol.dfy`, `FamilyTheorems.dfy` | runs of calls, the invariant of every reachable table, and theorems over whole runs |
| `RowLocks.dfy`, `Serializability.dfy`, `SerialTheorem.dfy` | the same calls as transactions that interleave statement by statement under row locks, and strict serializability |
| `Progress.dfy`, `ConcurrentSessions.dfy` | absence of deadlock, and the family theorems for every interleaving |
| `UserLock.dfy` | what goes wrong when a rotation reads the user row without its lock |
| `AuthHistory.dfy`, `MemoryStore.dfy`, `RedisStore.dfy`, `StoreAgreement.dfy` | the store's meaning as a function of past events, both backends refining it, and when they agree |
| `LoginLimiter.dfy`, `TokenManager.dfy`, `AccessSessions.dfy` | login attempts beside each other, signing and parsing, access tokens after revocation |
| `RefreshCoordinator.dfy` | the tabs of one browser and their lock before the statement-level server, beside any other clients |
| `Rbac.dfy`, `Bootstrap.dfy` | role assignment, the permission joins, the first administrator |

Assumptions. Time is an integer and every reading of a clock is an argument. Hashes name what they
hash; a JWT is its claims under a secret, and nobody else signs with it. `Issuer` lists all
refresh tokens signed during a run; `HandlerRunsAreFeasible` shows that every run of the handlers
has such an issuer. Nobody else presents a token that was signed for a browser. A statement of a transaction runs in one piece once the rows it reads for update
are not locked by others; locks last to commit or rollback; uncommitted rows are visible to their
own transaction; unique keys wait for uncommitted duplicates. A refused transaction takes no
further lock. A Redis key is live while the time is before its deadline, MULTI runs in one piece,
and the Redis client sends EXPIRE in whole seconds, rounded down but at least one.

Three results differ from what the documentation suggests; the model follows the code:

- A revoked access token is refused up to its expiry and accepted again from the expiry to the
  end of the 30 second parsing leeway, because the store forgets the revocation at the expiry
  (`RevokedTokenIsAcceptedOnlyInLeeway`, with the instance `LeewayReopensRevokedToken`).
- The two state stores give the same answers exactly when the configured window is a whole number
  of seconds (`StoresAgreeExactlyOnWholeSeconds`); the configuration accepts any positive duration.
- Coordinated tabs never trigger replay detection exactly when the lock manager exists or there is
  one tab (`CoordinationPreventsReplay`); the code falls back to no lock when the browser has none.

## Model

| member | source | states |
|---|---|---|
| SessionServices.AuthService.RotateRefreshToken | internal/service/auth.go:128-230 | The statements, with rollback on error and a replay committed before it is answered, are the one call `RotateToken`; on success the record has the user and family of the stored row |
| SessionServices.AuthService.RotateInTransaction | internal/service/auth.go:137-222 | An answer other than Ok leaves the tables to be rolled back; Ok with the replay flag means the family is revoked |
| SessionServices.AuthService.StoreRefreshToken | internal/service/auth.go:80-97 | Invalid records and duplicate keys change nothing; otherwise one live row is added |
| SessionServices.AuthService.RevokeRefreshToken | internal/service/auth.go:232-271 | Only the owner's token is revoked; an already revoked one is a successful no-op |
| SessionServices.UserService.UpdateUserPassword | internal/service/user.go:238-289 | The order of refusals, the version bump and the revocation of every live row are the one call `ChangePassword` |
| SessionServices.RefreshTokenRepository.Create | internal/repository/refresh_token.go:26-28 | Inserts unless the JTI or the hash is taken |
| SessionServices.RefreshTokenRepository.RevokeByJti | internal/repository/refresh_token.go:40-50 | Row by row: only the named row and only while live |
| SessionServices.RefreshTokenRepository.RevokeFamily | internal/repository/refresh_token.go:52-61 | No live row of the user's family is left; revoked rows keep time and reason |
| SessionServices.RefreshTokenRepository.RevokeAllByUserId | internal/repository/refresh_token.go:63-72 | No live row of the user is left; revoked rows keep time and reason |
| SessionServices.UserDao.UpdateUserPasswordByUserId | internal/dao/user.go:46-61 | Guarded by the old hash; raises the version by one; reports whether a row matched |
| SessionServices.TokenRecord.constructor | internal/handler/user_handler.go:510-518 | A new record opens a family named by its own JTI |
| SessionHandlers.SessionHandler.StoreLogin | internal/handler/user_handler.go:186-212 | A login stores the root of a new family and sets its cookie only if stored |
| SessionHandlers.SessionHandler.RefreshTokens | internal/handler/user_handler.go:239-323 | Missing or unparsable cookies are cleared without touching the tables; otherwise the call is the rotation of the parsed claims into a token with the same user and version |
| SessionHandlers.SessionHandler.LogOut | internal/handler/user_handler.go:337-394 | An access token of another user stops the logout; otherwise its revocation until expiry is recorded and the refresh token revoked |
| SessionHandlers.SigningKeepsIssuer | internal/auth/token_manager.go:122-157 | What login and refresh handlers sign keeps the issuer well formed: successors copy user and version |
| SessionHandlers.HandlerCallsAreSanctioned | internal/handler/user_handler.go:259-312 | The token arguments of the calls that handlers make are those of signed tokens and their recorded parents |
| HandlerRuns.HandlerRunsAreFeasible | internal/handler/user_handler.go:186-394 | In every run of logins, refreshes, logouts and password changes, with signing apart from the call and logins signed for the version they read now or earlier, the issuer is well formed, the calls are a feasible run, and the tables are what that run leaves |
| HandlerRuns.SigningIsSound | internal/handler/user_handler.go:259-300 | Signing one more token, for a version the user has or had or for parsed claims, unmakes no earlier part of the run |
| HandlerRuns.CallIsPermitted | internal/handler/user_handler.go:510-518 | The call of a stored, rotated or revoked token is permitted in the state it meets, racing logins included |
| HandlerRuns.RefreshMakesTheHandlersCall | internal/handler/user_handler.go:259-312 | A refresh with a signed token that parses is an event of a run, and makes the rotation of the handler |
| HandlerRuns.LoginMakesTheHandlersCall | internal/handler/user_handler.go:186-212 | A login for a version the user has or had is an event of a run, and makes the call of the handler |
| FamilyProtocol.CallKeepsInvariant | internal/service/auth.go:187-219 | Every call keeps the table invariant: rows match signed claims, every family is one chain |
| FamilyProtocol.RotationExtendsChain | internal/service/auth.go:191-219 | Rotating the live tail appends its successor to the family's chain |
| FamilyProtocol.RevocationKeepsChain | internal/repository/refresh_token.go:52-72 | Revoking live rows for other reasons than rotation keeps the chain |
| FamilyProtocol.ReachableInvariant | internal/service/auth.go:128-230 | The invariant holds after every feasible run |
| CallAnswers.RotationSucceedsExactly | internal/service/auth.go:128-219 | In every reachable state a handler's rotation with a fresh successor succeeds if and only if the user is active at the token's version, the row is there, unrevoked and unexpired, and the successor expires in the future |
| CallAnswers.ReplayIsDetectedExactly | internal/service/auth.go:165-184 | A replay is answered if and only if the row was rotated and the user is active at the token's version, expired or not |
| CallAnswers.RotationAnswers | internal/service/auth.go:128-230 | The answer of every rotation in every reachable state, refusals in the order of the source |
| CallAnswers.RotationWrites | internal/service/auth.go:191-219 | Exactly the successor is added, with the family of the old row, and exactly the old row is retired |
| CallAnswers.ReplayWrites | internal/service/auth.go:165-184 | Exactly the live rows of the family are revoked, with time and reason, nothing else changes |
| CallAnswers.StoreSucceedsExactly | internal/service/auth.go:80-97 | A login's token is stored if and only if its JTI and hash are free, as a live root row, nothing else changes |
| CallAnswers.LogoutSucceedsExactly | internal/service/auth.go:240-270 | A logout succeeds if and only if its token is stored; a live row is revoked, a revoked one stays as it was, no other row changes |
| CallAnswers.OnlyOwnersSucceed | internal/service/auth.go:254-256 | On any tables success means that user and hash of the row are those presented, and for a rotation that the user is active at the version |
| CallAnswers.PasswordChangesExactly | internal/service/user.go:239-265 | A different new password is accepted if and only if the old one is right and the new one has at least 12 characters and at most 72 bytes |
| CallAnswers.PasswordAnswers | internal/service/user.go:239-287 | Every refusal in the order of the source, none of which changes the tables |
| CallAnswers.PasswordWrites | internal/dao/user.go:46-61 | Password, salt and version of that user change, exactly the live rows of the user are revoked, all else stays |
| CallAnswers.AccountWrites | internal/service/user.go:41-103 | Registration adds an active user of version 1 under a free key; a status change changes only the status |
| FamilyTheorems.FamilyIsOnePath | internal/service/auth.go:191-219 | In every reachable table each row lies on the single acyclic `replaced_by` path of its family, all but the last rotated, the last live or revoked for logout, password change or replay |
| FamilyTheorems.PathKeepsOwner | internal/handler/user_handler.go:259-312 | Along a path user and version are constant and the expiry never moves back |
| FamilyTheorems.AtMostOneLive | internal/service/auth.go:162-219 | A family never has two live rows |
| FamilyTheorems.RotationSucceedsExactlyOnLiveTail | internal/service/auth.go:145-219 | A well-formed rotation with fresh successor succeeds if and only if the user is active at that version and the token is the unexpired live tail |
| FamilyTheorems.RevocationIsFinal | internal/repository/refresh_token.go:40-72 | Over any continuation rows persist, identity never changes, a revoked row never changes, versions never fall |
| FamilyTheorems.DeadFamilyStaysDead | internal/service/auth.go:165-228 | A family without live row never has one again |
| FamilyTheorems.ReplayKillsFamily | internal/service/auth.go:165-184 | After a replay answer the family is dead in every continuation |
| FamilyTheorems.RotatedTokenAlwaysReplays | internal/service/auth.go:165-189 | A rotated token of an admitted user always gets the replay answer, whatever the clock, and leaves the family dead |
| FamilyTheorems.SecondRotationFails | internal/service/auth.go:162-219 | No JTI is rotated successfully twice |
| FamilyTheorems.LogoutEndsOneToken | internal/service/auth.go:257-269 | Logout touches one row at most, is a no-op on a rotated token, and its token never rotates again nor kills its family |
| FamilyTheorems.OldVersionIsRefused | internal/service/auth.go:145-147 | A refresh or access JWT of an older version is refused in every later state and changes nothing |
| FamilyTheorems.PasswordChangeCutsOff | internal/service/user.go:249-288 | After a password change no row of the user is live, the new password is stored, and all tokens of the old version stay refused, rows inserted later by a racing login included |
| FamilyTheorems.DisabledUserIsRefused | internal/dao/user.go:68-70 | A disabled user's tokens are refused from then on |
| FamilyTheorems.RowsAreConserved | internal/service/auth.go:80-97 | Rows in the table are the logins stored plus the successful rotations |
| FamilyTheorems.RotatedAtMostOnce | internal/service/auth.go:187-219 | The rotations of a JTI in a run are one or none, as its row says |
| FamilyTheorems.FamilyIsConserved | internal/service/auth.go:191-219 | A family has as many rotated rows as rotations and one row more |
| SerialTheorem.StrictlySerializable | internal/service/auth.go:137-222 | Every interleaving of statements with rollbacks anywhere commits the tables and gives the answers of a serial run of the answered requests, in an order that respects real time |
| SerialTheorem.ReachedInvariant | internal/service/auth.go:240-270 | Every action of the interleaved system keeps locks, reads and log consistent |
| Serializability.LastStatementApplies | internal/service/user.go:249-288 | On every view of the tables a transaction's last statement amounts to its whole call |
| Serializability.StatementIsClean | internal/dao/user.go:26-29 | Every statement leaves exclusive locks, unchanged reads and writes on locked rows only |
| Serializability.InsertableAgrees | migrations/00003_create_refresh_tokens.sql:15-16 | The unique keys give the same verdict on the committed tables and on every view |
| SerialTheorem.CommitKeepsKnowledge | internal/repository/refresh_token.go:30-38 | A commit never invalidates what another transaction read for update |
| Progress.NoDeadlock | internal/service/auth.go:138-149 | With user rows locked before token rows, some open transaction can always execute or commit |
| ConcurrentSessions.CommittedTablesAreSound | internal/service/auth.go:137-222 | Committed tables of every interleaving satisfy the invariant, one live row per family |
| ConcurrentSessions.OneRotationWins | internal/service/auth.go:162-219 | In every interleaving two requests that were told their rotation of one JTI succeeded are the same request |
| ConcurrentSessions.OneInsertWins | migrations/00003_create_refresh_tokens.sql:15-16 | In every interleaving a JTI is stored by at most one request |
| ConcurrentSessions.ReplayHasWinner | internal/service/auth.go:165-184 | In every interleaving a replay is answered only if another request was told that its rotation of the token succeeded |
| ConcurrentSessions.ReplayedFamilyIsDead | internal/service/auth.go:165-184 | In every interleaving an answered replay means no committed live row of the family |
| ConcurrentSessions.AnsweredComesFirst | internal/service/auth.go:223-229 | In every serial order of a run a call answered before another began precedes it |
| ConcurrentSessions.VersionIsCommitted | internal/dao/user.go:46-61 | In every interleaving the committed version of a user is one plus the password changes answered with success |
| ConcurrentSessions.RotationSeesChanges | internal/service/auth.go:145-147 | In every interleaving a rotation that is not refused has a token signed after all password changes answered before it began |
| ConcurrentSessions.ChangedPasswordRefusesOldTokens | internal/service/user.go:249-288 | In every interleaving a rotation that begins after a password change answered, with a token for the version committed before the change began or an older one, is refused |
| UserLock.SuccessorSlipsIn | internal/service/auth.go:137-149 | With a plain read of the user row a run is possible in which a rotation, begun after its login answered, and a password change both succeed, the successor stays live, and no serial order explains it |
| UserLock.ChangeKillsSuccessor | internal/service/user.go:249-288 | In a serial run a rotation followed by a successful password change leaves no live successor |
| UserLock.RaceExists | internal/dao/user.go:26-29 | A concrete registration, login, rotation and password change meet the premises of that race |
| AuthHistory.WindowIsExact | internal/authstate/memory.go:104-112 | A window contains no reset and only failures before its end |
| AuthHistory.AfterFailure | internal/authstate/memory.go:104-112 | A failure adds one to the open window of its key or opens a new one of count one |
| AuthHistory.FailureAdds | internal/authstate/memory.go:70-112 | A failure adds one to the live counts of its account and its address while their windows are open, and to no other |
| AuthHistory.ResetCounts | internal/authstate/memory.go:89-94 | A reset brings the live count of its account to 0 and leaves addresses and other accounts alone |
| AuthHistory.WaitIsExact | internal/authstate/memory.go:60-68 | The wait is, to the millisecond, the time until neither limit is reached any more |
| AuthHistory.LastRevocationDecides | internal/authstate/memory.go:33-58 | A JTI is revoked exactly for the lifetime of its last revocation |
| MemoryStores.MemoryStore.RevokeAccessToken | internal/authstate/memory.go:33-42 | Records the revocation unless the lifetime is not positive |
| MemoryStores.MemoryStore.IsAccessTokenRevoked | internal/authstate/memory.go:44-58 | Answers by the history; the lazy delete leaves the history unchanged |
| MemoryStores.MemoryStore.CheckLoginLimit | internal/authstate/memory.go:60-68 | Answers by the history and leaves it unchanged |
| MemoryStores.MemoryStore.CounterRetryAfter | internal/authstate/memory.go:114-127 | The wait of one key by the history; an expired counter, and only that, is deleted |
| MemoryStores.MemoryStore.RecordLoginFailure | internal/authstate/memory.go:70-87 | Adds one failure to the history and answers by the new history |
| MemoryStores.MemoryStore.IncrementCounter | internal/authstate/memory.go:104-112 | The counter becomes the last window of the grown history |
| MemoryStores.MemoryStore.ResetLoginAccount | internal/authstate/memory.go:89-94 | Adds a reset of the account only |
| RedisStores.RedisStore.RevokeAccessToken | internal/authstate/redis.go:20-25 | Records the revocation unless the lifetime is not positive |
| RedisStores.RedisStore.IsAccessTokenRevoked | internal/authstate/redis.go:27-30 | Answers by the same history function as the memory store |
| RedisStores.RedisStore.CheckLoginLimit | internal/authstate/redis.go:32-72 | Answers by the history; the fallback second shows only for limits that are not positive, and with positive ones the answer is that of the memory store |
| RedisStores.RedisStore.RecordLoginFailure | internal/authstate/redis.go:74-105 | Adds one failure with the window the server keeps and answers by the new history; the fallback second shows only for windows that are not positive |
| RedisStores.RedisStore.CountBoth | internal/authstate/redis.go:83-94 | The transaction of INCR, EXPIRE NX and PTTL returns the count and the wait of the last windows of the grown history |
| RedisStores.WindowIsCut | internal/authstate/redis.go:83-92 | The window kept is the one asked for cut to whole seconds, but at least one second |
| RedisStores.RedisStore.CountFailure | internal/authstate/redis.go:83-92 | INCR and EXPIRE NX leave the counter with a deadline, equal to the last window of the grown history |
| RedisStores.RedisStore.ResetLoginAccount | internal/authstate/redis.go:107-109 | Adds a reset of the account only |
| StoreAgreement.RunMemory | internal/authstate/memory.go:33-127 | The memory store answers every sequence of calls as the history specification says |
| StoreAgreement.RunRedis | internal/authstate/redis.go:20-109 | The Redis store answers every sequence of calls as the history specification says |
| StoreAgreement.StoresAgreeExactlyOnWholeSeconds | internal/authstate/redis.go:83-90 | For given positive limits and window both stores answer all sequences alike if and only if the window is whole seconds |
| StoreAgreement.ReadsAreInvisible | internal/authstate/memory.go:44-68 | A limit check or revocation check put in anywhere changes no later answer |
| LoginLimiter.LoginHandler.Login | internal/handler/user_handler.go:137-168 | Check, verify, then record or reset; refused attempts leave no trace |
| LoginLimiter.OverrunIsBounded | internal/handler/user_handler.go:137-168 | With at most k attempts of an account or address at once no window counts more than the limit plus k - 1 |
| LoginLimiter.OverrunIsReached | internal/handler/user_handler.go:137-168 | That bound is reached for every k, every account and every address, whatever the two limits are |
| LoginLimiter.RetryAfterIsExact | internal/handler/user_handler.go:570-581 | The header is sent if and only if a limit is reached; its seconds unblock, no smaller whole number does, and it is at most the window rounded up |
| LoginLimiter.AloneIsTheHandler | internal/handler/user_handler.go:137-168 | An attempt with nothing beside it leaves in the model of concurrent attempts the history that the handler leaves |
| TokenManager.GeneratedTokenParsesExactly | internal/auth/token_manager.go:122-239 | A generated token parses, to all its claims, if and only if user, name and JTI are valid and the time is within 30 seconds around its life in whole seconds, as its own type only |
| AccessSessions.RevocationLasts | internal/service/auth.go:273-288 | Repeated revocations and other store calls never move the end of a revocation |
| AccessSessions.RevokedTokenIsRefusedUntilExpiry | internal/service/auth.go:99-126 | A revoked access token is refused from the revocation to its expiry |
| AccessSessions.AcceptedExactly | internal/service/auth.go:99-126 | A request is let through if and only if its token parses, its user is active at its version, and its last revocation has ended or there is none |
| AccessSessions.UnrevokedTokenIsAccepted | internal/middleware/auth_middleware.go:47-73 | A token that nobody revokes is accepted if and only if the time is in its life plus leeway and its user is active at its version, whatever else the store is asked |
| AccessSessions.RevocationEndsAtExpiry | internal/service/auth.go:273-288 | A revocation asked for in time holds up to the expiry exactly; one asked for later leaves no trace |
| AccessSessions.RevokedTokenIsAcceptedOnlyInLeeway | internal/middleware/auth_middleware.go:47-73 | A revoked access token is accepted if and only if it parses, its user is active at its version, and the time is between expiry and end of leeway |
| AccessSessions.LeewayReopensRevokedToken | internal/auth/token_manager.go:194 | An instance of the acceptance after expiry |
| RefreshCoordinator.Coordinator.Refresh | frontend/src/api/refresh-coordinator.ts:24-34 | Callers share the refresh under way; a new one starts only when none is |
| RefreshCoordinator.Coordinator.Settle | frontend/src/api/refresh-coordinator.ts:29-31 | Settling clears the closure and ends one refresh |
| RefreshCoordinator.RunsAreHonest | frontend/src/api/refresh-coordinator.ts:19-34 | In every coordinated run, however transactions interleave, a token in the jar or sent by a tab is spent by no rotation but that of a waiting tab, and no rotation of the browser's tokens was answered with a replay |
| RefreshCoordinator.SentCookieIsFresh | frontend/src/api/client.ts:28-37 | The cookie a coordinated tab has sent is committed and not rotated until its own rotation has answered |
| RefreshCoordinator.CoordinationPreventsReplay | frontend/src/api/refresh-coordinator.ts:19-34 | In no interleaving of refreshes, logins, logouts and other clients' transactions is a rotation of the browser's tokens answered with a replay, if and only if there is a lock or one tab |
| RefreshCoordinator.UncoordinatedReplays | frontend/src/api/refresh-coordinator.ts:26-28 | Two tabs without lock send one cookie and the second is answered with a replay |
| RefreshCoordinator.RunOut | internal/service/auth.go:137-222 | A transaction with nothing open beside it commits and answers what the call alone does |
| RefreshCoordinator.RefreshDelivers | frontend/src/api/refresh-coordinator.ts:19-34 | With nothing beside it a tab's refresh runs to its end and the successor is in the jar |
| RefreshCoordinator.JarFollowsReplies | internal/handler/user_handler.go:317-392 | The jar takes a new token on login and refresh, is emptied by logout and password change, and stays on any refusal |
| Rbac.RbacService.AssignRolesToUser | internal/service/rbac.go:118-158 | Trims and dedupes, then replaces in one transaction; any failure leaves the table unchanged |
| Rbac.RbacRepository.ReplaceUserRolesByCodes | internal/repository/rbac.go:101-126 | Succeeds exactly on known, distinct codes and then gives the user exactly their roles; an unknown code changes nothing, a repeated one is refused; other users keep theirs |
| Rbac.RbacRepository.AssignRoleToUserByCode | internal/repository/rbac.go:30-45 | Adds the role row if missing, or reports an unknown code |
| Rbac.AssignmentIsExact | internal/service/rbac.go:129-145 | After success the user has exactly the trimmed codes, other users theirs, and a repeat changes nothing |
| Rbac.AssignmentSucceedsExactly | internal/service/rbac.go:118-147 | Assigned if and only if the user id is positive and the list is non-empty with known, non-blank codes; a refusal changes nothing |
| Rbac.AssignmentWrites | internal/repository/rbac.go:101-126 | Afterwards a row of the user is there if and only if it is that of some trimmed code, and every other row is as before |
| Rbac.ListUserPermissionCodes | internal/repository/rbac.go:87-99 | Strictly ascending, and contains a code exactly when `UserHasPermission` says so |
| Rbac.JoinsAgree | internal/repository/rbac.go:47-60 | The check's count over one join is positive exactly when the list's own join, table after table, yields the code |
| Rbac.PermissionIsGranted | internal/repository/rbac.go:47-60 | A user has a permission if and only if a role of the user grants a permission with that code |
| Rbac.LessIsDictionaryOrder | internal/repository/rbac.go:94-97 | The order of the list is that of a dictionary |
| Rbac.AscendingIsUnique | internal/repository/rbac.go:94-97 | A strictly ascending list is determined by its elements |
| Bootstrap.AdminService.BootstrapAdmin | internal/service/bootstrap.go:19-85 | The order of refusals, and on success one user with both roles; any failure leaves the tables unchanged |
| Bootstrap.BootstrapSucceedsExactly | internal/service/bootstrap.go:19-85 | Succeeds if and only if both roles exist, nobody has the admin role, the trimmed name is free and long enough and the password in bounds; then exactly the user and its two role rows are added, otherwise nothing |
| Bootstrap.BootstrapAloneIsARun | internal/service/bootstrap.go:39-84 | A bootstrap with nothing beside it is a run of the transaction's steps, with the same rows |
| Bootstrap.AtMostOneAdmin | internal/service/bootstrap.go:39-84 | From no administrator, registrations and bootstraps in any interleaving make at most one |
| Bootstrap.OnlyAssignmentReopensBootstrap | internal/service/bootstrap.go:51-57 | While no role assignment runs administrators stay, every bootstrap that counts is refused, and one that can still create had counted before |
| Bootstrap.CreatorHadCounted | internal/service/bootstrap.go:40-80 | In every run, role assignments included, a creation follows its own count of no administrator, no other bootstrap counts or creates in between, and only a role assignment in between can have added one |
| Bootstrap.AssignmentAddsSecondAdmin | internal/service/rbac.go:143-145 | A role assignment between the count and the creation leads to two administrators: assignments do not take the role's lock |

## Left out

- HTTP, Gin, GORM, JSON binding, cookie attributes, logging, metrics, health checks and Swagger: plumbing without an invariant.
- Passwords, SHA-256, HMAC and UUID: hashing and signing are injective names, JTIs are arguments.
- SQL engine details: gap locks, snapshot reads outside transactions, collation, soft delete and rounding of stored times. String equality is exact.
- Row by row progress of one UPDATE: a statement waits for all its rows and then runs in one piece.
- Nil database or repository, and failures of storage other than a rollback: the error wrapping they lead to is a single branch.
- `RevokeAllRefreshTokens`, `UpdateNickname`, `GetProfile`, configuration: no route, or single-branch facts.
- Registration of users is one insert (`RegisterUser`); usernames and `last_login_at` do not matter to sessions. The role row it adds is in `Bootstrap.dfy`.
- Tokens stored before `family_id` existed: runs start from empty tables.
- LoginLimiter.LoginHandler.Login: account and address come trimmed and in lower case; folding of letter case is not modelled.
- Ordering of several JWT faults in one token: parsing either yields the claims or does not.
- Redis failures: the error is passed on; no state changes in the model.
- Lost replies of the browser: a reply is delivered before its lock is released.
- Go and TypeScript integer widths: counters, versions and times do not wrap around.

# Verified model of the authentication engine

This project models the stateful heart of the engine in Dafny and proves what it keeps over whole
runs. Each component is modelled twice: as functions on plain values that say what a step does, and,
where the source works by changing things, as a class or a method with the same steps, loops and
error branches that is proved to compute those functions. The theorems are about the functions, so
they hold of the classes. What an operation computes is fixed by statements that do not use its
function: exact conditions in the modules named `Exact`, independent readers and reference definitions
elsewhere.

* **Plugins** (`PluginOrder`, `Shutdown`): the depth-first search that orders modules, lifecycle
  registration and the reverse shutdown.
* **Core** (`Identifiers`, `Core`, `CoreLaws`, `CoreRuns`, `CoreLives`, `CoreExact`, `Revoking`): the
  Store and the core operations of an engine without a cache: sign-up, sign-in, sessions, passwords, tokens.
* **Caches** (`TtlCache`, `CacheLaws`, `AuthEngine`): the TTL cache and the engine with its two
  caches, proved to refine the engine without one, and bounded in what it can get wrong when the
  cache fails.
* **Races** (`TokenRace`, `RefreshRace`): concurrent consumers of one single-use token, and concurrent
  refreshes.
* **Storage** (`Conditions`, `MemoryAdapter`, `SqlText`, `SqlEngine`, `SqlMeaning`, `SqlRows`): the
  in-memory adapter on the heap, and the SQL engine as a compiler whose output is read back by a
  lexer, a parser and an evaluator written for the proof.
* **Grants** (`OAuth`, `OAuthLaws`, `OAuthRuns`, `OAuthExact`, `OAuthService`, `DeviceGrant`,
  `DeviceLaws`, `DeviceExact`, `DeviceService`): authorization codes, rotating refresh tokens, and the
  device flow of RFC 8628.
* **Session limit** (`SessionCap`).
* **Audit** (`AuditPipeline`, `AuditService`, `Sanitizer`): the batching pipeline as interleaved
  steps, and the metadata sanitizer.
* **Codecs** (`Codec`, `Password`, `FixedWidth`): base64, the Argon2id string, ECDSA signatures and
  JWK integers.

## Where the code differs from what is said about it

* `ResetPassword` is documented as atomic (password.go:110-111). The Store adapter ignores the error
  of each session update (adapter/bridge/bridge.go:423), so a reset can succeed and leave a session
  active: `CoreRuns.ResetAllOrNothing` says exactly when, `CoreRuns.ResetCanLeaveASession` shows one.
* The audit fallback is there "to guarantee zero lost audit logs"
  (plugins/audit/service.go:84). A record sent during `Close`, after the last worker has exited and
  before the record channel is closed, is lost, and no other is: `AuditPipeline.LostExactlyWhenOrphaned`
  is the exact condition, `AuditPipeline.RecordDuringCloseIsLost` a losing schedule. A `Record` call
  that comes after `Close` has closed the channel panics: `AuditService.Service.Record`.
* Refresh tokens rotate so that a code has one valid descendant, but the revoking update does not ask
  that the token is still unrevoked (plugins/oauth-provider/service.go:439): overlapping refreshes with
  one token all succeed. `RefreshRace.SingleUnlessContended` is the exact condition,
  `RefreshRace.TwoRefreshesFork` a schedule.
* The options that switch refresh-token rotation and PKCE off have no effect, because the defaults are
  applied after them (plugins/oauth-provider/config.go:86-89). `OAuthRuns.ProvidersRotate` uses this;
  `OAuthLaws.RefreshLineage` says what would happen otherwise.
* The OAuth service consumes a code before it compares the client, the redirect URI and the verifier,
  so a mismatched request spends the code: `OAuthRuns.CodeGrantSpends`, `OAuthRuns.StolenCodeIsSpent`.
* The sanitizer does not look inside Go values of other types than generic maps and slices:
  `Sanitizer.CleanExactlyWhen`.
* A negative slow-down increment lets a device collect pending answers without waiting:
  `DeviceLaws.NegativeIncrementBreaksPacing`. So do polls whose updates fail, whose errors are ignored
  (plugins/device-authorization/service.go:190, 203): `DeviceLaws.LostWritesBreakPacing`.
* The in-memory adapter checks unique fields and indexes on insertion and not on update
  (adapter/memory/memory.go:194-214): `MemoryAdapter.RunKeepsUnique` says exactly when they stay unique.

## Conventions

* Identifiers and plaintext tokens are numbers from a counter (fresh and distinct), 0 being the empty
  string; a token hash is an injective constructor. Password hashing, key derivation, PKCE hashing,
  email normalization and the clock library are parameters.
* Time is an integer shared by engine and cache; it never decreases and is constant within one
  operation. `DeviceGrant` counts nanoseconds.
* Store calls are atomic. Where an operation makes several, it takes the set of calls that fail, so
  that rollbacks are part of every run. Transactions restore the Store they started from.
* Go's map iteration order is modelled by choosing any remaining element.
* A log or history field (`log` in `DeviceGrant`, `origin` in `OAuth`, `sent`, `taken` and
  `sentBefore` in `AuditPipeline`, `issued` in `TokenRace`, `code` in `RefreshRace`) records what happened
  for the theorems;
  no step depends on it.

## Model

| member | source | states |
|---|---|---|
| PluginOrder.InitOrder | plugin.go:162-200 | accepts exactly when every dependency is configured and no dependency walk is a cycle, equivalently exactly when a topological order exists; the result is one, stays in configured order as far as possible, is the input if that was in order already, and every error names a genuine obstacle |
| PluginOrder.Search.Visit | plugin.go:168-194 | one visit places the module and only what it needs, leaves finished modules alone, and terminates because unvisited modules run out |
| PluginOrder.TopologicalImpliesAccepted | plugin.go:162-200 | a topological order excludes missing dependencies and cycles |
| PluginOrder.JustifiedMeansRejected | plugin.go:172-191 | each reported error implies that no topological order exists |
| PluginOrder.BuildIndex | plugin-sdk/dependency.go:14-27 | succeeds exactly when no module is nil and no ID repeats, and then indexes every module |
| PluginOrder.ResolveInitOrder | plugin-sdk/dependency.go:14-65 | the SDK twin accepts exactly the same lists and returns a topological order |
| Shutdown.Engine.InitPlugins | plugin.go:147-156 | registrations follow the sorted modules in blocks, no lifecycle twice, everything offered is represented, and the first failing Init ends the loop |
| Shutdown.Engine.RegisterLifecycle | auth.go:165-175 | appends a lifecycle unless the same one is known; which is the same is fixed by `Shutdown.RegisteredAsOffered` |
| Shutdown.ClosersAreNotDeduplicated | plugin.go:101-108 | a plain closer is wrapped and so registered once per offer, unlike a lifecycle |
| Shutdown.ProvidingOneselfTwice | plugin.go:147-156 | a module that is a closer and provides itself is closed twice |
| Shutdown.OffersFormBlock | plugin.go:147-156 | what a module registers is one contiguous block it owns |
| Shutdown.OffersAreRepresented | auth.go:165-192 | every lifecycle and closer offered has an entry: itself, one that is the same, or a wrapper around it |
| Shutdown.EntryOwner | auth.go:165-192 | if no other module offers the same, the entry of a lifecycle or closer belongs to its module |
| Shutdown.DependentsStopFirst | auth.go:196-206 | along any dependency path, every entry of the dependent is stopped before every entry of the dependency |
| Shutdown.Engine.Close | auth.go:196-206 | stops every entry once over all calls, last registered first, past errors, and reports exactly the failures |
| Shutdown.RegisteredAsOffered | auth.go:165-192 | after any list of offers each pointer and comparable value offered is registered exactly once, every value that cannot be compared and every closer once per offer, pointers in the order of their first offers |
| Shutdown.StoppedFollowsOffers | auth.go:196-206 | so they are stopped, in the reverse order, whatever order the plugins were configured in |
| Shutdown.StartThenClose | auth.go:194-206 | from the configured plugins to the Stop calls made: refused exactly when there is no topological order; if no Init fails, a pointer or comparable value is stopped exactly once if anyone offered it and everything else once per offer, pointers in the reverse order of their first offers, and what a module alone offers before what alone any of its direct or indirect dependencies offers |
| TtlCache.Cache.Live | cache/memory/memory.go:58-68 | lazy deletion cannot be told by any reader at this or a later time |
| TtlCache.Cache.Get | cache/memory/memory.go:71-86 | returns the live value, or what a live counter decodes to in the target, and changes no live entry |
| TtlCache.Cache.Set | cache/memory/memory.go:89-104 | refuses a non-positive TTL, otherwise replaces the entry, which is live exactly before now + TTL |
| TtlCache.Cache.Increment | cache/memory/memory.go:118-134 | a live counter keeps its window and adds up, anything else starts a window of the TTL |
| TtlCache.FixedWindow | cache/memory/memory.go:118-134 | increments within one window add up in 64 bits and the window ends TTL after the first |
| TtlCache.NextWindow | cache/memory/memory.go:118-134 | the first increment after the end starts the next window |
| TtlCache.Wrap64Exactly | cache/memory/memory.go:118-134 | the 64-bit integer that differs from the sum by a multiple of 2^64 |
| TtlCache.LiveExactlyUntil | cache/memory/memory.go:58-68 | an entry is seen exactly before its expiry |
| AuthEngine.Auth.CachedSession | cache.go:20-32 | a hit is a live entry; with a reliable cache a miss means there is none |
| AuthEngine.Auth.CacheSession | cache.go:34-45 | the entry lives for the lesser of the cache TTL and the session's remaining life, if positive |
| AuthEngine.Auth.InvalidateSessions | cache.go:50-59 | only removes entries, all of those named if the cache is reliable |
| AuthEngine.Auth.GetUser | user.go:12-28 | with a reliable cache the answer is the Store's, and cached afterwards |
| AuthEngine.Auth.GetSession | session.go:89-124 | with a reliable cache the answer is that of an engine without one, and session and user are cached afterwards; with any cache no session is returned that is expired or was revoked in the Store a cache TTL ago |
| AuthEngine.Auth.CreateSession | session.go:39-85 | same Store and reply as without a cache, invariants kept |
| AuthEngine.Auth.RevokeSession | session.go:141-161 | same Store and reply as without a cache; with a reliable cache no revoked session stays cached |
| AuthEngine.Auth.RevokeUserSessions | session.go:165-208 | the same, for every active session of a user but one |
| AuthEngine.Auth.RevokeInStore | plugins/admin/service.go:550 | a revocation that bypasses invalidation keeps the bound on stale answers |
| AuthEngine.Auth.SignUp | signin.go:50-128 | same Store and reply as without a cache; any failing write rolls everything back |
| AuthEngine.Auth.SignIn | signin.go:134-173 | same Store and reply as without a cache |
| AuthEngine.Auth.SignOut | signin.go:177-205 | same Store and reply as without a cache, idempotent |
| AuthEngine.Auth.VerifyPassword | signin.go:208-234 | succeeds exactly when the account's active credential verifies the password, and each failing call is reported as such |
| AuthEngine.Auth.ChangePassword | password.go:43-72 | same Store and reply as without a cache, rolled back on every failure |
| AuthEngine.Auth.ResetPassword | password.go:112-145 | same Store and reply as without a cache, rolled back on every reported failure |
| AuthEngine.Auth.RotatePassword | password.go:211-225 | revokes the active credential and adds its successor |
| AuthEngine.Auth.VerifyEmail | password.go:180-207 | same Store and reply as without a cache (fixed by `CoreLives.VerifiedExactlyWhen`), the changed user leaves the cache |
| AuthEngine.Auth.IssueToken | verification.go:16-34 | refuses empty arguments, otherwise stores the hash of a fresh token |
| AuthEngine.Auth.ConsumeToken | verification.go:39-63 | consumes exactly an unused, unexpired token of the purpose |
| AuthEngine.Auth.RevokeTokens | verification.go:66-68 | removes every token of the purpose and subject |
| AuthEngine.Auth.PurgeExpired | auth.go:154-159 | removing expired rows breaks neither invariant |
| AuthEngine.Auth.Serve | session.go:89-124 | over every sequence of operations: the Store evolves as without a cache whatever the cache does; a reliable cache gives the very replies of an engine without one; with any cache every resolved session is unexpired and was not revoked a cache TTL ago |
| CacheLaws.BoundedEvolves | cache.go:34-45 | no Store change lets an entry outlive its session, or the revocation of its session by more than the TTL |
| CacheLaws.AgreeEvolves | cache.go:50-59 | once the entries of changed sessions are gone, the live ones equal the Store |
| CacheLaws.CachingKeeps | cache.go:34-45 | caching a valid stored session keeps both invariants |
| CacheLaws.HitsAreNotLongRevoked | session.go:96-113 | a hit is unexpired and was not revoked a TTL ago |
| Revoking.RevokeEvery | adapter/bridge/bridge.go:415-429 | revokes every active session whose update does not fail, and reports all of them as revoked |
| Revoking.RevokeOthers | session.go:180-201 | revokes all active sessions but one, or stops exactly when some update fails |
| CoreLaws.ApplyKeeps | password.go:211-225 | every operation keeps unique identifiers and emails, exactly one active password per account, and an unchanging history of revocations |
| CoreLaws.NextPassword | password.go:211-225 | replacing an active credential keeps exactly one active credential per account |
| CoreLaws.FirstPassword | signin.go:84-99 | so does the first credential of a new account |
| CoreRuns.RunKeepsWellFormed | signin.go:70-109 | in every reachable state each password account has exactly one active credential |
| CoreRuns.RevokedNeverReactivates | adapter/bridge/bridge.go:314-325 | a revoked credential is never active again in any run |
| CoreRuns.OverForGood | session/session.go:21-33 | a session once revoked, expired or deleted is resolved at no later time of any run |
| CoreRuns.SignOutIsFinal | signin.go:177-205 | after signing out the token resolves at no later time of any run |
| CoreRuns.ResetAllOrNothing | password.go:112-145 | a failed reset changes nothing; a successful one has used the token and replaced the password, and ends every session if and only if no update of an active session fails |
| CoreRuns.ResetCanLeaveASession | adapter/bridge/bridge.go:415-429 | for every configuration that lets somebody sign up, a run from the empty Store that ends with a successful reset after which a session of the user still resolves |
| CoreRuns.ChangeAllOrNothing | password.go:43-72 | a failed change changes nothing; one that spares a session ends all others, one that spares none may leave exactly those whose update failed |
| CoreExact.SignedUpExactlyWhen | signin.go:50-128 | a sign-up succeeds exactly with a valid new address and a password of permitted length if no write fails; the user is new and unverified and has a session of full lifetime unless the email must be verified first |
| CoreExact.OpenedExactlyWhen | session.go:39-80 | a session is created exactly for a user that exists, fresh and for a full lifetime |
| CoreExact.ResolvedExactlyWhen | session.go:89-124 | a token resolves exactly to the unrevoked, unexpired session under its hash and the stored user |
| CoreExact.IssuedExactlyWhen | verification.go:16-34 | a token is issued exactly for a purpose, a subject and a positive lifetime |
| CoreExact.ConsumedExactlyWhen | verification.go:39-63 | exactly an unused, unexpired token of the purpose is consumed, and only its row changes |
| CoreExact.RevokedExactly | verification.go:66-68 | exactly the tokens of the purpose and subject are removed |
| CoreExact.PurgeIsInvisible | auth.go:154-159 | a purge removes exactly the rows that expired before now; at no later time does any token resolve or get consumed differently |
| CoreExact.ChangedExactlyWhen | password.go:43-72 | a change succeeds exactly with the current password and a new one of permitted length, if no call fails whose error counts; and which other error it gets |
| CoreExact.ResetExactlyWhen | password.go:112-145 | a reset succeeds exactly with an unused, unexpired reset token and a password of permitted length, if no call fails whose error counts |
| CoreLives.VerifiedExactlyWhen | password.go:180-207 | verification succeeds exactly with an unused, unexpired token of that purpose for an existing user, who is verified in the reply and the Store |
| CoreLives.VerifiedStep | password.go:180-207 | new users start unverified, verification makes them verified, and no operation changes that otherwise |
| CoreLives.VerifiedExactlyDuring | password.go:180-207 | at the end of a run a user is verified if and only if it was before or a step of the run verified it |
| CoreLives.EntersOnceVerified | signin.go:134-173 | after a sign-up and any run that does not replace the password, the right password enters if and only if verification is not required or the run has verified the email |
| CoreLives.SessionStep | session.go:141-208 | an operation revokes an unexpired session exactly when it is a sign-out with its token, a revocation of it, or a successful revocation, change or reset that includes it and whose update of it does not fail; otherwise it stays as it is |
| CoreLives.SessionLives | session.go:89-124 | at the end of any run a session alive at its start is resolved, with its user as now stored, if and only if it has not expired and no step revoked it |
| CoreLives.IssuedTokenResolves | session.go:61-80 | the token handed out by signing in resolves after any run to its session and user if and only if it has not expired and no step revoked it |
| CoreLives.PasswordStep | password.go:211-225 | an operation that does not replace the password of a user leaves the user's secret as it was |
| CoreLives.SignUpThenSignIn | signin.go:134-173 | so it is after a sign-up and any run that does not replace the password |
| CoreLives.NewPasswordDecides | signin.go:217-234 | after a change or a reset and any run that does not replace the password again, every attempt of the user to sign in is decided by the new password: it enters (once the email is verified if it must be), another exactly if the hasher cannot tell it apart |
| TokenRace.SingleUse | verification.go:39-63 | in every interleaving at most one call consumes a token, one that asked with its hash and purpose and checked the clock before expiry |
| TokenRace.RunKeepsInv | adapter/bridge/bridge.go:484-498 | in every interleaving each used row was consumed by a call at the recorded time |
| TokenRace.RevokedTokensAreNotConsumed | verification.go:66-68 | after RevokeTokens no call that had not marked the token succeeds with it, however far it had come |
| TokenRace.GoneForGood | adapter/bridge/bridge.go:500-511 | a deleted token is consumed by no further call |
| TokenRace.SecondMarkerIsRefused | adapter/bridge/bridge.go:484-498 | of two calls past their checks the first to mark succeeds and the second is refused |
| TokenRace.AloneItSucceeds | verification.go:39-63 | without interference a call succeeds exactly when the token has its purpose, is unused and has not expired |
| TokenRace.StepsExactly | verification.go:39-68 | a check passes exactly for the purpose asked for, an unused copy and before expiry; a row is marked exactly while unused; deletions take exactly their rows |
| Conditions.Trichotomy | adapter/memory/memory.go:367-471 | less and greater mirror each other, and exactly one of less, equal, greater holds between non-nil values |
| Conditions.ComparedExactly | adapter/memory/memory.go:367-471 | nothing equals nil but nil, what reads as instants is compared as instants, numbers as numbers, everything else as text |
| Conditions.TextLessExactly | adapter/memory/memory.go:445-471 | text is compared by the first character that differs, a prefix being less |
| Conditions.FloatIsNearest | adapter/memory/memory.go:428-443 | the conversion to float64 gives the nearest multiple of the last place, ties to even |
| Conditions.ExcessIsLeast | adapter/memory/memory.go:428-443 | that place is the least with which the magnitude fits 53 bits |
| Conditions.EqualityUpTo | adapter/memory/memory.go:428-443 | equality is equality of the numbers on all integers of magnitude at most B if and only if B is at most 2^53 |
| MemoryAdapter.Adapter.Create | adapter/memory/memory.go:62-126 | inserts exactly when the key, the unique fields and the unique indexes are free; a refused insertion leaves the contents unchanged |
| MemoryAdapter.InsertedExactlyWhen | adapter/memory/memory.go:62-126 | an insertion succeeds exactly with a non-empty key that is not taken, unique fields in which no row agrees and no index in all of whose fields one does; the row is stored as given under the text of its key, everything else stays |
| MemoryAdapter.TextExactly | adapter/memory/memory.go:71-76 | the text of a key: strings as they are, integers in decimal |
| MemoryAdapter.WithoutSchema | adapter/memory/memory.go:298-304 | without a schema every model has the key "id" and no constraint |
| MemoryAdapter.ChangedExactly | adapter/memory/memory.go:194-238 | an update writes its fields into exactly the matching rows of the model, a deletion removes exactly those |
| MemoryAdapter.StepsExactly | adapter/memory/memory.go:278-296 | which store calls end a transaction function, and what each leaves |
| MemoryAdapter.ScriptsExactly | adapter/memory/memory.go:278-296 | a function succeeds exactly if all its calls do, in the states they find |
| MemoryAdapter.TableMap.CheckField | adapter/memory/memory.go:94-105 | finds exactly whether a row has this unique value |
| MemoryAdapter.TableMap.CheckIndex | adapter/memory/memory.go:107-125 | finds exactly whether a row agrees on every field of the index |
| MemoryAdapter.Adapter.FindOne | adapter/memory/memory.go:129-145 | a row exactly when one matches |
| MemoryAdapter.Adapter.Update | adapter/memory/memory.go:194-214 | changes exactly the matching rows in place, no row being shared, and counts them |
| MemoryAdapter.Adapter.Delete | adapter/memory/memory.go:217-238 | removes exactly the matching rows and counts them |
| MemoryAdapter.Adapter.CloneTables | adapter/memory/memory.go:259-272 | a copy with the same contents that shares no table and no row |
| MemoryAdapter.Adapter.Transaction | adapter/memory/memory.go:278-296 | an outer transaction that fails restores exactly the contents at its start despite the updates in place; a nested one joins it |
| MemoryAdapter.RunKeepsUnique | adapter/memory/memory.go:94-125 | a run of insertions, deletions, updates and nested transactions keeps all unique fields and composite indexes pairwise distinct throughout if and only if every update it reaches fits the rows it finds; then the outer transaction, committed or rolled back, does too |
| MemoryAdapter.FieldUniqueAfterUpdate | adapter/memory/memory.go:94-105 | a unique field stays unique under an update that writes a non-nil value to it if and only if at most one row matches and no unmatched row has an equal value |
| MemoryAdapter.IndexUniqueAfterUpdate | adapter/memory/memory.go:107-125 | a composite index stays unique under an update if and only if no updated row comes to agree, on all fields of the index, with another row updated or not |
| MemoryAdapter.UniqueAfterUpdate | adapter/memory/memory.go:194-214 | so a table stays unique under an update if and only if the update fits every unique field and index |
| MemoryAdapter.UnguardedIsCareful | adapter/memory/memory.go:194-214 | scripts whose updates leave guarded columns alone fit wherever they start |
| MemoryAdapter.UncheckedUpdate | adapter/memory/memory.go:194-214 | updates check nothing: one that writes a unique column in two rows or more leaves duplicates |
| MemoryAdapter.NestedEffectsStay | adapter/memory/memory.go:278-296 | effects of a failed nested transaction stay if its error is ignored and go with the outer one otherwise |
| SqlText.ReadRendered | adapter/sql/dialect.go:32-38 | in all three dialects the text, read with the database's own keywords, operators and identifier quotes, is the statement written, names unquoted, each placeholder standing for its own argument |
| SqlEngine.BuildCondition | adapter/sql/engine.go:379-429 | the clause and arguments of every operator, numbered from the given index |
| SqlEngine.BuildWhere | adapter/sql/engine.go:181-194 | the clause loop joins the clauses and concatenates their arguments |
| SqlEngine.FindMany | adapter/sql/engine.go:171-225 | the SELECT text and its argument list |
| SqlEngine.Update | adapter/sql/engine.go:228-277 | the UPDATE text, SET arguments before condition arguments, nothing for an empty update |
| SqlEngine.Delete | adapter/sql/engine.go:280-314 | the DELETE text and its argument list |
| SqlEngine.Count | adapter/sql/engine.go:317-348 | the COUNT text and its argument list |
| SqlEngine.Create | adapter/sql/engine.go:116-152 | the INSERT text and its argument list |
| SqlMeaning.UpdateMeaning | adapter/sql/engine.go:228-277 | read back, each column is set to its own argument and the conditions are bound after the SET arguments |
| SqlMeaning.DeleteMeaning | adapter/sql/engine.go:280-314 | read back, the statement deletes under exactly the conditions given |
| SqlMeaning.CountMeaning | adapter/sql/engine.go:317-348 | read back, the statement counts under exactly the conditions given |
| SqlMeaning.InsertMeaning | adapter/sql/engine.go:116-152 | read back, column k receives argument k; without columns the text is a statement in MySQL only |
| SqlMeaning.SelectMeaning | adapter/sql/engine.go:171-225 | read back, conditions, order, limit and offset are those of the query; the text is well formed exactly when it does not use OFFSET without LIMIT outside Postgres |
| SqlRows.SameRowsSelected | adapter/sql/engine.go:379-429 | for all models, with columns renamed or not, and comparable values, the generated conditions select exactly the rows the in-memory conditions match |
| SqlRows.SameRowsWritten | adapter/sql/engine.go:238-258 | if the model's fields have distinct columns, the SET clause writes what the in-memory update writes |
| SqlRows.UpdateAgrees | adapter/sql/engine.go:228-277 | the two adapters update the same rows to the same values |
| SqlRows.EveryRowCorresponds | adapter/sql/engine.go:238-258 | every row of a model whose fields have distinct columns has a stored counterpart |
| SqlRows.SharedColumnDisagrees | adapter/sql/engine.go:238-258 | distinct columns are needed: where two fields share one, an update of the first changes the second in the database only |
| SqlRows.IntegersAgreeUpTo | adapter/memory/memory.go:428-443 | the two adapters agree on the equality of all integers of magnitude at most B if and only if B is at most 2^53 |
| OAuthService.Provider.RegisterClient | plugins/oauth-provider/service.go:57-118 | refuses a public client without redirect URIs, otherwise registers an active one, with a secret only if confidential; owners, scopes and lineages stay as they must |
| OAuthService.Provider.AuthorizeRequest | plugins/oauth-provider/service.go:161-247 | the checks in order, then a code for the client, user, URI, scopes and challenge |
| OAuthService.Provider.ExchangeCode | plugins/oauth-provider/service.go:263-329 | the code grant step by step: tokens exactly under the conditions of `OAuthExact.ExchangedExactlyWhen`, the code newly spent exactly when the checks before the update pass, and lineages stay single |
| OAuthService.Provider.ClientCredentials | plugins/oauth-provider/service.go:331-396 | an access token without a user within the client's scopes |
| OAuthService.Provider.Refresh | plugins/oauth-provider/service.go:398-457 | the refresh grant step by step: tokens exactly under the conditions of `OAuthExact.RefreshedExactlyWhen`; a successful one keeps the lineage single exactly when the update revoking the old token succeeds |
| OAuthService.Provider.IssueBoth | plugins/oauth-provider/service.go:459-514 | an access token and a refresh token, the first staying if the second cannot be stored |
| OAuthService.Provider.Deactivate | plugins/oauth-provider/service.go:133-158 | the client becomes inactive and its unrevoked tokens are revoked unless the update fails: it is out but for those |
| OAuthService.Provider.RevokeEither | plugins/oauth-provider/service.go:517-534 | revokes the token in whichever table it is |
| OAuthService.Provider.IntrospectToken | plugins/oauth-provider/service.go:537-584 | the row of an active token |
| OAuthService.Provider.Serve | plugins/oauth-provider/service.go:250-261 | any sequence of requests is a run of the state machine, keeps owners and scopes along every token's descent and, while updates succeed, single lineages |
| OAuthLaws.RefreshLineage | plugins/oauth-provider/service.go:436-444 | a successful refresh leaves a single lineage if and only if tokens rotate and the update revoking the old one succeeds |
| OAuthLaws.CodeGrantKeeps | plugins/oauth-provider/service.go:263-329 | the code grant keeps lineage, ownership and scopes |
| OAuthLaws.RefreshGrantKeeps | plugins/oauth-provider/service.go:398-457 | so does the refresh grant, with narrowing, as long as it rotates |
| OAuthLaws.CredentialsKeep | plugins/oauth-provider/service.go:331-396 | so does the client credentials grant |
| OAuthExact.DefaultsExactly | plugins/oauth-provider/config.go:76-92 | positive lifetimes are kept, others are five minutes, an hour and thirty days; PKCE and rotation are always on |
| OAuthExact.RegisteredExactlyWhen | plugins/oauth-provider/service.go:57-118 | a client is registered exactly if confidential or with a redirect URI, active, with the given URIs, scopes and grants, and proves itself exactly with its secret |
| OAuthExact.AuthorizedExactlyWhen | plugins/oauth-provider/service.go:161-247 | a code is issued exactly to an active client for one of its own redirect URIs, within its scopes, with consent and an acceptable challenge, and holds the request |
| OAuthExact.ExchangedExactlyWhen | plugins/oauth-provider/service.go:263-329 | a code is exchanged exactly by its own authenticated client and redirect URI, unspent, unexpired, and with a verifier of 43 to 128 characters whose hash (or, if permitted, text) is the challenge, or without a challenge by a confidential client; the tokens are for the code's user and scopes |
| OAuthExact.AuthorizeThenExchange | plugins/oauth-provider/crypto.go:64-89 | the same from the authorization request over any run to the token request, in terms of the challenge of the first and the verifier of the second |
| OAuthExact.CredentialsExactlyWhen | plugins/oauth-provider/service.go:331-396 | an access token of its own exactly for an active confidential client with this grant, its secret and scopes of its own |
| OAuthExact.RefreshedExactlyWhen | plugins/oauth-provider/service.go:398-457 | a refresh succeeds exactly with an unrevoked, unexpired token of the authenticated client and scopes among the token's; the old token is revoked exactly if tokens rotate and the update succeeds |
| OAuthExact.GrantedExactlyWhen | plugins/oauth-provider/service.go:250-261 | the grant type decides which of these is asked for |
| OAuthExact.DeactivatedExactlyWhen | plugins/oauth-provider/service.go:133-158 | deactivation is refused only for unknown clients and revokes exactly the client's unrevoked tokens in the tables it updates |
| OAuthExact.RevokedExactly | plugins/oauth-provider/service.go:517-534 | a revoked token is never active again and no other token is touched |
| OAuthExact.IntrospectedExactlyWhen | plugins/oauth-provider/service.go:537-584 | a token is active exactly while stored, unrevoked and before its expiry, and its own row is shown |
| OAuthExact.NewIsActive | plugins/oauth-provider/service.go:537-584 | a freshly issued token is active exactly until its lifetime is over, as long as it is not revoked |
| OAuthExact.AuthorizationRefusals | plugins/oauth-provider/service.go:161-247 | which error a refused authorization gets |
| OAuthExact.ExchangeRefusals | plugins/oauth-provider/service.go:263-329 | which error a refused exchange gets |
| OAuthExact.RefreshRefusals | plugins/oauth-provider/service.go:398-457 | which error a refused refresh gets |
| OAuthRuns.SingleLineage | plugins/oauth-provider/service.go:416-444 | in every reachable state a code has at most one unrevoked refresh-token descendant |
| OAuthRuns.ProvidersRotate | plugins/oauth-provider/config.go:76-92 | this holds for every provider that can be constructed |
| OAuthRuns.ScopesStayWithin | plugins/oauth-provider/service.go:183-189 | in every reachable state a token's scopes are scopes of its code and of its client's limited scopes |
| OAuthRuns.ExchangedOnce | plugins/oauth-provider/service.go:286-310 | a spent code is exchanged by no later request of any run |
| OAuthRuns.CodeGrantSpends | plugins/oauth-provider/service.go:286-328 | a request spends its code exactly when it passes the checks before the update, and gets tokens only for the code's client and redirect URI |
| OAuthRuns.MismatchSpends | plugins/oauth-provider/service.go:303-314 | a request for the wrong client or redirect URI that passes the earlier checks is refused without tokens, and no later request of any run gets anything for the code |
| OAuthRuns.StolenCodeIsSpent | plugins/oauth-provider/service.go:312-314 | such a request is reachable for every configuration: a second client presents the code of the first |
| OAuthRuns.RevokedClientStaysSilent | plugins/oauth-provider/service.go:133-158 | after RevokeClient no token of the client is ever active again, except those whose update failed |
| OAuthRuns.RevokedClientIsOut | plugins/oauth-provider/service.go:133-158 | RevokeClient leaves no token of the client unrevoked outside the tables it failed to update |
| OAuthRuns.ActiveAfterRevocation | plugins/oauth-provider/service.go:537-584 | right after RevokeClient a token of the client is active if and only if it was and its table was not updated |
| OAuthRuns.InactiveGetsNothing | plugins/oauth-provider/service.go:398-411 | no grant issues anything to an inactive client |
| RefreshRace.Conservation | plugins/oauth-provider/service.go:398-457 | in every interleaving, with failing writes and revocations, a code has one unrevoked descendant more than requests that issued one, less the descendants revoked |
| RefreshRace.ForkCount | plugins/oauth-provider/service.go:436-444 | then a code has one unrevoked descendant, and one more for every successful request beyond the first with the same token |
| RefreshRace.SingleUnlessContended | plugins/oauth-provider/service.go:398-457 | in every interleaving of refreshes, once none is under way, every code has a single unrevoked descendant if and only if no request looked a token up between another's lookup and update of it |
| RefreshRace.StepApart | plugins/oauth-provider/service.go:417-426 | two requests come to share a token exactly through a lookup between another's lookup and update |
| RefreshRace.TwoRefreshesFork | plugins/oauth-provider/service.go:436-444 | the schedule of two requests with one token that leaves two unrevoked descendants |
| RefreshRace.StepsExactly | plugins/oauth-provider/service.go:417-457 | a lookup finds its token exactly while unrevoked and unexpired, the update revokes it whatever happened meanwhile, the insertion adds one token for the code |
| DeviceService.Service.StartGrant | plugins/device-authorization/service.go:59-138 | the first free user code of the attempts, or a conflict if all are taken |
| DeviceService.Service.PollGrant | plugins/device-authorization/service.go:141-274 | every branch of a poll, with the updates whose errors are ignored, rolled back if the session cannot be created |
| DeviceService.Service.AuthorizeGrant | plugins/device-authorization/service.go:332-399 | only a pending, unexpired grant becomes authorized, for this user |
| DeviceService.Service.DenyGrant | plugins/device-authorization/service.go:402-456 | only a pending, unexpired grant becomes denied |
| DeviceService.Service.Serve | plugins/device-authorization/service.go:141-274 | any sequence of requests is a run of the state machine |
| DeviceLaws.EveryStepMoves | plugins/device-authorization/service.go:153-253 | in every run a status moves only pending to authorized to consumed, or pending to denied, and a decided grant keeps its user |
| DeviceLaws.OneSessionPerCode | plugins/device-authorization/service.go:209-246 | in every reachable state a code has one session exactly when its grant is consumed, for the user who authorized it and before expiry, and none otherwise |
| DeviceLaws.FailedSessionIsRetried | plugins/device-authorization/service.go:222-228 | a failed session creation leaves the grant authorized, a later poll fulfils it, and only once |
| DeviceLaws.IntervalCountsSlowDowns | plugins/device-authorization/service.go:185-198 | in every reachable state the interval is the initial one plus the increment for every slow_down answer that was recorded; it counts all of them if and only if none was lost or the increment is below a second |
| DeviceLaws.PendingAnswersAreSpread | plugins/device-authorization/service.go:183-207 | for any schedule and any non-negative increment, n recorded pending answers took n - 1 initial intervals of the grant's life, and so did all if none was lost |
| DeviceLaws.NegativeIncrementBreaksPacing | plugins/device-authorization/service.go:183-207 | for every negative increment some schedule breaks that, without any failing write |
| DeviceLaws.LostWritesBreakPacing | plugins/device-authorization/service.go:200-207 | for every configuration some schedule of polls with failing updates breaks it when lost answers count |
| DeviceLaws.PendingIsPaced | plugins/device-authorization/service.go:200-207 | a pending answer keeps the pacing of the grant |
| DeviceExact.PolledExactlyWhen | plugins/device-authorization/service.go:141-274 | every answer to a poll: a session exactly from an authorized, unexpired grant of the client itself, for the user who authorized it; slow_down exactly before the interval is over; and each refusal |
| DeviceExact.StartedExactlyWhen | plugins/device-authorization/service.go:59-138 | a grant is started exactly for a client with a free user code, pending, for its whole lifetime, five seconds between polls unless configured |
| DeviceExact.AuthorizedExactlyWhen | plugins/device-authorization/service.go:332-399 | exactly a pending, unexpired grant with fewer failures than the limit is authorized, for this user |
| DeviceExact.DeniedExactlyWhen | plugins/device-authorization/service.go:402-456 | exactly a pending, unexpired grant is denied |
| DeviceExact.UnknownCode | plugins/device-authorization/service.go:332-456 | a user code nobody was given changes nothing |
| DeviceExact.SecondsExactly | plugins/device-authorization/service.go:185-198 | durations count in whole seconds, the rest dropped |
| SessionCap.Service.BeforeSessionCreate | plugins/multisession/service.go:454-521 | evicts exactly the excess, none newer than a session it spares; rejects exactly when the limit is reached under that policy |
| SessionCap.Service.CreateSession | session.go:39-80 | everyone stays within the limit; exactly the evicted sessions are revoked, none newer than one spared, and the new one has the full lifetime; a failed creation leaves the sessions as they were |
| SessionCap.Service.RevokeOtherSessions | plugins/multisession/service.go:235-308 | all or nothing, exactly when the current session is the user's own and unrevoked and no update fails; then exactly the user's other unrevoked sessions are revoked |
| SessionCap.Service.RevokeAllSessions | plugins/multisession/service.go:311-354 | revokes every active session whose update does not fail |
| SessionCap.CreationStaysCapped | plugins/multisession/service.go:465-486 | making room before adding keeps every user within the limit, and one who had reached it exactly there |
| SessionCap.CappedThroughout | plugins/multisession/service.go:454-521 | in every run from within the limit every state is within the limit |
| SessionCap.PrefixIsOldest | plugins/multisession/service.go:481-486 | the first of the sorted sessions are a set of oldest ones |
| SessionCap.SpareTheYoung | plugins/multisession/service.go:481-490 | session by session: only valid sessions of the user are evicted, none created after one that is spared |
| SessionCap.SortOldestFirst | plugins/multisession/service.go:481-483 | a permutation ordered by creation, ties in any order |
| AuditPipeline.Conservation | plugins/audit/service.go:380-437 | in every interleaving the records sent are exactly those in the channel, in the batches and handed over, in batches of permitted sizes, the channel holding the latest in order |
| AuditPipeline.AcceptedInOrder | plugins/audit/service.go:79-97 | in every interleaving what is sent and what is stored directly are exactly the records of the calls that did so, in order |
| AuditPipeline.RecordExactly | plugins/audit/service.go:79-91 | the channel takes a record while open and with room, it is stored directly while full, and the call panics once closed |
| AuditPipeline.WorkerExactly | plugins/audit/service.go:404-436 | when a worker flushes, receives, sees the stop and leaves |
| AuditPipeline.CloseExactly | plugins/audit/service.go:450-459 | the steps of Close in order, the last waiting for all workers |
| AuditPipeline.CloseLosesNothing | plugins/audit/service.go:450-459 | when Close returns, in every interleaving, everything sent before it began was handed over, and without overlapping Record calls every record was handed over exactly once |
| AuditPipeline.LostExactlyWhenOrphaned | plugins/audit/service.go:404-459 | when Close has returned, in every interleaving, the records lost are exactly those sent after every worker had exited, so nothing is lost if and only if there is none |
| AuditPipeline.OneWorkerKeepsOrder | plugins/audit/service.go:380-437 | a single worker hands records over in the order sent |
| AuditPipeline.RecordDuringCloseIsLost | plugins/audit/service.go:450-459 | a schedule in which a Record call succeeds during Close and its record is lost |
| AuditPipeline.StepKeepsInv | plugins/audit/service.go:404-436 | every step of every process keeps the invariant |
| AuditService.Service.Record | plugins/audit/service.go:79-91 | the select: sent if there is room, stored directly if not, given up only with the context, a panic only once the channel is closed |
| AuditService.Service.Drain | plugins/audit/service.go:419-435 | the draining loop is a schedule of the machine that empties the channel and ends the worker |
| AuditService.Service.Close | plugins/audit/service.go:450-459 | from every reachable open state Close can run to its end, everything sent being handed over |
| Sanitizer.SensitiveMeansMentions | plugins/audit/sanitizer.go:69-77 | surrounding space makes no difference to whether a key is sensitive |
| Sanitizer.SensitiveExactlyWhen | plugins/audit/sanitizer.go:69-77 | a key is sensitive exactly when a pattern is spelt out somewhere in it, each letter in either case |
| Sanitizer.EssentialPatternsDecide | plugins/audit/sanitizer.go:12-35 | seven of the twenty-two patterns contain another one, so that fifteen decide |
| Sanitizer.PayloadExactly | plugins/audit/sanitizer.go:38-67 | an object is scrubbed, a struct as the object it marshals to, nothing stays nothing, and anything else becomes one of two summaries, by whether every part can be marshalled |
| Sanitizer.ShapeIsKept | plugins/audit/sanitizer.go:79-106 | leaves and structs are kept as they are, lists keep their length and objects their keys |
| Sanitizer.RedactedPaths | plugins/audit/sanitizer.go:79-106 | at any depth a value under a sensitive key is the placeholder and nothing remains below |
| Sanitizer.UntouchedPaths | plugins/audit/sanitizer.go:79-106 | elsewhere the result has exactly the paths and leaves of the input |
| Sanitizer.Idempotent | plugins/audit/sanitizer.go:79-106 | sanitizing twice is sanitizing once |
| Sanitizer.MetadataIdempotent | plugins/audit/sanitizer.go:38-67 | so it is for whole payloads |
| Sanitizer.CleanExactlyWhen | plugins/audit/sanitizer.go:79-106 | the result is clean if and only if the nested values of other Go types already were |
| Sanitizer.MetadataClean | plugins/audit/sanitizer.go:38-67 | every JSON payload is left clean, other payloads exactly when their other parts are |
| Sanitizer.TypedSecretSurvives | plugins/audit/sanitizer.go:79-106 | a secret inside a value of another Go type survives |
| Base64.RoundTrip | password/password.go:96-110 | decoding undoes encoding, in the standard and the URL alphabet of RFC 4648, section 4 and 5 |
| Base64.CanonicalSpelling | password/password.go:144-152 | of the spellings the decoder accepts, the printed one is the one without line breaks and spare bits |
| Base64.LettersOfTheTable | password/password.go:96-110 | the letters are those of tables 1 and 2 of RFC 4648 |
| Base64.OnlyTheTableIsRead | password/password.go:144-152 | no other character is read |
| Base64.DigitsHoldTheBits | password/password.go:96-110 | as bits the digits are the bytes, the high bits first, and as few unset bits as fill the last digit |
| Base64.SpeltLetterByLetter | password/password.go:96-110 | one letter of the table is printed for each digit |
| Decimal.ScanFormat | password/password.go:138-143 | a printed number is scanned back, leaving what follows it |
| Decimal.FormatExactly | password/password.go:107-109 | decimal notation, digit by digit |
| Decimal.ScanSigns | password/password.go:138-143 | signs are read into signed operands only |
| Decimal.ScanTooLarge | password/password.go:138-143 | numbers that do not fit the operand are not read |
| Decimal.ScanNothing | password/password.go:138-143 | where no digit comes no number is read |
| Password.NewArgon2id | password/password.go:75-93 | zero fields take the documented defaults, so that no hasher has one |
| Password.DecodePrint | password/password.go:128-154 | for all parameters and salts and every non-empty key the printed string decodes to the same |
| Password.DecodedExactlyWhen | password/password.go:128-154 | exactly the strings of six segments with this algorithm, version 19, parameters that fit and a key decode, to those; another version is reported as such |
| Password.PrintedInFull | password/password.go:96-110 | the PHC string, segment by segment |
| Password.PrintedByDefault | password/password.go:56-61 | with a hasher without parameters it begins as documented |
| Password.VerifyHash | password/password.go:113-126 | the right password verifies under any later configuration, another only if the derived keys collide |
| Password.PrintInjective | password/password.go:96-110 | equal strings have equal parameters, salt and key |
| Password.DecodeIgnoresDecoration | password/password.go:128-154 | text before the first separator and after the parameters is ignored |
| Password.VerifyPanics | password/password.go:113-126 | of all strings exactly those make verification panic that decode like the printed string of parameters with zero rounds or lanes |
| Password.PrintedPanics | password/password.go:96-110 | no configured hasher prints such a string |
| FixedWidth.EncodeECDSASignature | plugins/jwt/algorithms.go:307-325 | fails exactly when a component does not fit, otherwise fills the buffer with both halves |
| FixedWidth.SignatureRoundTrip | plugins/jwt/algorithms.go:327-337 | decoding an encoded signature gives the components if and only if neither is negative; the OIDC verifier reads the same pair |
| FixedWidth.SignatureReencodes | plugins/jwt/algorithms.go:307-337 | re-encoding a decoded signature of the right length gives the same bytes |
| FixedWidth.PadBytes | plugins/jwt/jwks.go:148-155 | left padding to a size |
| FixedWidth.Uint64ToBigEndian | plugins/jwt/jwks.go:165-173 | the shortest big-endian form |
| FixedWidth.ParseRSAPublicKey | plugins/oidc/jwks.go:270-287 | the exponent accumulated in a 64-bit integer |
| FixedWidth.RSARoundTrip | plugins/jwt/jwks.go:90-101 | an exported RSA key is imported unchanged if and only if its exponent is not negative or is the least 64-bit integer |
| FixedWidth.CoordinateRoundTrip | plugins/jwt/jwks.go:102-118 | an exported coordinate keeps its magnitude, at full width exactly when it fits |
| FixedWidth.ECRoundTrip | plugins/oidc/jwks.go:289-315 | an exported elliptic curve key is imported unchanged if and only if no coordinate is negative |
| FixedWidth.NeverExported | plugins/jwt/jwks.go:84-133 | symmetric keys and unknown curves are never exported |
| FixedWidth.CoordinatesHaveFieldSize | plugins/jwt/jwks.go:135-146 | each curve has its JWK name and as many bytes per coordinate as the order of its field needs |
| FixedWidth.SignaturesHaveFieldSize | plugins/jwt/algorithms.go:294-305 | each algorithm has the halves of its own curve |
| FixedWidth.PlaceValue | plugins/jwt/jwks.go:157-163 | the notation is big-endian: raising a byte raises the value by its place |
| FixedWidth.ExportsAreUrlSafe | plugins/jwt/jwks.go:84-133 | exported members are printed in the URL-safe alphabet |
| FixedWidth.PointIsExported | plugins/jwt/jwks.go:119-126 | the point of an Edwards curve key is exported as it is |
| FixedWidth.ECParsedExactlyWhen | plugins/oidc/jwks.go:289-315 | an elliptic curve key is read exactly from one of three curve names and two base64url members, each coordinate from its own |
| FixedWidth.RSAParsedExactlyWhen | plugins/oidc/jwks.go:270-287 | an RSA key is read exactly from two base64url members |

## Left out

- Hooks, events, mail, loggers and user-agent data: called at points that change nothing modelled here; the verification mail of sign-up and the reset mail are the operations `RevokeTokens` and `IssueToken`.
- An engine without a cache object: it is the specification (`Core`), to which the cached one is compared.
- Accounts of other providers than the password one, and operations of plugins that write users or sessions straight to the Store; revoking the sessions of a user behind the engine's back is covered.
- Failing Store calls other than those an operation lists in its `broken` set.
- JSON conversion between entities and rows, and the reading of a zero time as an absent one in the Store adapter.
- FindMany and Count of the in-memory adapter, and its locks: reads that only repeat the condition matching. Transactions are modelled one at a time.
- Byte slices, floats and pointers as row values, the LIKE operator beyond its textual fallback, the reflective unwrapping of slices in IN, SQL three-valued logic and collations.
- Spacing and line breaks of the generated SQL beyond one rendering; DDL, migrations and row scanning.
- Unicode: strings are sequences of characters, white space and case are those of ASCII in the sanitizer and in client names.
- Float rounding of `Duration.Seconds` above about 97 days in the device flow.
- Generation and normalization of user codes, rate limiting and the inspection of a user code in the device flow; nothing increments the failed attempts of a grant.
- Client names and types other than public and confidential, the hash function of PKCE, secret hashing, and scopes as text in the OAuth provider.
- Failures of `recordBatch`: a batch handed over counts as delivered, as the workers count it. An unbuffered record channel, which no option can set up.
- Concurrency in the device, session-limit and cache models and in the OAuth service but for refreshes: runs are sequential there. Interleaving is modelled for token consumption, refreshes and the audit pipeline.
- HTTP and gRPC adapters, Redis, OIDC discovery, organizations, roles, passkeys, phone and SAML plugins: libraries and plumbing without a state machine of their own here.

# Formal model of the AraNES LMS backend core

A Dafny 4.11 project that models the parts of this repository whose correctness depends on
several functions, several processes or whole runs, and proves what they guarantee. Nothing
here runs the service. `dafny verify dfyconfig.toml` checks everything.

## What is modelled

* **Token revocation** (`RevocationTime`, `RevocationProtocol`, `RevocationLimits`,
  `RevocationWrites`, `RevocationWriteLimits`, `RevocationAnswers`, `RevocationCache`,
  `RevocationService`). The protocol of table, shared Redis and in-process
  LRU as a step system in which calls of any number of workers interleave at every `await`;
  and the same calls, not overlapping, as a class refining an abstract set of revoked
  identities.
* **Read-through caches of the RBAC and i18n endpoints** (`CacheKeys`, `Records`,
  `CachePayloads`, `Crud`, `CrudLaws`, `DatabaseSession`, `Endpoints`, `RedisCacheService`,
  `Api`, `CacheAgreement`, `Responses`, `WriteEffects`). Each request is specified as one step on tables and cache
  (`Endpoints.Serve`); the handlers, session and cache client are classes proved to take
  exactly that step, in the source's order of calls; agreement and staleness are theorems
  about all runs of steps. `Responses` and `WriteEffects` say what requests show and do in rows
  and fields, from the laws of the transactions in `CrudLaws`.
* **RBAC state** (`Seeding`, `DefaultRoles`, `SeedingSession`, `SuperAdmin`). Role seeding with
  drift detection, and the invariants of the role and user tables over all runs of requests
  and restarts.
* **Gateway documents and paths** (`PluginPaths`, `JsonPointers`, `OpenApi`, `OpenApiMerge`,
  `OpenApiMeaning`, `OpenApiPublished`). What a reference means before and after schemas are renamed and
  documents merged (OpenAPI Specification 3.1.0, section 4.8.23; JSON Pointer, RFC 6901).
* **Plugin processes** (`PluginHost`, `PluginTable`, `PluginManager`). Processes, registry and
  ports under starts that may fail, exits at any time, and other programs' use of ports.
* **Three small cores** (`BucketFactory`, `RouteLru`, `Profiler`).

`Wrappers`, `Ordering`, `OrderedDicts` and `Json` hold the shared vocabulary. Time is counted in
whole microseconds, the resolution of the source's timestamps.

## Findings

Properties that hold only under a condition are stated with it, as an equivalence where one exists:

* The revocation guarantee is a staleness bound, and no smaller one holds (`StaleBoundIsLeast`). It
  covers exactly the identities of decodable tokens (`GuaranteedIff`): an undecodable token's expiry
  slides, and the delete of its expired row can take a renewed one (`RenewedRowCanVanish`).
* A revocation stored in Redis ends denials within the in-process lifetime, unless it is overtaken by
  a check that had found no row and stores its answer later (`WritePrevailsIff`, `CopyBoundIsLeast`).
  With a TTL of zero the wait is still a microsecond: a check that read the clock in the instant of
  the write may have read Redis before it.
* The SuperAdmin row is out of every request's reach exactly while it has a value for every
  registered permission (`RowIsFixedIffComplete`). `create_or_append_role_permissions_no_overwrite`
  creates nothing, in spite of its name.
* Path translation is undone exactly on paths not already below the prefix
  (`RoundTripIffNotUnderPrefix`); services' public paths are disjoint exactly when neither name
  continues the other after a slash (`PublicPathsOverlapIff`).
* A merge keeps every schema exactly when schemas given the same key have equal copies
  (`AllCopiesHeldIff`); two names can be given the same key exactly when one followed by an underscore
  begins the other (`KeysClashIff`). In merges that keep every schema, a reference always keeps its
  meaning exactly when it spells out the schema prefix and its service's name has no slash, tilde or
  percent sign (`AlwaysKeptIff`).
* A `launch_services` that succeeds while no process exits loses a live process exactly when two
  started services declare the same plugin name, or one that is running already (`LaunchServices`,
  `RepeatedNameLosesAProcess`); the plugin manager does not, because its table has unique names.
* A user update that gives a taken username raises an untranslated integrity error exactly when it
  also gives a role id, since looking up the role flushes the new username (`UpdateUserLaw`).
* A read after a commit that skips invalidation is right exactly when no live accepted entry hides the
  tables or nothing it shows has changed (`ReadAfterForeignIff`); a user committed by signup is missing
  from a list read before until one lifetime has passed (`SignupIsMissedUntilExpiry`).
* `docs/CAPABILITIES.md` (lines 53 and 57) lists delete endpoints for translations; the code has none,
  and neither has the model.

## Assumptions

* One clock for all workers and Redis; a Redis command whose call has ended is not carried out later.
* `BoundedStaleness` takes a bound D on one check from its clock read to its return; a decodable
  token's expiry is fixed by its jti, and no jti looks like a raw digest.
* Requests are atomic steps in the agreement and staleness theorems of the RBAC and i18n caches, and
  database transactions are atomic everywhere; ids assigned by the database are fresh.
* The default cache lifetime is positive, as `src/config.py` (line 298) requires.
* Terminating a process succeeds, and a ready process holds its port. The host's first port is
  positive, as `src/config.py` (lines 276 to 279) requires.

## Model

| member | source | states |
|---|---|---|
| `RevocationProtocol.BoundedStaleness` | src/auth/service.py:93-198 | In every interleaving of any number of workers' checks and revocations, with failing Redis calls and entries lost at any time: once a decodable token's row has committed, no check whose clock read is at least D + R + L later (a microsecond less when L is positive) answers "not revoked" before the token expires (D bounds one check, L is the negative TTL, R = max(int(L), 1) s) |
| `RevocationProtocol.RevokedRowSurvives` | src/auth/service.py:74-83 | Neither the throttled sweep nor the expired-row delete ever removes the row of a decodable token that has not expired |
| `RevocationProtocol.RevocationIsSound` | src/auth/service.py:117-171 | In every interleaving a check answers "revoked" only if a revocation of that identity had committed before it answered |
| `RevocationProtocol.StepKeepsInv` | src/auth/service.py:108-198 | The inductive invariant behind the bound: no step of any call lets a negative answer outlive what its own layer was first given (a hit never extends the layer it came from) |
| `RevocationProtocol.StepKeepsEarned` | src/auth/service.py:108-198 | Whatever says "revoked" (row, Redis entry, in-process entry, value held by a running call) goes back to a committed revocation, after every step |
| `RevocationLimits.StaleBoundIsLeast` | src/auth/revocation.py:119-141 | For every token, D and TTL, zero included: no run answers "not revoked" from b after the first commit on, before the token expires, exactly when b is at least that bound |
| `RevocationLimits.BoundIsAttained` | src/auth/service.py:117-141 | Some reachable run answers "not revoked" one microsecond below the bound: Redis and then the in-process copy are hit at their last instants |
| `RevocationLimits.GuaranteedIff` | src/auth/service.py:108-171 | Counted from an identity's latest commit to the expiry it gave, the bound holds over all runs exactly for identities of decodable tokens (or when it exceeds the 30 days a raw revocation lasts) |
| `RevocationLimits.RenewedRowCanVanish` | src/auth/service.py:150-152 | Of a raw identity revoked again just as a check deletes its expired row, the renewed row is gone, and a check at any moment of its 30 days answers "not revoked" |
| `RevocationWrites.WrittenRevocationHolds` | src/auth/service.py:192-198 | Once `revoke_token` has stored its answer in Redis, no check that had found no row still to store its own, every check whose clock read is max(L, 1 microsecond) later answers "revoked" before the expiry; so does every check begun after the write, unless its worker still holds a negative copy |
| `RevocationWrites.QuietRevocationHolds` | src/auth/service.py:174-198 | The same from the commit on: if no check of the token that had found no row (in particular, no check of it at all) was in flight when its row was committed, each later successful write while the token is valid ends the denials |
| `RevocationWrites.StepKeepsSettled` | src/auth/service.py:108-198 | The inductive invariant behind it: after such a write no step puts a negative entry into Redis, or extends a negative copy |
| `RevocationWriteLimits.WritePrevailsIff` | src/auth/service.py:129-138 | In every continuation all checks begun after the write and not answered in process answer "revoked", exactly when no check that had found no row was in flight at the write |
| `RevocationWriteLimits.CopyBoundIsLeast` | src/auth/revocation.py:57-64 | For every token and TTL that waiting time is the least over all runs |
| `RevocationAnswers.ExpiredIsNotRevoked` | src/auth/service.py:108-160 | In every interleaving a check that reads the clock at or after a decodable token's expiry never answers "revoked" |
| `RevocationAnswers.OwnRevocationHolds` | src/auth/service.py:188-191 | Once `revoke_token` has cached its answer, with no check of the token running on that worker and the copy not evicted, every check on the worker answers "revoked" at once until the expiry |
| `RevocationTime.NegativeLifetimeBound` | src/auth/revocation.py:129-136 | A negative Redis entry lives at most max(int(L), 1) seconds, and exactly that long when the token outlives L |
| `RevocationCache.EvictionTakesExpiredThenOldest` | src/auth/revocation.py:57-69 | What one insertion removes is expired or a least-recently-used prefix of the unexpired entries; nothing is removed below capacity, and an entry just written with a future deadline survives |
| `RevocationCache.CacheIsBoundedAndOrderedByUse` | src/auth/revocation.py:57-69 | After any sequence of writes, hits and removals the cache is within capacity, holds each key once, and is ordered by last use |
| `RevocationService.TokenRevocation.IsTokenRevoked` | src/auth/service.py:93-171 | For one worker without overlapping calls and Redis absent or never failing, the answer for an unexpired decodable token is membership in the set of revoked identities, whatever was cached, evicted or expired before; no row of an unexpired token is lost |
| `RevocationService.TokenRevocation.RevokeToken` | src/auth/service.py:174-198 | Adds exactly the token's identity to that set, with an unexpired row of its own expiry; other unexpired rows stay and no row is invented |
| `RevocationService.TokenRevocation.StoreRevoked` | src/auth/service.py:74-83 | The transaction stores the row and drops at most expired ones |
| `RevocationService.TokenRevocation.ShouldCleanup` | src/auth/service.py:48-54 | A call is granted as specified and moves the due time accordingly |
| `RevocationService.SweepsAreSpaced` | src/auth/service.py:48-54 | Over any calls in time order a sweep is granted exactly when none was within the interval before: granted calls are an interval apart, and none that may sweep is refused |
| `RevocationService.TokenRevocation.AskSharedLayers` | src/auth/service.py:117-171 | Past the in-process layer a positive answer implies a revocation and a negative one that no unexpired row exists |
| `RevocationService.TokenRevocation.CacheStatus` | src/auth/revocation.py:57-69 | The sweep and evict loops leave exactly the specified LRU content |
| `RevocationService.TokenRevocation.Sweep` | src/auth/revocation.py:65-67 | Popping while walking a copy removes exactly the expired entries and keeps the order |
| `RevocationService.TokenRevocation.GetRedis` | src/auth/revocation.py:93-116 | Whatever Redis answers is faithful to the table: expired entries are not served |
| `RevocationService.TokenRevocation.SetRedis` | src/auth/revocation.py:119-141 | Stores a faithful status with its lifetime and keeps every other entry faithful |
| `RevocationService.TokenRevocation.ResolveIdentity` | src/auth/revocation.py:144-194 | The identity cache never changes what a token resolves to, and stays bounded |
| `RevocationService.SweepOne` | src/auth/revocation.py:65-67 | One turn of the sweep is one step of filtering |
| `CacheKeys.LargeKeyRoundTrip` | src/i18n/cache.py:95-96 | A parser recovers both parts of a composite key, whatever characters they contain |
| `CacheKeys.LargeKeyInjective` | src/i18n/cache.py:95-96 | Different pairs of strings never share a large key |
| `CacheKeys.LargeListKeyIsNoItemKey` | src/i18n/cache.py:95-100 | No pair's key is the list key |
| `CacheKeys.KeysCollideOnlyOnSmallList` | src/user_role/cache.py:85-98 | Over all RBAC and i18n keys, two different values share a key in one case exactly: the small item "list" and the small list |
| `CachePayloads.StoredPayloadIsServedBack` | src/user_role/cache.py:30-67 | A payload the service stored passes its reader's schema check exactly when its rows meet the response schema, and is then served unchanged |
| `CachePayloads.AcceptedPayloadIsOwn` | src/i18n/cache.py:118-168 | The colliding keys are harmless: a payload a reader accepts was stored for the very value it reads |
| `CachePayloads.CheckAllBack` | src/i18n/cache.py:67-84 | A list whose items are each accepted unchanged or rejected is itself accepted unchanged or rejected |
| `Api.KeysAreStrictlyIncreasing` | src/user_role/cache.py:21-27 | The loop accepts exactly the lists strictly increasing in the table's key |
| `Api.NormalizePayload` | src/i18n/cache.py:40-84 | The normalizers as they run agree with the specified check |
| `CrudLaws.PatchIsValidIff` | src/user_role/permission.py:129-139 | A patch is accepted exactly when all keys are registered and all values booleans; a refusal lists exactly the offending keys |
| `CrudLaws.PatchRoleLaw` | src/user_role/crud.py:172-189 | Patched permissions take the new value, all others keep theirs, nothing else changes; refused exactly for a malformed patch, a missing role or SuperAdmin |
| `CrudLaws.PatchUserLaw` | src/user_role/crud.py:298-312 | The same for users, without the SuperAdmin guard |
| `CrudLaws.AppendLaw` | src/user_role/crud.py:325-354 | An append never changes a permission that has a value, and is refused exactly for a malformed patch, an unknown role or keys that have one, which are listed |
| `CrudLaws.UpdateUserLaw` | src/user_role/crud.py:251-277 | Given fields are set, others kept, one row touched, each refusal has its cause; a taken username is raised untranslated exactly when a new role id comes with it, by the flush before the lookup |
| `CrudLaws.DeleteRoleLaw` | src/user_role/crud.py:148-169 | A role is deleted exactly when it exists, is not SuperAdmin and has no users; a refusal counts them |
| `DatabaseSession.Session.Commit` | src/user_role/crud.py:111-119 | Pending rows become durable exactly when they violate no constraint |
| `DatabaseSession.Session.CreateRole` | src/user_role/crud.py:104-119 | Insert, commit and translated violation do what the transaction is specified to do, or nothing |
| `DatabaseSession.Session.UpdateRole` | src/user_role/crud.py:122-145 | The stepwise edits and commit amount to the specified transaction, or roll back |
| `DatabaseSession.Session.DeleteRole` | src/user_role/crud.py:148-169 | Guard, user count and delete amount to the specified transaction; the commit cannot violate a foreign key |
| `DatabaseSession.Session.PatchRole` | src/user_role/crud.py:172-189 | The validated merge is committed, or nothing changes |
| `DatabaseSession.Session.ResetRoles` | src/user_role/crud.py:192-201 | The filtered update empties exactly the resettable roles and counts them |
| `DatabaseSession.Session.AppendRole` | src/user_role/crud.py:325-354 | The no-overwrite append as it runs is the specified one |
| `DatabaseSession.Session.CreateUser` | src/user_role/crud.py:219-248 | Role check, insert and commit amount to the specified transaction, or roll back |
| `DatabaseSession.Session.UpdateUser` | src/user_role/crud.py:251-277 | Including the flush that the role lookup causes, and the rollback of edits that were never committed |
| `DatabaseSession.Session.PatchUser` | src/user_role/crud.py:298-312 | The validated merge is committed, or nothing changes |
| `DatabaseSession.Session.UpsertSmall` | src/i18n/crud.py:36-57 | Insert or merge, as specified |
| `DatabaseSession.Session.UpsertLarge` | src/i18n/crud.py:99-125 | Insert or merge, as specified |
| `RedisCacheService.CacheService.GetJson` | src/utils/cache.py:87-107 | A failing call yields nothing and marks the cache unavailable; a live entry is returned, an expired one is not |
| `RedisCacheService.CacheService.SetJson` | src/utils/cache.py:109-124 | A failing call stores nothing; otherwise the entry dies one default TTL later |
| `RedisCacheService.CacheService.Delete` | src/utils/cache.py:126-140 | A failing call deletes nothing; otherwise exactly the given keys go |
| `Api.Handlers.Read` | src/user_role/endpoints/roles.py:45-76 | The read-through handlers as they run: serve an accepted payload, delete a rejected one, else answer from the table and store the answer |
| `Api.Handlers.CreateRole` | src/user_role/endpoints/roles.py:79-97 | Transaction, list invalidation and item refresh in the source's order are the step of the request |
| `Api.Handlers.UpdateRole` | src/user_role/endpoints/roles.py:100-127 | The same for the update, with its refusals |
| `Api.Handlers.DeleteRole` | src/user_role/endpoints/roles.py:130-153 | The same for the delete: item, then list |
| `Api.Handlers.PatchRole` | src/user_role/endpoints/roles.py:156-181 | The same for the permission patch |
| `Api.Handlers.ResetRoles` | src/user_role/endpoints/roles.py:184-202 | The keys dropped are those of the roles listed before the reset, and the list's |
| `Api.Handlers.AppendRole` | src/user_role/endpoints/role_registry.py:20-59 | The append followed by its two invalidations |
| `Api.Handlers.CreateUser` | src/user_role/endpoints/users.py:79-104 | Transaction and cache calls of the request |
| `Api.Handlers.UpdateUser` | src/user_role/endpoints/users.py:107-134 | Transaction and cache calls of the request |
| `Api.Handlers.SetPassword` | src/user_role/endpoints/users.py:137-153 | Only the item key is dropped |
| `Api.Handlers.DeleteUser` | src/user_role/endpoints/users.py:156-174 | Refuses self-deletion before anything else |
| `Api.Handlers.PatchUser` | src/user_role/endpoints/users.py:177-200 | Transaction and cache calls of the request |
| `Api.Handlers.ResetUsers` | src/user_role/endpoints/users.py:203-214 | Drops the keys of the users listed before the reset, and the list's |
| `Api.Handlers.UpsertSmall` | src/i18n/endpoints/small.py:60-79 | Creation and patching need different permissions; item and list keys are dropped together |
| `Api.Handlers.UpsertLarge` | src/i18n/endpoints/large.py:61-85 | The same for large translations |
| `Endpoints.PlanOf` | src/user_role/endpoints/users.py:79-214 | A refused write changes no table and makes no cache call, every other write makes one; self-deletion is refused, and a translation is created or patched exactly with the permission for just that |
| `WriteEffects.WritesDoWhatTheySay` | src/user_role/endpoints/users.py:79-214 | Every write request of all fourteen, in rows and fields: exactly when it is refused and with which status; otherwise which row and fields take which request values, that everything else stays, and the body answered, field by field |
| `WriteEffects.AppendIsRefused` | src/user_role/crud.py:325-354 | An append is refused exactly for a malformed patch, an unknown name, or a key that has a value, with the status of each |
| `Responses.EveryReadShowsRows` | src/user_role/endpoints/serializers.py:4-19 | In every run with a reliable Redis, whatever is cached, a read answers with exactly the current rows: each response field its own column, permissions and texts entry by entry, lists in key order, 404 for a missing row |
| `Responses.TablesShowCell` | src/user_role/endpoints/serializers.py:4-19 | What the tables answer for each of the eight cells, said of the rows |
| `CacheAgreement.CacheAgreesWithTables` | src/user_role/endpoints/roles.py:45-202 | From an empty cache, in every run of the RBAC and i18n endpoints taken as atomic steps with a reliable Redis, each read returns what the database read would return |
| `CacheAgreement.PlanCovers` | src/user_role/endpoints/users.py:85-214 | Every write touches the keys of all values its commit changes |
| `CacheAgreement.PlanIsSound` | src/user_role/endpoints/roles.py:94-96 | Every write stores only values that are current after its commit |
| `CacheAgreement.PasswordIsNotServed` | src/user_role/endpoints/users.py:148-153 | A new password changes no cached value, so leaving the list key alone is right |
| `CacheAgreement.StepKeepsAgreement` | src/i18n/endpoints/small.py:29-79 | One request keeps every cached payload equal to the serialization of the table |
| `CacheAgreement.StalenessIsBounded` | src/utils/cache.py:87-140 | With arbitrary Redis failures and commits that skip invalidation, every answer of a read was the tables' answer at some moment within the last default TTL |
| `CacheAgreement.ReadAfterForeignIff` | src/user_role/endpoints/users.py:45-76 | From any state in which cache and tables agree: some time after a commit by code that knows nothing of the cache, a read is answered rightly exactly when no live entry that its check accepts stands under its key, or the commit changed nothing it shows |
| `CacheAgreement.SignupIsMissedUntilExpiry` | src/auth/crud.py:67-89 | From any tables: after a list read, a user committed by signup is missing from list reads until exactly one cache lifetime has passed |
| `Seeding.SeedingGuarantees` | src/user_role/bootstrap.py:71-133 | Seeding is refused exactly when a default role with a fixed id is in the way by id or by name; otherwise each permission of every row has its old value, or else the registry's default, a missing title becomes its default's, each missing default role is added with exactly its title and permissions under its id, and nothing else changes |
| `Seeding.SeedingIsIdempotent` | src/user_role/bootstrap.py:71-133 | A second run, whatever ids the database would assign, creates and changes nothing |
| `SeedingSession.ResolveFinds` | src/user_role/bootstrap.py:28-68 | The match raises exactly on drift, finds exactly the row of that name, and otherwise there is none |
| `SeedingSession.SeedSession.MatchDefaults` | src/user_role/bootstrap.py:78-122 | The loop over the default roles raises exactly on drift and collects the missing titles and rows |
| `SeedingSession.FillMissing` | src/user_role/permission.py:178-188 | Every permission has its old value, or else the given default's; a change is reported exactly when there was something to add |
| `SeedingSession.SeedSession.RunBootstrapSeeding` | src/startup/bootstrap.py:74-89 | All or nothing: drift leaves the table as it was; otherwise the table is the seeded one and the count is the number of new rows |
| `DefaultRoles.ServiceIsWellFormed` | src/user_role/defaults.py:13-22 | The registered default roles have distinct names and ids, titles, and permission defaults |
| `DefaultRoles.DefaultsAre` | src/user_role/permission.py:28-97 | Role by role, the permissions each default role is granted; it has a value for all fourteen |
| `SuperAdmin.SuperAdminIsInvariant` | src/user_role/crud.py:51-52 | From a freshly seeded database, in every run of requests and restarts, row 1 keeps its name, its title key and all fourteen permissions at true; role names and usernames stay unique and every user's role exists |
| `SuperAdmin.RowIsFixedIffComplete` | src/user_role/crud.py:325-354 | Row 1 is beyond the reach of every request exactly when it has a value for every registered permission: a missing one can be appended, as false too |
| `SuperAdmin.RequestStaysConsistent` | src/user_role/models.py:7-34 | No request leaves two roles or users of one name, or a user without its role |
| `SuperAdmin.SeedingStaysConsistent` | src/user_role/bootstrap.py:94-133 | Seeding keeps role names unique and takes no role away |
| `PluginPaths.RoundTripIffNotUnderPrefix` | gateway_server/gateway.py:46-72 | The internal translation undoes the public one on exactly the paths not already below the service's prefix, for any service name |
| `PluginPaths.PublicOfInternalIff` | gateway_server/gateway.py:50-57 | Exactly which public paths come back when translated inwards and out again |
| `PluginPaths.PublicCollidesIff` | gateway_server/gateway.py:60-72 | Two paths of one service share a public path only if equal or if one is written publicly already |
| `PluginPaths.PublicPathsOverlapIff` | gateway_server/gateway.py:46-72 | Public paths of two services can coincide exactly when the names are equal or one continues the other after a slash |
| `PluginPaths.SlashFreeNamesNeverOverlap` | gateway_server/gateway.py:46-72 | So slash-free names never share a public path |
| `PluginPaths.ToPublicOpenApiPaths` | gateway_server/gateway.py:60-72 | The loop builds the dictionary in which a later item replaces an earlier one of the same public path |
| `PluginPaths.LastItemWins` | gateway_server/gateway.py:63-71 | What stands under a public path is the last item translated to it |
| `PluginPaths.NothingLostIff` | gateway_server/gateway.py:63-71 | No path item is lost exactly when no two paths of the document share a public path |
| `OpenApi.RefsAreRewritten` | gateway_server/gateway.py:235-249 | Rewriting invents no reference |
| `OpenApi.RefsAreKept` | gateway_server/gateway.py:235-249 | And loses none |
| `OpenApi.DescendCommutes` | gateway_server/gateway.py:235-249 | Following a JSON pointer and rewriting commute |
| `OpenApi.RewrittenRefKeepsMeaning` | gateway_server/gateway.py:231-249 | A rewritten reference leads to the copy of what it led to, inside a schema as well as to a whole one |
| `OpenApiMeaning.MergedRefsResolve` | gateway_server/gateway.py:252-291 | If every service's whole-schema references resolve in its own document, all whole-schema references of the merged document resolve, clashes or not |
| `OpenApiMeaning.MergedRefsKeepMeaning` | gateway_server/gateway.py:252-291 | If no two services' schemas are given one key (or those that are have equal copies), each reference, percent sequences decoded, resolves in the merged document to the rewritten copy of what it named before |
| `OpenApiMeaning.AllCopiesHeldIff` | gateway_server/gateway.py:274-278 | The merged document holds the copy of every schema of every service exactly when schemas given the same key have equal copies |
| `OpenApiMeaning.SeparateNamesShareNoKey` | gateway_server/gateway.py:274-278 | No schemas share a key when no service name followed by an underscore begins another |
| `OpenApiMeaning.KeysClashIff` | gateway_server/gateway.py:274-278 | Two services can be given the same schema key exactly when one name followed by an underscore begins the other |
| `OpenApiMeaning.ClashLosesASchema` | gateway_server/gateway.py:274-278 | And clashing names admit documents of which a copy is lost |
| `OpenApiMeaning.AlwaysKeptIff` | gateway_server/gateway.py:231-291 | A resolvable reference keeps its meaning in every merge in which no copy is lost exactly when its service's name has no slash, tilde or percent sign and the reference spells out the schema prefix |
| `OpenApiMeaning.ComponentsArePublishedIff` | gateway_server/gateway.py:287-288 | The published document has components exactly when some service has a schema |
| `OpenApiMeaning.TagsArePublishedIff` | gateway_server/gateway.py:289-290 | And tags exactly when some service has a tag with a name |
| `OpenApiMeaning.PathsSurvive` | gateway_server/gateway.py:262-272 | With slash-free distinct names no service's path item is overwritten by another's |
| `OpenApiMeaning.MergedRefOrigin` | gateway_server/gateway.py:262-278 | Every reference of the merged document is a rewritten reference of one of the services |
| `OpenApiMerge.MergeOpenApiDocuments` | gateway_server/gateway.py:252-291 | The nested loops compute the merge of the documents in name order, without components and tags members that would be empty |
| `OpenApiPublished.MergedDocumentIs` | gateway_server/gateway.py:252-291 | The JSON returned, from the services' own documents: its paths are exactly the services' public paths; under each stands the last item given it, references moved, every member of every operation kept and only `operationId` set, on the listed methods; its schemas are the moved copies under service name, underscore and schema name; its tags are the first of each name, in order |
| `OpenApiPublished.ItemHasRef` | gateway_server/gateway.py:235-272 | Every reference of a path item, outside the operation ids that are replaced, appears moved in what is published of it |
| `OpenApiPublished.RewrittenIsMoved` | gateway_server/gateway.py:235-249 | Rewriting changes strings under `$ref` that name a schema, and nothing else |
| `OpenApiMerge.MergeSchemas` | gateway_server/gateway.py:274-278 | The schema loop adds exactly the renamed copies |
| `OpenApiMerge.MergePaths` | gateway_server/gateway.py:263-272 | The path loop adds exactly the public items with their operation ids |
| `OpenApiMerge.InOrderListsAll` | gateway_server/gateway.py:262 | Every document is merged, and once |
| `OpenApiMerge.TagsAreListedOnce` | gateway_server/gateway.py:280-285 | Every tag name is listed, none twice, earlier ones first |
| `PluginHost.AllocateFreePort` | gateway_server/gateway.py:216-228 | From any start: the lowest free port from there on, an error exactly when all are taken, another for a start outside the port range; port 0 is always had |
| `PluginHost.ServiceHost.ShutdownServices` | gateway_server/gateway.py:481-485 | Every registered process ends and the registry is emptied |
| `PluginHost.ServiceHost.LaunchServices` | gateway_server/gateway.py:391-465 | With names distinct and new to the registry no live process is ever lost to the registry, each is registered under its own name and no two share a port, failing starts and exits included; when a launch succeeds and nothing exits, a live process is lost exactly when two started services, or one and a registered live one, share a name |
| `PluginHost.RepeatedNameLosesAProcess` | gateway_server/gateway.py:422-431 | Two services of one name and nothing amiss: the first one's process runs on unregistered |
| `PluginHost.StartedApartIff` | gateway_server/gateway.py:399-403 | The names a launch starts are distinct exactly when those of the services with automatic start are |
| `PluginTable.SyncPluginMappings` | src/plugins/crud.py:51-79 | Existing rows are kept and one enabled row, named after its service and under its prefix, is added per unmapped service, in name order, or nothing when the unique columns would be violated |
| `PluginTable.MountPrefixIsPublicPrefixIff` | src/plugins/constants.py:6-9 | The prefix kept in the table is the gateway's public prefix exactly for names with no white space, as Python strips it, and no slash at either end |
| `PluginTable.StripIsMiddle` | src/plugins/constants.py:6-9 | Stripping cuts off exactly the strippable characters at either end |
| `PluginTable.SortedByName` | src/plugins/crud.py:78-79 | Sorting is a permutation in name order |
| `PluginManager.Manager.Startup` | src/plugins/manager.py:66-106 | On every return, raised midway or not, each live process is registered under its own plugin name and no two share a port; after success exactly the startable enabled mappings are registered |
| `PluginManager.Manager.ApplyMappingState` | src/plugins/manager.py:198-231 | The same safety; disabling leaves no live process of that plugin, and other registrations are untouched |
| `PluginManager.Manager.Shutdown` | src/plugins/manager.py:108-110 | No process stays alive |
| `PluginManager.Manager.Idle` | src/plugins/manager.py:62-64 | Processes that exit by themselves between calls break none of it |
| `PluginHost.ServiceHost.StartProcess` | src/plugins/manager.py:124-196 | A process that does not become ready is terminated before the call raises |
| `BucketFactory.OneBucketPerKey` | src/utils/rate_limit.py:141-165 | In every interleaving of any number of threads at most one bucket is stored per key, every returning call for the key returns it, different keys have different buckets, and a call raises only for want of a script hash |
| `BucketFactory.CallsRaiseIff` | src/utils/rate_limit.py:151-163 | In every interleaving under a client that neither comes nor goes, a call raises exactly when there is a client and no script hash |
| `BucketFactory.StepKeepsInv` | src/utils/rate_limit.py:141-165 | The inductive invariant: mutual exclusion, and whoever is about to store finds its key absent |
| `RouteLru.RouteResolver.IsLocalApiPath` | src/utils/inprocess_http.py:86-109 | Every answer equals the uncached match, and the cache is the newest part of the recency list of all lookups |
| `RouteLru.RouteResolver.Match` | src/utils/inprocess_http.py:92-103 | The loop over the patterns decides whether any of them matches |
| `RouteLru.CacheIsExactLru` | src/utils/inprocess_http.py:105-108 | A looked-up key is missing only if as many others as the cache holds were all looked up after it last was |
| `RouteLru.RecencyOrder` | src/utils/inprocess_http.py:88-90 | The list is ordered by last lookup |
| `Profiler.RetentionGuarantees` | src/utils/profiler.py:153-188 | For any history the retained samples are a subsequence of it, all of it up to the cap and exactly the cap beyond, end with the latest cap - 2 samples, and still hold the least and the greatest time |
| `Profiler.TrimGuarantees` | src/utils/profiler.py:117-123 | Trimming a list of any length ends at the cap and keeps both extremes and the newest samples |
| `Profiler.Entry.Trim` | src/utils/profiler.py:117-123 | The loop terminates from any length with the specified list |
| `Profiler.Entry.Append` | src/utils/profiler.py:153-188 | Count is the history's length, fastest and slowest are its minimum and maximum, and the samples are the retained ones |

## Left out

- HTTP routing, dependency injection, CORS, metrics, logging and streaming: plumbing. Permission dependencies, and the 422 answers of request schemas, come before the modelled handlers.
- JWT decoding, password hashing and digests: tokens are given with what they decode to; passwords are stored as passed.
- Interleavings of RBAC and i18n requests with one another: a cache-aside read can then store an older row; staleness is bounded for atomic requests only.
- Corrupt or foreign values in Redis: only what the service stores is there, so the branches that delete unparsable payloads never run; lax coercions of pydantic are not modelled for the same reason.
- Redis heartbeat, reconnection and client close: the model lets any call fail instead.
- Identities of undecodable tokens take part in the revocation runs but not in the bound, because it fails for them (`GuaranteedIff`).
- The order of the in-process LRU is not part of the step system, where any entry may be lost at any time; it is in `RevocationCache`.
- Translation seeding in the bootstrap transaction: only its role part is modelled, and its rollback.
- `PermissionService` (src/user_role/permission.py, lines 196 to 223): no endpoint calls it, and it could change the SuperAdmin row.
- OpenApiMerge.MergeOpenApiDocuments: path items and tags are objects, as the OpenAPI schema demands (anything else makes the merge raise before it returns); generated operation ids are set, but their uniqueness is not claimed, since it does not hold.
- Reference fragments with a malformed percent sequence are taken to resolve to nothing.
- `ORDER BY` on text columns is taken as code-point order; a database collation may order them otherwise.
- Merging plugin documents into the core's own schema (src/plugins/manager.py, lines 233 to 257): a dictionary update over the merge that is modelled.
- The gap between a port probe closing and the child binding the port, task cancellation, and the contents of manifests.
- An unreadable `WEB_CONCURRENCY` raises before anything happens, and is not modelled.
- Rate-limit windows and the Redis script: the library's code is not part of this model; a bucket is an identity.
- Upper-casing of methods and compiled path patterns are parameters of the route matcher.
- Profiler.Entry.Append: elapsed times are real numbers, without NaN; an entry loaded from an edited log file may violate the entry's invariant.
- Configuration validators, CLI prompts, migrations and demo services.

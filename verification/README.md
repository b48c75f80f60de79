# Verified models of the framework's authentication, authorization and caching cores

The project models, in Dafny, the parts of the framework whose behaviour spans many calls, and proves
what they keep over every run and, where locks are involved, over every interleaving.

- **Shared definitions** (`Wrappers`, `Basics`).
- **Signing keys** (`Jwt`, `JwtLaws`, `JwtInterleaving`). One active key, a pruned list of retired
  keys, a grace period. The class `Jwt.JwtService` has the service's fields; its methods are proved
  against functions on the two locked values. The laws compare those functions with the full rotation
  history, and a step relation at lock granularity covers concurrent rotations and validations.
- **Memory cache** (`MemoryCache`, `CacheRefinement`, `CacheRecency`, `CacheForgetting`,
  `CacheInterleaving`, `CacheLostWrites`, `CacheLocks`). Deadlines, cleanup, least-recently-used
  eviction, touch on get and counters. The cache is compared with a plain map with deadlines, without
  and with a capacity, and with the history of touches; overlapping calls with the capacity and with
  what they undo; and its two locks are followed to the schedules that deadlock.
- **Authorization with a permission cache** (`Authorization`, `AuthorizationLaws`,
  `AuthorizationInterleaving`). Two tables, a cache with a time to live, selective invalidation.
- **Permission language** (`Text`, `Grants`, `GrantLaws`, `GrantCheck`, `GrantCheckLaws`). The reader of
  held permissions, the canonical printer, the matcher, the list check and its deprecation record, on
  real strings.
- **Idempotency middleware** (`Idempotency`, `IdempotencyInterleaving`), **rate limiter**
  (`RateLimit`), **role service** (`Rbac`, `RbacLaws`) and **constant-time comparison**
  (`ConstantTime`).

## How the models are built

- Every clock reading the code makes is a parameter (`cleanAt`, `checkAt`, `retireAt`, ...), or the
  clock of the step relation; runs require that readings never go back. One pass over a protected
  collection (a `retain`, a scan of the retired keys) uses one reading.
- Foreign code is a function parameter: signing and decoding of tokens, deserialization of cached
  bytes, whether bytes are UTF-8. A theorem that needs such a function to behave says so in its
  `requires` (`MintedUnder`, `SignsAndDecodes`, `GoodUntil`).
- Where the code's choice is arbitrary (which of several least recently used keys is evicted), the
  model takes any choice the code could make.
- In the step relations a schedule is any sequence of thread steps and clock ticks. `past`, `log`,
  `runs` and `putBack` only record history; no step reads them.

## Where the code and its documentation differ

The models follow the code; each difference is a theorem with the exact condition, or the least bound
that does hold.

- Old keys are documented to stay valid during the grace period. They do unless the rotation changed
  the algorithm (`JwtLaws.AcceptsExactly`, `JwtInterleaving.AcceptsExactly`,
  `JwtLaws.GraceLostAcrossAlgorithms`).
- `normalise` is documented as the canonical spelling of a stored permission. Rewriting to it keeps
  the meaning exactly when `GrantLaws.KeepsMeaning` holds (`GrantLaws.CanonicalKeepsMeaning`).
- `expire` and `delete` skip the cleanup, so they can reach an expired entry; `expire` then brings it
  back (`CacheRefinement.RefinesPlainMap`, `CacheRefinement.ExpireResurrects`).
- A `get` running as a read and a later re-insertion can push the cache over any size
  (`CacheInterleaving.SplitGetsBreakEveryBound`), and undoes whatever was done to its key in between
  (`CacheLostWrites.PutBackUndoes`); one that read its entry late removes what was stored since
  (`CacheLostWrites.RemovalUndoes`). Runs that lose a set either way, and a delete, are beside them.
  With every get in one step, `k` overlapping sets exceed the capacity by at most `k - 1`, and can
  (`CacheInterleaving.CapacityUnderOverlap`, `CacheInterleaving.BoundIsReached`).
- Two calls of the cache can wait for each other forever: a cleanup that dropped an entry holds the
  entries and waits for the counters, and a call that counts or reports holds the counters and waits for
  the entries. From any moment every call can still return exactly when no two stand so
  (`CacheLocks.FinishesExactly`); a schedule of two calls gets there (`CacheLocks.DeadlockReached`), and
  calls that set no time to live never do (`CacheLocks.NoDeadlinesNoDeadlock`).
- The guest's permissions are given when the union of the user's roles is empty, not only when the
  user has no role, and under the literal name `guest` whatever the configured default role
  (`AuthorizationLaws.FetchMeaning`).
- Clearing a user's cached permissions does not stop a check already carrying older ones from storing
  them. From any reachable moment, a check yet to start can be answered a set that was no fetch since,
  exactly when caching is on, such a check is waiting, and an outdated set is cached live or carried
  towards the cache (`AuthorizationInterleaving.StaleExactly`). Any role change can be overtaken in this
  way (`AuthorizationInterleaving.RoleChangeOvertaken`), so a permission removed is still answered
  (`AuthorizationInterleaving.RemovedStillAnswered`).
- The idempotency layer is documented to pass large responses through uncached. It replaces a body over
  the limit, or one that fails while being read, by an empty one, for the first caller too, and stores
  that; a body that is not UTF-8 is stored empty (`Idempotency.Store.Handle`,
  `IdempotencyInterleaving.ReplayIsOfARun`). It is documented to apply a write once. It fails in three
  ways: requests that overlap can each apply it, a failed lookup or store lets a later one apply it
  again, and so does a request abandoned by its client between its run and its store. With at most `n`
  requests of a key in progress and `f` such failures, at most `n + f` runs succeed, and for every
  `n >= 1` and `f` some schedule reaches that (`IdempotencyInterleaving.AtMostOverlapRuns`,
  `IdempotencyInterleaving.BoundIsReached`). A replay carries none of the first response's headers.
- The rate limiter accepts a limit of zero, and underflows on the request that opens a window
  (`RateLimit.RateLimiter.CheckRateLimit`).

## Model

| member | source | states |
|---|---|---|
| Jwt.JwtService.RotateKeyMaterial | backbone-auth/src/jwt.rs:270-293 | the new key becomes active, the old one is stamped and appended, and the list is pruned at the second reading |
| Jwt.JwtService.ValidateTokenGeneric | backbone-auth/src/jwt.rs:397-440 | the answer of the active key under its own secret or public key, else of the first retired key within grace that accepts; without a custom validation the algorithm is the active key's and the expiry is checked; the list is left pruned unless the active key accepted |
| Jwt.AnswerMeaning | backbone-auth/src/jwt.rs:397-497 | a token is accepted exactly when the library decodes it under what the active key holds, or under what a retired key within grace holds, the key being the one the token names or any if it names none; the list left holds exactly the retired keys within grace, or is as it was when the active key accepted |
| Jwt.JwtService.PruneExpiredKeys | backbone-auth/src/jwt.rs:488-497 | keeps, in order, the keys whose retirement is less than the grace period ago |
| Jwt.JwtService.DecodeToken | backbone-auth/src/jwt.rs:345-353 | as validation, without the expiry check, under the active key's algorithm |
| JwtLaws.PrunedListIsHistory | backbone-auth/src/jwt.rs:269-293 | over every run, the pruned list agrees at every later moment with the never-pruned history |
| JwtLaws.AnswerFromHistory | backbone-auth/src/jwt.rs:397-440 | every validation answers as if nothing had ever been pruned |
| JwtLaws.AcceptsExactly | backbone-auth/src/jwt.rs:397-497 | over every run, a token minted under a key (an HMAC key's secret for HS256, an RSA pair's public key for RS256) is accepted, with its claims, exactly when the key is of the algorithm asked for, by default the active key's, the claims hold when checked, as they are by default, and the key is active or was retired less than the grace period ago |
| JwtLaws.CreatedTokenLife | backbone-auth/src/jwt.rs:301-440 | a token signed after any run with the active key's secret or private key is accepted after any continuation exactly while its key must be |
| JwtLaws.GraceLostAcrossAlgorithms | backbone-auth/src/jwt.rs:402-405 | one rotation from HS256 to RS256 refuses a token whose key was just retired, whatever the grace |
| JwtInterleaving.LiveKeyNeverRefused | backbone-auth/src/jwt.rs:269-293 | in every interleaving, a good token of a key installed before the call and still live at its end is refused only if the call read another algorithm |
| JwtInterleaving.AcceptsExactly | backbone-auth/src/jwt.rs:397-440 | in every interleaving, a token minted under such a key and not expired is accepted, with its claims, exactly when the algorithm the call read is that key's |
| JwtInterleaving.OneFamilyNeverRefuses | backbone-auth/src/jwt.rs:397-440 | with one algorithm family, such a token is never refused |
| JwtInterleaving.AcceptsOnlyLiveKeys | backbone-auth/src/jwt.rs:397-440 | in every interleaving, a token is accepted at a moment of the call under the key active at that moment, or under a key that was in the list, retired and within grace, at an earlier moment of the call when the call itself pruned |
| JwtInterleaving.NeverStuck | backbone-auth/src/jwt.rs:273-281 | the lock order has no cycle: while some call is unfinished, some call can step |
| JwtInterleaving.RotationAlone | backbone-auth/src/jwt.rs:270-293 | the lock-level steps of one rotation, uninterrupted, are the sequential rotation |
| JwtInterleaving.ValidationAlone | backbone-auth/src/jwt.rs:397-440 | the lock-level steps of one validation, uninterrupted, answer and prune as the sequential one |
| MemoryCache.MemoryCache.EvictIfNeeded | backbone-cache/src/memory.rs:48-70 | at capacity removes one key of least recency, otherwise nothing |
| MemoryCache.MemoryCache.Set | backbone-cache/src/memory.rs:75-106 | cleanup, eviction even when overwriting, then the insertion, its deadline `ttl` seconds after its creation, and the counters; a serialization failure keeps the eviction |
| MemoryCache.MemoryCache.Get | backbone-cache/src/memory.rs:108-167 | hit, miss, late expiry and undecodable value, each with its entries and counters; a hit counts one access, at its moment |
| MemoryCache.MemoryCache.CleanupExpired | backbone-cache/src/memory.rs:29-45 | keeps exactly the entries whose deadline has not passed |
| MemoryCache.MemoryCache.Delete | backbone-cache/src/memory.rs:169-185 | removes the entry, expired or not, and counts it; says whether it was there |
| MemoryCache.MemoryCache.Exists | backbone-cache/src/memory.rs:187-192 | after a cleanup, whether the key is there and not past its deadline |
| MemoryCache.MemoryCache.Expire | backbone-cache/src/memory.rs:194-203 | moves the deadline of an entry that is there, expired or not, to `ttl` seconds after the call, and changes nothing else |
| MemoryCache.MemoryCache.Ttl | backbone-cache/src/memory.rs:205-222 | whole seconds left, never below zero; nothing without a key or a deadline |
| MemoryCache.MemoryCache.Clear | backbone-cache/src/memory.rs:224-236 | empties entries and counters |
| MemoryCache.MemoryCache.Stats | backbone-cache/src/memory.rs:238-254 | the counters and the hit rate with the number of entries left by a cleanup, none expired, no memory usage |
| MemoryCache.MemoryCache.MGet | backbone-cache/src/memory.rs:256-268 | the answers of the gets in order, stopping at the first failure, all before it values, with the state reached there |
| MemoryCache.MemoryCache.MSet | backbone-cache/src/memory.rs:270-279 | the sets in order, stopping after the first value that does not serialize, all before it serialized |
| MemoryCache.MemoryCache.MDelete | backbone-cache/src/memory.rs:281-291 | the deletes in order, counting those that found an entry |
| MemoryCache.DeletedByMeaning | backbone-cache/src/memory.rs:281-291 | a batch delete removes exactly its keys and counts the distinct ones present |
| CacheRefinement.RefinesPlainMap | backbone-cache/src/memory.rs:75-222 | over every run of the unbounded cache, every answer is the plain map's exactly when no delete or expire hits an expired leftover |
| CacheRefinement.SetLivesItsTime | backbone-cache/src/traits.rs:28-47 | after a set at any moment and any calls that leave its key alone, with any capacity, `exists` answers true exactly up to `ttl` seconds after the creation, and for ever without a time to live |
| CacheRefinement.ExpireLivesItsTime | backbone-cache/src/memory.rs:194-203 | likewise after an `expire` of a key that is there, counted from that call |
| CacheRefinement.TtlCountsDown | backbone-cache/src/memory.rs:205-222 | until then `ttl` answers the whole seconds that remain, zero if they ran out during the call, and afterwards nothing |
| CacheRefinement.CleanupInvisible | backbone-cache/src/memory.rs:29-45 | inserting a cleanup anywhere in such a run changes no answer |
| CacheForgetting.EvictionOnlyForgets | backbone-cache/src/memory.rs:48-222 | with any capacity, over every run with no late expire, every call but `stats` and a late delete differs from the plain map exactly when its key was evicted and is live there, and then answers that there is nothing |
| CacheRefinement.ExpireResurrects | backbone-cache/src/memory.rs:194-203 | a concrete run in which a late expire brings an expired key back |
| CacheRecency.EvictsLeastRecentlyTouched | backbone-cache/src/memory.rs:58-69 | the evicted key's last set or successful get is no later than that of any key that stays |
| CacheRecency.EvictedAreOldest | backbone-cache/src/memory.rs:48-70 | over every run, a key evicted and not set again was last touched no later than every resident |
| CacheRecency.ResidentsAreMostRecentlyTouched | backbone-cache/src/memory.rs:75-106 | without deletions and deadlines the residents are always the most recently touched keys |
| CacheRecency.NeverOverCapacity | backbone-cache/src/memory.rs:48-96 | sequential runs never hold more than the capacity (one entry when it is zero) |
| CacheRecency.CountersTallyAnswers | backbone-cache/src/traits.rs:144-175 | hits, misses, sets and deletes are the answers since the last clear, each counted once, and the stored hit rate is the share of hits |
| CacheInterleaving.OverlappingSetsBound | backbone-cache/src/memory.rs:75-96 | with at most k sets in progress, entries never exceed capacity - 1 + k plus the keys split gets put back after removal |
| CacheInterleaving.CapacityUnderOverlap | backbone-cache/src/memory.rs:48-96 | with gets as one step, entries never exceed max(1, capacity) - 1 + k |
| CacheInterleaving.BoundIsReached | backbone-cache/src/memory.rs:48-96 | for every capacity and every k some schedule of k overlapping sets reaches that size |
| CacheInterleaving.SplitGetsBreakEveryBound | backbone-cache/src/memory.rs:115-158 | one split get and one set at a time can drive a cache of capacity one to any size |
| CacheInterleaving.UninterruptedSet | backbone-cache/src/memory.rs:75-96 | cleanup, eviction and insertion with nothing between them are the sequential set |
| CacheLostWrites.PutBackUndoes | backbone-cache/src/memory.rs:115-158 | a get that found its value leaves its key as it read it, whatever ran in between, and no other key changed; when at most one move in between wrote the key, it undoes something exactly when there was one |
| CacheLostWrites.RemovalUndoes | backbone-cache/src/memory.rs:128-133 | a get that found its entry late removes its key, whatever ran in between, and no other key changed; it removes a live value only if a move in between wrote the key |
| CacheLostWrites.RemovalLosesLoneWrite | backbone-cache/src/memory.rs:128-133 | when one move in between wrote the key, the live value is lost exactly when that move stored one that is still live |
| CacheLostWrites.SetLost | backbone-cache/src/memory.rs:115-158 | a schedule in which a set that ran during a get leaves no trace |
| CacheLostWrites.LateSetLost | backbone-cache/src/memory.rs:108-133 | a schedule, the clock never going back, in which a get removes the value a set stored during it |
| CacheLostWrites.DeleteLost | backbone-cache/src/memory.rs:115-185 | a schedule in which a key deleted during a get is there again |
| CacheInterleaving.UninterruptedGet | backbone-cache/src/memory.rs:108-167 | cleanup, read and removal or re-insertion with nothing between them are the sequential get, for hits, misses, late expiry and undecodable values |
| CacheLocks.FinishesExactly | backbone-cache/src/memory.rs:29-254 | from any moment, some continuation lets every call return if and only if no cleanup that dropped an entry waits for the counters while their holder waits for the entries |
| CacheLocks.DeadlockIsForever | backbone-cache/src/memory.rs:29-45 | two calls that wait for each other never move again, whatever the others do |
| CacheLocks.DeadlockReached | backbone-cache/src/memory.rs:97-103 | with any capacity, a schedule of a set and another call from an empty cache in which no call can step any more |
| CacheLocks.NoDeadlinesNoDeadlock | backbone-cache/src/memory.rs:29-45 | when no call sets a time to live, every call can return from every moment of every schedule |
| CacheLocks.NeverStuck | backbone-cache/src/memory.rs:29-254 | while some call is unfinished and no two wait for each other so, some call can step |
| CacheLocks.CallAlone | backbone-cache/src/memory.rs:75-254 | the lock-level steps of any call, uninterrupted, leave the entries of the sequential one |
| Authorization.AuthorizationService.FetchUserPermissions | backbone-authorization/src/service.rs:131-152 | the loop computes the union of the user's roles, or the guest's permissions when it is empty |
| Authorization.AuthorizationService.GetCachedPermissions | backbone-authorization/src/service.rs:108-128 | a live entry, else a fetch that is stored with its deadline |
| Authorization.AuthorizationService.AssignRoleToUser | backbone-authorization/src/service.rs:241-257 | the role is added and the user's entry cleared, nothing else changes |
| Authorization.AuthorizationService.RemoveRoleFromUser | backbone-authorization/src/service.rs:259-274 | the role is taken away and the user's entry cleared, nothing else changes |
| Authorization.AuthorizationService.GrantPermissionToRole | backbone-authorization/src/service.rs:212-226 | the role gives what it gave and the permission, created if need be, every other role what it gave; no entry is cleared |
| Authorization.AuthorizationService.RevokePermissionFromRole | backbone-authorization/src/service.rs:228-239 | the permission, and nothing else, is taken from an existing role; no entry is cleared |
| Authorization.AuthorizationService.UserHasPermission | backbone-authorization/src/service.rs:284-291 | membership in the cached or fetched permissions |
| Authorization.AuthorizationService.ClearUserCache | backbone-authorization/src/service.rs:154-160 | that user's entry is cleared, the tables are untouched |
| Authorization.AuthorizationService.ClearAllCache | backbone-authorization/src/service.rs:163-168 | every entry is cleared, the tables are untouched |
| Authorization.PermissionCache.Get | backbone-authorization/src/cache.rs:85-93 | an entry strictly before its deadline |
| Authorization.PermissionCache.Set | backbone-authorization/src/cache.rs:95-109 | the entry with its deadline one time to live from now |
| AuthorizationLaws.FetchMeaning | backbone-authorization/src/service.rs:131-152 | a permission is fetched exactly when some role of the user gives it, or no role gives anything and the guest has it |
| AuthorizationLaws.GrantMeaning | backbone-authorization/src/service.rs:212-226 | afterwards a role gives a permission exactly when it did before or they are the ones granted; users and cache are untouched |
| AuthorizationLaws.RevokeMeaning | backbone-authorization/src/service.rs:228-239 | afterwards a role gives a permission exactly when it did before and they are not the ones revoked; users and cache are untouched |
| AuthorizationLaws.AssignMeaning | backbone-authorization/src/service.rs:241-257 | afterwards a user has a role exactly when they did before or they are the ones assigned; permissions and the other users' entries are untouched |
| AuthorizationLaws.RemoveMeaning | backbone-authorization/src/service.rs:259-274 | afterwards a user has a role exactly when they did before and they are not the ones removed; permissions and the other users' entries are untouched |
| AuthorizationLaws.RolesAfterRun | backbone-authorization/src/service.rs:241-274 | after every run a user has a role exactly when it was last assigned and not removed since, or had it from the start and it was never removed |
| AuthorizationLaws.PermissionsAfterRun | backbone-authorization/src/service.rs:212-239 | likewise for the permissions of roles, by grants and revocations |
| AuthorizationLaws.CachedIsFetch | backbone-authorization/src/service.rs:108-152 | over every run, a cached entry is the fetch on the current user roles and the role table as it stood when stored |
| AuthorizationLaws.AnswerKeptExactly | backbone-authorization/src/service.rs:108-128 | over every run, what a check fetched and stored is answered again, whatever is granted or revoked, strictly until one time to live after the storing, and then fetched anew, as always without caching |
| AuthorizationLaws.FreshUntilRolesChange | backbone-authorization/src/service.rs:155-274 | after an assignment, removal or clear, the user's checks are fresh fetches until the next grant or revoke |
| AuthorizationLaws.RevokedStillAnswered | backbone-authorization/src/service.rs:228-239 | a revoked permission is still answered until the last moment of the entry's life, and not after |
| AuthorizationInterleaving.BoundedStaleness | backbone-authorization/src/service.rs:108-152 | in every interleaving, an answer is the fetch on both tables at one moment, less than time to live plus delay ago (within the delay when not cached) |
| AuthorizationInterleaving.ComputeIsFetch | backbone-authorization/src/service.rs:131-142 | holding both read guards makes the fetch one snapshot of the two tables |
| AuthorizationInterleaving.FreshUnlessOutdated | backbone-authorization/src/service.rs:108-152 | from a reachable moment with no outdated set cached live or carried towards the cache, every check not yet past its fetch answers from that moment on |
| AuthorizationInterleaving.StaleExactly | backbone-authorization/src/service.rs:108-168 | from every reachable moment, some continuation answers a check yet to start with a set that was no fetch since, if and only if caching is on, such a check waits and an outdated set is cached live or carried towards the cache |
| AuthorizationInterleaving.RoleChangeOvertaken | backbone-authorization/src/service.rs:117-128 | for any role change, a schedule in which a check started after it ended is answered the fetch made before it |
| AuthorizationInterleaving.RemovedStillAnswered | backbone-authorization/src/service.rs:259-274 | a concrete one: a check started after the removal of a user's only role had ended is answered its permission |
| AuthorizationInterleaving.NeverStuck | backbone-authorization/src/service.rs:131-135 | the lock order has no cycle |
| AuthorizationInterleaving.CheckAlone | backbone-authorization/src/service.rs:108-152 | the lock-level steps of one check, uninterrupted, are the sequential check |
| AuthorizationInterleaving.AdminAlone | backbone-authorization/src/service.rs:155-274 | likewise for role changes, permission changes and both clears |
| GrantLaws.AcceptsExactlyTheSpellings | backbone-auth/src/grants.rs:151-213 | a string is a permission exactly when, trimmed, it is `*` or two halves in the dotted, colon or transition spelling |
| GrantLaws.AcceptedIsSpelt | backbone-auth/src/grants.rs:126-213 | both halves of what is read are `*` or a name, and verb-only grants are the transition spelling |
| GrantLaws.ActionFirstTable | backbone-auth/src/grants.rs:139-147 | the documented table of `admin:` and action-first spellings, word by word, and no other first word has a reading of its own |
| GrantLaws.HalfAlphabet | backbone-auth/src/grants.rs:126-134 | a half is the star or a word over lower-case letters, digits and the underscore |
| GrantLaws.SpaceIgnored | backbone-auth/src/grants.rs:151-152 | white space of any of the 25 code points around a permission makes no difference |
| GrantLaws.RoundTrip | backbone-auth/src/grants.rs:114-124 | printing and reading a non-transition grant gives it back exactly outside the action-first words |
| GrantLaws.CanonicalKeepsMeaning | backbone-auth/src/grants.rs:215-218 | the canonical form covers the same requirements exactly when the pair is not read differently and it is no transition grant on a generic action, `write` or every verb |
| GrantLaws.NormaliseIdempotent | backbone-auth/src/grants.rs:215-218 | normalising twice is normalising once, exactly outside those re-read pairs and every-verb grants |
| GrantLaws.EachVerbIsNoPermission | backbone-auth/src/grants.rs:115-121 | the printed form of an every-verb grant is rejected by the reader |
| GrantLaws.MatchPair | backbone-auth/src/grants.rs:242-265 | when a grant covers a resource and action, when it does so canonically, and which legacy spelling it is otherwise |
| GrantLaws.TransitionCovers | backbone-auth/src/grants.rs:242-265 | what a transition string covers, exactly: none of the six generic actions, and of the others its own verb, all for the star, all but `write` for `write` |
| GrantLaws.WriteCovers | backbone-auth/src/grants.rs:149-150 | a `write` grant covers everything but read, delete and purge |
| GrantLaws.PluralRules | backbone-auth/src/grants.rs:220-237 | the plural of every name by its last two letters |
| GrantLaws.PluralAtMostTwoToOne | backbone-auth/src/grants.rs:222-237 | no three names share a plural |
| GrantLaws.PluralTwoToOne | backbone-auth/src/grants.rs:222-237 | two names can share a plural |
| GrantLaws.DirectAndPluralExclude | backbone-auth/src/grants.rs:257-263 | no name is its own plural, so the two ways to match a resource exclude each other |
| GrantCheck.LegacyRecord.CheckHeld | backbone-auth/src/grants.rs:309-347 | true exactly when some held string covers the requirement or an alternate; records the signalled string and its canonical form |
| GrantCheck.LegacyRecord.NoteLegacy | backbone-auth/src/grants.rs:278-284 | a new string is recorded while there is room, otherwise nothing changes |
| GrantCheck.FindAlternate | backbone-auth/src/grants.rs:326-339 | the nested loops find the first alternate some held string covers, and the first such string |
| GrantCheck.FindRequired | backbone-auth/src/grants.rs:314-325 | stops exactly at a canonical match, else keeps the first legacy one |
| GrantCheckLaws.SignalExactly | backbone-auth/src/grants.rs:306-347 | the signal is raised exactly when access is granted with no canonical match, for a string held |
| GrantCheckLaws.SignalIsFirst | backbone-auth/src/grants.rs:309-347 | the string signalled is the first held one that covers the requirement, or else the first that covers the first coverable alternate |
| GrantCheckLaws.OrderIndependent | backbone-auth/src/grants.rs:309-347 | neither the answer nor whether it signals depends on list order |
| GrantCheckLaws.MoreHeldMoreAllowed | backbone-auth/src/grants.rs:306-308 | holding more never loses access, and holding the canonical form silences the signal |
| GrantCheckLaws.TransitionNeverOpensGeneric | backbone-auth/src/grants.rs:43-45 | no list of transition grants passes read, create, update, delete, restore or purge; with one of them on every verb of the resource it passes every other action |
| GrantCheckLaws.AllowsAgreesWithContext | backbone-auth/src/grants.rs:373-392 | `allows` and the context's check over the effective list agree exactly when the requirement has a colon or the holder has neither authority role nor the god permission |
| GrantCheckLaws.OnlyAuthorityWithoutColon | backbone-auth/src/grants.rs:373-392 | a requirement without a colon is allowed to SUPERUSER, to ADMIN and to a holder of `*:*`, and to no one else |
| GrantCheck.LegacyRecord.RequireWith | backbone-auth/src/middleware.rs:54-67 | refuses exactly when no held string covers the requirement or an alternate; a refusal names the requirement and records nothing |
| GrantCheck.LegacyRecord.HasPermission | backbone-auth/src/middleware.rs:36-44 | true exactly when some string of the context's list covers the permission |
| GrantCheckLaws.SeenAfterRun | backbone-auth/src/grants.rs:272-292 | over every run the record holds signalled strings with their canonical forms: all of them up to the cap, never more |
| Idempotency.Store.Handle | backbone-auth/src/idempotency.rs:68-154 | one request: who opts in, replay with its own headers, pass-through, failure and success, a body too long or broken off, with the table each leaves; only rows of its own company and key are answered from or stored |
| Idempotency.OptsIn | backbone-auth/src/idempotency.rs:73-86 | a request opts in exactly when its method is one of the four and it has a key and a proven company |
| Idempotency.SharesRow | backbone-auth/src/idempotency.rs:120-146 | two requests that opt in share a row exactly when company and key both agree |
| Idempotency.Store.Insert | backbone-auth/src/idempotency.rs:134-154 | the first row for a key stays; a body that is not UTF-8 is stored empty |
| IdempotencyInterleaving.RowsNeverChange | backbone-auth/src/idempotency.rs:142-146 | a stored row never changes in any interleaving |
| IdempotencyInterleaving.ReplayIsOfARun | backbone-auth/src/idempotency.rs:88-110 | every replay has the status of one successful run for its key, and its body exactly when empty or small UTF-8 |
| IdempotencyInterleaving.ReplaysAgree | backbone-auth/src/idempotency.rs:88-96 | all replays of a key are the same response |
| IdempotencyInterleaving.AtMostOverlapRuns | backbone-auth/src/idempotency.rs:88-132 | with at most n requests of a key in progress and f failed queries or runs abandoned before their store, at most n + f runs succeed |
| IdempotencyInterleaving.BoundIsReached | backbone-auth/src/idempotency.rs:88-132 | for every n of at least one and every f some schedule makes n + f runs succeed |
| IdempotencyInterleaving.FailedQueryRunsTwice | backbone-auth/src/idempotency.rs:106-132 | two requests one after the other both run when the store of the first or the lookup of the second fails |
| IdempotencyInterleaving.AbandonedRunsTwice | backbone-auth/src/idempotency.rs:98-108 | so do they when the client of the first goes away between the run and the store |
| IdempotencyInterleaving.OverlapRunsTwice | backbone-auth/src/idempotency.rs:88-99 | two overlapping requests can both run the handler successfully |
| IdempotencyInterleaving.ReplayAlone | backbone-auth/src/idempotency.rs:88-96 | a lookup that finds a row, on its own, answers and leaves what the middleware does |
| IdempotencyInterleaving.RunAlone | backbone-auth/src/idempotency.rs:98-110 | so do the uninterrupted steps of a request not answered from a row |
| RateLimit.RateLimiter.CheckRateLimit | backbone-cache/examples/real_world_scenarios.rs:387-466 | allowed or refused, the remaining count, the reset time, the retry-after seconds to within one and the stored record with its expiry; underflow exactly when the limit is zero and the request opens a window |
| RateLimit.FewerThanTwiceTheLimit | backbone-cache/examples/real_world_scenarios.rs:387-466 | any interval of one window's length admits at most 2 * limit - 1 requests |
| RateLimit.BoundIsReached | backbone-cache/examples/real_world_scenarios.rs:387-466 | for every limit some run admits that many |
| RateLimit.WindowAdmitsItsCount | backbone-cache/examples/real_world_scenarios.rs:394-424 | each window admits exactly the requests its counter says |
| RateLimit.WindowsInv | backbone-cache/examples/real_world_scenarios.rs:394-460 | windows start at least one length apart, admit between one and `limit` requests, and the stored record outlives its window |
| RateLimit.RefusedExactlyWhenFull | backbone-cache/examples/real_world_scenarios.rs:398-410 | a request is refused exactly when its window has admitted the limit |
| Rbac.InMemoryPermissionService.AssignRole | backbone-auth/src/permissions.rs:262-275 | the role is appended, or the error and no change |
| Rbac.InMemoryPermissionService.RemoveRole | backbone-auth/src/permissions.rs:278-294 | the role is removed and an emptied user forgotten, or the error and no change |
| Rbac.InMemoryPermissionService.AddRole | backbone-auth/src/permissions.rs:246-249 | the role is added, or replaces the one of its name |
| Rbac.InMemoryPermissionService.HasPermission | backbone-auth/src/permissions.rs:179-215 | true exactly when some permission of some role held has the name asked for, both fields `*`, or as its name a wildcard of the pair asked for |
| Rbac.PairCovers | backbone-auth/src/permissions.rs:197-211 | a permission named by a pair covers a pair exactly when the names are equal, its fields are both `*`, or each half of the name is `*` or the half asked for |
| Rbac.OtherNameCovers | backbone-auth/src/permissions.rs:187-211 | where a name is no pair only equality or both fields `*` covers |
| Rbac.CoversMeaning | backbone-auth/src/permissions.rs:187-211 | so a pair is covered by its own name, its three wildcards and both fields `*`, and nothing else |
| Rbac.InMemoryPermissionService.GetUserPermissions | backbone-auth/src/permissions.rs:218-243 | the permissions met in role order, each name once |
| RbacLaws.ValidAlways | backbone-auth/src/permissions.rs:246-294 | over every run each listed user has roles, none twice, all existing |
| RbacLaws.RemoveUndoesAssign | backbone-auth/src/permissions.rs:262-294 | removing a role just assigned restores the state |
| RbacLaws.AssignMeaning | backbone-auth/src/permissions.rs:262-275 | assignment succeeds exactly for an existing role not held, puts it last and gives nothing else |
| RbacLaws.AddMeaning | backbone-auth/src/permissions.rs:246-249 | adding a role changes what its holders have through that name, and nothing else |
| RbacLaws.DefaultRolesCover | backbone-auth/src/permissions.rs:126-166 | in a default service `admin` covers everything, `user` exactly `user:read` and `user:write`, and nobody has a role |
| RbacLaws.RemoveMeaning | backbone-auth/src/permissions.rs:278-294 | removal succeeds exactly when the role is held and takes away that role only |
| RbacLaws.ListsEachNameOnce | backbone-auth/src/permissions.rs:218-243 | the listing holds exactly the permission names held through some role, each once |
| RbacLaws.ListsInOrder | backbone-auth/src/permissions.rs:218-243 | the listing is what the roles give, in the order of the roles and within each, without what has the name of one before it |
| ConstantTime.ConstantTimeEqIsEquality | backbone-auth/src/token_generator.rs:56-64 | the xor-fold answers equality |

## Left out

- Jwt.JwtService.ValidateTokenGeneric: signature checking, base64 and claim parsing are the `Decoder` parameter; the refresh token's type test is one comparison on its result.
- JwtInterleaving.LiveKeyNeverRefused: lock poisoning is not modelled; a poisoned lock makes the call fail.
- CacheInterleaving.CapacityUnderOverlap: gets run as one step, because no bound holds when they are split (proved beside it); counters are not part of that model, and calls other than `set` and `get` run as one step.
- CacheLocks.FinishesExactly: the queue in front of a lock is not modelled; any waiter the lock can admit may be next.
- CacheRefinement.RefinesPlainMap: stated without a capacity; `CacheForgetting.EvictionOnlyForgets` is its counterpart with one.
- MemoryCache.MemoryCache.Stats: the hit rate is a real number, not a rounded one; the cleanup's reset of the expired count, zero already, is left out.
- MemoryCache.MemoryCache.Expire: times to live are unbounded naturals; the ranges at which the date library panics are not modelled, nor is wrap-around of the 64-bit counters.
- Idempotency.Store.Handle: how the company is proven from the token is not modelled.
- RateLimit.RateLimiter.CheckRateLimit: a build that wraps instead of stopping at the underflow is not modelled; the store behind it is one record that expires. The laws over runs take a limit of at least one.
- Rbac.InMemoryPermissionService.AddRole: role and permission descriptions are left out.
- The seeding task of the authorization service: runs start from an arbitrary role table.
- Failures of a remote permission cache, and the Redis back ends.
- HTTP layers, database access, the grant resolver, audience rules, password and account checks.
- Key derivation, hashing, random codes and RSA parsing: foreign libraries.
- Logging, tracing and serialization attributes.

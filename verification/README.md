# Verified model of the Redis protocols of the backend

This project models the infrastructure protocols of a NestJS backend (Bloom filter and its online
rebuild, sliding-window throttling, two cache tiers, reset tokens and sessions) and proves what they
keep in every run. Redis is an abstract key-value store with a clock: a single command, a Lua script
and a MULTI are one atomic step; a key is there up to its expiry time and gone afterwards. A service
is a class whose methods change its state where the property concerns calls that do not overlap, and
a state machine over single commands where it concerns interleavings.

`dafny verify dfyconfig.toml` checks everything.

| file | content |
|---|---|
| `options.dfy`, `reals.dfy` | optional values; products of reals |
| `word32.dfy`, `bloom_hash.dfy`, `bloom_hash_keys.dfy` | 32-bit operators, the seeded hash, its inverse in the seed, how it depends on the key, the bit offsets |
| `bloom_filter.dfy` | the filter service: add, membership test, chunked warm-up, the user namespace |
| `bloom_rebuild.dfy` | the online rebuild against concurrent inserts: state machine, and the service loops that drive it |
| `rebuild_lock.dfy` | the distributed lock around a rebuild |
| `sliding_window.dfy`, `throttle_guard.dfy`, `throttle_race.dfy` | the request log behind the sorted set, the guard, the guard under concurrency |
| `ip_cidr.dfy` | addresses and prefix tests |
| `l1_cache.dfy`, `cache_staleness.dfy`, `single_flight.dfy`, `user_dao.dfy` | the in-process cache, staleness of both tiers, request coalescing, the write paths |
| `reset_tokens.dfy`, `password_reset.dfy` | reset tokens, one call at a time and interleaved; the reset flow |
| `sessions.dfy`, `rotation_race.dfy` | access and refresh keys, logout by SCAN; overlapping rotations |

## What is assumed

- Redis commands succeed unless a property says otherwise. An insert and its `created_at` use the clock
  of the rebuild, so a row inserted during a rebuild is not stamped before its start. Users are never
  deleted. Page size, limits and BLOCK_THRESHOLD are parameters; page size and window length are at least 1.
- A pipeline of SETBITs is a set of single SETBITs in any order, with others in between. A bit array is
  the set of its one bits, so a key without a one bit does not exist.
- A text is its UTF-8 bytes. What `Number` and `parseInt` make of a piece of text is an input.
- A member of the sorted set is `stamp:salt`. A request takes its stamp first and its script runs later, at
  most `lag` later by the same clock, which is also the clock of EXPIRE. No bound on `lag` is assumed: it is a
  parameter of the results. In `ThrottleRace` no member repeats, and the stamps may reach Redis in any order. In
  `ThrottleGuard` requests do not overlap, so the stamps of one key come in order.
- SCAN walks a fixed assignment of keys to buckets, one bucket a call, and does not rehash.
- Random values (session ids, tokens, lock values) never repeat; hashing, JWT signing and bcrypt are
  abstracted by the values they stand for.
- `delay` in the staleness bound is the time from the read of a resolve, in L2 or in the database, to the
  end of that resolve. JSON dates in cached users count as equal to the dates they were made from.

## Where the code does not do what its comments say

- EXPIRE is meant to tidy up only, and the window to hold a limit. A request whose script runs more than a
  millisecond after its stamp can find earlier calls of its window gone, because the key has expired or a run with a
  later stamp has pruned them: `CountIsLogs` says exactly when a count misses calls, `AdmissionBound` for which
  intervals the limit still holds, and `BoundIsSharp` gives, for every configuration, the run that goes over it one
  millisecond further.
- A rebuild is said to leave the old live key intact on any error (`src/common/cache/bloom-rebuild.service.ts:36-37`).
  An error of EXISTS reads as "no shadow" and the live key is deleted, and an error after the swap or of a single
  SETBIT leaves bits out: `ExistsErrorOutcome`, `LateErrorOutcome` and `DroppedBitOutcome` say what is lost, with
  everything else going on, and `ExistsErrorLosesARow`, `LateErrorLosesARow` and `DroppedBitLosesARow` are rebuilds
  that lose a row.
- The membership test is said to answer yes on Redis errors (`src/common/cache/bloom-filter.service.ts:136`).
  One GETBIT that fails inside the pipeline makes it answer no: `Service.MightExist`.
- After an invalidation reads are said to fetch from the database again (`src/common/cache/cache-orchestrator.service.ts:158`).
  A resolve under way then still stores what it had read: with none the invalidation is final, `InvalidationFresh`, and
  `RefillAfterDrop` is a run in which the old value comes back.
- All write paths of the user DAO are said to invalidate the relevant entries
  (`src/modules/user-service/dao/user.dao.ts:26`). An update that changes the email leaves the old email cached, which no
  caller in the repository does, and the two fixed updates leave the email entry as it was: `Dao.Update`,
  `Dao.UpdateQuietly`, and as runs `FoundByOldEmail` and `UnverifiedAfterVerification`.
- One live reset token per user (`src/modules/auth-service/services/password-reset-token.service.ts:53`) holds in a run exactly
  if no token is written while another is live, `SingleFromStart`, which the calls of one user see to as long as they do
  not overlap, `OneCallPerUserFromStart`. Otherwise three steps can break what it rests on, `PointedStep`: writing a new
  token, a late cleanup after a consumption, and a late deletion of a revocation. Each leads to two live tokens:
  `OverlapBreaksSingle`, `LateCleanupBreaksSingle`, `LateRevokeBreaksSingle`.
- A loader of a signed URL that throws before its first await leaves its failure registered for good:
  `ExactIffNoThrow`, `StuckServesFailure`. The one loader in the repository goes through a circuit breaker
  (`src/common/gcp-storage/gcp-storage.service.ts:177-178`), which is not part of this model; it takes another loader to throw so.
- A login or a rotation while all sessions of the same user are being logged out can keep its access key and lose
  its refresh key: `GrantDuringScan` and, for the two commands apart, `StoredInTurn` say exactly when, and
  `LoginLosesRefresh` is a run.
- A refresh token is said to be deleted after use. Two rotations that overlap redeem one twice, `TwiceIff` and
  `OverlapRedeemsTwice`; and a rotation under way at a logout keeps the session, `OutlivesIff` and `LogoutOutlived`.

## Model

| member | source | states |
|---|---|---|
| BloomHash.HashPermutesSeeds | src/common/cache/bloom-filter.service.ts:26-64 | for every byte string the hash is a bijection from 32-bit seeds to 32-bit values, with an explicit two-sided inverse |
| BloomHash.HashesDistinct | src/common/cache/bloom-filter.service.ts:79-84 | two hashes of one value under different seeds never coincide |
| BloomHash.MixBlocksInverse | src/common/cache/bloom-filter.service.ts:31-45 | the block loop is invertible in the running hash, for every number of blocks |
| BloomHash.FinalizeInverse | src/common/cache/bloom-filter.service.ts:59-63 | the finalizer is a bijection on 32-bit words |
| BloomHash.Murmur3 | src/common/cache/bloom-filter.service.ts:26-64 | the loop and the fall-through tail compute the hash that the inverse is about, for every key and seed |
| BloomHash.BloomBitsShape | src/common/cache/bloom-filter.service.ts:79-84 | BLOOM_K offsets in [0, BLOOM_BITS), the residues of BLOOM_K pairwise distinct hashes from each of which its seed can be read back |
| BloomHashKeys.LoadWordSum | src/common/cache/bloom-filter.service.ts:32-37 | an aligned word is the sum of its four bytes times 1, 256, 65536 and 2^24 |
| BloomHashKeys.TailWordSum | src/common/cache/bloom-filter.service.ts:46-57 | what the one to three trailing bytes contribute is their positional sum, multiplied and rotated once |
| BloomHashKeys.WordMatters | src/common/cache/bloom-filter.service.ts:26-64 | two keys that differ in one aligned word only have different hashes under every seed, whatever comes before and after it |
| BloomHashKeys.TailMatters | src/common/cache/bloom-filter.service.ts:26-64 | so have two keys of one length that differ in the trailing bytes only |
| BloomHashKeys.TestVector | src/common/cache/bloom-filter.service.ts:26-64 | the key "test" under seed 0 hashes to 0xba6bd213, the published value, which involves every constant |
| BloomFilter.Service.Add | src/common/cache/bloom-filter.service.ts:113-128 | adds the offsets of exactly those commands of the pipeline that take effect, so the whole value when all do, and nothing when disabled |
| BloomFilter.Service.MightExist | src/common/cache/bloom-filter.service.ts:143-158 | yes exactly when disabled, unanswered, or every GETBIT answered without error and every offset is set |
| BloomFilter.Service.Rebuild | src/common/cache/bloom-filter.service.ts:170-194 | the union over all values of what lands of each, so every value whose commands all land is in whatever becomes of other chunks, and nothing foreign is ever set |
| BloomFilter.UserNamespaceSafe | src/common/cache/bloom-rebuild.service.ts:245-358 | the rebuild guarantee for the real hash of the UUID text, with faults and without |
| BloomRebuild.NoFalseNegatives | src/common/cache/bloom-rebuild.service.ts:245-358 | in every interleaving of inserts, adds, rebuild steps and faults an added id that the latest swap has not exposed passes the test exactly when no bit of it lost to a failed command is missing; in runs without faults every added id passes, except that between the swap and the end of the reconciliation a row stamped at or after the start may fail |
| BloomRebuild.PagingComplete | src/common/cache/bloom-rebuild.service.ts:171-182 | over a table that grows between pages, the pages list every row present at the start exactly once, no id twice, in increasing order |
| BloomRebuild.PageCovers | src/common/cache/bloom-rebuild.service.ts:278-299 | one page extends the covered prefix to its own last id, or covers the rest when it is short |
| BloomRebuild.RebuildExact | src/common/cache/bloom-rebuild.service.ts:270-344 | a finished rebuild leaves no stale bit whatever live and shadow held before, but for what a failed DEL left; if nothing failed in it, all start rows and added rows are there, and it is exactly the union over the current rows if none was inserted meanwhile |
| BloomRebuild.AbortPreserves | src/common/cache/bloom-rebuild.service.ts:337-344 | a rebuild aborted by a failed page read, shadow write or RENAME, at any point of any run, leaves the live array exactly as it was when the lock was taken plus the bits that adds set in between |
| BloomRebuild.ExistsErrorOutcome | src/common/cache/bloom-rebuild.service.ts:308-314 | in every state after a rebuild whose EXISTS failed, whatever runs beside and after it: live is what a failed DEL left, what adds set since and what the reconciliation put back, and lost are only ids that had set a bit before the deletion and whose rows are stamped before the rebuild, or that need a bit lost since |
| BloomRebuild.ExistsErrorLosesARow | src/common/cache/bloom-rebuild.service.ts:308-314 | a whole rebuild, up to the release of the lock, in which that error turns a present row into a false negative |
| BloomRebuild.LateErrorLosesARow | src/common/cache/bloom-rebuild.service.ts:323-330 | a whole rebuild in which a user created meanwhile is lost to a failed late query |
| BloomRebuild.DroppedBitLosesARow | src/common/cache/bloom-rebuild.service.ts:400-410 | a rebuild that completes and loses a present row to one failed SETBIT |
| BloomRebuild.LateErrorOutcome | src/common/cache/bloom-rebuild.service.ts:323-330 | in every state after a swap whose late query or write failed: live is the shadow, later adds and what was put back so far, and lost are only late rows whose adds had set a bit before the swap, or that need a bit lost since |
| BloomRebuild.DroppedBitOutcome | src/common/cache/bloom-rebuild.service.ts:400-410 | after a rebuild in which single SETBITs failed and were only logged, an added id is lost if and only if one of its bits is among those and is not set |
| BloomRebuild.RebuildNamespace | src/common/cache/bloom-rebuild.service.ts:245-358 | the service, with others running at every wait and any failure of a page read, a write, a single SETBIT, a DEL, EXISTS, RENAME, the late query or its write half way: it gives up only when the page it has reached fails as a whole, and always when that cannot be read, or when RENAME fails on a shadow that EXISTS has found, never for a logged error; only the described ids are missing in every state of the whole history; exact when nothing fails; no bit of the old filter lost when it gives up before the swap; otherwise live starts from exactly the bits of the pages less those that failed, and what a failed DEL left; and it terminates |
| BloomRebuild.FillShadow | src/common/cache/bloom-rebuild.service.ts:274-299 | the do-while loop ends although the table grows, because the cursor climbs in a finite id space; it fails exactly when the page it has reached cannot be read, or has ids and cannot be written, and otherwise leaves in the shadow exactly the bits of all ids seen less those whose SETBIT failed |
| BloomRebuild.CopyPage | src/common/cache/bloom-rebuild.service.ts:279-298 | one round fails exactly when its page cannot be read, or has ids and cannot be written; otherwise it adds exactly the bits of the page less those whose SETBIT failed, counts the ids it saw and moves the cursor strictly up |
| BloomRebuild.SwapIn | src/common/cache/bloom-rebuild.service.ts:301-330 | gives up exactly on a failed RENAME of a shadow that EXISTS has found; otherwise live starts from the shadow or from nothing, or from what a failed DEL left; records whether the swap followed an error of EXISTS and whether the reconciliation went through |
| BloomRebuild.CollectLate | src/common/cache/bloom-rebuild.service.ts:323-330 | a failed query ends the rebuild as completed but not reconciled, a write that fails before its last bit ends it broken; otherwise the bits of the late rows are put back but for exactly those whose SETBIT failed |
| BloomRebuild.SelectPage | src/common/cache/bloom-rebuild.service.ts:171-182 | the first ids above the cursor in order, no row skipped |
| BloomRebuild.World.SafeThroughout | src/common/cache/bloom-rebuild.service.ts:245-358 | every prefix of the recorded history is a legal run that ends in a safe state |
| RebuildLock.MutualExclusion | src/common/cache/bloom-rebuild.service.ts:251-263 | two nodes are inside one rebuild together only if one of them outstayed the lock's lifetime |
| RebuildLock.EntryBesideHolder | src/common/cache/bloom-rebuild.service.ts:251-263 | while the last holder is inside, another attempt gets in beside it if and only if that holder is overdue |
| RebuildLock.ReleaseIsOwn | src/common/cache/bloom-rebuild.service.ts:83-89 | a release, however late, never removes the lock of another run, inside or already leaving |
| RebuildLock.ReleaseLetsNextIn | src/common/cache/bloom-rebuild.service.ts:346-357 | after the release of the run that last took the lock, however late it arrives, the next attempt gets in, and in time the lock is deleted |
| SlidingWindow.ScriptStep | src/common/throttles/sliding-window.lua.ts:20-31 | for stamps in order, as requests that do not overlap give them: the pruned, expiring sorted set goes on standing for the calls since the key last expired, and holds exactly the members those have in the window |
| SlidingWindow.ScriptTracks | src/common/throttles/sliding-window.lua.ts:25-28 | in terms of the whole log: what an expiry forgets are calls the key has outlived by a window before the next call ran |
| SlidingWindow.Forgetting | src/common/throttles/sliding-window.lua.ts:25-28 | forgetting calls leaves the count right if and only if each forgotten call in the window has a member called there again |
| SlidingWindow.CountReaches | src/common/throttles/sliding-window.lua.ts:20-31 | a count never misses a call within reach: the whole window at a lag of at most one millisecond, and windowMs + 1 - lag beyond |
| SlidingWindow.CountsCalls | src/common/throttles/sliding-window.lua.ts:25-28 | the number of members equals the number of calls in the window if and only if no member repeats in it |
| SlidingWindow.WindowContents | src/common/throttles/sliding-window.lua.ts:25-27 | the window of a log is exactly its calls after the lower end |
| ThrottleGuard.ScriptSlot | src/common/throttles/base-throttle.guard.ts:275-293 | what one run of the script, stamped before it runs, does to set and log of its key, and what its count says of the log |
| ThrottleGuard.Guard.Script | src/common/throttles/base-throttle.guard.ts:275-293 | the count is that of the distinct members stamped in (stamp - window, stamp] which the key still knows, admitted or denied; it is that of the whole log exactly when no unrepeated call of the window is forgotten, and never misses one within reach |
| ThrottleGuard.Guard.CheckLayer | src/common/throttles/base-throttle.guard.ts:335-405 | with n the distinct members in the window, this request included: hard-blocked exactly while the block key stands, and then nothing is touched; otherwise escalated exactly if n > BLOCK_THRESHOLD, which sets the block for blockSeconds, softly denied exactly if limit < n <= BLOCK_THRESHOLD, allowed exactly if n is within both; n is that of the whole log at a lag of at most a millisecond, and 1 for the first request after a block as long as the window, which is then allowed |
| ThrottleGuard.Guard.CanActivate | src/common/throttles/base-throttle.guard.ts:318-424 | passes exactly when every layer allows; the first breach stops it, layers not reached are left alone, and with distinct keys each reached layer decides, counts and blocks as described for one layer from the state before the request |
| ThrottleGuard.Guard.Serve | src/common/throttles/base-throttle.guard.ts:268-377 | over any number of requests in turn, one is hard-blocked if and only if a block from before, or one that an earlier request set less than blockSeconds ago, stands when it asks; the first one let through to the count after such a block, if that lasts a window, is allowed |
| ThrottleRace.AdmissionBound | src/common/throttles/base-throttle.guard.ts:259-401 | under every interleaving of EXISTS, script and SET, with scripts delayed up to lag and the key expiring, at most min(limit, BLOCK_THRESHOLD) requests are admitted in any half-open interval of length windowMs - lag, in whatever order the stamps arrive; if they arrive in order, of one whole window at a lag of at most a millisecond and one millisecond more than that otherwise |
| ThrottleRace.BlockGate | src/common/throttles/base-throttle.guard.ts:268-275 | under every interleaving a request whose EXISTS comes no later than the block length after some SET is denied for good and never runs its script; any other, unless a block from before the run stands, gets to run it |
| ThrottleRace.CountDecides | src/common/throttles/base-throttle.guard.ts:354-403 | under every interleaving a request that was counted is admitted for good exactly if its count is within limit and BLOCK_THRESHOLD; above the threshold, and only then, it sets the block, and it is denied |
| ThrottleRace.CountIsLogs | src/common/throttles/sliding-window.lua.ts:20-31 | in every reached state, stamps in any order, the next count is that of the log if and only if no call that was pruned before or swept away by an expiry lies in its window |
| ThrottleRace.BoundIsSharp | src/common/throttles/base-throttle.guard.ts:259-401 | for every window, lag, limit and threshold a run, with stamps in order, that admits one request too many in an interval one millisecond longer |
| ThrottleRace.AdmittedBelowLimit | src/common/throttles/base-throttle.guard.ts:352-377 | the bound for every prefix of the calls and every such interval |
| IpCidr.IpToNumPositional | src/common/throttles/base-throttle.guard.ts:101-107 | a number exactly for four finite parts from 0 to 255, fractions included, and then the base-256 value of their whole parts |
| IpCidr.IpToNumInjective | src/common/throttles/base-throttle.guard.ts:101-107 | equal numbers if and only if equal whole parts, so different dotted quads have different numbers |
| IpCidr.InCidrIsPrefix | src/common/throttles/base-throttle.guard.ts:109-119 | despite signed operators the test holds exactly when both texts are addresses that agree after division by 2^(32 - bits), for 0..32 as in section 3.1 of RFC 4632, and with the count wrapped for every other prefix length; a text that is no address never passes |
| L1Cache.Cache.Get | src/common/cache/l1-cache.service.ts:37-48 | a hit is the latest write not deleted or cleared since, no older than 1.2 times its lifetime, and becomes the most recent; within 0.8 of it a present entry is always hit |
| L1Cache.Cache.Set | src/common/cache/l1-cache.service.ts:60-68 | at most max(1, size) entries; the victim is the entry whose last hit or insertion while absent is oldest; an overwriting set keeps its place; the entry expires between 0.8 and 1.2 times its lifetime from now |
| L1Cache.WithoutSorted | src/common/cache/l1-cache.service.ts:46-47 | taking a key out keeps the order by last touch |
| CacheStaleness.BoundedStaleness | src/common/cache/cache-orchestrator.service.ts:56-153 | any processes, invalidations and races: a value handed out was the content of the row no longer ago than 1.2 times the L1 lifetime, plus 1.2 times the L2 lifetime in seconds, rounded, plus two delays |
| CacheStaleness.BoundAttained | src/common/cache/cache-orchestrator.service.ts:56-153 | a run in which a hit is exactly that old, for every configuration |
| CacheStaleness.InvalidationFresh | src/common/cache/cache-orchestrator.service.ts:165-178 | after an invalidation with no resolve under way the process never again gets a value read before it, whatever the others do |
| CacheStaleness.RefillAfterDrop | src/common/cache/cache-orchestrator.service.ts:120-153 | a run in which a resolve under way at the invalidation puts the value from before it back |
| SingleFlight.AtMostOneRunning | src/common/cache/cache-orchestrator.service.ts:83-95 | under every interleaving one work per key, an entry until its own cleanup and removed by no other, one outcome for all who waited, and nobody waits for work of another key than the one asked for |
| SingleFlight.JoinsOrStarts | src/common/cache/cache-orchestrator.service.ts:83-95 | in every reached state a caller at the map joins the work of its key that is not cleaned up yet, if there is one, and starts its own only otherwise |
| SingleFlight.OutcomeForAll | src/common/cache/cache-orchestrator.service.ts:83-95 | once a loader has settled, everybody who waits for it, in every later state, has got or gets next exactly that outcome |
| SingleFlight.ExactIffNoThrow | src/common/gcp-storage/signed-url-cache.service.ts:90-113 | the map is exact after a run if and only if no loader in it threw before its first await |
| SingleFlight.StuckForever | src/common/gcp-storage/signed-url-cache.service.ts:90-113 | after such a throw the entry stays through every further run and no work of its key starts |
| SingleFlight.StuckServesFailure | src/common/gcp-storage/signed-url-cache.service.ts:90-92 | every later caller of that key is handed the old failure |
| UserDao.Dao.Get | src/common/cache/cache-orchestrator.service.ts:111-153 | a read by id answers as the database would; by email it names the owner, and answers as the database would while the entries are current |
| UserDao.Dao.FindById | src/modules/user-service/dao/user.dao.ts:215-225 | as good as a query unless the filter says no to a present id |
| UserDao.Dao.FindByEmail | src/modules/user-service/dao/user.dao.ts:233-244 | the owner of the email while the entries are owned, the current projection while they are current |
| UserDao.Dao.Create | src/modules/user-service/dao/user.dao.ts:199-206 | fails exactly on an email, or pending email, that another row holds, and keeps every cache promise |
| UserDao.Dao.Write | src/modules/user-service/dao/user.dao.ts:310-315 | an update fails exactly on an unknown id, or an email or pending email that another row holds |
| UserDao.Dao.Update | src/modules/user-service/dao/user.dao.ts:310-323 | sets exactly the given fields and the stamp; evicts the id and the email the row now has; id entries stay current; email entries stay owned, and current, if and only if the email is kept or the old one is not cached |
| UserDao.Dao.UpdateQuietly | src/modules/user-service/dao/user.dao.ts:333-362 | email entries stay owned, and stay current if and only if none is cached for the user or the update changes nothing public, its own stamp included |
| UserDao.Dao.ResetPasswordAndClearOtp | src/modules/user-service/dao/user.dao.ts:333-346 | sets the password and clears the code of that row only; the email entry stays current if and only if there is none or the row was stamped this very moment |
| UserDao.Dao.MarkVerifiedAndClearOtp | src/modules/user-service/dao/user.dao.ts:353-362 | marks that row verified only; the email entry stays current if and only if there is none or the row was verified and stamped this very moment already |
| UserDao.Dao.CommitEmailChange | src/modules/user-service/dao/user.dao.ts:384-403 | email entries stay owned, and current, if and only if the filter let the old email be learnt, the email is kept, or the old one is not cached |
| UserDao.EmailMoved | src/modules/user-service/dao/user.dao.ts:384-403 | after a row change a tier is right about the emails exactly when the old one is gone from it |
| UserDao.UnverifiedAfterVerification | src/modules/user-service/dao/user.dao.ts:353-362 | a run in which the cached read by email still says unverified after the verification |
| UserDao.FoundByOldEmail | src/modules/user-service/dao/user.dao.ts:310-323 | a run in which the cached read by an email nobody owns any more still finds the user after an update |
| ResetTokens.Service.Issue | src/modules/auth-service/services/password-reset-token.service.ts:55-81 | the new token is the user's only live one, for 600,000 ms; tokens of others are untouched |
| ResetTokens.Service.Consume | src/modules/auth-service/services/password-reset-token.service.ts:89-112 | returns the holder of a live token and leaves that user none, even when the back-pointer cleanup fails |
| ResetTokens.Service.Revoke | src/modules/auth-service/services/password-reset-token.service.ts:123-135 | takes away the live token of that user and no other |
| ResetTokens.Service.OneLiveToken | src/modules/auth-service/services/password-reset-token.service.ts:55-135 | in every state of non-overlapping calls at most one token per user is live |
| ResetTokenRace.ConsumedOnce | src/modules/auth-service/services/password-reset-token.service.ts:89-112 | under every interleaving a token is consumed at most once, was issued, and is never live again |
| ResetTokenRace.SuccessIsLast | src/modules/auth-service/services/password-reset-token.service.ts:89-112 | in every run a GETDEL that finds its token live gets the user that its key names, and in no state of any later run is the token live |
| ResetTokenRace.TokenLifetime | src/modules/auth-service/services/password-reset-token.service.ts:55-112 | through any later run of overlapping calls a token is the user's for whom it was written, and live exactly as long as its key is there and 600,000 ms have not passed |
| ResetTokenRace.PointedStep | src/modules/auth-service/services/password-reset-token.service.ts:55-135 | while every live token is the one its user points back to, a step of any interleaving keeps that if and only if it is not a new token, a cleanup or a deletion that hits the back-pointer of another live token |
| ResetTokenRace.NoBreakNoSecond | src/modules/auth-service/services/password-reset-token.service.ts:55-135 | over a whole run from any such state it holds at every moment if and only if the run has no such step, and then no user has two live tokens |
| ResetTokenRace.PointedFromStart | src/modules/auth-service/services/password-reset-token.service.ts:55-135 | the same for every run from the start |
| ResetTokenRace.SingleStep | src/modules/auth-service/services/password-reset-token.service.ts:55-135 | writing a token while the user has a live one is the only step, and always one, that gives a user a second |
| ResetTokenRace.SingleFromStart | src/modules/auth-service/services/password-reset-token.service.ts:55-135 | in a run from the start a user has at most one live token at every moment if and only if no token is written while another of the user is live |
| ResetTokenRace.OneCallPerUser | src/modules/auth-service/services/password-reset-token.service.ts:55-135 | a run in which only calls of different users overlap has no step that breaks the pointing |
| ResetTokenRace.OneCallPerUserFromStart | src/modules/auth-service/services/password-reset-token.service.ts:55-135 | from the start, as long as only calls of different users overlap, no user has two live tokens at any moment |
| ResetTokenRace.MintKeepsSingleIff | src/modules/auth-service/services/password-reset-token.service.ts:55-75 | a new token is the user's only one exactly when the user had none |
| ResetTokenRace.OverlapBreaksSingle | src/modules/auth-service/services/password-reset-token.service.ts:55-75 | two overlapping issues that end with two live tokens |
| ResetTokenRace.LateCleanupBreaksSingle | src/modules/auth-service/services/password-reset-token.service.ts:89-112 | two live tokens with no two issues overlapping, after a cleanup that comes late |
| ResetTokenRace.LateRevokeBreaksSingle | src/modules/auth-service/services/password-reset-token.service.ts:123-135 | two live tokens with no two issues overlapping, after a revocation that deletes late |
| PasswordReset.Flow.ForgotPassword | src/modules/auth-service/auth.service.ts:326-354 | the user that the lookup finds loses any live token and, if the write succeeds, gets a code for ten minutes; nobody else is affected |
| PasswordReset.Flow.VerifyOtp | src/modules/auth-service/auth.service.ts:364-397 | succeeds exactly on the current, unexpired code and makes the fresh token the user's only one |
| PasswordReset.Flow.ResetPassword | src/modules/auth-service/auth.service.ts:417-441 | succeeds exactly with a live token and a successful write, changes the password of its holder only, and leaves that user neither token nor code; a failed write costs the token and nothing else |
| PasswordReset.Flow.ResetMatched | src/modules/auth-service/auth.service.ts:326-441 | after any calls, each reset goes back to its own verification of the same user and token with no event of that user in between, and that to the forgot-password which sent the very code verified, unexpired then and not replaced or used up in between |
| PasswordReset.Flow.ResetNeedsForgot | src/modules/auth-service/auth.service.ts:326-441 | after any calls, between two resets of a user lies a forgot-password of that user |
| Sessions.SessionsSound | src/modules/auth-service/auth.service.ts:549-641 | in every reached state keys hold tokens of their own user and kind, no refresh key is redeemed twice, and a finished logout of all sessions without a new session left no key of the user |
| Sessions.AccessHasRefresh | src/modules/auth-service/auth.service.ts:238-307 | a live access key has its live refresh key beside it, in every run without a new session of a user whose sessions are all being logged out |
| Sessions.OthersUntouched | src/common/redis/redis-service/auth/redis-token.service.ts:66-108 | through any run of logins, rotations, logouts and scans of other users the keys of a user stay as they are |
| Sessions.SessionLifetime | src/modules/auth-service/auth.service.ts:269-296 | from a login or a granted rotation at t, through any run of others, the access key is live exactly up to t + 1000 accessTtl, the refresh key exactly up to t + 1000 refreshTtl, and it is redeemed exactly while the claim t/1000 + refreshTtl lies in the future |
| Sessions.ScanToEndKeeps | src/common/redis/redis-service/auth/redis-token.service.ts:88-104 | the rest of a scan removes exactly the keys of its user that it has not passed |
| Sessions.LogoutAllComplete | src/common/redis/redis-service/auth/redis-token.service.ts:66-108 | a logout of all sessions that finishes in a run in which the user gets no new session, whatever the others do, leaves the user no key |
| Sessions.GrantDuringScan | src/common/redis/redis-service/auth/redis-token.service.ts:81-108 | a login or rotation during the scan ends with an access key without its refresh key if and only if the scan had passed the place of the first and not of the second |
| Sessions.LoginLosesRefresh | src/common/redis/redis-service/auth/redis-token.service.ts:81-108 | a whole logout of all sessions with a login in it that ends so |
| Sessions.StoredInTurn | src/modules/auth-service/auth.service.ts:285-296 | when the two keys of a new session are stored one after the other, in either order, with batches in between, each survives if and only if the scan was past it when it was stored |
| RotationRace.TwiceIff | src/modules/auth-service/auth.service.ts:549-620 | under every interleaving two rotations of a key that have come through both hand out a pair if and only if both read the key before anything took it away |
| RotationRace.TwiceOverlaps | src/modules/auth-service/auth.service.ts:549-620 | so each of them read it before the other deleted it |
| RotationRace.RefusedAfter | src/modules/auth-service/auth.service.ts:549-620 | once a key is deleted, expired or logged out, every rotation that reads it in any later state is refused |
| RotationRace.OutlivesIff | src/modules/auth-service/auth.service.ts:500-620 | a session outlives its own logout if and only if a rotation read the key before the logout deleted it, stores its pair, and was not done by then |
| RotationRace.LogoutFinal | src/modules/auth-service/auth.service.ts:500-620 | once a key is gone and no rotation of it is under way, no later pair descends from it in any run |
| RotationRace.LogoutOutlived | src/modules/auth-service/auth.service.ts:500-620 | a run in which a session outlives its logout |
| RotationRace.OverlapRedeemsTwice | src/modules/auth-service/auth.service.ts:549-620 | two overlapping rotations that redeem one key twice |
| Sessions.TokenStore.SignIn | src/modules/auth-service/auth.service.ts:269-296 | both keys of the new session are live, the access key and its claim for accessTtl from now, the refresh key and its claim for refreshTtl, and the new state is that of the login step |
| Sessions.TokenStore.RefreshToken | src/modules/auth-service/auth.service.ts:549-641 | succeeds exactly for a live refresh key with an unexpired claim, never for one redeemed before; then the new pair is live for accessTtl and refreshTtl from now and the old one gone; a refusal at most purges a key whose claim has expired |
| Sessions.TokenStore.SignOut | src/modules/auth-service/auth.service.ts:500-510 | removes the two keys of the session and no other |
| Sessions.TokenStore.DeletePattern | src/common/redis/redis-service/auth/redis-token.service.ts:88-104 | the SCAN loop ends, removes exactly the keys of its pattern, and counts them |
| Sessions.TokenStore.DeleteAllUserTokens | src/common/redis/redis-service/auth/redis-token.service.ts:81-108 | removes exactly the keys of the user and returns how many there were |

## Left out

- Controllers, DTOs, guards other than the throttle, interceptors, modules: framework plumbing.
- The circuit breaker, the queues, mail and storage clients: their logic lies in libraries.
- Finance, image checks, role guard, limits of listings: settled by reading one branch.
- The backoff delay before a soft denial, and the header parsing that picks the client address.
- `isTrustedProxy` and the case of a proxy entry without a slash, which is an equality of texts.
- Cursor encoding, whose content is base64url and JSON.
- Registration, account verification, change of password and change of email as flows; their writes are in `user_dao.dfy`.
- `invalidatePattern`, whose loop is that of `Sessions.TokenStore.DeletePattern`, and `deleteTokenPair` and `getToken`, which are single commands.
- The lifetime margin of the signed-URL cache: one subtraction.
- BloomHash.Murmur3: of MurmurHash3_x86_32 one published value only, `BloomHashKeys.TestVector`. The tail omits the second multiplication, so the two differ for lengths not divisible by four.
- BloomRebuild.RebuildNamespace: warm-up and `add` are assumed to land here; their failures are in `BloomFilter.Service`.
- UserDao.Dao.Get: the entries of one process only, with lifetimes reduced to entries vanishing at any time; several processes and time are in `CacheStaleness`.
- ThrottleGuard.Guard.CheckLayer: one window and one block length per key, as the layers of a guard have them.

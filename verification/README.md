# Valt, modelled and proved

Valt keeps secrets, hands them out on approved requests for a limited time, and records
everything in a hash-chained audit log. This project models the parts of the server (and
two dashboard helpers) that have real state or real arithmetic, and proves what they promise.

| module | models |
|---|---|
| `JsonText`, `AuditHash`, `AuditColumns`, `AuditLog` | the audit chain: JSON preimages (strings as in section 7 of RFC 8259), both hash schemes, the verifier, what Postgres columns return, and the lock-insert-advance protocol under concurrency |
| `SlidingWindow`, `RateLimiter`, `RedisLimiter`, `LoginLockout` | the three sliding-window limiters over one theory of pruned histories |
| `PolicyParameters`, `PolicyOverride`, `CustomPolicy`, `PolicyTemplates` | parameter validation, override diff and merge, custom-policy layers, versioned templates and bindings |
| `RequestSnapshots`, `AccessWorkflow`, `RequestQuota`, `ApprovalChain` | the policy snapshot of every request; access requests, sessions and action tokens; quotas; approval chains |
| `Aes`, `Vault` | nonce-prefixed AES-GCM values and the envelope-encrypted secret store |
| `NotifyRetry`, `RouteMatch` | notification retries, and the gateway's route choice |

Where the source runs SQL statements or takes a mutex, one statement (or one critical
section) is one step, and a theorem about a run quantifies over every sequence of steps:
every interleaving, with crashes and aborts at any point. Where the source updates fields or
slices in place, a class or an array method does the same and is proved against a function;
the lemmas are about that function.

## Assumptions

- SHA-256 is an arbitrary function to 64 hex digits; it is assumed free of collisions only
  on the finitely many texts that the chains in question hash (`AuditHash.CollisionFree`).
- `time.RFC3339Nano` text is injective on times truncated to microseconds. `netip` parsing
  and printing are parameters without any assumption. The `inet` column takes every prefix
  that `netip` prints, and returns its text unchanged unless it shows the address as a dotted
  quad, which it does for six zero words followed by one that is not (`AuditColumns.InetSpec`).
- AES-256-GCM seals and opens as sections 7.1 and 7.2 of NIST SP 800-38D say: a text opens
  to a plaintext exactly when it is that plaintext sealed. That a data key does not open
  another key's blob is a hypothesis only where unreadability is concluded.
- Clocks are parameters; they do not go back within a run where a lemma says `Ordered`.
- Generated UUIDs do not repeat. Table definitions, keys and column types are those of
  `server/internal/database/migrations`.

## What the proofs found

- A log verifies as read back in every run whose calls are all admissible, a condition on the
  call's own fields (`AuditLog.Admissible`, `AuditLog.AdmissibleRunsVerify`), and only then
  (`AuditLog.ReadBackVerifiesIff`). Two kinds of accepted entries are not admissible: `uuid`
  columns return lower-case text, so an upper-case id breaks the chain
  (`AuditLog.CapitalIdBreaksChain`), and so does an address that `inet` prints as a dotted quad
  where `netip` prints hexadecimal words, such as `::102:304` (`AuditLog.DottedAddressBreaksChain`).
- The version 1 preimage, which separates six fields by bars, determines them exactly when none holds a
  bar (`AuditHash.PreimageV1DeterminesIff`). Rows that the columns accept can move a bar from the action
  to the resource type and still link, such as `export|all`, `secret` and `export`, `all|secret`
  (`AuditColumns.StoredV1IsAmbiguous`). Version 2 determines all its fields
  (`AuditHash.PreimageV2Injective`), and the two never coincide.
- The comment on `canonicalIP` says that the first parseable address of a list survives. The code tries
  only the first element, so it does exactly when that one is usable or none is
  (`AuditColumns.FirstUsableSurvivesIff`); of `unknown, 203.0.113.9` nothing survives
  (`AuditColumns.UnknownHidesAddress`).
- `access_requests.decided_by` references `users(id)`, but links and chat buttons pass a name
  such as `email-action`. Such a decision always fails, after the token has been burnt
  (`AccessWorkflow.LinksDecideNothing`); where only they decide, nothing is ever decided
  (`AccessWorkflow.ChannelsDecideNothing`).
- A handler that dies between approving and issuing leaves a request whose value is never
  served (`AccessWorkflow.CrashedApprovalIsNeverServed`). In general a value can still be served exactly when
  its session is live, or there is none and one may yet be issued (`AccessWorkflow.ServedLaterIff`).
- A single-use credential can be served twice (`AccessWorkflow.OverlapServesTwice`): exactly when it
  is fetched again in time with no revocation in between (`AccessWorkflow.ServedTwiceIff`). When its own
  handlers do not overlap, it is served at most once, whatever else runs (`AccessWorkflow.SingleUseServedOnce`).
- The daily maximum and the cool-down are counted before the row is inserted. When up to k calls
  are between count and insert at once, a day can hold k - 1 requests more than the maximum and a
  cool-down k, and never more (`RequestQuota.DailyLimitUpToOverlap`,
  `RequestQuota.CoolDownUpToOverlap`, `RequestQuota.OverlapReachesBound`).
- `CreateRequest` takes only the approvers from the custom-policy layers and discards the policy
  they fold to (`server/internal/workflow/service.go:146`). A history leaves the requests it would leave
  if nobody had ever set a custom policy (`RequestSnapshots.LayersAreIgnored`); what is enforced is what the
  layers ask for exactly when they are redundant (`RequestSnapshots.EnforcedAsLayeredIff`); and a request for an
  API key whose policy says `block` starts out approved (`RequestSnapshots.BlockedIsApproved`).
- The login handler checks the lock and records a failure in two critical sections with the password
  hash between them. With up to k attempts of an address between the two, a 15-minute window can hold
  k - 1 failures more than five, and never more (`LoginLockout.FailuresUpToOverlap`,
  `LoginLockout.OverlapReachesBound`).
- A custom policy with `auto_approve: true` does not lift a requirement of the layers below it,
  although its comment says that an explicit value overrides the tier (`CustomPolicy.ApprovalIff`).
- `UpdateSecret` replaces the wrapped key before it puts the blob. If the Put fails, or two
  updates interleave, the secret is readable exactly when the last key and the last blob
  are of one write (`Vault.ReadableIffSameWrite`). A delivery reads the row before the blob, so one with a
  whole update in between fails (`Vault.DeliveryOpensIff`, `Vault.UpdateBetweenReads`).
- The comment on `AdvanceChain` says that any rejection marks the chain as rejected; the code
  goes on to the next approver, and a later call can return true (`ApprovalChain.RejectionDoesNotStop`).
  A rejection whose commit fails returns without an error and decides nothing (`ApprovalChain.SuccessesAreDecisions`).
- The server normalises the minimum reason length before it compares, the dashboard does
  not; `PolicyOverride.WarningsAgreeIff` says exactly when their warnings differ.
- The Redis limiter counts denied attempts, so it admits at most what the in-memory limiter
  admits and sometimes less (`RedisLimiter.RedisIsStricter`, `RedisLimiter.RedisPenalisesDenied`).
- An exact route is chosen for certain only if every matching wildcard is shorter than the path; to the
  wildcard below it, whose pattern is longer, it always loses (`RouteMatch.ExactAlwaysChosenIff`,
  `RouteMatch.WildcardAlwaysChosenIff`).

## Model

| member | source | states |
|---|---|---|
| JsonText.StringRoundTrip | server/internal/audit/hash-chain.go:40-54 | a JSON string literal with Go's escaping, wherever it stands in a text, decodes to the string it encodes and the text after it, for every string |
| JsonText.CharIsEscaped | server/internal/audit/hash-chain.go:40-54 | every character stands in a literal as Go writes it: as it is, as one of seven short escapes, or by its code in four lower-case hex digits |
| JsonText.MembersRoundTrip | server/internal/audit/hash-chain.go:40-54 | the members of the preimage object decode to their twelve values, so no two lists of values share a text |
| AuditHash.VerifyChain | server/internal/audit/hash-chain.go:79-94 | the loop returns (true, -1) iff every entry links to the one before under version 2 or version 1, and otherwise the first index that does not |
| AuditHash.PreimageV2Injective | server/internal/audit/hash-chain.go:39-61 | equal version 2 preimages mean the same previous hash and the same twelve hashed fields, times up to microseconds |
| AuditHash.PreimageV2Text | server/internal/audit/hash-chain.go:14-54 | the version 2 preimage, written out: its keys in their order, and which field stands under which |
| AuditHash.PreimagesApart | server/internal/audit/hash-chain.go:67-72 | after a digest or the empty string, no version 1 preimage is a version 2 preimage |
| AuditHash.PreimageV1DeterminesIff | server/internal/audit/hash-chain.go:67-72 | after a digest or nothing, the version 1 preimage determines the previous hash and the six fields it covers iff none of the six holds a bar |
| AuditHash.PreimageV1Text | server/internal/audit/hash-chain.go:67-72 | the version 1 preimage, written out: the previous hash and six fields, each after a bar |
| AuditColumns.StoredV1IsAmbiguous | server/internal/audit/hash-chain.go:67-72 | beside every stored row there are two that the columns keep, that differ in action and resource type, and of which one links under version 1 iff the other does |
| AuditHash.LinkAgrees | server/internal/audit/hash-chain.go:79-94 | two entries that link and store one hash follow the same previous hash, under the same scheme, with the same hashed fields: under version 1 those without bars |
| AuditHash.HeadDeterminesChain | server/internal/audit/hash-chain.go:79-94 | two verified chains with the same last hash, of whatever lengths and schemes, have the same length, hashes and schemes, and at every index the same hashed fields: all twelve under version 2, all six under version 1 where they hold no bar |
| AuditHash.ReplacedEntryLinks | server/internal/audit/hash-chain.go:11-13 | an entry put where another stood, keeping its hash, links iff no hashed field changed; where the other was version 1, iff its six fields did not change but for moved bars |
| AuditHash.TamperingIsLocated | server/internal/audit/hash-chain.go:74-94 | when one entry of a verified log, of either version, is replaced by one that keeps its stored hash, every other index still links, and this one iff the same condition holds |
| AuditColumns.CanonicalIPKeptIff | server/internal/audit/logger.go:199-216 | what canonicalIP returns is always accepted by the inet column, and comes back unchanged iff the field was dropped or its address is not one that inet shows as a dotted quad |
| AuditColumns.AddressIsRecorded | server/internal/audit/logger.go:199-216 | which text is logged for an address: IPv4 as it is or out of its IPv6 form, other IPv6 as it is, with the full prefix length; nothing for what does not parse or is unspecified |
| AuditColumns.CanonicalIPFirstOnly | server/internal/audit/logger.go:199-216 | of a forwarded list only the first element counts, whatever follows |
| AuditColumns.FirstUsableSurvivesIff | server/internal/audit/logger.go:193-216 | the result is the first usable address of the list, as the comment says, iff the first element is usable or none is |
| AuditColumns.UnknownHidesAddress | server/internal/audit/logger.go:193-216 | a list whose only address is dropped |
| AuditColumns.UuidKeptIff | server/internal/database/migrations/000005_create_audit_logs.up.sql:1-11 | a uuid column returns a text unchanged iff it is lower-case hex, hyphenated 8-4-4-4-12 |
| AuditColumns.BracesAreCut | server/internal/database/migrations/000005_create_audit_logs.up.sql:1-11 | a canonical uuid in braces is accepted and comes back without them |
| AuditColumns.VarcharKeptIff | server/internal/database/migrations/000010_alter_audit_logs.up.sql:8-13 | a varchar column returns a text unchanged iff it fits |
| AuditColumns.VarcharTakes | server/internal/database/migrations/000010_alter_audit_logs.up.sql:8-13 | a varchar column takes a text iff at most spaces exceed its length, and cuts only those |
| AuditColumns.TrimCutsSpaces | server/internal/audit/logger.go:203 | trimming cuts all spaces at both ends and nothing else |
| AuditColumns.ColumnsKeepIff | server/internal/audit/logger.go:88-95 | an inserted entry reads back with its hashed fields unchanged iff each field meets a condition on itself alone |
| AuditLog.NextKeepsTx | server/internal/audit/logger.go:75-109 | every statement keeps this: whoever is past the lock holds it, and what it has read or written extends the current head |
| AuditLog.NextKeepsTable | server/internal/audit/logger.go:88-109 | every statement keeps this: committed rows follow one another from the start, the state row is the last of them, and rows are only appended |
| AuditLog.EveryRunIsOneChain | server/internal/audit/logger.go:130-180 | in every interleaving of appending transactions with aborts and crashes, committed rows are numbered without gaps, each is hashed over the one before, and the state row is exactly the last number and hash |
| AuditLog.RowsComeFromCalls | server/internal/audit/logger.go:51-180 | every row a run adds is exactly what some call begun in that run writes on top of the row before it |
| AuditLog.RowsRecordCalls | server/internal/audit/logger.go:51-180 | over every run each added row records what its call passed, field by field: all as they are but for three defaults, the time cut to microseconds and, through Log only, the address |
| AuditLog.AdmissibleIff | server/internal/audit/logger.go:88-95 | the columns return a call's entry with its hashed fields unchanged iff the call is admissible: ids canonical or empty, texts that fit and hold no NUL, an address that inet returns as it is |
| AuditLog.ReadBackLinksIff | server/internal/audit/logger.go:199-223 | after any run, a row as read back links iff it was there at the start or the call that wrote it was admissible |
| AuditLog.AdmissibleRunsVerify | server/internal/audit/hash-chain.go:74-94 | every run whose calls are all admissible leaves a log that verifies as read back, in every interleaving and without any assumption on the hash |
| AuditLog.ReadBackVerifiesIff | server/internal/audit/hash-chain.go:74-94 | after any run the log as read back verifies iff every call with a committed row was admissible; otherwise the first index that does not link is the first row of a call that was not |
| AuditLog.LogRunsTo | server/internal/audit/logger.go:51-111 | where an undisturbed call of Log stands after each of its statements |
| AuditLog.CutLogLeavesNothing | server/internal/audit/logger.go:69-109 | a Log call whose connection fails before the commit leaves rows and head as they were |
| AuditLog.StoppedLeaveNothing | server/internal/audit/logger.go:69-73 | an abort and a restart end their transactions, free the lock if one of them held it, and leave the tables alone |
| AuditLog.AuditStore.Log | server/internal/audit/logger.go:51-111 | the returned entry has every field as passed, but for the defaults, the cut time, the canonical address, and the sequence number and hash that extend the head; the method ends where the statements of the protocol end; it succeeds iff nothing was cut off, the commit answered and the columns take the row; a failure changes nothing, unless the commit took effect and its answer was lost |
| AuditLog.CapitalIdBreaksChain | server/internal/audit/logger.go:88-95 | one accepted entry with an upper-case uuid makes an otherwise empty log fail verification |
| AuditLog.DottedAddressBreaksChain | server/internal/audit/logger.go:199-216 | so does one from an address that inet shows as a dotted quad, wherever the same call without an address would be accepted |
| SlidingWindow.Compact | server/internal/middleware/rate-limit.go:39-45 | filtering a slice over its own backing array leaves exactly the later elements, in order |
| SlidingWindow.Append | server/internal/middleware/rate-limit.go:52 | append in place while there is capacity, in a larger array otherwise; either way the old elements and the new one |
| SlidingWindow.Histories.Prune | server/internal/middleware/rate-limit.go:36-45 | a key's slice in the map is filtered over its own array; the other keys keep their elements, and no two keys share an array |
| SlidingWindow.Histories.Push | server/internal/auth/login_lockout.go:61-67 | the same for appending to a key's slice, through its spare capacity or a new array |
| SlidingWindow.CountAfter | server/internal/auth/login_lockout.go:49-57 | the counting loop returns the number of elements strictly after the cutoff |
| SlidingWindow.AdmissionKeepsBound | server/internal/middleware/rate-limit.go:47-53 | admitting only while fewer than max are recent keeps every window of every end point within max |
| SlidingWindow.AdmittedBounded | server/internal/middleware/rate-limit.go:32-54 | however arrivals fall, a limiter that never forgets admits at most max in any window |
| RateLimiter.RateLimiter.Allow | server/internal/middleware/rate-limit.go:32-54 | the answer and the map's new contents are functions of the key's old elements; only that key's array is written, and the arrays stay apart |
| RateLimiter.RateLimiter.Cleanup | server/internal/middleware/rate-limit.go:57-79 | filtering every key's slice over itself leaves exactly the keys with something recent, pruned, whatever the order of iteration |
| RateLimiter.MemoryIsFaithful | server/internal/middleware/rate-limit.go:32-79 | after any run the pruned slice answers every later question as the key's full admission history would |
| RateLimiter.LimiterNeverForgets | server/internal/middleware/rate-limit.go:32-79 | in any interleaving of requests and background passes, a key is granted exactly what a limiter that never forgets would grant its own arrivals |
| RateLimiter.RunsAreBounded | server/internal/middleware/rate-limit.go:12-18 | in any run, any window (t - window, t] holds at most max admissions of a key |
| RedisLimiter.RedisLimiter.Allow | server/internal/ratelimit/redis.go:30-54 | a request is let through iff all the attempts its agent ever made in the last 60 s, denied ones and itself included, number at most rpm; the pruned and expiring set stays faithful to them, and no other agent's key changes |
| RedisLimiter.RunTells | server/internal/ratelimit/redis.go:40-44 | after any run the key, expired or not, still holds every attempt that can count again |
| RedisLimiter.CountsEveryAttempt | server/internal/ratelimit/redis.go:30-54 | a request is let through iff all attempts of the last 60 s, denied ones and itself included, number at most rpm |
| RedisLimiter.RedisIsStricter | server/internal/ratelimit/redis.go:36-53 | on the same arrivals, what this limiter lets through the in-memory one with the same limit and window lets through too |
| RedisLimiter.RedisPenalisesDenied | server/internal/ratelimit/redis.go:36-53 | arrivals on which the in-memory limiter admits and this one denies |
| LoginLockout.LoginLockout.IsLocked | server/internal/auth/login_lockout.go:40-58 | locked iff at least five tracked failures are recent |
| LoginLockout.LoginLockout.RecordFailure | server/internal/auth/login_lockout.go:61-81 | the address's slice becomes the old one and the failure, filtered over its own array; no other address's slice changes |
| LoginLockout.LoginLockout.Cleanup | server/internal/auth/login_lockout.go:91-107 | exactly the addresses with nothing recent are dropped |
| LoginLockout.LoginLockout.Login | server/internal/auth/handler.go:206-241 | which outcome records a failure, which clears, and which leaves the tracker alone |
| LoginLockout.TrackerIsFaithful | server/internal/auth/login_lockout.go:60-107 | in any interleaving with clean-up the tracked failures answer as all failures since the last clear would |
| LoginLockout.LockIsExact | server/internal/auth/login_lockout.go:38-58 | locked iff five failures since the last clear lie in the last 15 minutes; a lock ends once none does |
| LoginLockout.FailuresUpToOverlap | server/internal/auth/handler.go:206-241 | in every interleaving of checks, failures, successes and clean-up with at most k attempts of an address between check and record at a time, no 15-minute window holds more than 5 + k - 1 of its failures between clears |
| LoginLockout.ChecksPassIff | server/internal/auth/login_lockout.go:40-58 | a check passes iff fewer than five failures since the last clear lie in the last 15 minutes; waiting that long is always enough |
| LoginLockout.HandlersLeave | server/internal/auth/handler.go:206-241 | what a handler that passed its check leaves of its address, and that it leaves every other alone |
| LoginLockout.SweepForgets | server/internal/auth/login_lockout.go:91-107 | the clean-up forgets exactly the addresses with nothing recent |
| LoginLockout.OverlapReachesBound | server/internal/auth/handler.go:206-241 | for every k, a run of k overlapping attempts that reaches that bound |
| LoginLockout.AtMostFiveFailures | server/internal/auth/login_lockout.go:8-11 | when an address's attempts do not overlap, no window holds more than five |
| PolicyParameters.AdmitsCanonical | server/internal/policy/validator.go:62-84 | validation admits exactly what is canonical once normalised, and returns that |
| PolicyParameters.SpellingIsIrrelevant | server/internal/policy/validator.go:13-135 | an object read from Go or from JSON validates as the parameters it spells, integers as int or float |
| PolicyParameters.ValidatedIsCanonical | server/internal/policy/validator.go:137-161 | whatever validation accepts is within all bounds and cross-field rules |
| PolicyParameters.ValidatesIff | server/internal/policy/validator.go:13-161 | validation accepts an object iff it has exactly the ten fields, each of its type and within its bounds and cross-field rules, and returns them, normalised |
| PolicyParameters.ValidationIsIdempotent | server/internal/policy/validator.go:13-85 | stored and read again, parameters come back unchanged iff they are canonical |
| PolicyParameters.DefaultsAreCanonical | server/internal/policy/engine.go:44-99 | the default of every tier is canonical |
| PolicyParameters.DefaultsByType | server/internal/policy/engine.go:29-99 | the ten default values for every credential type |
| PolicyOverride.TiersGetStricter | server/internal/policy/engine.go:44-99 | each tier's default is at least as strict as that of the tier below |
| PolicyParameters.UnreadableFallsBack | server/internal/workflow/service.go:114-138 | a snapshot that is missing, no object or not valid is judged by the default of the type |
| RequestSnapshots.EnforcedComesFromTables | server/internal/workflow/service.go:72-107 | what a call enforces, from the tables: the bound version with the binding's override merged in, its template, warnings and source; and the tier default, with no template, exactly when the feature is off, the query failed, or the secret is unbound or gone |
| RequestSnapshots.SnapshotIsWhatWasEnforced | server/internal/workflow/service.go:72-138 | in every history a request carries its own secret's type, and its snapshot yields exactly the policy enforced when it was created, which came from the tables in this way when that call read them |
| RequestSnapshots.JudgedAlikeLater | server/internal/workflow/service.go:114-138 | however a history goes on after a request was created, the request is judged by the policy first enforced |
| RequestSnapshots.RequestNamesItsTemplate | server/internal/database/migrations/000026_request_action_tokens.up.sql:78-89 | in every history a request names the template and version it was judged by, until that template is deleted |
| RequestSnapshots.LayersAreIgnored | server/internal/workflow/service.go:140-146 | every history leaves the requests and policies it would leave without any of its writes to custom policies |
| RequestSnapshots.EnforcedAsLayeredIff | server/internal/workflow/service.go:140-215 | what is enforced for a request is what its secret's layers make of it iff they are redundant, and it starts out approved or pending as they would have it iff none denies an approval that was granted or allows one that lacked only the allowance |
| RequestSnapshots.BlockedIsApproved | server/internal/policy/custom_policy.go:83-88 | a history whose request for a blocked secret starts out approved |
| PolicyOverride.MergeOverride | server/internal/policy/resolver.go:136-156 | the loop, in whatever order it visits the keys, fails iff a key is unknown and otherwise gives the override laid over the template |
| PolicyOverride.CompareWeakening | server/internal/policy/resolver.go:100-134 | the ten comparisons give the weakened fields in their order; dashboard/src/components/policies/policy-helpers.ts:48-61 does the same |
| PolicyOverride.WarningsAreExact | server/internal/policy/resolver.go:100-134 | a warning names exactly a weakened field, and there is none iff the policy is at least as strict in all ten fields |
| PolicyOverride.StrictnessIsPartialOrder | server/internal/policy/resolver.go:100-134 | that order is reflexive, antisymmetric and transitive |
| PolicyOverride.BuildOverridePayload | dashboard/src/components/secrets/use-secret-policy-binding.ts:135-142 | the loop collects exactly the fields that differ, or nothing when the override is off |
| PolicyOverride.DiffThenMerge | server/internal/policy/resolver.go:76-98 | for all base and desired policies the server resolves the dashboard's payload to desired, normalised, if that is canonical, and fails otherwise; it is desired itself iff desired is canonical |
| PolicyOverride.DiffIsExact | dashboard/src/components/policies/policy-helpers.ts:44-46 | the payload is empty iff nothing changed, and the dashboard's own merge of it gives desired |
| PolicyOverride.DiffIsLeast | server/internal/policy/resolver.go:136-156 | every override that reaches desired has at least the payload's keys, but for a minimum length that no longer matters |
| PolicyOverride.WarningsAgreeIff | dashboard/src/components/policies/policy-helpers.ts:48-61 | when the server's warnings and the dashboard's are the same |
| CustomPolicy.ApplyTo | server/internal/policy/custom_policy.go:64-91 | the field-by-field updates give one layer's effect, caps, approval and reason |
| CustomPolicy.DurationIsLeastCap | server/internal/policy/custom_policy.go:67-70 | over any list of layers the duration is the least of the base and the positive caps, and is one of them |
| CustomPolicy.ReasonIsGreatestMinimum | server/internal/policy/custom_policy.go:71-74 | over any list of layers the minimum reason length is the greatest of the base and the layers, and is one of them |
| CustomPolicy.OrderIsIrrelevant | server/internal/policy/resolver.go:30-73 | duration, minimum length, approval and auto-approval do not depend on order or repetition of layers |
| CustomPolicy.ApprovalIff | server/internal/policy/custom_policy.go:78-88 | over all layers: approval is required iff the base or some layer asks for it; auto-approval iff neither base nor layers ask and the base or a layer allows it |
| CustomPolicy.ApprovalStaysRequired | server/internal/policy/custom_policy.go:78-88 | once required, approval stays required whatever layers follow |
| CustomPolicy.LastReasonSettingWins | server/internal/policy/custom_policy.go:75-77 | the last layer that says whether a reason is required decides it |
| CustomPolicy.FoldIsBaseIff | server/internal/policy/custom_policy.go:62-91 | layers change nothing iff none has a lower cap, a greater minimum, a new requirement, or a last word on reasons or auto-approval that differs |
| CustomPolicy.Resolve | server/internal/policy/resolver.go:30-73 | project layer, then secret layer; the secret's approvers win when it names any; a missing secret is an error with the defaults |
| PolicyTemplates.MaxVersion | server/internal/policy/repository.go:343-350 | the greatest version number of a template, 0 if it has none |
| PolicyTemplates.NextKeepsInv | server/internal/policy/service.go:84-229 | every statement of every handler, acting on whatever it read earlier, keeps versions gap-free and canonical, bindings resolvable and within their project, and what was read true |
| PolicyTemplates.VersionsAreNumbered | server/internal/policy/repository.go:336-363 | in every run a template's versions are exactly 1 to its latest, and a system template has only version 1 |
| PolicyTemplates.NamesStayApart | server/internal/database/migrations/000026_request_action_tokens.up.sql:25-26 | in every run no two templates of a project have one name, whatever the letter case |
| PolicyTemplates.VersionsAreImmutable | server/internal/policy/repository.go:323-350 | over any run a version reads the same until its template is deleted, and a system template never is |
| PolicyTemplates.PolicyReadsNeverFail | server/internal/policy/repository.go:421-492 | in every reachable state both ways of reading a live secret's policy succeed with the same policy, source and warnings, and a binding is to an existing version of a template of the secret's project |
| PolicyTemplates.OnlyRebindingChangesPolicy | server/internal/policy/repository.go:656-720 | over any run in which a secret is neither rebound nor deleted its policy does not change, whatever happens to templates and other bindings |
| PolicyTemplates.BindingTakesEffect | server/internal/policy/repository.go:501-544 | after a binding is written, requests meet the version the handler saw with the override merged in, and the warnings it computed |
| PolicyTemplates.SubmittedIsStored | server/internal/policy/service.go:84-102 | a submitted template holds what validation makes of its parameters, and nothing else changes; it is refused iff they are invalid or the name is taken or too long |
| PolicyTemplates.SeededIsDefault | server/internal/policy/repository.go:608-654 | a seeded template is a system template with its type's defaults |
| PolicyTemplates.CloneIsAlike | server/internal/policy/service.go:136-153 | a clone has the source's parameters in the source's project and is no system template |
| PolicyTemplates.EditIsStored | server/internal/policy/service.go:115-134 | an edit becomes the next version and leaves all older ones; a system template and invalid parameters are refused |
| PolicyTemplates.DeletionIsDone | server/internal/policy/service.go:155-167 | an undisturbed deletion removes template and versions iff no secret is bound to it |
| PolicyTemplates.BindingIsWritten | server/internal/policy/service.go:196-229 | an undisturbed binding is written whenever secret, template, version and override fit |
| PolicyTemplates.DeletedStaysGone | server/internal/policy/repository.go:421-492 | a deleted secret is not found by either read, whatever runs later |
| PolicyTemplates.PolicyStore.CreateTemplate | server/internal/policy/repository.go:299-334 | both rows or neither; a new template reads back with its parameters, all versions and bindings stay sound, and no secret's policy changes |
| PolicyTemplates.PolicyStore.EnsureSystemTemplate | server/internal/policy/repository.go:608-654 | afterwards the name is held by a system template or was taken by another; versions and bindings stay sound and no secret's policy changes |
| PolicyTemplates.PolicyStore.CreateTemplateVersion | server/internal/policy/repository.go:336-363 | the next number, for an existing template only; it is what the template then reads as, versions and bindings stay sound, and no secret's policy changes |
| PolicyTemplates.PolicyStore.DeleteTemplate | server/internal/policy/repository.go:365-382 | a conflict iff a binding uses it, so deletion leaves every binding resolvable and every secret's policy as it was |
| PolicyTemplates.PolicyStore.UpdateBinding | server/internal/policy/service.go:196-229 | an error changes nothing; success writes the binding, keeps all bindings resolvable, and returns what the next read returns |
| AccessWorkflow.RequestsEvolve | server/internal/workflow/service.go:325-367 | in any step a request goes from pending to a decision or from approved to revoked, and keeps policy and duration |
| AccessWorkflow.CreationGrants | server/internal/workflow/service.go:153-247 | a new request has the duration it asked for within its policy's maximum, and is approved with its session to be issued exactly when its policy allows that |
| AccessWorkflow.SessionRunsOut | server/internal/workflow/credential.go:36-71 | an issued session serves until its duration has passed and no longer |
| AccessWorkflow.ServingLeaves | server/internal/workflow/handler.go:413-459 | serving a reusable credential counts the use and leaves no revocation; serving a single-use one leaves its own |
| AccessWorkflow.TokenWorksOnce | server/internal/notify/action_token.go:33-69 | a new token can be redeemed once, within its time; for another action it is used up and decides nothing |
| AccessWorkflow.RunKeepsTables | server/internal/workflow/handler.go:244-299 | in every run an undone issue belongs to an approved request without session, and no two to one request |
| AccessWorkflow.DecidedAtMostOnce | server/internal/workflow/service.go:325-367 | over all interleavings a request is decided at most once, by a user, and its status shows which way |
| AccessWorkflow.AtMostOneSession | server/internal/workflow/credential.go:36-51 | over all interleavings a request has at most one session, only when approved or since revoked, lasting between one minute and the policy's maximum |
| AccessWorkflow.ConsumedAtMostOnce | server/internal/notify/action_token.go:55-69 | over all interleavings a token is consumed at most once |
| AccessWorkflow.ServedOnlyWhileLive | server/internal/workflow/credential.go:54-94 | every value is served within its session's lifetime and never after the session was revoked |
| AccessWorkflow.UsageIsTimesServed | server/internal/workflow/credential.go:54-71 | in every run a session's usage count is the number of values served for its request |
| AccessWorkflow.ServedTwiceIff | server/internal/workflow/handler.go:413-459 | in every run a value is served twice iff it is served and, with no executed revocation of it in between, fetched again before its session runs out |
| AccessWorkflow.SingleUseServedOnce | server/internal/workflow/handler.go:413-459 | a single-use credential is served at most once in every run in which whoever serves it has revoked before it is next fetched; other handlers, crashes and the clock run as they like |
| AccessWorkflow.OverlapServesTwice | server/internal/workflow/handler.go:413-459 | a run in which a single-use credential is served twice |
| AccessWorkflow.LinksDecideNothing | server/internal/workflow/handler.go:467-514 | redeeming a link burns its token and changes nothing else, whatever its action |
| AccessWorkflow.ChannelsDecideNothing | server/internal/workflow/handler.go:613-650 | in every run in which only links and chat buttons decide, no request is ever decided, and each is pending or was approved when it was created |
| AccessWorkflow.ServedLaterIff | server/internal/workflow/handler.go:243-299 | from any sound state some run serves a request's value iff its session is active and has not run out, or it has none and is about to be issued one, may be decided, or may yet be created |
| AccessWorkflow.CrashedApprovalIsNeverServed | server/internal/workflow/handler.go:269-293 | so a handler that dies between approving and issuing leaves an approved request that no run serves |
| AccessWorkflow.WorkflowStore.Decide | server/internal/workflow/service.go:325-367 | the conditional update leaves what a handler's decision step leaves, keeps the tables' invariant, and returns a row iff it was pending and the decider is a user |
| AccessWorkflow.WorkflowStore.Consume | server/internal/notify/action_token.go:55-69 | the same for a token: the end state is that of the redeeming step, and it is returned iff it is unused and unexpired |
| AccessWorkflow.WorkflowStore.Apply | server/internal/workflow/handler.go:613-650 | an undisturbed decision with its issue is exactly the three steps of one handler, and keeps the tables' invariant |
| AccessWorkflow.WorkflowStore.RedeemActionToken | server/internal/workflow/handler.go:465-514 | requests and sessions never change; a usable token is used up |
| AccessWorkflow.WorkflowStore.RevokeCredential | server/internal/workflow/credential.go:74-94 | an undisturbed revocation is exactly the three steps of one handler, keeps the tables' invariant, and succeeds iff a session was active |
| AccessWorkflow.WorkflowStore.GetCredential | server/internal/workflow/credential.go:53-71 | serving is the fetching step of the machine: iff a session of the request is active and unexpired, counting one use of it and of no other |
| AccessWorkflow.WorkflowStore.Deliver | server/internal/workflow/handler.go:413-459 | serves under the same condition; a single-use credential's session ends and its request is marked, any other's only counts |
| AccessWorkflow.DeliveryIsThreeSteps | server/internal/workflow/handler.go:413-459 | that end state is what the handler's three statements leave when nobody disturbs them |
| RequestQuota.RequestTable.CreateRequest | server/internal/workflow/service.go:141-247 | an undisturbed call leaves what the four statements of its handler leave; the duration granted, the initial status, and that each refusal names a limit that is exceeded |
| RequestQuota.DailyLimitUpToOverlap | server/internal/workflow/service.go:159-247 | in every interleaving with at most k calls between count and insert at a time, no closed 24-hour window ever holds more than the daily maximum and k - 1 requests |
| RequestQuota.CoolDownUpToOverlap | server/internal/workflow/service.go:184-247 | in the same interleavings no closed window as long as the cool-down holds more than k |
| RequestQuota.OverlapReachesBound | server/internal/workflow/service.go:159-247 | for every k and every policy that allows a request, a run of k overlapping calls that reaches the bound: the maximum and k - 1 rows without a cool-down, k rows within one |
| RequestQuota.CoolDownHolds | server/internal/workflow/service.go:184-209 | when no two calls are between count and insert at once, two requests are strictly further apart than the cool-down the later one met |
| RequestQuota.DailyLimitHolds | server/internal/workflow/service.go:159-182 | when no two calls are between count and insert at once, no closed 24-hour window holds more requests than the daily maximum |
| RequestQuota.CoolDownBoundsTheDay | server/internal/workflow/service.go:159-209 | then, with a cool-down of c minutes, no closed 24-hour window holds more than 1440 / c requests, rounded up |
| RequestQuota.WaitingHelps | server/internal/workflow/service.go:159-247 | a day after everything that was, a call that gives its reason goes through |
| ApprovalChain.Chain.CreateApprovalChain | server/internal/workflow/approval-chain.go:26-57 | all steps, pending and in order, or none; a commit that fails may have left all of them |
| ApprovalChain.Chain.AdvanceChain | server/internal/workflow/approval-chain.go:85-145 | the search, the update, the count of pending steps and the commit, whose error a rejection ignores, agree with one call of the specification |
| ApprovalChain.ChainIsDecided | server/internal/workflow/approval-chain.go:59-145 | whatever calls are made, the decided steps are a prefix, each decided as its own approver said |
| ApprovalChain.SuccessesAreDecisions | server/internal/workflow/approval-chain.go:81-145 | at most n steps are ever decided; successful calls are as many, but for rejections whose commit was lost and approvals whose commit took effect and failed |
| ApprovalChain.CommittedSuccesses | server/internal/workflow/approval-chain.go:81-145 | when every commit succeeds, successful calls are as many as decided steps, at most n |
| ApprovalChain.TrueIffLastApproved | server/internal/workflow/approval-chain.go:132-145 | a call returns true iff it approves the last pending step; then all steps are approved iff none was rejected |
| ApprovalChain.RejectionDoesNotStop | server/internal/workflow/approval-chain.go:81-130 | a chain that goes on, and returns true, after a rejection |
| Aes.DecryptsIff | server/pkg/crypto/aes.go:49-67 | a text decrypts to a plaintext iff it is an encryption of it under the nonce it starts with |
| Aes.RoundTrip | server/pkg/crypto/aes.go:23-67 | decryption undoes encryption, and the text is 28 bytes longer |
| Aes.LengthsAreChecked | server/pkg/crypto/aes.go:23-67 | keys that are not 32 bytes and texts under 28 are refused, and no others for their length |
| Vault.StorageKeysDiffer | server/pkg/crypto/storage-key.go:5-8 | two owners and ids without a slash have one storage key only if they are the same |
| Vault.SealEnvelope | server/internal/vault/handler.go:99-122 | value sealed under the key in the buffer, key wrapped, buffer zeroed |
| Vault.OpensTo | server/internal/workflow/handler.go:431-453 | key and blob of one write open to its value |
| Vault.ReadableIffSameWrite | server/internal/vault/service.go:190-223 | however the statements of any number of creations, updates and deletions of any secrets interleave and whichever Puts are lost, a living secret reads as the value last put if its key was last set with the same data key, and is unreadable otherwise |
| Vault.NameIsLastSet | server/internal/vault/service.go:75-213 | after any run of statements a living secret has the name its creation or its owner's last update gave it, and a version that counts them |
| Vault.DeliveryOpensIff | server/internal/workflow/handler.go:424-453 | a delivery that reads the row and later the blob gives the value last put before the second read if the last key before the first is of that write, and nothing otherwise |
| Vault.UpdateBetweenReads | server/internal/workflow/handler.go:424-453 | a delivery with a whole update between its reads fails, though the secret is readable before and after |
| Vault.FailedPutStrands | server/internal/vault/service.go:195-220 | one Put that is lost after the key was replaced leaves the secret unreadable |
| Vault.VaultStore.CreateSecret | server/internal/vault/service.go:75-127 | success adds the row, with owner, name, storage key and version 1, and its value; a failure leaves rows and values as they were, unless the commit took effect and its answer was lost |
| Vault.VaultStore.RenameSecret | server/internal/vault/service.go:187-213 | the owner's live secret has the new name and the next version; its key, owner and storage key, every other row, all values and all blobs stay |
| Vault.VaultStore.UpdateSecret | server/internal/vault/service.go:190-223 | the owner's live secret has the new name and the next version; a stored Put replaces its value, a lost one leaves what the new key makes of the old blob or nothing; every other row and value stays |
| Vault.VaultStore.DeleteSecret | server/internal/vault/service.go:266-278 | the owner's live secret leaves the map; nothing else changes |
| Vault.VaultStore.GetValue | server/internal/workflow/handler.go:425-453 | delivery returns the map's value |
| NotifyRetry.JobStore.ProcessBatch | server/internal/notify/worker.go:57-85 | each fetched job is sent, exhausted when its retries are used up, or due again after 300, 1500, ... seconds; no other job changes |
| NotifyRetry.DelaysGrowFivefold | server/internal/notify/job_store.go:88-100 | a failed first attempt delays the job by 300 seconds, each further one by five times the delay before |
| NotifyRetry.AttemptUsesOne | server/internal/notify/worker.go:64-84 | every attempt lowers a measure, to 0 iff the job is sent or exhausted |
| NotifyRetry.AttemptsAreBounded | server/internal/notify/worker.go:73-84 | a job with m retries is attempted at most max(m, 1) times, and after that many it is finished |
| NotifyRetry.DeliveredAtMostOnce | server/internal/notify/worker.go:64-71 | only the last attempt can have delivered |
| NotifyRetry.BackoffHolds | server/internal/notify/job_store.go:88-100 | the m-th attempt is at least (5^m - 5) / 4 minutes after the job was first due: 300 seconds for the second, 1800 for the third |
| NotifyRetry.PowersOfFive | server/internal/notify/job_store.go:88-90 | the delays in minutes are the powers of five |
| RouteMatch.MatchesWhatItCovers | server/internal/gateway/injector.go:8-21 | a pattern matches iff it is a catch-all, the path itself, or a prefix and `/*` with the path at or below the prefix |
| RouteMatch.FindMatchingRoute | server/internal/gateway/store.go:60-88 | nothing is found iff no enabled route of the agent for the host covers the path in this sense; otherwise one that does, of maximal pattern length; an exact one only for exactly its path |
| RouteMatch.LongestWildcardIsNarrowest | server/internal/gateway/injector.go:8-21 | of two wildcards that match a path, everything the longer matches the shorter matches |
| RouteMatch.ChosenIsMostSpecific | server/internal/gateway/store.go:60-88 | a chosen wildcard route matches no request on its host that another matching wildcard route would not |
| RouteMatch.ExactAlwaysChosenIff | server/internal/gateway/store.go:60-88 | whatever order the query gives to equal lengths, an exact route is chosen iff every wildcard of the table that matches is shorter than the path |
| RouteMatch.WildcardAlwaysChosenIff | server/internal/gateway/store.go:60-88 | a wildcard is chosen over it in every order iff the table has one longer than the path: the path followed by `/*`, or by `*` after a closing slash, or a catch-all for the shortest paths |

## Left out

- HTTP decoding and encoding, routing, cookies, JWT, OAuth, billing, SMTP and the chat adapters: calls into libraries; a delivery attempt is a Boolean.
- SHA-256, AES-GCM, the RFC 3339 text, `netip` and `inet`: parameters, with the assumptions above. The growth of a Go slice's capacity is one choice of many.
- Isolation beyond atomic statements, transactions and row locks: Postgres is not modelled further. Partition bounds of `audit_logs` are one more way for an insert to fail.
- RedisLimiter.RedisLimiter.Allow: the pipeline is one step on one clock; the answer when Redis itself fails (allowed) is not modelled.
- PolicyParameters.ValidationIsIdempotent: for integers a float64 holds exactly, which every value within bounds is.
- PolicyTemplates.PolicyStore.UpdateBinding: project roles are one Boolean, and deletion of users and projects, with what cascades from it, is not modelled. The column `policy_templates.parameters`, which no query reads, is not modelled.
- AccessWorkflow.WorkflowStore.Deliver: the value itself is in `Vault`; a secret deleted before delivery, which gives an empty value and no automatic revocation, is not modelled. The listing of active credentials, which returns values without counting a use, is not modelled.
- AccessWorkflow.AtMostOneSession: the server's clock and the database's are one clock.
- Vault.VaultStore.UpdateSecret: secrets encrypted by the client (`encrypted_blob`) are not modelled; the call without a new value is `RenameSecret`.
- RequestQuota.RequestTable.CreateRequest: the rows of one requester for one secret, since the queries never mix others in; the request's own columns are in `AccessWorkflow` and `RequestSnapshots`.
- NotifyRetry.JobStore.ProcessBatch: one worker whose status writes succeed; the query's limit and order only choose the batch, and the hourly clean-up removes sent jobs only. The rounding of 5^n through a float64 is exact up to n = 22.
- Regular-expression scanner, role table, plan limits, pagination, configuration, dynamic database roles and the proxy's sockets: lookups, text patterns and library calls without state of their own.

# A verified model of MetaModels' protocols

MetaModels is a governance proxy for local AI servers: a data plane that authenticates, limits and
meters callers, a control plane where an organization's operators manage keys, members and paddocks,
an OpenID provider, and a command-line client. Around its HTTP and SQL plumbing sit a few small
protocols and algorithms, and these are what the project models and proves:

- **`CredentialsLock`, `TokenRotation`** - the CLI's lock file, as a state machine over its system
  calls, and the refresh, login and logout that run under it against a rotating authorization server
  (section 6 of RFC 6749).
- **`Workflow`, `TemplateBuilder`, `McpTools`** - the ComfyUI template compiler, the dry run that
  certifies a template, and the projection of templates to MCP tools and back.
- **`Sealed`, `Reseal`** - the envelope format of sealed credentials, the keyring, and key rotation
  over the flock table.
- **`OauthKeys`** - minting, rebinding and revoking OAuth keys, roles, grants and token issue.
- **`OrgSeats`** - the last admin and the seat limit of an organization.
- **`Calendar`, `Metering`, `UsageReports`, `UsageRange`** - UTC hour buckets (section 21.4.1 of
  ECMA-262), the incremental rollup, the quota reader and the console's reports and their ranges,
  against the plain event log.
- **`RateLimiter`, `LoginThrottle`, `ConfigCache`, `ConsentReplay`, `Jobs`** - structures over time:
  two rate limiters, the sign-in throttle, the config cache, the consent replay guard, and metering a
  job once.
- `Prelude`, `Text` and `Spans` hold what several of these share.

A protocol is a datatype of actions, a predicate that says when an action may happen, a function that
says what it does, and runs that are sequences of actions; a theorem holds of every state that any run
reaches. Several of the properties the code aims at depend on something the code does not enforce.
These are stated as an if-and-only-if, over what the environment or the code does or over the step of
a run that breaks the property, with a concrete run for the failing half:

- the lock excludes just when no holder overruns `staleMs` and, if processes may crash, the takeover's
  re-check and unlink are one step and no (inode, mtime) pair comes back
  (`CredentialsLock.ExclusiveExactly`; the code's takeover is two system calls, as its comment says);
- no spent refresh token is presented again and no write of the store is lost just when that lock
  excludes, every 200 is well formed, no answer that spends a token is lost, and no process crashes or
  fails to write while it is about to replace a stored token that is spent
  (`TokenRotation.RotationExactly`, for every configuration of the lock; any other crash the lock allows
  and any other failed write do no harm);
- no viewer or deactivated user has an active OAuth key just when the mint reads its actor in its own
  transaction (`OauthKeys.StandingExactly`; the code reads the actor before it);
- a run, whatever overlaps in it, keeps the seat limit just when no acceptance in it inserts its user
  after the invite has lapsed or been revoked and while every seat is used (`OrgSeats.SeatsExactly`; the
  code looks at the expiry before it hashes the password, at the invite in its transaction, and at
  neither when it inserts). Calls that do not overlap always keep it (`OrgSeats.SerialCallsKeepLimit`);
- no quarter of an hour holds more than nine failed sign-ins from one address just when its attempts do
  not overlap; with up to `k` at a time the exact maximum is `2 * (5 + k - 1) - 1`
  (`LoginThrottle.NineExactly`, `LoginThrottle.FailuresExactly`);
- after an invalidation the cache serves only newer values just when no lookup that has already read is
  still in flight (`ConfigCache.InvalidationExactly`);
- a consent assertion is honoured once just when no request takes more than 60 s from its expiry check
  to its claim (`ConsentReplay.HonouredOnceExactly`);
- a job is metered once just when its id does not come back, from another paddock, after its row went
  with its own (`Jobs.MeteredExactly`);
- the two rate limiters agree on every call just when the limit is at least one
  (`RateLimiter.LimitersAgreeExactly`: for the supported `max: 0` both deny, but the in-memory one then
  computes its `retryAfterSec` from an undefined hit);
- a day or month quota window counts exactly its own period just when the year prints in three or four
  characters (`Calendar.PrefixExactly`, `Metering.ReaderExactly`);
- the usage matrix between any two buckets agrees with every log, and the daily series has points for
  the days between them only, just when the second is not in a later year than the first
  (`UsageRange.MatrixExactly`, `UsageRange.SeriesExactly`: across a new year, buckets of years that print
  longer sort between the ends). What the series says of a day is right for every log.

Cryptography is a record of abstract functions with two laws, opening inverts sealing and other
additional data is refused; `Sealed.LawsCanHold` shows that the laws do not contradict each other.
A system call, the Redis script, a SQL statement, and a database transaction where nothing can come
between its statements are each one step. Clock readings, random draws, the authorization server's answers and the order of a GROUP BY are
parameters or arbitrary choices of an action.

`dafny verify dfyconfig.toml` checks the project (Dafny 4.11). Every lemma turns automatic induction
off, so each induction is the one its body writes out.

## Model

| member | source | states |
|---|---|---|
| CredentialsLock.ExclusiveExactly | apps/cli/src/credentials.ts:218-272 | two processes are never in the critical section, in any reachable state, if and only if no holder overruns and crashes are ruled out or met by an atomic takeover with unrepeated identities |
| CredentialsLock.InvRun | apps/cli/src/credentials.ts:218-272 | along every run in a safe configuration the file at the path belongs to its holder or to a crashed process, and no standing verdict of staleness fits a live holder's file |
| CredentialsLock.TakeoverSparesTheLiving | apps/cli/src/credentials.ts:253-257 | in a safe configuration the step that removes a stale lock never removes the file of a process that still holds it |
| CredentialsLock.OverrunBreaks | apps/cli/src/credentials.ts:253-258 | a run in which a holder outlives `staleMs` and two processes are inside |
| CredentialsLock.TwoStepTakeoverBreaks | apps/cli/src/credentials.ts:255-256 | a run in which a lock created between the re-check and the unlink is removed and two processes are inside |
| CredentialsLock.RepeatedIdentityBreaks | apps/cli/src/credentials.ts:197-199 | a run in which a new lock carries the old one's inode and mtime and two processes are inside |
| TokenRotation.RotationExactly | apps/cli/src/session.ts:43-58 | no token answered 200 or 4xx is presented again and the store is the replay of every write, in every reachable state, if and only if the lock excludes, 200 answers are well formed, answers that spend arrive, and no process crashes or fails to write while it owes the store a replacement |
| TokenRotation.SharedLockBreaks | apps/cli/src/session.ts:43-58 | whenever the lock does not exclude, a run in which the second process inside presents the token the first has spent |
| TokenRotation.InvRun | apps/cli/src/credentials.ts:134-146 | along every such run the store and the jobs in progress hold only live tokens, and nothing another issuer wrote is lost |
| TokenRotation.InvRename | apps/cli/src/credentials.ts:109-126 | renaming a store built from a snapshot keeps every write made since, because only one process is between snapshot and rename |
| TokenRotation.InvWriteFails | apps/cli/src/credentials.ts:109-126 | a write that fails, owing nothing, keeps the same: the store stays as it was and no token in it is spent |
| TokenRotation.ReceiveMends | apps/cli/src/device.ts:251-267 | whichever way a refresh is answered, a spent token stays stored only while a writer is at work that will replace it |
| TokenRotation.MalformedAnswerBreaks | apps/cli/src/device.ts:137-159 | a run in which a 200 without usable tokens leaves the spent token stored and it is presented again |
| TokenRotation.LostAnswerBreaks | apps/cli/src/device.ts:262-266 | a run in which a 200 does not arrive, the token is kept as after any lost connection, and it is presented again |
| TokenRotation.WriteErrorBreaks | apps/cli/src/session.ts:49-56 | a run in which the write after a 200 throws, which deletes nothing, and the spent token is presented again |
| TokenRotation.CrashOwingBreaks | apps/cli/src/session.ts:49-52 | a run in which a crash between the 200 and the write has the next process present the spent token |
| Workflow.GraphFrame | packages/connectors/src/comfyui/template.ts:59-117 | a successful run keeps every node and class type, holds at each target the value of the last spec that wrote it, and leaves every other input as the template has it |
| Workflow.ReconstructSucceedsExactly | packages/connectors/src/comfyui/template.ts:28-118 | the call succeeds if and only if every key is declared, every supplied value has its spec's type and range (an upload for an image) and every written target's node exists |
| Workflow.ReconstructGraph | packages/connectors/src/comfyui/template.ts:28-118 | the in-place loop over the clone ends as the specification says, for success and for each reason of refusal, returns only fresh nodes and leaves the stored template unchanged |
| Workflow.ApplyOne | packages/connectors/src/comfyui/template.ts:59-115 | one iteration writes exactly what its spec says into the clone or gives the specification's reason |
| Workflow.ApplyEach | packages/connectors/src/comfyui/template.ts:59-115 | the loop over the clone ends as the specification's fold does, at the first refusal or after the last spec |
| Workflow.CloneGraph | packages/connectors/src/comfyui/template.ts:34-34 | the clone has the same content, all of it fresh and none of it shared |
| Workflow.SpecNames | packages/connectors/src/comfyui/template.ts:36-37 | the map holds exactly the declared names |
| TemplateBuilder.DryRunExactly | apps/control-plane/src/lib/template-builder.ts:29-47 | on a template with unique names the dry run succeeds if and only if every target's node exists and every number's sample lies in its own range |
| TemplateBuilder.DryRunCertifies | apps/control-plane/src/lib/template-builder.ts:50-58 | once a draft is accepted, every later call with declared keys and well-typed values succeeds on the stored template |
| TemplateBuilder.NeverMissing | apps/control-plane/src/lib/template-builder.ts:28-36 | when every target exists, no call whatever fails on a missing node |
| TemplateBuilder.ValidateDraftExactly | apps/control-plane/src/lib/template-builder.ts:50-58 | a draft is accepted if and only if its shape is valid, no name repeats and the dry run succeeds |
| TemplateBuilder.BuiltNamesUnique | apps/control-plane/src/lib/template-builder.ts:12-26 | a template that builds has pairwise distinct parameter names |
| McpTools.ComfyToolNames | packages/connectors/src/comfyui/mcp.ts:21-36 | the loop with its suffix search terminates and fills the map as the specification says |
| McpTools.FirstFree | packages/connectors/src/comfyui/mcp.ts:29-32 | the search finds the least suffix whose name is not taken, within one more try than there are names |
| McpTools.CandidateInjective | packages/connectors/src/comfyui/mcp.ts:30-31 | different suffixes give different names however the base is cut |
| McpTools.ToolNamesGood | packages/connectors/src/comfyui/mcp.ts:15-36 | the names are valid `run_` names, no two alike, one for each distinct template id |
| McpTools.NamesAreStable | packages/connectors/src/comfyui/mcp.ts:21-36 | adding templates at the end renames no earlier tool |
| McpTools.ToolDefProblems | packages/connectors/src/mcp.ts:45-70 | the loop pushes exactly the specification's problems in order |
| McpTools.NoProblemsExactly | packages/connectors/src/mcp.ts:45-70 | there is no problem if and only if every definition is valid and the list is strictly sorted by name |
| McpTools.AdvertisedListIsValid | packages/connectors/src/comfyui/mcp.ts:94-100 | for every fence the advertised list has no problem |
| McpTools.OnlyAdvertisedNamesRun | packages/connectors/src/comfyui/mcp.ts:117-131 | a call is planned only for a name that is advertised; any other name is an unknown tool |
| McpTools.CallPlansWhatWasAdvertised | packages/connectors/src/comfyui/mcp.ts:117-131 | calling an advertised tool plans the submit of the very template whose properties it advertised |
| McpTools.EveryTemplateHasOneTool | packages/connectors/src/comfyui/mcp.ts:94-131 | every distinct template id is reached by exactly one advertised tool |
| McpTools.SchemaMatchesTheRun | packages/connectors/src/comfyui/mcp.ts:53-70 | a call that uses only advertised properties is never refused for an unknown parameter |
| Calendar.BucketsInOrder | packages/schema/src/period.ts:4-11 | in years 1000 to 9999 string order on buckets is time order on UTC hours, and equal strings mean one hour |
| Calendar.FourDigitYears | packages/schema/src/period.ts:5-6 | the instants between two given times are exactly those of years 1000 to 9999 |
| Calendar.MakeDayOfDate | packages/schema/src/period.ts:5-10 | every day number splits into a real date that counts back to it |
| Calendar.DateOfMakeDay | packages/schema/src/period.ts:5-10 | every real date is the date of its own day number |
| Calendar.IsBucketExactly | apps/control-plane/src/lib/usage-range.ts:34-38 | the recogniser accepts exactly the strings that buckets of years 1000 to 9999 can be |
| Calendar.PrefixExactly | packages/schema/src/period.ts:14-19 | an hour prefix selects its own hour in every year; a day or month prefix selects its own period if and only if the year prints in three or four characters, of all years a Date can hold |
| Metering.RollupTable.ApplyEvents | apps/worker/src/aggregator.ts:22-42 | the loop of upserts leaves the table of the specification |
| Metering.RollupRefinesLog | apps/worker/src/aggregator.ts:22-42 | after any batches, any sum over the rollup's columns is the sum over the events that fall under them |
| Metering.ReaderExactly | apps/data-plane/src/meter/usage-reader.ts:15-29 | the quota reader equals the log for all batches, keys, paddocks and dimensions if and only if the window is an hour or the year prints in three or four characters |
| Metering.UsageIsTheLog | apps/data-plane/src/meter/usage-reader.ts:15-29 | after any batches, the reader's answer for an hour, or for a day or month of a year of three or four characters, is the sum over the log of the events of that key, paddock and dimension in the same UTC hour, day or month |
| Metering.OtherYearsMiscount | apps/data-plane/src/meter/usage-reader.ts:15-29 | in any other year a Date can hold, one event is enough for the reader and the log to differ |
| UsageReports.Pivot | apps/control-plane/src/server/usage-service.ts:54-66 | the loop over the groups builds the matrix of the specification |
| UsageReports.MatrixIsTheTable | apps/control-plane/src/server/usage-service.ts:24-70 | whatever the order of the groups, pairs are listed once, exactly when a selected row has them, and every entry is the sum over its selected rows, zero when there are none |
| UsageReports.ReportsAgree | apps/control-plane/src/server/usage-service.ts:72-93 | for one query the daily series and the matrix add up to the same total in every dimension |
| UsageRange.ResolveRange | apps/control-plane/src/lib/usage-range.ts:45-54 | the loop lists the days ending today and the range starts at the first one's midnight bucket |
| UsageRange.RangeSelects | apps/control-plane/src/lib/usage-range.ts:45-54 | a bucket lies between a range's ends if and only if its hour lies between the first day's midnight and now |
| UsageRange.RangeDays | apps/control-plane/src/lib/usage-range.ts:45-54 | every selected hour falls on a listed day |
| UsageRange.QueryAsks | apps/control-plane/src/server/usage-query.ts:20-38 | every query that is let through has the buckets of some two instants as its ends |
| UsageRange.MatrixIsTheLog | apps/control-plane/src/server/usage-service.ts:24-70 | after any batches, each entry between ends that do not cross a new year, or over a log of years 1000 to 9999, is the sum over the event log |
| UsageRange.MatrixExactly | apps/control-plane/src/server/usage-service.ts:24-70 | the matrix between two ends agrees with every log if and only if the second is not in a later year than the first |
| UsageRange.SeriesIsTheLog | apps/control-plane/src/server/usage-service.ts:72-93 | after any batches, whatever they hold, what the series says of a UTC day is the sum over the log's events of that day between the ends |
| UsageRange.SeriesExactly | apps/control-plane/src/server/usage-service.ts:72-93 | every series between two ends has points for days between them only, for every log, if and only if the second is not in a later year than the first |
| UsageRange.SeriesDays | apps/control-plane/src/server/usage-service.ts:72-93 | the series of a resolved range has points for its listed days only |
| Sealed.ParseExactly | packages/schema/src/sealed.ts:28-28 | the parser accepts exactly what the printer writes for well-formed parts, and returns those parts |
| Sealed.AadInjective | packages/schema/src/sealed.ts:47-50 | additional data is equal if and only if both ids are equal but for case |
| Sealed.LoadSealKeyring | packages/schema/src/sealed.ts:72-88 | the loop loads exactly when gathering the keys one by one succeeds, and reports the first failure otherwise |
| Sealed.GatherExactly | packages/schema/src/sealed.ts:81-86 | gathering succeeds if and only if every key is well spelled and no two have one id, and then the map holds those keys and no others |
| Sealed.LoadedIsValid | packages/schema/src/sealed.ts:72-88 | a loaded keyring holds its current key and one entry for each key given |
| Sealed.SealOpens | packages/schema/src/sealed.ts:94-128 | a sealed value opens under any ring that holds the sealing key, and needs no reseal |
| Sealed.MovedEnvelopeRefused | packages/schema/src/sealed.ts:105-122 | an envelope opens for the row it was sealed for and is refused as tampered for any other |
| Sealed.LawsCanHold | packages/schema/src/sealed.ts:94-122 | some cipher meets both assumed laws |
| Reseal.FlockTable.ResealUpstreamAuth | packages/schema/src/reseal.ts:40-102 | the pass rewrites exactly the legacy rows and the readable rows under a previous key, leaves every other row as it is, and reports as the specification does |
| Reseal.MeaningKept | packages/schema/src/reseal.ts:52-84 | no row changes its meaning; every readable row ends up sealed under the current key alone; a reported row is untouched |
| Reseal.ReportListsUnreadable | packages/schema/src/reseal.ts:45-83 | the report lists exactly the rows that do not open, each with its own reason |
| Reseal.ReportCounts | packages/schema/src/reseal.ts:45-83 | sealed, resealed, unreadable and already current add up to the rows that hold a value |
| Reseal.SecondPass | packages/schema/src/reseal.ts:29-39 | a second pass changes nothing, whatever it draws, and reports the same rows |
| Reseal.PreviousKeysMayGo | packages/schema/src/reseal.ts:29-39 | after a pass every row that opened before opens to the same text under the current key alone, and no other row does |
| Reseal.DroppingTooSoon | packages/schema/src/sealed.ts:30-36 | without a pass the previous keys can go if and only if a pass would reseal no row |
| OauthKeys.OneKeyPerApproval | apps/control-plane/src/server/keys-service.ts:196-244 | in every reachable state a user, a client and a paddock have at most one active oauth key |
| OauthKeys.IssueIsSound | apps/auth/src/resources.ts:101-112 | a token's key is the only row the grant lookup matches, and was approved by the grant's own user for its own client |
| OauthKeys.RevokedForGood | apps/control-plane/src/server/keys-service.ts:138-159 | no run makes a revoked key active again or changes its grant |
| OauthKeys.SilentUntilReminted | apps/auth/src/paddocks.ts:31-40 | a grant without a key for a paddock gets no token for it in any run that does not mint one onto the grant again |
| OauthKeys.RevokeSilences | apps/control-plane/src/server/keys-service.ts:216-222 | revoking the grant's key, or rebinding it to another grant, leaves the grant without one |
| OauthKeys.NoScopeBeforeItsKey | apps/auth/src/interactions.ts:330-348 | in every reachable state each resource scope on a saved grant had a key minted for it on that grant |
| OauthKeys.StandingStep | apps/control-plane/src/server/users-service.ts:58-111 | a step keeps the rule that key owners are active and may approve, except exactly a mint for an actor who has lost that since it was loaded |
| OauthKeys.StandingExactly | apps/control-plane/src/server/internal-route.ts:81-85 | no viewer or deactivated user ever has an active oauth key if and only if the mint reads its actor in its own transaction |
| OrgSeats.AlwaysAnAdmin | apps/control-plane/src/server/users-service.ts:58-111 | an organization with an active admin has one after every interleaving of calls |
| OrgSeats.DemotionRefusedExactly | apps/control-plane/src/server/users-service.ts:65-67 | a demotion is refused as the last admin's if and only if it would leave none |
| OrgSeats.DeactivationRefusedExactly | apps/control-plane/src/server/users-service.ts:95-97 | a deactivation is refused as the last admin's if and only if it would leave none |
| OrgSeats.SeatsExactly | apps/control-plane/src/server/invites-service.ts:48-154 | every run from within the limit keeps active users and pending invites within it throughout if and only if no acceptance in it inserts its user with the invite no longer pending and every seat used |
| OrgSeats.LimitStep | apps/control-plane/src/server/invites-service.ts:56-60 | of the steps of overlapping calls from within the limit, exactly such an insert exceeds it |
| OrgSeats.CommitCosts | apps/control-plane/src/server/invites-service.ts:131-140 | an acceptance takes no seat while its invite is pending and exactly one once it has lapsed or been revoked |
| OrgSeats.LateAcceptBreaks | apps/control-plane/src/server/invites-service.ts:124-140 | a run from within a limit in which an invite lapses after the second look at it, its seat goes to another, and its user is inserted |
| OrgSeats.RevokedAcceptBreaks | apps/control-plane/src/server/invites-service.ts:94-140 | such a run at one instant, in which the invite is revoked instead |
| OrgSeats.SerialCallsKeepLimit | apps/control-plane/src/server/invites-service.ts:48-154 | calls that do not overlap keep the limit as the code is |
| Jobs.MeteredExactly | apps/data-plane/src/pipeline.ts:197-230 | in every interleaving a job is metered at most once, for its first submitter and with the result it finished with, if and only if no id returns after the deletion of its paddock |
| Jobs.FirstMarkWins | apps/data-plane/src/jobs/postgres-job-store.ts:56-63 | a mark wins if and only if the job was not claimed before, and claims it |
| Jobs.ReuseBreaks | apps/data-plane/src/jobs/postgres-job-store.ts:19-38 | a run in which an id submitted again from another paddock, after its own was deleted, is metered twice |
| ConfigCache.CachingConfigStore.Cached | apps/data-plane/src/config/caching-config-store.ts:28-30 | a lookup hits exactly the fresh entry of its own map |
| ConfigCache.CachingConfigStore.Store | apps/data-plane/src/config/caching-config-store.ts:37-43 | filling changes only the query's map, as the bounded insertion says |
| ConfigCache.CachingConfigStore.InvalidateAll | apps/data-plane/src/config/caching-config-store.ts:70-75 | all three maps are emptied |
| ConfigCache.SetBoundedExactly | apps/data-plane/src/config/caching-config-store.ts:37-43 | an insertion stores its entry and loses at most the oldest other one, and only when the map is full |
| ConfigCache.ServedValueIsRecent | apps/data-plane/src/config/caching-config-store.ts:45-67 | every served value is the inner store's at an instant no older than the TTL and the fetching lookup's time in flight, and with the caller's expiry check it is what those rows answer now |
| ConfigCache.SizeIsBounded | apps/data-plane/src/config/caching-config-store.ts:37-43 | no map exceeds `maxEntries`, or one |
| ConfigCache.InvalidationExactly | apps/data-plane/src/config/caching-config-store.ts:70-75 | after an invalidation nothing read before it is cached or served if and only if no invalidation overtakes a lookup that has read |
| RateLimiter.InMemoryRateLimiter.Check | apps/data-plane/src/ratelimit/rate-limiter.ts:20-36 | the method answers and leaves its bucket as the specification says, and touches no other bucket |
| RateLimiter.AdmittedExactly | apps/data-plane/src/ratelimit/rate-limiter.ts:20-30 | a call is let through if and only if fewer than `max` admissions of the whole history lie in the window that ends with it |
| RateLimiter.WindowBound | apps/data-plane/src/ratelimit/rate-limiter.ts:20-30 | any half-open span of one window holds at most `max` admissions |
| RateLimiter.RetryAfterIsExact | apps/data-plane/src/ratelimit/rate-limiter.ts:32-35 | left alone, the bucket lets a call through after a whole number of seconds if and only if it is at least the one answered |
| RateLimiter.LimitersAgreeExactly | apps/data-plane/src/ratelimit/redis-rate-limiter.ts:10-27 | the script, whenever its key expires, answers as the in-memory log on every call if and only if the limit is at least one |
| LoginThrottle.Throttle.Record | apps/auth/src/login-throttle.ts:15-22 | a failure starts or joins the address's bucket and touches no other address |
| LoginThrottle.FailuresExactly | apps/auth/src/login-throttle.ts:9-22 | no half-open 15 minutes hold more than `n` recorded failures, in every interleaving with at most `k` attempts in flight, if and only if `k` is zero or `n` is at least `2 * (5 + k - 1) - 1` |
| LoginThrottle.NineExactly | apps/auth/src/interactions.ts:410-418 | at most nine failures in every window of every run if and only if attempts do not overlap |
| LoginThrottle.FailuresBound | apps/auth/src/login-throttle.ts:9-22 | the bound holds for any window of any reachable state |
| LoginThrottle.BoundIsReached | apps/auth/src/interactions.ts:410-418 | a run with `k` attempts in flight that reaches the bound |
| LoginThrottle.FullUntilReset | apps/auth/src/login-throttle.ts:9-13 | whatever runs from a full bucket, before its reset time no attempt gets past the check, and the bucket allows one from that time on |
| ConsentReplay.MemoryReplayGuard.ClaimOnce | apps/control-plane/src/server/replay-guard.ts:24-30 | the sweep drops exactly the expired entries, and a claim succeeds if and only if its `jti` is not still remembered |
| ConsentReplay.HonouredOnceExactly | apps/control-plane/src/server/internal-route.ts:36-90 | in every run the same assertion reaches the handler at most once if and only if no request takes more than 60 s from expiry check to claim |
| ConsentReplay.SlowClaimBreaks | apps/control-plane/src/server/replay-guard.ts:24-30 | a run in which a slower claim is honoured a second time |

## Left out

- HTTP routing, handlers, React components and views, `openapi.ts`, zod schemas other than the draft's, config loaders, the role matrix beyond the two capabilities used: one reading of a branch settles them.
- The internals of `oidc-provider` and `jose`: the authorization server is arbitrary answers, and a verifier that refuses expired assertions.
- AES-GCM, HKDF and SHA-256: abstract functions with laws. UTF-8 round trips are part of the law, so a plaintext is taken to be well-formed Unicode.
- A lock whose live holder fails to write it, to fstat it or to unlink it when it leaves: the file stays behind as a crashed holder's does, and `crashes` stands for this too.
- Symbolic links, file permissions, power loss, NFS and PID namespaces in `credentials.ts`: `holderExited` is taken never to be wrong about a live holder, and the exclusive create, `lstat`, `unlink` and `rename` are taken to be atomic.
- The revocation requests of login and logout: they do not change what is stored.
- Refusal texts: reasons are constructors without the parameter's name; tool titles and the numerals in descriptions are omitted.
- JavaScript prototype keys such as `__proto__`: objects are maps.
- `inputs` that is not an object in a stored graph: the constraint schema refuses such a template.
- McpTools.AdvertisedListIsValid: fences longer than an ECMA-262 array can be (2^32 - 1 templates) are excluded, since the suffix could then outgrow the name.
- Database column widths and collations: rollup values are unbounded integers and periods compare by code unit, as the `C` collation does.
- UsageReports.ReportsAgree: the inner joins of the matrix are taken to drop no row, which the foreign keys of `usage_rollup` guarantee; the final sort by display names is not modelled.
- Worker redelivery: `applyEvents` is modelled, its consumer is not.
- The split, trim and filter of `UPSTREAM_AUTH_PREVIOUS_KEYS`: the keyring loader starts from the list.
- `VACUUM FULL` after a reseal: it rewrites pages, not rows.
- The guards of role and status changes (capability, last admin, own account) in `OauthKeys`: they only refuse, and are modelled in `OrgSeats`. So are credential-level grants, audit rows and key names.
- OauthKeys.NoScopeBeforeItsKey: the automatic consent of first-party clients is not modelled; those clients cannot name an MCP resource.
- OauthKeys.IssueIsSound: that an existing grant handed to a consent belongs to the consenting user and client is the provider's own rule and is assumed.
- Invite roles outside the known three, password rules and password hashing in `acceptInvite`; a changing seat limit.
- The insert, the marking of the invite and the commit in `acceptInvite`'s transaction are one step: from the insert on, the transaction keeps out every call that takes the org lock.
- ConfigCache.ServedValueIsRecent: an inner lookup reads at one instant; a key's row and its paddock links are two statements in the code.
- RateLimiter.LimitersAgreeExactly: callers and Redis share one nondecreasing clock, a bucket keeps one limit, and each Redis member id is new.
- LoginThrottle.FailuresExactly: the clock does not run backwards between attempts.
- ConsentReplay.HonouredOnceExactly: the Redis guard keeps an entry at least as long as the memory guard does and is covered by the latter; a guard that fails refuses the request.
- `topKeys` and `sumDimSince`: each is one sum over the same table.

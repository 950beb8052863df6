# Verified model of the user-routing plugin

This project models the parts of the user-routing plugin (`internal/userrouting`) in
which several operations share state, and proves what they keep and promise. The whole
project is given to the verifier with `dafny verify dfyconfig.toml`.

**The quota read cache.** `CacheKey` is the cache key and its fingerprint, `CacheCore`
the locked sections of `get` and `invalidate` as functions on the cache state, and
`QuotaCache` the mutable cache whose methods implement them. `CacheSystem` interleaves any
number of gets, invalidations, consume answers and clock ticks in small steps; a Codex
resource get that loads calls `FetchQuota`, so it has a child get on the native kind. Steps
are numbered, which dates lookups, upstream reads and invalidations. Over all runs,
`CacheInvariant` gives the shape of every state, `CacheEffects` exactly what each step does
to entries and bindings, `CacheLoads` whose loads are returned and stored, `CacheOrigin`
where entries come from,
`CacheFreshness` what a get can return after an invalidation or a reset, `CacheStaleness`
and `CacheStaleReads` exactly when older quota can still be served, `CacheAge` how old it
can be, `CacheCoalescing` how many loads run at once, and `CacheProgress` that nobody is
stuck. `CacheWitness` builds runs that show where documented promises stop.

**Resets and the quota resources.** `ResetCredits` reads and accounts for reset credits,
`ResetProtocol` is one credential's read, select, invalidate and consume sequence with the
trace of its effects, `ResetFreshness` that its invalidation is aimed at its own
credential, `ResetHandler` the run over all listed credentials and its report.
`PrefixSelection` is the query loop over candidate prefixes and the report it builds, and
`NominalReport` joins the two with the configured table.

**Fallback.** `FallbackTargets` normalises the fallback configuration and lists the models
to try; `FallbackExecution` tries them, one-shot or streaming, against a host whose
behaviour is an arbitrary script.

**Prefixes, aliases, hiding.** `Prefixes` is the prefix algebra, `PrefixOrder` the order in
which prefixes are tried, `ModelCatalog` the shared catalogue snapshot, `ModelAliases` the
configuration, prefix stripping and `Resolve`, `ModelRegistration` the runtime that
publishes aliases, `ModelListing` the filter for model lists, and `ModelHiding` how
registration and hiding fit together.

**The configuration reader.** `ConfigReader` is the stamp-validated reader, as a class and
as a small-step system in which the file changes at any point.

`Text` holds the string operations of Go's `strings` package that the rest relies on.

Clocks, upstream and host answers, file contents, map iteration order and scheduling are
parameters, scripts or free choices throughout, so every statement is for all of them.

## Model

| member | source | states |
|---|---|---|
| CacheKey.PreimageInjective | internal/userrouting/quota_cache.go:32-42 | the hashed bytes of two credentials agree exactly when raw contents and extra do, for lengths below 2^64 |
| CacheKey.LittleEndianRoundTrip | internal/userrouting/quota_cache.go:34-39 | an 8-byte length prefix reads back as the length exactly when the length fits |
| CacheKey.HashedKeysAgree | internal/userrouting/quota_cache.go:32-49 | with a collision-free hash, stored keys are equal exactly when kind, provider without regard to case and padding, trimmed auth index, contents and extra all are |
| CacheKey.MatchesExactly | internal/userrouting/quota_cache.go:158-165 | an invalidation of a provider and auth index meets a key exactly when the providers agree without regard to case and padding, and the trimmed indexes do or the one named is blank |
| CacheCore.LookupConsistent | internal/userrouting/quota_cache.go:98-120 | a lookup keeps the cache invariant: no key both cached and in flight, at most 256 entries, bound flights open and distinct |
| CacheCore.FinishConsistent | internal/userrouting/quota_cache.go:123-151 | finishing a load keeps that invariant, whichever minimal entry map order picks for eviction |
| CacheCore.InvalidateConsistent | internal/userrouting/quota_cache.go:158-173 | so does an invalidation |
| CacheCore.FinishFrame | internal/userrouting/quota_cache.go:123-151 | a finish closes its own flight and unbinds at most that one; entries stay as they are unless that flight was still bound and the load storable, and then at most the loaded value is added under its own key |
| CacheCore.StoreContents | internal/userrouting/quota_cache.go:131-147 | a store leaves exactly the unexpired entries, minus one of minimal expiry when they fill the cache, plus the new one; with the resulting size |
| CacheCore.VictimExists | internal/userrouting/quota_cache.go:137-146 | a full cache always has an entry of minimal expiry to evict |
| CacheCore.InvalidateExact | internal/userrouting/quota_cache.go:158-173 | an invalidation drops exactly the matching entries and bindings, is idempotent, and with a blank auth index absorbs one for any single credential |
| QuotaCache.QuotaReadCache.BeginGet | internal/userrouting/quota_cache.go:98-120 | the first locked section on the mutable maps and flight objects is the lookup step of the model |
| QuotaCache.QuotaReadCache.FinishGet | internal/userrouting/quota_cache.go:123-151 | the second locked section is the finish step, with a legal victim; without a bound flight, or with a load that failed or may not be cached, no entry changes |
| QuotaCache.QuotaReadCache.Settle | internal/userrouting/quota_cache.go:125-149 | unbinds only the flight that is still bound and stores only what a sound load returned |
| QuotaCache.QuotaReadCache.SweepExpired | internal/userrouting/quota_cache.go:131-136 | the sweep loop leaves exactly the unexpired entries |
| QuotaCache.QuotaReadCache.EvictIfFull | internal/userrouting/quota_cache.go:137-146 | the search loop evicts an entry of minimal expiry exactly when 256 are left |
| QuotaCache.QuotaReadCache.Invalidate | internal/userrouting/quota_cache.go:158-173 | the two deletion loops are the invalidation step of the model: exactly the entries and bindings of the named credential go, or of the whole provider when no auth index is named |
| QuotaCache.QuotaReadCache.MarkDone | internal/userrouting/quota_cache.go:150-150 | closing marks this flight done and no other |
| CacheInvariant.CacheStaysConsistent | internal/userrouting/quota_cache.go:89-173 | the cache invariant and the shape of tasks and flights hold in every reachable state of every interleaving |
| CacheInvariant.StepKeepsWellFormed | internal/userrouting/quota_cache.go:89-173 | every step keeps them, moves at most one task, and only adds to history |
| CacheInvariant.ClosedOnceByLeader | internal/userrouting/quota_cache.go:118-151 | a flight is closed once, by its own leader, detached or not, and its outcome never changes afterwards |
| CacheEffects.BeginExactly | internal/userrouting/quota_cache.go:89-120 | in every state a get bypasses the cache exactly when caching is off, its auth index is blank or its query provider is none of the three; else it returns an unexpired entry, joins the bound flight, or leads a new one, having dropped at most its own expired entry |
| CacheEffects.EntriesChangeExactly | internal/userrouting/quota_cache.go:98-173 | over every step: an entry appears exactly when a bound flight finishes with a storable load, and goes exactly when a get finds it expired, a store sweeps it or evicts it, or an invalidation names its credential; all others stay as they are |
| CacheEffects.VictimIsOldest | internal/userrouting/quota_cache.go:137-146 | a store evicts exactly when 256 entries are unexpired, and one of minimal expiry |
| CacheEffects.BindingsChangeExactly | internal/userrouting/quota_cache.go:106-171 | over every step: a key is bound exactly by a get that misses, and unbound exactly when the flight finishes or an invalidation names the credential |
| CacheEffects.OnlyCacheableKeysAreHeld | internal/userrouting/quota_cache.go:93-96 | in every reachable state no entry, binding or flight has a blank auth index or otherwise a key that may not be cached, and no get with one takes part in a flight |
| CacheEffects.OneOutcomePerFlight | internal/userrouting/quota_cache.go:106-152 | in every reachable state all gets that led or joined one flight have returned its one outcome, unless they were cancelled while waiting |
| CacheLoads.UncachedGetsReadThemselves | internal/userrouting/quota_cache.go:93-96 | in every run a get that may not use the cache has returned only what its own load read, with the get which that load called |
| CacheLoads.LoadsAreStoredExactly | internal/userrouting/quota_cache.go:122-148 | in every run a finished load is stored exactly when its flight is still bound and its upstream came back with a native read, a query that may be cached, or usage with its credits; it is an error exactly when the upstream did not answer |
| CacheFreshness.GetIsFreshAfterInvalidation | internal/userrouting/quota_cache.go:89-173 | no get that looks up after a matching invalidation returns anything that a load begun before it has read, through detached flights and both cache layers |
| CacheFreshness.GetNeverCrossesCredentials | internal/userrouting/quota_cache.go:32-49 | every upstream read in a returned value, and the load that made it, was made with the provider, auth index and contents of the get that returned it |
| CacheFreshness.ChildSound | internal/userrouting/quota.go:505-515 | usage taken over from the native layer excludes whatever the enclosing resource get must exclude |
| CacheStaleReads.StaleAfterConsumeExactlyWhenHeld | internal/userrouting/quota.go:195-203 | a consume request has just been answered: some later get of the credential can return quota read before the answer exactly when a matching key has an unexpired entry, or a bound flight whose load, or the native get it waits for, has begun a read that has not failed |
| CacheStaleReads.OldQuotaIsServedExactlyWhenHeld | internal/userrouting/quota_cache.go:89-173 | the same of any target in every reachable state, for reads begun before now and gets that look up from now on |
| CacheStaleReads.CanReturnHeld | internal/userrouting/quota_cache.go:106-151 | a get that holds such a read, its own or that of whoever it waits for, can be brought to return it |
| CacheStaleness.StepKeepsClean | internal/userrouting/quota_cache.go:89-173 | while no matching entry, bound load or later get holds an older read, no step makes one do so |
| CacheFreshness.GetIsFreshAfterReset | internal/userrouting/quota.go:195-203 | when no load of the credential began between the invalidation and the answer, every get that looks up after the answer returns only what was loaded and read after it |
| ResetFreshness.ResetTargetsExactly | internal/userrouting/quota.go:195-198 | the invalidation of a reset meets a key, of whatever kind and contents, exactly when its provider is codex and its auth index the one of the reset, or the reset names none |
| ResetFreshness.ConsumingResetInvalidates | internal/userrouting/quota.go:195-203 | a reset that consumes has invalidated before |
| ResetFreshness.GetIsFreshAfterOwnReset | internal/userrouting/quota.go:195-203 | with both: after a reset of a credential and a window without load starts, every get for a key of that credential returns only what was loaded and read after the consume was answered |
| CacheFreshness.StepKeepsFresh | internal/userrouting/quota_cache.go:89-173 | every step keeps cached values, bindings, flights and tasks fresh |
| CacheWitness.WindowReadOutlivesReset | internal/userrouting/quota.go:195-203 | a reachable run in which a read inside the window outlives the reset, against the comment at these lines |
| CacheWitness.DetachedLoadReadsInQuietWindow | internal/userrouting/quota_cache.go:167-170 | a load that began before the invalidation and is detached by it may read inside such a window, reachably |
| CacheAge.HitIsYoungerThanTtl | internal/userrouting/quota_cache.go:99-103 | every entry expires one TTL after its recorded insertion, and a hit serves a value inserted into its layer less than one TTL ago |
| CacheAge.ResourceHitAge | internal/userrouting/quota.go:505-515 | usage served by a resource hit is younger than two TTLs plus the time the resource load ran on after its native get was decided |
| CacheAge.ResourceTimes | internal/userrouting/quota.go:505-515 | in every reachable cached resource value the usage was recorded, settled within one TTL of that, returned by the native get and inserted, in this order |
| CacheAge.ReturnTimeBoundHoldsExactly | internal/userrouting/quota_cache.go:108-113 | counted from the return of the native get instead, the bound holds at every clock at which the entry can be hit exactly when that get returned within one TTL of when its usage was recorded |
| CacheAge.OneTtlHoldsExactly | README_EN.md:127-127 | the one-TTL wording holds for a cached resource value exactly when its usage was recorded at the very clock of the insertion |
| CacheAge.RunsEvictFifo | internal/userrouting/quota_cache.go:131-147 | in every run, what a store drops was inserted, by the recorded date, no later than what it keeps |
| CacheOrigin.EntriesComeFromStorableLoads | internal/userrouting/quota_cache.go:122-148 | every reachable entry is the outcome of a closed flight for its key whose load returned no error and called it cacheable, stored when that flight closed; a cached resource value has its credit details |
| CacheWitness.HitServesUsageOlderThanTtl | README_EN.md:127-127 | for every TTL and any two delays below it, a reachable run serves usage as old as their sum: incomplete credits leave usage in the native layer only, a complete get takes it over |
| CacheWitness.LateWakerDefeatsReturnTimeBound | internal/userrouting/quota_cache.go:108-113 | for every TTL and every later clock, a reachable run serves usage recorded at 0 that its native get returned only then, so served usage can be arbitrarily old |
| CacheCoalescing.ConcurrentLoadsAreBounded | internal/userrouting/quota_cache.go:106-127 | the unfinished flights of a key number at most one plus the matching invalidations since the oldest began |
| CacheCoalescing.CallersShareTheFlight | internal/userrouting/quota_cache.go:106-114 | while no matching invalidation has come, every caller of the key joins the running flight |
| CacheCoalescing.StepKeepsCoalesced | internal/userrouting/quota_cache.go:106-171 | an unfinished flight is the bound one or was detached by a matching invalidation after it began; every step keeps this |
| CacheProgress.InternalRunsEnd | internal/userrouting/quota_cache.go:89-153 | a run of cache and upstream steps is never longer than the work in it, whatever the order |
| CacheProgress.WaitingDescends | internal/userrouting/quota_cache.go:106-114 | waiting is acyclic: a waiter ranks above its leader and the resource kind above the native kind |
| CacheProgress.NobodyIsStuck | internal/userrouting/quota_cache.go:106-151 | following who waits for whom from any get ends at one that waits for nobody and has an enabled step |
| CacheProgress.EveryGetReturns | internal/userrouting/quota_cache.go:89-153 | so once calls stop, every get returns and every flight is closed |
| ResetCredits.RetryQuotaRead | internal/userrouting/quota.go:1178-1207 | the retry loop gives the first answer within four attempts, stopping at cancellation |
| ResetCredits.AnsweredWithinFour | internal/userrouting/quota.go:1178-1207 | a read is answered exactly when one of the first four attempts is and those before it failed |
| ResetCredits.QueriesExactly | internal/userrouting/quota.go:1178-1207 | how many queries a read sends: up to the first answer, or as many as fail before it is cancelled or four have failed; the answer is that of the first attempt that did not fail |
| ResetCredits.ParseResetCredits | internal/userrouting/quota.go:1354-1391 | which fields of the report are what, including all three sources of the count in their order |
| ResetCredits.TallyRows | internal/userrouting/quota.go:1363-1381 | the row loop counts exactly the available rows |
| ResetCredits.RowsAddUp | internal/userrouting/quota.go:1363-1381 | expiry texts and counts go through the rows one by one, in their order |
| ResetCredits.RowsAreAccountedFor | internal/userrouting/quota.go:1363-1381 | available rows are dated, without expiry or undetermined, at every loop step |
| ResetCredits.CompleteDetailsCoverTheCount | internal/userrouting/quota.go:1382-1390 | complete details leave nothing undetermined and cover the count, whichever of its three sources it has |
| ResetCredits.FirstAvailableCreditId | internal/userrouting/quota.go:1393-1405 | blank exactly when no available row has an ID |
| ResetCredits.FirstIdBelongsToFirstRow | internal/userrouting/quota.go:1393-1405 | otherwise it is the trimmed ID of the first available row that has one |
| ResetProtocol.Recorder.ResetQuota | internal/userrouting/quota.go:154-215 | one reset: its effects, its success in the fields of request, answer and reply, and its message for every obstacle |
| ResetProtocol.Recorder.SelectCredit | internal/userrouting/quota.go:155-191 | everything before the mutation only adds credit reads, and ends with the first obstacle if there is one |
| ResetProtocol.Recorder.ConsumeCredit | internal/userrouting/quota.go:195-214 | the invalidation, then one consume request that is never repeated; success exactly when the reply confirms it |
| ResetProtocol.ConsumesOnceAfterReading | internal/userrouting/quota.go:173-203 | at most one consume, after one to four credit reads whose last counted a credit, right after the matching invalidation, of the first selectable row of that very answer |
| ResetProtocol.ConsumesExactly | internal/userrouting/quota.go:154-203 | a reset consumes exactly when it is enabled and for codex, credentials, base URL and request ID are there, one of four reads is answered after only failures, and the answer counts at least one credit, if it counts, and lists one that is available and has an ID |
| ResetProtocol.ChoosesExactly | internal/userrouting/quota.go:154-191 | the same condition, and that it holds exactly when none of the eight obstacles is met |
| ResetProtocol.ReadsExactly | internal/userrouting/quota.go:154-203 | for every reset, whatever comes of it: exactly its credit reads, and then nothing or two more effects |
| ResetHandler.HandleReset | internal/userrouting/quota.go:913-989 | the handler loop: its effects, totals and report |
| ResetHandler.VerdictExactly | internal/userrouting/quota.go:923-967 | what the run makes of every file in the fields of the file: ignored, not inspectable, without an account, or reset, with which account, success and effects |
| ResetHandler.CountsExactly | internal/userrouting/quota.go:919-967 | matched, succeeded and unresolved are the numbers of such verdicts |
| ResetHandler.OneMoreIsReported | internal/userrouting/quota.go:948-962 | each reset is reported under its account, or under the account with the number of the match when that is taken; nothing else is |
| ResetHandler.EachCredentialConsumesAtMostOnce | internal/userrouting/quota.go:923-968 | over a whole run each listed file causes one consume request exactly when it is available, readable, under the nominal prefix, has an account and can be reset, all in the fields of the file; none otherwise, and never more |
| ResetHandler.MatchedIsSucceededPlusFailed | internal/userrouting/quota.go:938-967 | succeeded and failed add up to matched at every step, and the report holds at most that many accounts |
| ResetHandler.SuccessMeansAllFine | internal/userrouting/quota.go:986-986 | success exactly when every eligible credential was readable, every matched one labelled and reset, and no report overwrote another |
| ResetHandler.SuccessOfARun | internal/userrouting/quota.go:919-988 | the same in terms of the listed credentials |
| ResetHandler.PartialExcludesSuccess | internal/userrouting/quota.go:986-987 | partial excludes success, and what is neither had no success or lost one to a collision |
| ResetHandler.PartialExactly | internal/userrouting/quota.go:987-987 | a run is partial exactly when one file was reset and another failed, had no account or could not be inspected |
| ResetHandler.KeyCollisionDefeatsSuccess | internal/userrouting/quota.go:948-951 | a numbered account key can collide: whenever listed credentials of the accounts x#3, x and x are all reset and confirmed, three successful resets are not reported as success |
| ResetHandler.CollisionExample | internal/userrouting/quota.go:948-986 | for every nominal prefix and every trimmed email, concrete files with one available credit each and a confirming upstream that meet this |
| PrefixSelection.QuotaFallbackPrefixes | internal/userrouting/quota.go:1026-1044 | the nominal name and then its configured fallbacks in their order, each where it first occurs |
| PrefixSelection.OccurrencesKeepOrder | internal/userrouting/quota.go:1029-1036 | what is kept stands in the order of first occurrences |
| PrefixSelection.SelectPrefix | internal/userrouting/quota.go:467-533 | candidates are queried in order up to the first with something left; that one is reported as actual, else the nominal one |
| PrefixSelection.QueryCandidate | internal/userrouting/quota.go:470-524 | the credential loop of one candidate is the query function |
| PrefixSelection.QueryPrefixMeaning | internal/userrouting/quota.go:474-524 | a candidate's result holds the last quota of each account and has errors exactly when a credential was unreadable, unlabelled, failed or incomplete |
| PrefixSelection.ErrorsInOrder | internal/userrouting/quota.go:474-524 | the errors of a candidate are, in order, those of its credentials, each in its own terms |
| PrefixSelection.QuotaPrefixHasRemaining | internal/userrouting/quota.go:991-1012 | true exactly when some account has a window and all its windows are positive |
| PrefixSelection.AccountUsable | internal/userrouting/quota.go:993-1009 | the two inner loops decide that for one account |
| PrefixSelection.BuildReport | internal/userrouting/quota.go:537-571 | actual accounts exactly when the prefixes differ; errors are those of the reported queries; partial exactly when there is one; matched exactly when a reported query had accounts |
| PrefixSelection.ErrorsOfReportedQueries | internal/userrouting/quota.go:546-553 | the reported errors are, in order, those of the queries under the nominal or the actual prefix |
| PrefixSelection.MergesInOrder | internal/userrouting/quota.go:557-566 | accounts of one prefix come together in the order of the queries, the later value staying |
| PrefixSelection.MergeIsOwnQuery | internal/userrouting/quota.go:557-566 | a prefix that only one query had has the account map of that query |
| NominalReport.ReportsFirstQueryExactly | internal/userrouting/quota.go:467-566 | for any candidates and everything the credentials may read as: the accounts reported as nominal are always those of the first query exactly when it alone was made under the nominal prefix |
| NominalReport.NominalAccountsAreOwnExactly | internal/userrouting/quota.go:444-566 | from the configured table through candidates, selection and report: that is so exactly when the nominal name is stable and no target that normalises to another name comes down to it in a second round |
| NominalReport.PaddedTargetIsMergedIn | internal/userrouting/quota.go:449-566 | an input where it is not: for any plain name a, the target that is stored as " / a" is queried under a/, so its accounts are reported as nominal |
| PrefixSelection.StableNamesGiveDistinctPrefixes | internal/userrouting/quota.go:449-473 | distinct stable names are distinct as prefixes |
| PrefixSelection.NominalIsReportedExactly | internal/userrouting/quota.go:444-471 | over the configured value, through storing, the handler and the candidate list: the nominal query is found under the nominal prefix exactly when the name left after the three rounds neither starts nor ends with a space |
| PrefixSelection.ThreeSlashesAreNotReported | internal/userrouting/quota.go:444-471 | three spaced slashes in front of any plain name are an input where it is not |
| PrefixSelection.ThreeSlashesExample | internal/userrouting/quota.go:444-471 | the configured value "/ / / a": nominal prefix " a/", queried prefix "a/" |
| PrefixSelection.TwoSlashesAreReported | internal/userrouting/quota.go:444-471 | values like "/ a /" need two rounds and are still reported |
| FallbackTargets.NormalizeQuotaFallback | internal/userrouting/config.go:225-253 | the configuration is rejected exactly when a source or target is empty after normalisation; else it is the table gathered from all raw keys in some order |
| FallbackTargets.ReadTargets | internal/userrouting/config.go:236-250 | the target loop of one raw key |
| FallbackTargets.CleaningKeepsOrder | internal/userrouting/config.go:236-250 | the targets of a source keep the order of their first occurrences |
| FallbackTargets.GatheredInOrder | internal/userrouting/config.go:231-251 | raw keys that mean one source contribute their lists one behind the other, in the order in which they are read |
| FallbackTargets.DistinctSourcesKeepTheirLists | internal/userrouting/config.go:231-251 | when raw keys mean different sources, each source has its own cleaned list, whatever the order |
| FallbackTargets.ListsRepeatExactlyOnOverlap | internal/userrouting/config.go:231-251 | in general a source's list repeats a target exactly when two raw keys that mean this source share one |
| FallbackTargets.SharedSourceRepeatsTargets | internal/userrouting/config.go:231-251 | inputs: a target configured under a source written as "a" and "/a" is tried twice, in whichever order the keys are read |
| FallbackTargets.CleanedListsAreDistinct | internal/userrouting/config.go:236-250 | one raw key on its own contributes neither repeats nor its own source |
| FallbackTargets.QuotaFallbackSource | internal/userrouting/runtime.go:360-376 | the longest configured source the model carries in front of a slash, with the rest as base; both blank exactly when it carries none |
| FallbackTargets.LongestSourceIsUnique | internal/userrouting/runtime.go:366-371 | two carried sources of one length are one |
| FallbackTargets.SourceIsUnique | internal/userrouting/runtime.go:360-376 | so a model has one source and base, and map order cannot matter |
| FallbackTargets.SourceExists | internal/userrouting/runtime.go:360-376 | every model has them |
| FallbackTargets.QuotaFallbackTargets | internal/userrouting/runtime.go:342-358 | for the source and base of the primary: the primary alone when fallback is off or there is no source or base, else the primary and then every configured target in front of the base that differs from it |
| FallbackTargets.SubstitutesShareTheBase | internal/userrouting/runtime.go:351-356 | the substitutes are exactly the configured prefixes in front of the base, other than the primary |
| FallbackTargets.SubstitutesInOrder | internal/userrouting/runtime.go:351-356 | substitutes stand in the order of the configured targets, the primary left out |
| FallbackTargets.TriedAloneExactly | internal/userrouting/runtime.go:342-358 | the primary comes first, and alone exactly when fallback is off, no source with a base behind it applies, or its targets only give the primary back |
| FallbackTargets.TargetsAreDistinct | internal/userrouting/runtime.go:342-358 | distinct target prefixes make the whole list free of repeats |
| FallbackTargets.TargetListRepeatsExactly | internal/userrouting/config.go:225-253 | from the raw configuration to the models tried: one is listed twice exactly when two raw keys that mean the applicable source share a target that does not give the primary back |
| FallbackTargets.DistinctSourcesNeverRepeat | internal/userrouting/config.go:225-253 | when raw keys mean different sources, nothing is tried twice and the substitutes are the cleaned list of the one raw key that means the source |
| FallbackExecution.Execute | internal/userrouting/runtime.go:209-226 | tries a prefix of the list; each model but the last failed with an error that invites another, spelled out in text, status, code and setting; the last result is the result, success being a status below 400; the loop does not run off its end |
| FallbackExecution.HandsOverExactly | internal/userrouting/runtime.go:215-277 | one attempt leads on exactly when its call failed, or its status is 400 or more, with such an error |
| FallbackExecution.RetriesExactlyInvited | internal/userrouting/runtime.go:378-418 | which errors are such |
| FallbackExecution.TriedIsDetermined | internal/userrouting/runtime.go:215-224 | these clauses determine how many models are tried |
| FallbackExecution.Host.RunStream | internal/userrouting/runtime.go:228-245 | the same for streaming, with the events of the run and how it ends |
| FallbackExecution.Host.StreamModel | internal/userrouting/runtime.go:280-340 | one attempt: open, read loop, close |
| FallbackExecution.Host.ReadLoop | internal/userrouting/runtime.go:313-339 | the read loop over any script of chunks, possibly cut off while running |
| FallbackExecution.Host.ReadOnce | internal/userrouting/runtime.go:315-338 | one turn of it |
| FallbackExecution.LoopDelivers | internal/userrouting/runtime.go:313-339 | a loop delivers, in order, a prefix of the non-empty payloads, all up to Done when it finishes, and may be retried only before any emit call |
| FallbackExecution.LoopRetriesExactly | internal/userrouting/runtime.go:313-339 | a stream hands over to the next model exactly when its first read that brings anything at all is an error that may be retried |
| FallbackExecution.AttemptHandsOverExactly | internal/userrouting/runtime.go:280-335 | a whole attempt hands over exactly when the call that opens its stream, or the first read that brings anything at all, fails with an error that invites another |
| FallbackExecution.AttemptEndsExactly | internal/userrouting/runtime.go:280-340 | how every attempt ends, for each way of not opening and for the first read that ends its stream |
| FallbackExecution.LoopEndsExactly | internal/userrouting/runtime.go:313-339 | a loop ends at the first read that fails, is not decoded, cannot be forwarded or is done, with what that read says; without one it is still running |
| FallbackExecution.LoopForwardsExactly | internal/userrouting/runtime.go:313-339 | which reads and emit calls a loop makes, in order |
| FallbackExecution.AttemptClosesItsStream | internal/userrouting/runtime.go:306-311 | a stream with an ID is closed exactly once, last in its attempt |
| FallbackExecution.RunClosesItsStreams | internal/userrouting/runtime.go:228-311 | over a whole run: each attempt that opened a stream, and is not reading it any more, closes it exactly once, before anything of a later attempt; nothing else is closed |
| FallbackExecution.OnlyTheLastAttemptEmits | internal/userrouting/runtime.go:279-340 | over a whole run only the last attempt emits, and what the client got is a prefix of that attempt's payloads, all of them on success |
| Prefixes.NameStable | internal/userrouting/config.go:255-257 | a normalised name normalises to itself exactly when neither end is a space |
| Prefixes.NormalisingTwiceDiffers | internal/userrouting/config.go:255-257 | names like "/ a /" need two rounds |
| Prefixes.PrefixStable | internal/userrouting/config.go:67-73 | a normalised prefix is stable exactly when it does not start with a space |
| Prefixes.ApplyingTwice | internal/userrouting/runtime.go:179-186 | applying a prefix twice is applying it once, for every model, exactly under that condition |
| Prefixes.AppliedIs | internal/userrouting/runtime.go:179-186 | applying a prefix to b gives q + b exactly when it normalises to q, b is trimmed and does not start with q |
| PrefixOrder.SortedIsUnique | internal/userrouting/model_registration.go:113-118 | longest first and then alphabetical leaves one order for a set of names, so map iteration order is invisible |
| PrefixOrder.Insert | internal/userrouting/model_registration.go:113-118 | inserting keeps that order and the names |
| ModelAliases.DeduplicationPrefixes | internal/userrouting/model_registration.go:90-120 | the prefixes of mapped keys, and of the default exactly if it is included, each once, none blank, in the order in which they are tried |
| ModelAliases.ChosenIsLongest | internal/userrouting/model_registration.go:128-136 | the first match is stripped, which is the longest configured prefix the model carries |
| ModelAliases.AliasResolves | internal/userrouting/runtime.go:129-177 | for every model q + b: asking for b reaches it with the key's own prefix exactly when that prefix normalises to q, b is trimmed and does not start with q, and the default prefix is q too or the catalogue lists the model |
| ModelAliases.AliasResolvesByLastRefresh | internal/userrouting/runtime.go:129-177 | the same over any history of catalogue calls, with any keys: the catalogue condition is that the last refresh lists q + b, whichever key asked |
| ModelAliases.RoutesExactly | internal/userrouting/runtime.go:129-177 | where every accepted request goes, over any history of catalogue calls: with the default prefix exactly when its key is not mapped, or the two prefixes make different models and the last refresh does not list the own one; else with the own prefix; refused otherwise only when the catalogue cannot answer |
| ModelAliases.PrecheckExactly | internal/userrouting/runtime.go:129-150 | when a request is refused before that, and why |
| ModelAliases.AppliesExactly | internal/userrouting/runtime.go:179-186 | what a prefix makes of a model: nothing when it is blank or already there, else it goes in front |
| ModelRegistration.Runtime.RegisterModels | internal/userrouting/model_registration.go:15-88 | fetches with exactly the mapped keys other than default, each once and while no list is filtered, publishes exactly the aliases, and filters from then on exactly when there is one |
| ModelRegistration.Runtime.ResolveModel | internal/userrouting/runtime.go:129-177 | the request is decided as Resolve says, which RoutesExactly spells out, and the catalogue is asked only when the two prefixed names differ |
| ModelRegistration.AliasHasASource | internal/userrouting/model_registration.go:64-79 | every published alias is a listed model without its longest prefix |
| ModelRegistration.AliasIsPublished | internal/userrouting/model_registration.go:44-71 | the rest of a listed model behind its longest prefix is published |
| ModelRegistration.AliasRoundTrip | internal/userrouting/model_registration.go:44-71 | while fetches list the same models to everybody, a published alias resolves back to its model, under the side conditions of AliasResolves and with no trailing group |
| ModelCatalog.LookupKeepsUngrouped | internal/userrouting/catalog.go:132-139 | a model is looked up under its own name exactly when it has no trailing parenthesised group |
| ModelCatalog.GroupComesOff | internal/userrouting/catalog.go:132-139 | otherwise the last group comes off, with the space before it |
| ModelCatalog.Collect | internal/userrouting/catalog.go:121-129 | a fetch yields the trimmed, non-blank identifiers |
| ModelCatalog.Catalog.Snapshot | internal/userrouting/catalog.go:79-93 | one call on the shared snapshot |
| ModelCatalog.Catalog.Exists | internal/userrouting/catalog.go:57-67 | membership of the lookup name in what the call serves |
| ModelCatalog.AnswerIsTheLastRefresh | internal/userrouting/catalog.go:79-93 | in every history, a snapshot served is the most recent successful fetch, made by this call or finished less than one TTL before it asked |
| ModelCatalog.AnswersExactly | internal/userrouting/catalog.go:79-93 | a call is served without a fetch exactly when the last refresh listed something and is less than one TTL old; else its answer is that of its own fetch |
| ModelCatalog.KeysShareOneSnapshot | internal/userrouting/catalog.go:79-93 | within the TTL a caller gets what was fetched with another key, whatever its own would list |
| ModelCatalog.SteadyUpstream | internal/userrouting/catalog.go:79-93 | while all fetches list the same models, so does every snapshot |
| ModelListing.RemovePrefixedModelEntries | internal/userrouting/models_response.go:28-74 | the two list fields are filtered, all else is untouched, and a change is reported exactly when an entry is dropped |
| ModelListing.FilterEntries | internal/userrouting/models_response.go:48-58 | the entry loop |
| ModelListing.ChangedExactlyWhenDropped | internal/userrouting/models_response.go:37-73 | the body differs exactly when an entry was dropped |
| ModelListing.FilteringTwice | internal/userrouting/models_response.go:28-74 | a second pass changes nothing |
| ModelListing.ShownIsSublist | internal/userrouting/models_response.go:48-58 | the list shown is a sublist in the original order |
| ModelListing.MissingArePrefixed | internal/userrouting/models_response.go:76-94 | exactly the prefixed entries are missing from it, by position |
| ModelListing.StaysExactly | internal/userrouting/models_response.go:76-94 | any entry, with an ID, a name, both or neither, stays exactly when neither shows a configured prefix, in front or behind one models/ |
| ModelListing.OnlyListsChange | internal/userrouting/models_response.go:37-73 | only lists under data and models are filtered; everything else of the body stays |
| ModelRegistration.Runtime.InterceptResponse | internal/userrouting/models_response.go:14-26 | only a public model list is rewritten, only after a registration found an alias, and only when an entry goes |
| ModelHiding.HiddenIsStrippable | internal/userrouting/models_response.go:76-94 | a name that does not start with models/ is hidden exactly when it has a prefix to strip |
| ModelHiding.ShownUnlessHidden | internal/userrouting/models_response.go:48-58 | an entry named by its ID is shown exactly when it is listed and not hidden |
| ModelHiding.AliasReplacesItsSource | internal/userrouting/model_registration.go:55-86 | the alias of any listed model is published; the model is hidden unless it starts with models/ and what follows has no configured prefix; the alias is hidden exactly when it could be stripped once more or, if it starts with models/, when what follows has a configured prefix |
| ModelHiding.BarePrefixIsLost | internal/userrouting/model_registration.go:56-59 | a model that is a prefix alone is hidden without an alias |
| ModelHiding.LayeredAliasIsHidden | internal/userrouting/model_registration.go:128-136 | with two layers of configured prefixes the one alias is hidden too, and nothing is left |
| ModelHiding.LayeredExample | internal/userrouting/model_registration.go:128-136 | an instance: a/b/x with a/ and b/ configured |
| ModelHiding.OneLayerExample | internal/userrouting/model_registration.go:44-86 | an instance of one layer, from registration to request: a/x is hidden, x is published and seen, and asking for x reaches a/x |
| ConfigReader.CPAConfigReader.Snapshot | internal/userrouting/config.go:376-446 | the reader's fields and result after a call are those of the locked section; a failed stat, read or decode changes nothing |
| ConfigReader.VersionsNeverGoBack | internal/userrouting/config.go:376-446 | in every interleaving the cached stamp's version is no later than the cached value's, which is no later than the file's, and returned versions never go backwards; nothing is assumed of stamps |
| ConfigReader.FreshExactlyWithoutConfusion | internal/userrouting/config.go:380-389 | over a given history of the file, every successful call of every interleaving returns a version no older than the one it looked at exactly when no version that decodes stands between two with the same stamp |
| ConfigReader.UniqueStampsAreEnough | internal/userrouting/config.go:380-389 | hence unique stamps are enough |
| ConfigReader.StaleReturn | internal/userrouting/config.go:385-389 | the run that returns a stale version when they are not |
| ConfigReader.StepsAreTheSection | internal/userrouting/config.go:385-446 | a caller that is not disturbed by a file change does what the class method does in one call |

Where the code and its texts disagree, the model follows the code:

- README_EN.md:127 says that quota values can lag by up to one TTL. Two cache layers add up:
  `HitServesUsageOlderThanTtl` exceeds it, `OneTtlHoldsExactly` says when it holds, and
  `ResourceHitAge` is the bound that always does.
- The comment at internal/userrouting/quota.go:195-196 says that invalidating before the
  consume request keeps subsequent reads from reusing old quota. `WindowReadOutlivesReset`
  is a run in which they do, and `StaleAfterConsumeExactlyWhenHeld` says exactly when.
- README_EN.md:127 says that incomplete credit details are not cached, which is so
  (`EntriesComeFromStorableLoads`); but the usage read along with them is cached by the
  native layer, and that is how the first of these runs comes about.
- The comment at internal/userrouting/catalog.go:69-71 gives a reason to fetch per key;
  `Exists` nevertheless shares one snapshot between keys, see `KeysShareOneSnapshot`.

## Left out

- HTTP, TLS, loopback addresses, URLs, environment variables and file paths: a call returns a value or fails.
- JSON and YAML decoding and encoding, request body rewriting, RFC 3339 normalisation and token claims: the model starts from decoded values. In particular the choice of the key list inside the configuration file (internal/userrouting/config.go:394-440) is part of "this version decodes to that value".
- Strings are sequences of characters, not of bytes, and case mapping is ASCII only. Length order of prefixes is only used between prefixes of one string, where counting bytes or characters gives the same order; between other prefixes of different lengths the order can differ, which changes no result.
- SHA-256 is an arbitrary collision-free function and random request identifiers are values that may fail to be created.
- Panics inside a load, and loads that never return: progress takes every upstream answer as given.
- Cancellation is a step that may happen at any time before a get returns from waiting or looking up; which context it came from is not modelled. A load that fails because its context ended is a failed load.
- QuotaCache.QuotaReadCache.BeginGet: the blocking body of `get` between the two locked sections is a sequence of steps in CacheSystem, because a Dafny method cannot be interleaved with others.
- QuotaCache.QuotaReadCache.FinishGet: expects the clock to be past the zero time, which the source's search for the oldest entry relies on too.
- CacheFreshness.GetIsFreshAfterInvalidation: an explicit provider query for Codex asks CPA, which may answer it through this plugin's `FetchQuota` and so from the native layer (internal/userrouting/quota.go:650-660); the model takes it as one upstream read of its own, so for that key kind the statements about freshness and age are relative to what CPA answers.
- The `/quota/direct` endpoints, the management centre and the parsing of usage responses (internal/userrouting/quota.go:1466-1532): field lookups and clamping. The explicit provider query takes part in the cache model as a third key kind.
- PrefixSelection.AccountUsable: remaining fractions are reals, so NaN is not covered.
- ResetHandler.HandleReset: the texts of errors and messages are not modelled, only which outcome they stand for.
- ModelRegistration.Runtime.RegisterModels: published models are a set of identifiers; that they are returned sorted, and the constant fields of each, are not modelled.
- ModelRegistration.Runtime.ResolveModel: how a credential is taken from headers or query is not modelled; the credential is a parameter.
- ConfigReader.CPAConfigReader.Snapshot: that a caller gets a copy of the value is implicit, since values are immutable here.
- Routing decisions, logging, path matching, ABI glue and plugin registration data: each is settled by reading one branch.

# Verified model of the FTD metrics exporter

The exporter polls Cisco Secure Firewall devices through one of two backends
(FMC on premises, SCC in the cloud), keeps the last good answer and serves it
as Prometheus gauges. Its difficult parts are small protocols between
concurrent asynchronous calls. This project models those parts and proves what
they keep over every input and every interleaving.

The code between two awaits runs atomically, so each protocol is a step machine
whose steps are the synchronous segments of the program. The specification is a
pure function on states with a history of events; classes hold the variables of
the program's closures and each of their methods is proved to do exactly what
the machine's step does. Theorems are about arbitrary sequences of steps.

| files | part of the system |
|---|---|
| TokenManager, TokenManagerSafety, TokenManagerHistory, TokenManagerClass, Reauth | FMC login, refresh and re-login, and the requests that trigger it |
| Budget, Spacing, Limiter, Windows | the three guards in front of every request |
| Retry, RetryAfter, HttpErrors | attempts, backoff and the deadline of one GET |
| Discovery | pagination of the device list against an unreliable server |
| LastGood, LastGoodClass, Refreshes, License | the last-good caches, what may be put in them, and the refreshes that end a poll |
| PollLoop, PollerClass | the poll loop, its outcome gauges, the parse-error tracker |
| FmcMap, FanOut | one response per device and family, merged in any order |
| Collector, CollectorReadings, StateSets, GaugeValues, InventoryCollector | rendering devices and the inventory into gauges |
| Certificates, CertificateEntries | certificates from the wire to the gauges |
| GaugeStore, SeriesKeys, KeyText, Topics, SnapshotTopics, SeriesCount, CertificateCount | counting the series by the text of their labels |
| Calendar, Timestamps | exact UTC timestamps |
| Packing | the dashboard layout |
| Sanitizer | consistent UUID placeholders |
| Lifecycle | shutdown raced against the hard-exit timer |
| Prelude, Digits, Text, FirstSeen, JsonField | shared vocabulary |

Clocks are real numbers of milliseconds that never go back, except in Spacing,
where nothing is assumed of the clock. What the network, the server, the random
generator and the date engine do is a parameter or an arbitrary action.

Places where the code does less than its comments or a natural reading say:

- The bound on forced logins holds exactly against servers that never hand out
  a token twice (`NoLoginStormIff`).
- A request answered 401 can go out again with the refused token, if the 401
  comes before the `finally` of the promise that brought it
  (`SecondSendIsFreshIff`); the event loop leaves no room for that in practice.
- The request deadline is not extended by a hook that throws
  (`DeadlineExcludesHooksIff` gives the exact condition).
- A number-like `Retry-After` that ends in a point or holds more than one
  reaches the date parser (`NumberLikeReachesTheDateParserIff`).
- A server that understates its total, or reports none and pads its limit, can
  hide devices (`CompleteForEveryPageSizeIff` gives the exact condition).
- The window start of a snapshot depends on the order in which requests
  complete unless its newest results agree on it
  (`SnapshotsAreOrderIndependentIff`); nothing else does (`OnlyStartsCanDiffer`).
- A license or certificate parse error, or a health parse error left over from a
  rejected cycle, turns an empty but healthy poll into a failed
  one; the hook avoids this for the inventory alone
  (`EmptyCycleMisjudgedIff`, `HiccupFailsAHealthyPoll`).
- Certificate records that resolve to one device can overwrite each other
  (`NeverCollideIff`).
- The comma-joined series counts can be too small (`CommasCanHideADevice`,
  `InterfacesCanBeCountedAsOne`). A poll is counted right exactly if no two of
  its snapshots are counted together (`PollIsCountedRightIff`), and a snapshot
  can be counted together with no other that the mappers make exactly if no
  label value of its series holds a marker that could stand for a neighbour's
  (`NeverCountedTogetherIff`; `UnambiguousIff` per series). Device names, uids,
  interface ids and names, types, duplex modes and tunnel names can all do it,
  and every interface with a type can be confused with one whose name contains
  the type. `CertificateCountIff` and `ReadsAloneIff` say the same of
  certificates.
- A `server.stop()` that calls shutdown again starts a second sequence, and exit
  can be called twice (`ExitsAtMostOnceIff`).
- Backoff shortens the wait when the interval exceeds the cap
  (`BackoffIsMonotoneIff`), and a panel wider than the grid leaves it
  (`BuildPanels`).

## Model

| member | source | states |
|---|---|---|
| TokenManagerSafety.AtMostOnePostOutstanding | src/backends/fmc/token-manager.ts:253-264 | in every reachable state at most one auth POST is outstanding, by the promises and by the history |
| TokenManagerSafety.ManyCallersOnePost | src/backends/fmc/token-manager.ts:253-321 | any burst of getToken and forceReauth calls puts at most one more POST on the wire |
| TokenManagerSafety.RefreshQuota | src/backends/fmc/token-manager.ts:69-73 | refreshCount is the number of refreshes since the last login and never exceeds 3 |
| TokenManagerSafety.FastPathTokenIsYoung | src/backends/fmc/token-manager.ts:267-284 | a token handed out without a POST is the newest issued one and less than 24 minutes old |
| TokenManagerSafety.LatchIsTheBadLogin | src/backends/fmc/token-manager.ts:177-213 | the latch is always the error of the newest login answered 401 or 403 |
| TokenManagerSafety.NoPostAfterLatch | src/backends/fmc/token-manager.ts:200-206 | once latched, no sequence of steps issues another POST or changes the latch |
| TokenManagerSafety.BadCredentialsAreFatal | src/backends/fmc/token-manager.ts:177-321 | after a login answered 401/403 nothing posts again and every call on an open manager fails with that error |
| TokenManagerSafety.ClosedManagerIsQuiet | src/backends/fmc/token-manager.ts:323-327 | after close every call throws and only a refresh already on the wire can still post, once, its fallback login |
| TokenManagerSafety.NeverStuck | src/backends/fmc/token-manager.ts:253-284 | from any reachable idle, open, unlatched state one good answer makes its token current and frees the slot |
| TokenManagerSafety.DiscardsOnlyPresentedAlways | src/backends/fmc/token-manager.ts:290-321 | in every run a forced login discards no token but the one its caller presented |
| TokenManagerSafety.StepKeepsStormInv | src/backends/fmc/token-manager.ts:150-327 | every step keeps the amortised account of forced logins, discarded tokens and failed logins |
| TokenManagerSafety.NoLoginStorm | src/backends/fmc/token-manager.ts:253-321 | forced logins number at most the distinct current tokens presented, plus failed logins, plus one, in any interleaving |
| TokenManagerSafety.NoLoginStormIff | src/backends/fmc/token-manager.ts:253-321 | against a server that hands out given tokens in order, the bound holds in every interleaving iff they are distinct |
| TokenManagerSafety.RepeatedTokenBreaksTheBound | src/backends/fmc/token-manager.ts:290-321 | if token j came before, presenting tokens 0 to j in turn starts more logins than the bound allows |
| TokenManagerHistory.ExecKeepsTold | src/backends/fmc/token-manager.ts:150-327 | over every interleaving each variable but the slot is what the history says: pair, renewal time, quota, latch, domain, closed |
| TokenManagerHistory.GetTokenFollowsTheHistory | src/backends/fmc/token-manager.ts:215-284 | in every reachable state: a held grant younger than 24 minutes is handed out; else the outstanding flight is joined; else a renewal presents the pair of the newest grant while fewer than three refreshes followed the last login and a refresh token came with it, and logs in otherwise |
| TokenManagerHistory.ForceReauthFollowsTheHistory | src/backends/fmc/token-manager.ts:290-321 | in every reachable state: joins the outstanding flight, else hands out a held token that is not the stale one, else gives up the grant and logs in |
| TokenManagerHistory.LoginAnswers | src/backends/fmc/token-manager.ts:177-213 | a login settles with its error or its token; only a 204 with a token is granted, as it came, and resets the quota; only 401 and 403 latch |
| TokenManagerHistory.RefreshAnswers | src/backends/fmc/token-manager.ts:215-251 | a refused refresh gives up the pair and logs in within its flight; any other answer settles it, and a good one is granted and counted |
| TokenManagerHistory.EveryFourthRenewalLogsIn | src/backends/fmc/token-manager.ts:69-284 | a call every 24 minutes against a server that always answers logs in every fourth time and refreshes the three times between |
| TokenManager.StepKeepsInv | src/backends/fmc/token-manager.ts:150-327 | every segment keeps the slot, the quota, the renewal time and the latch consistent with the history |
| TokenManager.ExecKeepsInv | src/backends/fmc/token-manager.ts:150-327 | so does every interleaving of segments |
| TokenManagerClass.FmcTokenManager.AcquireSingleFlight | src/backends/fmc/token-manager.ts:253-264 | joins the promise in the slot or reserves the slot and posts, in one segment |
| TokenManagerClass.FmcTokenManager.GetToken | src/backends/fmc/token-manager.ts:267-284 | the call's first segment does exactly the machine's step, whose answers and POSTs GetTokenFollowsTheHistory tells from the history |
| TokenManagerClass.FmcTokenManager.ForceReauth | src/backends/fmc/token-manager.ts:290-321 | the same for a forced re-login: joins, hands out a newer token, or discards the pair and logs in |
| TokenManagerClass.FmcTokenManager.Close | src/backends/fmc/token-manager.ts:323-327 | drops the pair for good and leaves the running flight alone |
| TokenManagerClass.FmcTokenManager.ApplySuccessfulAuth | src/backends/fmc/token-manager.ts:150-175 | installs the pair and re-arms renewal, or changes nothing if the token header is missing |
| TokenManagerClass.FmcTokenManager.LoginAnswered | src/backends/fmc/token-manager.ts:177-213 | the continuation of a login: 204 with a token resets the quota, 401/403 latches |
| TokenManagerClass.FmcTokenManager.RefreshAnswered | src/backends/fmc/token-manager.ts:215-251 | the continuation of a refresh: counted, rejected into a fallback login of the same flight, or failed |
| TokenManagerClass.FmcTokenManager.RunFinally | src/backends/fmc/token-manager.ts:257-262 | the later callback clears the slot only if it still holds this flight |
| TokenManagerClass.FetchWithReauth.constructor | src/backends/fmc/adapter.ts:183-186 | a request begins by asking for a token |
| TokenManagerClass.FetchWithReauth.TokenDelivered | src/backends/fmc/adapter.ts:183-226 | does what the delivery step of EverySendCarriesItsToken does to one request |
| TokenManagerClass.FetchWithReauth.Answered | src/backends/fmc/adapter.ts:186-226 | only a 401 to the first send forces a re-login; any other answer ends the request |
| Reauth.NextKeepsInv | src/backends/fmc/adapter.ts:183-226 | every step of any number of requests over one manager keeps the combined invariant |
| Reauth.EachRequestSentAtMostTwice | src/backends/fmc/adapter.ts:183-226 | no request is sent more than twice and a second 401 ends it |
| Reauth.InvalidatedTokensCostOneLoginEach | src/backends/fmc/adapter.ts:183-226 | if every login succeeds, k invalidated tokens cost at most k forced logins for any number of requests |
| Reauth.EveryRequestAsksFirst | src/backends/fmc/adapter.ts:183-186 | a request begins by asking the manager for a token and has sent nothing |
| Reauth.EverySendCarriesItsToken | src/backends/fmc/adapter.ts:186-224 | a request goes out with exactly the token its awaited answer brought, the first time and the second; an error ends it; nobody else is touched |
| Reauth.OnlyTheFirst401Reauthenticates | src/backends/fmc/adapter.ts:187-201 | only a 401 to the first send asks for a fresh token, naming the refused one; any other answer ends the request as it came |
| Reauth.SecondSendIsFreshIff | src/backends/fmc/adapter.ts:186-224 | if no token is handed out twice, a request answered 401 never goes out with the refused token again, whatever follows, iff the slot does not still hold the settled promise of that token or the manager is closed or latched |
| Budget.TrailingIsTheWindow | src/http/budget.ts:42-46 | pruning the front of the log keeps exactly the admissions younger than the window |
| Budget.AdmissionsAreSpread | src/http/budget.ts:49-66 | any admission and the one maxRequests later are at least a window apart |
| Budget.BudgetHolds | src/http/budget.ts:40-67 | no half-open window ever holds more than maxRequests admissions, for any callers on a monotone clock |
| Budget.AdmittedIffRoom | src/http/budget.ts:49-66 | a caller is admitted exactly when fewer than maxRequests admissions are that recent |
| Budget.WaitIsExact | src/http/budget.ts:57-64 | the computed wait ends exactly when the oldest admission leaves the window |
| Budget.BudgetGuard.PruneExpired | src/http/budget.ts:42-46 | the kept list becomes its trailing window |
| Budget.BudgetGuard.Iterate | src/http/budget.ts:49-66 | one iteration admits iff there is room, and else sleeps until a lone waiter would be admitted and (beyond the 1 ms floor) no longer |
| Spacing.ReleasesServe | src/http/spacing.ts:50-59 | the reserved times respect call order, call times and the gap |
| Spacing.ReleasesAreEarliest | src/http/spacing.ts:50-59 | they are pointwise the earliest of all such schedules |
| Spacing.SlotsAreSpaced | src/http/spacing.ts:47-60 | slots k places apart are at least k gaps apart, whatever the clock does |
| Spacing.SlotsPerWindow | src/http/spacing.ts:47-60 | a window covered by n gaps holds at most n slots |
| Spacing.TwoSccSlotsPerMinute | src/backends/scc/adapter.ts:182-186 | all requests and retries of one SCC adapter reserve at most two slots in any half-open minute |
| Spacing.ThirdSccCallWaitsAMinute | src/backends/scc/adapter.ts:182-186 | and no fewer than it may: of three calls at once the second waits 30 s and the third 60 s |
| Spacing.SpacingGuard.Wait | src/http/spacing.ts:50-59 | reserves the next slot before sleeping and sleeps exactly until it |
| Limiter.RunningTaskHoldsASlot | src/http/limiter.ts:28-34 | whenever a task finishes there is a slot to give back |
| Limiter.StepKeepsInv | src/http/limiter.ts:25-62 | every step keeps the cap, a full cap under a queue, and the order of the tasks |
| Limiter.FifoWithinCap | src/http/limiter.ts:25-62 | in every interleaving the cap holds, submitted = finished + in flight + queued, and tasks start in submission order |
| Limiter.NewcomerCannotStealTheSlot | src/http/limiter.ts:28-48 | a slot freed under a queue goes to the oldest waiter even if a newcomer arrives before it runs |
| Limiter.ConcurrencyLimiter.Acquire | src/http/limiter.ts:36-48 | takes a slot or queues, exactly as the machine |
| Limiter.ConcurrencyLimiter.Finish | src/http/limiter.ts:28-34 | gives the slot back or hands it to the head of the queue |
| RetryAfter.WholeSecondsAreHonoured | src/http/retry.ts:64-68 | any whole number of seconds, however padded with spaces, means that delay capped at 8 s; one that overflows a double is ignored |
| RetryAfter.MalformedNumbersAreIgnored | src/http/retry.ts:55-71 | signed and fractional numbers ask for nothing whatever the date parser would say |
| RetryAfter.NumberLikeReachesTheDateParserIff | src/http/retry.ts:44-71 | over digits and points, signed or not, the date parser's answer matters exactly for strings that end in a point or hold more than one |
| RetryAfter.DecimalIff | src/http/retry.ts:44-55 | over digits and points the pattern matches iff the last is a digit and there is at most one point |
| RetryAfter.DatesAreWaitedFor | src/http/retry.ts:57-78 | a date is waited for, at most 8 s; a past one asks for no wait, one the engine cannot read and a missing header for nothing |
| Retry.EndsAtTheFirstLast | src/http/retry.ts:130-166 | the run stops at the first attempt that succeeds, must not be retried, or is the third |
| Retry.LastAttemptDecides | src/http/retry.ts:105-166 | one to three attempts; the caller gets the last one's response or error, marked exhausted with the same class and reason exactly if it was retryable, which takes three attempts |
| Retry.DeadlineExcludesHooksIff | src/http/client.ts:154-176 | at every attempt the deadline is start + timeout + time spent in beforeAttempt iff no hook spent time and then threw |
| Retry.PauseIsBounded | src/http/retry.ts:87-90 | pauses are between 0 and 8 s, and within the backoff envelope after a thrown error |
| Retry.OwnTimeIsBounded | src/http/client.ts:154-188 | if each request ends by its signal, time outside the hook is at most timeout + 16001 ms plus timer lateness |
| Retry.RetryAfterIsHonoured | src/http/retry.ts:157-162 | a throttled or failing server that names whole seconds is left alone that long, capped at 8 s |
| Retry.AnotherAttemptIff | src/http/retry.ts:130-163 | another attempt follows exactly the first and second ones that were thrown in a passing way, throttled or met a server fault |
| Retry.StatusDecides | src/http/errors.ts:109-150 | what the caller gets when the last attempt was answered, by status: a response for 2xx, else class, reason and asked-for pause |
| Retry.ThrownDecides | src/http/errors.ts:165-184 | and when it threw: an abort is a timeout, a classified error is passed on, anything else is the network |
| Retry.PauseIs | src/http/retry.ts:87-162 | the pause is what the answer asked for, and otherwise the random draw times 500 ms, then 1000 ms |
| Retry.TimerIsWhatIsLeft | src/http/client.ts:154-176 | each request goes out when its hook is done, with its abort signal set to what is left until the deadline, rounded up |
| Retry.Exchange.PerformAttempt | src/http/client.ts:158-176 | one attempt: hook, credit, rounded-up timer, request, classification |
| Retry.Exchange.Pause | src/http/retry.ts:143-162 | sleeps for the reply's Retry-After or else the backoff |
| Retry.Exchange.Iterate | src/http/retry.ts:133-163 | one pass of the retry loop either ends the run with its outcome or leaves the rest of it |
| Retry.Exchange.Get | src/http/client.ts:154-183 | the whole call is the run the theorems are about |
| Discovery.DevicesAreNamed | src/backends/fmc/discovery.ts:125-158 | no device has an empty id or name or is the appliance |
| Discovery.OneMoreItem | src/backends/fmc/discovery.ts:110-165 | an item with an id other than the appliance is kept in its place, under its trimmed name or its id if that is blank, with its connection state; every other is left out, and only malformed ones are reported |
| Discovery.ParsePage | src/backends/fmc/discovery.ts:106-167 | a page yields its valid, non-appliance items in order and one diagnostic per malformed item |
| Discovery.FetchAllDeviceRecords | src/backends/fmc/discovery.ts:180-277 | the page loop computes the run the theorems are about; offset is always the raw items seen |
| Discovery.PageEndsTheRunIff | src/backends/fmc/discovery.ts:180-277 | a good page ends the run iff it is empty, or below its limit (1000 without one) when the total it reports has been seen; failed and malformed pages and running out of pages are errors of their own |
| Discovery.ResultIsAccountedFor | src/backends/fmc/discovery.ts:225-277 | whatever the server does, a returned list ended with a reason to stop, and one short of the last reported total is warned about |
| Discovery.ReadsToTheEnd | src/backends/fmc/discovery.ts:180-277 | a server that holds a list and gives no early reason to stop is read to its end in at most total + 1 pages |
| Discovery.TrueTotalSuffices | src/backends/fmc/discovery.ts:180-277 | with the true total the whole list arrives, once each and in order, without a warning, whatever page sizes or limit the server uses |
| Discovery.HonestLimitSuffices | src/backends/fmc/discovery.ts:180-277 | without a total it arrives in at most total + 1 pages if only the last page is below the reported limit |
| Discovery.OneByOneIsCut | src/backends/fmc/discovery.ts:236-262 | a server that hands out single items is cut off unless its reports suffice |
| Discovery.CompleteForEveryPageSizeIff | src/backends/fmc/discovery.ts:180-277 | reports make pagination complete against all page sizes iff the total is not understated, the limit is at most 1, or there is at most one item |
| LastGood.StepKeepsInv | src/backends/shared/refresh-cache.ts:32-68 | every step keeps single flight and the cache equal to what its history implies |
| LastGood.LastGoodHolds | src/backends/shared/refresh-cache.ts:32-68 | at most one fetch runs, none starts within the interval after a success, the value is that of the last success |
| LastGood.DueCallFetches | src/backends/shared/refresh-cache.ts:46-63 | an idle cache that is due always fetches on the next call |
| LastGood.AwaitedRefresh | src/backends/shared/refresh-cache.ts:37-63 | an awaited call, even one that meets a running refresh, changes the value exactly if it waited for a fetch that succeeded, and its promise holds the value the cache then has |
| LastGood.JoinedCallsGetTheLastGoodValue | src/backends/fmc/discovery.ts:301-338 | whoever awaits a running fetch gets what it fetched, or the last good value if it failed, whatever happens after; and every settled promise holds the last good value as of the end of its own fetch |
| LastGood.SuccessLastsOneInterval | src/backends/shared/refresh-cache.ts:37-63 | a success answers every call within the interval at once and the first one after it fetches again |
| LastGood.OnlyEmptyBodiesWithErrorsAreThrown | src/backends/scc/adapter.ts:274-378 | a body is banked, with every error it recorded, unless it is empty because of them; failures leave the cache as it was and due |
| LastGood.CacheHoldsWhatWasBanked | src/backends/scc/adapter.ts:274-378 | over every run a cache holds what it held before or the value of a body, empty only if that recorded no parse error or no request could be made |
| Refreshes.EmptyCertificatesBankedIff | src/backends/scc/adapter.ts:326-378 | an empty certificate list is banked iff every record is well formed, names a known device and enrolls nothing with an expiry |
| Refreshes.AllMissIsThrown | src/backends/scc/adapter.ts:356-378 | a response that names unknown devices only is a failed refresh |
| Refreshes.CertificateCacheIsNeverWiped | src/backends/scc/adapter.ts:326-378 | over every run the certificate cache holds what it held or the entries of some response that was not all misses, and an open adapter empties it only by a response silent throughout |
| Refreshes.AllMissesNeverReplace | src/backends/scc/adapter.ts:356-378 | on an open adapter no run of failures and of responses that name unknown devices only changes it |
| Refreshes.NothingIsBankedBeforeInventory | src/backends/scc/adapter.ts:312-378 | with no inventory yet only a response without records is banked, so the join is tried again |
| Refreshes.NoLicenseBankedIff | src/backends/shared/license-map.ts:24-128 | the absence of a license is banked iff the response lists none |
| Refreshes.LicenseCacheIsNeverWiped | src/backends/scc/adapter.ts:274-310 | over every run the license cache holds what it held or the status of some response; only a response that lists none or a closed adapter empties it |
| License.LicenseFields | src/backends/shared/license-map.ts:65-128 | every detail comes from its own field, a faulty one is left out, and no error is reported iff none is faulty and there is one record |
| Refreshes.InventoryKnows | src/backends/scc/adapter.ts:346-362 | a certificate id names the device of the last inventory entry that has it, and none if no entry has it |
| Refreshes.DiscoveryKnows | src/backends/fmc/adapter.ts:320-340 | the same of the discovered devices, by their own id |
| LastGoodClass.RefreshCache.RefreshIfDue | src/backends/shared/refresh-cache.ts:46-63 | joins, declines or starts a fetch, as the machine |
| LastGoodClass.RefreshCache.FetchReturned | src/backends/shared/refresh-cache.ts:37-44 | a success replaces value and time, a failure neither; either way the promise settles as JoinedCallsGetTheLastGoodValue says |
| LastGoodClass.RefreshCache.Finally | src/backends/scc/inventory.ts:63-69 | the later callback clears the slot only if it still holds this refresh |
| LastGoodClass.RefreshCache.AwaitRefresh | src/backends/shared/refresh-cache.ts:37-63 | an awaited refresh starts a fetch or joins the running one, and leaves the slot free |
| LastGoodClass.FmcDeviceDiscovery.GetDevices | src/backends/fmc/discovery.ts:301-338 | the discovery cache is the same machine and answers at once with the cached list when not due |
| LastGoodClass.FmcDeviceDiscovery.DiscoveryReturned | src/backends/fmc/discovery.ts:301-320 | the same for the device list: the promise settles with the new list, or with the one cached if the discovery failed |
| Refreshes.SccAdapter.RefreshCaches | src/backends/scc/adapter.ts:563-580 | at the end of a poll every cache refreshes or joins, whatever became of the others, and certificates join the inventory just refreshed |
| Refreshes.FmcAdapter.RefreshCaches | src/backends/fmc/adapter.ts:626-632 | the same with certificates joined against the discovered devices |
| PollLoop.StepKeepsInv | src/poller/poller.ts:235-335 | every segment keeps cache, gauges, counters and next delay equal to what the history implies |
| PollLoop.PollerShowsItsHistory | src/poller/poller.ts:204-335 | over every run the cache is the last success, up the last completed outcome, and the next delay follows the failure count |
| PollLoop.EmptyCycleFailsIff | src/poller/poller.ts:240-263 | a resolved zero-device cycle fails iff a non-inventory parse error was recorded since the last live cycle that resolved; a rejected one hands its count on |
| PollLoop.EmptyCycleMisjudgedIff | src/index.ts:163-179 | an empty cycle is judged otherwise than by its own health responses iff none of them was at fault but license, certificate or earlier health errors are pending, and then it fails |
| PollLoop.HiccupFailsAHealthyPoll | src/index.ts:163-179 | from any sleeping state with nothing pending one such error fails the next empty poll, an inventory error does not |
| PollLoop.NothingCommittedAfterAbort | src/poller/poller.ts:235-335 | after abort nothing is ever committed |
| PollLoop.CacheNeverEmptiesAgain | src/poller/poller.ts:264-300 | a filled cache stays filled and changes only to what a cycle resolved with |
| PollLoop.BackoffIsMonotoneIff | src/poller/poller.ts:204-209 | the delay never shrinks with more failures iff the interval does not exceed the cap |
| PollLoop.EachFailureDoublesTheWait | src/poller/poller.ts:204-209 | over every run the wait after a rejected cycle is twice the one before it, up to the cap, and the first failure doubles the interval |
| PollLoop.SuccessRestoresTheInterval | src/poller/poller.ts:264-335 | after a success the wait is the interval again, whatever failed before |
| PollLoop.FirstWaitIsJitter | src/poller/poller.ts:315-317 | the first wait is a random part of a tenth of the interval |
| PollLoop.RejectionsAreCountedByReason | src/poller/poller.ts:182-185 | a rejection is counted under its own reason, or as unknown if it is not a known one |
| PollerClass.ParseErrorTracker.ConsumeSinceLastCycle | src/poller/poller.ts:106-118 | returns the count and resets it |
| PollerClass.OnParseError | src/index.ts:163-179 | inventory parse errors do not reach the tracker |
| PollerClass.Poller.WakeUp | src/poller/poller.ts:315-335 | the loop head begins a cycle unless aborted |
| PollerClass.Poller.FetchResolvedWith | src/poller/poller.ts:240-290 | the rest of a resolved cycle is the machine's step |
| PollerClass.Poller.FetchRejectedWith | src/poller/poller.ts:290-313 | the catch block of a cycle is the machine's step |
| FmcMap.OnlyItsOwnGroupAndDevice | src/backends/fmc/map.ts:49-209 | a family result fills at most its own group and never with another device's data |
| FmcMap.AcceptedItemsAreMapped | src/backends/fmc/map.ts:104-209 | an accepted item's start and end are the item's own, its group is the family's, and every fault is reported once against device and family |
| FmcMap.OtherResponsesAreEmpty | src/backends/fmc/map.ts:49-128 | an absent family is empty without error; anything else not about this one device is one parse error and nothing more |
| FmcMap.MergeFmcFamilies | src/backends/fmc/map.ts:233-298 | the merge loop is the fold of groups, window and errors; nothing contributed means no snapshot |
| FmcMap.GroupsAre | src/backends/fmc/map.ts:233-298 | the merged groups are those of the one result that has each |
| FmcMap.WindowIs | src/backends/fmc/map.ts:256-275 | the merged window is the greatest end with the start of a result that has it |
| FmcMap.GroupsAndEndInAnyOrder | src/backends/fmc/map.ts:233-298 | the merged groups and window end do not depend on completion order |
| FmcMap.MergeIsOrderIndependent | src/backends/fmc/map.ts:233-298 | nor does the start if the results with the greatest end agree on it |
| FmcMap.MergeIsOrderIndependentIff | src/backends/fmc/map.ts:256-298 | the merge is the same in every order iff there is no snapshot or the results with the greatest end agree on the start |
| FanOut.BuildSnapshots | src/backends/fmc/adapter.ts:583-618 | pushing results per device as tasks complete and merging gives the snapshots of the devices in order, and reports the parse errors device by device |
| FanOut.GroupsOfADeviceAreDisjoint | src/backends/fmc/adapter.ts:586-618 | one request per device and family fills each group once |
| FanOut.OnlyStartsCanDiffer | src/backends/fmc/adapter.ts:583-618 | whatever the completion order, the same devices get snapshots with the same groups and window ends |
| FanOut.SnapshotsAreOrderIndependentIff | src/backends/fmc/adapter.ts:583-618 | a poll's snapshots are the same in every permutation of its completions iff each device has no snapshot or its newest results agree on the start |
| FanOut.EachDeviceGetsItsOwnSnapshot | src/backends/fmc/adapter.ts:603-618 | the devices get their snapshots in order, except those no request had data for: each under its own id and name, with every group as the one request that has it answered and the newest window |
| FanOut.EveryErrorIsReported | src/backends/fmc/adapter.ts:603-612 | a parse error is reported iff a request for a device of the poll recorded it |
| GaugeStore.CountIsExactIff | src/metrics/collector.ts:64-93 | the reported count never exceeds the stored series and falls short iff two share a key |
| GaugeStore.JsonCountIsExact | src/metrics/inventory-collector.ts:53-70 | under the JSON key the count is always exact |
| GaugeStore.CommaCountIsExact | src/metrics/collector.ts:73-93 | under the comma key it is exact when no label value contains a comma |
| GaugeStore.Renderer.Reset | src/metrics/collector.ts:60-74 | nothing rendered before survives |
| GaugeStore.Renderer.Set | src/metrics/collector.ts:76-93 | a set replaces the series' value, numbers its gauge by first use and records its key |
| SeriesKeys.CommaKeyParses | src/metrics/collector.ts:83-92 | a comma key parses back to its gauge and labels when no value contains a comma |
| SeriesKeys.JsonKeyParses | src/metrics/inventory-collector.ts:66-69 | a JSON key parses back to its gauge and labels, whatever they contain |
| Collector.SetStates | src/metrics/collector.ts:226-279 | writes every state of a set, 1 for the active one |
| Collector.RenderSnapshot | src/metrics/collector.ts:95-286 | one device's gauges are written in the code's order; what they then show is GaugesShowTheLastField |
| Collector.RenderDeviceMetrics | src/metrics/collector.ts:54-291 | after a render the gauges are a function of the snapshots alone, whatever was there before: the one GaugesShowTheLastField and EverySeriesShowsAField determine |
| StateSets.StateSetsFollowTheLastReport | src/metrics/collector.ts:226-279 | a subject's state series are exactly one per state, valued by the last report about it, and absent without one |
| StateSets.HaDevicesHaveFiveStates | src/metrics/collector.ts:226-251 | every HA device has exactly five status series, exactly one of them 1, even with duplicates |
| StateSets.TunnelsHaveThreeStates | src/metrics/collector.ts:262-279 | every tunnel has exactly three state series, exactly one of them 1, even with duplicates |
| CollectorReadings.EveryValueIsTheLastSaid | src/metrics/collector.ts:54-291 | every series of every gauge holds the last value any snapshot states for it, and is absent if none does |
| GaugeValues.GaugesShowTheLastField | src/metrics/collector.ts:95-286 | for every gauge and everything it can be about, the value is that of the last snapshot field that states one: percent / 100, ms / 1000, UP 1 and DOWN 0, a state set 1 at its word, an info 1; and absent if none does |
| GaugeValues.EverySeriesShowsAField | src/metrics/collector.ts:95-286 | and every series stored is one of those |
| SeriesCount.EverySeriesHasItsDevice | src/metrics/collector.ts:60-287 | every series carries the labels of a device in the snapshots, so a device that left them leaves the gauges |
| SeriesCount.CollectorCount | src/metrics/collector.ts:64-93 | the count never exceeds the series and is exact if no string of a snapshot contains a comma, a label name and an equals sign in a row |
| SeriesCount.SameDeviceKeyIff | src/metrics/collector.ts:88-92 | two devices' labels share a comma key iff they are equal or one's name takes in the text of the other's next label |
| SeriesCount.CountedAsOneIff | src/metrics/collector.ts:64-93 | a poll of two devices with a disk reading each is counted one short iff one splits the other so |
| SeriesCount.DisksNeverCountedTogetherIff | src/metrics/collector.ts:88-92 | among polls of two devices with a disk reading each, no other device is counted together with one iff neither its name nor its uid contains ",device_uid=" |
| SeriesCount.PollIsCountedRightIff | src/metrics/collector.ts:64-93 | a poll's count is the number of its series iff no two of its snapshots, nor one with itself, have different series of one gauge with one text |
| SeriesCount.NeverCountedTogetherIff | src/metrics/collector.ts:64-93 | over all gauges, no mapped snapshot can be counted together with this one iff each of its series reads alone, by the markers its label values hold |
| SeriesCount.AlonePollsAreCountedRight | src/metrics/collector.ts:64-93 | a poll whose snapshots but one read alone is counted right iff that one is right by itself |
| SeriesCount.InterfacesCanBeCountedAsOne | src/metrics/collector.ts:133-138 | wherever an interface id holds ",interface=" another device's interface is counted as one with it |
| SeriesCount.NoUidMarkerIsNeeded | src/metrics/collector.ts:88-92 | two such snapshots in which no name or uid holds ",device_uid=" |
| Topics.UnambiguousIff | src/metrics/collector.ts:82-138 | a series of any gauge has a text of its own iff no label value holds a marker before or behind it, and an interface's name and type cannot be taken apart |
| Topics.TypedInterfacesAreAmbiguous | src/metrics/collector.ts:133-138 | an interface with a type shares its text with an untyped one |
| Topics.InterfaceAloneIff | src/metrics/collector.ts:133-138 | that condition spelled out for an interface, with the optional type and the name fallback |
| Topics.AloneNeedsItsDevice | src/metrics/collector.ts:95-119 | for series by device, component or tag it is a condition on the device's name and uid alone |
| SnapshotTopics.SeriesHasATopic | src/metrics/collector.ts:95-286 | every series of a snapshot carries the labels of something in it |
| SnapshotTopics.EveryTopicIsSaid | src/metrics/collector.ts:95-286 | every label set a gauge can have is rendered for some snapshot the mappers make |
| KeyText.LabelsReadBackIff | src/metrics/collector.ts:88-92 | for label lists of any length, no other values with the same names give the text iff no value holds the next label's marker or, behind another label, its own |
| KeyText.ReadsBackIff | src/metrics/collector.ts:88-92 | the same with values that must not be empty and markers that may be one of several |
| CertificateCount.CertificateCountIff | src/metrics/certificate-collector.ts:31-69 | the certificate count is the number of series iff no two entries with different labels share a text |
| CertificateCount.ReadsAloneIff | src/metrics/certificate-collector.ts:31-69 | no certificate of a known device shares this one's text iff its name and its device's hold no marker of a neighbour |
| CertificateCount.ClearEntryIff | src/metrics/certificate-collector.ts:31-69 | that condition spelled out in name, device name and uid |
| SeriesCount.CommasCanHideADevice | src/metrics/collector.ts:88-92 | two snapshots whose render stores two series and counts one |
| InventoryCollector.ConnectivityFollowsTheLastEntry | src/metrics/inventory-collector.ts:106-115 | a device's connectivity is that of its last entry that states one, and absent if none does |
| InventoryCollector.EverySeriesDescribesAnEntry | src/metrics/inventory-collector.ts:80-160 | the gauges hold exactly the series whose labels describe an entry of the list, or one of its HA nodes, each info series as 1 |
| InventoryCollector.RenderDeviceInventoryMetrics | src/metrics/inventory-collector.ts:36-167 | the gauges are a function of the entries alone and the count is the number of stored series |
| Certificates.AddComponent | src/backends/shared/certificate-map.ts:132-203 | a component is skipped, reported, or kept unless its key was seen on this record |
| Certificates.MapDeviceCertificatesResponse | src/backends/shared/certificate-map.ts:52-208 | the nested loops compute the mapping the theorems are about |
| CertificateEntries.EntriesAreTheFirstToEnroll | src/backends/shared/certificate-map.ts:73-204 | the entries of a response are exactly the applicable components of records of known devices, each unless an earlier certificate of its record took its name and type |
| Certificates.DifferentDevicesNeverCollide | src/backends/shared/certificate-map.ts:73-204 | records filed under different devices never yield two entries with the same labels |
| Certificates.InjectiveLookupNeverCollides | src/backends/shared/certificate-map.ts:73-204 | distinct ids and an injective lookup are enough |
| Certificates.NeverCollideIff | src/backends/shared/certificate-map.ts:114-193 | records are free of collisions, whatever they enroll, iff no two resolve to one device |
| Certificates.NothingIsOverwritten | src/metrics/certificate-collector.ts:46-67 | entries with distinct labels are rendered as two series each: the expiry in seconds and the status as a label, under name, type and device |
| Certificates.EveryExpiryIsShown | src/metrics/certificate-collector.ts:31-69 | from the wire to the gauges no expiry or status is lost when devices differ |
| Certificates.RenderCertificateMetrics | src/metrics/certificate-collector.ts:21-70 | the gauges are a function of the entries, the count is that of their texts and equals the stored series without commas |
| Calendar.YearLength | src/backends/shared/license-time.ts:36-45 | consecutive new years are 365 or 366 days apart by the leap rule |
| Calendar.InstantRoundTrip | src/backends/shared/license-time.ts:36-45 | every instant is the one its UTC components name |
| Calendar.ComponentsRoundTrip | src/backends/shared/license-time.ts:36-45 | components of a real date and time are those of the instant they name |
| Timestamps.CheckedIff | src/backends/shared/license-time.ts:30-46 | the round-trip check keeps an answer iff the fields name a real instant, however the engine rolls bad days over |
| Timestamps.LicenseTimestampIff | src/backends/shared/license-time.ts:12-47 | a license timestamp is accepted iff it has the shape and names a real instant, and prints back to itself |
| Timestamps.CertificateExpiryIff | src/backends/shared/certificate-time.ts:14-48 | the same for a certificate expiry with or without seconds |
| Timestamps.PrintedLicenseParses | src/backends/shared/license-time.ts:12-47 | every real instant of the years 0 to 9999, printed, parses to itself |
| Timestamps.PrintedExpiryParses | src/backends/shared/certificate-time.ts:14-48 | the same in the certificate format |
| Packing.PlacePanel | scripts/generate-dashboard.ts:1587-1602 | one panel continues its shelf, flush to the panel before, or opens the next when it would not fit |
| Packing.PlaceRow | scripts/generate-dashboard.ts:1575-1607 | a header rests on the lowest panel before it and its panels follow without a gap |
| Packing.BuildPanels | scripts/generate-dashboard.ts:1575-1607 | no two panels overlap, ids are 1..n, all specs appear in order, a shelf opens exactly at and after headers and where a panel would not fit and rests on the lowest panel above, and all is inside the grid iff no panel is wider than it |
| Packing.OneLayout | scripts/generate-dashboard.ts:1575-1607 | which leaves no choice: two such layouts of the same panels are equal |
| Sanitizer.HexRoundTrip | src/util/sanitize.ts:36-39 | padded hexadecimal reads back and has 12 digits iff the number fits |
| Sanitizer.PlaceholdersAreDistinct | src/util/sanitize.ts:36-39 | different numbers have different placeholders |
| Sanitizer.PlaceholderShape | src/util/sanitize.ts:36-39 | a placeholder is UUID-shaped while its number has 12 hexadecimal digits |
| Sanitizer.SweepReplaces | src/util/sanitize.ts:78-86 | the pass replaces each match by its key's placeholder, touches nothing else and keeps every character's class |
| Sanitizer.RescanFindsOnlyPlaceholders | src/util/sanitize.ts:23-86 | rescanning the output matches at the same positions and finds only placeholders |
| Sanitizer.ConsistentAcrossCalls | src/util/sanitize.ts:69-86 | across any strings given to one instance, UUIDs get the same placeholder iff they are equal up to case |
| Sanitizer.KeysIgnoreCase | src/util/sanitize.ts:78-86 | keys are equal exactly for strings that are, up to the case of their letters |
| Sanitizer.Ipv4PlaceholdersRepeatIff | src/util/sanitize.ts:41-45 | IPv4 placeholders repeat exactly every 254 addresses |
| Sanitizer.Sanitizer.PlaceholderFor | src/util/sanitize.ts:78-86 | a new key gets the next number from the map's size, a known one its own |
| Sanitizer.Sanitizer.SanitizeUuids | src/util/sanitize.ts:78-86 | the left-to-right replacement is the sweep the theorems are about |
| Lifecycle.RunKeeps | src/lifecycle.ts:111-141 | every interleaving keeps exits, timers and progress consistent with what was asked and settled |
| Lifecycle.ExitsOncePerSequence | src/lifecycle.ts:111-141 | exit is called only by the sequences begun, and at most once by each |
| Lifecycle.ArmedUntilItExits | src/lifecycle.ts:111-136 | a sequence exits with 1 if its timer won and else with its own code, and until then its timer is armed |
| Lifecycle.ExitsOnceWithTheFirstCode | src/lifecycle.ts:111-141 | without a nested call exit is called at most once, with 1 or the first call's code |
| Lifecycle.ExitsAtMostOnceIff | src/lifecycle.ts:111-141 | over all interleavings exit is called at most once iff no shutdown was called before the first promise was stored |
| Lifecycle.EveryTargetIsAttempted | src/lifecycle.ts:99-136 | settled steps, failed or not, move on to the next target until the server, the poller and the backend were attempted |
| Lifecycle.LifecycleController.Shutdown | src/lifecycle.ts:138-141 | a later call joins the first; calls nested before the promise is stored begin sequences of their own |
| Lifecycle.LifecycleController.RunShutdownSequence | src/lifecycle.ts:111-124 | arms the timer and calls server.stop(), which may call back |
| Lifecycle.LifecycleController.HardExitTimerFired | src/lifecycle.ts:114-122 | an armed timer that fires exits with 1 and is recorded |
| Lifecycle.LifecycleController.StepSettled | src/lifecycle.ts:99-129 | a settled step starts the next one in order |
| Lifecycle.LifecycleController.SequenceEnded | src/lifecycle.ts:131-134 | the end of the sequence disarms the timer and exits only if it has not fired |

## Left out

- The network, TLS, agents and the authentication transport: a transport is an arbitrary answer.
- Floating-point clocks and late timers: instants are reals, and Spacing and Budget speak of reserved and read instants, not of when a timer wakes.
- prom-client itself: a gauge is a map from label sets to values. The unknown-enum counter and poll-duration metrics are not modelled.
- JSON parsing and the readers of optional wire fields: the model starts from parsed values. The field-by-field inventory, group and interface mappers are one-branch facts.
- Error messages and log lines: errors keep class, reason and status; parse errors keep their kind and order only where a method names them.
- UTF-16 code units: Dafny characters are Unicode scalar values, so the escapes JSON uses for lone surrogates do not arise.
- Retry: time passes only in hooks, requests and sleeps, not between the statements of an attempt; the random draw is any number in [0, 1).
- RetryAfter: what Date.parse makes of a string is a parameter.
- Timestamps: what the Date engine makes of fields that name no real instant is left open; for real ones it is taken to be right.
- Budget: fairness among competing waiters is not claimed, since the guard is not first-in first-out; only a lone waiter's progress is.
- TokenManager: the token-expiry hook on the wall clock, the choice of headers and the init-time domain resolution.
- Refreshes: init and close of the adapters; the inventory mapper, whose wire is a parameter; and the flights of other callers while one waits, which the step machine covers.
- FanOut: the concurrency of the tasks inside the limiter.
- FanOut.SnapshotsAreOrderIndependentIff: is about all permutations, which come about for each device while the limiter has a slot for each of its families, as by default (five and five); with fewer slots the condition stays sufficient but need not be necessary.
- SeriesCount.NeverCountedTogetherIff: is about snapshots as the mappers make them, with ids and names that are not empty (src/backends/shared/numbers.ts:49-61) and numbered fans and power supplies (src/backends/shared/groups.ts:110-165); PollIsCountedRightIff is about all.
- Discovery: the domain path, the query string and the abort signal.
- PollLoop: the source of the startup jitter and the failing-hook guards around each side effect.
- Collector.RenderDeviceMetrics: label names are written in sorted order instead of being sorted, and the guarded sets of one part of a snapshot are a list of readings.
- Sanitizer: the exact-replacement pass, the IPv4 pattern with its look-ahead, and the walk over nested objects; of IPv4 only the numbering of placeholders is modelled.
- Packing: panel contents and PromQL text.
- Lifecycle: installing signal handlers, and process.exit not returning.
- Configuration, command line, HTTP server, single-flight rendering in src/server/routes.ts, license collector and the other scripts: plumbing or members no harder than those above.

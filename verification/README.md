# ExactSurface: decision logic, modelled and proved

ExactSurface scans continuously. This project models the parts of it that decide: how fast a
target may be contacted, in which order a workflow runs, which modules run, what may be done to
a host, which jobs are due, how a run progresses, and what is stored and announced. Everything
the program does through a network, a database driver, a subprocess or a clock enters as a
parameter: an oracle for what happens next, a map for what is stored, a number for the time.

One file per component; `dafny verify dfyconfig.toml` checks them all.

| file | models |
|---|---|
| `RateLimit.dfy`, `Fleet.dfy` | token bucket, in-memory and Redis stores, waiting, subprocess rates; degraded fleets |
| `Playground.dfy`, `WorkflowRunner.dfy` | workflow validation, topological order, the runner |
| `Modules.dfy` | module dependencies and toggles |
| `Scope.dfy`, `Authority.dfy`, `ScopeFeed.dfy` | scope decisions, confirmation of ranges, the CDN and cloud feed |
| `ParamDiscovery.dfy` | adaptive bisection of parameter names |
| `ScanRuns.dfy` | the run trail and its reaper, the stage machine of a full run |
| `Scheduler.dfy` | cadence, planning, last-run state, runs of ticks |
| `Repository.dfy`, `Notify.dfy` | idempotent upserts, flags, runs of the store; which alerts are sent |
| `Pump.dfy`, `AlertPolicy.dfy` | splitting a stream into lines, the port-filter language |
| `Ordering.dfy`, `Splitting.dfy`, `Powers.dfy`, `Wrappers.dfy` | string order and sorting, cutting and joining, powers of two, results |

## Where the code and its documentation differ

The model follows the code. Each difference is stated with the exact condition under which the
promise holds.

* A cyclic workflow is said to be refused with a node of the cycle. The node named is the first
  one that is on a cycle *or downstream of one*: `NamedNodeMayBeDownstream` gives a graph,
  `NamedNodeIsOnCycleIff` the condition.
* Loading the feed is said never to be less protective than the bundled file. It compares
  numbers of ranges, and the stored copy outlives the image that seeded it. So a range can be
  lost if a refresh replaces it, and also if a newer image adds it (`UpgradeLosesRange`).
  Nothing is ever lost exactly if every file bundled with a refresh so far covers, by the
  providers that the refresh does not fetch, all that the file in force covers:
  `NeverLessProtectiveIff`, for one address `AlwaysKnownIff` and `NeverPublicIff`.
* A fleet that loses the shared store is said to stay within the configured cap if the
  configured fleet size is at least the number of workers. In a total outage it does exactly if,
  besides, the burst has a token for each worker and no call waits for the shared store before
  it falls back: `CapHoldsIff`. A call that waited hands an old clock reading to its bucket, and
  the next call earns that time once more; the bounds count it (`LateRefill`). A fleet of which
  one worker is degraded is said to scan slower; it exceeds the cap, in burst and in sustained
  rate: `PartialOutageExceeds`.
* Alerts are said to go out highest severity first, a hundred at a time. The rank follows the
  enumeration, which starts with info, and the cut comes before the filter. No new document is
  passed over for a less severe one exactly if at most a hundred of the thousand listed have a
  known severity, or all of those the same, and nothing beyond the listed is graver:
  `MostSevereFirstIff`. Otherwise lesser findings can starve graver ones, for good if they never
  pass the filter: `LesserFindingsStarve`, `HundredInfosHideACritical`.
* The per-target rate of a subprocess is said to stay within its cap. The floor of one packet
  per second breaks that for small caps: `WithinCapIff`.
* The Redis script and the in-memory store are said to behave identically. Key expiry can be
  observed when the burst exceeds an hour of refill: `ExpiryIsInvisibleIff`. The limits that the
  application builds never do: `PerSecondNeverExpires`.
* `evaluate` parses every address twice and lets the second failure escape under the scope
  override: `Fails` in `Scope.dfy` is the exact condition, stated by `Evaluate`.

## Model

| member | source | states |
|---|---|---|
| `RateLimit.InMemoryBucketStore.Take` | core/ratelimit.py:212-220 | a take refills, decides and stores for its key alone |
| `RateLimit.AvailableIsLeastHeadroom` | core/ratelimit.py:193-220 | the tokens on hand are the least of the burst and of one line of slope `rate` for each earlier admission, and one of these is attained |
| `RateLimit.TakeIsExact` | core/ratelimit.py:193-220 | on readings in order, an op is admitted iff it fits in the burst and, with everything admitted since each earlier admission, in burst plus refill |
| `RateLimit.WindowBound` | core/ratelimit.py:193-220 | on readings in order, no window ever admits more than the burst plus the refill of its length |
| `RateLimit.KeyIsolation` | core/ratelimit.py:206-220 | under any interleaving of keys, each key has the bucket of its own requests |
| `RateLimit.StoreAdmitsByKey` | core/ratelimit.py:206-220 | hence an admission depends on the key's own history only |
| `RateLimit.RedisBucketStore.Take` | core/ratelimit.py:242-265 | the script reads unexpired keys only, decides, and stores both keys for an hour |
| `RateLimit.RedisAdmitsTheSame` | core/ratelimit.py:242-265 | if the burst is at most an hour of refill the script admits exactly what the in-memory store admits |
| `RateLimit.ExpiryIsInvisibleIff` | core/ratelimit.py:242-265 | the two stores agree on all runs iff the burst is at most an hour of refill |
| `RateLimit.PerSecondIs` | core/ratelimit.py:52-54 | a limit of n a second lets n through at once, and a drained bucket what flows in at n a second, up to n |
| `RateLimit.PerSecondNeverExpires` | core/ratelimit.py:52-54 | they agree for every limit the application builds |
| `Fleet.DegradingBucketStore.Take` | core/ratelimit.py:334-341 | the divided local bucket is used iff the shared store raised; otherwise it is untouched and the shared answer stands |
| `Fleet.FleetSplits` | core/ratelimit.py:334-341 | a fleet under any pattern of outages is one shared bucket beside one local bucket for each process |
| `Fleet.LateBound` | core/ratelimit.py:193-220 | whatever the order of clock readings, a local bucket admits in a window at most its burst and the refill of the window and of the lags within it |
| `Fleet.SharesAddUp` | core/ratelimit.py:327-332 | the divided limits of N processes sum to burst max(N, burst) and the configured rate; those of fewer stay below |
| `Fleet.FallbackBound` | core/ratelimit.py:315-341 | all local buckets of any number of processes, each on its own clock, admit in a window at most their shares, and the refill of the lags |
| `Fleet.FleetBound` | core/ratelimit.py:315-341 | with any mix of outages and recoveries the fleet stays within one shared bound and those shares; with up to N processes within burst + max(N, burst) + 2 * rate * d and the refill of the lags |
| `Fleet.OutageBound` | core/ratelimit.py:305-309 | during a total outage the shared bound falls away |
| `Fleet.SharesBurstIff` | core/ratelimit.py:311-312 | the shares of w workers stay within the burst iff the fleet size is at least w and so is the burst |
| `Fleet.CapHoldsIff` | core/ratelimit.py:305-312 | w workers keep to burst + rate * d in every total outage iff the fleet size and the burst are at least w and no call lags, or nothing refills |
| `Fleet.PartialOutageExceeds` | core/ratelimit.py:308-309 | in a window of any length m degraded processes add m bursts and m / N of the rate to the full cap; all N reach the fleet bound |
| `RateLimit.WaitStep` | core/ratelimit.py:440-441 | one sleep lasts between a millisecond and a second |
| `RateLimit.SleepEarnsTheCostIff` | core/ratelimit.py:440-441 | it earns exactly the op's cost iff that takes between a millisecond and a second, and is the nearer of these bounds otherwise |
| `RateLimit.Acquire` | core/ratelimit.py:415-454 | terminates; returns at the first grant, or at the first refusal past the patience; never waits a step more than the patience |
| `RateLimit.RefusalsLeaveTheRefill` | core/ratelimit.py:415-454 | refused attempts of a lone caller leave the full refill of the time they span |
| `RateLimit.AloneIsGranted` | core/ratelimit.py:427-437 | a lone caller is granted its op if it fits in the burst and the patience covers its refill |
| `RateLimit.AcquireAlone` | core/ratelimit.py:415-454 | so the waiting loop, given the bucket's own answers, ends with a grant |
| `RateLimit.WithinCapIff` | core/ratelimit.py:63-89 | the per-target rate is within the cap iff cap times hosts is at least one; it is then the largest within cap and ceiling, and otherwise one packet |
| `Playground.Dependencies` | core/playground.py:344-346 | every node's pending set is the set of its predecessors |
| `Playground.Release` | core/playground.py:353-357 | striking off a placed node keeps pending sets and ready list exact |
| `Playground.PlaceNext` | core/playground.py:350-352 | popping the head of the sorted list places the least ready node |
| `Playground.GreedyIsFirst` | core/playground.py:349-358 | the order built so precedes every other topological order |
| `Playground.StuckExactly` | core/playground.py:360-361 | the nodes left over are exactly those on or downstream of a cycle |
| `Playground.Toposort` | core/playground.py:342-366 | returns iff the graph is acyclic, then the lexicographically least permutation with all wires forward; else names the least node on or downstream of a cycle |
| `Playground.NamedNodeIsOnCycleIff` | core/playground.py:343-365 | when the node named is indeed on a cycle |
| `Playground.NamedNodeMayBeDownstream` | core/playground.py:343-365 | a graph whose named node is on no cycle |
| `Playground.FindPort` | core/playground.py:315-316 | the first port of that name, if there is one |
| `Playground.FitsIff` | core/playground.py:313-325 | a wire fits iff both ends have a known type, the first sockets of the two names exist, and the kinds of data are the same or one is any |
| `Playground.CheckEdges` | core/playground.py:308-328 | accepts the wires iff each joins existing, compatible sockets and no input is wired twice; a refusal names a real defect |
| `Playground.CheckNode` | core/playground.py:330-337 | accepts a node iff its required inputs are wired and its required parameters given |
| `Playground.Validate` | core/playground.py:294-339 | accepts a graph iff it is well wired and acyclic, with its least run order; a refusal names a real defect |
| `WorkflowRunner.Incoming` | pipelines/playground.py:84-89 | the wiring table holds exactly the wires |
| `WorkflowRunner.RunNodes` | pipelines/playground.py:156-228 | every node ends skipped, failed or successful by its direct predecessors, and what ran ran on the outputs of its sources |
| `WorkflowRunner.DataflowRan` | pipelines/playground.py:167 | what a node that ran was handed: under each wired socket what the wire's source produced under the wire's source port, or nothing; and its outputs are what it made of that |
| `WorkflowRunner.StatusByAncestors` | pipelines/playground.py:127-133 | skipped iff some proper ancestor failed; run iff all of them succeeded |
| `WorkflowRunner.RunWorkflow` | pipelines/playground.py:115-235 | refused iff invalid or a Target node is used by a non-owner; else every node of the graph has such a status, and was handed, wire by wire, what its sources produced |
| `WorkflowRunner.FreeformHosts` | pipelines/playground.py:335-340 | collects the hosts of the wires drawn into a node, without repetition |
| `WorkflowRunner.OnlyDirectWiresWaive` | pipelines/playground.py:327-340 | a host is waived for a node iff it is among the hosts that a Target node produced under the source port of a wire straight from it |
| `WorkflowRunner.DedupKeepsOrder` | pipelines/playground.py:340 | first occurrences keep their places |
| `Modules.ApplyChoices` | core/modules.py:303-318 | the first pass enables exactly the chosen modules and gives the others the reason that applies |
| `Modules.Sweep` | core/modules.py:325-334 | a sweep drops only what no closed set can hold, and changes nothing once closed |
| `Modules.Resolve` | core/modules.py:288-336 | what runs is the greatest requirement-closed set of chosen modules, each essential or wanted and with all it needs; each other module is skipped with a true reason |
| `Modules.OrderIsIrrelevant` | core/modules.py:306-334 | the order of declaration does not matter |
| `Modules.EssentialsNeverOffIff` | core/modules.py:303-334 | in any registry, essential modules always run iff they need only essential modules |
| `Modules.ShippedIsRegistry` | core/modules.py:44-247 | the program's own table has distinct names and requires only what it declares |
| `Modules.ShippedEssentialsNeverOff` | core/modules.py:13-16 | in it, discovery and probing always run, whatever the user turns off |
| `Modules.Closure` | core/modules.py:262-269 | the worklist finds exactly the transitive consumers |
| `Modules.DependentsOf` | core/modules.py:255-270 | and returns them in the order of declaration |
| `Modules.DisablingCosts` | core/modules.py:255-336 | disabling a module that is not essential removes exactly it and its dependents |
| `Modules.DisablingEssentialIsIgnored` | core/modules.py:306-309 | disabling an essential module changes nothing |
| `Modules.SanitizingIsHarmless` | core/modules.py:339-342 | sanitising a stored list never changes what runs |
| `Scope.BlockIsPrefix` | core/scope.py:180-187 | a parsed network holds exactly the addresses that share its prefix bits |
| `Scope.SubnetIsSubset` | core/scope.py:470-473 | being a subnet is being a subset |
| `Scope.ParsedNetworks` | core/scope.py:180-187 | unparseable entries are dropped, the others kept |
| `Scope.ClassifyIp` | core/scope.py:257-288 | never dedicated; an unparseable address is denied; CDN ranges win over cloud ranges; PUBLIC means in neither |
| `Scope.ClassesByFlags` | core/scope.py:257-288 | every class from what ipaddress says of the address: the first special purpose that applies decides, 100.64.0.0 to 100.127.255.255 among them, and without any the CDN ranges before the cloud ranges |
| `Scope.UnderIsByLabels` | core/scope.py:146-152 | a host is owned iff the apex's labels end the host's labels |
| `Scope.ContactByLabels` | core/scope.py:146-152 | up to case and trailing dots, a host may be contacted iff an apex's labels end its labels, or the override is on, and no exclusion names it |
| `Scope.Judge` | core/scope.py:326-374 | what one address says: denied, raising, dedicated or shared |
| `Scope.Evaluate` | core/scope.py:291-395 | the decision depends on the set of addresses only, and follows from their flags; exactly when it raises; which class it reports |
| `Scope.DecisionsByFlags` | core/scope.py:291-395 | allowed iff the host may be contacted and every address parses, is not excluded and, unless overridden, is not special-purpose, private ones in lab mode aside; in full iff every one is overridden, such a private one, or outside the CDNs and shared by choice or dedicated |
| `Scope.GrantsAreMonotone` | core/scope.py:291-395 | grants shrink with more addresses or exclusions, and grow with more apexes, dedicated ranges, shared infrastructure or the override |
| `Scope.LinkLocalIsNeverReached` | core/scope.py:72-79 | corollary of `Evaluate`: the metadata address denies its host under every switch, lab mode included |
| `Scope.InternalPoisonsTheHost` | core/scope.py:329-343 | corollary: one internal address denies the host unless the override is on |
| `Scope.CdnStaysHttpOnly` | core/scope.py:359-366 | corollary: one CDN address keeps the host to the HTTP layer whatever is dedicated or shared |
| `Authority.ConfirmIpScope` | core/scope.py:435-493 | exactly the requested ranges that start at no internal address are recorded; of these exactly those that start outside the CDNs and lie in an announced range come out confirmed, the others with their class, the HTTP layer and the reason; in the order of the request |
| `Authority.Reparses` | core/scope.py:487 | a recorded network reads back as itself |
| `Authority.ConfirmAuthorization` | pipelines/orchestrate.py:90-134 | whatever an authorization claims, only requested and confirmable ranges count; without ASN data none does; internal ones are dropped |
| `Authority.RecordDecides` | pipelines/orchestrate.py:58-79 | under any record, port and active scanning are granted iff the host is owned, not excluded, and each address, of at least one, is routable, outside the CDNs and exclusions, and in a confirmed range |
| `Authority.AuthorizeHost` | pipelines/orchestrate.py:722-731 | a full run end to end, from record and announcements to the verdict on a host: refused without a verified and unrevoked authorization, else decided by the flags of the addresses under the program's own scope, with exactly the confirmable ranges dedicated; in strict mode granted iff every address is scannable |
| `Authority.StoredRecord` | pipelines/orchestrate.py:90-134 | a stored record dedicates exactly what its last confirmation found confirmable, among what was requested and no confirmation dropped |
| `Authority.StoredScanIsConfirmed` | pipelines/dispatch.py:183-203 | what a phase dispatched later may port-scan was announced at the last confirmation and is in no CDN range of the feed in force now |
| `Authority.ScannableIsAnnouncedAndNoCdn` | core/scope.py:345-395 | a scannable address is announced by the apex's network and in no CDN range, even where a confirmed range encloses one |
| `Authority.FreeformIsHttpOnly` | pipelines/playground.py:92-112 | typed hostnames open exactly the hosts under them that are not excluded, at the HTTP layer, and a port scan iff all addresses are private, in lab mode |
| `ScopeFeed.ValidateFeed` | scripts/update_scope_feeds.py:104-125 | accepts iff each managed provider has ranges and no provider disappears or loses over 30 percent; a rejection names a real defect |
| `ScopeFeed.BuiltKeepsUnmanaged` | scripts/update_scope_feeds.py:72-97 | building a feed keeps the unmanaged providers word for word |
| `ScopeFeed.ScopeFeedRepo.Refresh` | scripts/update_scope_feeds.py:176-196 | a refresh merges onto the preferred copy and stores it, or leaves the copy alone |
| `ScopeFeed.UnmanagedSurvive` | scripts/update_scope_feeds.py:72-196 | over any run of refreshes, each with its own bundled file, the copy holds the unmanaged providers of the last seeding image word for word |
| `ScopeFeed.LoadedProviders` | db/scope_feed.py:67-102 | a process loads its own bundled file or those providers, and never fewer ranges than its file has |
| `ScopeFeed.FromFeed` | core/scope.py:228-242 | the engine holds the ranges of each class of provider |
| `ScopeFeed.BuildScopeEngine` | db/scope_feed.py:67-102 | the engine is built from the preferred copy |
| `ScopeFeed.CoveredByClass` | core/scope.py:237-242 | an address is in a class's ranges iff some provider of the class covers it |
| `ScopeFeed.CoverageClassifies` | core/scope.py:257-288 | a routable address is PUBLIC iff no provider covers it, and CDN iff a CDN provider does |
| `ScopeFeed.RefreshedClassifies` | scripts/update_scope_feeds.py:72-97 | in a refreshed feed Cloudflare's and CloudFront's ranges are CDN, the other fetched ones shared cloud, and the unmanaged providers' as before |
| `ScopeFeed.AlwaysKnownIff` | db/scope_feed.py:67-102 | whatever is fetched, an address stays known iff the file in force covers it and so do the unmanaged providers of every file a refresh ran with |
| `ScopeFeed.NeverPublicIff` | db/scope_feed.py:67-102 | on the same condition it is never PUBLIC, and always a CDN's, in the engine built |
| `ScopeFeed.UnmanagedNeverPublic` | scripts/update_scope_feeds.py:75-78 | an address of an unmanaged provider that every image bundles is never PUBLIC, nor CLOUD_SHARED if the provider is a CDN |
| `ScopeFeed.JunkIsAccepted` | scripts/update_scope_feeds.py:104-125 | a refresh may replace the managed ranges by as many that cover nothing |
| `ScopeFeed.NeverLessProtectiveIff` | db/scope_feed.py:70-102 | loading never drops what the file in force covers iff the unmanaged providers of every file a refresh ran with cover all of it |
| `ScopeFeed.UpgradeLosesRange` | db/scope_feed.py:76-102 | an upgrade whose added unmanaged range is lost to a copy seeded by the image before |
| `ParamDiscovery.Stable` | modules/scanning/params.py:199-213 | same status, and lengths within four kilobytes or a ratio of 50 to 49 |
| `ParamDiscovery.Chunks` | pipelines/param_discovery.py:198-201 | the batches are the candidates in order, cut to size |
| `ParamDiscovery.Bisect` | pipelines/param_discovery.py:196-226 | terminates for any replies within 2m - 1 requests for each batch; on honest replies finds only accepted names, all of them in reverse order if no request failed, and else misses only names in failed batches |
| `ParamDiscovery.CostIsLogarithmic` | pipelines/param_discovery.py:202-224 | a batch of m names, k accepted, costs at most 1 + 2k ceil(log2 m) requests |
| `ParamDiscovery.TotalCostIsLogarithmic` | pipelines/param_discovery.py:198-224 | and so for all batches together |
| `ParamDiscovery.CeilLog2IsLogarithm` | pipelines/param_discovery.py:223 | the bound is the rounded-up logarithm |
| `ParamDiscovery.ProbeUrl` | pipelines/param_discovery.py:152-226 | a URL is fully probed iff baseline and control arrived, agree, and no request failed; then the names classified are exactly the accepted candidates; without the first three nothing is asked |
| `Pump.SplitAppend` | modules/exec.py:138-149 | later text only continues the last piece |
| `Pump.Pump` | modules/exec.py:132-154 | however the stream is cut, the sink gets the decoded lines of the whole, in order |
| `Pump.LinesKeepEverything` | modules/exec.py:144-154 | the lines joined again are the text, up to a final newline |
| `AlertPolicy.ReadsBack` | core/alert_policy.py:57-59 | a number printed reads back as itself |
| `AlertPolicy.NumberIff` | core/alert_policy.py:57-59 | a text reads as n iff it is the decimal form of n, leading zeros aside |
| `AlertPolicy.ReadsAsIff` | core/alert_policy.py:54-59 | a token reads as a range iff it is one such numeral, or two with a dash between, of ports from 1 to 65535 |
| `AlertPolicy.ShownParses` | core/alert_policy.py:54-59 | a normal token reads back as its range |
| `AlertPolicy.OnlySpacesGo` | core/alert_policy.py:51 | spaces, and nothing else, are dropped |
| `AlertPolicy.DenotedByTokens` | core/alert_policy.py:51-59 | a range is denoted iff some token reads as it |
| `AlertPolicy.CleanPortSpec` | core/alert_policy.py:47-60 | the cleaned specification prints the ranges of the valid tokens, in order |
| `AlertPolicy.PrintedDenotes` | core/alert_policy.py:47-60 | a cleaned specification denotes what it printed, and is empty iff nothing is valid |
| `AlertPolicy.CleaningIsIdempotent` | core/alert_policy.py:47-60 | cleaning keeps the meaning and is idempotent |
| `AlertPolicy.TokenHolds` | core/alert_policy.py:69-77 | a token holds a port iff its range does, in either order of its bounds |
| `AlertPolicy.PortMatches` | core/alert_policy.py:63-78 | a port matches iff no token is valid or some valid token's range holds it |
| `ScanRuns.ScanRunRepo.ReapStale` | db/audit.py:192-238 | closes out exactly the runs in flight begun longer ago than allowed, failing the running stage and skipping those not begun, and counts them |
| `ScanRuns.ReapedIsOver` | db/audit.py:211-235 | a reaped run and its stages are over; a second sweep changes nothing |
| `ScanRuns.ReapingIsInvisible` | db/audit.py:70-159 | reaping changes neither the active nor the recently cancelled run that planning sees |
| `ScanRuns.FullRun.AwaitStage` | pipelines/orchestrate.py:192-230 | terminates within the budget, by the time it counts, with the first thing that happens; writes the run as it is once for each quiet tick |
| `ScanRuns.AwaitedComesTo` | pipelines/orchestrate.py:192-230 | the first tick within the budget that is not quiet decides: its return, its failure, a stop or a kill |
| `ScanRuns.TimesOutIff` | pipelines/orchestrate.py:207-227 | a stage times out iff all ticks that begin within its budget are quiet |
| `ScanRuns.PassedByTicks` | pipelines/orchestrate.py:585-666 | a stage got past is SKIPPED if off or if it says so, SUCCESS if it returned, FAILED if it raised or timed out |
| `ScanRuns.FullRun.CallOff` | pipelines/orchestrate.py:558-573 | a stop calls off exactly the stages not begun |
| `ScanRuns.FullRun.TakeStage` | pipelines/orchestrate.py:577-666 | takes the run past one stage or ends it there, keeping every write well formed, with exactly the writes of its beginning, heartbeats and end |
| `ScanRuns.FullRun.Execute` | pipelines/orchestrate.py:535-691 | every write of a running run shows stages done, at most one running, the rest not begun, and no disabled stage running; all stages are over on return; FAILED iff some stage failed, CANCELLED from the stage where a stop was seen with no later stage begun, else SUCCESS; each stage ends by its first tick that is not quiet; the list of all writes |
| `Scheduler.BuiltInIsTable` | taskqueue/cadence.py:17-50 | the built-in table names distinct pipelines, none of them faster than the minimum interval |
| `Scheduler.SanitizeOverrides` | taskqueue/cadence.py:63-77 | keeps exactly the known pipelines with a usable interval, raised to the floor |
| `Scheduler.MergeCadence` | taskqueue/cadence.py:80-93 | overlaying the three dictionaries gives each pipeline its most specific usable interval: the program's override, else the tenant's, else the built-in one, raised to the floor |
| `Scheduler.CadenceRespectsFloor` | taskqueue/cadence.py:63-93 | no override goes below the floor |
| `Scheduler.ScheduleKeyInjective` | db/schedule.py:14-15 | programs and pipelines do not share last-run state |
| `Scheduler.PlanPhases` | taskqueue/scheduler.py:190-220 | appends the first due phases that the tenant's cap leaves room for |
| `Scheduler.Plan` | taskqueue/scheduler.py:130-223 | the plan of the specification, counters included |
| `Scheduler.PlanIsSound` | taskqueue/scheduler.py:130-223 | planned jobs are due, distinct and sorted; a program without a completed full run gets at most that one |
| `Scheduler.HeldBackIff` | taskqueue/scheduler.py:156-169 | a program is held back iff a full run of its own is in flight and not stale, or was stopped in the last half hour |
| `Scheduler.PlannedIsOwed` | taskqueue/scheduler.py:117-218 | every planned job is owed to one of the programs: enabled, verified, authorized, not held back, a module that is on and has waited for its interval, or the first full run; urgent iff a first run |
| `Scheduler.PlanIsComplete` | taskqueue/scheduler.py:130-223 | a job owed to a program is left out only if its tenant has reached its cap |
| `Scheduler.FirstComeFirstServed` | taskqueue/scheduler.py:149-222 | a cap is filled in the order of the programs, and sorting keeps the order of jobs of one priority |
| `Scheduler.TenantsDoNotInterfere` | taskqueue/scheduler.py:149-222 | a tenant's jobs, in order, are the plan of its own programs alone, at most the cap |
| `Scheduler.ReapingKeepsThePlan` | taskqueue/scheduler.py:225-235 | reaping first does not change the plan |
| `Scheduler.Store.RunOnce` | taskqueue/scheduler.py:225-242 | reaps, then enqueues and marks the plan up to the job the queue refuses |
| `Scheduler.MarkedRemembers` | db/schedule.py:32-48 | marking remembers the enqueued jobs and never moves other state back |
| `Scheduler.JobsAreSpaced` | taskqueue/scheduler.py:225-242 | over every run of ticks, jobs for one pipeline of a program are at least max(300, floor) seconds apart, bootstrap runs 1800, however overrides change |
| `Repository.Repository.Upsert` | db/base.py:63-83 | writes the two parts of the model and reports an insertion iff the key was unknown |
| `Repository.UpsertWrites` | db/base.py:67-82 | every field of a document after an insertion and after a later observation, and that no other document changes |
| `Repository.UpsertIsIdempotent` | db/base.py:1-10 | a repeated observation changes only the time last seen |
| `Repository.Repository.UpsertMany` | db/base.py:89-92 | the batch is upserted in order; the count of new documents is the growth of the collection, duplicates in a batch included |
| `Repository.Repository.SetFlag` | db/base.py:117-124 | sets one field of one known document |
| `Repository.Repository.ClearIsNew` | db/base.py:126-131 | marks exactly the named documents of the tenant as seen |
| `Repository.StepKeepsSeen` | db/base.py:126-131 | a seen document becomes new again iff a flag says so |
| `Repository.InsertedOnce` | db/base.py:63-83 | in any run a key is inserted once |
| `Repository.PreservedFieldsSurvive` | db/base.py:26-29 | kept fields change only by an explicit flag, over any run |
| `Notify.Shortlist` | pipelines/notify.py:199-200 | a stable sort by rank, cut off: an item is listed iff fewer than a hundred are ahead of it |
| `Notify.Send` | pipelines/notify.py:202-220 | returns the number of channels that took an alert, of all those it is meant for |
| `Notify.NotifySource` | pipelines/notify.py:193-228 | exactly the documents that are considered and that some channel took are delivered and marked seen; the deliveries counted are the sum over the considered places of the channels that took them |
| `Notify.MostSevereFirstIff` | pipelines/notify.py:197-199 | no new document is passed over for something less severe iff at most a hundred listed documents have a known severity or all of those the same, and nothing beyond the listed is graver |
| `Notify.LesserFindingsStarve` | pipelines/notify.py:59-203 | any hundred listed documents of lower rank keep a document out, whether or not they pass the filter |
| `Notify.HundredInfosHideACritical` | pipelines/notify.py:59-199 | a hundred infos and a critical finding, of which the critical one is left out |
| `Notify.NotifyOnTrail` | pipelines/notify.py:193-228 | a call continues a trail of the store, so no two calls deliver the same document |
| `Repository.DeliveredOnce` | pipelines/notify.py:215-228 | over any run, no document is delivered by two notify runs |

## Left out

- Floating-point rounding: rates, tokens and times are reals; the 30 percent rule compares integers exactly; Redis keeps tokens as decimal text.
- `Fleet.DegradingBucketStore.constructor`: a fleet size below one raises in the source and is no `FleetSize` here.
- Deletion of documents (program removal, retention): a deleted document would be inserted, and announced, again.
- A failure of the database between enqueuing a job and marking it: the job could be enqueued again on the next tick.
- `Scheduler.Plan`: a program's resolved modules and its current authorization enter as fields, an explicit cadence passed to the constructor (used in tests only) and the reason texts are not modelled.
- `RateLimit.WindowBound`: a bucket whose readings go back is bounded by `Fleet.LateBound` only; the shared bucket assumes that Redis's clock never goes back.
- `Fleet.FleetBound`: the clocks of Redis and of the processes are assumed to run at the same rate.
- `Scope.ClassifyIp`: how Python's ipaddress module flags special-purpose addresses is a parameter; names are lower-cased as ASCII.
- `Playground.Validate`: parameters enter as the set of those that hold a truthy value; an empty specification table stands for itself and not for the built-in catalogue.
- `WorkflowRunner.RunWorkflow`: a node's own work, its time limit included, is one oracle for each node; events and previews are not modelled.
- `ParamDiscovery.Bisect`: whether a batch moved the response is an oracle; classification of a single name and arjun's findings are not modelled.
- `ScanRuns.TimesOutIff`: the time that checking for a stop and saving the run take between ticks, which the source does not count against the budget.
- `ScanRuns.FullRun.Execute`: stage statistics, notes and timestamps; the save that may erase a stop request, so claims start once a stop has been seen; a killed job leaves later stages not begun, as in the source.
- `Notify.NotifySource`: one source of alerts; the order in which the store lists documents is a parameter, and channels are numbers.
- `AlertPolicy.PortMatches`: digits and numbers are ASCII; the other keys of an alert policy are simple overlays.
- Parsing of provider payloads, atomic file writes and the command-line refresh.
- `core/cpe.py` version ranges and `core/liveness.py` gone-detection: single comparisons over tuples and maxima, which would only add easy members.
- Routes, authentication, encryption, reports, metrics, logging and every scanner module.

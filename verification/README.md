# Verified model of dig-node's miss handling and its governors

`dig-node` is a peer-to-peer content node. This project models, in Dafny, the parts of it that decide how
a request for content the node does not hold is answered and how much strangers can make it spend, and
proves what those parts promise over whole runs. `dafny verify dfyconfig.toml` checks everything.

Where the code changes things step by step (buckets, tables, ledgers, caches, address lists, files on
disk), the model does too: a class or a loop, proved equal to a specification function that follows the
same branches. What each function means is fixed in turn by theorems stated without it and its helpers, in
places of the lists it is given, fields of its inputs and plain arithmetic, so a branch that is wrong in a
method and in its function alike fails there. The other theorems are about every run of those functions.

| file | what it models |
|---|---|
| `Common.dfy`, `TokenAccounting.dfy` | options, ASCII folding, provider records, the stable sort; the law every token bucket obeys over a time window |
| `RateLimit.dfy` | the per-requestor token buckets and the bounded table that may drop a full one |
| `Tier0Prefetch.dfy`, `Tier0Live.dfy` | the two-resource round limiter, the pre-cache round, and the fetcher it relies on |
| `MirrorBond.dfy` | the budgeted, stable promotion of holders whose bond is proven |
| `InboundDemand.dfy` | the bounded least-recently-demanded ledger against its plain history |
| `AddressBook.dfy` | the connected pool's per-peer, per-family address lists against their plain history |
| `DhtSampling.dfy` | quorum and lower-median reconciliation of what peers report |
| `CapsuleKey.dfy` | capsule identities, cache paths, and the crash-tolerant extension migration |
| `StagingReaper.dfy` | the byte ceiling on abandoned downloads |
| `HolderCache.dfy` | the expiring bounded map, the seen-set of asks, the first-hand holder cache |
| `HopBudget.dfy` | hops, time and identity of one ask, as read off the wire and handed on |
| `ForwardedAsk.dfy` | one node's forwarded leg: whom it asks, for how long, what it may conclude |
| `AskTime.dfy` | how far the time one node has reaches among its peers and down the tree below them |
| `LocateHolders.dfy`, `MissOutcome.dfy` | merging own findings with hearsay; what a miss is answered with |
| `AskNetwork.dfy` | one question travelling through a network of honest nodes, as a state machine |
| `AskOnce.dfy` | how often one node forwards the same question |
| `AskClock.dfy`, `AskWay.dfy` | how long a question stays under way, and exactly when that is within what a seen-set remembers |
| `MissRun.dfy` | misses, availability items and relays over time behind the three limiters, and what one requestor can make the node spend |

## Where the code and its documentation differ

The code was followed; each difference has its exact condition.

- `MissOutcome::NotFound` is documented (`download.rs:2665-2669`) as reachable only when a search
  established an absence. A node with no engine attached, and a request at the redirect cap, get it without
  any search: `NotFoundAssertsAnAbsenceExactlyWhen`, `NotFoundWithoutASearch`.
- The seen-set is documented (`holder_cache.rs:223-237`) as forwarding an ask once. It does so until the
  entry's lifetime ends or a full capacity of other asks pushes it out: `WalkedAgainExactlyWhen`, with runs of
  the shipped set that do either, `TwiceAfterItsLifetime`, `TwiceWithinItsLifetime`.
- The lifetime itself is documented (`holder_cache.rs:257-259`) as one no request can outlive. Deadlines slip by one
  delay a hop, so a request can, even at the shipped two hops: `UnderWayPastItsLifetime`, with the exact bound in
  `NoRequestOutlivesALifetimeExactlyWhen`. There it does no harm, for with two hops no node forwards a question twice
  whatever its seen-set forgets (`OnceAtTheDefaults`); no node running this code can have more, as the code only ever
  takes the crate's default bounds (`download.rs:338-343`). For a longer reach, whether remembering for a lifetime is
  enough is exact too: `ALifetimeSufficesExactlyWhen`.
- The time budget is documented (`forwarded_ask.rs:86-102`, `download.rs:3063-3071`) as giving an originator the work it
  is about to ask for, 65 seconds at the defaults. The code derives it from the hops left after the decision took one
  off (`download.rs:1978-2036`), so an originator has one peer's need for all its peers, 20 seconds at the
  defaults: `AnOriginatorHoldsOnePeersNeed`, `OnlyTheFirstOfThree`. It is sure to ask every peer exactly when at
  most one is connected (`AnOriginatorAsksThemAllExactlyWhen`), and the whole tree is sure to be reached exactly when
  it has at most one peer to ask and the ceiling is enough there (`AnOriginatorsTreeIsReachedExactlyWhen`). How much
  time is exactly enough for a hop given it on the wire is `ATreeIsReachedExactlyWhen`; the first peer an originator
  asks has it unless even the ceiling is too little there: `TheFirstPeersSubtreeIsReached`.
- An ask refused as a duplicate is documented (`download.rs:2004-2014`) as being answered by another path's
  walk. It was walked exactly when the grant it collides with had a slot, time and a connected peer:
  `ARefusalWasWalkedExactlyWhen`. A question turned away for want of a slot has been claimed all the same, and
  how long that lasts is exact too: `ASlotRefusalConsumesTheClaim`, `RefusedForAWalkThatNeverWas`.
- The land ledger is documented (`tier0_live.rs:94-106`) as the stores the precache loop landed. A store found
  already held is tagged though nothing landed, and a land over its cap is not, and nothing else parts the
  two: `TagsAreLandsExactlyWhen`, `AnAlreadyHeldStoreIsTagged`. Likewise the bytes a round counts are the bytes
  that landed exactly while no pull exceeds its cap: `CountedIsLandedExactlyWhen`.
- Candidates are deduplicated, and this node excluded, by the text of the peer id, while
  `mirror_bond.rs:248-259` treats two casings of a hex id as one identity: `OneEntryPerIdentityExactlyWhen`,
  `SelfIsExcludedExactlyWhen`, `TwoCasingsTakeTwoPlaces`.
- The lower bound of the reconciled provider count fails when liars are exactly half of the reporters, while
  the upper bound holds: `TheCountMovesExactlyWhen`, `HalfLiarsDragTheCountDown`, and under the
  shipped quorum `TwoHonestTwoLiars`. The size is documented
  (`dht_sampling.rs:263-265`) as equally robust, but only reporters that give a size are weighed:
  `TheSizeMovesExactlyWhen`, `OneLiarCanSetTheSize`.

## Assumed of code outside the model

- The deciding crate's `decide_forward` (through `AskRoutingState`) meets `ForwardedAsk.Decides`: it forwards
  only when enabled, with relay budget and hops left, to at most the fan-out of distinct dialable peers,
  never the asker nor this node, with one hop fewer; it blames the switch exactly when the switch is off.
- The merging crate's `merge_answers` puts everything first-hand first, in order, then a prefix of hearsay
  no longer than a configured cap (`LocateHolders.MergeAnswers`).
- `select_within_capacity` returns distinct indices in range (`Tier0Prefetch.ValidSelection`).
- A provider record is expired from its expiry second on.
- Clocks are arguments; runs read them nondecreasing, and one check of a limiter or a set reads its clock once.
- Chain verdicts (one read per record), probes, walks, pulls, eviction sweeps, peers' answers and their
  durations, unlink and rename results are arbitrary.

## Model

| member | source | states |
|---|---|---|
| `RateLimit.KeyIsInjective` | crates/dig-node-core/src/rate_limit.rs:67-78 | distinct requestors never share a bucket, whatever their ids contain |
| `RateLimit.TokenBucket.Refill` | crates/dig-node-core/src/rate_limit.rs:148-154 | the bucket after crediting the elapsed time, capped; in plain arithmetic by `RateLimit.ABucketRefills` |
| `RateLimit.TokenBucket.TryAcquire` | crates/dig-node-core/src/rate_limit.rs:120-131 | a refill, then one token taken exactly when a whole one is there |
| `RateLimit.TokenBucket.IsFull` | crates/dig-node-core/src/rate_limit.rs:139-144 | whether the refilled bucket is untouched, refilling on the way |
| `RateLimit.MissRateLimiter.RetainActive` | crates/dig-node-core/src/rate_limit.rs:296-300 | in whatever order the table is visited, exactly the full buckets go and every other is brought up to date |
| `RateLimit.MissRateLimiter.MakeRoom` | crates/dig-node-core/src/rate_limit.rs:296-304 | only a newcomer at a saturated table reclaims; room exists unless every bucket is in use |
| `RateLimit.MissRateLimiter.SpendFrom` | crates/dig-node-core/src/rate_limit.rs:306-311 | a newcomer enters with a full bucket, one token of this requestor moves, nobody else's does |
| `RateLimit.MissRateLimiter.Check` | crates/dig-node-core/src/rate_limit.rs:289-312 | the whole new table and the answer, for every table and every requestor; what they come to over runs is `RateLimit.TheNextAnswerIsTheLastOneRefilled` |
| `RateLimit.ReclaimingIsInvisible` | crates/dig-node-core/src/rate_limit.rs:133-144 | dropping full buckets changes what no requestor can spend at any later instant |
| `RateLimit.StepOnAvailable` | crates/dig-node-core/src/rate_limit.rs:289-312 | a check moves at most one token, only the caller's, and admits exactly when the caller had one; a refusal for lack of room costs nothing |
| `RateLimit.StepKeepsTheTableBounded` | crates/dig-node-core/src/rate_limit.rs:207-213 | the table never exceeds its limit; a check is refused for lack of room exactly when a newcomer meets a full table with every bucket below capacity |
| `RateLimit.TableActsAsPrivateBuckets` | crates/dig-node-core/src/rate_limit.rs:214-219 | after any run every requestor can spend exactly what a private, never-evicted bucket would let it |
| `RateLimit.EachCheckIsAPrivateDecision` | crates/dig-node-core/src/rate_limit.rs:289-312 | every check of every run is decided by the caller's own earlier calls alone, except the one saturated-table refusal |
| `RateLimit.AdmittedAsByAPrivateBucket` | crates/dig-node-core/src/rate_limit.rs:289-312 | admissions in any window are exactly those of the private bucket |
| `RateLimit.AdmissionIsBoundedInEveryWindow` | crates/dig-node-core/src/rate_limit.rs:80-99 | over any window of any run one requestor is admitted at most its burst plus the window's refill, across eviction and re-creation |
| `RateLimit.ABucketRefills` | crates/dig-node-core/src/rate_limit.rs:120-154 | a bucket asked after some time has its tokens plus the rate times that time, up to its capacity; it admits exactly when that is a whole token and keeps the rest; unasked it is full exactly when that is a bucketful |
| `RateLimit.TheNextAnswerIsTheLastOneRefilled` | crates/dig-node-core/src/rate_limit.rs:289-312 | over any run and any eviction, each answer follows from the tokens left at that requestor's last answer and the time since: admitted exactly when they make a whole token, the rest kept |
| `RateLimit.KeepingPaceIsNeverRefused` | crates/dig-node-core/src/rate_limit.rs:80-99 | with a capacity of one token or more, a requestor whose calls are a token's refill time apart is never refused for want of a token, in any run |
| `RateLimit.BelowCapacityIsInRecentUse` | crates/dig-node-core/src/rate_limit.rs:133-144 | a bucket nobody was answered from for the time it takes to fill is full, hence reclaimable |
| `RateLimit.SaturationTakesACrowd` | crates/dig-node-core/src/rate_limit.rs:296-304 | a check is refused for lack of room only while a whole table of other requestors were each answered within the time a bucket takes to fill |
| `TokenAccounting.WindowLaw` | crates/dig-node-core/src/rate_limit.rs:80-99 | any record of spending that never overdraws its bucket spends at most capacity plus refill plus slack in any window |
| `Tier0Live.FetchHonoursItsContract` | crates/dig-node-core/src/tier0_live.rs:251-293 | bytes reported never exceed the cap and are what landed unless that was over it; a pull runs exactly behind a resolved key and a passed anchor check; the ledger gains the store exactly when the fetch reports it cached, less what the sweep then forgets |
| `Tier0Live.FetchEndsExactlyAs` | crates/dig-node-core/src/tier0_live.rs:251-293 | which of the four endings a fetch has, as an equivalence for each, by what lookup, anchor check and pull answer |
| `Tier0Live.TagsAreLandsExactlyWhen` | crates/dig-node-core/src/tier0_live.rs:94-106 | a store is tagged with nothing landed exactly when the gated pull finds it already held, and a land goes untagged exactly when it is over the cap |
| `Tier0Live.AnAlreadyHeldStoreIsTagged` | crates/dig-node-core/src/tier0_live.rs:368-370 | a store found already held is reported as cached with no bytes and gains the sacrificial tag |
| `Tier0Live.NodeTier0Fetcher.EvictIfNeeded` | crates/dig-node-core/src/tier0_live.rs:217-224 | a sweep forgets some tags and touches nothing else of the fetcher |
| `Tier0Live.NodeTier0Fetcher.FetchAndCache` | crates/dig-node-core/src/tier0_live.rs:260-292 | the fetcher's outcome and its ledger for every lookup, gate, pull and sweep |
| `Tier0Live.NodeTier0Fetcher.ForgetLand` | crates/dig-node-core/src/tier0_live.rs:126-131 | an eviction takes exactly its store out of the land ledger |
| `Tier0Prefetch.TokenBucket.Refill` | crates/dig-node-core/src/tier0_prefetch.rs:159-166 | the bucket after crediting whole ticks, capped |
| `Tier0Prefetch.TokenBucket.TryTake` | crates/dig-node-core/src/tier0_prefetch.rs:169-178 | all of an amount or none of it, with the tolerance the code has |
| `Tier0Prefetch.RoundRateLimiter.TryAdmit` | crates/dig-node-core/src/tier0_prefetch.rs:205-218 | one store and its bytes are charged together or not at all |
| `Tier0Prefetch.AdmissionIsAtomic` | crates/dig-node-core/src/tier0_prefetch.rs:199-218 | a refusal by either bucket costs the other nothing, and admission is what both buckets alone would grant |
| `Tier0Prefetch.SizeCandidates` | crates/dig-node-core/src/tier0_prefetch.rs:414-424 | the sized candidates and the dropped ones, probing within the round's cap |
| `Tier0Prefetch.ResolveCandidateSize` | crates/dig-node-core/src/tier0_prefetch.rs:514-537 | a known positive size is used as is; otherwise one probe is spent while any is left |
| `Tier0Prefetch.SizingIsBoundedAndTotal` | crates/dig-node-core/src/tier0_prefetch.rs:358-364 | at most 32 probes; every candidate is sized positively or counted as dropped |
| `Tier0Prefetch.Consider` | crates/dig-node-core/src/tier0_prefetch.rs:438-491 | one selected candidate: held, capped to zero, over the limiter, or fetched, with every counter and budget after it |
| `Tier0Prefetch.RunRound` | crates/dig-node-core/src/tier0_prefetch.rs:381-493 | the outcome, the limiter and the fetcher after a whole round, skipped or run |
| `Tier0Prefetch.RoundKeepsItsBooks` | crates/dig-node-core/src/tier0_prefetch.rs:325-343 | what was cached and what remains always add up to the sub-budget; the counters partition the sampled and the selected candidates; nothing held is fetched |
| `Tier0Prefetch.StepKeepsTheBooks` | crates/dig-node-core/src/tier0_prefetch.rs:438-491 | each candidate keeps those books |
| `Tier0Prefetch.CeilingAcrossRounds` | crates/dig-node-core/src/tier0_live.rs:538-590 | over any span of ticks of any schedule of rounds, bytes counted as cached and fetches issued are at most one window's worth plus the span's refill plus the tolerance; the bytes that landed are those very bytes exactly while no pull of the span exceeds its cap, and are then bounded alike |
| `Tier0Prefetch.CountedIsLandedExactlyWhen` | crates/dig-node-core/src/tier0_live.rs:362-367 | what is counted is what landed exactly while no pull lands more than its cap |
| `Tier0Prefetch.CeilingOfARecord` | crates/dig-node-core/src/tier0_prefetch.rs:180-218 | the same for any record in step with its limiter |
| `Tier0Prefetch.LimitsNeverChange` | crates/dig-node-core/src/tier0_prefetch.rs:190-202 | no round changes a limiter's capacity or rate |
| `Tier0Prefetch.AdmitsExactlyWhen` | crates/dig-node-core/src/tier0_prefetch.rs:159-218 | both buckets hold what their ticks poured in up to capacity; admission exactly when both suffice to within the tolerance; what each is left with |
| `Tier0Prefetch.AnIdleWindowAdmits` | crates/dig-node-core/src/tier0_prefetch.rs:180-218 | a new limiter, and after any rounds a limiter left alone for one window, admits anything a window may hold |
| `Tier0Prefetch.SizedAreThoseGivenASize` | crates/dig-node-core/src/tier0_prefetch.rs:514-537 | the sized candidates are, in order, exactly those that came with a positive size or whose probe, among the first thirty-two needed, reported one; and each has that size |
| `Tier0Prefetch.ACandidateIsFetchedUnderTheSmaller` | crates/dig-node-core/src/tier0_prefetch.rs:438-491 | held, passed over, deferred or fetched, exactly; a fetch is given the smaller of size and remainder, and what a pull lands within that is cached, counted and taken off the remainder |
| `Tier0Prefetch.ARoundGoesInOrder` | crates/dig-node-core/src/tier0_prefetch.rs:438-491 | the selection is gone through in its order, and each candidate not held is put to the limiter until nothing remains |
| `Tier0Prefetch.RunsExactlyWhen` | crates/dig-node-core/src/tier0_prefetch.rs:396-413 | a round runs exactly when switched on, not busy and with a tenth of the cache of at least 64 MiB, and starts from that tenth |
| `MirrorBond.FindProviders` | crates/dig-node-core/src/mirror_bond.rs:237-309 | with a verifier the answer is the promoted records then the rest, each in source order, after at most eight chain reads; without one, or on failure, the inner answer untouched |
| `MirrorBond.TheAnswerIs` | crates/dig-node-core/src/mirror_bond.rs:237-309 | in positions of the slate: first the records that are the first of their identity whose read proves the bond, then the rest, each part in source order; a record is read exactly when it points at a coin and fewer than the budget before it do |
| `MirrorBond.PassMeetsItsMeaning` | crates/dig-node-core/src/mirror_bond.rs:257-300 | the one-pass bookkeeping promotes exactly the first credited record of each folded peer id and reads one claim each while the budget lasts |
| `MirrorBond.SortingIsPartitioning` | crates/dig-node-core/src/mirror_bond.rs:301-308 | sorting by rank is the stable partition |
| `MirrorBond.PartitionIsAStablePermutation` | crates/dig-node-core/src/mirror_bond.rs:301-308 | every record has its own place; promoted ones precede the rest; order within a tier is kept |
| `MirrorBond.PartitionIsAPermutation` | crates/dig-node-core/src/mirror_bond.rs:237-309 | nothing is dropped, invented or repeated |
| `MirrorBond.OnePromotionPerIdentity` | crates/dig-node-core/src/mirror_bond.rs:248-261 | at most one record per identity is promoted, however its id is spelled |
| `MirrorBond.AnyCreditPromotesTheFirst` | crates/dig-node-core/src/mirror_bond.rs:281-297 | an identity with any credited record has a record promoted no later than it |
| `MirrorBond.AnUnprovenPointerNeverDemotes` | crates/dig-node-core/src/mirror_bond.rs:205-210 | a pointer the chain does not prove never places its record later, at any budget; within budget it moves nobody |
| `MirrorBond.PromotionsOnlyShrink` | crates/dig-node-core/src/mirror_bond.rs:257-280 | such a pointer can cost others a promotion only when the claims exceed the budget |
| `MirrorBond.DisproofReadsAsSilence` | crates/dig-node-core/src/mirror_bond.rs:205-210 | turning every disproof into silence changes no answer |
| `MirrorBond.NoCreditMeansNoChange` | crates/dig-node-core/src/mirror_bond.rs:301-308 | with nobody promoted the order is the source's |
| `InboundDemand.InboundDemand.Record` | crates/dig-node-core/src/inbound_demand.rs:122-159 | after each demand the map holds exactly the most recently demanded ids of the whole history, and map and recency index are inverse to each other |
| `InboundDemand.InboundDemand.Refresh` | crates/dig-node-core/src/inbound_demand.rs:127-139 | a live id moves to the newest tick and counts one more, saturating |
| `InboundDemand.InboundDemand.EvictOldest` | crates/dig-node-core/src/inbound_demand.rs:141-149 | exactly the least recently demanded id leaves |
| `InboundDemand.InboundDemand.Count` | crates/dig-node-core/src/inbound_demand.rs:165-172 | the saturating number of demands since the id last entered, or zero |
| `InboundDemand.InboundDemand.Tier` | crates/dig-node-core/src/inbound_demand.rs:176-184 | a tier for exactly the live ids |
| `InboundDemand.InboundDemand.EntryCount` | crates/dig-node-core/src/inbound_demand.rs:189-195 | the size of the live set, never over the capacity |
| `InboundDemand.LiveSetIsBounded` | crates/dig-node-core/src/inbound_demand.rs:40-48 | at most the capacity of ids have fewer than a capacity of distinct ids demanded after them |
| `InboundDemand.RedemandKeepsTheSet` | crates/dig-node-core/src/inbound_demand.rs:71-76 | a demand for a live id moves nothing in or out |
| `InboundDemand.NewcomerDisplacesTheOldest` | crates/dig-node-core/src/inbound_demand.rs:138-150 | a new id enters, and exactly the oldest leaves when the ledger is full, nobody otherwise |
| `InboundDemand.CountIsDemandsSinceEntry` | crates/dig-node-core/src/inbound_demand.rs:50-61 | a live count is the number of demands since the demand that let the id in; eviction starts it again |
| `InboundDemand.LiveExactlyWhen` | crates/dig-node-core/src/inbound_demand.rs:40-48 | an id is in the ledger exactly when its last demand has fewer than a capacity of distinct ids after it |
| `InboundDemand.ALiveEntryCarries` | crates/dig-node-core/src/inbound_demand.rs:122-159 | a live id's count is the number of its demands from the one that let it in, saturating at 32 bits, and its tick is that of its last demand |
| `AddressBook.RetainNewestPerFamily` | crates/dig-node-core/src/download.rs:674-685 | the list after dropping, while over the limit, the oldest address of the larger family |
| `AddressBook.ConnectedPool.OnPoolEvent` | crates/dig-node-core/src/download.rs:1718-1768 | the pool is the fold of all its events |
| `AddressBook.AdoptionReflects` | crates/dig-node-core/src/download.rs:1750-1761 | one fresh session leaves the list made of the newest addresses of each family |
| `AddressBook.CutReflects` | crates/dig-node-core/src/download.rs:674-685 | a cut takes the oldest of one family and never brings a family below its newest four |
| `AddressBook.AddressListAgreesWithHistory` | crates/dig-node-core/src/download.rs:1718-1768 | after any churn: no duplicates, length the smaller of eight and the history, newest first, each family a newest prefix of its own history and never fewer than its newest four |
| `AddressBook.RecentIsNewestFirst` | crates/dig-node-core/src/download.rs:1718-1768 | a peer's history is exactly its usable addresses added since it was last removed, each once, the one last added first |
| `AddressBook.TheListIsTheNewestOfEachFamily` | crates/dig-node-core/src/download.rs:1718-1768 | the list is, in that order, the newest so many of each family, eight in all or everything, and always the newest four of either |
| `AddressBook.ACutDropsTheLargerFamilysOldest` | crates/dig-node-core/src/download.rs:674-685 | a cut drops the last address of a family, IPv6 exactly when it is at least half the list, and keeps the order of the rest |
| `AddressBook.NeverListsItself` | crates/dig-node-core/src/download.rs:1719-1729 | this node never becomes its own peer |
| `DhtSampling.Reconcile` | crates/dig-node-core/src/dht_sampling.rs:205-228 | the reconciliation of any observations |
| `DhtSampling.Admit` | crates/dig-node-core/src/dht_sampling.rs:233-251 | one key's candidate, or none below the quorum |
| `DhtSampling.SampleCandidates` | crates/dig-node-core/src/dht_sampling.rs:298-309 | every probed region counts in one round: the keys listed are exactly those whose distinct reporters over all the regions reach the quorum |
| `DhtSampling.QuorumOverRegions` | crates/dig-node-core/src/dht_sampling.rs:298-309 | a key is a candidate exactly when the peers that mention it in any observation of any region are somebody and reach the quorum |
| `DhtSampling.LastReportOverRegions` | crates/dig-node-core/src/dht_sampling.rs:205-222 | the report that counts for a peer and a key is its last one, by region, observation and holding |
| `DhtSampling.CandidatesWeighLastReports` | crates/dig-node-core/src/dht_sampling.rs:243-272 | a candidate's count and size against any bounds, exactly, by how many peers' last reports over all regions lie beyond them |
| `DhtSampling.LowerMedianIsRobust` | crates/dig-node-core/src/dht_sampling.rs:257-261 | the lower median drops below a bound exactly when at least half the values do, and exceeds one exactly when more than half do |
| `DhtSampling.GroupHoldsLastReports` | crates/dig-node-core/src/dht_sampling.rs:210-222 | per key and peer the grouping holds that peer's last report |
| `DhtSampling.EntryIsReporters` | crates/dig-node-core/src/dht_sampling.rs:210-222 | a key's entry is held by exactly its distinct reporters |
| `DhtSampling.QuorumDecides` | crates/dig-node-core/src/dht_sampling.rs:198-228 | a key is admitted exactly when its distinct reporters reach the quorum, once, in increasing order of id |
| `DhtSampling.ReconciliationIgnoresInterleaving` | crates/dig-node-core/src/dht_sampling.rs:205-228 | any reordering that keeps each peer's own order gives the same candidates |
| `DhtSampling.TheCountMovesExactlyWhen` | crates/dig-node-core/src/dht_sampling.rs:243-250 | how many reporters it takes to move an admitted count below or above a bound, exactly |
| `DhtSampling.LiarsCannotMoveTheCount` | crates/dig-node-core/src/dht_sampling.rs:243-250 | the count lies within the honest reports while liars are a strict minority, and not above them even when they are half |
| `DhtSampling.HalfLiarsDragTheCountDown` | crates/dig-node-core/src/dht_sampling.rs:252-256 | half the reporters below every honest one bring the count below it |
| `DhtSampling.TwoHonestTwoLiars` | crates/dig-node-core/src/tier0_prefetch.rs:307-310 | such a round under the shipped quorum of three: any two honest reports and any two lies below both |
| `DhtSampling.TheSizeMovesExactlyWhen` | crates/dig-node-core/src/dht_sampling.rs:263-272 | how many of the reporters that give a size it takes to move it, exactly; none is given exactly when none gave one |
| `DhtSampling.OneLiarCanSetTheSize` | crates/dig-node-core/src/dht_sampling.rs:263-272 | the only reporter that gives a size sets it, whatever the number of others |
| `CapsuleKey.OneKeyPerCapsule` | crates/dig-node-core/src/capsule_key.rs:181-190 | two admitted pairs are one key exactly when they spell the same bytes; a key re-parses to itself |
| `CapsuleKey.ParsesExactlyWhen` | crates/dig-node-core/src/capsule_key.rs:181-190 | what is admitted is exactly two texts of sixty-four hex digits |
| `CapsuleKey.PathsStayInside` | crates/dig-node-core/src/capsule_key.rs:26-37 | every component built from any admitted pair is a direct child: no separator, no dot component, no control character |
| `CapsuleKey.PathsAreInjective` | crates/dig-node-core/src/capsule_key.rs:221-262 | distinct keys never share a cached, legacy or staging path |
| `CapsuleKey.StemsAreExact` | crates/dig-node-core/src/capsule_key.rs:104-108 | a name is a capsule of a stem exactly when it is the stem with one of the two extensions |
| `CapsuleKey.MarkersSurviveExtensions` | crates/dig-node-core/src/capsule_key.rs:81-84 | both artifacts of a stem share one marker, which is itself no capsule |
| `CapsuleKey.Cache.MigrateLegacyModuleExtensions` | crates/dig-node-core/src/capsule_key.rs:122-154 | the disk after a pass over any listing with any refusals is the fold of its entries |
| `CapsuleKey.Cache.MigrateStore` | crates/dig-node-core/src/capsule_key.rs:132-152 | the same for one store's directory |
| `CapsuleKey.LegacyIsAStem` | crates/dig-node-core/src/capsule_key.rs:134-141 | what the pass moves is a non-empty stem with the legacy suffix, onto the same stem with the current one |
| `CapsuleKey.EveryPrefixKeepsReaders` | crates/dig-node-core/src/capsule_key.rs:110-121 | at every intermediate state, so at any crash and with any refusals, every stem reads the same bytes and the same capsules are relayed |
| `CapsuleKey.NoPrefixDropsAHolder` | crates/dig-node-core/src/capsule_key.rs:241-251 | every key stays resolvable to the same bytes throughout |
| `CapsuleKey.CompletedPassConverges` | crates/dig-node-core/src/capsule_key.rs:113-118 | an obeyed full pass leaves no legacy file, holds at every path what the converged cache holds, whatever the order, and further passes change nothing |
| `CapsuleKey.StepsAreTheEntries` | crates/dig-node-core/src/capsule_key.rs:122-134 | what a pass goes through is exactly every entry of every directory that could be read |
| `CapsuleKey.AFullPassMovesEveryCapsule` | crates/dig-node-core/src/capsule_key.rs:110-154 | from a full listing: every capsule ends under its current name with its own bytes, or its legacy artifact's if it had none, no legacy name is left, and every other file is as it was |
| `StagingReaper.StagingDir.ReapStagingOver` | crates/dig-node-core/src/download.rs:2580-2629 | the directory after a sweep loses exactly the planned victims and the states beside them |
| `StagingReaper.StagingDir.Reap` | crates/dig-node-core/src/download.rs:2604-2620 | the same for the loop alone, from any ordered list |
| `StagingReaper.MeasuredIsListed` | crates/dig-node-core/src/download.rs:2585-2597 | what is considered is exactly the measurable staging files, an unknown age counting as oldest |
| `StagingReaper.MeasuredSelects` | crates/dig-node-core/src/download.rs:2585-2597 | the considered files in listing order, every one of them and no other |
| `StagingReaper.OldestFirstIsAStableSort` | crates/dig-node-core/src/download.rs:2602-2602 | oldest first, ties in listing order, nothing lost |
| `StagingReaper.VictimsAreAPrefix` | crates/dig-node-core/src/download.rs:2604-2620 | the victims are an oldest-first prefix of the removable files, each taken while the counted bytes exceeded the cap, stopping only when they do not |
| `StagingReaper.ASweepTakes` | crates/dig-node-core/src/download.rs:2600-2620 | going oldest first with ties in listing order, a file is taken when it is neither protected nor refused and the bytes of all less those already taken exceed the cap; one that could be taken is left only behind everything taken, with the rest within the cap |
| `StagingReaper.DiscardedMeans` | crates/dig-node-core/src/download.rs:2612-2619 | what leaves the disk is exactly each victim and, where the system lets it go, the state file beside it |
| `StagingReaper.SweepEndsUnderCapOrBlocked` | crates/dig-node-core/src/download.rs:2574-2578 | nothing protected is removed; the sweep ends under the cap or with only protected or undeletable files left |
| `StagingReaper.SweepOnDisk` | crates/dig-node-core/src/download.rs:2612-2619 | the bytes still counted are the bytes of the measured files that survive on disk, and nothing else is gone |
| `HolderCache.TtlMap.Get` | crates/dig-node-core/src/seams/dig_peer/holder_cache.rs:107-119 | the value unless aged out, dropping it then |
| `HolderCache.TtlMap.Insert` | crates/dig-node-core/src/seams/dig_peer/holder_cache.rs:121-137 | expired entries go; a new key makes room by dropping only entries no newer than any kept |
| `HolderCache.AskSeenSet.ClaimAt` | crates/dig-node-core/src/seams/dig_peer/holder_cache.rs:267-276 | a question is granted exactly when it is not live, and is live from then on |
| `HolderCache.SeenSetIsBounded` | crates/dig-node-core/src/seams/dig_peer/holder_cache.rs:80-83 | the set never exceeds its capacity in any run |
| `HolderCache.WalkedTwiceOnlyWhenForgotten` | crates/dig-node-core/src/seams/dig_peer/holder_cache.rs:223-237 | a question is granted twice only when its lifetime ended or more than a capacity of asks was granted since |
| `HolderCache.ForgottenIsGrantedAgain` | crates/dig-node-core/src/seams/dig_peer/holder_cache.rs:121-137 | a question whose lifetime ended, or after which a capacity of others was granted, is granted again |
| `HolderCache.WalkedAgainExactlyWhen` | crates/dig-node-core/src/seams/dig_peer/holder_cache.rs:254-276 | a question granted with nothing else granted at that very instant is granted again if and only if its lifetime ended or a capacity of others was granted since |
| `HolderCache.EveryScheduleRuns` | crates/dig-node-core/src/seams/dig_peer/holder_cache.rs:264-276 | any questions at any times that never go back make a run of the set |
| `HolderCache.TwiceAfterItsLifetime` | crates/dig-node-core/src/seams/dig_peer/holder_cache.rs:254-276 | the shipped set grants one question at 0 and again at 65 seconds |
| `HolderCache.TwiceWithinItsLifetime` | crates/dig-node-core/src/seams/dig_peer/holder_cache.rs:80-83 | the shipped set grants one question twice within its lifetime, once a capacity of others passed through |
| `HolderCache.RefusedOnlyAsADuplicate` | crates/dig-node-core/src/seams/dig_peer/holder_cache.rs:264-276 | a refusal always has an earlier grant of the same question within its lifetime |
| `HolderCache.FirstHandHolderCache.GetAt` | crates/dig-node-core/src/seams/dig_peer/holder_cache.rs:184-199 | something is recalled exactly when the content is stored, within its lifetime, with a record that has not expired; it is then every unexpired record in stored order; otherwise the entry goes |
| `HolderCache.FirstHandHolderCache.Remember` | crates/dig-node-core/src/seams/dig_peer/holder_cache.rs:206-213 | an empty slate is never stored |
| `HolderCache.RecalledIsCurrent` | crates/dig-node-core/src/seams/dig_peer/holder_cache.rs:173-199 | what is recalled is non-empty, live by both clocks, and exactly the unexpired part of what was stored |
| `HolderCache.RecalledExactlyWhen` | crates/dig-node-core/src/seams/dig_peer/holder_cache.rs:184-199 | the same of the recalled slate itself: when there is one, and exactly which stored records it is, in order and multiplicity |
| `HolderCache.WhatIsRememberedIsRecalled` | crates/dig-node-core/src/seams/dig_peer/holder_cache.rs:206-213 | a slate just stored is recalled, as far as its records have not expired, for exactly the lifetime |
| `HolderCache.UnexpiredKeepsOrder` | crates/dig-node-core/src/seams/dig_peer/holder_cache.rs:194-198 | dropping expired records keeps the order of the rest |
| `HopBudget.AskBudget` | crates/dig-node-core/src/seams/dig_peer/forwarded_ask.rs:103-113 | the smaller of the whole need of so many hops and the ceiling |
| `HopBudget.DefaultsNeedTheCeiling` | crates/dig-node-core/src/seams/dig_peer/forwarded_ask.rs:86-113 | at three peers a hop and two hops the need is exactly the ceiling, 65 seconds, while a fresh ask is given 20, because its decision takes a hop off before the time is derived |
| `HopBudget.ForwardsExactlyWhen` | crates/dig-node-core/src/download.rs:2971-3014 | hops are unreadable, spent or left exactly when the field says so; an absent field carries the whole cap; a spent budget never forwards |
| `HopBudget.OneHopFurther` | crates/dig-node-core/src/download.rs:3050-3087 | over the wire the child sees one more hop used, one fewer left, the same identity and no more time than granted |
| `HopBudget.TimeIsBounded` | crates/dig-node-core/src/download.rs:3063-3080 | no constructor buys more than the ceiling |
| `HopBudget.BudgetStates` | crates/dig-node-core/src/download.rs:2976-2983 | an unreadable time budget is absent, zero stays zero, anything else is granted exactly up to the ceiling |
| `ForwardedAsk.AskPeers` | crates/dig-node-core/src/download.rs:2040-2104 | the records, the asks, what was observed of each peer, and the clock after the loop, which stops at the deadline; what they are in terms of the exchanges is `ForwardedAsk.ALegHearsWhatItsPeersSay` and `ForwardedAsk.ALegAsksInTurn` |
| `ForwardedAsk.ForwardedHolders` | crates/dig-node-core/src/download.rs:1926-2106 | the leg's answer for every decision, claim and number of slots held; the seen-set is asked exactly when a forward was decided; a slot is taken after the claim and given back however the leg ends |
| `ForwardedAsk.AskSlots.TryAcquire` | crates/dig-node-core/src/download.rs:2020-2026 | a slot is had exactly while fewer than thirty-two are held |
| `ForwardedAsk.ConclusiveExactlyWhenNeverOffered` | crates/dig-node-core/src/download.rs:985-1046 | the leg is conclusive exactly when no asker is installed or recursion is off, and then it asked and heard nothing |
| `ForwardedAsk.LegIsBounded` | crates/dig-node-core/src/download.rs:2028-2068 | at most the fan-out of distinct asks, never to the asker or itself, one hop deeper, same identity, no grant above the time received or the ceiling |
| `ForwardedAsk.LegEndsInTime` | crates/dig-node-core/src/download.rs:2032-2052 | if every peer returns within its grant the leg ends within the time it was given |
| `ForwardedAsk.EveryChildCanFinish` | crates/dig-node-core/src/seams/dig_peer/forwarded_ask.rs:86-102 | a hop given its whole need on the wire asks every chosen peer and grants each that peer's own whole need; no hop that derives its own time holds that much |
| `ForwardedAsk.NoSubtreeOverruns` | crates/dig-node-core/src/seams/dig_peer/forwarded_ask.rs:86-102 | whatever it was granted, no subtree takes longer than its whole need while each hop's own search keeps to the leaf timeout |
| `ForwardedAsk.EveryHopIsReached` | crates/dig-node-core/src/seams/dig_peer/forwarded_ask.rs:86-102 | when the whole need fits under the ceiling and the first hop was given all of it on the wire, every chosen peer at every hop of the tree is asked and the first hop ends in time; how much is exactly enough, and what a first hop that derives its own time has, is in AskTime |
| `AskTime.AsksThemAllExactlyWhen` | crates/dig-node-core/src/download.rs:2032-2051 | a round is sure to ask all its connected peers, whatever they answer within a need, exactly when all but one of those needs leave time over |
| `AskTime.AnOriginatorHoldsOnePeersNeed` | crates/dig-node-core/src/download.rs:1978-2037 | a node nobody gave a time has, for all the peers it asks together, the need of one hop with a hop fewer than its own, up to the ceiling: always less than its own need |
| `AskTime.AnOriginatorAsksThemAllExactlyWhen` | crates/dig-node-core/src/download.rs:2032-2051 | such a node is sure to ask every peer it chose exactly when at most one is connected |
| `AskTime.OnlyTheFirstOfThree` | crates/dig-node-core/src/download.rs:2032-2051 | at the defaults, of three connected peers that take the twenty seconds each may need, only the first is asked |
| `AskTime.TheFirstPeersSubtreeIsReached` | crates/dig-node-core/src/seams/dig_peer/forwarded_ask.rs:86-102 | the first peer an originator asks is granted all that was derived, and every peer chosen anywhere below it is asked, unless even the ceiling is too little there |
| `AskTime.AnOriginatorsTreeIsReachedExactlyWhen` | crates/dig-node-core/src/seams/dig_peer/forwarded_ask.rs:86-113 | below and above the ceiling: every execution of the tree an originator starts asks every chosen peer at every hop if and only if the originator has nobody to ask, or one peer whose need less the searches on one way down is below the ceiling |
| `AskTime.ATreeIsReachedExactlyWhen` | crates/dig-node-core/src/seams/dig_peer/forwarded_ask.rs:86-102 | a hop given so many whole milliseconds is sure to reach every peer chosen anywhere in its tree if and only if they exceed its need less one leaf timeout for each search on one way down, its own included |
| `ForwardedAsk.WalksExactlyWhen` | crates/dig-node-core/src/download.rs:2004-2068 | a question reaching the seen-set is put to somebody exactly when the claim is granted, a slot is free, time is left and a chosen peer is connected |
| `ForwardedAsk.ARefusalWasWalkedExactlyWhen` | crates/dig-node-core/src/download.rs:2004-2014 | a refused duplicate collides with exactly one earlier grant within its lifetime, and that one walked the question exactly when its slot was free and it had time and a peer to ask |
| `ForwardedAsk.ASlotRefusalConsumesTheClaim` | crates/dig-node-core/src/download.rs:2004-2026 | after a grant refused a slot nobody is asked, and through any interleaved claims the question is refused again until its lifetime ends or a capacity of others displaces it |
| `ForwardedAsk.RefusedForAWalkThatNeverWas` | crates/dig-node-core/src/download.rs:2017-2026 | any question met with no slot free and again within its lifetime is refused as a walk that never was |
| `ForwardedAsk.RoundIsFaithful` | crates/dig-node-core/src/download.rs:2040-2104 | connected peers are asked in the chosen order, all unless the deadline was reached; the records are exactly what they named, in that order; the clock moved by what they took; each exchange is observed once, as it went |
| `ForwardedAsk.ALegHearsWhatItsPeersSay` | crates/dig-node-core/src/download.rs:2053-2104 | a leg's records are the lists its peers named when they answered, conclusively or not, joined in the order asked; refusals, timeouts and unreachable peers add nothing; a record is heard exactly when a peer asked named it |
| `ForwardedAsk.ALegAsksInTurn` | crates/dig-node-core/src/download.rs:2028-2104 | a claimed leg asks the connected chosen peers in order, all unless the deadline came first, each when the one before returned, for what is left, and notes each exchange once as it went |
| `ForwardedAsk.AnExhaustedBudgetAsksNobody` | crates/dig-node-core/src/download.rs:2043-2050 | a carried budget of zero asks nobody and concludes nothing |
| `LocateHolders.Locate` | crates/dig-node-core/src/download.rs:1809-1881 | the located holders, and what is remembered, from the cache, the walk and the leg |
| `LocateHolders.FindFirstHand` | crates/dig-node-core/src/download.rs:1825-1844 | a remembered slate replaces the walk; a failed walk stays a failure and leaves nothing remembered |
| `LocateHolders.DedupByPeerTagged` | crates/dig-node-core/src/download.rs:3167-3170 | one record per peer text, the first |
| `LocateHolders.RetainExcludingSelfTagged` | crates/dig-node-core/src/download.rs:3174-3182 | every record whose peer text is this node's goes |
| `LocateHolders.DedupedMeans` | crates/dig-node-core/src/download.rs:3155-3170 | no peer twice, none lost, nothing added |
| `LocateHolders.DedupedKeepsFirst` | crates/dig-node-core/src/download.rs:3155-3166 | the record kept for a peer is the first that names it |
| `LocateHolders.DedupedExtends` | crates/dig-node-core/src/download.rs:3157-3166 | appending records never moves, drops or replaces what stood before them |
| `LocateHolders.HearsayIsNeverRemembered` | crates/dig-node-core/src/seams/dig_peer/holder_cache.rs:10-24 | after any locate the cache holds what it held or what this node's own walk found, never a peer's word |
| `LocateHolders.WhatALocateRemembers` | crates/dig-node-core/src/download.rs:1825-1844 | after a locate that recalled nothing the content is remembered exactly when the walk named somebody else, as every record of it but this node's, in order |
| `LocateHolders.RememberingStaysClean` | crates/dig-node-core/src/download.rs:2196-2203 | one locate keeps this node out of every remembered slate |
| `LocateHolders.AbsenceExactlyWhen` | crates/dig-node-core/src/download.rs:951-975 | an absence is established exactly when asking peers was never part of the answer and this node's own walk completed, uncached, naming nobody but itself |
| `LocateHolders.EveryCacheIsClean` | crates/dig-node-core/src/download.rs:2196-2203 | in every run from an empty cache no remembered slate names this node |
| `LocateHolders.AbsenceInEveryRunExactlyWhen` | crates/dig-node-core/src/download.rs:951-975 | at every locate of every run, an absence is established exactly when the switch is off or no asker installed, and the node's own walk, with nothing remembered, completed naming nobody but itself |
| `LocateHolders.RunsEstablishTheSameAbsences` | crates/dig-node-core/src/download.rs:1016-1046 | two whole runs with the same walks, the same forgettings and the same switch establish the same absences, whatever peers sent, were picked, claimed or answered |
| `LocateHolders.AbsenceIgnoresPeers` | crates/dig-node-core/src/download.rs:1016-1046 | in one locate, changing every peer's answer and timing changes no established absence |
| `LocateHolders.CandidatesLeadFirstHand` | crates/dig-node-core/src/download.rs:1846-1871 | no duplicate, never this node, own findings in front unchanged by any hearsay, only hearsay behind |
| `LocateHolders.CandidatesAreFirstMentions` | crates/dig-node-core/src/download.rs:1846-1881 | the candidates are, in order, the first record of every holder but this node in the own findings followed by the admitted hearsay, first-hand exactly those of the own findings |
| `LocateHolders.WhatASearchFinds` | crates/dig-node-core/src/download.rs:1809-1881 | one whole search: the recalled slate or else the walk, then the hearsay, first mentions in order, and when its answer is conclusive |
| `LocateHolders.TruncationNeverDisplaces` | crates/dig-node-core/src/download.rs:3140-3201 | the cap leaves out a first-hand holder exactly when there are more first-hand holders than the cap |
| `LocateHolders.OneEntryPerIdentityExactlyWhen` | crates/dig-node-core/src/download.rs:3155-3170 | no identity is named twice exactly when each is spelled one way |
| `LocateHolders.SelfIsExcludedExactlyWhen` | crates/dig-node-core/src/download.rs:3172-3182 | this node is excluded as an identity exactly when no record spells it otherwise |
| `LocateHolders.TwoCasingsTakeTwoPlaces` | crates/dig-node-core/src/download.rs:3167-3170 | one identity in two casings takes two places |
| `MissOutcome.AnswerBySearching` | crates/dig-node-core/src/download.rs:2777-2796 | the redirect leg: a redirect exactly when somebody was located, naming every located record in order, and what the search leaves remembered |
| `MissOutcome.AnswersExactlyWhen` | crates/dig-node-core/src/download.rs:2728-2797 | each of the five answers as an equivalence in what the miss depends on; a redirect names every located record in order, one depth on |
| `MissOutcome.ARedirectNames` | crates/dig-node-core/src/download.rs:2792-2796 | the providers of a redirect are the first mentions of everybody but this node in everything the search heard, so the node's own findings lead it in their order |
| `MissOutcome.NotFoundExactlyWhen` | crates/dig-node-core/src/download.rs:2735-2791 | every way to a not-found and no other, a fetch that reached nobody having forgotten what was remembered |
| `MissOutcome.NotFoundAssertsAnAbsenceExactlyWhen` | crates/dig-node-core/src/download.rs:2665-2669 | a not-found stands for an established absence exactly with an engine attached and redirects left |
| `MissOutcome.NotFoundWithoutASearch` | crates/dig-node-core/src/download.rs:2769-2776 | at the redirect cap the same not-found answers a findable and an unsearchable content |
| `MissOutcome.NotFoundIgnoresPeers` | crates/dig-node-core/src/download.rs:2670-2678 | in one miss, nothing a peer asked on says or delays makes or unmakes a not-found |
| `MissOutcome.RunsGiveTheSameNotFounds` | crates/dig-node-core/src/download.rs:2670-2678 | two whole runs with the same misses, walks, forgettings and switch give the same not-founds, whatever the peers asked on |
| `MissOutcome.RedirectsAreUsable` | crates/dig-node-core/src/download.rs:2792-2796 | a redirect names somebody, nobody twice, never this node, one depth on, within the cap |
| `MissOutcome.RedirectChainsEnd` | crates/dig-node-core/src/download.rs:2765-2776 | a caller is bounced at most four times through whatever nodes |
| `MissRun.DecideGoverned` | crates/dig-node-core/src/download.rs:2728-2797 | one whole miss over its three limiters: the outcome, each limiter asked exactly when the code asks it, the search made over what the fetch left remembered, and what is left untouched when no search runs |
| `MissRun.Admit` | crates/dig-node-core/src/download.rs:2735-2776 | everything before the search: its answer, and the lookup and proxy limiters after it |
| `MissRun.TryFetchGoverned` | crates/dig-node-core/src/download.rs:2756-2763 | fetch-through happens only when wanted and admitted by the proxy limiter, which the operator is not checked against; a download that reaches nobody forgets the content's remembered holders and nothing else |
| `MissRun.SearchGoverned` | crates/dig-node-core/src/download.rs:2777-2796 | the search behind the relay limiter, which is asked exactly when an asker is installed |
| `MissRun.EnrichGoverned` | crates/dig-node-core/src/lib.rs:4278-4302 | one availability item not held: it searches exactly when the lookup limiter admits it, at any depth, and the relay limiter is asked exactly when it then has an asker |
| `MissRun.RelayGoverned` | crates/dig-node-core/src/seams/dig_peer/module_relay.rs:125-183 | a capsule is pulled on a requestor's behalf exactly when it is asked for, there is an engine, relaying is switched on and there is a warmer, and, for a remote requestor, the proxy limiter admits it; a request stopped at any of the four free gates costs no token |
| `MissRun.TablesFollowTheRun` | crates/dig-node-core/src/download.rs:2740-2780 | the handlers' limiters hold and answer, request by request, what the run of their checks says |
| `MissRun.ChecksExactlyWhen` | crates/dig-node-core/src/download.rs:2728-2797 | which limiters a request of each kind is checked against, as equivalences in its fields and the earlier answers |
| `MissRun.SpendingIsBounded` | crates/dig-node-core/src/download.rs:2709-2726 | over any window of any run mixing misses, availability items and relays, one requestor causes at most a burst and the refill of searches, of fetches and relay pulls when remote, and of legs that ask other nodes, each from its own limiter |
| `MissRun.RecruitmentIsBounded` | crates/dig-node-core/src/download.rs:1893-1925 | over any window of any such run one requestor recruits at most the sum of the powers for each leg its relay limiter admits |
| `MissRun.FortyEightPerBurst` | crates/dig-node-core/src/download.rs:1908-1912 | at the defaults a full relay burst recruits at most forty-eight nodes |
| `AskNetwork.QuestionsAreBounded` | crates/dig-node-core/src/download.rs:1980-2068 | in every run, k hops from where the question came in it arrives at most fan-out to the k times, no deeper than the cap, and all arrivals but the first number at most the sum of the powers over the hops left |
| `AskNetwork.TwelveAtTheDefaults` | crates/dig-node-core/src/download.rs:1908-1915 | at the defaults at most twelve are recruited, nine of them at the last hop |
| `AskNetwork.EveryHopIsSound` | crates/dig-node-core/src/download.rs:2028-2068 | depth rises by one per hop, identity is echoed, the sender and its asker are never asked back, no hop gets more time than its sender or than the ceiling |
| `AskNetwork.EveryRunEnds` | crates/dig-node-core/src/download.rs:2971-3087 | every run takes at most a fixed number of protocol steps, whatever the graph and the interleaving |
| `AskNetwork.TwentyFiveStepsAtTheDefaults` | crates/dig-node-core/src/download.rs:2971-3087 | at the defaults at most twenty-five steps |
| `AskNetwork.ForwardedTwiceOnlyWhenForgotten` | crates/dig-node-core/src/download.rs:2004-2014 | in every run a node forwards the question twice only after its lifetime or once its seen-set was filled over; the converse is AskOnce.ForwardsAgainWhenForgotten |
| `AskOnce.EachNodeForwardsOnce` | crates/dig-node-core/src/download.rs:2004-2014 | a question that cannot come back - two hops or fewer, or three asked one at a time, or no time or nobody to ask - is forwarded at most once by each node in every run, however late, however long and whatever the seen-sets forgot |
| `AskOnce.OnceAtTheDefaults` | crates/dig-node-core/src/download.rs:338-343 | so with the two hops every node running this code has, unconditionally |
| `AskOnce.EachNodeForwardsAtMostOnce` | crates/dig-node-core/src/seams/dig_peer/holder_cache.rs:223-237 | of every question, a node forwards it twice only if it can come back at all, and then only once the run has outlasted a lifetime or the node's seen-set has been filled over |
| `AskOnce.ForwardsAgainWhenForgotten` | crates/dig-node-core/src/seams/dig_peer/holder_cache.rs:264-276 | a repeated arrival in a run is let through once the lifetime of the last grant has ended or a capacity of others displaced it, for no less, and exactly then if that grant was alone at its instant; it is forwarded again exactly when it is let through and fewer than thirty-two slots are held |
| `AskNetwork.SlotsAreBounded` | crates/dig-node-core/src/seams/dig_peer/forwarded_ask.rs:50-64 | in every run at most thirty-two legs of one node are in flight at once, counting those of every other question |
| `AskClock.ForwardingsLieWithin` | crates/dig-node-core/src/download.rs:2032-2037 | when no message and search before a leg takes more than some delay, all the claims a question is forwarded on lie within what the first leg was given and one delay for each hop that may forward below it |
| `AskWay.ALifetimeSufficesExactlyWhen` | crates/dig-node-core/src/seams/dig_peer/holder_cache.rs:257-259 | over all runs whose messages and searches take no more than a delay, each node whose seen-set is not filled over forwards the question at most once if and only if the question cannot come back, or what the first leg was given and one delay for each hop that may forward below it fit in a lifetime |
| `AskWay.NoRequestOutlivesALifetimeExactlyWhen` | crates/dig-node-core/src/seams/dig_peer/holder_cache.rs:257-259 | over the same runs, a question of two hops or more is forwarded only within a lifetime of its first claim if and only if that bound fits in a lifetime |
| `AskWay.UnderWayPastItsLifetime` | crates/dig-node-core/src/seams/dig_peer/holder_cache.rs:257-259 | at the shipped three peers and two hops with a carried 65 seconds, for any delay at all some run has a node still forwarding after the first claim has lapsed, and no run has a node forward twice |
| `AskNetwork.LookIsTheLoopsTurn` | crates/dig-node-core/src/download.rs:2040-2104 | cutting the ask loop at each ask leaves each turn of it unchanged |

## Left out

- Floating point: `f64` tokens are exact reals with the limiter's tolerance kept; rounding is not modelled.
- Integer widths and overflow: byte totals, ticks and counters that the code holds in 64 bits are unbounded, except where the code saturates or clamps (32-bit counts, 64-bit wire fields, 8-bit hops).
- `MissRateLimiter::reconfigure` (`rate_limit.rs:277-287`), which drops the table; every run here has one configuration.
- Locks, poisoned-lock recovery and task scheduling: each call is one atomic step, and a forwarded leg is cut only at its asks.
- `AskNetwork`: peers' answers are not threaded back up the tree, because the bounds do not depend on them; what a leg concludes from any answers is in `ForwardedAsk` and `LocateHolders`. Time passes only between events.
- `ForwardedAsk.AskPeers`: what routing and conduct make of the observations recorded after each ask; time passes only inside an exchange.
- `ForwardedAsk.ForwardedHolders`: a leg is one call here, so the slot it holds while it asks shows only in `AskNetwork`, where legs interleave; the relay budget given to it comes from the limiter in `MissRun`.
- `MissRun.SpendingIsBounded`: the pulls a relay shares with an earlier one, and what a fetch serves from memory, are counted as fetches all the same.
- `MissOutcome.RunsGiveTheSameNotFounds`: forgettings are part of what both runs share; a download that every peer failed makes one, and after it the node walks again for itself.
- `AskWay.ALifetimeSufficesExactlyWhen`: a breadth of one with four hops or more is not covered; there only `AskClock.ALifetimeSuffices` holds, for the run that meets its bound needs a first peer that keeps its asker busy before the next is asked. The code's breadth is three.
- `LocateHolders.Locate`: how long the walk and the leg take is not tied to the instants at which the cache is read and written and the asking begins.
- `HolderCache.WalkedAgainExactlyWhen`: for a claim alone at its instant; among claims granted at one and the same instant the hash map's own order decides which is dropped first. Both halves hold without that: `ForgottenIsGrantedAgain`, `WalkedTwiceOnlyWhenForgotten`.
- `MirrorBond.FindProviders`: the standard library's stable sort is a specification function, not an in-place sort.
- `CapsuleKey.Cache.MigrateLegacyModuleExtensions`: only regular files in two directory levels, with `exists` truthful; directories named like capsules, symbolic links and concurrent writers are not modelled.
- `StagingReaper.StagingDir.ReapStagingOver`: names that are not UTF-8 are taken to be absent from the listing, and the protection registry answers once per file of a listing of distinct names.
- `DhtSampling.SampleCandidates`: the generator that picks the probed points is not modelled; the probes' answers are given.
- `Tier0Prefetch.RunRound`: relevance scoring and selection belong to another crate; a selection is any list of distinct indices.
- `Tier0Live.NodeTier0Fetcher.FetchAndCache`: which tags an eviction sweep forgets, and how a pull ends, are arbitrary; that a pull keeps its cap is not assumed, and where it matters is a stated condition.
- The production lookup, anchor gate, warmer and evictor of `tier0_live.rs`, the wire codec of asks and answers, request shaping and logging: calls whose results are inputs here.
- The bodies of `AskRoutingState`, `ConductState` and the other dig-sex decisions: held to the contracts above.
- `subscription.rs`, `chainwatch.rs`, `store_exchange.rs`, the chat inbox and sealing, environment parsers and exit codes: they would add only easy members or are foreign calls.

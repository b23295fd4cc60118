# cloistr-relay: a Dafny model of its hard core

This project models the parts of the relay whose correctness depends on arithmetic over whole computations, on
interleavings, or on runs, and proves what they are for.

| file | what it models |
|---|---|
| `Options.dfy`, `SortSlice.dfy`, `Keys.dfy` | a value that may be missing and how sets compare; what `sort.Slice` promises; the pubkeys a signature check lets through |
| `Sums.dfy`, `PageRank.dfy`, `RankConvergence.dfy`, `RankFixedPoint.dfy` | the follow graph, one round of the rank iteration as real sums, and the one ranking that repeated rounds converge to |
| `PageRankCalculator.dfy`, `TrustLevels.dfy` | the rank computation as the program runs it: link maps, nested loops, stop test, normalisation; what the thresholds make of the ranks |
| `Ownership.dfy` | group owners: the walk along signed transfers, and the gate that decides who may write group metadata |
| `OwnershipRun.dfy` | runs of that gate: the stored events decide which event is stored next |
| `ArbiterClaims.dfy`, `ArbiterProtocol.dfy` | the claims table with its settle window; any number of concurrent `TryClaim` calls with timed-out writes that may commit later |
| `TokenBucket.dfy`, `TrustLimiter.dfy` | one rate bucket; the shared map of mutable buckets, two per identity, and its sweeper |
| `SlidingWindow.dfy`, `MemoryBuckets.dfy`, `MemoryRaces.dfy` | the Redis sliding-window limiter and the in-memory per-IP limiter, called one at a time and racing |
| `TierTime.dfy`, `Payments.dfy`, `PaymentTables.dfy`, `GrantDelivery.dfy` | paid time; webhooks and schedulers interleaved statement by statement; the tables updated in place; exactly when bought time is delivered |
| `AccessSnapshot.dfy`, `AccessStore.dfy` | the in-memory access lists: concurrent writers and refreshers; the store as one process sees it |
| `WriteAhead.dfy`, `WriteAheadLog.dfy` | the write-ahead queue with several drainers; the drain loops |
| `GroupScope.dfy`, `GroupCountLaws.dfy` | private groups: the filtered query and the COUNT computed by subtraction; for which filters the two agree and keep private groups private |
| `ProofOfWork.dfy` | the leading-zero-bit count as a numeric bound |

Style. Where the program updates state in place, a class does the same and its methods are proved against functions on
values; where it interleaves, a state machine has one step for each SQL statement, Redis command, Lightning answer or
clock reading, and theorems range over all behaviours. Floats are `real`, times are integers or reals on a clock that
does not run backwards, event ids are naturals (claims, ownership) because only their order matters. Tag lists, filters
and keys are strings as in the program.

Results that differ from what the repository's text says:

- `IsAuthorizedMetadataWriter` documents "current owner only". A `transfer-to` tag may name any string, and a resolved
  owner "prefix:" with 16 hexadecimal digits lets every key with those digits write. `Ownership.RulesHoldIff` gives the
  exact condition for one request, `OwnershipRun.OwnersWriteIff` for whole runs, and `OwnershipRun.SignalBreaksOwnership`
  a run in which a stranger is stored.
- `RejectExternalMetadata` documents that groups with an older d-tag are allowed through. Everybody is let through exactly
  when the gate has no store (`OwnershipRun.LegacyAllowedIff`). With a store, whoever the transfers lead to from the
  author of the oldest kind 39000 event passes, and nobody while there is none (`OwnershipRun.LegacyPassesIff`).
- `internal/arbiterclaim/store.go:16-18` promises that the retry of an event whose abandoned INSERT committed is refused
  with that event's own id. It is refused, but with its own id exactly when no lower id displaced it before the read
  (`ArbiterProtocol.RetryLearnsItHoldsIff`; `ArbiterProtocol.DisplacedRetry` is a run in which one does).
- `MaxRetries` documents "max attempts"; with zero or less an event is still tried once (`WriteAhead.MaxRetriesHoldsIff`).
- A new rate bucket is commented "start full"; it starts with one second's worth, half of its burst
  (`TokenBucket.BurstSizes`).
- The Redis limiter keys a request by its time alone, so requests at one instant count once
  (`SlidingWindow.WindowBoundIff`).
- A grant to a member with a never-expiring paid tier gives that tier an end (`TierTime.GrantKeepsPaidTimeIff`).
- Bought time is not always delivered. Over all behaviours it is, at every moment, exactly when no grant is overtaken:
  between a handler's read of the member row and its write no other grant is written whose expiry lies after the clock
  the handler computes with (`GrantDelivery.DeliveredIff`). `GrantDelivery.MonthIsLost` is a run from an empty payment
  table in which two paid months end one month ahead.
- The trust thresholds are commented as the top 1% and 10% of scores. Every pubkey that occurs in the follow graph,
  followed by somebody or not, reaches the lower one in graphs of up to 810 pubkeys and the upper one up to 81
  (`PageRankCalculator.SmallGraphsTrustEverybody`); what happens beyond, `TrustLevels.StarLevels` shows for stars of any
  size.
- `internal/groups/scope.go:22-24` and `docs/groups-safe-enable.md` promise that a private group's events cannot come
  back through a COUNT. That fails for a filter that names `h` values the reader may read or that name no group: an event
  with a second, private `h` tag is counted. `GroupCountLaws.RevealsIff` gives the exact filters,
  `GroupCountLaws.BucketCountReveals` and `GroupScope.SecondTagIsCounted` the smallest case.
- Removing the last allowed kind allows every kind (`AccessStore.Store.DisallowKind`), as the source intends.

## Model

| member | source | states |
|---|---|---|
| `PageRank.InLinksCarryTheInflow` | internal/wot/pagerank.go:212-219 | summing over the list of incoming links gives what reaches the pubkey along the edges, a repeated edge counted each time |
| `PageRank.FlowByTarget` | internal/wot/pagerank.go:211-219 | summing what reaches every pubkey gives exactly the flow along the follow edges |
| `PageRank.FlowBySource` | internal/wot/pagerank.go:176-181 | summing what every pubkey hands out over its outgoing links gives the same flow along the edges |
| `PageRank.TotalInflow` | internal/wot/pagerank.go:211-219 | in one round the total inflow is the total score less what pubkeys that follow nobody hold |
| `RankConvergence.MassOfRound` | internal/wot/pagerank.go:209-222 | exact mass balance of a round: 0.15 plus 0.85 times the mass that is not dangling |
| `RankConvergence.MassStaysBounded` | internal/wot/pagerank.go:209-222 | a round keeps total mass at or below the larger of 1 and the previous mass, on every follow graph |
| `RankConvergence.RoundIsPositive` | internal/wot/pagerank.go:209-222 | after a round every pubkey of the graph has a score of at least its positive random jump |
| `RankConvergence.Contraction` | internal/wot/pagerank.go:211-222 | one round brings any two score vectors closer in L1 by the factor 0.85, whatever the graph |
| `RankConvergence.Drift` | internal/wot/pagerank.go:204-230 | k rounds bring any two start vectors closer by k-fold damping |
| `RankConvergence.BoostIsWashedOut` | internal/wot/pagerank.go:196-201 | the distance between runs with and without the owner boost is at most 0.85 to the k of what it was |
| `RankConvergence.InitialMass` | internal/wot/pagerank.go:189-201 | for every boost that is not negative the start vector covers exactly the graph, is non-negative and has mass at most the larger of 1 and the boost |
| `RankConvergence.StartVector` | internal/wot/pagerank.go:188-201 | every pubkey of the graph starts with one n-th, a trust root with that many times the boost |
| `RankConvergence.NinetySixRoundsSuffice` | internal/wot/pagerank.go:13-15 | from the largest first step that a boost of 2 allows, 96 damped rounds fall below the threshold 1e-6 |
| `RankConvergence.NinetyNineRoundsSuffice` | internal/wot/pagerank.go:13-15 | from the largest first step that a boost of 5 allows, 99 do |
| `RankConvergence.SettlesAfter` | internal/wot/pagerank.go:204-236 | for any boost that is not negative the test holds once the largest possible first step, 0.15 + 1.85 * max(1, boost), has decayed below the threshold |
| `RankConvergence.SettlesBeforeTheCap` | internal/wot/pagerank.go:204-236 | for every graph, every set of trust roots and every boost from 0 to 5 the convergence test holds after round 100 at the latest, and after round 97 for boosts up to the configured 2 |
| `RankConvergence.NearEveryFixedPoint` | internal/wot/pagerank.go:232-236 | at loop exit the scores are within 17/3 * n * 1e-6 in L1 of every fixed point of the round |
| `RankConvergence.NearEveryLaterRound` | internal/wot/pagerank.go:232-236 | however many rounds were added after the exit, the scores would move by no more than that bound; no fixed point is presupposed |
| `RankConvergence.AnyTwoExitsAgree` | internal/wot/pagerank.go:232-236 | two computations on one graph that pass the test, from any start vectors, end within 34/3 * n * 1e-6 |
| `RankConvergence.FixedPointsAreUnique` | internal/wot/pagerank.go:209-222 | the round has at most one fixed point |
| `RankFixedPoint.HomogeneousIsZero` | internal/wot/pagerank.go:211-222 | without the random jump, no scores but zero satisfy the equations of any set of pubkeys with zero elsewhere |
| `RankFixedPoint.Solvable` | internal/wot/pagerank.go:211-222 | for any set of pubkeys, any constant term and any scores elsewhere, their equations have a solution, found by eliminating one pubkey at a time |
| `RankFixedPoint.FixedPointExists` | internal/wot/pagerank.go:209-222 | every follow graph has scores that a round leaves as they are |
| `RankFixedPoint.ExitIsNearTheRanking` | internal/wot/pagerank.go:232-236 | there is exactly one such ranking, and the scores at loop exit are within 17/3 * n * 1e-6 of it in L1 |
| `PageRankCalculator.BuildLinks` | internal/wot/pagerank.go:171-181 | the three maps filled edge by edge hold exactly the pubkeys, outgoing and incoming links of the graph |
| `PageRankCalculator.StartScores` | internal/wot/pagerank.go:189-201 | the two loops over maps build the start vector whatever order the maps are iterated in; roots outside the graph get nothing |
| `PageRankCalculator.RunRound` | internal/wot/pagerank.go:205-230 | the node loop, in any order, computes one round, and its largest difference is below the threshold exactly when every score moved by less |
| `PageRankCalculator.Normalise` | internal/wot/pagerank.go:239-250 | every score is divided by the true maximum, which is positive |
| `PageRankCalculator.PageRankCalculator.ComputePageRank` | internal/wot/pagerank.go:161-255 | a store error or fewer than 10 pubkeys leave the old scores; otherwise the scores published are those of the first round that passes the test, or of round 100 if none does, divided by their maximum; the boost must not be negative |
| `PageRankCalculator.CapNeverBinds` | internal/wot/pagerank.go:203-237 | for boosts from 0 to 5 the loop always leaves through its convergence test, for boosts up to 2 by round 97 |
| `PageRankCalculator.PublishedScores` | internal/wot/pagerank.go:239-250 | every pubkey of the graph gets a score in (0, 1], and the best is exactly 1 |
| `PageRankCalculator.IterateMass` | internal/wot/pagerank.go:204-230 | after any round the total mass is at most 0.15 + 0.85 * max(1, boost) |
| `PageRankCalculator.PublishedFloor` | internal/wot/pagerank.go:239-250 | every pubkey of the graph, followed or not, gets at least the random jump divided by that mass |
| `PageRankCalculator.SmallGraphsTrustEverybody` | internal/wot/pagerank.go:135-158 | with boosts up to 2: in graphs of up to 810 pubkeys the level is unknown exactly for pubkeys that neither occur in the graph nor are roots, and up to 81 every pubkey that occurs and is no root ranks as followed |
| `PageRankCalculator.RootsBarelyMatter` | internal/wot/pagerank.go:196-237 | computed for any two sets of trust roots and any two boosts, the converged exit scores differ by at most 34/3 * n * 1e-6 in total |
| `PageRankCalculator.MoreRoundsBarelyMatter` | internal/wot/pagerank.go:204-237 | running on past the exit would change the published computation's scores by at most 17/3 * n * 1e-6 in total |
| `PageRankCalculator.PageRankCalculator.GetTrustLevelFromPageRank` | internal/wot/pagerank.go:134-158 | the level of a pubkey from the last published scores and the two thresholds |
| `TrustLevels.HigherScoresTrustMore` | internal/wot/pagerank.go:148-157 | who is no root ranks as followed exactly from 0.001 on and as followed by the followed exactly from 0.0001 on below that; a higher score never lowers trust |
| `TrustLevels.RoundLiftsTheFollowed` | internal/wot/pagerank.go:211-222 | after a round over positive scores a pubkey has exactly the random jump when nobody follows it, and more when somebody does |
| `TrustLevels.UnfollowedRankLowest` | internal/wot/pagerank.go:203-250 | in every graph, for every set of roots and positive boost, the published scores put those whom nobody follows last, all level, and everybody who is followed strictly above them |
| `TrustLevels.FollowersNeverHurt` | internal/wot/pagerank.go:134-158 | so a pubkey that is followed is never trusted less than one, no root, that nobody follows |
| `TrustLevels.StarExits` | internal/wot/pagerank.go:203-237 | on a star of ten or more pubkeys, each but the hub following the hub alone, whatever the roots and for boosts from 1 to 5, the loop ends with round two or three, at the scores it would keep for ever |
| `TrustLevels.StarPublished` | internal/wot/pagerank.go:239-250 | on such a star the hub gets 1 and each of its k followers one part in 1 + 0.85 * k |
| `TrustLevels.StarLevels` | internal/wot/pagerank.go:134-250 | so, roots aside, the hub of a star of any size from ten on ranks as followed, its followers too up to 1176 pubkeys, as followed by the followed up to 11764, and as unknown beyond; so does whoever is not in the star |
| `TrustLevels.RankStar` | internal/wot/pagerank.go:134-255 | the same through the calculator object: it computes and is asked for a level; a star of fewer than ten is not ranked, and everybody but the roots is unknown |
| `TrustLevels.StarsExist` | internal/wot/pagerank.go:171-181 | there are stars of every size |
| `SortSlice.Sort` | internal/groups/resolve.go:246-251 | the library sort, as specified: the same elements with their multiplicities, none less than one placed before it |
| `Keys.HexRoundTrip` | internal/groups/resolve.go:16-19 | writing a number in hexadecimal digits and reading it back gives the number, so that there are as many keys as numbers of 64 digits |
| `Keys.FreshKey` | internal/groups/resolve.go:16-19 | outside any set smaller than the number of keys there is a key |
| `Ownership.GetTagValue` | internal/groups/resolve.go:255-264 | the loop returns the second element of the first tag that has two elements or more and the name as its first, and "" when there is none |
| `Ownership.OwnerReadsTransfersOnly` | internal/groups/resolve.go:53-117 | adding, dropping or changing tags of any other name, in any of the stored events, leaves the resolved owner unchanged |
| `Ownership.LatestIsNewest` | internal/groups/resolve.go:233-253 | the latest event of an author is one of the author's events that none of them is newer than, by time and then id; there is none exactly when the author has no event |
| `Ownership.LatestIsUnique` | internal/groups/resolve.go:246-252 | with unique ids the newest event is determined by the set of events alone |
| `Ownership.LatestEventFrom` | internal/groups/resolve.go:236-253 | filtering, sorting newest first and taking the head yields that event, given unique ids |
| `Ownership.EarliestEvent` | internal/groups/resolve.go:121-134 | the scan keeps the earliest event seen so far |
| `Ownership.EarliestIsFirst` | internal/groups/resolve.go:119-134 | the event it keeps is in the list and no event is older, ties by lowest id |
| `Ownership.ChainShape` | internal/groups/resolve.go:99-117 | the walk visits no pubkey twice, takes at most 20 hops, and every hop is to the non-empty successor its predecessor's latest event names |
| `Ownership.ChainReadsItself` | internal/groups/resolve.go:99-117 | the walk depends only on the transfers of the pubkeys it visits |
| `Ownership.OwnerEndsTheChain` | internal/groups/resolve.go:97-117 | the chain starts at the genesis owner, each link is the transfer that the latest event of the one before names, and it stops only after 20 transfers, at somebody who names nobody, or before a pubkey it has visited |
| `Ownership.WalkTransferChain` | internal/groups/resolve.go:99-117 | the loop with its visited set ends at the last pubkey of that chain |
| `Ownership.GenesisFound` | internal/groups/resolve.go:66-82 | when one pubkey matches the d-tag's prefix, the search finds it wherever the query placed it, and reports the prefix signal exactly when no event matches |
| `Ownership.GenesisIsTheFirst` | internal/groups/resolve.go:66-82 | should several pubkeys match the prefix, the first event of the answer whose author does decides; none when no author does |
| `Ownership.OwnerIgnoresOrder` | internal/groups/resolve.go:53-95 | with unique ids, and for new-format d-tags one pubkey that matches the prefix, the resolved owner does not depend on the order or repetition of the query result |
| `Ownership.OwnerNeedsOnlyLatest` | internal/groups/resolve.go:62-84 | for a new-format d-tag with one matching pubkey, dropping events but keeping each author's latest leaves the owner unchanged |
| `Ownership.OwnerIgnoresOutsiders` | internal/groups/resolve.go:62-117 | for a new-format d-tag with one matching pubkey that has an event, adding any events of authors who are not on the chain leaves the owner unchanged |
| `Ownership.OwnerOnlyRule` | internal/groups/resolve.go:144-176 | for kind 39000 no key but the owner's is authorized, exactly when the resolved owner is not "prefix:" with 16 hexadecimal digits |
| `Ownership.RulesHoldIff` | internal/groups/resolve.go:136-176 | for every kind, every key and every admin list signed by keys, the documented rules (owner; delegated admin for member lists; nobody else) hold in both directions exactly when the resolved owner is not "prefix:" with 16 hexadecimal digits |
| `Ownership.ScanAdminList` | internal/groups/resolve.go:200-211 | the nested loops find out whether some p-tag of the pubkey carries a member-writing permission from its third element on |
| `Ownership.WhoMayWrite` | internal/groups/reject_metadata.go:37-70 | unless the owner is a prefix signal, a key other than the relay's gets a metadata event past the gate exactly when it is the resolved owner or, for kind 39002 alone, when the owner's newest admin list has a p-tag of it with "add-user" or "remove-user" from the third element on; admin lists are signed by keys and have unique ids |
| `Ownership.RoleLabelIsIgnored` | internal/groups/resolve.go:194-211 | a role label before the permissions of a p-tag changes nothing, unless it reads as a permission itself |
| `Ownership.GateWithoutAnswers` | internal/groups/reject_metadata.go:39-85 | kinds outside 39000 to 39009 and the relay's own key pass; otherwise a missing d-tag and a failing store refuse, and without a store a new-format d-tag passes exactly the pubkeys that begin with its prefix |
| `Ownership.EmptyStoreIsPrefixOnly` | internal/groups/reject_metadata.go:54-85 | while no kind 39000 event is stored, having a store and having none come to the same for new-format d-tags |
| `OwnershipRun.AtMost21Authors` | internal/groups/resolve.go:28-31 | while all stored authors are on the chain there are at most 21, so the query limit of 100 cuts nothing off |
| `OwnershipRun.AnswerResolves` | internal/groups/resolve.go:216-231 | with one row for each author, unique ids, at most 100 rows and one pubkey that matches the prefix, the gate resolves the end of the chain through the rows from any answer to the query, in any order |
| `OwnershipRun.OwnerWrites` | internal/groups/resolve.go:99-117 | storing a new event of the current owner leaves the chain or extends it by exactly the successor that event names, and keeps every stored author on it |
| `OwnershipRun.AcceptKeepsInv` | internal/groups/reject_metadata.go:37-70 | one accepted event was written by the current owner and moves ownership by at most that one hop |
| `OwnershipRun.OwnershipSafety` | internal/groups/reject_metadata.go:37-70 | for a new-format d-tag that one key matches, in every run of accepted kind 39000 events signed by keys, with new ids, from an empty store - one row for each author, no deletion, no relay-key author, no accepted transfer to "prefix:" with 16 hexadecimal digits - all authors are on the chain, only the owner of the moment writes, each event keeps the owner or moves it one hop to the successor it names, and there are never more than 21 authors |
| `OwnershipRun.ChainsOnlyGrow` | internal/groups/reject_metadata.go:37-70 | in such a run the chain only ever grows at its end, so ownership does not return |
| `OwnershipRun.SignalBreaksOwnership` | internal/groups/resolve.go:158-163 | for every such value: a two-event run in which a key that is not the owner is stored - a stranger off the chain, or the former genesis owner when the digits are its own |
| `OwnershipRun.OwnersWriteIff` | internal/groups/resolve.go:99-176 | whatever set of transfer values is let in, every event of every run is written by the owner of its moment exactly when none of the values is "prefix:" with 16 hexadecimal digits |
| `OwnershipRun.LegacyAllowedIff` | internal/groups/reject_metadata.go:26-32 | for every metadata kind, the gate lets every key other than the relay's through for an older d-tag exactly when it has no store, as long as no admin list has as many tags as there are keys |
| `OwnershipRun.LegacyPassesIff` | internal/groups/resolve.go:87-95 | with stored events, unique ids, admin lists signed by keys and an owner that is no prefix signal, exactly these keys pass: the one the transfers lead to from the author of the oldest event, and for the member list its delegated admins; with no stored event none does |
| `ArbiterClaims.ClaimStore.constructor` | internal/arbiterclaim/store.go:34-39 | the settle window is positive, the default of ten seconds when it was not configured |
| `ArbiterClaims.ClaimStore.Insert` | internal/arbiterclaim/store.go:74-88 | the statement writes exactly when there is no holder yet or a lower id meets a row younger than the window, returns the new holder exactly then, and touches no other row |
| `ArbiterClaims.ClaimStore.HolderOf` | internal/arbiterclaim/store.go:112-126 | reads the id of the current row, or that there is none |
| `ArbiterClaims.Winner` | internal/arbiterclaim/claim.go:110-119 | sorting a copy by id and taking its head picks a claim of the lowest event id, and fails only on no claims |
| `ArbiterClaims.HoldersDescend` | internal/arbiterclaim/store.go:74-83 | whatever the arrivals, there is a holder from the first on, and each change is to a strictly lower id within a window of the previous one |
| `ArbiterClaims.DisplacementsAreBounded` | internal/arbiterclaim/store.go:28-32 | k distinct ids displace the holder at most k-1 times, all before first claim + (k-1) windows |
| `ArbiterClaims.FinalAfterWindow` | internal/arbiterclaim/store.go:28-32 | a row that has stood for a whole window is not changed by any later arrivals |
| `ArbiterClaims.HolderIsWinnerIff` | internal/arbiterclaim/store.go:74-83 | the table ends up with the lowest id exactly when that id's first INSERT found the window open |
| `ArbiterClaims.HolderIsWinner` | internal/arbiterclaim/claim.go:104-119 | if all claims arrive less than a window after the first, the holder is the `Winner` of the claims, in every arrival order |
| `ArbiterProtocol.BehaviourKeepsInv` | internal/arbiterclaim/store.go:71-110 | in every interleaving the table is the fold of the INSERTs that ran, and every call that lost is shut out or is itself the holder |
| `ArbiterProtocol.HolderOnlyDescends` | internal/arbiterclaim/store.go:74-83 | over any behaviour rows never disappear and the holder's id never rises |
| `ArbiterProtocol.ShutOutStays` | internal/arbiterclaim/store.go:74-83 | a claim that met a lower id, or a row past its window, stays shut out in every continuation |
| `ArbiterProtocol.SettledHolderIsFinal` | internal/arbiterclaim/store.go:28-32 | a holder undisturbed for a settle window is the holder in every continuation |
| `ArbiterProtocol.LoserNeverHolds` | internal/arbiterclaim/store.go:53-59 | once a call returned ErrLost naming another id, its claim is never the holder afterwards, not even through its own timed-out INSERTs that commit late |
| `ArbiterProtocol.WonMeansBecameHolder` | internal/arbiterclaim/store.go:71-110 | success is returned exactly when the INSERT made the claim the holder at that step; otherwise the table is unchanged and the holder is read next |
| `ArbiterProtocol.LostNamesTheHolder` | internal/arbiterclaim/store.go:89-102 | the holder read after a loss is always there, and ErrLost names it |
| `ArbiterProtocol.EveryRefusalNamesTheHolder` | internal/arbiterclaim/store.go:90-108 | in every step of every behaviour in which a call comes to ErrLost naming w, it has just read the table, and w is the holder before and after |
| `ArbiterProtocol.StoreErrorIff` | internal/arbiterclaim/store.go:90-105 | a call ends in a store error exactly when its INSERT was abandoned or its read of the holder failed |
| `ArbiterProtocol.VerdictsStand` | internal/arbiterclaim/store.go:71-110 | a call that has returned keeps its verdict in every continuation |
| `ArbiterProtocol.EachInsertRunsOnce` | internal/arbiterclaim/store.go:71-88 | over any behaviour each call's INSERT runs at most once, abandoned or not, and the clock is that of the last tick |
| `ArbiterProtocol.InsertDecides` | internal/arbiterclaim/store.go:74-83 | an INSERT, a late one included, takes a task that nobody holds, or whose holder has a higher id and took it less than a window ago; otherwise, and for every other task, the table stays as it is |
| `ArbiterProtocol.OnlyInsertsWrite` | internal/arbiterclaim/store.go:71-110 | no other step writes the table |
| `ArbiterProtocol.LostToItselfIff` | internal/arbiterclaim/store.go:89-102 | in every behaviour a call that lost is told its own id exactly when its claim is the holder at the moment of the read |
| `ArbiterProtocol.RetryLearnsItHoldsIff` | internal/arbiterclaim/store.go:13-18 | once a claim has become the holder, a retry of it changes nothing and is refused: with its own id exactly when nobody displaced it up to the retry's read, with the lower id that holds it otherwise |
| `ArbiterProtocol.DisplacedRetry` | internal/arbiterclaim/store.go:13-18 | a run of eight steps in which the abandoned INSERT commits, is displaced within the window, and the retry is told the other id |
| `ArbiterProtocol.SuccessIsReturnedOnce` | internal/dbcall/dbcall.go:16-18 | in every behaviour at most one call returns success for a claim, however often it is retried on any replica, and that claim or a lower id is the holder from then on |
| `ArbiterProtocol.TableAgreesWithWinner` | internal/arbiterclaim/claim.go:104-119 | in every behaviour, claims that all ran less than a window after the first leave the `Winner` as holder |
| `TokenBucket.BucketStaysValid` | internal/wot/trust.go:136-152 | tokens stay between zero and two seconds' worth over every run |
| `TokenBucket.SweptRunIsNeverLooser` | internal/wot/trust.go:136-184 | after any run, the swept bucket plus what it admitted is at most the unswept bucket plus what that admitted, and it admitted no more |
| `TokenBucket.EarlySweepLoosens` | internal/wot/trust.go:167-184 | if a bucket could be swept when idle for less than a second, a request would get through that the unswept bucket refuses |
| `TokenBucket.SweepingNeverLoosensIff` | internal/wot/trust.go:167-184 | sweeps never admit more than no sweeps, over all rates and runs, exactly when the idle time is at least a second; the relay's ten minutes is |
| `TokenBucket.RateBound` | internal/wot/trust.go:129-165 | if no request comes at a higher rate than L, at most 2L + L times its length get through in any stretch of time, sweeps and changes of trust level included |
| `TokenBucket.SpacedRequestsPass` | internal/wot/trust.go:136-152 | a request at least 1/L after the bucket's previous request is never refused |
| `TokenBucket.BurstIsWholeTokens` | internal/wot/trust.go:143-151 | k requests at one instant get through exactly up to the whole tokens there are |
| `TokenBucket.BurstSizes` | internal/wot/trust.go:154-162 | a new identity's first burst is one second's worth; after two idle seconds it is two |
| `TrustLimiter.RateBucket.Allow` | internal/wot/trust.go:136-152 | the method that updates the fields in place decides and ends as the value-level bucket |
| `TrustLimiter.Handler.GetOrCreateBucket` | internal/wot/trust.go:154-165 | the bucket returned is the stored one or a fresh one, no two keys share one, other keys keep theirs |
| `TrustLimiter.Handler.RejectEventByTrust` | internal/wot/trust.go:231-301 | while no two keys share a bucket object, which every method keeps true, the verdict of the whole gate - exemptions, one token, authenticated author, proof of work - and the new state of the shared map are those of the value-level step |
| `TrustLimiter.AcceptedIff` | internal/wot/trust.go:231-300 | for a hexadecimal event id: accepted exactly when of kind 24133, by an allowed pubkey, or granted a token and one of: authenticated as the very author, at a level without work or with a minimum of zero or less, or with an id below 2 to the (bits - minimum) |
| `TrustLimiter.RefusalsExplained` | internal/wot/trust.go:257-297 | a missing token is what a refused author is told first, and a request for work carries the bits found, fewer than asked |
| `TrustLimiter.OnlyTheAuthorsKeyCounts` | internal/wot/trust.go:464-476 | whichever key other than the author's the connection proved, or none, the verdict is the same; an author authenticated as the signing key is never asked for work |
| `TrustLimiter.NewAuthorGets` | internal/wot/trust.go:233-273 | of k events of an author without buckets, at one instant, the rate decision passes all when the kind or the author is exempt or the level unlimited, otherwise as many as the level's rate, or for collaboration kinds the larger of that and the collaboration rate |
| `TrustLimiter.DrawsFromOneBucket` | internal/wot/trust.go:257-273 | a collaboration event touches no bucket but the author's collaboration bucket, any other event none but the general one |
| `TrustLimiter.ExemptDrawsNothing` | internal/wot/trust.go:233-273 | events of the exempt kind, of allowed pubkeys and at unlimited levels take no token |
| `TrustLimiter.Handler.SweepStaleBuckets` | internal/wot/trust.go:169-184 | one pass removes exactly the buckets idle since before the cutoff |
| `TrustLimiter.SweepKeepsTheRecent` | internal/wot/trust.go:167-186 | the sweeper forgets exactly the buckets that nobody has drawn from for ten minutes |
| `TrustLimiter.KeyIsItsOwnBucket` | internal/wot/trust.go:116-123 | in any run the shared map gives each key the state and decisions of a bucket of its own |
| `TrustLimiter.GeneralBucketIsIsolated` | internal/wot/trust.go:251-275 | deleting all collaboration events and all events of other pubkeys changes no rate decision on a pubkey's general events |
| `TrustLimiter.CollabBucketIsIsolated` | internal/wot/trust.go:251-275 | deleting all general events and all events of other pubkeys changes no rate decision on a pubkey's collaboration events |
| `TrustLimiter.SweepingTheMapNeverLoosens` | internal/wot/trust.go:410-413 | at a fixed trust level, the sweeper over the shared map never lets a key admit more than it would unswept |
| `TrustLimiter.KeyRateBound` | internal/wot/trust.go:154-165 | whatever levels a pubkey moves through and whatever rate its bucket was made with, a key of the shared map lets at most 2L + L times the duration through, L being the highest rate it was drawn at |
| `SlidingWindow.Limiter.Allow` | internal/ratelimit/ratelimit.go:75-123 | decision and sorted set after each of the Redis calls, any of which may fail; other keys are untouched |
| `SlidingWindow.CallsFailOpen` | internal/ratelimit/ratelimit.go:87-120 | whichever Redis calls fail: when the window cannot be read the request passes and nothing is recorded; otherwise the admissions recorded in the last window decide, and an admission is recorded unless that very call fails |
| `SlidingWindow.RunHoldsInstants` | internal/ratelimit/ratelimit.go:87-120 | with no Redis failure, for calls in any non-decreasing order, the log holds every admitted instant that can still matter and no other |
| `SlidingWindow.PruningIsUnobservable` | internal/ratelimit/ratelimit.go:87-120 | at strictly increasing times, or with a cap of at most one, and with no Redis failure, the limiter admits exactly what a window over all past admissions admits: pruning and key expiry never show |
| `SlidingWindow.WindowBound` | internal/ratelimit/ratelimit.go:101-106 | at strictly increasing times, or with a cap of at most one, and with no Redis failure, no window, wherever it lies, holds more than limit times burst admissions |
| `SlidingWindow.InstantsAreBounded` | internal/ratelimit/ratelimit.go:101-112 | with no Redis failure, for calls in any non-decreasing order, shared instants included, no window holds admissions at more than limit times burst different instants |
| `SlidingWindow.SameInstantUndercounts` | internal/ratelimit/ratelimit.go:108-112 | with no Redis failure, from a cap of two on, any number of requests at one instant gets through |
| `SlidingWindow.WindowBoundIff` | internal/ratelimit/ratelimit.go:108-112 | with no Redis failure and shared instants allowed, the bound holds for all request sequences exactly when the cap is at most one |
| `MemoryBuckets.MemoryLimiter.Limited` | internal/ratelimit/memory.go:34-42 | a key is limited exactly when it has spent all its tokens; other keys are untouched |
| `MemoryBuckets.MemoryLimiter.RefundAll` | internal/ratelimit/memory.go:25-30 | deleting a counter at or below zero is the same as clamping it at zero, for every key |
| `MemoryBuckets.SpendingBalances` | internal/ratelimit/memory.go:20-43 | called one at a time, what is spent lies between what was admitted less all refunds and what was admitted |
| `MemoryBuckets.AdmissionBound` | internal/ratelimit/memory.go:14-18 | called one at a time, across k refunds a key gets at most maxTokens + k * tokensPerInterval requests through |
| `MemoryBuckets.NoEarlyRefusal` | internal/ratelimit/memory.go:14-18 | called one at a time, nothing is refused before maxTokens requests were admitted |
| `MemoryBuckets.AbsenceIsRepaid` | internal/ratelimit/memory.go:23-41 | of k requests after r intervals without any, exactly as many are admitted as the key had tokens left plus those refunded, at most what it had spent |
| `MemoryBuckets.AdmittedAgainIff` | internal/ratelimit/memory.go:23-41 | a key with all tokens spent is refused, and is admitted again after r intervals exactly when they refund something |
| `MemoryRaces.CallAloneIsSequential` | internal/ratelimit/memory.go:33-41 | a call whose lookup, load and add nothing interrupts does what the sequential limiter does |
| `MemoryRaces.RefundAloneIsSequential` | internal/ratelimit/memory.go:23-31 | so does a turn of the refund loop, and it deletes the counter exactly when that comes to zero or below |
| `MemoryRaces.OneCounterPerDeletion` | internal/ratelimit/memory.go:34 | however many calls race to look it up, the map starts a counter afresh only after deleting one |
| `MemoryRaces.OnlySpentCountersGo` | internal/ratelimit/memory.go:26-28 | a counter is deleted only after a refund brought that very counter to zero or below |
| `MemoryRaces.RunStaysBelow` | internal/ratelimit/memory.go:34-42 | with at most c calls at once, in any interleaving with each other and with the two steps of the refund loop, no counter object ends more than c - 1 above maxTokens |
| `MemoryRaces.RunBalances` | internal/ratelimit/memory.go:25-39 | over all counter objects of a key, deleted ones included, what stands is what was admitted less what was refunded |
| `MemoryRaces.RacingBound` | internal/ratelimit/memory.go:20-43 | a key gets at most maxTokens + c - 1 requests through for every counter object still above zero, plus everything refunded |
| `MemoryRaces.OvershootBound` | internal/ratelimit/memory.go:20-43 | while no counter was deleted from under a call that left it above zero, c racing calls overshoot the sequential bound by at most c - 1 over any number of refunds |
| `TierTime.SweepsAreUnobservable` | internal/membership/store.go:403-413 | tier-reset sweeps inserted anywhere change neither the expiry nor the effective tier at any later time |
| `TierTime.SweepDowngradesTheExpired` | internal/membership/store.go:403-413 | a sweep makes exactly the paid tiers whose expiry is past free, and keeps every expiry |
| `TierTime.GrantLasts` | internal/membership/types.go:114-124 | a grant of a paid tier gives it up to and including the later of its clock and the old expiry, plus the period, and no longer, whatever sweeps run |
| `TierTime.DeliveredInFull` | internal/membership/http.go:253-259 | final expiry less the start is exactly the periods bought plus the gaps in which nothing was left |
| `TierTime.ExpiryIsLatest` | internal/membership/http.go:253-259 | the expiry is the maximum, over all purchases, of its time plus everything bought from it on, the initial expiry included |
| `TierTime.GrantKeepsPaidTimeIff` | internal/membership/types.go:114-124 | a grant takes no paid time away, at any later moment, exactly when the member does not hold a never-expiring paid tier |
| `Payments.BehaviourKeepsInv` | internal/membership/http.go:197-263 | in every interleaving what a handler remembers of its payment is still true, and no payment is in two hands |
| `Payments.PaymentsOnlyMoveOn` | internal/membership/payments.go:112-147 | payments never disappear or change their terms, and settled and expired are terminal |
| `Payments.GrantsAtMostOnce` | internal/membership/http.go:197-263 | whatever webhooks, sweeps and member changes interleave, each payment hash grants at most once, only when settled, only after at least its price was confirmed |
| `Payments.GrantsWerePaid` | internal/membership/http.go:217-236 | behind every grant of every run there is an answer of the node that this very hash was settled, with the amount recorded, at least the price |
| `Payments.ExpiredNeverGrants` | internal/membership/payments.go:134-147 | a payment that is expired at any moment grants neither before nor after |
| `Payments.ExpiresIff` | internal/membership/payments.go:134-147 | a payment expires in a step exactly when it was pending and a sweep finds it created before its cutoff |
| `Payments.YoungPaymentsNeverExpire` | internal/membership/payments.go:134-147 | if no sweep of a run looks for payments younger than an age, no payment of that age or younger is expired at any moment |
| `Payments.ResetLeavesNoneExpired` | internal/membership/store.go:403-413 | after the scheduler's reset exactly the members whose expiry is past are free, whoever is not keeps the tier, and nobody's expiry moves |
| `Payments.ClockAndChanges` | internal/membership/http.go:253 | the clock a handler reads moves with its ticks alone, and any other change to a member is the one that was asked |
| `Payments.WriteShortfall` | internal/membership/http.go:245-259 | what a tier update computed from an outdated expiry costs: it falls short of everything bought by exactly how far the base time moved since the handler read the row |
| `GrantDelivery.DeliveredIff` | internal/membership/http.go:245-259 | over all behaviours in which only grants and sweeps touch a member's row: at every moment the expiry is what all grants so far add up to, exactly when no grant is overtaken - no other grant written between its handler's read and its write has an expiry after the clock the handler computes with |
| `GrantDelivery.DeliveredIsInFull` | internal/membership/http.go:253-259 | that is the same as: the expiry less the start is all periods bought plus the gaps in which nothing was left, and is the latest of every purchase's time plus everything bought from it on |
| `GrantDelivery.SerialisedReadsAreCurrent` | internal/membership/http.go:245-259 | in every behaviour in which no two handlers are between reading and writing a member's row, and only grants and sweeps touch it, what a handler read of the row is still what it says until the handler writes it |
| `GrantDelivery.SerialisedGrantsDeliver` | internal/membership/http.go:245-259 | in every such behaviour bought time is delivered in full at every moment |
| `GrantDelivery.StepDeliversIff` | internal/membership/http.go:253-259 | a step keeps everything delivered exactly when, if it writes a grant, the expiry read earlier and the one in the row give the same base time |
| `GrantDelivery.ReadIsKept` | internal/membership/http.go:245-257 | a handler computes with the expiry it read, and reads once |
| `GrantDelivery.Rises` | internal/membership/http.go:253-259 | while everything is delivered the expiry never moves back |
| `GrantDelivery.MonthIsLost` | internal/membership/http.go:197-263 | a run of sixteen steps from an empty payment table: two invoices of one member are paid and granted, and the expiry is one month ahead where two were bought |
| `Payments.LateNotificationChangesNothing` | internal/membership/http.go:210-214 | in every interleaving, a handler that had not looked its payment up yet when that payment was settled or expired changes no payment, member or grant in any of its steps: webhook retries are harmless |
| `PaymentTables.Tables.MarkSettled` | internal/membership/payments.go:112-132 | only a pending row moves, it alone; the caller is told so, unless the statement is reported as failed, applied or not |
| `PaymentTables.Tables.MarkExpired` | internal/membership/payments.go:134-147 | exactly the pending rows older than the cutoff expire, and their number is returned |
| `PaymentTables.Tables.UpdateTier` | internal/membership/store.go:344-366 | an existing member gets the tier and the expiry; an unknown one is reported |
| `PaymentTables.Tables.ResetExpiredTiers` | internal/membership/store.go:403-413 | every expired paid tier becomes free and keeps its expiry; nothing else changes |
| `PaymentTables.Tables.HandleWebhook` | internal/membership/http.go:197-263 | whatever statements fail, the tables change only for a pending payment confirmed with at least its price: it is settled if the update took effect, and its member, if there is one and nothing failed, extended from the later of now and the current expiry; and which calls answer with an error |
| `PaymentTables.UninterruptedHandler` | internal/membership/http.go:197-263 | run without interruption, the interleaved steps of a handler do to the tables what `HandleWebhook` does, whichever statements fail |
| `PaymentTables.OverlapLosesAPeriod` | internal/membership/http.go:245-259 | from any state in which two handlers of one member are about to read its row: overlapped, exactly the first writer's period is lost; run one after the other they deliver both |
| `AccessSnapshot.RunKeepsInv` | internal/management/access_cache.go:55-81 | in every interleaving each published table is exact for some past moment, only the lock's owner loads, and it loads nothing older than what is published |
| `AccessSnapshot.NeverGoesBack` | internal/management/access_cache.go:56-60 | a later snapshot is the same or was read, in every table, after the earlier one was complete |
| `AccessSnapshot.SnapshotsAreReal` | internal/management/access_cache.go:64-80 | every list a reader sees is one the database held at some moment |
| `AccessSnapshot.LocalWriteIsSeen` | internal/management/access_cache.go:104-114 | once a local write has returned with its reload done, every later read answers by that write until that key is written again, for bans and unbans alike |
| `AccessSnapshot.NothingChangesSilently` | internal/management/access_cache.go:25-28 | whatever refreshers fail, a key's answer stays as it is unless the database committed a write to that key |
| `AccessSnapshot.HistoryIsTheWrites` | internal/management/access_cache.go:83-113 | the database history of a run is its writes, of this process and of others, in order |
| `AccessSnapshot.LastWriteDecides` | internal/management/access_cache.go:83-113 | a key is in a table exactly when some write added it there and no later one touched it |
| `AccessSnapshot.ReloadsTakeSixSteps` | internal/management/access_cache.go:55-81 | no reload takes more than six steps of its own, however it ends and whatever runs beside it |
| `AccessSnapshot.SomeReloadCanGoOn` | internal/management/access_cache.go:55-81 | some reload can take a step exactly while one is not finished: a failed reload frees the lock, and nobody waits for nothing |
| `AccessSnapshot.ReloadAloneIsExact` | internal/management/access_cache.go:53-81 | a reload nothing interrupts publishes exactly the tables of that moment and frees the lock |
| `AccessStore.LoadSet` | internal/management/access_cache.go:116-148 | rows in any order give exactly the set of keys, or a failure when the query or a row fails |
| `AccessStore.Store.RefreshAccess` | internal/management/access_cache.go:53-81 | all four lists are replaced by the tables, or none is and the first failing table is named |
| `AccessStore.Store.AfterWrite` | internal/management/access_cache.go:104-114 | a failed write reloads nothing; a failed reload neither fails the write nor touches the lists |
| `AccessStore.Store.BanPubkey` | internal/management/store.go:94-103 | the table gets the pubkey; when the reload succeeds it is reported banned at once |
| `AccessStore.Store.UnbanPubkey` | internal/management/store.go:105-109 | the table loses the pubkey; when the reload succeeds it is no longer reported banned |
| `AccessStore.Store.AllowKind` | internal/management/store.go:310-317 | the table gets the kind, and the lists in memory follow when the reload succeeds |
| `AccessStore.Store.DisallowKind` | internal/management/store.go:319-323 | after a reload the kind is still allowed exactly when no other kind was on the list |
| `AccessStore.Store.IsKindAllowed` | internal/management/store.go:325-333 | allowed when nothing was loaded yet, when the list is empty, or when the kind is on it |
| `WriteAhead.NothingVanishes` | internal/writeahead/writeahead.go:180-238 | with any number of writers and drainers each write is in exactly one place: queued, with a drainer, saved, dropped, or lost to Redis or the shutdown |
| `WriteAhead.CountsBalance` | internal/writeahead/writeahead.go:293-313 | the written count is the sum of the sizes of those places |
| `WriteAhead.SavedIsSaved` | internal/writeahead/writeahead.go:215-236 | over every run the saved events are exactly as many as the saves that worked |
| `WriteAhead.FailedSaveIsRetried` | internal/writeahead/writeahead.go:219-224 | a save that fails with attempts left and a working push puts that event at the back of the queue with one more retry; if the push fails too the event is lost, without attempts left it is dropped, and it is saved in no case |
| `WriteAhead.PopDecides` | internal/writeahead/writeahead.go:187-213 | a pop hands the front event to a drainer, or discards it exactly when its time to live has passed and no shutdown is on |
| `WriteAhead.OutageEndsWell` | internal/writeahead/writeahead.go:187-237 | if from some moment to a later one saves fail only while retries are left, pushes and pops work and nothing popped is too old, and the queue ends empty, then every event written by then is saved but for those given up before |
| `WriteAhead.AttemptsAreBounded` | internal/writeahead/writeahead.go:215-232 | no event is tried more often than MaxRetries, or once when that is less than one |
| `WriteAhead.MaxRetriesHoldsIff` | internal/writeahead/writeahead.go:40-41 | "at most MaxRetries attempts" holds over all runs exactly when MaxRetries is at least one |
| `WriteAhead.NothingIsDroppedEarly` | internal/writeahead/writeahead.go:205-230 | a dropped event had outlived the TTL, or had failed exactly as often as allowed |
| `WriteAhead.StepUsesWork` | internal/writeahead/writeahead.go:187-237 | every step of a drainer uses up work, a write adds a fixed amount, time adds none |
| `WriteAhead.DrainingEnds` | internal/writeahead/writeahead.go:180-238 | n writes cause at most 2 * max(1, MaxRetries) * n steps of all drainers together, however they interleave |
| `WriteAhead.DrainersStopIff` | internal/writeahead/writeahead.go:187-194 | drainers have a step to take exactly while something is queued or in hand; with the bound above, a queue with no new writes empties |
| `WriteAhead.FirstAttemptsKeepWriteOrder` | internal/writeahead/writeahead.go:188-189 | with never more than one drainer at work, events saved at their first attempt are saved in the order they were written |
| `WriteAhead.TwoDrainersReorder` | internal/writeahead/writeahead.go:188-189 | with two drainers they need not be: a run of six steps |
| `WriteAhead.KeepsWriteOrderIff` | internal/writeahead/writeahead.go:188-189 | over all runs with at most d drainers at once, first attempts keep the write order exactly when d is at most one |
| `WriteAheadLog.DrainLoopIsAPath` | internal/writeahead/writeahead.go:180-275 | whatever a drain loop does, the interleaved steps with a single drainer do: every theorem on runs covers the loops |
| `WriteAheadLog.WorkingTurnsSave` | internal/writeahead/writeahead.go:187-237 | when everything works a drain loop saves the queue from the front, in order, as far as its turns go |
| `WriteAheadLog.FailingTurnsKeep` | internal/writeahead/writeahead.go:215-232 | when saves fail and pushes work, with retries left and nothing too old, a drain loop only makes entries one retry older and moves them to the back in order |
| `WriteAheadLog.OutageIsSurvived` | internal/writeahead/writeahead.go:187-237 | an outage of k passes over the queue, fewer than every entry has attempts left, loses nothing: the first working pass after it saves the whole queue in its original order |
| `WriteAheadLog.Wal.Write` | internal/writeahead/writeahead.go:98-129 | the event is at the back of the queue and counted, or, when the push fails, saved directly and the queue untouched |
| `WriteAheadLog.Wal.DrainOne` | internal/writeahead/writeahead.go:187-237 | one turn of the loop: expired, saved, retried at the back, dropped, or the loop ends at a pop error; a save that failed saves nothing, and the statistics keep counting the model's lists |
| `WriteAheadLog.Wal.DrainBatch` | internal/writeahead/writeahead.go:180-238 | a batch is the fold of its turns, up to an empty queue or a pop error |
| `WriteAheadLog.Wal.DrainAll` | internal/writeahead/writeahead.go:240-275 | at shutdown every entry gets one attempt whatever its age, the count is what was saved, and the queue is empty unless a pop failed |
| `GroupScope.HiddenGroups` | internal/groups/scope.go:159-174 | lists exactly the private groups the reader is not a member of; an anonymous reader is a member of none |
| `GroupScope.OrdinaryQuery` | internal/groups/scope.go:222-252 | a plain REQ streams exactly the matching events that are visible, in store order, and a prefix of them when the reader goes away; a group REQ gets nothing here |
| `GroupScope.OrdinaryAnswerIff` | internal/groups/scope.go:120-158 | the answer to a plain REQ holds exactly the stored matches with no h tag that names a private group the reader is not in, and nothing when the filter asks for kinds 39000 to 39003 or names a known group |
| `GroupScope.SecretsLeaveNoTrace` | internal/groups/scope.go:222-254 | storing one more event of such a group, anywhere, changes no answer to a plain REQ |
| `GroupScope.PrivateAwareCount` | internal/groups/scope.go:254-291 | the handler with its guard against a negative difference and its two fallible counts computes the specified count, and answers zero, whatever the store does, when the filter names a group hidden from the reader |
| `GroupScope.MaskedFindsWithheld` | internal/groups/scope.go:277-282 | the masked filter matches an event exactly when the filter matches it and the reader may not see it, however many h tags it carries |
| `GroupScope.CountIsOwed` | internal/groups/scope.go:269-289 | without an h tag the count is the number of matching visible events, and the subtraction never goes negative when the filter has no h entry at all |
| `GroupCountLaws.CountIsRightIff` | internal/groups/scope.go:254-291 | for every filter, on one store: COUNT is the number of matching events the reader may see exactly when no h value is named, or only readable ones and nothing that matches is withheld, or a hidden one and nothing is owed |
| `GroupCountLaws.CountAgreesIff` | internal/groups/scope.go:222-291 | for every filter, on one store: COUNT equals the number of events the plain query returns exactly in the cases listed, h values of readable known groups included |
| `GroupCountLaws.SatisfiableIff` | internal/groups/scope.go:120-134 | a filter can match something exactly when it asks for no tag without a value and its ids, authors and times leave room |
| `GroupCountLaws.AlwaysRightIff` | internal/groups/scope.go:254-291 | COUNT is right on every store exactly when the filter names no h value, or nothing can match it, or it names only hidden groups, or only readable ones while no group is hidden from the reader |
| `GroupCountLaws.AlwaysAgreesIff` | internal/groups/scope.go:222-291 | over all filters: COUNT equals what the plain query returns on every store exactly when nothing can match, or the filter names a hidden group, or it is no group filter and names no h value or no group is hidden from the reader |
| `GroupScope.CountRevealsNothing` | internal/groups/scope.go:269-289 | for filters without an h value: two stores that look the same to a reader give that reader the same count |
| `GroupCountLaws.RevealsIff` | internal/groups/scope.go:22-24 | over all filters: some COUNT tells two stores apart that look the same to the reader exactly when the filter names h values, none of them hidden, something could match it, and some private group is hidden from the reader |
| `GroupCountLaws.BucketCountReveals` | internal/groups/scope.go:260-267 | the smallest case: an anonymous reader counts one event of a private group through an h value that names no group, and sees an empty store |
| `GroupCountLaws.CountByName` | internal/groups/scope.go:260-267 | a filter that names h values counts all matches, hidden or not, when the reader may read them all, and zero otherwise |
| `GroupScope.CountWithHTag` | internal/groups/scope.go:260-267 | for an h filter of unknown groups the count exceeds the query by exactly the matching events that a second h tag hides |
| `GroupScope.SecondTagIsCounted` | internal/groups/scope.go:260-267 | such an event: the query returns nothing and the count is one |
| `ProofOfWork.CountLeadingZeroBits` | internal/handlers/handlers.go:258-288 | the loop with its early exits computes the digit-wise count, on any string |
| `ProofOfWork.DifficultyIsABound` | internal/handlers/handlers.go:258-288 | for every hexadecimal id of n digits and every k up to 4n, the count is at least k exactly when the number is below 2 to the 4n - k, the rule of section "Validating" of NIP-13 |
| `ProofOfWork.NeverMoreThanItsBits` | internal/wot/trust.go:434-462 | no string has more leading zero bits than four a character |
| `ProofOfWork.PassesIff` | internal/handlers/handlers.go:247-256 | what any configured minimum means: at most zero lets everything pass, more than the id's bits nothing, and in between the numeric bound decides |
| `ProofOfWork.ForeignCharacterEndsTheCount` | internal/wot/trust.go:444-446 | nothing after the first character that is not a hexadecimal digit counts |
| `ProofOfWork.CaseDoesNotCount` | internal/wot/trust.go:434-446 | ids that differ only in the case of their hexadecimal letters have the same count and the same value |

## Left out

- PageRankCalculator.PageRankCalculator.ComputePageRank: floating-point rounding is not modelled, nor are negative boosts, the external cache and the time of the last computation; for boosts above 5, which the relay does not use, the cap may end the loop and nothing is said of the distance to the ranking.
- OwnershipRun.OwnershipSafety: holds under the conditions its row names; events may be outdated and then not stored.
- ArbiterProtocol.LoserNeverHolds: each SQL statement is one atomic step at the database clock, which does not run backwards; event ids are compared as one total order, text collation is not part of this model.
- `WithDeadline` is modelled by what its callers see: a call is abandoned at any moment and its statement still runs later, or never; the goroutine, channel and timer are not part of this model.
- TokenBucket.SweepingNeverLoosensIff: for a fixed rate of at least one; across a change of trust level only the bound by the highest rate is stated.
- TrustLimiter.Handler.RejectEventByTrust: requests and sweeps are atomic with respect to one another; the trust level and the authenticated key are inputs.
- SlidingWindow.PruningIsUnobservable: calls run one at a time and no Redis call fails; the method itself models every failure. A limiter without Redis, or switched off, lets everything pass and is left out; so is the rounding of nanosecond scores to floating point in the sorted set.
- MemoryBuckets.MemoryLimiter.Limited: calls are sequential here; racing calls are in MemoryRaces. The counter's 32 bits are not modelled.
- Payments.GrantsAtMostOnce: at most once, not at least once: a settled payment grants nothing when the member row is gone, a later statement fails or the process stops, as the program accepts.
- GrantDelivery.SerialisedGrantsDeliver: a sufficient condition that can be read off the running handlers; the exact one is in `DeliveredIff`. Both presuppose that nothing but grants and sweeps writes the member row.
- PaymentTables.Tables.HandleWebhook: request parsing is left out.
- AccessSnapshot.LocalWriteIsSeen: says nothing about how soon another process sees the write, and the four tables of one snapshot may stem from four moments.
- AccessStore.Store.RefreshAccess: one process with no concurrent writer; concurrency is in AccessSnapshot. Event bans and rate-limit exemptions differ only in the table and are not repeated.
- WriteAhead.NothingVanishes: every queued record decodes; a push that Redis reports as failed did not happen. Without Redis, or switched off, `Write` saves directly, as it does after a failed push.
- WriteAheadLog.Wal.DrainBatch: the outside world of each turn (clock, Redis and PostgreSQL answers) is a parameter; retry delay, worker start and stop are left out.
- GroupCountLaws.AlwaysAgreesIff: the store follows the filter's exact meaning and no limit applies; groups do not change between the two counts; what relay29's own handlers return for group filters is not part of this model.
- Group moderation by relay29, signatures, NIP-98 checks, and the regular expression that reads the d-tag: the captured prefix is an input.
- HAVEN routing, admin pages, feeds, metrics, NIP-66 probing, session store, event and trust caches: per-branch decisions or time-to-live caches.

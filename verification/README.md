# CTFBoard backend: a verified model

A Dafny 4.11 model of the stateful core of the CTFBoard backend, with proofs. `dafny verify dfyconfig.toml`
checks all of it. Nothing here is compiled into the application.

| part | files | what is proved |
|---|---|---|
| asynchronous mailer | `MailerProtocol`, `MailerInvariant`, `MailerShutdown`, `MailerGuarantees`, `AsyncMailer` | Senders, workers and Stop are a labelled transition system with one step for each atomic load or store, channel operation and delegate return; theorems quantify over all runs. The class runs the Go bodies and is proved to produce runs of that system. |
| bounded FIFO cache | `BoundedCache` | The slice with its position map is a class with the in-place eviction loop; it is proved against a pure function of the history of Set calls. |
| read-through cache | `CacheProtocol`, `CacheInvariant`, `CacheFreshness`, `Cache` | GetOrLoad with single flight, expiry, undecodable values, source writes and Del, interleaved step by step. |
| scoreboards | `ScoreboardKeys`, `DynamicScoring`, `ScoringRounding`, `Scoreboard`, `ScoreboardRanking`, `ScoreboardServing`, `ScoreboardCoherence`, `ScoreboardChanges`, `ScoreboardExamples`, `ScoreboardCacheService`, `SolveLedger` | What the board queries compute, what a challenge costs in float64 arithmetic, which boards a change moves, and exactly when the invalidation after it keeps cached boards equal to fresh ones. The board theorems hold for every price function. |
| team roster | `TeamRoster`, `TeamTransactions`, `TeamTransactionsInvariant`, `TeamRosterGuarantees`, `TeamDeletions`, `TeamOutcomes`, `TeamAlone`, `TeamRaces` | The transactions of the team operations, statement by statement at READ COMMITTED with their row locks, interleaved with each other and with the cleanup command; theorems quantify over all runs. An operation that nothing interferes with is proved to be such a run. |
| configuration | `Config`, `CorsOrigins` | Confluence of the seven concurrent Vault overlays, and the origin-list normaliser. |
| tokens and competition status | `Tokens`, `CompetitionStatus` | Whole refresh chains with NumericDate truncation; status along a clock. |
| encryption framing | `Base64`, `CryptoService` | Base64 of RFC 4648, section 4, written out, under an abstract authenticated cipher. |

Properties that turn out false of the code are stated as exact conditions, and each has a lemma that
reaches a failing state:

- A message can stay in the mailer's channel after Stop exactly when a Send sits between its check of
  `stopped` and its channel operation (`NeverStrandsIff`; `StrandingIsReached`).
- A Del does not end staleness when the flight open on the key has already read an older version
  (`DelEndsStalenessIff`; `StaleIsReached`).
- SubmitFlag, awards and charged hints leave bracket boards stale, as do moderating a team, moving it
  to another bracket and editing or deleting a challenge; the invalidation for one team leaves the
  boards of other brackets stale when the price of the solved challenge moved (`SubmitFlagRestoredIff`,
  `AwardRestoredIff`, `ModerationRestoredIff`, `SetBracketRestoredIff`, `ChallengeUpdateRestoredIff`,
  `ChallengeDeleteRestoredIff`, `CreateSolveRestoredIff`; `SubmitFlagLeavesBracketStale`,
  `AwardLeavesBracketStale`, `TeamChangesLeaveStale`, `SetBracketLeavesBothStale`,
  `EditLeavesPriceAndBracketStale`, `DeletionLeavesBracketStale`, `CreateSolveLeavesOtherBracketStale`).
- Creating, disbanding and cleaning up a team, deleting a bracket and moving the freeze drop no board's
  key (`NewTeamIsNeverRestored`, `SoftDeleteRestoredIff`, `BracketDeleteRestoredIff`, `FreezeRestoredIff`;
  `TeamChangesLeaveStale`, `MovedFreezeLeavesFrozenStale`).
- The board of the nil UUID is cached under the key of the overall board (`RequestLoadsItsBoardIff`;
  `NilRequestLoadsAnother`).
- A board frozen before a solve can still change with it (`FrozenBoardMovesIff`; `FrozenBoardMoves`).
- Cleaning up a solo team, and purging a deleted team, leave the solve counts too high, by the solves
  deleted (`RunKeepsLedger`, `RunKeepsCountsIff`; `CleanupLeavesCount`, `PurgeLeavesCount`), and editing
  a solved challenge does not reprice it (`RunKeepsPricesIff`; `EditLeavesPriceAndBracketStale`).
- Rounding can make a price one point more than the formula's, only where the formula's is a whole
  number (`ScoreInIntegers`, `IntegerFormIff`; `RoundingAddsAPoint`, `RoundingExists`).
- A user can be written onto a deleted team: by a Join whose team is disbanded after the look-up, by
  a solo reset of a team that was joined after its members were counted, and by a confirmed Join of
  one's own solo team (`RunStrandsIff`; `JoinPastDisbandStrands`, `JoinPastResetStrands`,
  `JoinOfOwnTeamStrands`). Of all that is modelled only the cleanup command frees them
  (`StrandedUntilPurge`, `CanGetOutIff`).
  And a solo team made by CreateSoloTeam cannot be reset by it (`SecondSoloFails`).
- White space alone is not a normal form of the origin list (`ReparsingIsStableIff`;
  `BlankIsNotStable`).

Where a comment and the code disagree the model follows the code: the comment in
`backend/internal/usecase/competition/scoring.go:20` says a challenge costs its minimum from `decay`
solves on, the branch below it says above `decay`.

## Model

| member | source | states |
|---|---|---|
| MailerInvariant.StepKeepsInv | backend/pkg/mailer/async.go:41-92 | Every atomic step of senders, workers and Stop keeps the mailer's invariant: order, ledger, one item for each accepted call, the order of the shutdown events, and that once any worker is done no message from before the close is queued. |
| MailerInvariant.RunKeepsInv | backend/pkg/mailer/async.go:41-92 | The invariant holds after every run, that is, under every interleaving and every choice of a select. |
| MailerGuarantees.ExactlyOnceHandOff | backend/pkg/mailer/async.go:56-92 | In every reachable state received then queued is the accepted sequence, received splits as a multiset into delegated and held, at most one message per worker is held, and exactly the calls that returned nil have an item, one each, carrying their message. |
| MailerGuarantees.FailuresAreExplained | backend/pkg/mailer/async.go:56-66 | Over every run a call returns ErrQueueFull if and only if its select met a channel with bufferSize messages, and ErrMailerStopped if and only if it loaded the flag after the store. |
| MailerGuarantees.RunIsStamped | backend/pkg/mailer/async.go:48-66 | The recorded times of loads, channel operations, store and close are the positions of those very steps in the run, so statements about them are about the run. |
| MailerGuarantees.ShutdownIsComplete | backend/pkg/mailer/async.go:48-86 | No call of Stop returns while a worker runs, and when one returns every message accepted before the close of `quit` has been handed to the delegate exactly once. |
| MailerGuarantees.StrandedMessagesAreLate | backend/pkg/mailer/async.go:56-85 | A message still queued when Stop has returned came from a Send that loaded the flag before the store and did its channel operation after the close. |
| MailerGuarantees.NeverStrandsIff | backend/pkg/mailer/async.go:48-85 | Between store and close, no continuation can leave a message behind if and only if no Send is past its check and a worker exists for what is queued, or the channel has no buffer. |
| MailerGuarantees.StrandingRun | backend/pkg/mailer/async.go:48-85 | Builds, from any state with such a Send, a run in which its message is left in the channel. |
| MailerGuarantees.StrandingIsReached | backend/pkg/mailer/async.go:48-85 | Builds such a run from the start, for every buffer and number of workers. |
| MailerGuarantees.QuietStopDeliversEverything | backend/internal/app/app.go:76-87 | Stopping with no Send past its check, as after a graceful shutdown of the server, ends with an empty queue and delegated equal to accepted. When the shutdown times out and the server is closed with handlers running (app.go:116-121) that premise can fail. |
| MailerGuarantees.QuitIsClosedAtMostOnce | backend/pkg/mailer/async.go:48-54 | However many calls of Stop race, `quit` is closed once in a run that closes it and never again. |
| MailerGuarantees.StopCanAlwaysFinish | backend/pkg/mailer/async.go:48-86 | From every reachable state in which Stop has been entered some continuation finishes it: there is no deadlock. |
| MailerGuarantees.EveryStopCanReturn | backend/pkg/mailer/async.go:48-54 | Once the body of Stop has finished, the callers that were blocked at it can all return, by their own steps. |
| MailerShutdown.StepUsesWork | backend/pkg/mailer/async.go:68-86 | After the close every worker or sender step strictly lowers a measure over calls in flight, queue and worker phases, and no other step raises it. |
| MailerShutdown.DrainIsFinite | backend/pkg/mailer/async.go:68-86 | After the close every schedule has at most as many worker and sender steps as the measure says. |
| MailerShutdown.LiveWorkersAreNeverStuck | backend/pkg/mailer/async.go:68-86 | After the close each live worker has an enabled step. |
| MailerShutdown.WorkersCanDrain | backend/pkg/mailer/async.go:75-83 | The workers alone can reach their returns, and the last of them leaves an empty channel. |
| AsyncMailers.AsyncMailer.Start | backend/pkg/mailer/async.go:41-46 | Launches the given number of workers, all at the outer select. |
| AsyncMailers.AsyncMailer.Send | backend/pkg/mailer/async.go:56-66 | A Send by itself is a run of the protocol, and its three results are told apart by the flag and the room in the channel. |
| AsyncMailers.AsyncMailer.Advance | backend/pkg/mailer/async.go:68-92 | Whatever a worker's goroutine does next is an enabled protocol step, and it is blocked only at the outer select. |
| AsyncMailers.AsyncMailer.WaitForWorkers | backend/pkg/mailer/async.go:52-86 | The workers, scheduled in any order and each select choosing anew, all return; the loop ends by the drain measure. |
| AsyncMailers.AsyncMailer.Stop | backend/pkg/mailer/async.go:48-54 | A first or a late Stop by itself is a run of the protocol that ends with all workers returned; after a first one everything accepted is delegated if no Send was in flight. |
| BoundedCaches.BoundedCache.constructor | backend/pkg/cache/bounded.go:21-30 | A new cache has an empty history, and a size that is not positive becomes the default. |
| BoundedCaches.BoundedCache.Get | backend/pkg/cache/bounded.go:32-40 | Hits exactly on the keys of the contents computed from the history of Set calls, and returns what those entries hold. |
| BoundedCaches.BoundedCache.Set | backend/pkg/cache/bounded.go:42-61 | After every Set the slice is the contents function of the extended history and the index is its exact inverse. |
| BoundedCaches.BoundedCache.EvictOldest | backend/pkg/cache/bounded.go:50-57 | Whatever order the map yields, the loop leaves the index the exact inverse of the slice without its head. |
| BoundedCaches.BoundedCache.Len | backend/pkg/cache/bounded.go:63-67 | The length is that of the contents of the history and never above the limit. |
| BoundedCaches.ContentsAreTheLastAccepted | backend/pkg/cache/bounded.go:42-61 | For every history the contents are the last min(n, maxSize) accepted sets in order, with distinct keys. |
| BoundedCaches.WindowsAreDistinct | backend/pkg/cache/bounded.go:46-60 | Any maxSize + 1 consecutive accepted sets have distinct keys. |
| BoundedCaches.HitIffLatestIsRecent | backend/pkg/cache/bounded.go:32-61 | A key hits if and only if its latest accepted set is among the last maxSize accepted ones, and the hit is that set. |
| BoundedCaches.RetentionIsExact | backend/pkg/cache/bounded.go:42-61 | An entry survives exactly maxSize - 1 further accepted sets, however many refused sets come in between, and is gone after the next. |
| BoundedCaches.MemoIsSound | backend/internal/usecase/challenge/challenge.go:238-261 | If every Set stores f of its key, as for compiled regular expressions, every hit in every run returns f of the key. |
| CacheInvariant.StepKeepsInv | backend/pkg/cache/cache.go:22-59 | Every step of callers, flights, Redis, source writes and Del keeps: entries, flights and landings are loads of their key, flights on a key do not overlap, callers agree with their flights. |
| CacheInvariant.RunKeepsInv | backend/pkg/cache/cache.go:22-59 | That invariant holds after every interleaving. |
| CacheFreshness.SingleFlightAgreement | backend/pkg/cache/cache.go:25-52 | No two loads of a key overlap; callers who joined one flight get the same value or the same error; every answer with data is a load of the caller's key; the answering flight overlapped the call; errors and undecodable values are never hits. |
| CacheFreshness.DelsAreStamped | backend/pkg/cache/cache.go:55-59 | The moments and versions recorded for Dels are positions in the run and numbers of writes before them, so statements about them are about the run. |
| CacheFreshness.ForgottenIsMissed | backend/pkg/cache/cache.go:22-31 | An entry may expire or stop decoding at any moment, and a call that has started then misses. |
| CacheFreshness.StaleEntriesComeFromEarlierFlights | backend/pkg/cache/cache.go:32-59 | An entry older than the source at the last Del of its key was stored by a flight that began before that Del. |
| CacheFreshness.FreshAfterDel | backend/pkg/cache/cache.go:22-59 | With the key absent and no open flight holding an older version, every later answer is at least as new as the source is now. |
| CacheFreshness.DelEndsStalenessIff | backend/pkg/cache/cache.go:32-59 | A Del ends staleness over all continuations if and only if the flight open on the key, if any, has not already read an older version. |
| CacheFreshness.StaleRun | backend/pkg/cache/cache.go:25-41 | Builds, when one has, a run in which a call that starts after the Del is answered with the older version. |
| CacheFreshness.StaleIsReached | backend/pkg/cache/cache.go:25-59 | Builds such a run from an empty cache: miss, load, write, Del, and then a later call answered with version 0. |
| CacheFreshness.RunKeepsCurrent | backend/pkg/cache/cache.go:22-53 | While no write changes what a loader returns, a current key stays current through every interleaving, and so do the answers. |
| CacheFreshness.CurrentAfterDel | backend/pkg/cache/cache.go:55-59 | After a Del of the key, with no open flight holding another value, every GetOrLoad started later returns the current value until a write changes it. |
| Caches.Cache.GetOrLoad | backend/pkg/cache/cache.go:22-53 | A call by itself is a run of the protocol whose caller returns this result: the decoded value on a hit, and otherwise the loader's value or error, storing only successful loads. |
| Caches.Cache.Del | backend/pkg/cache/cache.go:55-59 | Removes exactly the given keys, as one protocol step, and does nothing without keys. |
| ScoreboardKeys.KeysAreReadBack | backend/pkg/cache/keys.go:3-16 | The board can be read back from its key, whatever text names its bracket. |
| ScoreboardKeys.KeysAreDistinct | backend/pkg/cache/keys.go:3-16 | Both bracket key families are injective, disjoint from each other and from all four constant keys. |
| DynamicScoring.ScoreInIntegers | backend/internal/usecase/competition/scoring.go:5-33 | In float64 arithmetic, fused or not, and for modest values, the price up to `decay` solves is the initial value less the range times the squared passed fraction of the decay, rounded down; or a point more, which can be only where the exact price is a whole number. |
| DynamicScoring.ValueIsNear | backend/internal/usecase/competition/scoring.go:26 | The rounded parabola is within a stated multiple of 2^-53 of the exact one. |
| DynamicScoring.WholeQuotientIsExact | backend/internal/usecase/competition/scoring.go:25-33 | The price is exactly the integer form when the squared decay divides the range. |
| ScoringRounding.IntegerFormIff | backend/internal/usecase/competition/scoring.go:25-33 | For modest values the price is the integer form in every arithmetic the theorems cover if and only if the exact price is not whole, or it is the first solve, or the squared decay divides the range; else some arithmetic adds the point. |
| ScoringRounding.RoundingAddsAPoint | backend/internal/usecase/competition/scoring.go:25-33 | With the nearest float64 of each step, a challenge from 500 to 100 points over 35 solves costs 245 at the 29th, where the formula gives 244. |
| ScoringRounding.RoundingExists | backend/internal/usecase/competition/scoring.go:25-33 | Such arithmetic exists among what the theorems cover, so the price 245 is not ruled out by them. |
| DynamicScoring.MinimumIff | backend/internal/usecase/competition/scoring.go:21-32 | For modest values the price is the minimum exactly above `decay` solves. |
| DynamicScoring.PriceFalls | backend/internal/usecase/competition/scoring.go:5-33 | However monotonely the operations round, the price starts at the initial value, never rises, stays within its bounds, and is the minimum above `decay` solves. |
| DynamicScoring.NoDecayIs | backend/internal/usecase/competition/scoring.go:5-23 | A decay of zero counts as one, and below zero every solved challenge costs the minimum; an unsolved one costs the initial value. |
| DynamicScoring.MisorderedPriceIsMinimum | backend/internal/usecase/competition/scoring.go:28-32 | With the minimum at or above the initial value every solved challenge costs the minimum, rounding included. |
| Scoreboard.BoardsEqualIff | backend/queries/solves.sql:56-123 | Two boards are equal exactly when they list the same teams with the same lines. |
| Scoreboard.BoardsIgnoreOrder | backend/queries/solves.sql:56-123 | No board depends on the order of the rows in the solves table: points are a sum and the last solve a greatest element. |
| ScoreboardServing.AwardAddsItsValue | backend/queries/solves.sql:56-123 | One more award adds exactly its value to its team's line where it is within the cutoff, and nothing anywhere else. |
| ScoreboardServing.SolveAddsItsPoints | backend/queries/solves.sql:56-123 | One more counted solve adds exactly its challenge's points and is the last solve if it is later; one that does not count adds nothing. |
| ScoreboardServing.NothingCountedIsZero | backend/queries/solves.sql:56-123 | With nothing counted a line has no points and no last solve; with the two above, points are the sum of counted solves' points and counted awards' values. |
| ScoreboardServing.QueryListsIff | backend/queries/solves.sql:56-123 | A query lists exactly the teams of the bracket, or all, that are neither banned nor hidden nor deleted. |
| ScoreboardServing.BoardsAre | backend/internal/usecase/competition/solve.go:120-130 | Which query with which cutoff each of the four boards is. |
| ScoreboardServing.ServedBoardIs | backend/internal/usecase/competition/solve.go:112-151 | A request is served the board as of the freeze when that lies strictly before the clock, and the live one otherwise, for the bracket asked for. |
| ScoreboardServing.ServedKeyIs | backend/internal/usecase/competition/solve.go:138-151 | And under which of the four keys it is cached, the nil UUID counting as no bracket. |
| ScoreboardServing.LateAwardIsNotServed | backend/internal/usecase/competition/solve.go:120-130 | Once the freeze has passed an award given after it changes no served board. |
| ScoreboardServing.LateSolveOnlyReprices | backend/internal/usecase/competition/solve.go:83-110 | Once the freeze has passed a solve recorded after it changes a served line only by the new price of its challenge, for each time the team had solved that by the freeze. |
| ScoreboardRankings.RankingExists | backend/queries/solves.sql:54-76 | Every board has a list that its query may return: each team once, by points downwards and then by last solve, a team without one last. |
| ScoreboardRankings.SortedIff | backend/queries/solves.sql:76 | Down such a list points never rise, equal points come by earlier last solve, and a team without one comes as on the last day of 9999. |
| ScoreboardRankings.PlacesAgree | backend/queries/solves.sql:54-76 | Any two such lists of a board have the same points and the same last solve at each place; only equal lines can change places. |
| ScoreboardRankings.ListsRestoredIff | backend/pkg/cache/scoreboard.go:27-44 | Dropping keys makes every coherent cache of lists coherent again, whatever order equal lines had, if and only if it does so for boards. |
| Scoreboard.RequestLoadsItsBoardIff | backend/internal/usecase/competition/solve.go:112-151 | A request caches, under its key, the board of that key, for all requests except one for the nil UUID while a listed team is outside that bracket. |
| ScoreboardServing.RecordIff | backend/internal/usecase/competition/solve.go:83-110 | A solve is recorded exactly when challenge and team exist and the team has not solved it; which error comes otherwise on either path. |
| ScoreboardServing.RecordedIs | backend/internal/usecase/challenge/challenge.go:384-436 | Recording adds the solve and one to the count, prices a decaying challenge for the new count, and leaves all else; the two paths differ on a missing initial value. |
| Scoreboard.SolveMovesLineIff | backend/internal/usecase/competition/solve.go:83-110 | For every price function and time, a recorded solve changes a team's line if and only if it shows in the solver's, or the price moved and the team has an earlier counted solve of the challenge. |
| Scoreboard.SolveMovesBoardIff | backend/queries/solves.sql:56-123 | Exactly which of the overall, frozen, bracket and frozen bracket boards a recorded solve changes. |
| Scoreboard.FrozenBoardMovesIff | backend/queries/solves.sql:78-99 | A board frozen before the solve changes with it exactly when the solve moved the price of a challenge some listed team had solved by the freeze. |
| ScoreboardCoherence.RestoresIff | backend/pkg/cache/scoreboard.go:27-44 | Dropping a set of keys after a change makes every coherent cache coherent again if and only if every board it leaves is unchanged. |
| ScoreboardCoherence.DroppedIff | backend/pkg/cache/scoreboard.go:27-44 | The keys dropped for a team are exactly those of the overall and frozen boards and of its bracket's two boards. |
| ScoreboardCoherence.InvalidateForTeamRestores | backend/pkg/cache/scoreboard.go:33-44 | When one team's line is all that changed, invalidating for that team with a successful lookup restores coherence of all boards; the frame is that other brackets' boards do not change. |
| ScoreboardCoherence.SolveRestoredIff | backend/internal/usecase/competition/solve.go:83-110 | After a recorded solve, dropping the overall boards and one bracket's restores coherence if and only if no listed team of another bracket has a line the solve moves. |
| ScoreboardCoherence.CreateSolveRestoredIff | backend/internal/usecase/competition/solve.go:153-157 | The invalidation of SolveUseCase.Create is enough if and only if the price stayed, or every listed team in a bracket that had solved the challenge is in the solver's bracket. |
| ScoreboardCoherence.SubmitFlagRestoredIff | backend/internal/usecase/challenge/challenge.go:382-440 | The invalidation of SubmitFlag is enough if and only if the solver is unlisted, in no bracket or unchanged by the solve, and the price stayed or no listed team in a bracket had solved the challenge. |
| ScoreboardCoherence.AwardRestoredIff | backend/internal/usecase/team/award.go:32-52 | The invalidation after an award, and after a charged hint, is enough if and only if the team is unlisted or in no bracket. |
| ScoreboardExamples.SubmitFlagLeavesBracketStale | backend/internal/usecase/challenge/challenge.go:436-440 | An unsolved competition in which a submitted flag leaves a stale bracket board. |
| ScoreboardExamples.CreateSolveLeavesOtherBracketStale | backend/internal/usecase/competition/solve.go:83-157 | A competition, reached by one recorded solve, in which the next moves the price from 500 to 499 and leaves another bracket's board stale. |
| ScoreboardExamples.FrozenBoardMoves | backend/queries/solves.sql:78-99 | In the same competition with a freeze time before it, that solve moves the frozen board. |
| ScoreboardExamples.AwardLeavesBracketStale | backend/internal/usecase/team/award.go:32-52 | An award that leaves its team's bracket board stale. |
| ScoreboardExamples.SetBracketLeavesBothStale | backend/internal/usecase/team/team.go:699-709 | A move of a team that leaves the boards of both brackets stale. |
| ScoreboardExamples.TeamChangesLeaveStale | backend/internal/usecase/team/team.go:472-697 | A ban, a disbanding, a clean-up and the deletion of a bracket, each of which leaves a stale board. |
| ScoreboardExamples.MovedFreezeLeavesFrozenStale | backend/internal/usecase/competition/competition.go:66-72 | A freeze moved to before a solve that leaves the frozen board stale. |
| ScoreboardExamples.NilRequestLoadsAnother | backend/internal/usecase/competition/solve.go:138-144 | A request for the nil UUID that caches another board under the overall key. |
| ScoreboardExamples.CleanupLeavesCount | backend/internal/usecase/team/team.go:491-498 | A reached competition in which a clean-up leaves a count without a solve. |
| ScoreboardExamples.PurgeLeavesCount | backend/migrations/000001_init.up.sql:49-50 | A reached competition in which a team solves, is disbanded and is purged, and the count stays. |
| ScoreboardExamples.EditLeavesPriceAndBracketStale | backend/internal/usecase/challenge/challenge.go:143-178 | An edit of a solved challenge after which its price is not the formula's and a bracket board is stale. |
| ScoreboardExamples.DeletionLeavesBracketStale | backend/internal/usecase/challenge/challenge.go:206-236 | A deletion of a solved challenge that leaves a bracket board stale. |
| ScoreboardChanges.TeamEditRestoredIff | backend/internal/usecase/team/team.go:657-715 | The invalidation after banning, unbanning, hiding or moving a team is enough if and only if the team stays on the boards of the same bracket, or on none. |
| ScoreboardChanges.ModerationRestoredIff | backend/internal/usecase/team/team.go:657-697 | For moderation: if and only if the team is in no bracket or its visibility stays. |
| ScoreboardChanges.SetBracketRestoredIff | backend/internal/usecase/team/team.go:699-709 | For a move: if and only if the team is on no board or the bracket stays; else exactly the boards of the old and the new bracket change. |
| ScoreboardChanges.SoftDeleteRestoredIff | backend/internal/usecase/team/team.go:472-585 | Disbanding a team, and cleaning up a solo team, which also deletes its solves, drop no key: each keeps coherence if and only if the team was not visible. |
| ScoreboardChanges.PurgeMovesNoBoard | backend/queries/teams.sql:60-61 | Purging soft-deleted teams removes exactly their rows, solves and awards, and needs no invalidation. |
| ScoreboardChanges.NewTeamIsNeverRestored | backend/internal/usecase/team/team.go:83-116 | Creating a team, which drops no key either, never does. |
| ScoreboardChanges.BracketDeleteRestoredIff | backend/internal/usecase/competition/bracket.go:80-85 | Deleting a bracket, which takes its teams out of it and drops no key, keeps coherence if and only if no listed team was in it. |
| ScoreboardChanges.FreezeRestoredIff | backend/internal/usecase/competition/competition.go:66-72 | Moving the freeze, which drops no board, keeps coherence if and only if no listed team has a counted solve between the old and the new moment and each one's awards in between add up to nothing. |
| ScoreboardChanges.ChallengeUpdateRestoredIff | backend/internal/usecase/challenge/challenge.go:143-164 | For an edited challenge: if and only if its points stay or no listed team in a bracket has solved it. |
| ScoreboardChanges.ChallengeDeleteRestoredIff | backend/internal/usecase/challenge/challenge.go:206-236 | For a deleted one: if and only if no listed team in a bracket had solved it for points, or later than all else it had solved, on a live board or by the freeze. |
| ScoreboardCoherence.BoardIsCurrentAgain | backend/pkg/cache/cache.go:22-59 | Through the interleaved cache: after a write, any traffic, a Del and any traffic again, a board is answered currently if its key was dropped while no open flight held an older one, or the write left it alone. |
| ScoreboardCoherence.BoardIsCurrentAfterBoth | backend/pkg/cache/scoreboard.go:33-44 | The same for the two Dels that InvalidateForTeam issues, with any traffic around and between them. |
| ScoreboardCoherence.InvalidateForTeamMakesCurrent | backend/pkg/cache/scoreboard.go:33-44 | So after a change of one team's line every board is answered currently again, with the bracket looked up between the two Dels. |
| ScoreboardCacheServices.DroppingRestoresValues | backend/pkg/cache/scoreboard.go:27-44 | The values a restoring invalidation leaves in Redis are the fresh boards. |
| ScoreboardCacheServices.ScoreboardCacheService.InvalidateAll | backend/pkg/cache/scoreboard.go:27-31 | Removes exactly the overall and frozen boards, in one Del. |
| ScoreboardCacheServices.ScoreboardCacheService.InvalidateForTeam | backend/pkg/cache/scoreboard.go:33-44 | Is the protocol's Del of the overall keys and then, if the lookup answers with a bracket, its Del of that bracket's keys; it removes exactly the team's keys. |
| SolveLedger.RunKeepsLedger | backend/internal/usecase/competition/solve.go:83-110 | Over every run of solves, clean-ups, disbandings, purges and creations, edits and deletions of challenges: one solve per team and challenge, and a count is the number of solves in the table plus those that were deleted with their teams. |
| SolveLedger.RecordedRows | backend/internal/usecase/competition/solve.go:83-110 | In a run a solve is recorded exactly when challenge and team exist and the team has not solved it, and else nothing changes. |
| SolveLedger.WrittenRows | backend/internal/usecase/challenge/challenge.go:143-178 | The rows a new team, a new challenge and an edited challenge have, the edit leaving the count. |
| SolveLedger.DeletedRows | backend/internal/usecase/team/team.go:472-585 | Disbanding and cleaning up mark a team that is not deleted yet, only the clean-up takes its solves, and a deleted challenge takes its row and solves. |
| SolveLedger.StepKeepsCountsIff | backend/internal/usecase/team/team.go:491-498 | A step keeps every count equal to the table if and only if it neither cleans up nor purges a team that has solves. |
| SolveLedger.RunKeepsCountsIff | backend/queries/teams.sql:60-61 | Counts equal the table in all states of a run if and only if every team it cleans up or purges has no solves by then. |
| SolveLedger.StepKeepsPricesIff | backend/internal/usecase/challenge/challenge.go:166-178 | A step keeps every price the formula's for the count if and only if it is not an edit that prices a solved, decaying challenge otherwise. |
| SolveLedger.RunKeepsPricesIff | backend/internal/usecase/challenge/challenge.go:421-434 | Prices are the formula's in all states of a run if and only if every edit in it set the price the formula gives. |
| TeamTransactionsInvariant.StepKeepsInv | backend/internal/usecase/team/team.go:66-655 | Every statement, commit and abort of interleaved transactions, and every purge, keeps: the roster's invariant, that no two transactions hold one row's lock, and that what each has read under its locks is still so. |
| TeamTransactionsInvariant.RunKeepsInv | backend/internal/repo/persistent/tx_base.go:22-54 | That holds after every interleaving. |
| TeamRosterGuarantees.RunKeepsRoster | backend/internal/usecase/team/team.go:66-655 | So after every run: each active team has its captain among its members, no team exceeds the size limit, memberships and captains refer to existing rows, and names and tokens are unique. |
| TeamDeletions.OnlyOwnersDelete | backend/internal/usecase/team/team.go:472-585 | Over every run a step deletes an active team only as the commit of a Disband by its captain, or of a confirmed Create, CreateSolo or Join by a user on it who a statement of that transaction found alone there, and it is solo or auto-created. |
| TeamDeletions.UnconfirmedDeletesNothing | backend/internal/usecase/team/team.go:487-489 | An unconfirmed Create, CreateSolo or Join commits only for a user without a team, and deletes none. |
| TeamDeletions.LateStatements | backend/internal/usecase/team/team.go:207-494 | A Join whose team was purged after the look-up and a reset whose team was deleted after the count find no team, and a full team is refused. |
| TeamDeletions.StepKeepsKind | backend/internal/usecase/team/team.go:66-655 | No step changes the name, the token or the kind of a team whose row stays. |
| TeamRosterGuarantees.StepStrandsIff | backend/internal/usecase/team/team.go:203-238 | A step puts someone on a deleted team if and only if it is a commit of a Join whose team is deleted by then or is the user's own, deleted by it, or of a solo reset whose team has another member by then. |
| TeamRosterGuarantees.RunStrandsIff | backend/internal/usecase/team/team.go:203-238 | In no state of a run is anyone on a deleted team if and only if no commit of the run is such a one. |
| TeamRosterGuarantees.DeletedSinceLookup | backend/internal/usecase/team/team.go:207-213 | The first race: a deleted team that a Join has looked up was deleted by another transaction's commit after the look-up. |
| TeamRosterGuarantees.JoinedSinceCount | backend/internal/usecase/team/team.go:478-494 | The second: a team its resetting user was counted alone on, and now is not, was joined by another transaction's commit after the count. |
| TeamRaces.JoinPastDisbandStrands | backend/internal/repo/persistent/tx_team.go:156-176 | A concrete run of a Join and a Disband that strands the joining user. |
| TeamRaces.JoinPastResetStrands | backend/internal/usecase/team/team.go:472-494 | A concrete run of a solo reset and a Join that strands the joining user. |
| TeamRaces.JoinOfOwnTeamStrands | backend/internal/usecase/team/team.go:203-238 | A concrete run of one transaction that strands its own user. |
| TeamRosterGuarantees.StrandedStays | backend/queries/teams.sql:60-61 | Whatever player, registration or cleanup command takes the next step, a user on a deleted team stays on it until its row is purged, and the purge frees them. |
| TeamRosterGuarantees.StrandedUntilPurge | backend/internal/usecase/cleanup.go:23-29 | The same over every run without that purge. |
| TeamAlone.CanGetOutIff | backend/internal/usecase/team/team.go:286-305 | Players' requests can take a user off the team if and only if it is not deleted, and then one request of the user's own does; with the purge there always is a way. |
| TeamAlone.RunAlone | backend/internal/usecase/team/team.go:66-655 | An operation that runs while no other transaction is open is a run of the statements with the effect stated for it, or it fails at the guard or at a statement that returns the error stated for it and leaves the roster as it was. |
| TeamOutcomes.JoinResult | backend/internal/usecase/team/team.go:186-238 | Exactly when a Join goes through, which error it returns otherwise, and the rows it leaves: the user on the invited team, the user's former team deleted, all else as it was. |
| TeamOutcomes.CreateResult | backend/internal/usecase/team/team.go:66-116 | The same for Create, and the row of the new team. |
| TeamOutcomes.CreateSoloResult | backend/internal/usecase/team/team.go:419-470 | The same for CreateSoloTeam, and the name it chooses. |
| TeamOutcomes.LeaveResult | backend/internal/usecase/team/team.go:240-305 | The same for Leave. |
| TeamOutcomes.TransferResult | backend/internal/usecase/team/team.go:307-378 | The same for TransferCaptain. |
| TeamOutcomes.DisbandResult | backend/internal/usecase/team/team.go:518-585 | The same for DisbandTeam. |
| TeamOutcomes.KickResult | backend/internal/usecase/team/team.go:587-655 | The same for KickMember. |
| TeamOutcomes.RegisterResult | backend/migrations/000001_init.up.sql:21-29 | A user is registered exactly when id and name are new, and is on no team then. |
| TeamOutcomes.UnconfirmedFails | backend/internal/usecase/team/team.go:481-489 | A Create, CreateSoloTeam or Join that is not confirmed, by a user on an active team, fails and leaves the roster as it was. |
| TeamAlone.JoinIsUndone | backend/internal/usecase/team/team.go:203-305 | A teamless user's join adds that user within the limit, and leaving or being kicked restores the very same roster. |
| TeamAlone.TransferIsUndone | backend/internal/usecase/team/team.go:318-378 | A transfer makes the new captain lead exactly that team and moves no one, and the reverse transfer restores the roster. |
| TeamAlone.SoloResetIff | backend/internal/usecase/team/team.go:436-470 | A confirmed reset, by a user alone on an active solo or auto-created team, into a new solo team succeeds if and only if the old team does not carry the user's name and no row, deleted ones included, carries the chosen name. |
| TeamAlone.SecondSoloFails | backend/internal/usecase/team/team.go:449-458 | The second of two solo creations in a row fails, confirmed or not. |
| TeamRosterGuarantees.FrozenRosterStays | backend/internal/usecase/competition/guard.go:23-32 | With no transaction open and switching not allowed, no run changes an active team or moves anyone, but that a purge frees the stranded. |
| TeamRosterGuarantees.SoloModeMakesSoloTeams | backend/internal/usecase/competition/guard.go:34-44 | A competition that is solo from the start only ever has solo teams. |
| TeamRosterGuarantees.TeamsModeMakesNoSoloTeams | backend/internal/usecase/competition/guard.go:46-56 | A competition for teams only never has a solo creation in progress, so none commits. |
| TeamRosterGuarantees.BeginsIff | backend/internal/usecase/competition/guard.go:23-56 | A request begins a transaction exactly when switching is allowed, the mode allows what it makes, and it neither kicks oneself nor hands the team to oneself. |
| CorsOrigins.ParseCORSOrigins | backend/config/helper.go:63-72 | The in-place trimming loop computes the list of trimmed pieces, and no list for the empty text. |
| CorsOrigins.TrimSpaceCutsEnds | backend/config/helper.go:68-70 | Trimming removes white space at both ends and nothing else. |
| CorsOrigins.TrimSpaceRemoves | backend/config/helper.go:68-70 | What goes is exactly the characters of these 25 code points at either end, up to the first other one. |
| CorsOrigins.SplitIsExact | backend/config/helper.go:67 | Splitting gives comma-free pieces, one more than commas, whose join is the text. |
| CorsOrigins.SplitOfJoin | backend/config/helper.go:67 | Splitting inverts joining on comma-free pieces. |
| CorsOrigins.OriginsAreNormal | backend/config/helper.go:63-72 | Every parsed origin is trimmed and comma-free, and there is one more of them than commas in a non-empty text. |
| CorsOrigins.ReparsingIsStableIff | backend/config/helper.go:63-72 | Parsing the join of the result gives the same list, exactly unless the text is non-empty white space. |
| CorsOrigins.BlankIsNotStable | backend/config/helper.go:63-72 | A single space parses to one empty origin, and that to none. |
| Config.Overlay | backend/config/config.go:199-263 | Whatever order the assignments of the concurrent closures run in, each secret ends as the Vault value if the fetch succeeded with a non-empty string there, and as the earlier value otherwise. |
| Config.FinishedIsOverlaid | backend/config/helper.go:16-27 | When no closure can move, the values are the overlaid ones, with failed fetches leaving theirs alone. |
| Config.ClosuresAreDistinct | backend/config/config.go:201-259 | No two of the assignments in the seven closures share a variable, so they cannot race. |
| Config.New | backend/config/config.go:114-281 | Success, each reported error and every secret depend only on the effective values; each secret is the non-empty string at its path and key in Vault, or else its environment variable. |
| Config.GetEnvIs | backend/config/helper.go:29-35 | A variable that is unset or empty counts as its default, and another is trimmed at both ends. |
| Tokens.AcceptanceWindow | backend/pkg/jwt/jwt.go:62-155 | A token validates exactly from the second of its issue to the second of its expiry, lives more than TTL - 1 s and at most TTL, and the reported expiry is its exp claim (RFC 7519, sections 4.1.4 and 4.1.5). |
| Tokens.IssuedClaims | backend/pkg/jwt/jwt.go:62-113 | While a pair is valid the validators return the id, email, name and role of the user it was issued to, the type, the second of issue and the issuer. |
| Tokens.AcceptedIff | backend/pkg/jwt/jwt.go:115-155 | A validator accepts exactly what was signed by HMAC under its secret as it stands, is in force and has its type, and returns the claims signed. |
| Tokens.RefusedIff | backend/pkg/jwt/jwt.go:115-155 | Each error is the first of format, method, signature, time and type that is wrong. |
| Tokens.RefreshIff | backend/pkg/jwt/jwt.go:157-169 | A refresh goes through exactly with an accepted refresh token whose user id is a UUID, and issues a pair to the user it names. |
| Tokens.ChainKeepsTheUser | backend/pkg/jwt/jwt.go:157-169 | A chain of refreshes succeeds if and only if each is in time, and ends in a fresh pair for the same user, email, name and role. |
| Tokens.ChainEndsWithTheUser | backend/pkg/jwt/jwt.go:157-169 | After every chain that succeeds the validators return the id, email, name and role of the user the first pair was issued to. |
| Tokens.ChainReach | backend/pkg/jwt/jwt.go:157-169 | After n refreshes the token reaches no later than the first issue plus (n + 1) refresh TTLs plus the time lost between validating and issuing. |
| Tokens.ChainNeverCrosses | backend/pkg/jwt/jwt.go:115-169 | No pair of any chain is accepted by the validator of the other type. |
| CompetitionStatus.StatusIs | backend/internal/entity/competition.go:56-76 | Exactly when each of the five statuses holds, in terms of start, end, pause, freeze and clock. |
| CompetitionStatus.StatusNeverMovesBack | backend/internal/entity/competition.go:56-76 | Along any clock that does not run backwards the unpaused status never moves back, ended is final, and pausing only hides active or frozen. |
| CompetitionStatus.SubmissionWindow | backend/internal/entity/competition.go:56-81 | Submissions are allowed exactly on the closed interval from start to end while not paused, whatever the freeze time. |
| CompetitionStatus.WindowIsOneInterval | backend/internal/entity/competition.go:78-81 | Along a clock the moments at which submissions are allowed have no gap. |
| Base64.EncodingIs | backend/pkg/crypto/aes.go:57 | Each three bytes are one number of 24 bits written as four symbols of the alphabet, the highest first, with '=' where no bit of the data is left (RFC 4648, section 4). |
| Base64.DecodesIff | backend/pkg/crypto/aes.go:61-64 | A text decodes exactly when, line breaks aside, it is groups of four symbols with at most two '=' at the end. |
| Base64.RoundTrip | backend/pkg/crypto/aes.go:57-61 | Decoding inverts encoding for all data, in all three padding cases, with the exact length. |
| Base64.CanonicalIff | backend/pkg/crypto/aes.go:61-64 | A text that decodes is the encoding of its data if and only if it has no line breaks and zero unused bits. |
| CryptoServices.ServiceIsMadeIff | backend/pkg/crypto/aes.go:25-38 | A service is made from exactly the texts of 64 hex digits; its key is 32 bytes, written out again the text in lower case. |
| CryptoServices.HexDigitIff | backend/pkg/crypto/aes.go:33-36 | The digits are 0 to 9 and a to f in either case. |
| CryptoServices.DecodedByteIs | backend/pkg/crypto/aes.go:33-36 | Each byte of the key is two digits, the higher one first. |
| CryptoServices.KeysDifferByMoreThanCase | backend/pkg/crypto/aes.go:25-38 | Two key texts make the same service if and only if they differ in letter case only. |
| CryptoServices.ReadFull | backend/pkg/crypto/aes.go:51-54 | Fills the whole nonce buffer, or reports that the source ran dry. |
| CryptoServices.Encrypt | backend/pkg/crypto/aes.go:40-58 | The text is base64 of the nonce drawn and then the sealed text, and each error is told apart. |
| CryptoServices.DecryptsIff | backend/pkg/crypto/aes.go:60-88 | A text decrypts to a plain text if and only if its base64 is a nonce followed by that text sealed under it. |
| CryptoServices.DecryptInvertsEncrypt | backend/pkg/crypto/aes.go:40-88 | Decrypting inverts encrypting for every plain text and nonce. |
| CryptoServices.DecryptErrors | backend/pkg/crypto/aes.go:60-88 | Exactly when each of the errors of Decrypt comes. |
| CryptoServices.DecryptedIsEncryptedIff | backend/pkg/crypto/aes.go:60-88 | A text that decrypts is the one Encrypt makes with its nonce if and only if it is canonical base64. |
| CryptoServices.ShortDataIsAnError | backend/pkg/crypto/aes.go:76-79 | Data shorter than a nonce, and every text of fewer than sixteen characters, is an error. |
| CryptoServices.FramesAreDistinct | backend/pkg/crypto/aes.go:56-57 | Encryptions agree only for equal nonces and equal plain texts. |

## Left out

- MailerProtocol: Start is called once, before Stop; each call of the delegate returns, and its error, which is only logged, is not modelled.
- MailerShutdown.DrainIsFinite: bounds the steps of every schedule; that the scheduler eventually runs an enabled goroutine is the runtime's promise and is not part of this model.
- CacheProtocol: the TTL is not a number; an entry may expire at any step. JSON is taken to decode what it encodes. A Del that fails, Cache.Set and the branch for a value of an unexpected type are not modelled.
- Caches.Cache.GetOrLoad: describes a call that no other call interleaves with; interleaved calls are runs of CacheProtocol. A key used with two result types is not modelled.
- ScoreboardCacheServices.ScoreboardCacheService.InvalidateForTeam: a service whose getter can answer with a bracket must have a cache, since the second Del dereferences it.
- Scoreboard.BoardsEqualIff: boards are maps from teams to lines; their order as lists is in ScoreboardRanking. Database integers are unbounded; the key of a frozen board is taken to be loaded with the same freeze time.
- DynamicScoring.ScoreInIntegers: the bound on the values is stated in the lemma; conversions of a result outside the range of int do not arise below it. Arithmetic that overflows float64 is not modelled.
- TeamTransactions: extra blocking by foreign keys and by the audit log, and deadlocks, only abort or delay a transaction, and an abort can come at any step; the age a deleted team must have to be purged, column lengths, TryCreate's preview and audit entries are not modelled. Ids and invite tokens are fresh. Rosters are values, since what they model is committed tables.
- TeamRosterGuarantees.StrandedStays: the backup import (backend/internal/usecase/competition/backup.go:473-511) writes teams and memberships as the backup has them, and can erase the tables first. It can end in any tables, so it is no step of the runs.
- SolveLedger.RunKeepsLedger: nor is the import a step of these; it also writes points, counts, solves, awards and the freeze time.
- TeamOutcomes.RegisterResult: an e-mail address must be new, too; addresses, passwords and roles of users are not part of the rosters.
- Config.New: the other settings, the database URL and logging are not modelled.
- Tokens: JWS serialisation and the UUID codec are taken to round-trip, with one text per UUID; HMAC is symbolic; tokens without time claims, which the service never issues, are not modelled.
- CryptoServices: AES-GCM is any pair of functions where what was sealed opens and nothing else does; that unsealed text reveals nothing is not stated.
- BoundedCaches.BoundedCache: its mutex makes each method one step, so concurrent use is a sequence of calls.
- Flag checking, hints, notifications, websockets, storage, mail rendering, HTTP handlers, persistence code and wiring add no further state machine and are not modelled.

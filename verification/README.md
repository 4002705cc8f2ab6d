# Routewerk: a verified model of its stateful core

Routewerk is the backend of a climbing gym: routes and setting sessions, competitions with live
scorecards, staff roles, background jobs. This Dafny project models the parts of it in which state
changes step by step and proves what they promise over every input, every run or every interleaving.
`dafny verify dfyconfig.toml` verifies the whole project.

Each SQL statement or transaction is one atomic step on maps and sequences. Time is a number that a
caller supplies. Code that updates fields is a class whose methods are proved against functions on
values; concurrent code is a state machine whose steps interleave freely. Faults of the database are
inputs: a flag says which call fails.

| files | what they model |
|---|---|
| `AttemptStore`, `CompActions` | attempt rows, the action log, the climber-action endpoint, the staff override |
| `CompHistory`, `CompReplay`, `CompRace` | theorems about sequential runs, about retries and batches, about interleaved requests |
| `Floats` | binary64 and binary32 arithmetic with rounding, overflow and NaN |
| `Ranking`, `Scoring`, `Comparing` | stable sorting and standard ranks, the scorers, the comparison of two climbers |
| `Leaderboard`, `LeaderboardOrder`, `LeaderboardRuns` | the leaderboard, what the order of the rows does to it, and which runs make it fair |
| `LikePattern`, `RouteFilter` | LIKE with escapes; the route filter compiled to numbered placeholders under three-valued logic |
| `Backoff`, `JobQueue`, `JobWorkers` | the retry delay in int64, the jobs table, several workers with late finishes and reaps |
| `RateLimiter`, `RateRuns` | the bounded fixed-window limiter and theorems about its runs |
| `Routes`, `Playbook` | publishing and deleting a session, archiving; moving playbook steps |
| `Team` | role edits and their guards |
| `EventBus` | the in-memory bus with its workers, overflow and shutdown |
| `TtlCache`, `CacheRace`, `LeaderboardCache` | the settings cache used sequentially and concurrently; the leaderboard cache |
| `Slug` | the two slugify implementations |
| `Seqs`, `Wrappers` | lists and optional values |

## What the code does that its comments do not say

The model follows the code. Where the proofs contradict a comment or an expectation, the exact
condition is a theorem:

- **Ranking by tops and zones is not always consistent.** `cmpCountBack` stops at the shorter of two
  scorecards (internal/service/competition/topzone.go:96-105). The order has no circles if and only if
  every pair that is cut short this way compares alike with everybody (`Comparing.TopZoneConsistentIff`); on
  scorecards where every top has its zone no pair is (`Comparing.ShapedAreHarmless`). A staff override
  may assert a top without its zone; then three climbers can tie in a circle, and the standings depend on
  the order of the registrations (`LeaderboardRuns.MissingZoneMakesOrderMatter`). Climber actions and undo
  never get there (`CompHistory.SnapshotsPlausibleIff`, `LeaderboardRuns.RunsGiveFairStandings`). The
  ranking is also called "dense" (internal/service/competition/scorer.go:80), but ties make the next rank
  skip.
- **Points depend on the order of the rows.** The scorers add float64 numbers in the order of the attempt
  rows, which the query leaves open (internal/repository/competition_attempt.go:119-144), and compare the
  sums exactly. Two orders are indistinguishable if and only if the rounded sums agree
  (`Comparing.PointsOrderIff`, `LeaderboardOrder.PlaceIndependentIff`). Whole points always agree; the
  default decay settings do not (`LeaderboardRuns.RowOrderMovesAClimber`). A total that is NaN ties with
  nothing, not even itself, and then more points can rank worse (`Comparing.PointsDecideIff`); it takes
  settings that are negative or not finite (`Scoring.ScoreIsNumber`).
- **Moving a playbook step always fails** when it has a neighbour: internal/repository/session.go:1010-1011
  says sort_order has no UNIQUE constraint, but migration 9 declares `UNIQUE (location_id, sort_order)`
  (internal/database/migrations/000009_session_checklist.up.sql:25), which the first of the two
  updates violates. `Playbook.MoveIsExchange` covers the table with and without the constraint.
- **Retry delays** (internal/jobs/queue.go:260-265): the attempt count is already incremented, so the first
  retry waits two minutes, not the 30 seconds of the comment. The int64 computation gives the promised
  delay exactly for up to 14 attempts and for 19, 20 and 22; for all other counts it is zero or negative,
  so the retry is immediate.
- **Exactly-once jobs**: migration 18 promises exactly-once delivery. `completeJob` and `failJob` do not
  look at the status, so after a reap a late failure sends a completed job back to pending
  (`JobWorkers.LateFailureUndoesCompletion`). Never-reaped jobs keep all the promises.
- **The action log under concurrency**: two overlapping increments of one attempt can lose one
  (`CompRace.LostUpdateBreaksChain`). The logs stay chains if and only if no write overwrites a row it had
  not read (`CompRace.ChainedIffNoStale`), for instance when requests take turns per attempt. Idempotency
  keys hold in every interleaving.
- **The settings cache can serve an overwritten value** after the writer invalidated it, because a slow
  reader may fill it late (`CacheRace.LateFillServesOldValue`); such late fills are the only way
  (`CacheRace.CoherentIff`).
- **The sliding-interval bound** of the limiter is 2 * limit - 1, and that is attained; each eviction of
  the key adds one limit.
- internal/handler/comp_action.go:183-185 allows for a row that undo brought back to "not yet
  existent"; rows are never deleted, undo writes the zero state.
- internal/repository/competition_attempt.go:309-311 asks for a log entry with every verification;
  `VerifyAttempt` writes none.
- internal/handler/team.go:133-138 speaks of an authorizer for gym managers in front of `UpdateMembership`
  and of head setters assigning up to head setter; the handler's own guards let a head setter assign
  setter and climber only (`Team.ChangePossibleIff`).
- Deleting a session can fail on drafts that a foreign key without cascade still references.

## Model

| member | source | states |
|---|---|---|
| AttemptStore.AttemptRepo.ApplyAction | internal/repository/competition_attempt.go:242-306 | upsert and log entry are one transaction: refused exactly when the key is already logged, and then nothing has changed |
| AttemptStore.WriteFrame | internal/repository/competition_attempt.go:242-306 | a write is refused if and only if its key is in the log; an accepted one appends one entry, touches one row and keeps keys unique |
| AttemptStore.LatestIsNewest | internal/repository/competition_attempt.go:165-177 | the entry that drives undo is the newest of its attempt by (at, id), and is missing only if there is none |
| AttemptStore.UniqueKeyIsFound | internal/repository/competition_attempt.go:179-191 | looking a key up finds the one entry that carries it |
| CompActions.ActionMeaning | internal/handler/comp_action.go:338-380 | what each action may touch: only increment counts up, only top tops, top keeps an earlier zone count, nothing but reset takes anything back |
| CompActions.CompHandler.ApplyOne | internal/handler/comp_action.go:203-305 | load, compute or restore, write, or replay a lost race: the transition that CompHistory.ActionDoesWhatItSays and ReportsTheRow pin field by field |
| CompActions.CompHandler.PerformItem | internal/handler/comp_action.go:125-169 | replay, problem, competition and closing checks in order, then the action; answers for the problem it was asked about |
| CompActions.CompHandler.RunBatch | internal/handler/comp_action.go:125-169 | the loop leaves the store of the sequential batch, splits the outcomes into the two lists in order, and touches exactly the problems with an applied outcome |
| CompActions.CompHandler.ReadSnapshot | internal/handler/comp_action.go:179-193 | the state section lists exactly the touched problems that could be read, each with its current row |
| CompActions.CompHandler.SubmitActions | internal/handler/comp_action.go:36-196 | refused exactly when an id, a lookup, the status, the caller, the registration, the body or a preload fails, with a code that fits and nothing changed; otherwise the batch, its two lists and the snapshot after it, each action with the effect and report that ActionDoesWhatItSays and ReportsTheRow state |
| CompActions.CompHandler.OverrideAttempt | internal/handler/comp_verify.go:57-154 | succeeds exactly when every load succeeds, the caller is setter or above at the location and the body is valid, and then every field of the row is that of the body, and it is logged; otherwise nothing changes |
| CompHistory.PerformWrites | internal/handler/comp_action.go:203-305 | a freshly applied action moves one row to the reported state and logs the row it found as Before; any other outcome changes nothing |
| CompHistory.ActionDoesWhatItSays | internal/handler/comp_action.go:203-380 | field by field in terms of the row found: increment adds one try, zone reaches the zone on the current try and leaves the top alone, top tops and reaches the zone only if it was not reached, reset clears; one entry from the row found to the row made, no other row; applied whenever the row is reached and the kind known, and otherwise nothing changes |
| CompHistory.ReportsTheRow | internal/handler/comp_action.go:295-331 | the reply shows, field by field, the row as it then is, undo included, and a replay the row as the entry of its key left it |
| CompHistory.SnapshotShowsRows | internal/handler/comp_action.go:179-193 | the state section shows the fields of each row, and an untouched problem as empty |
| CompHistory.RunIsChained | internal/handler/comp_action.go:203-305 | in every sequential run of actions and overrides each attempt's log is a chain from the zero state that ends in the current row |
| CompHistory.AppliedIff | internal/handler/comp_action.go:125-169 | without faults an action is applied if and only if its key was used or its problem is open, its kind known and, for undo, there is history |
| CompHistory.UndoStepsBack | internal/handler/comp_action.go:222-250 | undo is rejected exactly for an untouched problem; otherwise it restores the state before the last change and nothing else moves |
| CompHistory.UndoInvertsAnyAction | internal/handler/comp_action.go:203-305 | a change followed by undo brings the row back to what it was before the change |
| CompHistory.DoubleUndoIsIdentity | internal/handler/comp_action.go:222-250 | two undos in a row are the identity on all rows, whenever each arrives |
| CompHistory.SnapshotsPlausibleIff | internal/handler/comp_action.go:338-380 | over whole runs, every row and logged snapshot is well formed (top implies zone, zone has a plausible count) if and only if no override asserted otherwise |
| CompHistory.BrokenSnapshotStays | internal/handler/comp_verify.go:84-106 | an ill-formed override stays in the log for the rest of the run |
| CompHistory.EveryStateReachable | internal/handler/comp_verify.go:57-115 | actions and overrides can bring about every set of rows with non-negative counts on open problems |
| CompReplay.AppliedIsLogged | internal/handler/comp_action.go:309-331 | an applied reply to a keyed action is the reply the key gets from then on |
| CompReplay.ResubmitReplays | internal/handler/comp_action.go:125-169 | resubmitting a keyed, fully applied batch at any later time, events closed or not, changes nothing and repeats every state |
| CompReplay.BatchSplits | internal/handler/comp_action.go:125-169 | two batches in a row are their concatenation |
| CompReplay.BatchIsRun | internal/handler/comp_action.go:125-169 | a batch leaves the store that its actions leave one by one |
| CompReplay.ListsPartition | internal/handler/comp_action.go:125-169 | item i sits in its response list right after the earlier items of its kind |
| CompReplay.ListSizes | internal/handler/comp_action.go:125-169 | applied and rejected together have one outcome per action |
| CompReplay.OutcomeMatchesEffect | internal/handler/comp_action.go:125-169 | rejected and replayed actions change nothing; an applied one adds one entry under its key with the reported state |
| CompReplay.SnapshotIsLastApplied | internal/handler/comp_action.go:179-193 | the state reported for a problem is the one its last applied action of the batch reported |
| CompReplay.RejectedBecause | internal/handler/comp_action.go:141-166 | without faults each rejection reason is given exactly when its condition is the first that fails |
| CompRace.EveryInterleavingKeepsInv | internal/handler/comp_action.go:203-305 | in every interleaving of the separate reads and writes, keys stay unique in the log and success replies agree with it |
| CompRace.UndisturbedIsSequential | internal/handler/comp_action.go:125-305 | a request that nobody disturbs between its database calls leaves the store and gives the reply of the sequential handler |
| CompRace.EveryEntryMeansItsAction | internal/handler/comp_action.go:338-380 | in every interleaving every log entry takes the state it names as Before to what its action makes of it, field by field |
| CompRace.ExactlyOnce | internal/handler/comp_action.go:272-294 | in every interleaving a key has one log entry, at most one reply reports it as new, and all successes report the same state |
| CompRace.ChainedIffNoStale | internal/handler/comp_action.go:203-305 | in every interleaving the logs are chains ending in the current rows if and only if no write overwrote a row other than the one it had read; otherwise some log is broken for good |
| CompRace.OneAtATimeKeepsChains | internal/handler/comp_action.go:203-305 | if no two requests are between reading and writing one attempt at once, however they overlap otherwise, every log is a chain |
| CompRace.LostUpdateBreaksChain | internal/handler/comp_action.go:203-305 | an instance: two overlapping increments, both logged, one lost, and the log is no chain |
| Ranking.SortPermutes | internal/service/competition/topzone.go:61-70 | sorting loses and invents nothing, whatever the comparator |
| Ranking.SortSorts | internal/service/competition/topzone.go:61-70 | with a consistent comparator the result is in order |
| Ranking.BetterRanksAhead | internal/service/competition/helpers.go:58-81 | whoever is better by a consistent comparator that the ranking refines gets a better rank, even if the ranking itself goes round in circles |
| Ranking.SortKeepsTies | internal/service/competition/topzone.go:61-70 | tied climbers keep the order in which they came |
| Ranking.AssignStandardRanks | internal/service/competition/helpers.go:70-81 | the renumbering loop gives position plus one, or the rank before on a tie; what that amounts to is RankIsPlace |
| Ranking.RankIsPlace | internal/service/competition/helpers.go:58-81 | for a consistent comparator the rank is one plus the number of strictly better items, whatever the input order or sorting algorithm |
| Ranking.SortedUpToTies | internal/service/competition/topzone.go:109-116 | two sorted arrangements of the same results agree at every position up to ties |
| Scoring.Score | internal/service/competition/decay.go:54-96 | rows of deleted problems are skipped and the totals add up over the remaining lines in row order, points in float64, for every scorer |
| Scoring.TopIsWorthItsPoints | internal/service/competition/fixed.go:46-54 | without a top nothing is earned, by tops and zones never anything; with fixed points a top earns the problem's points, and a flash their rounded sum with the bonus |
| Scoring.FlashIsExact | internal/service/competition/fixed.go:46-54 | points and bonus with few binary digits add up exactly |
| Scoring.DecayIsTheFormula | internal/service/competition/decay.go:77-105 | where nothing needs rounding a top in n tries earns base / (1 + rate * (n - 1)), a flash the base with the bonus |
| Scoring.DecayFalls | internal/service/competition/decay.go:77-105 | with non-negative settings, fewer tries never decay more, for any recorded number of tries, and never earn less once a top took a try, rounding and overflow included |
| Scoring.FewDigitsAnyOrder | internal/service/competition/decay.go:77-85 | tops worth multiples of a power of two that stay below 2^53 units in all are added without rounding, in any order |
| Scoring.ScoreIsNumber | internal/service/competition/decay.go:54-96 | with non-negative settings no total is NaN |
| Scoring.NegativeRateGivesNaN | internal/service/competition/decay.go:98-105 | base 0 and rate -1 make two tries worth NaN |
| Comparing.CompareCountBack | internal/service/competition/topzone.go:93-107 | the loop finds the first difference over the lines both climbers have |
| Comparing.BetterByTopZone | internal/service/competition/topzone.go:74-140 | who is better, on the fields: more tops, more zones, fewer tries to top, fewer to zone; with equal totals the first to have the better result when each climber's are taken from best to worst in any way, a top before a zone before nothing and fewer tries first |
| Comparing.BetterByPoints | internal/service/competition/helpers.go:45-57 | better means more points, infinities included, or equal points and fewer tries to top; tied means equal in both, and NaN is neither |
| Comparing.PointsDecideIff | internal/service/competition/helpers.go:45-81 | in whatever order the climbers come more points give a better rank, if and only if no total is NaN or nobody has more points than anybody else |
| Comparing.TopZoneAgreesIff | internal/service/competition/topzone.go:74-107 | the comparison of two climbers, whose meaning BetterByTopZone states, is the count-back over all results if and only if it is not cut short by the shorter scorecard |
| Comparing.ShapedAreHarmless | internal/service/competition/topzone.go:74-107 | among scorecards on which every top has its zone no pair is cut short |
| Comparing.TopZoneConsistentIff | internal/service/competition/topzone.go:74-107 | over any list of climbers the order has no circles if and only if every pair cut short compares alike with everybody |
| Comparing.PointsConsistentIff | internal/service/competition/helpers.go:45-57 | the comparison by points is consistent if and only if no total is NaN |
| Comparing.TopZoneOrderIrrelevant | internal/service/competition/topzone.go:74-116 | by tops and zones, scorecards of the same rows in any order compare alike with everybody |
| Comparing.PointsOrderIff | internal/service/competition/helpers.go:45-57 | by points, no competitor can tell two orders of the same rows apart if and only if the rounded sums agree |
| Comparing.FewDigitsOrderIrrelevant | internal/service/competition/fixed.go:46-54 | whole points, or points with few binary digits, give equal sums in any order |
| Comparing.CircleOfThree | internal/service/competition/topzone.go:61-107 | the condition is sharp: two climbers cut short against a third, who tell each other apart, rank differently in two orders |
| Leaderboard.Aggregate | internal/handler/comp_leaderboard.go:133-220 | unknown scorer: empty board; bad configuration: error if anybody is active; otherwise one entry per active registration, in rank order, with its own data and its float64 points narrowed to float32; who ranks before whom is BetterTotalsRankAhead, MorePointsRankAhead and StandingsAreFair |
| Leaderboard.BetterTotalsRankAhead | internal/handler/comp_leaderboard.go:176-220 | on every board by tops and zones, consistent or not, an entry that shows more tops, or equal tops and more zones, or then fewer tries, has a strictly better rank |
| Leaderboard.MorePointsRankAhead | internal/handler/comp_leaderboard.go:176-220 | on a board by points whose totals are numbers, more points, before or after narrowing to float32, have a strictly better rank |
| Leaderboard.BoardListsEntered | internal/handler/comp_leaderboard.go:148-220 | every climber who has not withdrawn has an entry, nobody else, no more entries than that, each with the data of its own registration |
| Leaderboard.TotalsCountOwnAttempts | internal/handler/comp_leaderboard.go:148-175 | tops, zones and tries are the sums over the climber's own attempts on existing problems, out of all attempts of the competition |
| Leaderboard.ComparableIff | internal/handler/comp_leaderboard.go:176-187 | the scores of a leaderboard are consistently ordered if and only if no total is NaN (points) or every pair cut short compares alike with everybody (tops and zones) |
| Leaderboard.SaneIsComparable | internal/handler/comp_leaderboard.go:176-187 | that holds for attempts on which every top has its zone and settings that are not negative |
| Leaderboard.StandingsAreFair | internal/handler/comp_leaderboard.go:133-220 | under that condition every climber gets one plus the number of strictly better climbers |
| LeaderboardOrder.RowOrderIrrelevant | internal/handler/comp_leaderboard.go:148-220 | the rows come unordered from the database; by tops and zones the whole board is independent of their order, by points it is if every climber's rounded sums agree |
| LeaderboardOrder.PlaceIndependentIff | internal/handler/comp_leaderboard.go:148-190 | by points, a climber's place in every possible field is independent of the row order if and only if the rounded sums of both orders agree |
| LeaderboardOrder.FewDigitsRowOrder | internal/handler/comp_leaderboard.go:148-220 | points with few binary digits, whole points say, make the board independent of the row order |
| LeaderboardRuns.RunsGiveFairStandings | internal/handler/comp_leaderboard.go:68-123 | after any run without an ill-formed override, and with settings that are not negative, every leaderboard is fair |
| LeaderboardRuns.AttemptsReachable | internal/handler/comp_verify.go:57-115 | every list of attempts on open problems, one per climber and problem, is what the leaderboard reads after some run |
| LeaderboardRuns.MissingZoneMakesOrderMatter | internal/service/competition/topzone.go:61-107 | a run with overrides after which the order of the registrations decides who shares first place |
| LeaderboardRuns.RowOrderMovesAClimber | internal/service/competition/decay.go:77-85 | with the default decay settings, equal results in 1, 4 and 8 tries tie or rank first and second depending on the row order |
| LikePattern.EscapedMatchesSubstring | internal/repository/route.go:74-94 | '%' + escape(q) + '%' matches s exactly when q occurs in s |
| LikePattern.EscapedIMatchesSubstring | internal/repository/route.go:74-94 | the same for ILIKE after folding both sides, for every fold that keeps the metacharacters |
| LikePattern.SubstringPatternWellFormed | internal/repository/route.go:74-94 | escaped text never ends a pattern in a lone escape |
| LikePattern.RawPatternExactIff | internal/repository/route.go:74-94 | without escaping the pattern is right exactly for queries that hold no metacharacter |
| RouteFilter.WhereBuilder.AddEq | internal/repository/route.go:34-41 | empty value: nothing; otherwise one condition on the next placeholder and its argument, argN again one past the arguments |
| RouteFilter.WhereBuilder.AddGte | internal/repository/route.go:43-50 | likewise with >= |
| RouteFilter.WhereBuilder.AddLte | internal/repository/route.go:52-59 | likewise with <= |
| RouteFilter.WhereBuilder.AddIn | internal/repository/route.go:61-72 | the loop appends one placeholder and one argument per value, then one condition |
| RouteFilter.WhereBuilder.AddSearch | internal/repository/route.go:84-94 | one escaped argument that all four search columns share |
| RouteFilter.BuildWhere | internal/repository/route.go:282-295 | the builder run on a filter gives the compiled form whose meaning CompiledSelectsExactly states |
| RouteFilter.SelectsStable | internal/repository/route.go:20-103 | appending arguments never changes what earlier placeholders mean |
| RouteFilter.AddedCond | internal/repository/route.go:34-94 | adding a condition narrows the selection by exactly that condition |
| RouteFilter.CompiledSelectsExactly | internal/repository/route.go:282-295 | the compiled WHERE clause selects a row if and only if the row satisfies the filter, NULL columns included |
| RouteFilter.SelectedIsMatching | internal/repository/route.go:297-326 | with LIMIT and OFFSET arguments appended, the selected rows are still the matching ones |
| RouteFilter.ListReturnsPage | internal/repository/route.go:297-355 | LIMIT and OFFSET point at their own arguments; the page skips offset rows, shows the next ones in order, and is short only at the end; the total is right exactly when the page is not past the end |
| Backoff.DelayAsIntendedIff | internal/jobs/queue.go:260-265 | up to 31 attempts the int64 delay is the promised one if and only if attempts <= 14 or attempts is 19, 20 or 22, and otherwise not positive |
| Backoff.DelayGrows | internal/jobs/queue.go:260-265 | from 1 to 14 attempts the delay starts at two minutes, never shrinks and stays within the hour |
| Backoff.DelayBeyond31 | internal/jobs/queue.go:260-265 | from 32 attempts on, both usual float conversions retry at once |
| Backoff.SmallDelays | internal/jobs/queue.go:260-265 | the first three waits are 120, 480 and 1920 seconds |
| JobQueue.Queue.Enqueue | internal/jobs/queue.go:81-109 | no type: refused; otherwise one fresh pending row with three attempts by default |
| JobQueue.Queue.Claim | internal/jobs/queue.go:151-193 | claims the ready job with the earliest run_at that no other transaction has locked and counts the attempt; nothing exactly when there is none |
| JobQueue.Queue.CompleteJob | internal/jobs/queue.go:237-245 | marks the row completed whatever its status |
| JobQueue.Queue.FailJob | internal/jobs/queue.go:247-274 | dead once the worker's count has reached the maximum, otherwise pending after the int64 delay |
| JobQueue.StatementsByRow | internal/jobs/queue.go:151-274 | claim, complete and fail field by field: what they set, what they keep, and that a failure with attempts left sets the retry time |
| JobQueue.Queue.Reap | internal/jobs/queue.go:278-304 | row by row: exactly the jobs running for more than ten minutes go back to pending with a note, and keep attempts, schedule and start time; every other row and the set of rows stay |
| JobQueue.ReapedIsAfterReap | internal/jobs/queue.go:278-304 | those row changes are the step the interleavings of the workers take |
| JobQueue.Queue.ProcessOne | internal/jobs/queue.go:151-235 | one ready job that is not locked goes through one attempt to completed, dead or pending, and no other row changes |
| JobWorkers.EveryRunKeepsInv | internal/jobs/queue.go:151-304 | the counting invariant of every interleaving of workers, late finishes and reaps |
| JobWorkers.AttemptsBounded | internal/jobs/queue.go:151-304 | attempts equals the number of claims and never exceeds the maximum plus the number of reaps |
| JobWorkers.AtMostOneHolder | internal/jobs/queue.go:151-304 | a job never reaped is held by at most one worker, and only while running |
| JobWorkers.ClaimedExactlyWhenDue | internal/jobs/queue.go:151-274 | in every interleaving an idle worker gets a job if and only if it is pending and due: at the time it was enqueued for, or that its last retried failure set |
| JobWorkers.FinalForever | internal/jobs/queue.go:237-274 | a never-reaped job that is completed or dead never changes again |
| JobWorkers.FinalCanChangeIff | internal/jobs/queue.go:237-274 | a finished job can still change status if and only if some worker still holds it |
| JobWorkers.ChangeCostsEnergy | internal/jobs/queue.go:151-304 | without reaps every status change lowers a measure on the attempts left and the status |
| JobWorkers.ChangesBounded | internal/jobs/queue.go:151-304 | a never-reaped job changes status at most twice per allowed attempt |
| JobWorkers.LateFailureUndoesCompletion | internal/jobs/queue.go:247-304 | after a reap a late failure sends a completed job back to pending |
| RateLimiter.Limiter.Cleanup | internal/middleware/security.go:349-355 | the sweep keeps exactly the entries no older than twice the window |
| RateLimiter.Limiter.EvictOldest | internal/middleware/security.go:358-372 | the scan takes out one entry that no other is older than |
| RateLimiter.Limiter.MakeRoom | internal/middleware/security.go:445-461 | only stale entries and at most one evicted oldest entry leave, eviction only from a full map, and there is room afterwards |
| RateLimiter.Limiter.Handle | internal/middleware/security.go:431-481 | the key's window and the decision follow the fixed-window rule, bounded from above by SlidingIntervalBound and from below by DeniedOnlyAfterFullLimit; only a new key makes others leave, the map stays within its cap |
| RateRuns.MapBounded | internal/middleware/security.go:431-481 | in every run the map stays within its cap |
| RateRuns.SweepingIsInvisible | internal/middleware/security.go:339-355 | on keys not evicted, the limiter with background and inline sweeps decides as one that never deletes |
| RateRuns.SlidingBound | internal/middleware/security.go:440-478 | without deletions: at most 2 * limit - 1 admissions in any closed interval no longer than the window |
| RateRuns.SlidingIntervalBound | internal/middleware/security.go:440-478 | the same in every run of the real limiter, for a key never evicted |
| RateRuns.DeniedOnlyAfterFullLimit | internal/middleware/security.go:440-478 | in every run a request is denied only if its key got a full limit of requests, and at least one, through in the window up to then; denials never prolong the wait |
| RateRuns.EvictionsCostOneLimitEach | internal/middleware/security.go:358-372 | for every key in every run: at most 2 * limit - 1 admissions in such an interval plus one limit for each eviction of the key in it |
| RateRuns.BoundIsAttained | internal/middleware/security.go:440-478 | for every limit and window some request times reach the bound |
| Routes.Repo.PublishSession | internal/repository/session.go:659-719 | refused sessions change nothing; otherwise the result is the one-pass specification and the two counts are the routes whose status changed |
| Routes.PublishIsOnePass | internal/repository/session.go:659-719 | three updates in sequence judge every route by its state before the transaction |
| Routes.PublishMeans | internal/repository/session.go:659-719 | route by route: active routes on walls to be stripped and live routes listed singly come off, the session's other live drafts go up, nothing else changes |
| Routes.PublishCounts | internal/repository/session.go:659-719 | each changed route is counted by exactly one statement |
| Routes.SecondPublishRefused | internal/repository/session.go:659-719 | a second publish is refused as already complete (or again as missing) and changes nothing |
| Routes.OtherSessionsDrafts | internal/repository/session.go:659-719 | another session keeps its drafts except those the published one listed for stripping |
| Routes.Repo.DeleteSession | internal/repository/session.go:530-575 | drafts go, published routes are unlinked, targets go; a draft still referenced aborts everything |
| Routes.DeleteMeans | internal/repository/session.go:530-575 | the delete goes through if and only if no draft of the session is still pointed at; then exactly the session, its targets and its drafts are gone and its other routes belong to no session |
| Routes.DeleteAfterPublishKeepsRoutes | internal/repository/session.go:530-575 | after a publish the delete takes only soft-deleted drafts |
| Routes.Repo.UpdateStatus | internal/repository/route.go:522-533 | one live route; archiving sets the strip date unless it has one |
| Routes.Repo.BulkArchive | internal/repository/route.go:535-546 | exactly the listed live routes not yet archived; the count is the routes that changed |
| Routes.Repo.BulkArchiveByWall | internal/repository/route.go:548-559 | exactly the live active routes of the wall; the count is the routes that changed |
| Routes.ArchivesMean | internal/repository/route.go:522-559 | for a status change, a list and a wall: which routes change, in which fields, and that no other does |
| Routes.FirstStripDateIsKept | internal/repository/route.go:522-559 | over any mix of publishes, archives, un-archives and deletes a strip date is never overwritten and every archived route has one |
| Playbook.MaxOrder | internal/repository/session.go:917-933 | the largest sort order of the location, if it has any step |
| Playbook.FindNeighbour | internal/repository/session.go:986-1008 | the nearest step of the location in the direction, or none exactly at the edge |
| Playbook.Table.Create | internal/repository/session.go:917-933 | one new step right after the largest order, 0 in an empty list; nothing else changes |
| Playbook.Table.Delete | internal/repository/session.go:949-958 | takes one step out |
| Playbook.Table.Move | internal/repository/session.go:963-1026 | bad direction, missing step, edge, failure with rollback, or a swap with the nearest neighbour |
| Playbook.CreateAppends | internal/repository/session.go:917-933 | a new step goes to the end of the list |
| Playbook.DeleteRemoves | internal/repository/session.go:949-958 | the others keep their order |
| Playbook.ListingIsUnique | internal/repository/session.go:873-895 | a location's steps have only one list in sort order |
| Playbook.MoveIsExchange | internal/repository/session.go:963-1026 | away from the edge a move exchanges two adjacent steps if and only if the table lacks the UNIQUE constraint and the database works; otherwise nothing changes |
| Playbook.MoveKeepsOtherLists | internal/repository/session.go:963-1026 | other locations keep their lists |
| Playbook.UpThenDown | internal/repository/session.go:963-1026 | without the constraint up then down is the identity when the step was not first |
| Playbook.MoveKeepsDistinct | internal/repository/session.go:963-1026 | moves keep orders pairwise distinct within a location |
| Playbook.CreateKeepsDistinct | internal/repository/session.go:917-933 | so does creating |
| Team.HasAnyRole | internal/rbac/rbac.go:43-54 | at least the rank of one known required role; unknown roles neither have nor grant access |
| Team.CallerRole | internal/handler/team.go:268-291 | the max loop returns a role of the caller with the caller's rank |
| Team.CallerRankIsHighest | internal/handler/team.go:268-291 | that rank is the highest among the caller's live rows in the org, 0 without any |
| Team.AllowedRolesBounded | internal/handler/team.go:296-308 | nobody may assign above the own rank, and from head setter down only below it |
| Team.AllowedIsMayAssign | internal/handler/team.go:296-308 | which roles may be assigned depends on the rank alone |
| Team.Memberships.UpdateMembership | internal/handler/team.go:145-218 | the guards in order, with a caller whose memberships cannot be read counting as without role; only a passed edit changes the row, and only its role, even if the reply fails; who passes is UpdateOfAnotherIff and UpdateOfOwnIff |
| Team.Memberships.RemoveMembership | internal/handler/team.go:226-264 | the guards in order, likewise; only a passed removal marks the row deleted |
| Team.UpdateOfAnotherIff | internal/handler/team.go:145-218 | another's role is changed if and only if no call fails, the user does not hold the role already, and some live row of the caller in the org outranks the row and may give the role: rank 5 any, rank 4 ranks 1 to 4, rank 3 ranks 1 and 2 |
| Team.UpdateOfOwnIff | internal/handler/team.go:145-218 | the own role is changed if and only if likewise nothing is in the way, the role is no lower, and some own live row may give it |
| Team.RemoveIff | internal/handler/team.go:226-264 | a row is removed if and only if it is another's, no call fails, and some live row of the caller in the org has rank 4 or 5 and outranks it |
| Team.ChangedOnlyFromAbove | internal/handler/team.go:145-264 | another's row changes only from above; an own row is never lowered nor raised past the own rank |
| Team.ChangePossibleIff | internal/handler/team.go:145-308 | a caller can change another's row if and only if it outranks it and is gym manager or above, or is head setter with a free role up to setter; its own if and only if a free role lies between the row's rank and what it may assign |
| Team.TopRankIsStable | internal/handler/team.go:145-308 | over every run of edits the highest rank of an org never changes and no row holding it is lowered or removed |
| Team.NobodyReachesAbove | internal/handler/team.go:145-308 | callers of rank at most k, acting together over any run, change no row at rank k or above and raise none past k |
| EventBus.EveryRunKeepsInv | internal/event/memory.go:60-143 | every handed-off delivery is in exactly one place, and the counters agree, in every interleaving |
| EventBus.Conservation | internal/event/memory.go:60-143 | the wait count is queued + running + overflowed + about to be handed off; queue and pool keep their bounds; nothing finishes twice |
| EventBus.ExactlyOnceAtQuiescence | internal/event/memory.go:78-127 | once quiet, every async subscriber copied by every publish has run its event exactly once |
| EventBus.SnapshotIsFixed | internal/event/memory.go:69-90 | what a publish copied when it started is what it delivers to, whatever subscribes later; which subscribers these are is PublishCopiesSubscribed |
| EventBus.PublishCopiesSubscribed | internal/event/memory.go:60-90 | over every run, a publish copies exactly the subscriptions made to its event before it, each once and in order |
| EventBus.SubscribedRunExactlyOnce | internal/event/memory.go:60-127 | once quiet, every async subscription made before a publish of its event has run it exactly once, and nothing else has |
| EventBus.CanAlwaysComeToRest | internal/event/memory.go:78-127 | from every reachable state the publishers and workers can bring the bus to rest on their own |
| EventBus.ShutdownCanReturn | internal/event/memory.go:130-143 | a waiting shutdown call can always still return nil |
| EventBus.ReleasedWasDrained | internal/event/memory.go:130-143 | a released shutdown call saw a zero count while it waited |
| EventBus.ShutdownMeansDrained | internal/event/memory.go:130-143 | shutdown returns nil only if at some instant during the call all handed-off deliveries had finished |
| TtlCache.Cache.Get | internal/cache/cache.go:36-50 | a hit until the expiry instant included; an expired entry is dropped |
| TtlCache.Cache.Set | internal/cache/cache.go:52-57 | the value with a fresh expiry, other keys untouched |
| TtlCache.Cache.Invalidate | internal/cache/cache.go:60-62 | exactly that key goes |
| TtlCache.CachedSettingsRepo.GetLocationSettings | internal/repository/settings_cached.go:37-47 | used sequentially a read returns what the uncached repository would, or an error when the database is down and nothing fresh is cached; afterwards the value is cached, for the full TTL if it was loaded |
| TtlCache.CachedSettingsRepo.UpdateLocationSettings | internal/repository/settings_cached.go:49-56 | a successful write reaches the store and leaves no cached value behind |
| CacheRace.EveryRunKeepsInv | internal/repository/settings_cached.go:37-56 | every cached, loaded or served value was stored at an instant no earlier than the start of its load |
| CacheRace.ServedIsRecent | internal/repository/settings_cached.go:37-56 | a value served from the cache was set within the last TTL and was the stored one at or after the start of that load |
| CacheRace.CoherentIff | internal/repository/settings_cached.go:37-56 | over a whole run every cached value is the stored one or about to be invalidated, at every instant, if and only if no step fills the cache with an overwritten value that nobody will invalidate |
| CacheRace.FillIsWrongIff | internal/repository/settings_cached.go:37-47 | a fill leaves a wrong entry if and only if the stored value has changed since the instant the load saw |
| CacheRace.ReadsAreCurrent | internal/repository/settings_cached.go:37-56 | if no write changes a value that some client has loaded and not yet cached, reads from the cache get the stored value or one about to be invalidated |
| CacheRace.LateFillServesOldValue | internal/repository/settings_cached.go:37-56 | an instance: a late fill serves an overwritten value although the writer invalidated |
| LeaderboardCache.PrefixIdentifies | internal/handler/comp_leaderboard.go:241-243 | with ids that hold no bar, a key has a competition's prefix if and only if it is that competition's |
| LeaderboardCache.KeysDistinct | internal/handler/comp_leaderboard.go:241-243 | different boards have different keys |
| LeaderboardCache.BarsConfuse | internal/handler/comp_leaderboard.go:270-279 | why ids must hold no bar, as the UUIDs the handlers admit do: an invalidation would drop the board of every id that goes on after a bar |
| LeaderboardCache.Cache.Put | internal/handler/comp_leaderboard.go:258-265 | the board is served until the TTL and not after, all other boards are as before |
| LeaderboardCache.Cache.Invalidate | internal/handler/comp_leaderboard.go:270-279 | no board of the competition is left, all others are as before |
| Slug.SlugifyLoop | cmd/admin/main.go:569-583 | the byte loop returns what the regular expression does, for every byte string |
| Slug.RunesAreBytes | internal/handler/helpers.go:88-95 | replacing runs of runes and runs of bytes is the same, valid UTF-8 or not |
| Slug.SlugifyGivesSlug | internal/handler/helpers.go:88-95 | the result is empty or starts and ends alphanumeric with no two adjacent dashes |
| Slug.SlugKeepsWords | internal/handler/helpers.go:88-95 | the slug of an ASCII text has exactly its words of letters and digits, in order and in lower case |
| Slug.FixedPointsAreSlugs | internal/handler/helpers.go:88-95 | exactly the slugs are left unchanged |
| Slug.SlugifyIdempotent | internal/handler/helpers.go:88-95 | slugify is idempotent |

## Left out

- HTTP decoding, authentication, JSON shapes, SSE, audit records, metrics and logging.
- Verification stamps on attempts (verified_by, verified_at), logged_at and updated_at.
- Generated attempt ids: an attempt is identified by its registration and problem, which the schema makes unique.
- The JSON encoding of before and after snapshots, taken as the identity.
- 32-bit overflow of database integers and of attempt counts: lemmas about decay take at most 2^31 - 1 tries.
- The sign of zero in floating-point numbers: no quotient of the scorers can see it.
- The parsing of scoring configurations: a rule either parses or not. Per-event overrides and series aggregation are not part of this model.
- The library sort: modelled as insertion sort, which is what it is for up to twenty items; RankIsPlace and SortedUpToTies cover any other algorithm.
- Freshness of cached leaderboards: registration and problem edits do not invalidate them.
- The SQL text of the route filter: conditions are syntax trees with the same placeholder numbers; dates parse, ids are canonical.
- ListWithDetails and the other readers of the same filter.
- RouteRepo.Update interleaved with archiving, wall deletion, tags.
- Session status changes other than publishing, checklists, playbook titles, concurrent playbook inserts.
- Job handlers and their timeouts, the poll and reap tickers (any schedule is covered), job statistics.
- Background cleanup of the limiter as a goroutine: it is a sweep event at any time. Retry-After headers and int overflow of window counts.
- The event bus as an object: its fields change under concurrent steps, so it is a state machine on values; handler panics and logging are not modelled.
- The org and user pairs of the settings cache, which are the same code; InvalidateAll and Len.
- CacheRace.ServedIsRecent: time moves between the steps of a client, not within one.
- Concurrent role edits: Team takes them one at a time.
- Unicode case folding and trimming beyond ASCII: Slug takes them as an arbitrary function.

# CodePulse: verified model of the review pipeline

CodePulse reviews pull requests. It splits a diff into chunks, asks an LLM about them under a shared rate
limit and circuit breaker, merges the findings with those of the static analysis, places them on diff
lines, posts a review, and keeps a run record that periodic sweeps repair. This project models the parts
of it that are algorithms or protocols, and proves what they guarantee.

| file | what it models |
|---|---|
| `RateLimiter.dfy` | the Redis token bucket script and the limiter object |
| `CircuitBreaker.dfy` | the three breaker scripts as a timed state machine |
| `Text.dfy`, `LineMapping.dfy` | lines of text, hunk headers, the unified-diff parser |
| `PatchApplication.dfy` | diffs as POSIX.1-2017 writes them (`diff` utility, "Diff -u or -U Output Format"), and applying them |
| `Packing.dfy`, `Preprocessor.dfy` | splitting patches at hunks, numbering the parts, batching chunks |
| `Models.dfy`, `FindingMapper.dfy` | findings, and placing them on commentable lines |
| `FindingOrder.dfy`, `Dedup.dfy` | merging, ranking and capping findings |
| `LlmTask.dfy` | the retry and degrade loop of `analyze_llm` |
| `SweepLease.dfy` | the locks of the periodic sweeps |
| `RunRecord.dfy`, `Reanalysis.dfy`, `RecordRuns.dfy` | the run record, its rows and counters, and every writer of it |

`dafny verify dfyconfig.toml` checks everything.

Conventions. Each Redis script is one atomic step, so a sequence of steps is any interleaving of any number of
workers. A key with a lifetime is present while the clock is before its expiry. All steps read one clock,
which does not go back except where a lemma says so. A text is the sequence of pieces between its newlines, so
joining two texts with a newline is concatenation. A choice the program leaves to a library or to word lists
is a function parameter, and the lemmas hold for every such function, with two hypotheses where they say so:
`PicksNearest`, that Python's `min` picks a line at least distance, and `SurvivesNote`, that the family of a
finding's rows is still its own after the confirmation note. The program's word lists meet the latter at the
categories its LLM path produces, and not at every category (a row that reads "memory" in category "leak"
loses its family to the note). What a network call, a fetch or the LLM answers is an input.

Where the program and its own documentation differ, the model follows the program:

- The breaker's failure window is described as rolling; it is fixed from the first failure
  (`WindowDoesNotRoll`), which shows for every threshold above two (`WindowRollsExactlyWhen`).
- `record_success` always answers CLOSED; that is the stored state exactly when the breaker was not OPEN.
- The breaker script tests a missing key against nil, but Redis hands Lua false, so an absent state key
  falls through to the last line, which grants and stores nothing.
- Chunks are described as at most `max_tokens`; a sub-patch of n hunks may take n - 1 tokens more
  (`SubpatchOvershoot`, reached as `OvershootReachedExactlyWhen` says), and one large hunk is never cut.
- Deduplication is described as unique by file, line, category and title; it is exactly when no finding
  replaces the title of another (`UniqueExactlyWhen`), so exactly for a single source
  (`UniqueExactlyForOneSource`).
- The parser is correct exactly for diffs without lines that pass for file headers
  (`ReadBackExactlyWhenSafe`).
- The repost sweep is described as idempotent; a stale selection posts again and replaces the review id
  (`StaleRepostReplacesId`).

## Model

| member | source | states |
|---|---|---|
| RateLimiter.TokenBucketRateLimiter.constructor | src/codepulse/analysis/rate_limiter.py:66-90 | rate and burst come from the arguments, the environment overrides and the defaults, with the burst cut down for low rates; the shared keys stay as they are |
| RateLimiter.TokenBucketRateLimiter.Acquire | src/codepulse/analysis/rate_limiter.py:36-110 | a call refuses with a day's wait when the rate is not positive, otherwise it changes both keys and answers as one atomic script run |
| RateLimiter.TokenBucketRateLimiter.Reset | src/codepulse/analysis/rate_limiter.py:112-114 | both keys are gone |
| RateLimiter.BucketIsTightestWindow | src/codepulse/analysis/rate_limiter.py:39-46 | after any run the tokens before a call equal the least, over the burst and all past call instants, of burst plus refill since then minus what was granted since then |
| RateLimiter.GrantedExactlyWhenEveryWindowAllows | src/codepulse/analysis/rate_limiter.py:48-59 | a call is granted exactly when no window ending with it would exceed burst + rate * length, and the script never raises |
| RateLimiter.NoWindowExceedsTheRate | src/codepulse/analysis/rate_limiter.py:39-52 | in every run whose clock does not go back, the calls granted between two instants cost at most the burst plus the refill between them |
| RateLimiter.ClockStepBackBreaksTheBound | src/codepulse/analysis/rate_limiter.py:43-46 | a run whose clock steps back grants twice the burst at one instant |
| RateLimiter.RateIsKeptExactlyWhen | src/codepulse/analysis/rate_limiter.py:39-52 | for any list of call times: with lengths read off the clock, so that windows may have negative length, every window of every prefix keeps that bound whatever the calls cost, if and only if the times never go back |
| RateLimiter.ForwardAnswersAlike | src/codepulse/analysis/rate_limiter.py:36-59 | whatever the clock and the keys' lifetime, every call is answered as in forward time, where a step back takes no time; the script never raises |
| RateLimiter.GrantedExactlyInForwardTime | src/codepulse/analysis/rate_limiter.py:43-59 | whatever the clock, a call is granted exactly when no window in forward time ending with it would exceed burst + rate * length |
| RateLimiter.NoWindowExceedsForwardTime | src/codepulse/analysis/rate_limiter.py:39-52 | whatever the clock, the calls from one to another cost at most the burst plus the refill of the forward time between them |
| RateLimiter.ExpiryIsInvisibleExactlyWhen | src/codepulse/analysis/rate_limiter.py:50-57 | every run is answered as by a store that never drops keys, if and only if an hour of refill covers the burst |
| RateLimiter.DefaultBurstIsRefilledInAnHour | src/codepulse/analysis/rate_limiter.py:76-87 | with the default burst that condition holds exactly for rates of at least one call an hour |
| RateLimiter.RefusedCallsAreInvisible | src/codepulse/analysis/rate_limiter.py:43-58 | erasing any refused calls from a run leaves every other answer as it was, waits included |
| RateLimiter.WaitIsExact | src/codepulse/analysis/rate_limiter.py:53-58 | with no grant since a refusal, the same call succeeds at a moment if and only if it fits the burst and the reported wait has passed |
| CircuitBreaker.CircuitBreaker.constructor | src/codepulse/analysis/circuit_breaker.py:122-145 | thresholds are kept and the shared keys stay as they are |
| CircuitBreaker.CircuitBreaker.TryExecute | src/codepulse/analysis/circuit_breaker.py:24-60 | whom the check lets through in each stored state, which mode it reports, and the keys it leaves |
| CircuitBreaker.CircuitBreaker.RecordSuccess | src/codepulse/analysis/circuit_breaker.py:97-116 | keys after a success; the reply is CLOSED, which is the stored mode exactly when the breaker was not OPEN |
| CircuitBreaker.CircuitBreaker.RecordFailure | src/codepulse/analysis/circuit_breaker.py:62-95 | a failed probe opens the breaker at once, another failure joins or starts the count and opens it when full; all four keys and the reply, case by case |
| CircuitBreaker.CircuitBreaker.Clear | src/codepulse/analysis/circuit_breaker.py:187-189 | all four keys are gone |
| CircuitBreaker.TripSoundness | src/codepulse/analysis/circuit_breaker.py:81-92 | in every run a CLOSED breaker opens only on a failure that ends at least `threshold` failures, with no success or reset between them, all counted while CLOSED and within ceil(window) seconds of the first |
| CircuitBreaker.TripCompleteness | src/codepulse/analysis/circuit_breaker.py:81-92 | `threshold` failures in a row within the window of the first do open a CLOSED breaker whose count was clear |
| CircuitBreaker.WindowDoesNotRoll | src/codepulse/analysis/circuit_breaker.py:82-85 | a sample: five failures within two seconds across a window's end leave the breaker CLOSED |
| CircuitBreaker.BurstTripsExactlyWhen | src/codepulse/analysis/circuit_breaker.py:81-92 | from any CLOSED state, failures within the window of the first of them trip the breaker if and only if those before the running count's window ends fill that count, or those after it fill one of their own |
| CircuitBreaker.WindowRollsExactlyWhen | src/codepulse/analysis/circuit_breaker.py:81-92 | `threshold` failures within the window of the first of them always open a CLOSED breaker, as documented, if and only if the threshold is at most two |
| CircuitBreaker.ConsecutiveFailuresTrip | src/codepulse/analysis/circuit_breaker.py:81-115 | from a CLOSED state right after a success, a reset or the start, failures within the window of the first trip the breaker if and only if there are `threshold` of them since then |
| CircuitBreaker.QuietPeriod | src/codepulse/analysis/circuit_breaker.py:40-49 | after a trip, whatever is recorded, the breaker stays OPEN and lets nobody through before the recovery time, unless reset |
| CircuitBreaker.FirstResultDecides | src/codepulse/analysis/circuit_breaker.py:74-115 | in every run a HALF_OPEN period ends with the first recorded result: a failure opens the breaker afresh at that instant with no counter and no probe, a success closes it |
| CircuitBreaker.FailedProbeWaitsAgain | src/codepulse/analysis/circuit_breaker.py:74-80 | after a failed probe a caller is let through exactly when the recovery time has passed again |
| CircuitBreaker.OpenedOnlyByFailures | src/codepulse/analysis/circuit_breaker.py:74-92 | the breaker opens, or its opening time moves, only with a failure and to that failure's instant |
| CircuitBreaker.SingleProbe | src/codepulse/analysis/circuit_breaker.py:43-58 | two callers let through within one HALF_OPEN period are at least 60 seconds apart |
| CircuitBreaker.NoLockout | src/codepulse/analysis/circuit_breaker.py:38-58 | from every reachable state a caller that waits the recovery time and the probe lifetime is let through |
| CircuitBreaker.LongEnoughExactlyWhen | src/codepulse/analysis/circuit_breaker.py:38-58 | a wait lets every caller through in every reachable state if and only if it covers the recovery time and the 60 seconds of the probe |
| CircuitBreaker.AMinuteIsEnough | src/codepulse/analysis/circuit_breaker.py:20-58 | with the default settings that wait is exactly 60 seconds |
| LineMapping.ParseUnifiedDiff | src/codepulse/aggregation/line_mapping.py:48-103 | the parsing loop computes the files, hunks and line numbers of the line-by-line specification |
| LineMapping.StepByFirstChar | src/codepulse/aggregation/line_mapping.py:62-101 | what each kind of line does to the parser: file headers, good and malformed hunk headers, added, context and deleted lines, and lines without a marker |
| LineMapping.EveryHunkIsOneInterval | src/codepulse/aggregation/line_mapping.py:80-101 | for any text at all, each hunk's modified and context lines partition one run of consecutive numbers from its start |
| PatchApplication.HeaderRoundTrip | src/codepulse/aggregation/line_mapping.py:20-22 | the header pattern reads back the new start and count of every header written in the standard format |
| PatchApplication.HeaderExactlyWhen | src/codepulse/aggregation/line_mapping.py:20-22 | a line is read as a hunk header with given numbers if and only if it has the parts of the pattern, with any white space in the gaps and any digits |
| PatchApplication.PlainPathIsItsOwnKey | src/codepulse/aggregation/line_mapping.py:63-70 | a path without white space written after `b/` is stored under itself |
| PatchApplication.KeyOfName | src/codepulse/aggregation/line_mapping.py:63-70 | a file header stands for its path whatever prefix letter and slashes precede it and whatever follows a tab or space |
| PatchApplication.ParserNumbersThePatchedFile | src/codepulse/aggregation/line_mapping.py:62-101 | in a diff of several files, wherever the hunks of one apply, the number of each added or context line is the line number of that very text in the patched file, and no other number counts as added; files that share a key follow one another |
| PatchApplication.ReadBackExactlyWhenSafe | src/codepulse/aggregation/line_mapping.py:63-101 | every key's hunks are read with the right numbers and in order if and only if no added line starts like a `+++` header and no deleted line that starts like a `---` header precedes new-side lines of its hunk |
| Packing.PackIsFeasible | src/codepulse/ingestion/preprocessor.py:254-273 | greedy packing keeps order and content, and every block is within both bounds or a single element |
| Packing.GreedyIsOptimal | src/codepulse/ingestion/preprocessor.py:254-273 | no packing in order under the same bounds has fewer blocks |
| Preprocessor.SplitPatch | src/codepulse/ingestion/preprocessor.py:203-245 | the splitting loop yields the whole patch when it fits or holds no hunk, otherwise the greedy groups of hunks under their first headings |
| Preprocessor.PartsAreThePatch | src/codepulse/ingestion/preprocessor.py:212-245 | a patch that fits or has no text is sent whole; otherwise each part is some hunks in order, joined, under its own first line |
| Preprocessor.RawHunksAreThePatch | src/codepulse/ingestion/preprocessor.py:212-212 | the hunks written one after the other are the stripped patch; each but perhaps the first starts with a header and none holds another |
| Preprocessor.StripTextTakesBlanks | src/codepulse/ingestion/preprocessor.py:212-212 | stripping takes white space off both ends of a patch and nothing else |
| Preprocessor.OvershootBound | src/codepulse/ingestion/preprocessor.py:226-243 | joined text of n >= 2 hunks packed under a limit estimates to at most limit + n - 1 tokens and below twice the limit |
| Preprocessor.SubpatchOvershoot | src/codepulse/ingestion/preprocessor.py:212-243 | the same bound for every sub-patch that splitting a real patch yields |
| Preprocessor.OvershootReachedExactlyWhen | src/codepulse/ingestion/preprocessor.py:226-243 | for every n >= 2 and every limit: some patch has a sub-patch of n hunks that takes exactly limit + n - 1 tokens if and only if the limit is at least 3n - 3, below which n hunks never fit |
| Preprocessor.SplitPreservesModifiedLines | src/codepulse/ingestion/preprocessor.py:321-334 | for every path, the added lines found in the sub-patches are together those found in the whole patch, when lines like `+++` headers name the same file, also behind the indentation of the first text line |
| Preprocessor.SplitPreservesExactlyWhen | src/codepulse/ingestion/preprocessor.py:212-245 | for the line a patch's text starts with: every continuation keeps its added lines under every limit if and only if the line is not indented or hides neither a hunk header nor the header of another file |
| Preprocessor.HiddenHunk | src/codepulse/ingestion/preprocessor.py:212-212 | stripping turns any indented hunk header into a hunk, whose line is found in the part and not in the whole |
| Preprocessor.NothingFound | src/codepulse/ingestion/preprocessor.py:321-334 | for a path that the parser keeps under another key, as it does with a blank in it, no added line is ever found |
| Preprocessor.PreprocessFile | src/codepulse/ingestion/preprocessor.py:312-345 | one chunk per sub-patch, carrying path, language, source, heading, text, added lines in ascending order and token estimate |
| Preprocessor.ReconstructedIsNewSide | src/codepulse/ingestion/preprocessor.py:192-200 | without the contents at hand the source is the new side of the hunks, but for added lines that start with `++` |
| Preprocessor.FindModified | src/codepulse/ingestion/preprocessor.py:324-334 | the added lines of one sub-patch, over all its hunks |
| Preprocessor.BatchChunks | src/codepulse/ingestion/preprocessor.py:248-273 | the batching loop packs greedily by chunk count and tokens, estimating chunks without a count |
| Preprocessor.BatchingIsOptimal | src/codepulse/ingestion/preprocessor.py:254-273 | batches concatenate to the chunks, respect both limits or are single, and no other order-preserving batching is shorter |
| Preprocessor.BatchesFitByText | src/codepulse/ingestion/preprocessor.py:254-273 | with the counts preprocessing gives, or none, batches of several chunks keep both limits by the text they send |
| FindingMapper.FindHunk | src/codepulse/aggregation/line_mapping.py:139-143 | the first hunk that holds either end of the finding |
| FindingMapper.PlaceObject | src/codepulse/aggregation/line_mapping.py:126-187 | updates one finding in place as the placement specification says |
| FindingMapper.MapFindings | src/codepulse/aggregation/line_mapping.py:122-189 | places every finding of the list in place, also when an object is listed twice |
| FindingMapper.PlaceTwice | src/codepulse/aggregation/line_mapping.py:153-187 | mapping twice equals mapping once, explanations included |
| FindingMapper.FirstTouchedIsFirst | src/codepulse/aggregation/line_mapping.py:139-143 | the chosen hunk touches the finding and no earlier one does; none is chosen only when none touches it |
| FindingMapper.MappedIsPostable | src/codepulse/aggregation/line_mapping.py:126-187 | a finding is mapped exactly when the first hunk of its own file that it meets has an added line for it; then the comment is on an added line of that hunk, at least distance with a note for context findings, and a span keeps start < line with every line inside the hunk; otherwise, as for a file the diff does not know, it gets no line; nothing else of it changes |
| FindingMapper.AddedLineIsCommented | src/codepulse/aggregation/line_mapping.py:122-189 | in a diff that is read back, a finding for a plain path on a line its patch adds is placed on that very line |
| Models.RatingScales | src/codepulse/aggregation/models.py:19-30 | the two scales are strictly ordered in any letter case, and unknown ratings rank below all |
| Models.HigherSeverity | src/codepulse/aggregation/dedup.py:120-124 | the result ranks no lower than either rating, and ties keep the first |
| Models.HigherConfidence | src/codepulse/aggregation/dedup.py:127-131 | the result ranks no lower than either rating, and ties keep the first |
| FindingOrder.SortIsStableSort | src/codepulse/aggregation/dedup.py:236-243 | ranking by severity, path and line gives a stable sorted permutation |
| FindingOrder.StableSortIsUnique | src/codepulse/aggregation/dedup.py:236-243 | that result is the only one a stable sort can give |
| FindingOrder.SortedMeans | src/codepulse/aggregation/dedup.py:236-243 | sorted means more severe first, then path in lexicographic order, then line |
| Dedup.LookUp | src/codepulse/aggregation/dedup.py:152-168 | the entry an input joins: the one with its own key, else the first that the cross-source rule allows |
| Dedup.MergeInto | src/codepulse/aggregation/dedup.py:188-233 | the update of an entry: who gives the text, what is kept of either side, whose source is named, and that the place stays |
| Dedup.Deduplicate | src/codepulse/aggregation/dedup.py:147-233 | the loop computes the table of merged entries and the merge count |
| Dedup.MergeGroups | src/codepulse/aggregation/dedup.py:151-233 | every input goes to one entry with its file, line and category; entries and merges add up to the inputs; ratings are the maxima of the group; text is that of a most confident member; groups of two or more name another source in the explanation; source is merged exactly for groups of two or more; only the second member may have another title, and then another source and the same family as the first; an entry has another title than its key only when that member won; an entry spans the lines of its first input and is off the diff, and alone it is that input in every field |
| Dedup.UniqueWhenNothingRetitled | src/codepulse/aggregation/dedup.py:151-229 | entries are unique by file, line, category and title when no finding of the list replaces the title of an earlier one |
| Dedup.RetitledEntriesCollide | src/codepulse/aggregation/dedup.py:188-229 | whenever a finding replaces the title of one from another source, listing it once more gives two entries with the same file, line, category and title |
| Dedup.UniqueExactlyWhen | src/codepulse/aggregation/dedup.py:151-229 | for any pool of findings: every list over it gives unique entries if and only if none of them replaces the title of another |
| Dedup.UniqueExactlyForOneSource | src/codepulse/aggregation/dedup.py:159-168 | for two sources: whatever the families and findings, entries are unique if and only if the two are the same source |
| Dedup.DeduplicateAndSort | src/codepulse/aggregation/dedup.py:134-285 | kept followed by dropped is the stable ranking of the merged entries, nothing kept ranks below anything dropped, counts agree, and the rebalancing branch is dead |
| Dedup.CutKeepsTheBest | src/codepulse/aggregation/dedup.py:251-255 | wherever a ranked list is cut, no critical finding is dropped while a lesser one is kept |
| LlmTask.Execute | src/codepulse/worker/tasks.py:736-954 | one execution answers case by case: cache hit, wait that fits or not, breaker refusal, API answer, API failure retried or not, and an exception exactly if Redis fails it; a retry uses up budget |
| LlmTask.AnswerExactlyWhen | src/codepulse/worker/tasks.py:736-954 | those cases, with deadline, rounding and backoff, leave exactly one answer |
| LlmTask.RetryUsesBudget | src/codepulse/worker/tasks.py:772-821 | every retry waits at least a second and lowers the executions left; exactly the API failures use up a failure retry |
| LlmTask.ChainIsBounded | src/codepulse/worker/tasks.py:772-913 | from any carried arguments a chain of executions is no longer than the executions left |
| LlmTask.TaskIsBounded | src/codepulse/worker/tasks.py:772-913 | at most 4 * (floor(timeout) + 1) executions and four API calls, whatever the world does |
| LlmTask.TaskBoundIsTight | src/codepulse/worker/tasks.py:774-821 | some world reaches that number of executions, for every timeout |
| LlmTask.RunToTheEnd | src/codepulse/worker/tasks.py:814-954 | re-invocation ends within the bound; the executions are a chain, each in the world that was there when it was asked to start, and what comes out is what the last of them returned, or an exception exactly if Redis failed it |
| SweepLease.LeasesExclude | src/codepulse/worker/tasks.py:1535-1539 | no two workers are ever inside one run's critical section, and a worker inside one still owns the live lock its delete will remove |
| SweepLease.LeavingFrees | src/codepulse/worker/tasks.py:1825-1826 | a worker that leaves frees the lock, and the next worker gets in at once |
| SweepLease.LockKeepsOut | src/codepulse/worker/tasks.py:1535-1539 | a worker that finds a live lock changes nothing |
| SweepLease.LocksExpire | src/codepulse/worker/tasks.py:1535-1539 | no lock lives longer than its lifetime, whoever was killed holding it |
| SweepLease.SweepsAreSafe | src/codepulse/worker/tasks.py:1831-1869 | exclusion for the configured 180 second limit and 300 second lock |
| SweepLease.ExclusionExactlyWhen | src/codepulse/worker/tasks.py:1503-1539 | exclusion in every run holds if and only if the time limit is below the lock's lifetime |
| RunRecord.AnalysisRun.constructor | src/codepulse/models/tables.py:82-101 | a new run has no results, no review and no flag |
| RunRecord.AnalysisRun.StoreResults | src/codepulse/aggregation/persistence.py:109-158 | replaces all rows, counters and review fields; each row tells its finding's place as far as the columns reach, ratings and text, and is posted exactly when the review was posted with a comment for it |
| RunRecord.AnalysisRun.PersistResults | src/codepulse/worker/tasks.py:1401-1428 | results are stored as above, and a degraded analysis sets the flag |
| RunRecord.AnalysisRun.MatchRows | src/codepulse/worker/tasks.py:1622-1663 | the matching loop rewrites confirmed posted rows and collects what no row covers |
| RunRecord.AnalysisRun.Recount | src/codepulse/worker/tasks.py:1806-1811 | the counters become those of the rows |
| RunRecord.AnalysisRun.ReanalysisPass | src/codepulse/worker/tasks.py:1541-1823 | one locked pass: the attempt count, the cap, the exits, matching, posting, inserting, the commit with the usage row, recounting and the flag |
| RunRecord.AnalysisRun.Repost | src/codepulse/worker/tasks.py:1949-1960 | a successful repost sets the posting time, a non-zero id, and marks every row posted |
| RunRecord.AnalysisRun.RetryPosting | src/codepulse/ingestion/admin.py:149-182 | a follow-up retry marks rows and clears the flag without touching the primary review; a primary retry sets it |
| Reanalysis.PassConservesFindings | src/codepulse/worker/tasks.py:1622-1789 | stored rows are kept and never rated lower, and rewritten only for a posted match of place and family; each finding is merged into such a row, covered by a waiting row, or inserted; new rows tell findings nobody waits for; waiting rows become posted exactly when the follow-up is |
| Reanalysis.FlagSurvivesExactlyWhen | src/codepulse/worker/tasks.py:1806-1823 | after a whole pass under the cap a flagged run stays flagged if and only if the post failed and a row was inserted or was waiting |
| Reanalysis.OtherPasses | src/codepulse/worker/tasks.py:1541-1593 | a moved head, an empty diff and the fourth attempt clear the flag, a pass that raises keeps it, and none of them touches anything else |
| Reanalysis.RerunInsertsNothing | src/codepulse/worker/tasks.py:1658-1663 | after a failed follow-up post, a pass with the same answer inserts no row when every finding fits its columns and is still recognised in a row after the confirmation note |
| Reanalysis.RerunExactlyWhen | src/codepulse/worker/tasks.py:1622-1663 | for every family function and any set of findings: no answer made of them inserts a row twice in any run the sweep takes, if and only if each fits its columns and is still recognised after the note |
| Reanalysis.RerunOfOneAnswer | src/codepulse/worker/tasks.py:1658-1663 | for any one answer whose findings the note does not hide: it inserts nothing twice if and only if all paths and categories fit their columns |
| RecordRuns.EveryRunIsConsistent | src/codepulse/aggregation/persistence.py:141-158 | after any sequence of writers, wherever they die, a review id comes with a posting time, and stored counters are those of the rows unless the last pass that changed rows died before its recount |
| RecordRuns.CutShortAgreesExactlyWhen | src/codepulse/worker/tasks.py:1795-1811 | a pass that dies between the usage commit and the recount leaves the counters right if and only if it inserted no row and moved none to another severity |
| RecordRuns.ReviewIdFollowsReposts | src/codepulse/ingestion/admin.py:148-175 | once set, the review id is that of the last repost until results are stored again; passes and administrator's retries never touch it |
| RecordRuns.ReviewIdIsKeptExactlyWhen | src/codepulse/worker/tasks.py:1949-1960 | a set review id survives further steps without re-persisting, whatever ids their reposts get, if and only if none of them is a repost |
| RecordRuns.StaleRepostReplacesId | src/codepulse/worker/tasks.py:1953-1960 | a sample: two reposts from the same selection replace the first review id |
| RecordRuns.AttemptsAreCapped | src/codepulse/worker/tasks.py:1542-1554 | while the attempts key lives, at most three passes of a run reach the LLM and every pass from the fourth on ends with the flag cleared |
| RecordRuns.ClearedMeansPosted | src/codepulse/worker/tasks.py:1758-1823 | in every run, when a pass with an answer clears the flag, every row that waited is posted, and rows were inserted only if the post succeeded |
| RecordRuns.SweepEnds | src/codepulse/worker/tasks.py:1542-1554 | over any set of runs the sweep makes no more passes than the attempts left of the flagged ones |

## Left out

- HTTP clients, token exchange, JWT signing, Celery and SQLAlchemy internals: calls into libraries; a post, a fetch and an LLM answer are inputs.
- Tree-sitter heuristics, family word lists, category remapping, file filters: parse trees and table lookups; the family is a parameter.
- Summaries, comment bodies, logging, redaction, tracing, metrics, configuration validation, web UI, authentication, webhook filtering.
- Finding.to_dict and from_dict: field-by-field copies.
- Clock skew between workers and the Redis server: one clock is read by all steps.
- Floating-point rounding of stored numbers: the token bucket computes with reals.
- Unicode: digits, white space and letter case are ASCII, and only the newline separates lines.
- White space inside a hunk header that spans a line break when a patch is split: headers are recognised line by line.
- LineMapping.ParseUnifiedDiff: takes the lines as given, so carriage returns, form feeds and the other characters at which Python also breaks lines count as ordinary text; hunks are values; the alias from the parser's current hunk to the last hunk of its file is modelled by rewriting that hunk.
- Preprocessor.PreprocessFile: file filters, language detection and fetching are left to the caller, who passes what they gave.
- Preprocessor.SplitPreservesModifiedLines: speaks of added lines only, because stripping may drop blank context at the end of a part.
- FindingMapper.PlaceObject: the fields of a finding object are one record that the placement rewrites.
- Dedup.Deduplicate: the table is a pair of sequences rewritten at an index, so sharing of entry objects is not modelled.
- LlmTask.Execute: rounding to two decimals rounds halves up.
- RunRecord.AnalysisRun.ReanalysisPass: a pass that dies before the usage commit changes nothing but the attempt count, like one that raises.
- Draining the pending queue: each recovered payload is one persisting step; loss between the pop and the write is not modelled.
- The dead-letter table and the usage log: they are written beside the run record and read only to find a payload.

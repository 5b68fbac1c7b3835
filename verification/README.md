# Verification of the screening and KYB pipeline

A Dafny model of the parts of the backend whose correctness spans several functions or a whole run, and proofs about
them. `dafny verify dfyconfig.toml` checks the project. Each file is one module.

**Run orchestrator** (`RunProtocol`, `RunSafety`, `RunLifecycle`, `RunHistory`, `RunOutcome`, `RunRefinement`). Each
pipeline stage runs in a worker thread inside a private transaction; caller and worker race under one lock, and a
worker that overran lives on beside later stages. The protocol is a transition system: caller, any number of workers
and the clock take steps, `Enabled` and `Apply` say when and how, and a theorem about every schedule covers every
interleaving. A stage may also roll its session back: that ends the orchestrator's transaction, and from then on every
commit of the session is real, at once and outside the lock. Proved on every schedule: the writes of a timed-out stage
reach the store exactly if its stage commits after rolling its session back, a returned stage's transaction is in the
store exactly unless it rolled it back, and the rows are the journal of all writes. Point by point the run refines a
sequential one in which each stage atomically happens or does nothing; a stage that rolled its session back is the one
exception, and the machine names it. Interrupts may strike anywhere from the first stage on; where no handler covers
them (between starting a worker and waiting for it, between the wait and the lock, after "complete" was committed) the
exact consequences are proved: when a finished run shows a pending stage, and when a complete run fails. A returned
stage is recorded complete exactly if the context it publishes reports no outage of its own.

**Individual screening** (`Names`, `Scoring`, `PairScoring`, `Blocking`, `Dispose`, `ScreeningStages`,
`ScreeningRun`). Name keys, the
greedy token matcher, the pair scorer, the inverted index with its cap, two-pass scoring, the decision and the
explanation. `ScreeningStages` relates what each of the three stages writes to what it reads; `ScreeningRun` puts them
on the orchestrator and proves, on every schedule and down to the stored candidates, the guarded auto-CLEAR, the
agreement of stored scores and decision, and the stability of the explanation. The transliterator, the phonetic coder,
the whitespace test, the nickname table and the country table are parameters; every theorem holds for any of them.
Weights and scores are integers in hundredths, so the rounding to six places is exact.

**Monitoring** (`Monitoring`). The snapshot diff and the re-screening against it, compared with a full rebuild.

**Resources** (`RateLimit`, `Cache`, `SamStore`). The token bucket over `real` with its waiting loop, the
insertion-ordered TTL cache, and the SAM snapshot store with validated, transactional ingest. The clock, the jitter and
the failures of fetching, storing and pruning are inputs or arbitrary choices.

**Folds** (`People`, `Freshness`, `Retention`). People de-duplication, the bankruptcy freshness budget with the signal
that relies on it, and the retention job; the date reader and the address parser and printer are parameters. **KYB
tier** (`Tier`). The fraud-signal catalogue, layer scores over `real`, and the tier computed by the engine and again by
the report.

Objects whose methods update fields are classes (`BlockingIndex`, `RunTable`, `Bucket`, `RateLimiter`, `AdapterCache`,
`Store`, `PeopleList`, `Database`), loops are methods with invariants, proved against functions about which the lemmas
speak.

## Findings

- A stage that rolls its session back and then commits writes for real, under no lock, even after it timed out
  (`RunSafety.TimedOutLandsExactly`, `RunOutcome.LateRowsSchedule`). The default stage for public records does that when
  its SAM lookup raises (backend/app/adapters/public_records.py:617 and 669-671), against the stage contract
  (backend/app/pipeline/base.py:17-20).
- A stage that rolls its session back and writes no more is recorded complete with no writes
  (`RunOutcome.CompleteWithoutWritesSchedule`).
- A finished run shows a pending stage exactly if an interrupt tore off a worker that could still commit, between start
  and wait or between wait and lock, and that worker, having read the row before the failure was saved, assigned the
  availability column after (`RunOutcome.PendingExactly`, `RunOutcome.UncoveredInterruptSchedule`).
- A complete run becomes failed exactly if an interrupt strikes after "complete" was committed and before the try block
  is left (`RunOutcome.StatusMovesForward`, `RunOutcome.CompleteThenFailedSchedule`).
- Blocking finds a whole-name match if and only if the subject's name has a token of two characters or more
  (`Blocking.BlockingRecall`, `Blocking.OneLetterNameIsMissed`).
- Entry ids can repeat, since two list parsers fall back on an empty one (backend/app/lists/persons.py:228 and :323).
  Then only the last record of an entry is compared and re-blocked, and a subject can lose its run
  (`Monitoring.RunIsLostExactly`, `Monitoring.DuplicateEntryLosesRun`).
- A clock set back can prune the snapshot just ingested (`SamStore.NewSnapshotKeptExactly`,
  `SamStore.ClockSetBackLosesSnapshot`).
- The evidence writer takes its time stamp before the dockets are looked at, so a run that crosses midnight can cite an
  unconfirmed docket; that is the only way (`Freshness.FreshnessFeedsScoringExactly`, `Freshness.MidnightBreaksIt`).
- The engine's and the report's tier differ exactly for a stored score of 0.0 without an overriding signal; the engine
  never produces one (`Tier.TiersAgreeExactly`, `Tier.StoredZeroDiffers`, `Tier.Score`).
- `fraud_signals_unavailable` cites no evidence although every signal is documented to
  (`Tier.SignalsCiteEvidence`, `Tier.NoEvidenceNoCitation`).
- A submission whose address is the placeholder is taken for anonymized and keeps its personal data. Intake rejects that
  address (backend/app/schemas/submission.py:60), but an operator's correction is stored without a check
  (backend/app/api/workflow.py:181-183); and personal data a correction adds to a submission after its anonymization
  stays for good (`Retention.PiiGoneExactly`, `Retention.PlaceholderKeepsPii`, `Retention.CorrectionAfterwardsStays`).

## Model

| member | source | states |
|---|---|---|
| RunProtocol.StageReportedOutage | backend/app/pipeline/orchestrator.py:60-67 | an outage is reported exactly when some entry that is not the object that was there before carries an outage status |
| RunProtocol.OutageOnlyByReplacement | backend/app/pipeline/orchestrator.py:60-67 | an outage left by an earlier stage is never charged to a stage that does not replace it |
| RunSafety.TimedOutLandsExactly | backend/app/pipeline/orchestrator.py:152-225 | on every schedule a timed-out stage has nothing committed under the lock, and has rows in the store exactly if it committed some while its transaction was no longer active, so only after rolling its session back |
| RunSafety.TimedOutNeverLands | backend/app/pipeline/orchestrator.py:152-225 | once a stage that never rolled its session back raised StageTimeout, none of its writes is in the store at any point |
| RunSafety.ReturnedHasLanded | backend/app/pipeline/orchestrator.py:180-225 | once a result was returned, its transaction is in the store exactly unless the stage rolled its session back, what it committed on its own exactly if it did, all of it stays, nothing is added |
| RunSafety.CommittedWritesAreSerial | backend/app/pipeline/orchestrator.py:136-225 | on every schedule the rows are the journal of all writes; those under the lock are, in launch order, of exactly the workers that committed, none abandoned, each computed from all rows it landed on but some written outside, and from the same run row, or for a torn-off stage the one before the failure was saved |
| RunSafety.SerialWithoutStrays | backend/app/pipeline/orchestrator.py:136-225 | when no stage commits outside its transaction, each committed stage was computed from the very rows it landed on |
| RunSafety.LogIsJournal | backend/app/pipeline/orchestrator.py:180-190 | when every write is under the lock, the stored rows are the log's and each stage had read those of the commits before it |
| RunSafety.InvInduction | backend/app/pipeline/orchestrator.py:152-225 | the protocol invariant (order, one worker that can still commit, exclusion of commit and abandonment, log, isolation, journal) holds after every schedule |
| RunSafety.ExclusionStep | backend/app/pipeline/orchestrator.py:180-221 | no step lets a worker be both abandoned and published |
| RunSafety.CommitKeepsLog | backend/app/pipeline/orchestrator.py:180-190 | a commit is always by the last worker launched, so the log stays in launch order and complete |
| RunRefinement.IsolatedRunIsSequential | backend/app/pipeline/orchestrator.py:136-225 | for stages that never roll their session back and interrupts at covered points, the database is at every point that of a sequential run whose only moves are: start, a stage atomically happens, its status is recorded (complete only if it happened), complete, abort, fail |
| RunRefinement.RunRefinesSequential | backend/app/pipeline/orchestrator.py:317-418 | on every schedule, at every point of it, the database is that of a sequential run in which, besides, a stage may leave its transaction, exactly when its worker rolls its session back; only such a stage withdraws or writes rows of its own, and only an uncovered interrupt lets a torn-off stage commit or a complete run fail |
| RunRefinement.LeftExactly | backend/app/pipeline/orchestrator.py:166-190 | the stages that have left their transaction are those whose worker rolled its session back in the schedule so far |
| RunRefinement.PlainTrail | backend/app/pipeline/orchestrator.py:136-225 | a sequential run without the leaving mode has no stage that left, and makes plain moves only |
| RunRefinement.StepSimulates | backend/app/pipeline/orchestrator.py:317-363 | every step of the concurrent run, if it is of the mode, is one move of the sequential machine in that mode, or none |
| RunOutcome.RunRowOutcome | backend/app/pipeline/orchestrator.py:290-418 | on every schedule the status matches the point the caller is at and every stage recorded complete was returned by a worker never given up; with covered interrupts a finished run has no pending stage |
| RunOutcome.CompleteMeansNoOutage | backend/app/pipeline/orchestrator.py:336-346 | on every schedule a stage recorded complete has a worker whose published context holds no entry in an outage status that is not the very object it was given |
| RunOutcome.StatusFollowsContext | backend/app/pipeline/orchestrator.py:336-363 | on every schedule, once a returned stage's status was recorded at the first attempt, the stage is recorded complete if and only if its published context puts no such entry there |
| RunOutcome.EveryEndingIsHandled | backend/app/pipeline/orchestrator.py:205-225 | after the wait an unsettled stage is given up and recorded unavailable, a failing one is recorded unavailable, a time limit or a fatal error ends the run, and a published context is handed on |
| RunOutcome.BudgetExactly | backend/app/pipeline/orchestrator.py:264-271 | the time given to a stage is the stage budget or what is left of the run, never negative; a stage that always runs is neither cut short nor skipped |
| RunOutcome.PendingExactly | backend/app/pipeline/orchestrator.py:197-221 | on every schedule a finished run shows a pending stage if and only if an uncovered interrupt tore off a worker that could still commit and that worker, having read the row before the failure was saved, assigned the availability column after |
| RunOutcome.StatusMovesForward | backend/app/pipeline/orchestrator.py:304-418 | on every schedule a step moves the status forward if and only if it is not a failure saved over a complete run, and that step can come exactly when an interrupt struck after "complete" was committed |
| RunOutcome.CompleteThenFailedSchedule | backend/app/pipeline/orchestrator.py:365-381 | a concrete schedule for any stage list: complete, interrupted, failed |
| RunOutcome.LateRowsSchedule | backend/app/pipeline/orchestrator.py:166-190 | a concrete schedule: a stage times out, rolls its session back, and its rows land |
| RunOutcome.CompleteWithoutWritesSchedule | backend/app/pipeline/orchestrator.py:180-188 | a concrete schedule: a stage rolls back, returns, and is recorded complete with no writes |
| RunOutcome.UncoveredInterruptSchedule | backend/app/pipeline/orchestrator.py:197-213 | a concrete schedule: interrupted between start and wait, the run is failed and then shows a pending stage again |
| RunLifecycle.WaitsAreBounded | backend/app/pipeline/orchestrator.py:264-271 | with both timeouts set, all waits for stages together last at most the run budget plus one stage budget per always_run stage |
| RunLifecycle.RowInduction | backend/app/pipeline/orchestrator.py:304-418 | status and program point match after every schedule, and until an uncovered interrupt a stage is pending exactly from the current position on |
| RunHistory.HistoryInduction | backend/app/pipeline/orchestrator.py:317-418 | on every schedule, interrupts anywhere: each committed stage had seen the statuses and coverage decided before it, and they are still in the row |
| RunHistory.LandKeeps | backend/app/screening/stages.py:127-135 | a stage that merges its own coverage into the map it read changes nothing decided by earlier stages |
| ScreeningStages.ListCoverage | backend/app/screening/stages.py:86-114 | one entry per required list, as the specification function says |
| ScreeningStages.CoverageMeansFresh | backend/app/screening/stages.py:86-114 | a required list is reported complete exactly when it is present and not older than allowed |
| ScreeningStages.BlockCandidates | backend/app/screening/stages.py:127-156 | one candidate row per record some name of the subject finds, by id, with exactly the keys that found it, in order |
| ScreeningStages.StageRecall | backend/app/screening/stages.py:145-156 | a record matching a keyed name of the subject as a whole gets a candidate row |
| ScreeningStages.CandidatesAreUnique | backend/app/screening/stages.py:149-156 | no two candidate rows for one record |
| ScreeningStages.ScoreStage | backend/app/screening/stages.py:197-260 | the pinned rule and, for each candidate of the run, its two-pass terms and score |
| ScreeningRun.AutoClearIsGuarded | backend/app/screening/dispose.py:41-178 | on every schedule, a stored decision with auto_closed means blocking and scoring complete, some list loaded at all, every required list present and not older than allowed, an entry with band CLEAR and no conflict next to a name for exactly the candidates the run stored, among them every record that matches a keyed name of the subject as a whole |
| ScreeningRun.CompleteBlocking | backend/app/screening/stages.py:127-141 | a blocking stage recorded complete had lists loaded: without any its report is an outage, which the orchestrator records |
| ScreeningRun.ScoresAgree | backend/app/screening/dispose.py:80-115 | on every schedule, each stored score and its terms are those of the decision, whatever orders the two stages read the candidates in |
| ScreeningRun.EntriesAreCandidates | backend/app/screening/dispose.py:149-178 | the decision has an entry for exactly the candidate rows the stage read |
| ScreeningRun.ExplanationNeverDrifts | backend/app/screening/explain.py:223-242 | on every schedule, the bands and the verdict recomputed from a stored decision and the row as it is now equal the stored ones |
| Names.NameKeys | backend/app/screening/names.py:95-99 | the keys of a name are the union of its tokens' keys |
| Names.NoEmptyToken | backend/app/screening/names.py:62-69 | tokens are never empty |
| Names.TokensAreClean | backend/app/screening/names.py:62-69 | a token is a run of lower-case letters and digits and never a particle |
| Names.CamelSplitExactly | backend/app/screening/names.py:58-66 | splitting leaves no lower-case letter right before a capital, adds nothing but spaces, and changes nothing where there was none |
| Names.SkeletonShape | backend/app/screening/names.py:72-79 | a skeleton has no vowel but perhaps its first letter, and none of the letters folded into another |
| Names.PairFolds | backend/app/screening/names.py:73-75 | ks, kh, ph and a doubled letter fold to x, h, f and the single letter |
| Names.Skeleton | backend/app/screening/names.py:72-79 | the skeleton of a token is never empty |
| Scoring.PickPartner | backend/app/screening/scoring.py:98-109 | the inner loop takes the first full match, failing that the first initial |
| Scoring.Compare | backend/app/screening/scoring.py:88-115 | the name term of two token lists, by the greedy pairing |
| Scoring.CompareTermExactly | backend/app/screening/scoring.py:88-115 | each term if and only if: equal lists, the same tokens in another order, a first fit that gives every one of two or more tokens a partner and leaves at most one record token over (initials if one is used), or some partner at all |
| Scoring.GreedyIsFirstFit | backend/app/screening/scoring.py:94-109 | the loop over a shrinking list is a first fit on positions: each token takes the first free full match, failing that the first free initial |
| Scoring.FirstFitUnique | backend/app/screening/scoring.py:94-109 | there is one first fit |
| Scoring.TokMatchMeans | backend/app/screening/scoring.py:78-85 | initials match exactly when one token is the other's first letter, other tokens exactly by given name or a shared key, whatever the order of the two |
| Scoring.GreedyPairsOneToOne | backend/app/screening/scoring.py:94-115 | when every subject token was matched the pairing is one to one with record tokens, and without initials every pair is a full match |
| Scoring.FullMatchSharesKey | backend/app/screening/scoring.py:78-85 | a full token match, nickname or not, shares a blocking key |
| Scoring.WholeNameTermSharesKeys | backend/app/screening/scoring.py:88-115 | an exact, reordered or transliteration-equivalent name shares a key for each subject token of two characters or more |
| Scoring.CompareNames | backend/app/screening/scoring.py:118-133 | the best-ranked term over a record's variants, at the earliest variant that has it |
| PairScoring.DobTerm | backend/app/screening/scoring.py:149-183 | the best agreement any listed date gives; failing all, a full conflict only between full dates |
| PairScoring.OneDateDecides | backend/app/screening/scoring.py:149-183 | what a single listed date, range, year or circa year (two years either way) says of a date of birth |
| PairScoring.BestDateDecides | backend/app/screening/scoring.py:149-183 | the dates speak one by one and the best-ranked answer is the term |
| PairScoring.NationalityTermExactly | backend/app/screening/scoring.py:205-216 | a match if and only if both sides name a country and a listed one is the subject's; a conflict if none is |
| PairScoring.PobTermExactly | backend/app/screening/scoring.py:219-226 | a match if and only if some listed place has every token of the subject's |
| PairScoring.IdTerms | backend/app/screening/scoring.py:190-202 | one matching document outweighs any conflicting pair |
| PairScoring.IdTermsExactly | backend/app/screening/scoring.py:190-202 | a match when some pair of one type has one number; failing that, a conflict when some pair of one type and one stated country has two |
| PairScoring.SeparatorsDoNotCount | backend/app/screening/scoring.py:186-187 | case and punctuation of a document number do not count, every letter and digit does, and normalizing twice changes nothing |
| PairScoring.BestName | backend/app/screening/scoring.py:252-275 | the best name term over the subject's name and aliases and the record's variants |
| PairScoring.NameTermIsBest | backend/app/screening/scoring.py:262-275 | the name term of a pair is one that the name or an alias gets against some variant, and none of them gets a better one |
| PairScoring.ScorePair | backend/app/screening/scoring.py:252-339 | the terms of a pair in order and the sum of their weights |
| PairScoring.OldRulesSeeFullConflicts | backend/app/screening/scoring.py:284-290 | a date-of-birth term is in the result exactly when it is the term of the pair, a partial conflict counting as a full one under a rule that does not know it |
| PairScoring.DefaultWeightsAreOrdered | backend/app/screening/scoring.py:44-70 | by default a better name or date weighs more, disagreement takes away, a document outweighs any name, and exact name, full date and nationality make exactly the match threshold |
| PairScoring.MatchNeedsHardEvidence | backend/app/screening/scoring.py:44-70 | under the default rule no score reaches MATCH without a full date of birth or a document number |
| Blocking.BlockingIndex.Build | backend/app/screening/blocking.py:34-43 | both dictionaries hold exactly the pairs of record id and key |
| Blocking.DictionariesInverse | backend/app/screening/blocking.py:34-43 | the dictionaries are mutual inverses, and hold a pair exactly when some record of that id has the key |
| Blocking.BlockingIndex.CollectHits | backend/app/screening/blocking.py:55-59 | the hits are the ids sharing a key, each with exactly the keys it shares |
| Blocking.BlockingIndex.Candidates | backend/app/screening/blocking.py:45-73 | the result is the naive scan: records hit by every keyed token by id, then the first cap others by shared keys and id, each with exactly the shared keys |
| Blocking.NaiveScanUnique | backend/app/screening/blocking.py:60-73 | the naive scan determines the result: order, cut and keys |
| Blocking.BlockingRecall | backend/app/screening/blocking.py:55-73 | a record the scorer matches by its whole name is a candidate at any cap if and only if the subject's name has a token of two characters or more |
| Blocking.FindsSomething | backend/app/screening/blocking.py:45-73 | with a positive cap something is found exactly when a record shares a key |
| Blocking.CapKeepsTheBest | backend/app/screening/blocking.py:60-73 | a hit left out misses a keyed token, and shares fewer keys than any returned record that misses one, or as many with a later id |
| Blocking.ScanOrder | backend/app/screening/blocking.py:62-73 | records that miss no keyed token come first, by id, then the others by number of shared keys and id |
| Blocking.AtMostCapMissToken | backend/app/screening/blocking.py:68-73 | of the hits that miss a keyed token exactly as many are returned as the cap allows |
| Blocking.BlockSubject | backend/app/screening/stages.py:145-148 | the matched records and keys are exactly those some name of the subject finds |
| Blocking.ScanExists | backend/app/screening/blocking.py:45-73 | the naive scan has a result for every name and cap |
| Blocking.WholeNameIsFound | backend/app/screening/blocking.py:45-73 | a whole-name match of a keyed name is found by a scan at the default cap |
| Blocking.OneLetterNameIsMissed | backend/app/screening/names.py:86-87 | a concrete one-letter name: scored as exact, found at no cap |
| Dispose.ScoreCandidates | backend/app/screening/stages.py:225-260 | both scoring passes, and the maximum as top score |
| Dispose.PenaltyPassKeepsFrequency | backend/app/screening/stages.py:235-248 | the penalty pass leaves the full-name frequency unchanged |
| Dispose.ScoresIgnoreOrder | backend/app/screening/dispose.py:85-105 | a candidate's terms do not depend on the order of the candidates, so stage and decision agree |
| Dispose.Worst | backend/app/screening/dispose.py:60-67 | the most severe of the bands, CLEAR for none |
| Dispose.AutoClosesExactly | backend/app/screening/dispose.py:60-72 | a decision closes without a human exactly when every candidate is below both thresholds without a conflict next to a name match and no source was unavailable |
| Dispose.BandsExactly | backend/app/screening/dispose.py:41-105 | for every entry of a decision: MATCH if and only if its score reaches the match threshold, REVIEW if and only if it is below and reaches the clear threshold or has a conflict next to a name, CLEAR otherwise |
| Dispose.DispositionExactly | backend/app/screening/dispose.py:60-115 | the run is MATCH if and only if some entry's score reaches the match threshold, CLEAR if and only if it closes by itself, REVIEW otherwise |
| Dispose.CommonNameExactly | backend/app/screening/scoring.py:320-336 | an entry has the common-name penalty if and only if it has a name term, nothing corroborates it, and at least as many entries as the rule says match the whole name |
| Dispose.MatchBandHasHardEvidence | backend/app/screening/dispose.py:80-115 | a MATCH band of a decision under the default rule carries a full date of birth or a document number |
| Dispose.BuildExplanation | backend/app/screening/explain.py:223-242 | each reason is the one its score and terms call for, at or above the match threshold for one; the run's reason is the one its bands and gaps call for; a flag is false exactly when the stored band or verdict is not the one of its reason |
| Dispose.DecisionExplainsItself | backend/app/screening/dispose.py:75-115 | a fresh decision is consistent with its own stored terms and the statuses it saw |
| Monitoring.DiffSnapshots | backend/app/lists/delta.py:46-62 | added, changed and removed entries, sorted and complete, and the records added or changed in entry order |
| Monitoring.ReportedExactly | backend/app/lists/delta.py:46-62 | an entry in both snapshots is reported changed if and only if its records differ in anything but the row id; added and removed are the entries in one snapshot only |
| Monitoring.RunTable.LatestRun | backend/app/screening/monitor.py:70-75 | the subject's first run by creation time and id, both descending |
| Monitoring.RunTable.AnyCandidate | backend/app/screening/monitor.py:68-69 | a hit exactly when a changed record shares a key with one of the names |
| Monitoring.RunTable.Rescreen | backend/app/screening/monitor.py:42-87 | one run per subject the delta hits, in order, for this snapshot, linked to the subject's latest run |
| Monitoring.DueExactly | backend/app/screening/monitor.py:55-87 | the subjects due are exactly the hit ones |
| Monitoring.DueCounts | backend/app/screening/monitor.py:55-87 | there is one run for every hit subject |
| Monitoring.MonitoringHitsExactly | backend/app/screening/monitor.py:52-87 | a subject is re-screened exactly when it is active and readable and shares a key with an entry that is new or changed |
| Monitoring.MonitoringExactly | backend/app/lists/delta.py:37-62 | whatever ids repeat: a subject is re-screened exactly when a record that is the last of its entry, and whose entry is new or was last recorded differently, shares a key with a name |
| Monitoring.DeltaExactly | backend/app/lists/delta.py:37-62 | exactly those records reach the delta |
| Monitoring.RunIsLostExactly | backend/app/screening/monitor.py:52-87 | a subject with news loses its run exactly when every such record sharing a key has a later record of its entry |
| Monitoring.MonitoringMatchesSnapshots | backend/app/lists/delta.py:46-62 | with unique entry ids: exactly when some record of the new snapshot absent from, or differing from, the old one shares a key with a name |
| Monitoring.FullIsDeltaPlusUnchanged | backend/app/screening/monitor.py:52-57 | a full rebuild hits the delta's entries plus unchanged entries it had hit before |
| Monitoring.DuplicateEntryLosesRun | backend/app/lists/delta.py:37-43 | a snapshot with two records under an empty entry id: a subject with the name of the first gets no run, whatever other name the second has |
| RateLimit.Bucket.Consume | backend/app/adapters/ratelimit.py:67-79 | one call refills up to the capacity and takes a token exactly when a whole one is there; the level stays within bounds |
| RateLimit.GrantsArePaid | backend/app/adapters/ratelimit.py:67-79 | grants never exceed the level plus what flowed in |
| RateLimit.CallExactly | backend/app/adapters/ratelimit.py:67-79 | a call is refused if and only if what was there and flowed in, or the capacity, is less than one token; a grant takes one, a refusal none |
| RateLimit.BurstIsGranted | backend/app/adapters/ratelimit.py:67-79 | as many calls as there are tokens are all granted, however close together |
| RateLimit.PacedCallsAreGranted | backend/app/adapters/ratelimit.py:67-79 | calls no closer than one token takes to flow in are never refused |
| RateLimit.WindowBound | backend/app/adapters/ratelimit.py:67-79 | in any run of calls at non-decreasing times, the grants inside any window are at most the capacity plus rate times length |
| RateLimit.Bucket.HistoryBound | backend/app/adapters/ratelimit.py:67-79 | the same for all calls one bucket has ever seen, by whichever thread |
| RateLimit.Bucket.OthersConsume | backend/app/adapters/ratelimit.py:126-130 | between two attempts other threads make any calls, which the history keeps |
| RateLimit.RateLimiter.TryOnce | backend/app/adapters/ratelimit.py:126-130 | an attempt is one consume on the source's bucket, as other threads left it |
| RateLimit.RateLimiter.Acquire | backend/app/adapters/ratelimit.py:110-147 | terminates, having slept at most the source's longest wait; refuses only past the deadline; the answer is whether the last attempt took a token |
| RateLimit.RateLimiter.BackOff | backend/app/adapters/ratelimit.py:132-147 | a wait never sleeps past the deadline and always makes progress |
| Cache.AdapterCache.Get | backend/app/adapters/cache.py:83-104 | a hit only while unexpired; an expired entry is deleted |
| Cache.AdapterCache.Set | backend/app/adapters/cache.py:106-126 | overwriting keeps the place, a new key evicts the first of a full cache, and nothing else changes |
| Cache.AdapterCache.Fetch | backend/app/adapters/cache.py:196-210 | the result is live, or unexpired and cached for the same source and key; a live one is cached, on top of whatever run of calls other threads made meanwhile |
| Cache.CacheRefinesModel | backend/app/adapters/cache.py:83-143 | over any run of get, set, invalidate and clear the dictionary refines a map with expiry that evicts the resident that came in first |
| Cache.SizeBounded | backend/app/adapters/cache.py:106-126 | the size never exceeds the maximum |
| Cache.HoldsLastSet | backend/app/adapters/cache.py:83-143 | what the cache holds for a key is the last value set for it, with nothing invalidating or clearing it since |
| Cache.LookupExactly | backend/app/adapters/cache.py:83-104 | a lookup gives a value if and only if it is held for the key and unexpired, and drops only an expired one |
| Cache.StoredIsFound | backend/app/adapters/cache.py:83-126 | after any calls, a value just set is found until its source's time to live has passed and not after |
| Cache.StaysExactly | backend/app/adapters/cache.py:83-143 | a resident stays, as it is, through every call but its own replacement, invalidation or late lookup, a clearing, and a new key in a full cache of which it is the first in |
| SamStore.ParseRows | backend/app/lists/sam.py:188-240 | an extract is rejected exactly when no row is usable or too many are skipped; otherwise it holds the usable rows in order |
| SamStore.Store.LatestSnapshot | backend/app/lists/sam.py:299-313 | the newest snapshot by retrieval, creation and id |
| SamStore.Store.Prune | backend/app/lists/sam.py:316-322 | the newest max(1, keep) snapshots and their rows remain; a failure changes nothing |
| SamStore.PruneExactly | backend/app/lists/sam.py:299-322 | exactly max(1, keep) snapshots remain if there are as many, each newer by retrieval, creation and id than any dropped one, with all of its rows and no others |
| SamStore.Store.InsertRows | backend/app/lists/sam.py:325-332 | the chunks together are the records, and the transaction fails exactly when its failing step is reached |
| SamStore.Store.Ingest | backend/app/lists/sam.py:341-401 | what one ingest does and answers in each case: not fetched, unchanged, collapsed, failed, changed |
| SamStore.IngestKeepsStore | backend/app/lists/sam.py:341-401 | no row without its snapshot, every snapshot holds its record count, only a change changes anything, the new snapshot is the latest and at least half as large, at most max(1, keep) remain |
| SamStore.StoreOverRuns | backend/app/lists/sam.py:299-401 | the same over any run of ingests with arbitrary failures |
| SamStore.LatestNeverHalves | backend/app/lists/sam.py:354-366 | consecutive latest counts never fall below half |
| SamStore.NewSnapshotKeptExactly | backend/app/lists/sam.py:299-322 | the snapshot just stored survives its prune if and only if fewer than max(1, keep) stored ones claim to be newer |
| SamStore.ClockSetBackLosesSnapshot | backend/app/lists/sam.py:316-322 | a concrete ingest into a consistent store by a clock set back: it answers changed, and its snapshot is gone |
| People.CompatibilityIsNotTransitive | backend/app/officer_screening/people.py:92-96 | date compatibility is not transitive |
| People.CompatibleMeans | backend/app/officer_screening/people.py:92-96 | two dates are compatible if and only if one is missing or they agree as far as both go |
| People.KeyMeansTokens | backend/app/officer_screening/people.py:87-89 | two names have one key if and only if they have the same tokens in the same order |
| People.KeyIsNormalForm | backend/app/officer_screening/people.py:87-89 | the key of a key is that key |
| People.PeopleList.Merge | backend/app/officer_screening/people.py:111-135 | the first person with the same key and a compatible date absorbs the incoming one; otherwise it is appended |
| People.CollectPeople | backend/app/officer_screening/people.py:153-183 | the people are the fold of declared then registry people, and completeness is whether the registry answered |
| People.RelationshipsAccumulate | backend/app/officer_screening/people.py:124-126 | relationships are the union of both sides, nothing lost and nothing new in twice |
| People.RelationshipsAreSorted | backend/app/officer_screening/people.py:124-126 | whoever gains a relationship has them in order |
| People.RolesAccumulate | backend/app/officer_screening/people.py:127-129 | roles keep their order, new ones are appended once |
| People.FoldKeepsDistinct | backend/app/officer_screening/people.py:92-135 | after any merges no two people share a key and have compatible dates, missing dates filled in or not |
| People.FoldConservesSources | backend/app/officer_screening/people.py:120-135 | the multiset of sources is conserved |
| People.FoldExtends | backend/app/officer_screening/people.py:120-135 | first-seen names and attributes that are there are kept |
| People.RefoldAddsNobody | backend/app/officer_screening/people.py:111-135 | folding the same inputs again adds no person |
| Tier.LayerScore | backend/app/scoring/engine.py:234-257 | 50 plus 40 for each unit of weight that is not trust, minus 40 for each unit of trust, within 0 and 100 |
| Tier.LayerScoreExactly | backend/app/scoring/engine.py:234-257 | 50 without signals, and one more signal moves the score by 40 times its weight, down for trust and up otherwise, as far as 0 and 100 |
| Tier.FraudSignals | backend/app/scoring/signals.py:1193-1446 | the fraud catalogue, branch by branch |
| Tier.SaysExactly | backend/app/scoring/signals.py:1240-1247 | a flag is raised if and only if some row's text, the normalized one or failing that the raw one, is true, 1 or yes in lower case |
| Tier.NetworksExactly | backend/app/scoring/signals.py:1491-1498 | the networks asked about are what the rows say, trimmed and in capitals, blank ones left out |
| Tier.FraudTrustIsBounded | backend/app/scoring/signals.py:1193-1446 | on no branch do the trust weights add up to more than 1.0 |
| Tier.RiskAtLeastTen | backend/app/scoring/engine.py:207-228 | the fraud layer never scores below 10 |
| Tier.SignalsCiteEvidence | backend/app/scoring/engine.py:104-116 | every fraud signal cites rows of the run exactly unless there is no infrastructure or web evidence and nothing fired |
| Tier.RulesAgree | backend/app/scoring/triage.py:87-185 | on one score the engine's rule on names and the report's rule on signals give one tier |
| Tier.TierMeans | backend/app/scoring/engine.py:269-287 | escalate if and only if a critical signal is there or the score is at least 70; pre-clear if and only if neither a critical signal nor an open bankruptcy is there and the score is at most 30; review otherwise |
| Tier.TiersAgreeExactly | backend/app/scoring/report.py:213-245 | for any stored score the two tiers agree if and only if it is not 0.0 or a critical or floor signal is present |
| Tier.StoredZeroDiffers | backend/app/scoring/report.py:239 | a concrete stored row: pre-clear in the row, review in the report |
| Tier.NoEvidenceNoCitation | backend/app/scoring/signals.py:1416-1428 | without evidence the one fraud signal cites none |
| Tier.Score | backend/app/scoring/engine.py:329-381 | the scores and tier of a result, the overall score their mean and at least 2.5, and the report's tier equal to the persisted one |
| Freshness.UniqueDockets | backend/app/adapters/public_records.py:199-214 | every docket no earlier one repeats, in order |
| Freshness.KeptAreUnique | backend/app/adapters/public_records.py:199-214 | no two kept dockets share court and number |
| Freshness.DroppedIsRepeated | backend/app/adapters/public_records.py:199-214 | what is dropped repeats something kept |
| Freshness.NewestFirstSorts | backend/app/adapters/public_records.py:317 | the newest filings come first and none is lost |
| Freshness.Bankruptcies | backend/app/adapters/public_records.py:311-358 | the scan of the sorted dockets, with at most 3 detail calls and 50 records |
| Freshness.ScanIsSound | backend/app/adapters/public_records.py:311-393 | fresh means confirmed by one of the replies; a strong open record is fresh or was not recent; a record goes unchecked only when the budget is spent |
| Freshness.CheckedDocketExactly | backend/app/adapters/public_records.py:338-393 | a strong open recent docket reached while a check is left is strong, open and fresh if and only if its reply is a detail without an end and with a filing in the last year; out of date, closed and unknown if and only if the reply says so; and it is cited if and only if it is fresh and filed within the window of the evidence day |
| Freshness.UncheckedDocketExactly | backend/app/adapters/public_records.py:338-350 | the same docket reached with the checks spent is kept open, weak and marked not checked |
| Freshness.OtherDocketExactly | backend/app/adapters/public_records.py:311-358 | any other docket whose name matches keeps its strength and status and is neither asked for nor marked |
| Freshness.SameDayCitesOnlyFresh | backend/app/scoring/signals.py:336-349 | when no docket is looked at on a later day than the evidence carries, the open-bankruptcy signal cites only fresh records |
| Freshness.MidnightBreaksIt | backend/app/scoring/signals.py:405-416 | otherwise a docket filed exactly as long ago as the window allows is cited unconfirmed |
| Freshness.FreshnessFeedsScoringExactly | backend/app/adapters/public_records.py:525-527 | the signal cites only fresh records in every case if and only if no docket is looked at on a later day |
| Retention.TruncateIp | backend/app/db/retention.py:121-129 | the result is nothing or a network in prefix notation, so it counts as done |
| Retention.TruncationKeepsNetwork | backend/app/db/retention.py:121-129 | two texts become one if and only if both are unreadable or their addresses share the leading 24 bits, or 48 in version 6 |
| Retention.NetworkGoneExactly | backend/app/db/retention.py:132-171 | past its window a submission not done yet loses user agent, headers and all of its address but the network; otherwise its network data stay |
| Retention.LatestDecision | backend/app/db/retention.py:174-190 | the latest decision over all runs of the submission, nothing if there is none |
| Retention.LatestIsOfSubmission | backend/app/db/retention.py:174-190 | that decision is one of a review of a run of this submission, and no such review has a later one |
| Retention.Database.AnonymizeNetwork | backend/app/db/retention.py:140-171 | every row becomes its step and the count is the number of rows due |
| Retention.Database.AnonymizePii | backend/app/db/retention.py:257-277 | the same for personal data, counted by reviewed and never reviewed |
| Retention.Database.AnonymizeAssociation | backend/app/db/retention.py:199-243 | the same for evidence of the listed submissions |
| Retention.Database.RunRetention | backend/app/db/retention.py:246-317 | the tables after one pass, its counts, and an audit event exactly when some row changed |
| Retention.CountsSeeEveryChange | backend/app/db/retention.py:293-317 | all counts are zero exactly when no row changes |
| Retention.RetentionIsIdempotent | backend/app/db/retention.py:246-299 | a second pass with the same or earlier cut-offs changes nothing and counts nothing |
| Retention.PassTouchesOnly | backend/app/db/retention.py:132-171 | company name, domain, country, id and time never change, personal data only past the review or submission window, network data only past theirs |
| Retention.PiiGoneExactly | backend/app/db/retention.py:193-196 | past its window a submission has no personal data left, exactly unless its address already was the placeholder and there were some |
| Retention.PlaceholderKeepsPii | backend/app/db/retention.py:264-266 | a concrete submission with the placeholder address keeps its tax id past any window |
| Retention.CorrectionAfterwardsStays | backend/app/api/workflow.py:181-183 | whatever personal data a correction adds to an anonymized submission survives any sequence of later passes |
| Retention.NamesAreSwept | backend/app/db/retention.py:199-243 | no such evidence of an anonymized submission names people, whenever it was written; the rest of the payload and other evidence stay |
| Retention.AlreadyAnonymizedStayListed | backend/app/db/retention.py:278-290 | submissions anonymized by an earlier pass are swept too |

## Left out

- HTTP, WHOIS, DNS, queues, routes, ORM mapping, encryption, parsing of CSV, XML and ZIP: I/O and library wrappers; the models start from parsed records.
- The orchestrator without a stage timeout, and its nested-transaction branch: all-or-nothing writes hold only in isolated mode on an owned connection. Commit is atomic and rollback does not raise.
- RunProtocol.Enabled: an interrupt between the commit of "running" and the try block (backend/app/pipeline/orchestrator.py:307-316) is no step; it would leave the run running with every stage pending, for no handler sees it.
- RunProtocol.StageReportedOutage: context values are immutable here; the source hands each worker a shallow copy, so one given up could still change a nested value that later stages see.
- The orchestrator's failure callback (the partial report) and the failure reason text.
- RunProtocol.WorkerActs: a stage that has rolled its session back commits rows only; the one stage that assigns the availability column never rolls back. A pending session closed out by the orchestrator counts as the stage's last commit.
- ScreeningRun.AutoClearIsGuarded: the subject record and the lists do not change during a run, and the three stages are taken as they are, none of which rolls its session back; stages put in their place could.
- ScreeningRun.ExplanationNeverDrifts: compares the statuses without the dispose stage's own entry, as the explanation does.
- Scoring.Compare: the greedy pairing is not a maximum matching and depends on the token order, so nothing is claimed about names it misses.
- Blocking.BlockingRecall: covers exact, reordered and transliteration-equivalent names; initials on the record's side have no keys, so such records are at best capped partial matches. The subject's name in its original script is blocked on but not scored, as in the code.
- PairScoring.IdTerms: two documents of one type whose numbers normalize to nothing match, as in the code.
- PairScoring.ScorePair: the value fields and evidence locators attached to a term are not modelled; parsing of date strings is not either.
- Dispose.BuildExplanation: labels, citations, claims and the formatting of reasons.
- The module-level index cache of the blocking stage: every scan here runs on an index built from the records it is compared with.
- Monitoring.RunTable.Rescreen: audit events and the enqueueing after commit.
- RateLimit.RateLimiter.Acquire: for a longest wait of hours the source's power of two would overflow a float; exact integers here.
- Cache.AdapterCache.Set: a maximum of zero or less raises on the first insertion; the class answers false there. The lock and logging are left out.
- SamStore.Store.Ingest: the content of a row, downloading and hashing are inputs; the lookup of the latest snapshot, outside the handlers, is taken to succeed.
- People.PeopleList.Merge: people are values here; that the source's list shares dictionaries with its inputs is not captured.
- Tier.Score: the other three catalogues are arbitrary lists of signals; floating-point rounding, the confidence and the reason text are not modelled.
- Freshness.Bankruptcies: court, chapter and links are carried along inside the docket; civil cases and SAM exclusions are left out.
- Retention.Database.RunRetention: the commit at the end is taken to succeed.
- Layer scores in the explainability payload: the fallback of 50.0 rewrites a stored 0.0 there, so agreement is stated for the tier only.
- Monotonicity of KYB scores in trust signals: the special score of 60 without registry evidence breaks it.
- The rest of the signal catalogue, geocoding, entity resolution and consistency heuristics: many branches, each settled by reading it.
- One subject per person in officer screening: the list of known subjects is not refreshed after a merge of personal data.

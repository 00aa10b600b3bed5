# Verified models of the agent's analysis and throttling cores

A Dafny model of the parts of the Tamandua endpoint agent that keep state and decide over time,
with proofs about whole runs. Clock readings are parameters, floating-point numbers are exact
reals, and the unspecified iteration order of hash maps is an arbitrary choice, so every result
holds for all orders.

| file | models |
|---|---|
| `ProcessAncestry`, `ChainPatterns`, `ChainCorrelator`, `ChainRuns`, `ChainAnalyzer` | correlation of behavioral events into attack chains |
| `CommandLineSimilarity`, `CommandLineNormalization`, `ProcessCache` | command-line comparison and its bounded process cache |
| `EventTriage`, `TriageEngine` | deduplication, sampling and statistics of outgoing events |
| `SequenceCorrelation`, `AlertRateLimiter`, `AlertAggregation` | correlation rules, the alert limiter and alert aggregation |
| `ResourceGovernor` | pressure levels with hysteresis |
| `RollingStats`, `RiskScore` | rolling statistics and decaying risk scores |
| `KernelRateLimit`, `KernelHooks` | rate limiting and process hooks of the kernel programs |
| `Sha256Padding`, `WordBits`, `CompressionRounds`, `Sha256`, `Sha256Constants` | the build script's SHA-256 (FIPS 180-4) |
| `Collections`, `Subsequences`, `Counting`, `IntegerFacts`, `RealFacts`, `Options`, `Utf8` | shared definitions and arithmetic facts |

Where an operation changes an object, the model has a step function or step relation on plain
values, theorems about all runs of it, and a class that carries its history as a ghost field and is
proved to be, after every method, in the state the model reaches on that history.

Some results say more, or something other, than the code's comments suggest:

- The family of a process depends on the map's iteration order, except exactly when every child of a
  near process is near itself (near: the process, an ancestor, or a child of one).
- The constant for the maximum number of events in a chain is not enforced; chains of every length occur.
- A new chain needs a silence of a whole window since the previous event of any process, so chain
  creations are at least a window apart. Every number of live chains up to the limit still occurs.
- A chain's first pattern match can lower its verdict: with the built-in patterns, from high to medium.
- A key is deduplicated exactly by its own windows on every run that never refuses that key, whatever
  happens to other keys, and on no other run (unless the window is zero).
- The correlation pass is sound for every session. It is complete for every rule exactly when being
  within the permitted gap is transitive among the session's clock readings.
- Call sites of the kernel limiter with limits up to `L` let at most `2 L - 1` events of a process
  through in a second, whatever larger limits others use on the same entry, and that bound is reached:
  199 for exec events.
- The process cache is bounded exactly when its configured size is at least ten.
- Processing an alert never depends on other fingerprints. Flushing does: an expired window is
  reported or lost depending on whether an unrelated alert arrived after it expired.
- Triage documents a noise class that is dropped; the classification never assigns it.
- Adding a risk factor cancels the decay owed since the last update. A decay charges what is owed
  exactly when the wall clock has not gone back or there is nothing to charge; otherwise the elapsed
  time wraps around, which at any plausible rate erases the score.
- SHA-256 padding stays injective even where the 64-bit length wraps.

`dafny verify dfyconfig.toml` checks everything.

## Model

| member | source | states |
|---|---|---|
| ProcessAncestry.AncestorsExact | src/analyzers/behavioral_chains.rs:530-545 | On every parent map, cyclic or not, the upward walk finds the process itself and exactly the processes reached from it by nonzero parent links. |
| ProcessAncestry.RelatedForEveryOrder | src/analyzers/behavioral_chains.rs:530-555 | For every iteration order of the map the result holds all ancestors and all direct children of each, and nothing that does not descend from an ancestor. |
| ProcessAncestry.OrderIndependentIff | src/analyzers/behavioral_chains.rs:530-555 | The result is the same for every iteration order exactly when every process whose parent is an ancestor, or a child of one, is itself an ancestor or a child of one. |
| ProcessAncestry.ClosedFamilyExact | src/analyzers/behavioral_chains.rs:530-555 | In that case every order finds exactly the ancestors and their children. |
| ProcessAncestry.OrderMatters | src/analyzers/behavioral_chains.rs:547-552 | The smallest family that is not closed: on a three-process map one order finds the grandchild and another does not. |
| ProcessAncestry.GetRelatedProcesses | src/analyzers/behavioral_chains.rs:530-555 | The walk as performed, with the iteration order left open, terminates and meets the bounds above. |
| ChainPatterns.GreedySound | src/analyzers/behavioral_chains.rs:600-609 | The stages that the single pass counts occur, in order, among the events. |
| ChainPatterns.GreedyOptimal | src/analyzers/behavioral_chains.rs:600-609 | No longer prefix of the pattern occurs in order among the events: taking the earliest match loses nothing. |
| ChainPatterns.MatchPattern | src/analyzers/behavioral_chains.rs:590-620 | A pattern scores exactly when there are enough events and some prefix of at least three fifths of it occurs in order; an empty pattern never scores. |
| ChainPatterns.MatchConfidenceShare | src/analyzers/behavioral_chains.rs:611-617 | A score times the number of stages is the base confidence times the number of stages consumed. |
| ChainPatterns.BestMatchIsMaximum | src/analyzers/behavioral_chains.rs:563-571 | The match kept by the loop over the patterns is the first listed pattern with the highest score; there is none exactly when no pattern scores. |
| ChainPatterns.ScoreMonotone | src/analyzers/behavioral_chains.rs:590-620 | One more event never removes or lowers a pattern's score. |
| ChainPatterns.BestMonotone | src/analyzers/behavioral_chains.rs:558-576 | Events that match some pattern keep matching one, with no less confidence, when an event is appended. |
| ChainPatterns.LoadAttackPatterns | src/analyzers/behavioral_chains.rs:274-412 | The built-in patterns have the nonnegative base confidence that the monotonicity results need. |
| ChainCorrelator.DistinctMeaning | src/analyzers/behavioral_chains.rs:464-473 | The technique and tactic lists hold each element of their source once and nothing else. |
| ChainCorrelator.FallbackShares | src/analyzers/behavioral_chains.rs:577-584 | Without a match, each of up to five tactics counts 0.1, each of up to ten events 0.03 and each of up to five processes 0.04, and the sum is cut off at 0.7. |
| ChainCorrelator.JoinDescribes | src/analyzers/behavioral_chains.rs:458-476 | Joining an event keeps every field of the chain, the verdict included, a function of the events in it: the earlier match that the code leaves standing is never left standing wrongly. |
| ChainCorrelator.ChainsRecordTheirEvents | src/analyzers/behavioral_chains.rs:443-528 | After every run and for all iteration orders, each live chain holds exactly the events that went to it, with exactly their processes, techniques and tactics, their first and last time, and the verdict on them. |
| ChainCorrelator.LiveChainsBounded | src/analyzers/behavioral_chains.rs:482-527 | After every run in time order with a positive window: at most 1000 chains are live, none has been silent for two windows, any two were created at least a window apart, and the chain touched last is live. |
| ChainCorrelator.EveryEventHasOneChain | src/analyzers/behavioral_chains.rs:450-527 | Each event goes to exactly one chain, which survives expiry and the limit; no other live chain changes. |
| ChainCorrelator.JoinHasReason | src/analyzers/behavioral_chains.rs:450-458 | An event joins only a chain that was active within the window, or one that holds kin of its process by the parents last recorded. |
| ChainCorrelator.TouchedSurvives | src/analyzers/behavioral_chains.rs:511-527 | Expiry and the eviction of the oldest chain never remove the chain just touched. |
| ChainCorrelator.LiveAfterEvent | src/analyzers/behavioral_chains.rs:511-527 | After every event the live chains are exactly those heard of within two windows; only beyond 1000 some of these go, as many as it takes, and none before an older one. |
| ChainCorrelator.AncestryIsRecorded | src/analyzers/behavioral_chains.rs:418-422 | After every run the analyzer knows a parent of a process exactly when some event named one, and it is the one named last. |
| ChainCorrelator.CreationNeedsQuietWindow | src/analyzers/behavioral_chains.rs:452-509 | A chain is created only by an event that comes at least a window after the event before it. |
| ChainCorrelator.QuietStrangerStartsChain | src/analyzers/behavioral_chains.rs:452-509 | Conversely, an event that comes a whole window after the one before it starts a chain when no live chain holds kin of its process, by the parents that the events last recorded. |
| ChainRuns.ChainsOfEveryLength | src/analyzers/behavioral_chains.rs:458-462 | The constant named as the maximum of events per chain is not enforced: for every window, zero included, live chains of every length occur. |
| ChainRuns.EveryNumberOfChains | src/analyzers/behavioral_chains.rs:482-527 | The limit on live chains is reached, and so is every number below it, although creations are a window apart and silent chains expire after two. |
| ChainCorrelator.KinNeverFork | src/analyzers/behavioral_chains.rs:447-458 | On every run no chain is created while a live chain holds the event's process, one of its ancestors, or a child of one, by the parents that the events last recorded. |
| ChainCorrelator.BufferInvariant | src/analyzers/behavioral_chains.rs:424-435 | The event buffer always is the stretch of the history that is not older than the window. |
| ChainCorrelator.VerdictsOnlyRise | src/analyzers/behavioral_chains.rs:557-588 | Between any two moments of a run, a chain that had a matched pattern still has one, and its confidence and severity have not fallen. |
| ChainCorrelator.ConfidenceFallsIff | src/analyzers/behavioral_chains.rs:573-584 | A join lowers a chain's confidence exactly when it brings the chain's first match and the best pattern scores less than the chain did without one. |
| ChainCorrelator.SeverityFallsIff | src/analyzers/behavioral_chains.rs:573-588 | A join lowers the severity exactly when it brings the first match and both the best score and the number of distinct tactics are below what the old severity needs. |
| ChainRuns.FirstMatchLowersVerdict | src/analyzers/behavioral_chains.rs:557-588 | With the built-in patterns, for every window, a run takes a chain from 0.7 and high severity to 0.5 and medium severity by its first match. |
| ChainCorrelator.ConfidenceInRange | src/analyzers/behavioral_chains.rs:573-584 | On every run the confidence of every live chain lies in [0, 1]. |
| ChainAnalyzer.AnalyzeChain | src/analyzers/behavioral_chains.rs:557-588 | The loop over the patterns computes the specified verdict. |
| ChainAnalyzer.LimitChains | src/analyzers/behavioral_chains.rs:515-527 | Removing an oldest chain until the limit is met leaves the limit's number of chains, none older than a removed one. |
| ChainAnalyzer.Analyzer.AddEvent | src/analyzers/behavioral_chains.rs:414-528 | Every call takes a step of the model. After it the ancestry holds the parents last recorded, each live chain records its own events, and on ordered runs the limits on number, age and spacing hold. |
| CommandLineSimilarity.LcsAttained | src/analyzers/cmdline_spoofing.rs:772-796 | Some common subsequence is as long as the textbook recursion says. |
| CommandLineSimilarity.LcsMaximal | src/analyzers/cmdline_spoofing.rs:772-796 | No common subsequence is longer. |
| CommandLineSimilarity.LongestCommonSubsequenceLength | src/analyzers/cmdline_spoofing.rs:772-796 | The two-row program with swapped buffers returns the length of a longest common subsequence. |
| CommandLineSimilarity.SimilarityLaws | src/analyzers/cmdline_spoofing.rs:756-770 | Similarity is symmetric, lies in [0, 1], is 1 exactly on equal strings, although the divisor is a byte length, and is 0 exactly when different strings share nothing. |
| CommandLineSimilarity.CalculateSimilarity | src/analyzers/cmdline_spoofing.rs:756-770 | The ratio as computed obeys those laws; for different nonempty strings, the ratio times the longer UTF-8 encoding is the length of a longest common subsequence. |
| Utf8.ByteLengthIsEncoded | src/analyzers/cmdline_spoofing.rs:766-769 | The byte length used as divisor is the length of the UTF-8 encoding. |
| Utf8.DecodeUndoesEncode | src/analyzers/cmdline_spoofing.rs:766-769 | That encoding can be read back, and its first byte announces its length (section 3 of RFC 3629). |
| CommandLineNormalization.SplitJoin | src/analyzers/cmdline_spoofing.rs:748-753 | Splitting on white space undoes joining with blanks. |
| CommandLineNormalization.SplitKeepsCharacters | src/analyzers/cmdline_spoofing.rs:748-753 | The words hold exactly the characters of the text that are no white space, in order. |
| CommandLineNormalization.SpacesListed | src/analyzers/cmdline_spoofing.rs:750 | White space is the 25 characters of the Unicode White_Space property. |
| CommandLineNormalization.NormalizeIdempotent | src/analyzers/cmdline_spoofing.rs:747-754 | Normalizing twice is normalizing once, for every lower-casing that treats a blank as a separator, maps words to words and leaves lower-cased words alone; letters may depend on their neighbours, as a final sigma does. |
| CommandLineNormalization.NormalizeEqualIff | src/analyzers/cmdline_spoofing.rs:747-754 | Two command lines normalize alike exactly when they have the same words up to case, for every such lower-casing. |
| CommandLineNormalization.TableLowersWords | src/analyzers/cmdline_spoofing.rs:753 | Lower-casing by a table of characters is one of those. |
| ProcessCache.BoundedIffAtLeastTen | src/analyzers/cmdline_spoofing.rs:398-421 | The configured size bounds the cache on every run of recordings, removals and collections exactly when it is at least ten; below that the evicted tenth is empty. |
| ProcessCache.RunKeepsBound | src/analyzers/cmdline_spoofing.rs:398-421 | With a size of at least ten the cache never exceeds it. |
| ProcessCache.EvictionFreesTenth | src/analyzers/cmdline_spoofing.rs:398-401 | Every eviction meets a cache that is exactly full and removes exactly a tenth of the maximum, rounded down. |
| ProcessCache.EvictOldestEntries | src/analyzers/cmdline_spoofing.rs:875-887 | Collecting, sorting by creation time and removing evicts the requested number, and no survivor was created before an evicted entry. |
| ProcessCache.Detector.RecordCreation | src/analyzers/cmdline_spoofing.rs:371-425 | Recording puts in the entry and changes no other. Only from a full cache entries go, oldest first, also for a pid already cached. Excluded processes are skipped, and the bound holds. |
| ProcessCache.Detector.RemoveProcess | src/analyzers/cmdline_spoofing.rs:889-893 | Removal takes out one pid and leaves every other entry as it was. |
| ProcessCache.Detector.GcDeadProcesses | src/analyzers/cmdline_spoofing.rs:905-932 | Collection keeps exactly the entries that are live and not past their time to live, unchanged. |
| EventTriage.TableAgrees | src/event_triage.rs:289-335 | For a key that is never refused, the dedup table agrees with that key's arrivals alone, whatever happens to other keys and whenever flushes ran: present with start and size of the latest window, or absent and that window expired. |
| EventTriage.DuplicateIffWindowOpen | src/event_triage.rs:294-306 | An event of a key that was never refused is counted a duplicate exactly when the latest window of the key is younger than the dedup window. |
| EventTriage.AnnotationIsWindowSize | src/event_triage.rs:307-314 | An event that opens a window passes with the number of arrivals in its key's previous window exactly when that window had repeats and is still in the table, and otherwise as it came. |
| EventTriage.DecimalReadsBack | src/event_triage.rs:311-313 | The annotation reads back as the number, without leading zeros. |
| EventTriage.RefusalForgets | src/event_triage.rs:322-335 | Once a full table refuses a key, an immediate repeat of it is let through although its window is open. |
| EventTriage.ExactIffNeverRefused | src/event_triage.rs:289-335 | On every ordered run: at each moment every possible next arrival of a key is judged by its open window, exactly when no arrival of that key was ever refused (or the window is zero). |
| EventTriage.TableBounded | src/event_triage.rs:322-335 | On every run the table has at most the configured number of entries, all of them for keys that arrived. |
| EventTriage.FewKeysNeverRefused | src/event_triage.rs:322-335 | No key is refused while the run has no more distinct keys than the table has places. |
| EventTriage.FlushKeepsWindows | src/event_triage.rs:380-394 | On every ordered run a flush is invisible to later arrivals: each falls into an open window with it exactly when it does without. |
| EventTriage.LastSeenIsLastArrival | src/event_triage.rs:297-320 | On every run an entry's last-seen time, by which flushes go, is the time of its key's latest arrival. |
| EventTriage.CountsBalance | src/event_triage.rs:259-266 | Across all batches, flushes and resets, received equals passed plus deduplicated plus sampled out plus noise, and nothing is ever classified as noise. |
| EventTriage.CountersCountOutcomes | src/event_triage.rs:259-266 | Since the start or the last reset, each counter is the number of arrivals with its own outcome. |
| EventTriage.PriorityByFields | src/event_triage.rs:90-152 | By the fields of an event: it is always sent exactly when it has a detection, high or critical severity or one of 26 types; of the rest, the two low types are low and all others medium; none is noise. |
| EventTriage.OutputIsSubsequence | src/event_triage.rs:251-287 | The output keeps the order and contents of the input apart from one annotation. The events with a detection, high or critical severity or an always-sent type all come out, unchanged and in order. |
| EventTriage.SamplingKeepsMultiples | src/event_triage.rs:337-365 | From any state and over any operations (arrivals of all priorities, duplicates, flushes, resets) in which all sampled arrivals have one rate, the number kept of them is the number of multiples of the rate that the counter passes: one in `rate`, give or take one. |
| EventTriage.CounterCountsSampled | src/event_triage.rs:337-365 | Whatever the rates, the sampling counter advances by exactly the number of sampled arrivals. |
| EventTriage.SampledOutIff | src/event_triage.rs:337-378 | Which arrivals sampling drops: of the low types all but one in the configured rate, times 1, 2, 4, 8 or 16 by pressure; of the others none below moderate pressure, then all but one in 3, 5 or 10. |
| EventTriage.RunSound | src/event_triage.rs:251-394 | After every history: the table is within its limit, the counters balance, and on ordered histories each key that was never refused has its own windows. |
| TriageEngine.Engine.FilterBatch | src/event_triage.rs:251-272 | After any number of batches the engine is in the state of its whole history, with bounded table, counters by outcome and exact windows; the output keeps the order and contents of the input; every event with a detection, high or critical severity or an always-sent type comes out unchanged; a disabled engine passes everything and changes nothing. |
| TriageEngine.Engine.ProcessEvent | src/event_triage.rs:274-368 | One event gets the specified verdict and changes table, counters and sampling counter accordingly; the verdict is characterised by the event's fields, its open window and the sampling counter. |
| TriageEngine.Engine.ReceiveEvent | src/event_triage.rs:259-266 | In the batch loop an event that must be sent by its fields passes unchanged, and the history and output grow by it. |
| TriageEngine.Engine.Deduplicate | src/event_triage.rs:289-335 | The dedup stage merges into an open window or opens one if there is room. |
| TriageEngine.Engine.MaybeFlushDedup | src/event_triage.rs:380-394 | A flush closes and reopens no window for any later arrival. When it is due it keeps exactly the entries seen within the window; otherwise it changes nothing. Table, counters and windows stay sound. |
| TriageEngine.Engine.ResetCounters | src/event_triage.rs:425-429 | A reset changes the outcome of no later arrival, and the counters stay balanced against everything received since. |
| SequenceCorrelation.CheckSound | src/analyzers/alerting.rs:945-1016 | For every rule and session, a returned chain is witnessed by increasing session positions that satisfy the stages in order, each at most the permitted whole seconds after the one before. |
| SequenceCorrelation.SecondsRoundDown | src/analyzers/alerting.rs:965-966 | The pause is measured in whole seconds, rounded down. |
| SequenceCorrelation.CompleteIffTransitive | src/analyzers/alerting.rs:957-990 | The pass finds a match for every rule that has one exactly when being within the gap is transitive among the session's clock readings; otherwise some two-stage rule is missed, because a later first stage is never retried. |
| SequenceCorrelation.CheckComplete | src/analyzers/alerting.rs:957-990 | Where closeness is transitive, a rule with a match is reported. |
| SequenceCorrelation.ShortSessionExact | src/analyzers/alerting.rs:945-1016 | On a session no longer than one gap a chain is returned exactly when a match exists. |
| SequenceCorrelation.CheckCorrelationRule | src/analyzers/alerting.rs:945-1016 | The loop reports the stages of the positions it matched, with the events and alerts found there. |
| SequenceCorrelation.Session.UpdateSession | src/analyzers/alerting.rs:896-943 | A session holds the latest thousand events of its key, in time order when the clock does not go back. |
| AlertRateLimiter.AtMostLimitPerMinute | src/analyzers/alerting.rs:1813-1840 | In any closed minute of any run with a monotone clock at most the configured number of alerts is admitted. |
| AlertRateLimiter.AdmitsWhatFits | src/analyzers/alerting.rs:1827-1839 | With the alerts already admitted in the minute that ends with a batch, what is taken never exceeds the limit, and if the batch is cut the limit is reached exactly. |
| AlertRateLimiter.LimiterIsRecentHistory | src/analyzers/alerting.rs:1818-1837 | The deque always is the part of the admission history within a minute of the latest batch. |
| AlertRateLimiter.RateLimiter.ApplyRateLimit | src/analyzers/alerting.rs:1813-1840 | What is kept is a prefix of the batch and enters the history. On ordered runs it stays within the limit for the minute that ends with the batch, and reaches it whenever an alert is refused. |
| AlertAggregation.RunAgrees | src/analyzers/alerting.rs:1200-1238 | What is kept and emitted for a fingerprint depends on its own arrivals only; arrivals of others, and the cleanups they trigger, change nothing. |
| AlertAggregation.EmittedPerFingerprint | src/analyzers/alerting.rs:1200-1238 | Of n alerts with one fingerprint within one window duration, interleaved with any others, 2 (n / c) come out, plus one if n mod c is nonzero, where c is one more than the suppression limit (a limit of zero acting as one). |
| AlertAggregation.AggregatesReportFullWindows | src/analyzers/alerting.rs:1213-1219 | On every run an emitted alert is the one that arrived or carries the number of alerts in a full window. While the clock does not go back, an arrival comes out exactly when it opens a window, and the alert that fills a window brings out the window's first alert with the window's size; nothing else comes out. |
| AlertAggregation.FlushReportsIff | src/analyzers/alerting.rs:1240-1260 | A flush reports a fingerprint exactly when its window has enough alerts and was still open when the latest alert of any fingerprint arrived. |
| AlertAggregation.FlushReportsMembers | src/analyzers/alerting.rs:1240-1260 | The report for a fingerprint is the first alert of its window with the number of the window's members. |
| AlertAggregation.FlushSeesOthers | src/analyzers/alerting.rs:1240-1260 | So a flush, unlike processing, depends on unrelated alerts: a late one hides a window that was never reported. |
| AlertAggregation.Aggregator.ProcessAlert | src/analyzers/alerting.rs:1200-1238 | The windows always are those of all alerts since the last flush, and what comes out is the arrival, the report of the window it fills, or nothing, by the members of its fingerprint's window. |
| AlertAggregation.Aggregator.Flush | src/analyzers/alerting.rs:1240-1254 | A flush reports each window with enough alerts once, by its first alert and its number of members, and clears all windows. |
| ResourceGovernor.PublishedIsLevel | src/resource_governor.rs:314-333 | After every run the published pressure reads back as the current level, the two counters are never both nonzero, and each stays below what a change needs. |
| ResourceGovernor.LevelMovesIff | src/resource_governor.rs:314-333 | The level moves up (down) at a sample exactly when that sample ends a stretch of the configured number of samples above (below) an unchanged level, and it moves to that sample's target. |
| ResourceGovernor.ConstantTargetReached | src/resource_governor.rs:314-333 | After any history, as many samples with one target as the larger setting demands end at that target. |
| ResourceGovernor.ChangesAreSpaced | src/resource_governor.rs:314-333 | Every change of level uses up as many samples as the smaller setting demands: the level cannot flap. |
| ResourceGovernor.TargetMonotone | src/resource_governor.rs:282-312 | More load, memory or disk use never lowers the target. |
| ResourceGovernor.TargetAtLeast | src/resource_governor.rs:282-312 | For each level, the target is at least that level exactly when the load, the memory or the share of the disk quota reaches one of the thresholds named for it or for a higher one. |
| ResourceGovernor.LevelsDouble | src/resource_governor.rs:36-69 | The levels read back from their numbers, and each doubles the multiplier of the one before. |
| ResourceGovernor.Governor.Sample | src/resource_governor.rs:264-333 | A sample averages the last eight loads, takes the worst of three targets and applies the hysteresis of the model. |
| ResourceGovernor.Governor.SetLevel | src/resource_governor.rs:362-366 | Level and shared cell change together. |
| ResourceGovernor.Governor.PressureLevelNow | src/resource_governor.rs:165-168 | A collector reads the level the model is at. |
| RollingStats.VarianceIsMeanSquaredDeviation | src/analyzers/behavioral.rs:144-151 | The one-pass variance is the mean squared deviation from the mean, hence never negative. |
| RollingStats.Rolling.Add | src/analyzers/behavioral.rs:121-135 | The buffers hold exactly the latest samples that fit (at least one) and the running sums are the recomputed sums. |
| RollingStats.Rolling.Variance | src/analyzers/behavioral.rs:144-151 | The value returned is the mean squared deviation of the latest samples. |
| RollingStats.Rolling.GetMean | src/analyzers/behavioral.rs:137-142 | The value returned is the mean of the latest samples. |
| RiskScore.ScheduleDoesNotMatter | src/analyzers/behavioral.rs:528-545 | Any schedule of ordered decay ticks leaves the score that its last tick alone would leave, and the same factors exactly when none of those falls before another tick's cutoff; from the clock's second day on that is always so. |
| RiskScore.FirstDayDropsFactor | src/analyzers/behavioral.rs:540-543 | Such a factor exists: a tick two seconds after the clock's origin drops one that a single decay a day later keeps. |
| RiskScore.ScoreInRange | src/analyzers/behavioral.rs:510-545 | On every run with nonnegative factors and rates, whatever the clock does, the score stays in [0, 100]. |
| RiskScore.AdditionsAddUp | src/analyzers/behavioral.rs:511-526 | Without decay the score is the sum of what was added, cut off at 100. |
| RiskScore.HourCostsRate | src/analyzers/behavioral.rs:534-542 | An hour takes off the hourly rate, and factors are kept for 24 of them. |
| RiskScore.FactorsAreRecentAdditions | src/analyzers/behavioral.rs:510-545 | On every ordered run from the clock's second day on, the factors held are exactly the additions later than a day before the latest decay, in order. |
| RiskScore.RecentExact | src/analyzers/behavioral.rs:541-543 | Retention keeps exactly the factors later than the cutoff, in order. |
| RiskScore.DecayIsOwedIff | src/analyzers/behavioral.rs:529-538 | For every nonnegative score, every rate and every clock reading, a decay leaves the score that the time passed calls for exactly when the clock has not gone back, the rate is zero, or the score is already zero and the rate positive. |
| IntegerFacts.WrappingIsModular | src/analyzers/behavioral.rs:534 | Unsigned subtraction wraps around modulo 2^64. |
| RiskScore.StepBackErases | src/analyzers/behavioral.rs:534-537 | How bad the other case is: a clock that steps back by any amount, from a reading below 2^63 milliseconds, makes the elapsed time wrap around, and the decay erases the score at any rate down to a thousandth per hour. |
| RiskScore.AdditionSkipsDecay | src/analyzers/behavioral.rs:511-526 | An addition moves the clock without decaying: the score is never lower than with decay first, and equal exactly when nothing was owed, the cap hides it, or the later decay removes everything. |
| RiskScore.Score.Add | src/analyzers/behavioral.rs:510-526 | After an addition the score is that of the whole history: in [0, 100] for nonnegative inputs, with the factors of the last day before the latest decay and since. |
| RiskScore.Score.Decay | src/analyzers/behavioral.rs:528-545 | The same after a decay, at whatever rate and for any clock reading, also one behind the last update. |
| KernelRateLimit.AtMostLimitPerWindow | ebpf-programs/src/main.rs:209-244 | The current window of a process lets at most `L` events through for the call sites with limits up to `L`, whatever larger limits others use; without others the entry's count is the number let through. |
| KernelRateLimit.FewerThanTwiceLimitPerSecond | ebpf-programs/src/main.rs:209-244 | In any closed second the call sites with limits up to `L` let fewer than `2 L` events of a process through, whatever larger limits others use on the same entry, provided that evictions of the entry and backward steps of the clock lie before that second. |
| KernelRateLimit.BoundIsReached | ebpf-programs/src/main.rs:209-244 | For every limit some run lets exactly 2 limit - 1 through in a second, so the bound is tight. |
| KernelRateLimit.RefusedOnlyWhenFull | ebpf-programs/src/main.rs:209-244 | A check is refused only when at least its limit passed within the second that ends with it. |
| KernelHooks.EveryExitFollowsExec | ebpf-programs/src/main.rs:676-847 | In every trace each emitted exit is preceded by an exec of the same process with no other exit of it in between, despite full buffers, rate limits, failed insertions and evictions. |
| KernelHooks.ActiveIffTracked | ebpf-programs/src/main.rs:676-847 | A process is tracked exactly when a submitted and stored exec of it lies back with neither an accepted exit call nor an eviction since. |
| KernelHooks.CallSubmits | ebpf-programs/src/main.rs:676-889 | Given room, an exit call submits its event exactly when monitoring is on and the process is tracked, an exec call exactly when the limiter admits it, a fork call always; without room the same calls count a drop. |
| KernelHooks.StepAccounted | ebpf-programs/src/main.rs:692-728 | Each attempt to reserve space increments exactly one of generated and dropped; nothing else does. |
| KernelHooks.ReservationsAccounted | ebpf-programs/src/main.rs:692-728 | Over every trace generated plus dropped is the number of attempts, and generated is the number of submitted events. |
| KernelHooks.RefusalsCounted | ebpf-programs/src/main.rs:233-235 | The refusals counted are exactly the checks that the limiter turns down. |
| KernelHooks.CredentialsStep | ebpf-programs/src/main.rs:842-844 | Credentials are kept from their recording to the submitted exit of the process. |
| KernelHooks.ExecEventsPerSecond | ebpf-programs/src/main.rs:687-732 | Exec events of one process number at most 199 in any closed second before which all evictions of its entry lie, although other hooks use the same entry with limits up to 1000. |
| KernelHooks.ExecBoundIsReached | ebpf-programs/src/main.rs:687-732 | Some trace logs exactly 199 exec events of a process in one second. |
| KernelHooks.Monitor.CheckRateLimit | ebpf-programs/src/main.rs:212-244 | The check accepts and updates the shared entry as the limiter's results assume, and counts each refusal. |
| KernelHooks.Monitor.SchedProcessExec | ebpf-programs/src/main.rs:676-735 | The exec hook submits exactly the events that the trace calls for. After it, as after every call, exits follow execs in the log, the tracked processes are those with a stored exec not ended since, reservations are accounted for, and exec events respect their bound. |
| KernelHooks.Monitor.SchedProcessExit | ebpf-programs/src/main.rs:809-847 | The exit hook submits its event exactly when there is room, monitoring is on and the process is tracked, and keeps those properties of the whole history. |
| KernelHooks.Monitor.SchedProcessFork | ebpf-programs/src/main.rs:858-889 | The fork hook keeps them too; it submits or counts a drop and touches no map. |
| KernelHooks.Monitor.OtherHookCheck | ebpf-programs/src/main.rs:970-977 | A check by any other hook against its own limit keeps them, on the entry it shares with the exec hook. |
| KernelHooks.Monitor.Evict | ebpf-programs/src/main.rs:83-138 | The loss of any entry of the bounded maps keeps them. |
| KernelHooks.Monitor.RecordCredentials | ebpf-programs/src/main.rs:1814-1815 | So does recording the credentials of a process. |
| Sha256Padding.PadMessage | build.rs:273-280 | The padding loop ends with the message, a one bit, zeros and the length in bits in the last eight bytes, a whole number of blocks long. |
| Sha256Padding.PaddedLengthLeast | build.rs:273-280 | The padded length is the least multiple of 64 bytes that holds message, end mark and length (section 5.1.1 of FIPS 180-4). |
| Sha256Padding.UnpadUndoesPad | build.rs:273-280 | Messages under 2^61 bytes can be read back from the padding. |
| Sha256Padding.PaddingInjective | build.rs:273-280 | Padding is injective on messages of every length, even where the stored length wraps. |
| Sha256Padding.PaddingSuffixFree | build.rs:273-280 | For messages under 2^61 bytes no padded message ends with another. |
| CompressionRounds.Schedule | build.rs:284-300 | The array starts with the block and each later entry is the sum that the schedule equation asks for, although the terms are added in another order. |
| CompressionRounds.RotationIsDelay | build.rs:302-324 | The eight rotating variables are the ends of two growing lists computed without any rotation (section 6.2.2 of FIPS 180-4). |
| CompressionRounds.UnroundsUndoRounds | build.rs:304-324 | For a fixed block the rounds can be run backwards, so they never merge two states. |
| Sha256.RoundsInjective | build.rs:304-324 | With the SHA-256 word operations, for one block and one set of constants, two register states agree after any number of rounds exactly when they agreed before. |
| Sha256.PlusIsModular | build.rs:296-299 | Addition is modulo 2^32. |
| Sha256.ChooseBits | build.rs:306 | Each bit of the choice is the second word's bit where the first has a one, else the third's. |
| Sha256.MajorityBits | build.rs:313 | Each bit of the majority is the bit that at least two of the words have there. |
| Sha256.BigSigma0Bits | build.rs:312 | Each bit is the sum, without carry, of the bits 2, 13 and 22 places up, around the word. |
| Sha256.BigSigma1Bits | build.rs:305 | Each bit is the sum, without carry, of the bits 6, 11 and 25 places up, around the word. |
| Sha256.SmallSigma0Bits | build.rs:294 | Each bit is the sum, without carry, of the bits 7 and 18 places up, around the word, and the bit 3 places up, if there is one. |
| Sha256.SmallSigma1Bits | build.rs:295 | Each bit is the sum, without carry, of the bits 17 and 19 places up, around the word, and the bit 10 places up, if there is one. |
| Sha256.BlocksAreBigEndian | build.rs:283-293 | Each word of each block is the big-endian value of its four bytes. |
| Sha256Constants.RoundConstantsAreCubeRoots | build.rs:260-271 | The round constants are the first 32 bits behind the point of the cube roots of the first 64 primes, in order. |
| Sha256Constants.InitialHashIsSquareRoots | build.rs:253-257 | The initial hash values are the first 32 bits behind the point of the square roots of the first eight primes. |
| Sha256Constants.PrimesInOrder | build.rs:253 | The list used for both starts with 2 and skips no prime. |
| CompressionRounds.RunRounds | build.rs:302-324 | The 64 rounds as performed, variable by variable, are the specified rounds. |
| CompressionRounds.AddsPointwise | build.rs:326-333 | The working registers are added back register by register. |
| CompressionRounds.CompressBlock | build.rs:283-333 | One block: the result is the compression function stated by the two lists and the schedule equation. |
| Sha256.HashBlocks | build.rs:282-334 | The blocks are chained by the compression function, in order. |
| Sha256.DigestReadsBack | build.rs:336 | The eight parts of the digest read back, as hexadecimal numbers, as the eight registers in order. |
| Sha256.HexDigestInjective | build.rs:336 | Different hash values print differently. |
| Sha256.Sha256Hash | build.rs:249-337 | The digest is the hex form, 64 characters long, of the chained compression of the padded message. |

## Left out

- Float rounding: confidences, similarities, averages, variances and scores are exact reals; square roots (`std_dev`, `zscore`) and the half-life powers of the alerting risk scorer are not modelled.
- Overflow of 32- and 64-bit counters and of the doubled window; only the SHA-256 arithmetic, its stored length, the kernel clock difference and the clock differences of the risk score wrap, as they do in the source's release profile. Its hardened profile stops the program there instead.
- Concurrent callers: each locked section is one step.
- Random chain ids are modelled as a counter, that is, as never colliding.
- Event payloads, regular expressions and JSON conditions: rule conditions, dedup keys and alert fingerprints are parameters or abstract fields.
- Truncation of the payload to 256 bytes before hashing it for deduplication, and its behaviour inside a multi-byte character.
- A triage sample rate of zero, which divides by zero in the source, is excluded by `UsableConfig`.
- Spoofing pattern identification, validation state and the variant that records process-environment data: they only read or annotate cache entries.
- Expiry of whole correlation sessions and the correlation engine's event buffer, extraction of correlation keys, chain alerts, notification channels and automatic responses.
- The profile-compliance warning flag of the governor, its sampling loop and directory-size scan; a missing queue directory is a size of zero.
- Baseline deviation, rate anomalies and the string-pattern detection tables of the behavioral analyzer.
- Kernel memory reads, header filling and filtering: whether monitoring is on, a process is filtered, the ring buffer has room or an insertion succeeds are inputs of each hook call. The other hooks appear only as further rate-limit checks.
- The time stamped on an exec event is the time of its rate-limit check; the source reads the clock again a little later.
- The driver embedding around `sha256_hash`.
- The first event kept in a dedup entry, which nothing in the source reads.

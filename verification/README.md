# Verified models of the proxy's analysis scripts

The repository's `scripts/` directory holds small models of the proxy and tools over its snapshots: a simulator of
the resolver cache, replays of rules that remember failures, a slow-resolution detector, quantile and rounding
arithmetic, an anonymiser, a version keeper and page joins. Decisions about the proxy's defaults rest on what these
scripts count. This project restates their logic in Dafny and proves what their comments, the manual and the code
itself rely on, for every input and every run.

Code that updates state in place is a class or a loop here, proved against a specification function; the laws are
then lemmas about that function. Times are exact (`real`), so that `k`, three quarters of the TTL, is exact.

## How the resolver cache is laid out

- `OrderedDict.dfy`, `Heap.dfy`: Python's insertion-ordered dictionary (so that `min` breaks ties as Python does)
  and the contract of `heapq`.
- `DnsModel.dfy`: the table as a value with a ghost log of events, and one transition function per method.
- `DnsRun.dfy`: runs are lists of operations (look up, let time pass, seed, begin to count); the reachable-state
  invariant.
- `DnsTable.dfy`: the class `Table`, method by method, equal to the transition functions, with its counters equal
  to a tally of the log. `DnsReplay.dfy`: the function `replay`, whose result is one such run.
- `DnsHistory.dfy` and `DnsTrace.dfy`: the exact course of every operation, said of the log alone (when a name was last
  resolved, used and set) and without the table; and that the table is what its log says. `DnsCounts.dfy`: what each
  counter is the number of. `DnsOldAnswers.dfy`: how old an old answer can be.
- One module for each law over runs: `DnsTally`, `DnsTimerBound`, `DnsHeapRefinement`, `DnsSplit`, `DnsIntegral`,
  `DnsServeStale`, `DnsFreshness`, `DnsSpacing`, `DnsNoWarm`, `DnsNegative`.
- `DnsSharp.dfy` and `DnsCeiling.dfy`: where a bound can fail, the exact settings under which it does, with runs for
  all such settings, built operation by operation on `DnsFrame.dfy` (what happens to one name while others are served).

Of the other scripts, `DnsEpisodes.dfy`, `CrateGrammar.dfy` and `PageKept.dfy` say what the specification functions of
`DnsSlow.dfy`, `CrateVersions.dfy` and `PageJoin.dfy` give, for any input and without those functions.

## Findings

- `covered_by` is documented for intervals `(a, b]`, and its comparison is for half-open `[lo, hi)`. Both readings
  are proved: the answer is right for `[a, b)` against `[lo, hi)` and for `(a, b]` against `(lo, hi]`.
- The header of `connect-fail-replay.py` says that the position of successes never moves the count. That holds for
  requests one at a time, however long successes take (`ConnectFail.SuccessesDoNotMatter`), and fails when a success
  overlaps the failure or comes at the very moment it ends (`ConnectFail.SerialityIsNeeded`). A success is harmless
  exactly when the failure's window is over by its end (`ConnectFail.ForgettingIsHarmlessIff`).
- The manual's ceiling of 32 names / 45 s is a rate; over a window the exact bound has one more refresh per name, for
  timers already set when it begins (`DnsReplay.DocumentedCeiling`). It holds of every window exactly when names are
  promoted from the present, or there is no TTL, or none is kept warm (`DnsCeiling.CeilingIff`). With
  `promote_at="answer"` promotions have to be added (`DnsTimerBound.TimerCeiling`): round after round of `max_warm` names
  promoted with answers already aged brings a whole queue of refreshes in less than a period each.
- A request for a warm name misses in some run exactly when there is a window to keep names warm, and both the TTL and
  `serve_stale` are below a limit (`DnsSharp.WarmNamesMissIff`). With promotion by the answer, or no TTL, the limit is
  `k`. From the present it is `ttl + k`, but `2 * k` with the current rule, a window no longer than the TTL and `k`
  below that. Old answers and refreshes ahead have such conditions too.
- The slow-resolution proposal `trim1` is stronger than the condition of before exactly where a minute's largest
  mean is at least the window's; a minute with time but no misses breaks that (`DnsSlow.TimeWithoutMisses`).
- The proposals by misses, and by 1,000 ms in all, drop no slow stretch of a history in which the canary's median,
  taken anew each minute, leaves the limit at 100 ms (`DnsDropped.UnraisedDropNothing`). For the one by ten misses that
  is exact minute by minute (`DnsDropped.TenMissesCatchIff`), for the others for a median that stays the same; those by
  2,000 ms and by the trimmed mean can drop one at any limit (`DnsDropped.CatchesSlowIff`).
- The two copies of the quantile agree for `q` up to 1, and past 1 only when the quantile at 1 is the maximum.
- Hosts come out of the anonymiser with one group if and only if they are of one unit, exactly when each host that came
  in replaced brings, of the numbers that units have by then, its own unit's and no other's (`Anonymizer.Run`). Two
  ways to fail: `a.com` before `host-0001.g0001.example` (`Grouping.RealFirstMixes`; the other order is all right), and
  `x.g0002.example`, `b.com`, `host-0001.g0002.example`, where the tables' numbers stay distinct and yet one unit comes
  out with two groups and two units with one (`Grouping.NumberedUnitMixes`). With the replaced hosts first it comes down
  to whether those bring one number exactly when they are of one unit (`Grouping.ReplacedFirstIff`).
- After writing a lock file, the version of a package reads back exactly if the line that gives it comes right after
  the name right after the header (`CrateVersions.WrittenLockReads`); the tool writes no other lines, and reads any.

## Model

| member | source | states |
|---|---|---|
| Heap.PushSorted | scripts/dns-replay.py:225-227 | Pushing keeps the heap's order and adds exactly the one pair |
| Heap.RoundsNext | scripts/dns-replay.py:203-215 | A timer set again one period later has exactly one turn fewer left by `now`: the reason the loop ends |
| DnsModel.PopDueDecreases | scripts/dns-replay.py:203-215 | Each turn of the loop, live pair or disowned, lowers the sum of the turns left over the heap |
| DnsModel.Victim | scripts/dns-replay.py:233 | The evicted name is queued and no queued name was used longer ago |
| DnsRun.AdvanceInv | scripts/dns-replay.py:201-216 | `advance` keeps the invariant of reachable states (flag iff queued, every queued name's pair in the heap, at most `max_warm` queued, timers within one period), and afterwards every queued name is due after `now` |
| DnsRun.StepInv | scripts/dns-replay.py:180-304 | Every operation keeps that invariant |
| DnsTally.CountersAddUp | scripts/dns-replay.py:193-199 | Misses add up by kind, refreshes by cause and by name, and each old answer served brought one refresh |
| DnsTally.StepBalanced | scripts/dns-replay.py:250-304 | Every operation keeps one outcome per counted lookup, and sets the recorded peak to the larger of itself and the new queue length |
| DnsTally.RunBalanced | scripts/dns-replay.py:244-246 | Over a counted run lookups are the sum of their outcomes and `warm_max` is the true peak of the queue |
| DnsTally.RunAsksAfterHits | scripts/dns-replay.py:276-281 | Over every run early refreshes number at most the hits |
| DnsCounts.CounterIsNumber | scripts/dns-replay.py:301-304 | Each counter is the number of counted events of its kind, and of no other kind |
| DnsCounts.AgesAreCounted | scripts/dns-replay.py:286-291 | The counters of ages are the sum and the largest of the ages of the old answers given |
| DnsOldAnswers.OldAnswersAreInWindow | scripts/dns-replay.py:282-293 | Over every run an old answer is past the TTL and within `serve_stale` |
| DnsTrace.EveryOperationIsLawful | scripts/dns-replay.py:180-304 | Every operation of every run adds to the log exactly what the laws of time, requests and seeding say from the log before it |
| DnsTrace.TableIsItsHistory | scripts/dns-replay.py:143-168 | In every reachable state a name is in the table iff it was resolved, with the times of its last resolution and last use; it is queued, and warm, iff its last timer event set one, for that time |
| DnsTrace.TimeLaw | scripts/dns-replay.py:201-216 | Time passes by timers in order of `(due, name)` until none is due; each refreshes a name used within the window, and lets another go |
| DnsTrace.AnsweredLaw | scripts/dns-replay.py:250-299 | For every setting: a request `t - r` after the last resolution is a hit below the TTL, with a refresh right behind iff it is also within the TTL of the use before and `k` or more old; an old answer from there to `serve_stale`; otherwise a miss of its kind; a failing one is remembered for 60 s |
| DnsTrace.RequestKeepsWarmIff | scripts/dns-replay.py:100-107 | A request leaves its name queued iff it was, or it was known, there is a window and, with the current rule, the use before it is within that window |
| DnsTrace.PromoteLaw | scripts/dns-replay.py:229-246 | A promotion logs its first timer by the mode, and before it, when there is no room, the eviction of the name used longest ago, of several the one whose timer was set first |
| DnsTrace.PrimeLaw | scripts/dns-replay.py:180-189 | Seeding puts a name that is not there, and promotes it when warm is asked for and there is a window |
| DnsTrace.SeedKeepsWarmIff | scripts/dns-replay.py:188-189 | A name seeded warm is queued, for a period after its last use, iff there is a window |
| DnsTimerBound.RunConserves | scripts/dns-replay.py:201-246 | Conservation: the queue time counted equals a period for each timer that fired, the used part for each name evicted, less what promotions put in, plus the change in what queued names hold, over any run and in both modes |
| DnsTimerBound.LedgerPaysTimers | scripts/dns-replay.py:214-215 | Every timer refresh is paid for by a whole period of queue time, of which a promotion by the answer may advance at most one |
| DnsTimerBound.TimerCeiling | README.md:578-579 | In both modes `k * refresh_warm` plus what queued names hold is at most `warm_secs` plus what they held at the start; so at most `max_warm * (elapsed / k + 1)` timer refreshes; in the `answer` mode with a TTL, with a period, and a refresh, for each promotion added |
| DnsHeapRefinement.FirstIsLeast | scripts/dns-replay.py:159-160 | The reference machine's choice is the least queued name by `(due, name)` |
| DnsHeapRefinement.HeadIsFirst | scripts/dns-replay.py:203-206 | A live head of the heap is that choice |
| DnsHeapRefinement.AdvanceRefines | scripts/dns-replay.py:201-216 | `advance` with lazy deletion does what a machine without a heap does that fires the least queued name while one is due; disowned and duplicate pairs change nothing |
| DnsHeapRefinement.RunRefines | scripts/dns-replay.py:180-304 | Over every run the table with a heap and the one without agree on all but the heap |
| DnsSplit.AdvanceSplits | scripts/dns-replay.py:201-223 | `advance` to `b` and then to `c` is `advance` to `c`, queue time included |
| DnsSplit.QuietStretch | scripts/dns-replay.py:218-223 | Between timers the queue time grows by the queue's length times the elapsed time, and nothing else changes |
| DnsIntegral.WarmSecsIsIntegral | scripts/dns-replay.py:218-223 | Over every run the log alone tells the queue's length, and `warm_secs` is the integral of that step function over the time since counting began |
| DnsServeStale.RunRelated | scripts/dns-replay.py:264-299 | Two runs that differ only in `serve_stale` pass through the same table, queue, heap and negative memory, and their logs differ only in labels |
| DnsServeStale.TallyShifted | scripts/dns-replay.py:282-297 | Such logs have equal hits, first misses and remembered failures, equal sums of misses and old answers (of warm names and of others), and refreshes that differ by the old answers alone |
| DnsServeStale.ServeStaleOnlyRelabels | scripts/dns-replay.py:264-299 | So serving old answers is a pure relabelling of any arrivals, and misses never rise as the window grows |
| DnsFreshness.WarmAge | scripts/dns-replay.py:238-242 | After `advance` a warm name's answer is younger than a limit: `k` in the `answer` mode or without a TTL; else `ttl + k`, or `2 * k` with the current rule, a window no longer than the TTL and `k` below that |
| DnsFreshness.RunFresh | scripts/dns-replay.py:180-304 | Every run keeps the bound on the next refresh of each queued name, and its log has no answer of a warm name past it |
| DnsFreshness.WarmNamesAreFresh | scripts/dns-replay.py:229-246 | Over every run warm names miss, are given old answers or are refreshed ahead only under settings that allow it (in the `answer` mode with `k` up to the TTL never), and no old answer is past the limit |
| DnsFrame.AdvanceLeaves | scripts/dns-replay.py:203-216 | Time changes nothing for a name that is not queued or not yet due |
| DnsFrame.AdvanceFires | scripts/dns-replay.py:207-215 | A warm name used within its window has exactly its timer when due: a new answer, the next due time, one count |
| DnsFrame.AnsweredPushes | scripts/dns-replay.py:232-235 | A request for another name may push out a name used before it, and none used at that moment |
| DnsFrame.AnsweredRoom | scripts/dns-replay.py:232-235 | A name used now keeps its place while there is room or a queued name used before |
| DnsSharp.GrowsOldTo | scripts/dns-replay.py:238-242 | For all settings with a window, and any number of places, there is a run in which a warm name's answer is found at any age from the TTL up to the limit |
| DnsSharp.WarmNamesMissIff | scripts/dns-replay.py:294-295 | For all settings, some run counts `warm_stale` iff there is a window and the TTL and `serve_stale` are below the limit |
| DnsSharp.WarmNamesStaleIff | scripts/dns-replay.py:286-289 | For all settings, some run counts `stale_hits_warm` iff there is a window and the TTL is below both `serve_stale` and the limit |
| DnsSharp.WarmNamesAskIff | scripts/dns-replay.py:279-281 | For all settings, some run refreshes a warm name ahead of expiry iff names are promoted from the present, there is a window and `k` is below the TTL |
| DnsSpacing.RunSpread | scripts/dns-replay.py:201-304 | Every run keeps all past resolutions of a name no later than its answer, and past timers a period before the next |
| DnsSpacing.ResolutionsAreSpaced | scripts/dns-replay.py:266-299 | In both modes, across evictions, two timer refreshes of a name are `k` apart, and a request resolves only `k` (or the TTL, if less) or more after any earlier resolution |
| DnsNoWarm.NothingKeptWarm | README.md:571-572 | With window 0, over every run the queue stays empty, no timer fires and refreshes number at most hits and old answers |
| DnsNegative.FailuresSplitAlike | scripts/dns-replay.py:254-263 | Whatever successes come between, the table splits failing lookups between memory and asking as the separate replay at 60 s does on the failures alone |
| DnsTable.Table.constructor | scripts/dns-replay.py:143-168 | Each argument becomes its setting; `k` is `refresh_at`, or 3/4 of the TTL when none or 0 is given; a new table is empty and counts |
| DnsTable.Table.Refresh | scripts/dns-replay.py:193-199 | The entry has a new answer, the refresh is logged as one event with what it goes with, and the counters by total, cause and name are again what the log says |
| DnsTable.Table.FireAt | scripts/dns-replay.py:207-215 | A live timer lets an unused name go, or sets it again and refreshes it |
| DnsTable.Table.CoolAt | scripts/dns-replay.py:210-213 | A name unused for the window loses its flag and nothing is counted |
| DnsTable.Table.AdvanceTo | scripts/dns-replay.py:201-216 | The loop is the specified `advance`, keeps the invariant, and leaves no queued name due |
| DnsTable.Table.EvictOldest | scripts/dns-replay.py:232-237 | The name used longest ago leaves the queue and its flag is cleared |
| DnsTable.Table.AdmitAt | scripts/dns-replay.py:242-246 | The name is queued for its first timer and warm, and the peak is that of the log |
| DnsTable.Table.PromoteNow | scripts/dns-replay.py:229-246 | Room is made, the first timer is set by the mode's rule, the flag is set and the peak kept |
| DnsTable.Table.Missed | scripts/dns-replay.py:301-304 | One outcome of its kind is logged, the counters are again what the log says, and nothing else changes |
| DnsTable.Table.FailAt | scripts/dns-replay.py:254-263 | A failing lookup is answered from memory or asked and remembered; neither table nor queue changes |
| DnsTable.Table.HitAt | scripts/dns-replay.py:276-278 | A hit changes no state but the counters |
| DnsTable.Table.AskAt | scripts/dns-replay.py:279-281 | An early refresh renews the answer behind the hit |
| DnsTable.Table.StaleAt | scripts/dns-replay.py:282-293 | An old answer is counted with its age and whether it was warm, and renewed behind |
| DnsTable.Table.MissAt | scripts/dns-replay.py:294-297 | A miss of its kind puts a new answer in the table |
| DnsTable.Table.ServeAt | scripts/dns-replay.py:270-297 | The branches by age are those of the specification, whose answers `DnsTrace.AnsweredLaw` gives from the log |
| DnsTable.Table.Lookup | scripts/dns-replay.py:250-299 | `lookup` is a step of a run, of which `DnsTrace.EveryOperationIsLawful` says what it logs; invariant and counters are kept |
| DnsTable.Table.SeedAt | scripts/dns-replay.py:184-187 | A seeded name is in the table with the answer and use of its last use |
| DnsTable.Table.PrimeName | scripts/dns-replay.py:180-189 | `prime` is the specified seeding step and keeps invariant and counters |
| DnsTable.Table.CountFromNow | scripts/dns-replay.py:421-423 | Counting begins, from the queue's length and the present |
| DnsReplay.Prepare | scripts/dns-replay.py:408-420 | The run-up and the seeding are the first part of one run |
| DnsReplay.Replay | scripts/dns-replay.py:397-427 | Each argument becomes its setting and the table is the one the specified run ends in; one outcome per arrival; no window means an empty queue and no timer refresh; `serve_stale` up to the TTL means no old answer |
| DnsReplay.ReplayIsRun | scripts/dns-replay.py:397-427 | That is a single run from a new table, so the laws over runs hold of it |
| DnsReplay.ReplayCourse | scripts/dns-replay.py:407-427 | That run, operation by operation: run-up, time to the window, seeded names two hours back or warm now, the beginning of the count, the arrivals, time to the end |
| DnsReplay.ReplaySettings | scripts/dns-replay.py:407 | Of any replay: no window, nothing kept warm; `serve_stale` up to the TTL, no old answer |
| DnsReplay.ReplayRelabels | scripts/dns-replay.py:282-293 | Two replays that differ in `serve_stale` end in the same table and queue, and the longer relabels what the shorter counts |
| DnsReplay.AtC0Counts | scripts/dns-replay.py:407-423 | When counting begins all counters are 0 but the peak, which is the queue's length, and no failure is remembered |
| DnsReplay.ReplayCounters | scripts/dns-replay.py:397-440 | One lookup per arrival of the window, each with one outcome; sums by kind and cause; the peak within `max_warm` |
| DnsReplay.ReplayFailures | scripts/dns-replay.py:424-425 | The failing arrivals of the window are split as the negative-cache replay splits them |
| DnsReplay.ReplayQueueTime | scripts/dns-replay.py:432 | The queue time is at most `max_warm` times the window, so the average is at most `max_warm` |
| DnsReplay.ReplayCeiling | scripts/dns-replay.py:397-427 | Timer refreshes of the window are at most `max_warm * ((taken - c0) / k + 1)`, in the `answer` mode with a TTL with its promotions added |
| DnsCeiling.AdvanceFiresAll | scripts/dns-replay.py:203-215 | Names used within their window and due together each have their timer, and each is counted |
| DnsCeiling.CrowdTimers | scripts/dns-replay.py:239-241 | In the `answer` mode, for any number of rounds, there is a window in which each round brings `max_warm` refreshes and takes less than a period |
| DnsCeiling.CeilingIff | README.md:578-579 | For all settings, the ceiling without promotions holds of every window iff names are promoted from the present, or there is no TTL, or the keep-warm window is 0 |
| DnsReplay.DocumentedCeiling | README.md:578-579 | For TTL 60 s and 32 names `k` is 45 s and the ceiling is the documented one |
| NegativeCache.Replay | scripts/dns-negative-replay.py:75-90 | The loop is the rule fed arrival by arrival; every arrival is a lookup or a hit |
| NegativeCache.RememberedMeans | scripts/dns-negative-replay.py:93-98 | True exactly when some looked-up time has the arrival in its half-open window |
| NegativeCache.NamesAreIndependent | scripts/dns-negative-replay.py:80-90 | What is looked up for a name is the greedy choice on its own arrivals |
| NegativeCache.GreedyStaysAhead | scripts/dns-negative-replay.py:82-89 | The j-th greedy time comes no later than the j-th of any other choice with such gaps |
| NegativeCache.GreedyIsOptimal | scripts/dns-negative-replay.py:75-98 | Looked-up times are arrivals `secs` apart that cover every arrival, and no such choice is larger |
| NegativeCache.LongerMemoryAsksLess | scripts/dns-negative-replay.py:75-90 | Lookups never rise as failures are remembered longer |
| NegativeCache.EveryArrivalIsRemembered | scripts/dns-negative-replay.py:93-98 | Each name's windows are disjoint and `remembered` is true of every arrival |
| ConnectFail.CoveredBy | scripts/connect-fail-replay.py:208-216 | One pass is sound and complete: true iff `[a, b)` is in the union of the `[lo, hi)`; likewise `(a, b]` and the `(lo, hi]` |
| ConnectFail.Replay | scripts/connect-fail-replay.py:219-231 | The loop returns the refused failures and the windows of the others, and each failure goes to one of them |
| ConnectFail.RejectedAreRefused | scripts/connect-fail-replay.py:226-230 | The refused are the failures that the rule flags, and there is a window for each of the rest |
| ConnectFail.RefusedMeans | scripts/connect-fail-replay.py:224-230 | For failures in any order: one is refused iff, of those let through before it, the one that ended last ended before it came and at most `secs` before |
| ConnectFail.WindowsOpenAtEnds | scripts/connect-fail-replay.py:230 | Each failure let through opens, in order, a window of `secs` seconds from its end |
| ConnectFail.ChosenAppend | scripts/connect-fail-replay.py:226-230 | Which failures are chosen is decided one by one, in order |
| ConnectFail.SuccessesDoNotMatter | scripts/connect-fail-replay.py:21-22 | One request at a time, the rule that forgets on success refuses exactly the failures refused without successes |
| ConnectFail.SerialityIsNeeded | scripts/connect-fail-replay.py:21-22 | Two inputs, an overlapping success and one at the moment of the failure's end, where it does not |
| ConnectFail.ForgettingIsHarmlessIff | scripts/connect-fail-replay.py:18 | Forgetting at the end of a success changes nothing for any failures to come iff the failure's window is over by then, as it is for a success let through that came after the failure ended |
| ConnectFail.WindowsOfFailuresAlone | scripts/connect-fail-replay.py:229-230 | The windows of the whole rule are the windows `replay` returns, one by one |
| ConnectFail.RefusedIffInside | scripts/connect-fail-replay.py:234-235 | A request, success or failure, is refused iff it comes inside some window |
| ConnectFail.WindowsAreDisjoint | scripts/connect-fail-replay.py:16-17 | Windows do not meet: each remembered failure ends more than `secs` after the one before |
| DnsSlow.Episodes | scripts/dns-slow-replay.py:143-162 | The loop records what the detector, step by step, records |
| DnsEpisodes.EpisodesAre | scripts/dns-slow-replay.py:143-162 | For windows in time order: it fires behind a window iff the condition has held and the first window since in which it did not is less than 300 s back; recorded are exactly the longest stretches of such windows, in order, each ending at the window behind it, if any |
| DnsSlow.WeakerContains | scripts/dns-slow-replay.py:143-162 | If one condition implies another, the second fires whenever the first does and every stretch of the first lies in one of the second |
| DnsSlow.LimitOf | scripts/dns-slow-replay.py:77-79 | The limit is the larger of 100 ms and three times the canary's median |
| DnsEpisodes.WindowsAre | scripts/dns-slow-replay.py:82-101 | A window for each minute but the first four |
| DnsEpisodes.WindowHolds | scripts/dns-slow-replay.py:92-100 | It ends a minute after its last row begins, has the misses and time of five rows, and its limit is 100 ms or three times the median |
| DnsEpisodes.WorstMeans | scripts/dns-slow-replay.py:95-96 | The worst minute: no minute with misses has a larger mean, and some minute has that mean, or it is 0 without misses |
| DnsEpisodes.ProposalsMean | scripts/dns-slow-replay.py:104-140 | Every proposal, and what is slow, as inequalities between totals at their numbers |
| DnsSlow.WorstIsAtLeastMean | scripts/dns-slow-replay.py:93-96 | When minutes without misses carry no time, a window's total is at most its worst minute's mean for each miss |
| DnsSlow.TrimIsBelowMean | scripts/dns-slow-replay.py:108-112 | The trimmed mean is at most the plain one exactly when the worst minute's mean is at least the plain one |
| DnsSlow.ProposalsAreNested | scripts/dns-slow-replay.py:118-135 | On every history 10, 8, 5 and 3 misses, 2,000 ms, 1,000 ms and none, and the trimmed mean, each imply the next |
| DnsSlow.NestedContain | scripts/dns-slow-replay.py:118-135 | So on every history each stretch of a stronger proposal lies in one of each weaker proposal |
| DnsDropped.Overlaps | scripts/dns-slow-replay.py:186-194 | The loop tells whether some stretch has a moment in common with the given one |
| DnsDropped.OverlapMeans | scripts/dns-slow-replay.py:186-194 | Two stretches overlap iff some moment lies in both, ends included |
| DnsDropped.DroppedCounts | scripts/dns-slow-replay.py:210-214 | What is reported is the number of slow stretches that none of the proposal's overlaps |
| DnsDropped.LooserDropsNoMore | scripts/dns-slow-replay.py:210-214 | On every history the number of slow stretches dropped never rises from a proposal to a looser one |
| DnsDropped.UnraisedDropNothing | scripts/dns-slow-replay.py:98-100 | Proposals by misses and by 1,000 ms drop no slow stretch of a history whose limits, minute by minute, the canary leaves at 100 ms |
| DnsDropped.TenMissesCatchIff | scripts/dns-slow-replay.py:125-126 | For any medians minute by minute, the proposal by ten misses drops no slow stretch of any history iff no window has its limit raised |
| DnsDropped.CatchesSlowIff | scripts/dns-slow-replay.py:138-140 | For a median that stays the same, proposals by misses and by 1,000 ms drop no slow stretch on any history iff it leaves the limit at 100 ms; those by 2,000 ms and by the trimmed mean drop one on some history |
| DnsSlow.TimeWithoutMisses | scripts/dns-slow-replay.py:95-96 | A history with time in a minute without misses where the trimmed mean fires and the plain one does not |
| Quantile.QuantileMs | scripts/proxydata.py:392-411 | If the rank falls in a bucket, the result divides it as the rank divides its samples, or is the maximum, exactly when that point is at or above it; past the last bucket it is the maximum; None iff there is nothing to rank |
| Quantile.QuantileInterpolates | scripts/proxydata.py:400-411 | The same of the specified function, as a relation between the bucket's bounds, its count and the rank |
| Quantile.QuantileIsBracketed | scripts/proxydata.py:392-411 | The quantile is in the same bucket as the sample of rank `ceil(rank)`, and never above the maximum |
| Quantile.QuantileGrows | scripts/proxydata.py:392-411 | It never falls as `q` grows |
| Quantile.CopiesAgree | scripts/snapshot-summary.py:106-120 | The summary's copy is equal for `q` up to 1; past 1 equal iff the quantile at 1 is the maximum |
| Rounding.DifferenceWithinError | scripts/proxydata.py:294-299 | With both means right to 0.05, the interval's mean is within `avg_err` of the true one |
| Rounding.GroupWithinError | scripts/proxydata.py:168-173 | The weighted mean of a group is within its folded error of the group's true mean |
| Rounding.RowIsBetween | scripts/proxydata.py:286-323 | A row added to the first report gives the second, in every total; mean and error are per request timed in between |
| Rounding.RowOfOne | scripts/proxydata.py:288-299 | A single report is its own row, with its mean and an error of 0.05 |
| Rounding.ErrorIsSharp | scripts/proxydata.py:294-299 | For any counts there are reports right to 0.05 whose row is off by all of its error |
| Rounding.FoldAppend | scripts/proxydata.py:165-173 | A row more adds its share to a group's mean and error, and one not timed changes nothing |
| Rounding.Groups | scripts/proxydata.py:162-164 | The loop puts every row in the group of its key, in order, has no other groups, and rows of a group are of one kind and one unit |
| Rounding.GroupsConserve | scripts/proxydata.py:187-192 | Whatever adds up has the same total over groups as over rows |
| Numbered.HostRoundTrip | scripts/anonymize-snapshot.py:93-95 | A replaced host reads back as its number and group, so formats are injective |
| Numbered.AgentRoundTrip | scripts/anonymize-snapshot.py:94-97 | A replaced agent reads back as its number |
| Numbered.TextsAre | scripts/anonymize-snapshot.py:93-94 | `host-`, four digits or more, `.g`, four or more, `.example`; `ua-` and two or more; zeros in front only up to that width |
| Numbered.TextsOfSome | scripts/anonymize-snapshot.py:93-94 | `host-0001.g0023.example`, `ua-04` and `ua-123`, character by character |
| Numbered.ReplacedHostIff | scripts/anonymize-snapshot.py:95 | The replaced hosts are texts of that form, or of the older one without a group, and no others |
| Numbered.ReplacedAgentIff | scripts/anonymize-snapshot.py:97 | The same for agents |
| Anonymizer.MadeV4Injective | scripts/anonymize-snapshot.py:236-244 | Numbered addresses are documentation addresses, and equal only for the same place and number |
| Anonymizer.UsableIff | scripts/anonymize-snapshot.py:99-106 | Each documentation address but 0 and 255 of its block is one replacement of one place, and there are no others |
| Anonymizer.SeriesBegin | scripts/anonymize-snapshot.py:99-100 | The first and last addresses of the blocks in each series |
| Anonymizer.Anonymizer.TakeHost | scripts/anonymize-snapshot.py:218-225 | The search ends, with the first number from `n` on whose text is free |
| Anonymizer.Anonymizer.TakeAgent | scripts/anonymize-snapshot.py:227-234 | The search ends, with the first number from `n` on whose text is free |
| Anonymizer.Anonymizer.TakeIp | scripts/anonymize-snapshot.py:236-248 | It ends with the first free address from the `n`-th on of the place and the family, or with an error exactly when there is none in IPv4 |
| Anonymizer.Anonymizer.Group | scripts/anonymize-snapshot.py:172-182 | A unit keeps its number; a new one gets the first number past the count that is not taken |
| Grouping.ClashBreaks | scripts/anonymize-snapshot.py:154-156 | Noting the group of a replaced host keeps numbers distinct iff no other unit has it |
| Grouping.SeparatesIff | scripts/anonymize-snapshot.py:154-156 | For any hosts in order: they come out with one group iff they are of one unit, exactly when each replaced host brings, of the numbers that units have by then, its own unit's and no other's |
| Grouping.DistinctIff | scripts/anonymize-snapshot.py:172-182 | In the tables alone, units have distinct numbers iff no replaced host brings, for a unit not seen, the number of an earlier unit |
| Grouping.RealAreSeparate | scripts/anonymize-snapshot.py:172-182 | Without replaced hosts both always hold |
| Grouping.RealAreNumberedInOrder | scripts/anonymize-snapshot.py:172-182 | Without replaced hosts the units are numbered 1, 2, 3 and so on in the order in which they appear |
| Grouping.ReplacedFirstIff | scripts/anonymize-snapshot.py:152-156 | With the replaced hosts first, hosts come out with the groups of their units iff the replaced ones bring one number exactly when they are of one unit |
| Grouping.RealFirstMixes | scripts/anonymize-snapshot.py:154-156 | `a.com` and then `host-0001.g0001.example` come out with one group; the other order does not mix them |
| Grouping.NumberedUnitMixes | scripts/anonymize-snapshot.py:155 | `x.g0002.example`, `b.com` and `host-0001.g0002.example` come out with groups 1, 2 and 2, though the first and last are of one unit and the tables' numbers are distinct |
| Grouping.NotedAgain | scripts/anonymize-snapshot.py:396-398 | Going over the same hosts again changes no number |
| Anonymizer.Anonymizer.Host | scripts/anonymize-snapshot.py:143-170 | A real host keeps its replacement, or gets the first free text in the group of its unit, from the number behind those given; others are unchanged; the numbers of units follow the rule that `Grouping` is about |
| Anonymizer.Anonymizer.Agent | scripts/anonymize-snapshot.py:207-216 | The same for agents, without groups |
| Anonymizer.Anonymizer.Address | scripts/anonymize-snapshot.py:184-205 | An address keeps its replacement, or gets the first free one of its place and family from the next count of those on, or an error when the IPv4 ranges run out |
| Anonymizer.Reserve | scripts/anonymize-snapshot.py:464-490 | A value that is a replacement already is held |
| Anonymizer.ImagesAreApart | scripts/anonymize-snapshot.py:143-216 | Two values have the same replacement iff they are the same, and none meets a replacement the input had |
| Anonymizer.Value | scripts/anonymize-snapshot.py:447-462 | A value once known is replaced alike ever after and changes no table |
| Anonymizer.Learn | scripts/anonymize-snapshot.py:397 | The second pass makes every field known, and numbers the units of the hosts in order |
| Anonymizer.Run | scripts/anonymize-snapshot.py:388-398 | Output fields are equal iff input fields were; replaced ones are unchanged; addresses keep their family and place; real hosts carry the number of their unit; output hosts share a group iff they are of one unit, exactly when every replaced host fits the numbers before it |
| Anonymizer.RunTwice | scripts/anonymize-snapshot.py:388-398 | A second run, on new tables, changes nothing |
| CrateVersions.PackageFields | scripts/crate-versions.py:95-113 | The loop returns the name, version and line that reading the lines one by one gives |
| CrateGrammar.VersionLineIff | scripts/crate-versions.py:65 | A line is a version line iff it is `version`, an equals sign and a quoted text, with nothing but spaces around them |
| CrateGrammar.NameLineIff | scripts/crate-versions.py:107 | A stripped line gives a name iff it is `name`, an equals sign and a quoted text, whatever follows |
| CrateGrammar.FieldsMean | scripts/crate-versions.py:95-113 | The version line is the first such line under `[package]`, the name that of the first name line there, and there is none if there is no such line |
| CrateGrammar.WithoutIs | scripts/crate-versions.py:116-122 | What is compared for content is every line but the version line, in order |
| CrateGrammar.ComparesEqualIff | scripts/crate-versions.py:116-122 | Texts whose version lines stand at one place compare equal iff all other lines are equal |
| CrateVersions.SetThenRead | scripts/crate-versions.py:401-411 | After a write the same line reads back as the new version, and all that is compared for content is as before |
| CrateVersions.SetTwice | scripts/crate-versions.py:401-411 | The second of two writes wins, and writing what is there changes nothing iff the line is written plainly |
| CrateVersions.VersionLineReads | scripts/crate-versions.py:65 | A written version line is one, and gives its version |
| CrateVersions.SetLockVersions | scripts/crate-versions.py:414-429 | Exactly the version lines of named packages change; an error iff a package has none |
| CrateVersions.WrittenLockReads | scripts/crate-versions.py:145-153 | For any lock file, afterwards each package reads as written if its version line comes right after its name right after the header, and as before if not |
| CrateVersions.RegularReads | scripts/crate-versions.py:145-153 | In a file as Cargo writes it all that was written reads back and all else reads as before |
| CrateGrammar.BlockReads | scripts/crate-versions.py:145-153 | A block adds its first version under its first name, if it has both and no source; lines before the first block add nothing |
| CrateVersions.BumpRestoresRuleB | scripts/crate-versions.py:442-499 | After a bump in either mode, whatever versions are malformed, the root equals the server and is at least every crate that has a key; it never goes down; only marked crates move; only changes are written |
| CrateVersions.BumpReaches | scripts/crate-versions.py:465-499 | The root's new version is the largest of the unmarked units' versions, of the new number if a crate is marked, and of that number if the root is (or, when fixing, the server); and it is one of these |
| CrateVersions.BumpFailsIff | scripts/crate-versions.py:461-492 | A bump fails iff, when fixing, a marked unit has the number already; or, with the base at the head, nothing is marked; or no unit has a key and none is marked |
| CrateVersions.BumpKeepsRuleE | scripts/crate-versions.py:365-374 | For any lock file that agreed with the manifests, it does so after a bump iff every version written stands on such a line |
| PageJoin.TakeFresh | scripts/collect_follow.py:221-230 | One page's loop keeps what is new, once each, and then all its keys are seen |
| PageJoin.ProfileJoin | scripts/collect_follow.py:277-286 | The loop from the oldest page on is the specified merge |
| PageJoin.FollowJoin | scripts/collect_follow.py:215-236 | The profile branch is the specified join in front |
| PageJoin.FollowJoinBehind | scripts/collect_follow.py:215-238 | The other parts are the specified join behind, whose rows `PageKept.BehindKeeps` gives |
| PageKept.BehindKeeps | scripts/collect_follow.py:215-238 | For any pages: the first page, and every later row without a key or whose key no row before it has, in order |
| PageKept.FrontKeeps | scripts/collect_follow.py:233-236 | The profile branch keeps the same rows, those of each later page in front of those of the pages before it |
| PageKept.MergeKeeps | scripts/collect_follow.py:277-286 | `profile_join` keeps, from the oldest page on, every row whose key no row before has |
| PageKept.KeptKeys | scripts/collect_follow.py:221-230 | No key of any page is lost, and keys are distinct if the first page's are |
| PageKept.BehindCovers | scripts/collect_follow.py:237-238 | For pages cut from one list, overlapping or not, the join behind is exactly the covered list |
| PageJoin.JoinsCover | scripts/collect_follow.py:271-288 | Both profile joins return exactly the samples that some page has, in order and without repeats, whether pages overlap, touch or leave gaps, though they drop opposite copies |
| PageJoin.JoinsRebuild | scripts/collect_follow.py:233-236 | Without gaps that is the whole slice from the oldest sample to the newest |
| PageJoin.OffsetPagesRebuild | scripts/collect_follow.py:237-238 | Without drift the other parts' pages join to the served list |

## Left out

- Printing, Markdown, arguments, JSON, files, HTTP and git: input and output with nothing to prove. What git tells
  (which units changed) is a given set, and the canary's median a given value.
- Building arrivals from snapshots (`build`, `build_series`, `arrivals`), matching against real events, the grid's
  verdicts and the per-hour ratios: the runs here are over any arrivals.
- Floating point: times, means and quantiles are real numbers. Equality of due times, on which lazy deletion rests,
  is exact for floats too, since a due time is stored once and only compared.
- The array layout of `heapq`: the heap is its sorted content, so only the order in which pairs come out is modelled.
- `k` is above 0, and `max_warm` at least 1 (with 0 the source takes `min` of an empty queue at the first promotion).
- DnsReplay.Replay: needs arrivals in time order, `taken` after them, and times from 0 on, as `replay`'s callers give.
- ConnectFail.SuccessesDoNotMatter: is for requests one at a time; of overlaps, `ConnectFail.ForgettingIsHarmlessIff`
  says for one success at a time which are harmless.
- DnsDropped.CatchesSlowIff: is exact for a constant median; for medians that change, the other half is stated for the
  proposal by ten misses only.
- ConnectFail.Replay: leaves out the counts of wrongly refused successes, which depend on how evidence was recorded.
- Rounding.Groups: takes `etld1` as a given function, and leaves out sorting of rows, names, quantiles and AAAA.
- Anonymizer.Run: is over field values. Text with names in it, schemes and ports, and upper case are left out, and
  `etld1` is given. Hosts and agents have one set of texts in use and addresses another; the source has one set for
  all, in which the three kinds cannot meet. A group is its number: `g0007` and `g00007` are one.
- Anonymizer.Anonymizer.Host: an address literal as a host is the field of an address here.
- CrateVersions.SetLockVersions: has the lock file as lines of known kinds; the text of a line is left out.
- CrateVersions.BumpRestoresRuleB: is about rule (b); rules (a), (c) and (d) are left out, and a manifest without a
  version.
- PageJoin.JoinsCover: is for samples that all have a key of their own, as those of the profile do, and for pages that
  each reach no less far back than the one before; of any pages, `PageKept` says which rows are kept.

# A verified model of the load balancer, the dynamic server manager and the ping

A Minecraft proxy extension with three parts that are modelled here:

- **Load balancer** (`internal/loadbalancer`). Every backend has a health state (failure and success counters,
  a trust coefficient, a sliding window of latencies, tracked players). Health checks and dials move it; five
  strategies choose among the available backends; a history keeps a moving average per backend and quarter of
  an hour, in memory and in a table. The status command in `main.go` recomputes the scores for display.
- **Dynamic server manager** (`internal/dynamicserver`). Starting a server is single-flight: concurrent calls
  join the attempt under way. Idle servers are shut down by timers, subject to protection periods and a
  per-server switch.
- **Ping** (`internal/minecraft`). VarInts, length-prefixed packets, the handshake and the check of the response.

## How it is built

Code that changes state is modelled by classes and methods with the same loops and branches (`Backend.dfy`,
`Strategy.dfy`, `LoadBalancer.dfy`, `History.dfy`, `Status.dfy`, `Codec.dfy`, `Startup.dfy`, `Idle.dfy`). The
contract of each method ties the new state to a step function on values, or states its result outright. Whole
runs are sequences of such steps; a step that is not possible does nothing, so every sequence is a run and the
theorems range over all of them:

| file | what its theorems are about |
|---|---|
| `Stats.dfy`, `RealMath.dfy` | the latency window, mean, variance, jitter, trend |
| `BackendModel.dfy`, `HealthRuns.dfy`, `ConnectionRuns.dfy` | runs of one backend: health, trust, window, capacity, connections |
| `DialGap.dfy` | the same runs with failing dials in separate steps |
| `Score.dfy`, `ScoreSteps.dfy`, `Strategy.dfy`, `Fairness.dfy`, `Status.dfy` | scores and what each factor is worth, selection, rotation, display |
| `Ema.dfy`, `HistoryModel.dfy`, `HistoryRuns.dfy`, `History.dfy` | moving averages, persistence, restart |
| `HistorySplit.dfy` | the same runs with the read and the write of a save in separate steps |
| `SingleFlight.dfy`, `Startup.dfy` | starting a server |
| `IdleModel.dfy`, `Idle.dfy` | stopping idle servers |
| `IdleSplit.dfy` | the same runs with the check and the installation of a timer in separate steps |
| `IdleCallbacks.dfy` | ... and with the steps of timer callbacks apart as well |
| `Codec.dfy` | the wire format |

## Where the code departs from what it seems to intend

Each of these is kept as the code has it, with its exact condition and inputs that show it:

- `AddPlayer` always counts, `RemovePlayer` only when the name is still tracked: connections that share a name
  leave the counter too high for good (`SharedNameLeaksCount`, `AgreementIffDistinct`, `LostClosesAreForGood`).
- A threshold of zero or less makes failed dials harmless and missed checks fatal
  (`DialsIgnoreNonPositiveThreshold`, `HysteresisNeedsPositiveThresholds`).
- A failing dial marks the backend down before it resets the success counter. A check that passes in between can make
  the recovery early, late or never on the threshold pass (`ExactAheadIff`, `AlwaysExactIff`).
- The cap is checked at selection and counted at completion (`CapacityOverrunBound`, `CapacityOverrunReached`).
- `writeVarInt` does not terminate on negative values (`WriterStopsIff`).
- A tick checks, asks for the status and only then installs the timer, whose callback does not look at protection and
  switch again (`StopViolatesIff`, `QuietIffNothingInGap`). A callback that has started cannot be stopped, and deletes the
  entry of its server by name, which may be that of a newer timer (`CallbackStopViolatesIff`, `DelayAfterExpiryStops`,
  `OrphanedTimerStops`).
- A save reads its slot after the lock is released (`RowIsSlotIffWrittenFresh`, `RestartRebuildsIffWrittenFresh`).
- A score takes 0 for unmeasured: against values better than the minima, as full backends have them on the display, or
  against the history, a better backend can score less (`ScoreMonotoneIff`, `FullBackendShownAboveBetter`,
  `HistoricalScoreMonotoneIff`, `BetterBackendCanLose`).
- A backend can go down between filtering and scoring, and health-score selection then comes back empty although
  something was available (`NothingSelectedIff`, `SelectWhileDisabling`).
- Rotation is uneven across a wrap of the ticket counter unless the number of backends divides 2^64
  (`FairAcrossWrapIff`).

## Model

| member | source | states |
|---|---|---|
| `Strategy.SelectHealthScore` | internal/loadbalancer/strategy.go:63-108 | Health-score selection returns nil exactly when no backend of the list is available; otherwise it returns the first available backend of maximal combined score, and that score is at least 3, whatever the windows, counters, trust and history. |
| `Score.SomeTotalAtLeastThree` | internal/loadbalancer/strategy.go:90-107 | While something is available, some available backend totals at least 3, so the search that starts from -1 cannot end empty. |
| `Score.BestLatencyScoresFifteen` | internal/loadbalancer/backend.go:187-251 | A backend that holds the minimum latency (or has none measured), is below its cap and at least half trusted scores at least 15, whatever its jitter, failures and trend. |
| `Score.MinimaAreBest` | internal/loadbalancer/strategy.go:69-88 | The two minima are positive, and no available backend was measured better than them. |
| `Score.LeastPositiveIsLeast` | internal/loadbalancer/strategy.go:71-79 | The search with the -1 sentinel yields the least positive measurement, which is one of them, and stays at -1 only when there is none. |
| `Score.ScoreMonotone` | internal/loadbalancer/backend.go:187-251 | A healthy, enabled backend no worse in latency, jitter, load, failures, trend and trust never scores lower, through the ratios, clamps and truncation, whenever it was measured, or the worse one was not or is no better than the best; separately for latency and jitter. |
| `Score.ScoreMonotoneIff` | internal/loadbalancer/backend.go:187-251 | That condition is exact, also against full backends alone: for two latencies (or jitters) the score is monotone in all remaining metrics exactly when it holds; where it fails, plausible metrics of two full backends make the truncated score drop. |
| `Status.FullBackendShownAboveBetter` | main.go:478-524 | It fails on the display: of two full backends, dialled in 1 millisecond and in less while the only available one took 2, the faster is no worse in any respect and is shown with 80, the slower with 100. |
| `Status.FullReached` | internal/loadbalancer/server_info.go:60-100 | The full backends of that snapshot are reached by one dial each. |
| `Score.BetterBackendUpNeverTotalsLess` | internal/loadbalancer/strategy.go:63-108 | Of two backends that are up, and possibly full, one that is no worse in any respect, fairly compared with the minima and with no smaller history adjustment never totals less. |
| `Score.BetterBackendNeverTotalsLess` | internal/loadbalancer/strategy.go:63-108 | For available backends the minima of the selection make every comparison fair: one that is no worse in any respect and has no smaller history adjustment never totals less. |
| `Score.BetterBackendCanLose` | internal/loadbalancer/strategy.go:94-104 | On a concrete snapshot the history adjustment makes a backend lose that is faster and no worse in any respect: its latency of 0 is taken for unmeasured, and the slower one is chosen with 108 against 100. |
| `Score.SampledReached` | internal/loadbalancer/server_info.go:60-122 | Its backends are reached by one dial and one close each. |
| `Score.NothingSelectedIff` | internal/loadbalancer/strategy.go:63-108 | When backends go down or are disabled after filtering and before scoring, nothing is selected exactly when every filtered one either has gone and its history adjustment is negative, or is up and its total is negative. |
| `Score.BestLatencyStillSelected` | internal/loadbalancer/strategy.go:63-108 | A filtered backend with the best latency that stays up still totals at least 3, so something is selected. |
| `Score.RelativeScoreInRange` | internal/loadbalancer/backend.go:187-251 | The relative score is always in 0..100. |
| `ScoreSteps.TrendMovesScore` | internal/loadbalancer/backend.go:227-238 | Against the same fully trusted backend at a steady trend the score falls by 10 when the mean of the last quarter of the window exceeds 1.2 times the mean before it, by 5 above 1.1 times; it rises by 10 below 0.8, by 5 below 0.9, and does not move otherwise, within 0..100. |
| `ScoreSteps.NoTrendNoMove` | internal/loadbalancer/backend.go:99-134 | A window of less than eight samples, or one at 0 before its last quarter, moves nothing. |
| `ScoreSteps.FailuresCostTen` | internal/loadbalancer/backend.go:222-224 | Any failures since the last success cost exactly 10 points. |
| `ScoreSteps.LoadCostsItsShare` | internal/loadbalancer/backend.go:214-219 | Connections cost their share of 20 points under the cap: to within a point, and exactly when it is a whole number. |
| `ScoreSteps.LatencyCost` | internal/loadbalancer/backend.go:198-203 | A mean latency costs the part of 40 points by which the best one is smaller: to within a point, and exactly 20 at twice the best. |
| `ScoreSteps.JitterCost` | internal/loadbalancer/backend.go:206-211 | The same for jitter with 30 points, exactly 15 at twice the best. |
| `ScoreSteps.TrustIsAPercentage` | internal/loadbalancer/backend.go:241-242 | A backend trusted at t percent has t percent of its fully trusted score, to within a point of each. |
| `ScoreSteps.BestScoresHundred` | internal/loadbalancer/backend.go:187-251 | The best latency and jitter without load, failures or trend score exactly 100 at full trust. |
| `ScoreSteps.NewBackendScoresHundred` | internal/loadbalancer/backend.go:187-251 | A new backend, with nothing measured, scores 100 against any minima. |
| `ScoreSteps.SlowingBackendNotSelected` | internal/loadbalancer/strategy.go:63-108 | Of two available backends that differ in the trend alone, the one slowed down by more than a fifth totals at least 10 less than the one that became faster by more than a fifth, and is not selected. |
| `Score.AvailableAtIsFilter` | internal/loadbalancer/strategy.go:144-152 | Filtering keeps exactly the available positions, each once and in order. |
| `Score.ChoiceOfAvailable` | internal/loadbalancer/strategy.go:90-107 | The first greatest total in the filtered list is the first greatest among all available backends of the original list. |
| `Score.ChoiceUnique` | internal/loadbalancer/strategy.go:90-107 | There is at most one such choice. |
| `Score.LeastLoadedOfAvailable` | internal/loadbalancer/strategy.go:38-55 | The first minimum of the filtered list is the first available backend with the fewest connections in the original list. |
| `Strategy.FirstBest` | internal/loadbalancer/strategy.go:90-108 | The scoring loop returns nil exactly when every score is negative, in whatever state the backends are by then, and otherwise the first greatest. |
| `Strategy.SelectWhileDisabling` | internal/loadbalancer/strategy.go:63-108 | A selection whose only backend is disabled between filtering and scoring comes back nil exactly when the history adjustment of that backend is negative. |
| `Strategy.Minima` | internal/loadbalancer/strategy.go:69-88 | The loop over the filtered backends finds the least positive latency and jitter, and 1 where nothing was measured. |
| `Strategy.CombinedScore` | internal/loadbalancer/strategy.go:94-100 | The relative score plus the history adjustment, never outside -12..112. |
| `Strategy.FilterAvailable` | internal/loadbalancer/strategy.go:144-152 | The appending loop yields the available backends in order. |
| `Strategy.FilteredAt` | internal/loadbalancer/strategy.go:144-152 | The k-th filtered object stands at the k-th available position of the list. |
| `Strategy.FilteredViews` | internal/loadbalancer/strategy.go:144-152 | Filtering objects and then taking their values is filtering the values. |
| `Strategy.RoundRobin.Select` | internal/loadbalancer/strategy.go:22-30 | Nil exactly when nothing is available, with the counter untouched; otherwise the counter moves on by one modulo 2^64 and its new value, modulo the number of available backends, picks one of them. |
| `Strategy.SelectLeastConnections` | internal/loadbalancer/strategy.go:38-55 | Nil exactly when nothing is available; otherwise the first available backend with the fewest connections. |
| `Strategy.FewestConnections` | internal/loadbalancer/strategy.go:43-54 | The loop with the -1 sentinel finds the first minimum, because no counter is negative in a reachable state. |
| `Strategy.SelectSequential` | internal/loadbalancer/strategy.go:116-123 | Nil exactly when nothing is available; otherwise the head of the filtered list. |
| `Strategy.SelectRandom` | internal/loadbalancer/strategy.go:131-142 | Nil exactly when nothing is available; otherwise the available backend that was drawn, or the first one when drawing fails. |
| `Fairness.RoundRobinIsFair` | internal/loadbalancer/strategy.go:14-30 | Any m selections in a row before the counter wraps choose each of n backends floor(m/n) or ceil(m/n) times, so each exactly once in any n. |
| `Fairness.SelectRepeatedly` | internal/loadbalancer/strategy.go:22-30 | m calls in a row over a list in which nothing changes select each of its n available backends floor(m/n) or ceil(m/n) times, unless the counter wraps. |
| `Fairness.OccurrencesArePicks` | internal/loadbalancer/strategy.go:22-30 | How often a backend was selected is how often its ticket came up, when it occurs once in the list. |
| `Fairness.PicksAsQuotients` | internal/loadbalancer/strategy.go:14-30 | The exact number of picks of each backend, as a difference of two quotients. |
| `Fairness.FairAcrossWrapIff` | internal/loadbalancer/strategy.go:14-30 | Rotation stays fair for every start and every number of selections, wraps included, exactly when the number of backends divides the range of the counter. |
| `Fairness.WrapIsUnfair` | internal/loadbalancer/strategy.go:14-30 | Otherwise, a concrete start and number of selections around the wrap give one backend more than its share. |
| `Status.DisplayAgreesWithSelection` | main.go:478-524 | With distinct addresses each backend is displayed with the score the strategy computes for it, and the first available backend of maximal displayed score is exactly the choice. |
| `Status.ShowScores` | main.go:499-524 | Every position shows the score of the first backend with its address; full or down backends are shown but do not influence the minima. |
| `Status.MinimaSkipping` | main.go:478-499 | One pass that skips unavailable backends finds the minima of the filtered list. |
| `Status.ScoreOfAddress` | main.go:511-524 | The inner search scores the first backend with the given address. |
| `HealthRuns.HealthFollowsStory` | internal/loadbalancer/loadbalancer.go:158-217 | In every run, health depends on nothing but the order in which checks and dials ended: selections, closes, switches, latencies and players do not touch it. |
| `HealthRuns.FailuresSinceLastSuccess` | internal/loadbalancer/backend.go:318-344 | The failure counter is the number of failures, of checks and dials alike, since the last success. |
| `HealthRuns.PassesSinceSetback` | internal/loadbalancer/backend.go:323-344 | While a backend is down, the success counter is the number of checks passed since it went down or since the last missed check. |
| `HealthRuns.TrustClosedForm` | internal/loadbalancer/backend.go:257-270 | Trust is 100 if the backend never recovered, else min(100, 50 + 10k), with k the checks passed while healthy since the last recovery. |
| `HealthRuns.HysteresisOfRuns` | internal/loadbalancer/loadbalancer.go:177-214 | With positive thresholds, in every reachable state up means fewer failures than the one threshold, down means fewer successes than the other, and trust is one of 50, 60, ..., 100. |
| `HealthRuns.GoesDownOnThresholdFailure` | internal/loadbalancer/server_info.go:76-82 | A healthy backend goes down exactly on the failure that completes the threshold since its last success. |
| `HealthRuns.RecoversOnThresholdPass` | internal/loadbalancer/loadbalancer.go:192-210 | A backend recovers exactly on the passed check that completes the threshold since it went down or since the last missed check. |
| `HealthRuns.FlipBudget` | internal/loadbalancer/loadbalancer.go:158-217 | U times the flips down is at most the number of failures, H times the recoveries at most the number of passed checks, and the two kinds of flips alternate. |
| `HealthRuns.HysteresisNeedsPositiveThresholds` | internal/loadbalancer/loadbalancer.go:180-206 | Hysteresis holds of every story exactly when both thresholds are positive. |
| `HealthRuns.DialsIgnoreNonPositiveThreshold` | internal/loadbalancer/server_info.go:79 | With a threshold of zero or less, any missed check takes the backend down, and no failed dial ever does; the latter happens exactly then. |
| `DialGap.ExactAheadIff` | internal/loadbalancer/server_info.go:75-84 | With failing dials in separate steps: after any run, all recoveries come on exactly the threshold pass, as long as no further passed check falls between the guard and the reset of a failing dial, exactly when the backend is up or no pass of its current streak fell there. |
| `DialGap.ExactWithoutGapPasses` | internal/loadbalancer/server_info.go:75-84 | Any run in which no passed check falls into such a gap recovers on exactly the threshold pass. |
| `DialGap.AlwaysExactIff` | internal/loadbalancer/server_info.go:75-84 | All runs of a setup do so exactly when one pass is enough to recover, or when failed dials never take a backend down. |
| `DialGap.RecoversOnCredit` | internal/loadbalancer/loadbalancer.go:197-207 | Also inside gaps: a backend recovers exactly on the pass that completes the threshold since the counter was last zeroed, by a missed check, a reset or a recovery. |
| `DialGap.CounterIsCredit` | internal/loadbalancer/backend.go:323-344 | The success counter is the number of passes since it was last zeroed, in every such run. |
| `DialGap.RunsAligned` | internal/loadbalancer/server_info.go:75-84 | Outside a gap the counter of a backend that is down equals its streak of passes, or stays below it if some pass of the streak fell into a gap. |
| `DialGap.PassBeforeResetIsMisplaced` | internal/loadbalancer/server_info.go:80-81 | For every setup with dials that take backends down and a threshold of two or more, a run in which a pass falls between the two lines. |
| `DialGap.UnsplitDialIsDial` | internal/loadbalancer/server_info.go:75-84 | Failing dials whose steps follow each other at once are the failing dials of the whole-step model. |
| `HealthRuns.WindowRefinesSampleLog` | internal/loadbalancer/backend.go:50-59 | After any run the window is exactly the last windowSize latencies of passed checks and ended dials. |
| `HealthRuns.LastSample` | internal/loadbalancer/backend.go:50-59 | A check that passed and a dial that ended, connected or not, after ms whole milliseconds enter the window as its last sample; nothing else changes it. |
| `HealthRuns.DisabledIsNotChecked` | internal/loadbalancer/loadbalancer.go:174-176 | A run that goes on without enabling a disabled backend starts and ends no check on it, and without a dial in flight leaves its health and window alone. |
| `HealthRuns.SwitchAndCheck` | internal/loadbalancer/loadbalancer.go:235-265 | The switch sets the flag and nothing else, and an enabled backend is checked. |
| `HealthRuns.AfterIsAfterTheLast` | internal/loadbalancer/backend.go:318-344 | The "since the last ..." of the statements above is what it says. |
| `BackendModel.RunsStayValid` | internal/loadbalancer/backend.go:257-302 | In every run trust stays in 50..100, counters are never negative, connections are at least the tracked names, and the window is bounded. |
| `ConnectionRuns.CapacityOverrunBound` | internal/loadbalancer/server_info.go:60-99 | With a cap of M and never more than k dials in flight, connections plus dials in flight are at most M - 1 + k in every reachable state. |
| `ConnectionRuns.CapacityOverrunReached` | internal/loadbalancer/server_info.go:60-99 | For every M and k some run reaches that bound. |
| `ConnectionRuns.AvailabilityOfRuns` | internal/loadbalancer/backend.go:272-283 | In every reachable state a backend with a cap of zero or less is available exactly when it is healthy and enabled, however many connections it has; with a positive cap it must have fewer than that. |
| `ConnectionRuns.UncappedDialsUnlimited` | internal/loadbalancer/backend.go:279-281 | Without a cap any number of dials can be made one after the other, and a further one is selected. |
| `ConnectionRuns.SerialDialsRespectCap` | internal/loadbalancer/backend.go:272-283 | Dials made one at a time never exceed the cap. |
| `ConnectionRuns.ConnectionAccounting` | internal/loadbalancer/backend.go:285-302 | In every run the counter is the number of open connections plus the first closes that found their name gone, and tracked names <= open connections <= counter. |
| `ConnectionRuns.DistinctNamesAgree` | internal/loadbalancer/server_info.go:110-122 | As long as open names stay distinct, the tracked names are exactly the open ones and all three numbers are equal. |
| `ConnectionRuns.AgreementIffDistinct` | internal/loadbalancer/backend.go:285-302 | The three numbers are equal all through a run exactly when its open names stay distinct. |
| `ConnectionRuns.SharedNameLeaksCount` | internal/loadbalancer/backend.go:292-302 | Two connections under one name: after both closed, the counter still stands at one. |
| `ConnectionRuns.LostClosesAreForGood` | internal/loadbalancer/backend.go:285-302 | Once as many closes were lost as the cap allows connections, the backend is never available again, whatever follows. |
| `Stats.WindowIsRecentLog` | internal/loadbalancer/backend.go:50-59 | After any sequence of samples the window is exactly the last min(n, windowSize) of them. |
| `Stats.MeanBetween` | internal/loadbalancer/backend.go:61-73 | The average lies between any bounds on the samples. |
| `Stats.VarianceIdentity` | internal/loadbalancer/backend.go:82-94 | The variance is the mean of the squares minus the square of the mean. |
| `Stats.VarianceZeroIffConstant` | internal/loadbalancer/backend.go:82-94 | The variance is never negative, and zero exactly when all samples are equal. |
| `Stats.VarianceAtMostHalfRangeSquared` | internal/loadbalancer/backend.go:82-94 | The variance is at most the square of half the range. |
| `Stats.JitterIsStandardDeviation` | internal/loadbalancer/backend.go:75-95 | The jitter is the non-negative root of the variance for windows of every size, and zero exactly on constant windows. |
| `Stats.TrendComparesMeans` | internal/loadbalancer/backend.go:99-134 | The trend is above (below) p percent exactly when the mean of the recent quarter is above (below) the older mean by that much. |
| `BackendClass.Backend.constructor` | internal/loadbalancer/backend.go:37-48 | A new backend is healthy, enabled, empty and fully trusted. |
| `BackendClass.Backend.RecordLatency` | internal/loadbalancer/backend.go:50-59 | Drops the oldest sample of a full window and appends the new one; nothing else changes. |
| `BackendClass.Backend.AvgLatency` | internal/loadbalancer/backend.go:61-73 | The loop computes the mean of the window, 0 when it is empty. |
| `BackendClass.Backend.Jitter` | internal/loadbalancer/backend.go:75-95 | The two loops compute the standard deviation, 0 below two samples. |
| `BackendClass.Backend.Trend` | internal/loadbalancer/backend.go:99-134 | The loops compute the change of the mean of the recent quarter in percent, 0 below eight samples. |
| `BackendClass.Backend.RelativeHealthScore` | internal/loadbalancer/backend.go:187-251 | The step-by-step score equals the closed expression over the metrics, is 0 when down or disabled, and stays in 0..100. |
| `BackendClass.Backend.IncreaseTrust` | internal/loadbalancer/backend.go:257-266 | Adds ten up to a hundred; nothing else changes. |
| `BackendClass.Backend.IsAvailable` | internal/loadbalancer/backend.go:272-283 | Enabled, healthy and below its cap, where a cap of zero or less means none. |
| `BackendClass.Backend.AddPlayer` | internal/loadbalancer/backend.go:285-290 | Tracks the name and always raises the counter. |
| `BackendClass.Backend.RemovePlayer` | internal/loadbalancer/backend.go:292-302 | Lowers the counter only when the name was tracked. |
| `LoadBalancer.ServerInfo.Select` | internal/loadbalancer/strategy.go:154-169 | Whatever the strategy, nil exactly when nothing is available, and otherwise what that strategy promises; only round-robin takes a ticket. |
| `LoadBalancer.StrategyByName` | internal/loadbalancer/strategy.go:154-169 | What each configured name selects: the next ticket, the fewest connections, the first available, a drawn one, and the best score for every other name. |
| `LoadBalancer.ServerInfo.Dial` | internal/loadbalancer/server_info.go:60-100 | The selected backend takes exactly one step of the run model, connected or failed, and no other backend changes; a connection is handed out exactly when it connected. |
| `LoadBalancer.FailDial` | internal/loadbalancer/server_info.go:76-84 | The failure path in steps is one failed-dial step of the run model. |
| `LoadBalancer.CompleteDial` | internal/loadbalancer/server_info.go:90-93 | The success path in steps is one successful-dial step of the run model. |
| `LoadBalancer.TrackedConn.Close` | internal/loadbalancer/server_info.go:117-122 | The first close gives the player back, later ones change nothing. |
| `LoadBalancer.FinishCheck` | internal/loadbalancer/loadbalancer.go:177-214 | What follows a ping is one step of the run model for the backend; after a passed one the slot of the backend and the period has one more sample, the latency in whole milliseconds and the standard deviation of the new window, taken as they are or blended in with a tenth. |
| `LoadBalancer.PassedCheckEntersHistory` | internal/loadbalancer/loadbalancer.go:192-195 | The same for the values, with all other slots unchanged; a missed check enters nothing. |
| `LoadBalancer.CheckedIsCheckEnd` | internal/loadbalancer/loadbalancer.go:177-214 | A finished check is the end of a check in the runs of the backend. |
| `LoadBalancer.PassCheck` | internal/loadbalancer/loadbalancer.go:192-213 | A passed check resets failures and counts up; it recovers at the threshold with half trust, or raises trust when already healthy. |
| `LoadBalancer.CheckAllBackends` | internal/loadbalancer/loadbalancer.go:158-217 | One round checks every enabled backend exactly once and leaves disabled ones alone; the history hears of the passed checks in order, each in the period of its own time. |
| `LoadBalancer.RoundIsCheck` | internal/loadbalancer/loadbalancer.go:158-217 | A backend's part in a round is the start and the end of a check in its runs, or nothing when it is disabled. |
| `LoadBalancer.RoundEntersSamples` | internal/loadbalancer/loadbalancer.go:158-217 | A round adds to the samples of every slot, in order, those of the enabled backends with its address whose pings were answered in its period: the milliseconds and the jitter of the window that includes them. |
| `LoadBalancer.RoundIsRun` | internal/loadbalancer/loadbalancer.go:158-217 | A round takes the history of a run to that of a longer run. |
| `LoadBalancer.SwitchBackend` | internal/loadbalancer/loadbalancer.go:235-265 | Finds exactly the first backend of the server with the address, sets its flag and changes nothing else; reports whether it exists. |
| `Ema.AverageClosedForm` | internal/loadbalancer/history.go:166-176 | The average is 0.9^(n-1) of the first sample plus the sum of 0.1 * 0.9^(n-i) of sample i. |
| `Ema.WeightsArePartition` | internal/loadbalancer/history.go:166-176 | The weights are positive and sum to one. |
| `Ema.AverageWithinSamples` | internal/loadbalancer/history.go:166-176 | The average never leaves the range of its samples. |
| `Ema.ConvergesGeometrically` | internal/loadbalancer/history.go:166-176 | k further samples equal to c shrink the distance to c by exactly 0.9^k. |
| `HistoryModel.PeriodIndex` | internal/loadbalancer/history.go:131-134 | The index is below 96 and names the quarter of an hour that contains the time. |
| `HistoryModel.PeriodLabelsDistinct` | internal/loadbalancer/history.go:136-146 | Distinct periods have distinct labels. |
| `HistoryModel.PeriodLabelsChain` | internal/loadbalancer/history.go:136-146 | Each label ends where the next one starts, all around the day. |
| `HistoryModel.PeriodLabelReads` | internal/loadbalancer/history.go:136-146 | Read as hours and minutes, the halves of a label are the start of the period and its end a quarter of an hour later. |
| `HistoryModel.HistoricalScoreBounded` | internal/loadbalancer/history.go:218-255 | The adjustment is in -12..12, and 0 before twenty samples. |
| `HistoryModel.LatencyAdjustmentMonotoneIff` | internal/loadbalancer/history.go:226-241 | A lower latency earns at least the points of a higher one, except exactly when it is 0 and the higher one is positive and below 0.85 of the average. |
| `HistoryModel.JitterAdjustmentMonotoneIff` | internal/loadbalancer/history.go:243-251 | The same for jitter, with 0.7 of the average. |
| `HistoryModel.HistoricalScoreMonotoneIff` | internal/loadbalancer/history.go:218-255 | Values that are no worse, zeros included, score no lower exactly when nothing is hidden by a zero, or a hidden latency is regained by the bands of the jitter (from best to worst for one below 0.7 of its average, any better band otherwise) and a hidden jitter by any better band of the latency. |
| `HistoryModel.HistoricalScoreNegativeIff` | internal/loadbalancer/history.go:218-255 | The adjustment is negative exactly when the latency is above 1.5 of its average, or above 1.2 with a jitter not below 0.7, or the jitter is above 1.5 with a latency not below 0.85. |
| `HistoryRuns.SlotsAverageTheirSamples` | internal/loadbalancer/history.go:148-180 | In every run, with other backends, other slots and saves in between, each slot is the moving average of its own samples and of nothing else. |
| `HistoryRuns.RunsStayConsistent` | internal/loadbalancer/history.go:148-192 | In every run, with saves executed at any time and in any order, each recorded slot matches its row or has a save pending, and unrecorded slots have neither. |
| `HistoryRuns.SaveWritesSlot` | internal/loadbalancer/history.go:182-192 | A save writes label, averages and count of its slot each into its column, and no other row. |
| `HistoryRuns.RestartRebuildsCache` | internal/loadbalancer/history.go:78-128 | Once all saves have run, loading the table gives back the same cache. |
| `HistoryRuns.RestartContinues` | internal/loadbalancer/history.go:78-192 | Two processes in a row, the first of which saved everything, are one long process. |
| `HistorySplit.RowIsSlotIffWrittenFresh` | internal/loadbalancer/history.go:148-192 | With the read and the write of every save in separate steps, after any run that has written all its saves: the row of a recorded slot equals the slot exactly when its last write carries what was read after the last record for it. |
| `HistorySplit.RestartRebuildsIffWrittenFresh` | internal/loadbalancer/history.go:78-192 | ... and loading the table gives back the cache exactly when that is so for every recorded slot. |
| `HistorySplit.ReadIsSlotWhileUnrecorded` | internal/loadbalancer/history.go:178-191 | What a save has read equals the slot exactly as long as no record for the slot came after the read. |
| `HistorySplit.RowIsLastWritten` | internal/loadbalancer/history.go:187-191 | The row of a slot is what its last writer read, or the row the process started on. |
| `HistorySplit.OvertakingLeavesOldRow` | internal/loadbalancer/history.go:178-191 | It happens: if the second of two saves overtakes the first, an old row stays with nothing left to be written. |
| `HistorySplit.UnsplitSaveIsSave` | internal/loadbalancer/history.go:182-192 | A save whose two steps follow each other at once is the save in one step. |
| `HistoryClass.RowByRowIsLoaded` | internal/loadbalancer/history.go:78-128 | Reading the rows one by one, in any order, loads the table. |
| `HistoryClass.HistoryManager.constructor` | internal/loadbalancer/history.go:42-76 | A manager over a table starts in the state of an empty run on it. |
| `HistoryClass.HistoryManager.LoadFromDB` | internal/loadbalancer/history.go:78-128 | The loop over the rows leaves the cache that the table determines; rows of periods out of range only create the entry of their backend. |
| `HistoryClass.HistoryManager.NewSlots` | internal/loadbalancer/history.go:152-164 | The loop builds the 96 empty, labelled periods. |
| `HistoryClass.HistoryManager.Record` | internal/loadbalancer/history.go:148-180 | Recording is one step of the run model: the slot of the local time takes the sample, everything else stays, a save is started. |
| `HistoryClass.HistoryManager.SavePeriodStats` | internal/loadbalancer/history.go:182-192 | A save is one step of the run model: it writes the row of the slot as it is by then. |
| `HistoryClass.HistoryManager.GetPeriodStats` | internal/loadbalancer/history.go:195-208 | Present exactly for a known backend and a period in range, and then the slot. |
| `HistoryClass.HistoryManager.HistoricalScore` | internal/loadbalancer/history.go:218-255 | The step-by-step adjustment equals the sum of its two parts and is at most 12 either way. |
| `Codec.VarIntRoundTrip` | internal/minecraft/ping.go:90-139 | Every non-negative int32 takes one to five bytes, and reading gives it back and leaves the rest of the stream alone. |
| `Codec.VarIntByte` | internal/minecraft/ping.go:90-102 | Byte i of an encoding holds bits 7i to 7i + 6, and its top bit says whether another byte follows. |
| `Codec.ReaderOutcome` | internal/minecraft/ping.go:121-139 | Any input is read as the int32 congruent to its digits modulo 2^32, or is too short, or has five continued bytes and is refused. |
| `Codec.WriteVarInt` | internal/minecraft/ping.go:90-102 | The loop terminates and appends the encoding. |
| `Codec.ReadVarInt` | internal/minecraft/ping.go:121-139 | On every input the loop gives what the decoder says: the value, end of input or too many bytes, and it consumes exactly the bytes it says. |
| `Codec.WriterStopsIff` | internal/minecraft/ping.go:90-102 | The arithmetic shift of the writer reaches zero, so that it stops, exactly for values that are not negative. |
| `Codec.WritePacket` | internal/minecraft/ping.go:109-119 | Appends the length and the data. |
| `Codec.ReadPacket` | internal/minecraft/ping.go:141-154 | On every input gives the packet or the error of the decoder and leaves what the decoder leaves. |
| `Codec.FrameRoundTripIff` | internal/minecraft/ping.go:109-154 | A packet comes back exactly when it has 1 to 2^20 bytes. |
| `Codec.BadLengthRefused` | internal/minecraft/ping.go:141-147 | Empty and oversized packets are refused by their length. |
| `Codec.CutOffIsEof` | internal/minecraft/ping.go:141-154 | A packet that is cut off anywhere is the end of the input. |
| `Codec.PacketsRoundTrip` | internal/minecraft/ping.go:109-154 | Any sequence of such packets is recovered exactly, with what follows left unread. |
| `Codec.WriteString` | internal/minecraft/ping.go:104-107 | Appends the length and the bytes. |
| `Codec.HandshakeRoundTrip` | internal/minecraft/ping.go:49-56 | The handshake decodes to packet 0, version 767, the host, the port and next state 1. |
| `Codec.HandshakeBytes` | internal/minecraft/ping.go:49-56 | Its bytes: 00, FF 05, the length of the host and the host, the port with its high byte first, 01. |
| `Codec.HandshakeInjective` | internal/minecraft/ping.go:49-56 | So it determines the host and the port. |
| `Codec.Ping` | internal/minecraft/ping.go:42-88 | A ping sends exactly the two packets, and succeeds exactly when the response is acceptable. |
| `Codec.ServerReceivesPing` | internal/minecraft/ping.go:49-66 | A server that reads the two packets receives this handshake and the empty status request, with nothing left over. |
| `Codec.StatusResponseAcceptedIff` | internal/minecraft/ping.go:68-87 | A status response with a JSON string is accepted exactly when the string is not empty. |
| `Codec.ResponseOutcome` | internal/minecraft/ping.go:68-87 | Of the packets that start with two non-negative VarInts exactly those with id 0 and a positive length are accepted; another id and a length of 0 are errors of their own. |
| `Codec.UnreadableResponse` | internal/minecraft/ping.go:68-72 | A response cut off or with a bad length is not accepted. |
| `SingleFlight.RunsKeepInv` | internal/dynamicserver/manager.go:107-151 | In every interleaving at the granularity of lock, channel and map, each entry is as far as its leader, each call is on an entry of its own server, and the map holds exactly the entries of active attempts. |
| `SingleFlight.AtMostOneAttempt` | internal/dynamicserver/manager.go:107-126 | At most one start attempt per server is active. |
| `SingleFlight.DeleteRemovesOwnEntry` | internal/dynamicserver/manager.go:121-126 | The delete by name always removes the leader's own entry and no other. |
| `SingleFlight.ReadsAfterWrite` | internal/dynamicserver/manager.go:110-113 | A joiner about to read finds the result written, by the leader of its entry. |
| `SingleFlight.JoinersReturnLeadersResult` | internal/dynamicserver/manager.go:107-151 | Everyone who returns through one entry returns the same result, also those who entered between the close and the delete. |
| `SingleFlight.CallsReturnOutcome` | internal/dynamicserver/manager.go:107-151 | Every call that has returned, leader or joiner, returned the outcome with which the attempt of its entry ended: exactly one step of the run ended that attempt, the leader took it, and it carries the value. |
| `SingleFlight.AttemptEndsOnce` | internal/dynamicserver/manager.go:128-150 | At most one step of a run ends the attempt of an entry. |
| `SingleFlight.StartsAttempt` | internal/dynamicserver/manager.go:115-117 | A call that finds no entry leads an attempt of its own, under a new entry in the map, and no other attempt for the server is active. |
| `SingleFlight.JoinsAttemptInMap` | internal/dynamicserver/manager.go:108-113 | A call that finds an entry joins an active attempt and changes neither map nor entries. |
| `SingleFlight.NoJoinerStaysBlocked` | internal/dynamicserver/manager.go:110-126 | A waiting joiner can go on exactly when its leader has closed the channel or returned. |
| `SingleFlight.SomeCallCanMove` | internal/dynamicserver/manager.go:107-151 | As long as some call has not returned, some call can take a step. |
| `SingleFlight.RunsAreShort` | internal/dynamicserver/manager.go:107-151 | Steps taken plus steps left never exceed 3n for n calls. |
| `SingleFlight.CallTakesItsSteps` | internal/dynamicserver/manager.go:107-151 | What a call has taken and has left add up to three steps for a leader and two for a joiner, at every moment of every run. |
| `SingleFlight.EveryScheduleCompletes` | internal/dynamicserver/manager.go:107-151 | However the calls are scheduled once no new ones come in, the schedule gets stuck exactly when all calls have returned, and that is after exactly as many steps as they had left. |
| `Startup.WaitForServerReady` | internal/dynamicserver/manager.go:153-186 | True exactly when status 3 is read within the attempts, after nothing but transient answers, and a backend then answers within its attempts; polls and total sleep stay within the two timeouts however it ends. |
| `Startup.ReadyIffInTime` | internal/dynamicserver/manager.go:153-216 | Ready means: registered, status 3 after nothing but failed requests and statuses 0, 1 and 2 with room for its attempt in the startup timeout, and an answer with room in the connectivity timeout. |
| `Startup.AttemptMadeIff` | internal/dynamicserver/manager.go:154-156 | Attempt a is made exactly when a + 1 poll intervals fit into the timeout. |
| `Startup.CheckServerConnectivity` | internal/dynamicserver/manager.go:188-216 | True exactly when the server is registered and some backend answers within the attempts; polls and sleep stay within the timeout. |
| `Startup.CheckAnyBackendReachable` | internal/dynamicserver/manager.go:218-253 | True exactly when some backend that resolves answers a ping. |
| `Startup.StartAttempt` | internal/dynamicserver/manager.go:128-150 | True exactly when the server is known, the start was accepted and it became ready. |
| `Startup.SleepsFit` | internal/dynamicserver/manager.go:154-156 | As many sleeps as there are attempts fit into the timeout. |
| `IdleModel.StopTracesBack` | internal/dynamicserver/manager.go:278-419 | In every run, each stop traces back to a tick at least the idle time earlier that saw the server running with no players; from then on every tick that read a player count read 0, auto-shutdown stayed on, and no protection was in force. |
| `IdleModel.TimerMapIsPendingSet` | internal/dynamicserver/manager.go:303-371 | The timer map equals the set of pending timers, each under the name of its server. |
| `IdleModel.TimerPendingIff` | internal/dynamicserver/manager.go:278-440 | A server has a timer exactly when some tick armed it and nothing disturbed it since. |
| `IdleModel.DeadlineIsIdleTimeAfterTick` | internal/dynamicserver/manager.go:331-359 | ... and its deadline is the idle time after that tick. |
| `IdleModel.PendingTimersKnown` | internal/dynamicserver/manager.go:309-335 | Every pending timer belongs to a server with a configured instance, so the callback always has one to stop. |
| `IdleModel.QuietWhileArmed` | internal/dynamicserver/manager.go:278-419 | While a timer is armed, the conditions of a quiet server hold at every step. |
| `IdleModel.UndisturbedTimerStops` | internal/dynamicserver/manager.go:331-355 | Conversely, an armed timer that nothing disturbs stops its server, if the callback finds it registered and empty. |
| `IdleModel.TickLeaves` | internal/dynamicserver/manager.go:278-301 | A tick leaves a protected or unregistered server as it is, takes the timer of one with players away, and never touches a configuration or another server. |
| `IdleModel.DelayLeaves` | internal/dynamicserver/manager.go:373-388 | A delay sets the end of the protection, keeps the switch and takes the timer away. |
| `IdleModel.ClearingLeaves` | internal/dynamicserver/manager.go:390-399 | Clearing ends the protection of a configured server and touches nothing else. |
| `IdleModel.SwitchingLeaves` | internal/dynamicserver/manager.go:401-419 | Switching on keeps protection and timers; switching off ends both for the server. |
| `IdleModel.ShutdownLeavesNoTimer` | internal/dynamicserver/manager.go:429-440 | After the shutdown of the manager no timer is left, in the map or pending. |
| `IdleSplit.StopViolatesIff` | internal/dynamicserver/manager.go:303-360 | With check and installation in separate steps, each at its own time, in every run: a stop falls into a protection (or comes with auto-shutdown off) exactly when a delay that reaches beyond it (or a switching-off) fell between the check and the installation of the turn that armed it, and still stands. |
| `IdleSplit.QuietIffNothingInGap` | internal/dynamicserver/manager.go:303-360 | From the check to the stop no protection was in force and auto-shutdown stayed on at every moment, exactly when no such command fell between the check and the installation. |
| `IdleSplit.EmptySinceCheck` | internal/dynamicserver/manager.go:278-301 | The rest of the guarantee survives: from the check on, every check that could read the player count read 0. |
| `IdleSplit.SplitStopTracesBack` | internal/dynamicserver/manager.go:303-360 | Every stop traces back to a check that saw the server running and empty, an installation after it, and is at least the idle time later than that. |
| `IdleSplit.SplitTimerPendingIff` | internal/dynamicserver/manager.go:303-371 | A server has a timer exactly when some turn armed it and nothing disturbed it since. |
| `IdleSplit.DeadlineAfterInstall` | internal/dynamicserver/manager.go:331-359 | The deadline is the idle time after the installation. |
| `IdleSplit.FaultIffCommandStands` | internal/dynamicserver/manager.go:373-419 | A protection or a switched-off server that was not there before is there exactly when a later command brought it about and none has overwritten it. |
| `IdleSplit.DelayInGapStops` | internal/dynamicserver/manager.go:303-388 | For any times of check, delay and installation: the server is stopped, inside the protection exactly when that ends after the timer is due. |
| `IdleSplit.SwitchInGapStops` | internal/dynamicserver/manager.go:303-419 | The same with the switch: the server is stopped with auto-shutdown off. |
| `IdleSplit.UnsplitTurnIsTick` | internal/dynamicserver/manager.go:278-360 | A turn whose halves follow each other at once is the tick in one step. |
| `IdleCallbacks.CallbackStopViolatesIff` | internal/dynamicserver/manager.go:303-371 | With the callbacks in separate steps as well, in every run: a stop falls into a protection, or comes with auto-shutdown off, exactly when a command stands that came after the check, at a moment when its timer could not be stopped. |
| `IdleCallbacks.BecomesUnstoppable` | internal/dynamicserver/manager.go:331-371 | A timer that is not stopped becomes unstoppable only by expiring, or when the callback of an older timer deletes its entry. |
| `IdleCallbacks.CallbackStopTracesBack` | internal/dynamicserver/manager.go:303-360 | Every stop has a timer that was installed in a turn whose check saw the server running and empty, and comes at least the idle time after the installation. |
| `IdleCallbacks.CommandStopsTimer` | internal/dynamicserver/manager.go:362-419 | A delay or a switching-off that finds the timer stoppable stops it for good. |
| `IdleCallbacks.FaultIffSomeCommandStands` | internal/dynamicserver/manager.go:373-419 | A protection or switched-off server that was not there before is there exactly when a later command stands. |
| `IdleCallbacks.RunsKeepInv` | internal/dynamicserver/manager.go:331-359 | Timer identities are given out once, and no turn under way finds an entry of its server. |
| `IdleCallbacks.DelayAfterExpiryStops` | internal/dynamicserver/manager.go:331-388 | A delay command after the expiry and before the callback takes the lock: the server is stopped, inside its protection exactly when the delay is positive. |
| `IdleCallbacks.OrphanedTimerStops` | internal/dynamicserver/manager.go:331-388 | A late callback deletes the entry of a newer timer; a delay command finds nothing to stop, and the newer timer stops the server, inside its protection exactly when the delay is longer than the idle time. |
| `IdleCallbacks.UnsplitCallbackIsFire` | internal/dynamicserver/manager.go:331-355 | A callback whose steps follow each other at once is the callback in one step, and stops the server exactly when that does. |
| `Idle.Manager.constructor` | internal/dynamicserver/manager.go:79-96 | A new manager is the empty run. |
| `Idle.Manager.CheckServerIdle` | internal/dynamicserver/manager.go:278-301 | One server's turn in a tick is one step of the run model. |
| `Idle.Manager.CheckAllAutoStartServersIdle` | internal/dynamicserver/manager.go:278-301 | A tick is the turns of the auto-start servers in order, each at its own time. |
| `Idle.TickedIsRun` | internal/dynamicserver/manager.go:278-301 | A whole tick on top of any run is that run gone on with one tick step for every position of the list, in order. |
| `Idle.TickArmsIdleServers` | internal/dynamicserver/manager.go:278-360 | After a whole tick every server that is once in the list and was running, empty, known, enabled, unprotected and without a timer has one, due the idle time after its own turn. |
| `Idle.TickCancelsBusyServers` | internal/dynamicserver/manager.go:278-301 | ... and every server with players that is not protected has none. |
| `Idle.Manager.CheckSchedule` | internal/dynamicserver/manager.go:303-329 | The first half goes ahead exactly when auto-shutdown is on, the server is known, has no timer and runs (status 3). |
| `Idle.Manager.InstallTimer` | internal/dynamicserver/manager.go:331-359 | The second half installs a timer for the server, due the idle time later. |
| `Idle.Manager.ScheduleShutdown` | internal/dynamicserver/manager.go:303-360 | Both halves: installs a timer exactly when the first half goes ahead. |
| `Idle.Manager.CancelShutdown` | internal/dynamicserver/manager.go:362-371 | Stops the timer of the server, if any, and takes it out of the map. |
| `Idle.Manager.SetShutdownDelay` | internal/dynamicserver/manager.go:373-388 | The command is one step: protection is set, a timer is cancelled. |
| `Idle.Manager.ClearProtectionPeriod` | internal/dynamicserver/manager.go:390-399 | The command is one step: protection ends for a configured server. |
| `Idle.Manager.SetAutoShutdownEnabled` | internal/dynamicserver/manager.go:401-419 | The command is one step: switching off also cancels the timer and clears the protection, switching on does neither. |
| `Idle.Manager.TimerFired` | internal/dynamicserver/manager.go:331-355 | The callback is one step, and stops the instance exactly when the server is registered and empty. |
| `Idle.Manager.Shutdown` | internal/dynamicserver/manager.go:429-440 | Stops all timers and empties the map. |

## Left out

- Floating point: averages, jitter, trend and scores are over exact reals; rounding is not modelled. `math.Sqrt` is a
  parameter assumed to return the non-negative root.
- Integer width: counters and thresholds are unbounded; overflow of the int32 counters and the int32 conversion of
  thresholds are not modelled. The round-robin counter and VarInt values do wrap as in the code.
- Bitwise or and shift in the VarInt reader are written as addition and powers of two, wrapped to 32 bits.
- Strategy.SelectHealthScore: works on one snapshot of the backends, one clock reading and one history. Changes of the
  flags between filtering and scoring are `Score.NothingSelectedIff`; changes of windows and counters in between are not
  modelled beyond `Strategy.FirstBest`.
- LoadBalancer.ServerInfo.Dial: in the runs of `BackendModel` selection and completion are separate steps and each
  completion is one; `DialGap` takes failing dials apart, with the counter and the latency as one step and the two reads
  of the guard as one.
- BackendClass.Backend.RecordLatency: the window size is at least 1, because the code panics on the first sample when it is 0.
- LoadBalancer.CheckAllBackends: the loops over servers and over the backends of a server are one loop over a list in
  arbitrary order, in which no backend occurs twice, and the answers of the pings, with the local times, are inputs; lastCheckTime and logging are left out.
- LoadBalancer.SwitchBackend: stands for both DisableBackend and EnableBackend.
- HistoryClass.HistoryManager.Record: the local time is an argument; concurrent saves are steps on values, not goroutines, and a save reads all fields of its slot in one step.
- SQLite: the table is a map from (address, period) to row; statement errors, a closed or missing database and the
  updated_at column are left out, as are rows lost because the process ends with saves pending.
- Startup.WaitForServerReady: the poll interval is at least 1 second; with 0 the code divides by zero. What the API, the
  resolver and the backends answer at each attempt is an input, and the context is only looked at between polls.
- Startup.StartAttempt: a panic inside the attempt is not modelled.
- SingleFlight.RunsKeepInv: the interleavings are on values; the Go memory model enters only as the order of the
  write, the close and the receive.
- IdleModel.StopTracesBack: a server's turn in a tick, a command and a timer callback are one step each; with the
  tick split the guarantee needs the condition of `IdleSplit.StopViolatesIff`, with the callbacks split as well that of
  `IdleCallbacks.CallbackStopViolatesIff`. In both the checks and the status they read are one step,
  and so are the start of the timer and its entry in the map. Wall clock and timer clock are one clock in milliseconds
  that never runs backwards.
- Idle.Manager.TimerFired: takes the instance id that was captured when the timer was installed from the configuration,
  which does not change; a pending timer only exists for a server that has one (`IdleModel.PendingTimersKnown`).
- Codec.Ping: resolving the address, deadlines, write errors and the parsing of host and port are left out; the peer's
  answer is one byte sequence.
- `HealthScore` (marked legacy, used by no strategy), `BackendStats`, `GetPlayers` and the other getters: they would only add
  easy members.
- HTTP clients, permissions, whitelist, configuration, commands and messages in `main.go`, `IsServerStarting`,
  `periodicIdleCheck` and `healthCheckLoop` (tickers around the modelled steps).
- The random source is an input; any number below the bound, or a failure.
